/** Sorting records by a key of two names. */
module StableSort {

  // Sorting records by a key of two names, as `sort_by` does: in order of the keys, and records with
  // one key in the order they had. What is written in that order does not depend on the order that
  // the records came in, exactly when records with one key are the same.

  import opened MirTree
  import opened Multisets

  /** Strings compare by their characters, a prefix before what it begins. */
  predicate Less(a: string, b: string) {
    b != "" && (a == "" || a[0] < b[0] || (a[0] == b[0] && Less(a[1..], b[1..])))
  }

  predicate KeyLess<T>(a: Keyed<T>, b: Keyed<T>) {
    Less(a.first, b.first) || (a.first == b.first && Less(a.second, b.second))
  }

  predicate SameKey<T>(a: Keyed<T>, b: Keyed<T>) { a.first == b.first && a.second == b.second }

  function Insert<T>(x: Keyed<T>, s: seq<Keyed<T>>): seq<Keyed<T>> {
    if s == [] then [x]
    else if KeyLess(s[0], x) then [s[0]] + Insert(x, s[1..])
    else [x] + s
  }

  function Sort<T>(s: seq<Keyed<T>>): seq<Keyed<T>> { if s == [] then [] else Insert(s[0], Sort(s[1..])) }

  // ----- the order of keys ------------------------------------------------------------------------

  lemma {:induction false} LessIsTotal(a: string, b: string)
    ensures a == b || Less(a, b) || Less(b, a)
    ensures !(Less(a, b) && Less(b, a)) && !Less(a, a)
  {
    if a != "" && b != "" {
      LessIsTotal(a[1..], b[1..]);
      if a[0] == b[0] && a[1..] == b[1..] {
        assert a == [a[0]] + a[1..] && b == [b[0]] + b[1..];
      }
    }
    if a != "" {
      LessIsTotal(a[1..], a[1..]);
    }
  }

  /** The order of strings is that of their first difference, with the end before everything. */
  lemma {:induction false} LessIsLexicographic(a: string, b: string)
    ensures Less(a, b) <==>
      exists k :: 0 <= k <= |a| && k < |b| && a[..k] == b[..k] && (k == |a| || a[k] < b[k])
  {
    if Less(a, b) {
      var k := FirstDifference(a, b);
    }
    if k :| 0 <= k <= |a| && k < |b| && a[..k] == b[..k] && (k == |a| || a[k] < b[k]) {
      AfterCommon(a, b, k);
    }
  }

  lemma {:induction false} FirstDifference(a: string, b: string) returns (k: nat)
    requires Less(a, b)
    ensures k <= |a| && k < |b| && a[..k] == b[..k] && (k == |a| || a[k] < b[k])
  {
    if a == "" || a[0] < b[0] {
      k := 0;
    } else {
      var rest := FirstDifference(a[1..], b[1..]);
      k := rest + 1;
      assert a[..k] == [a[0]] + a[1..][..rest] && b[..k] == [b[0]] + b[1..][..rest];
    }
  }

  lemma {:induction false} AfterCommon(a: string, b: string, k: nat)
    requires k <= |a| && k < |b| && a[..k] == b[..k] && (k == |a| || a[k] < b[k])
    ensures Less(a, b)
  {
    if k > 0 {
      assert a[0] == a[..k][0] == b[0];
      assert a[1..][..k - 1] == a[..k][1..] && b[1..][..k - 1] == b[..k][1..];
      AfterCommon(a[1..], b[1..], k - 1);
    }
  }

  /** Keys compare by the first name, and by the second when the first is the same. */
  lemma {:induction false} KeyOrder<T>(a: Keyed<T>, b: Keyed<T>)
    ensures Less(a.first, b.first) ==> KeyLess(a, b) && !KeyLess(b, a)
    ensures a.first == b.first ==> (KeyLess(a, b) <==> Less(a.second, b.second))
  {
    LessIsTotal(a.first, b.first);
    hide Less;
  }

  lemma {:induction false} LessChains(a: string, b: string, c: string)
    requires Less(a, b) && Less(b, c)
    ensures Less(a, c)
  {
    if a != "" && a[0] == b[0] == c[0] {
      LessChains(a[1..], b[1..], c[1..]);
    }
  }

  lemma {:induction false} KeysTotal<T>(a: Keyed<T>, b: Keyed<T>)
    ensures SameKey(a, b) || KeyLess(a, b) || KeyLess(b, a)
    ensures !(KeyLess(a, b) && KeyLess(b, a)) && !(SameKey(a, b) && KeyLess(a, b))
  {
    hide Less;
    LessIsTotal(a.first, b.first);
    LessIsTotal(a.second, b.second);
  }

  lemma {:induction false} KeysChain<T>(a: Keyed<T>, b: Keyed<T>, c: Keyed<T>)
    requires !KeyLess(b, a) && !KeyLess(c, b)
    ensures !KeyLess(c, a)
  {
    hide Less;
    LessIsTotal(a.first, b.first);
    LessIsTotal(a.second, b.second);
    LessIsTotal(b.first, c.first);
    LessIsTotal(b.second, c.second);
    LessIsTotal(a.first, c.first);
    LessIsTotal(a.second, c.second);
    if Less(c.first, a.first) {
      if Less(a.first, b.first) {
        LessChains(c.first, a.first, b.first);
      }
    } else if a.first == c.first && Less(c.second, a.second) {
      if Less(a.first, b.first) {
      } else if Less(a.second, b.second) {
        LessChains(c.second, a.second, b.second);
      }
    }
  }

  // ----- the sort sorts ---------------------------------------------------------------------------

  ghost predicate Ordered<T>(s: seq<Keyed<T>>) { forall i, j :: 0 <= i < j < |s| ==> !KeyLess(s[j], s[i]) }

  lemma {:induction false} InsertOrdered<T>(x: Keyed<T>, s: seq<Keyed<T>>)
    requires Ordered(s)
    ensures Ordered(Insert(x, s))
    ensures forall i :: 0 <= i < |Insert(x, s)| ==> Insert(x, s)[i] == x || Insert(x, s)[i] in s
  {
    hide KeyLess;
    if s != [] {
      if KeyLess(s[0], x) {
        KeysTotal(s[0], x);
        InsertOrdered(x, s[1..]);
      } else {
        forall j | 0 <= j < |s| ensures !KeyLess(s[j], x) {
          if j > 0 {
            KeysChain(x, s[0], s[j]);
          }
        }
      }
    }
  }

  lemma {:induction false} SortOrdered<T>(s: seq<Keyed<T>>)
    ensures Ordered(Sort(s))
  {
    if s != [] {
      SortOrdered(s[1..]);
      InsertOrdered(s[0], Sort(s[1..]));
    }
  }

  /** The records with the key of `k`, in their order. */
  function Alike<T>(s: seq<Keyed<T>>, k: Keyed<T>): seq<Keyed<T>> {
    if s == [] then []
    else (if SameKey(s[0], k) then [s[0]] else []) + Alike(s[1..], k)
  }

  lemma {:induction false} AlikeCons<T>(x: Keyed<T>, s: seq<Keyed<T>>, k: Keyed<T>)
    ensures Alike([x] + s, k) == (if SameKey(x, k) then [x] else []) + Alike(s, k)
  {
    assert ([x] + s)[1..] == s;
  }

  lemma {:induction false} InsertAlike<T>(x: Keyed<T>, s: seq<Keyed<T>>, k: Keyed<T>)
    ensures Alike(Insert(x, s), k) == (if SameKey(x, k) then [x] else []) + Alike(s, k)
  {
    hide KeyLess, Alike;
    if s == [] {
      AlikeCons(x, s, k);
      assert [x] + s == [x];
    } else if KeyLess(s[0], x) {
      KeysTotal(s[0], x);
      InsertAlike(x, s[1..], k);
      AlikeCons(s[0], Insert(x, s[1..]), k);
      AlikeCons(s[0], s[1..], k);
      assert s == [s[0]] + s[1..];
    } else {
      AlikeCons(x, s, k);
    }
  }

  /** Records with one key keep their order. */
  lemma {:induction false} SortIsStable<T>(s: seq<Keyed<T>>, k: Keyed<T>)
    ensures Alike(Sort(s), k) == Alike(s, k)
  {
    if s != [] {
      SortIsStable(s[1..], k);
      InsertAlike(s[0], Sort(s[1..]), k);
    }
  }

  lemma {:induction false} InsertKeeps<T>(x: Keyed<T>, s: seq<Keyed<T>>)
    ensures multiset(Insert(x, s)) == multiset(s) + multiset{x}
  {
    hide KeyLess;
    if s != [] {
      if KeyLess(s[0], x) {
        InsertKeeps(x, s[1..]);
        Front(s);
        Front([s[0]] + Insert(x, s[1..]));
      } else {
        Front([x] + s);
      }
    }
  }

  lemma {:induction false} SortKeeps<T>(s: seq<Keyed<T>>)
    ensures multiset(Sort(s)) == multiset(s)
  {
    if s != [] {
      SortKeeps(s[1..]);
      InsertKeeps(s[0], Sort(s[1..]));
      Front(s);
    }
  }

  // ----- when the order that records came in does not matter ----------------------------------------

  /** Records with one key are the same record. */
  ghost predicate KeysName<T>(m: multiset<Keyed<T>>) { forall x, y :: x in m && y in m && SameKey(x, y) ==> x == y }

  lemma {:induction false} FirstsAgree<T>(s: seq<Keyed<T>>, t: seq<Keyed<T>>)
    requires Ordered(s) && Ordered(t) && multiset(s) == multiset(t) && KeysName(multiset(s)) && s != [] && t != []
    ensures s[0] == t[0]
  {
    hide KeyLess;
    assert s[0] in multiset(t) && t[0] in multiset(s);
    var i :| 0 <= i < |t| && t[i] == s[0];
    var j :| 0 <= j < |s| && s[j] == t[0];
    KeysTotal(s[0], t[0]);
    assert i > 0 ==> !KeyLess(t[i], t[0]);
    assert j > 0 ==> !KeyLess(s[j], s[0]);
  }

  lemma {:induction false} OrderedUnique<T>(s: seq<Keyed<T>>, t: seq<Keyed<T>>)
    requires Ordered(s) && Ordered(t) && multiset(s) == multiset(t) && KeysName(multiset(s))
    ensures s == t
    decreases |s|
  {
    hide KeyLess;
    SameLength(s, t);
    if s != [] {
      FirstsAgree(s, t);
      Front(s);
      Front(t);
      CancelOne(multiset(s[1..]), multiset(t[1..]), s[0]);
      OrderedUnique(s[1..], t[1..]);
      assert s == [s[0]] + s[1..] && t == [t[0]] + t[1..];
    }
  }

  ghost predicate OrderFree<T(!new)>(s: seq<Keyed<T>>) {
    forall t :: multiset(t) == multiset(s) ==> Sort(t) == Sort(s)
  }

  /** Sorting forgets the order that the records came in exactly when no two different records have
      one key. */
  lemma {:induction false} SortForgetsOrder<T(!new)>(s: seq<Keyed<T>>)
    ensures OrderFree(s) <==> KeysName(multiset(s))
  {
    hide KeyLess, SameKey;
    if KeysName(multiset(s)) {
      forall t | multiset(t) == multiset(s) ensures Sort(t) == Sort(s) {
        SortOrdered(s);
        SortOrdered(t);
        SortKeeps(s);
        SortKeeps(t);
        OrderedUnique(Sort(t), Sort(s));
      }
    } else {
      var x, y :| x in multiset(s) && y in multiset(s) && SameKey(x, y) && x != y;
      TiesKeepOrder(s, x, y);
    }
  }

  lemma {:induction false} SeqOf<T>(m: multiset<T>) returns (s: seq<T>)
    ensures multiset(s) == m
    decreases |m|
  {
    if m == multiset{} {
      s := [];
    } else {
      var x :| x in m;
      var rest := SeqOf(m - multiset{x});
      s := [x] + rest;
      Front(s);
    }
  }

  /** Two different records with one key at the front come out in the order they went in. */
  lemma {:induction false} TwoOrders<T>(x: Keyed<T>, y: Keyed<T>, rest: seq<Keyed<T>>)
    requires SameKey(x, y) && x != y
    ensures Sort([x] + ([y] + rest)) != Sort([y] + ([x] + rest))
  {
    hide Sort, KeyLess;
    SortIsStable([x] + ([y] + rest), x);
    SortIsStable([y] + ([x] + rest), x);
    AlikeCons(x, [y] + rest, x);
    AlikeCons(y, [x] + rest, x);
    assert Alike([x] + ([y] + rest), x)[0] == x && Alike([y] + ([x] + rest), x)[0] == y;
  }

  lemma {:induction false} TiesKeepOrder<T(!new)>(s: seq<Keyed<T>>, x: Keyed<T>, y: Keyed<T>)
    requires x in multiset(s) && y in multiset(s) && SameKey(x, y) && x != y
    ensures !OrderFree(s)
  {
    hide Sort, Alike, SameKey, KeyLess;
    var rest := RestOf(multiset(s), x, y);
    TwoOrders(x, y, rest);
    if OrderFree(s) {
      SortsAlike(s, [x] + ([y] + rest));
      SortsAlike(s, [y] + ([x] + rest));
    }
  }

  lemma {:induction false} SortsAlike<T(!new)>(s: seq<Keyed<T>>, t: seq<Keyed<T>>)
    requires OrderFree(s) && multiset(t) == multiset(s)
    ensures Sort(t) == Sort(s)
  {
  }

  lemma {:induction false} RestOf<T>(m: multiset<T>, x: T, y: T) returns (rest: seq<T>)
    requires x in m && y in m && x != y
    ensures multiset([x] + ([y] + rest)) == m && multiset([y] + ([x] + rest)) == m
  {
    rest := SeqOf(m - multiset{x} - multiset{y});
    TwoInFront(x, y, rest);
    TwoInFront(y, x, rest);
    TakeTwo(m, x, y);
    AddTwo(multiset(rest), x, y);
  }

  lemma {:induction false} AddTwo<T>(m: multiset<T>, x: T, y: T)
    ensures m + multiset{x} + multiset{y} == m + multiset{y} + multiset{x}
  {
  }

  lemma {:induction false} TwoInFront<T>(x: T, y: T, rest: seq<T>)
    ensures multiset([x] + ([y] + rest)) == multiset(rest) + multiset{y} + multiset{x}
  {
    Front([y] + rest);
    Front([x] + ([y] + rest));
    assert ([y] + rest)[1..] == rest && ([x] + ([y] + rest))[1..] == [y] + rest;
  }

  lemma {:induction false} TakeTwo<T>(m: multiset<T>, x: T, y: T)
    requires x in m && y in m && x != y
    ensures m - multiset{x} - multiset{y} + multiset{y} + multiset{x} == m
  {
  }
}
