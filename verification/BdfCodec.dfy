/** BDF: what decoding and encoding make of each other. */
module BdfCodec {

  // The BDF v0 codec: `to_bytes` and `from_bytes` as functions, and what one undoes of the other.
  //
  // The decoder builds each map with IndexMap::insert, which keeps a repeated key's first place
  // and last value. Decoding is therefore reading followed by that collapse, and the collapse is
  // the only thing that keeps decoding from being injective.

  import opened BdfValue
  import opened BdfParse

  // ----- the collapse of repeated keys ------------------------------------------------------

  function IndexOf(entries: seq<Entry>, key: bytes): (i: nat)
    ensures i <= |entries|
    ensures i < |entries| ==> entries[i].key == key
    ensures forall j :: 0 <= j < i ==> entries[j].key != key
  {
    if entries == [] || entries[0].key == key then 0 else 1 + IndexOf(entries[1..], key)
  }

  /** `IndexMap::insert`: the first place, the last value. */
  function InsertEntry(entries: seq<Entry>, e: Entry): seq<Entry> {
    var i := IndexOf(entries, e.key);
    if i < |entries| then entries[i := e] else entries + [e]
  }

  /** The value the decoder builds from what a stream spells. */
  function Collapse(v: Value): Value
    decreases v, 1
  {
    match v
    case Array(items) => Array(CollapseItems(items))
    case Map(entries) => Map(CollapseEntries(entries))
    case _ => v
  }

  function CollapseItems(items: seq<Value>): (r: seq<Value>)
    ensures |r| == |items|
    decreases items, 0
  {
    if items == [] then [] else CollapseItems(items[..|items| - 1]) + [Collapse(items[|items| - 1])]
  }

  function CollapseEntries(entries: seq<Entry>): (r: seq<Entry>)
    ensures |r| <= |entries|
    decreases entries, 0
  {
    if entries == [] then []
    else
      var last := entries[|entries| - 1];
      InsertEntry(CollapseEntries(entries[..|entries| - 1]), Entry(last.key, Collapse(last.val)))
  }

  // ----- what the collapse keeps and loses -----------------------------------------------------

  lemma {:induction false} EncItemsSnoc(items: seq<Value>, v: Value)
    ensures EncItems(items + [v]) == EncItems(items) + Enc(v)
  {
    EncItemsAppend(items, [v]);
    assert EncItems([v]) == Enc(v) + EncItems([]);
  }

  lemma {:induction false} EncEntriesSnoc(entries: seq<Entry>, e: Entry)
    ensures EncEntries(entries + [e]) == EncEntries(entries) + EncEntry(e)
  {
    EncEntriesAppend(entries, [e]);
    assert EncEntries([e]) == EncEntry(e) + EncEntries([]);
  }

  lemma {:induction false} EncEntriesUpdate(entries: seq<Entry>, i: nat, e: Entry)
    requires i < |entries|
    ensures |EncEntries(entries[i := e])| + |EncEntry(entries[i])| == |EncEntries(entries)| + |EncEntry(e)|
  {
    var a, z := entries[..i], entries[i + 1..];
    assert entries == (a + [entries[i]]) + z && entries[i := e] == (a + [e]) + z;
    EncEntriesAppend(a + [entries[i]], z);
    EncEntriesAppend(a + [e], z);
    EncEntriesSnoc(a, entries[i]);
    EncEntriesSnoc(a, e);
  }

  /** Inserting never writes more than appending, and writes less when the key is already there. */
  lemma {:induction false} InsertLength(entries: seq<Entry>, e: Entry)
    ensures var n := |EncEntries(InsertEntry(entries, e))|;
      if IndexOf(entries, e.key) == |entries| then n == |EncEntries(entries)| + |EncEntry(e)|
      else n < |EncEntries(entries)| + |EncEntry(e)|
  {
    var i := IndexOf(entries, e.key);
    if i < |entries| {
      EncEntriesUpdate(entries, i, e);
    } else {
      EncEntriesSnoc(entries, e);
    }
  }

  lemma {:induction false} InsertKeepsDistinct(entries: seq<Entry>, e: Entry)
    requires DistinctKeys(entries)
    ensures DistinctKeys(InsertEntry(entries, e))
  {
  }

  ghost predicate CanonicalEntries(entries: seq<Entry>) {
    DistinctKeys(entries) && SpellableEntries(entries)
    && forall i :: 0 <= i < |entries| ==> NoRepeats(entries[i].val)
  }

  ghost predicate CanonicalItems(items: seq<Value>) {
    forall i :: 0 <= i < |items| ==> Canonical(items[i])
  }

  /** The collapse of anything a stream can spell is a canonical value, no longer than the
      original, and as long exactly when the original repeats no key, when it changes nothing. */
  lemma {:induction false} CollapseExact(v: Value)
    requires Spellable(v)
    ensures Canonical(Collapse(v)) && |Enc(Collapse(v))| <= |Enc(v)|
    ensures |Enc(Collapse(v))| == |Enc(v)| <==> NoRepeats(v)
    ensures NoRepeats(v) ==> Collapse(v) == v
    decreases v, 1
  {
    match v
    case Array(items) => CollapseItemsExact(items);
    case Map(entries) => CollapseEntriesExact(entries);
    case _ =>
  }

  ghost predicate ItemsRepeatNothing(items: seq<Value>) { forall i :: 0 <= i < |items| ==> NoRepeats(items[i]) }

  lemma {:induction false} ItemsSnoc(front: seq<Value>, last: Value)
    ensures ItemsRepeatNothing(front + [last]) <==> ItemsRepeatNothing(front) && NoRepeats(last)
    ensures CanonicalItems(front + [last]) <==> CanonicalItems(front) && Canonical(last)
    ensures SpellableItems(front + [last]) <==> SpellableItems(front) && Spellable(last)
  {
    hide NoRepeats, Canonical, Spellable;
    var items := front + [last];
    assert items[|front|] == last && forall i :: 0 <= i < |front| ==> items[i] == front[i];
  }

  lemma {:induction false} NoItemsCollapse()
    ensures CollapseItems([]) == [] && CanonicalItems([]) && ItemsRepeatNothing([])
  {
  }

  lemma {:induction false} CollapseSnoc(front: seq<Value>, last: Value)
    ensures CollapseItems(front + [last]) == CollapseItems(front) + [Collapse(last)]
  {
    assert (front + [last])[..|front|] == front;
  }

  lemma {:induction false} CollapseItemsExact(items: seq<Value>)
    requires SpellableItems(items)
    ensures CanonicalItems(CollapseItems(items)) && |EncItems(CollapseItems(items))| <= |EncItems(items)|
    ensures |EncItems(CollapseItems(items))| == |EncItems(items)| <==> ItemsRepeatNothing(items)
    ensures ItemsRepeatNothing(items) ==> CollapseItems(items) == items
    decreases items, 0
  {
    hide EncItems, Collapse, CollapseItems, Enc, NoRepeats, Canonical, Spellable, SpellableItems, CanonicalItems,
      ItemsRepeatNothing;
    if items == [] {
      NoItemsCollapse();
    } else {
      var front, last := items[..|items| - 1], items[|items| - 1];
      assert items == front + [last];
      ItemsSnoc(front, last);
      CollapseSnoc(front, last);
      CollapseItemsExact(front);
      CollapseExact(last);
      ItemsSnoc(CollapseItems(front), Collapse(last));
      EncItemsSnoc(front, last);
      EncItemsSnoc(CollapseItems(front), Collapse(last));
    }
  }

  /** The collapsed keys are the keys written. */
  lemma {:induction false} CollapseKeys(entries: seq<Entry>, key: bytes)
    ensures IndexOf(CollapseEntries(entries), key) < |CollapseEntries(entries)|
       <==> exists i :: 0 <= i < |entries| && entries[i].key == key
    decreases |entries|
  {
    if entries != [] {
      var front, last := entries[..|entries| - 1], entries[|entries| - 1];
      CollapseKeys(front, key);
      var c := CollapseEntries(front);
      var i := IndexOf(c, last.key);
      var r := CollapseEntries(entries);
      assert r == if i < |c| then c[i := r[i]] else c + [r[i]];
      assert r[i].key == last.key;
      assert forall k :: 0 <= k < |front| ==> front[k] == entries[k];
      if IndexOf(c, key) < |c| {
        assert r[IndexOf(c, key)].key == key;
      }
    }
  }

  ghost predicate EntriesRepeatNothing(entries: seq<Entry>) {
    DistinctKeys(entries) && forall i :: 0 <= i < |entries| ==> NoRepeats(entries[i].val)
  }

  lemma {:induction false} CollapseEntriesExact(entries: seq<Entry>)
    requires SpellableEntries(entries)
    ensures CanonicalEntries(CollapseEntries(entries))
    ensures |EncEntries(CollapseEntries(entries))| <= |EncEntries(entries)|
    ensures |EncEntries(CollapseEntries(entries))| == |EncEntries(entries)| <==> EntriesRepeatNothing(entries)
    ensures EntriesRepeatNothing(entries) ==> CollapseEntries(entries) == entries
    decreases entries, 0
  {
    hide EncEntries, Collapse, Enc, NoRepeats, Spellable, InsertEntry;
    if entries != [] {
      var front, last := entries[..|entries| - 1], entries[|entries| - 1];
      CollapseEntriesExact(front);
      CollapseExact(last.val);
      SnocExact(front, last);
      assert entries == front + [last];
    }
  }

  lemma {:induction false} SnocExact(front: seq<Entry>, last: Entry)
    requires SpellableEntries(front) && SpellableEntry(last)
    requires CanonicalEntries(CollapseEntries(front)) && Canonical(Collapse(last.val))
    requires |EncEntries(CollapseEntries(front))| <= |EncEntries(front)|
    requires |EncEntries(CollapseEntries(front))| == |EncEntries(front)| <==> EntriesRepeatNothing(front)
    requires EntriesRepeatNothing(front) ==> CollapseEntries(front) == front
    requires |Enc(Collapse(last.val))| <= |Enc(last.val)|
    requires |Enc(Collapse(last.val))| == |Enc(last.val)| <==> NoRepeats(last.val)
    requires NoRepeats(last.val) ==> Collapse(last.val) == last.val
    ensures var r := InsertEntry(CollapseEntries(front), Entry(last.key, Collapse(last.val)));
      && CanonicalEntries(r)
      && |EncEntries(r)| <= |EncEntries(front + [last])|
      && (|EncEntries(r)| == |EncEntries(front + [last])| <==> EntriesRepeatNothing(front + [last]))
      && (EntriesRepeatNothing(front + [last]) ==> r == front + [last])
  {
    hide EncEntries, CollapseEntries, Collapse, Enc, NoRepeats, EncBytes;
    var c, e := CollapseEntries(front), Entry(last.key, Collapse(last.val));
    InsertLength(c, e);
    InsertKeepsDistinct(c, e);
    EncEntriesSnoc(front, last);
    CollapseKeys(front, last.key);
    SnocRepeats(front, last);
  }

  lemma {:induction false} SnocRepeats(front: seq<Entry>, last: Entry)
    ensures EntriesRepeatNothing(front + [last]) <==>
      EntriesRepeatNothing(front) && NoRepeats(last.val)
      && !exists i :: 0 <= i < |front| && front[i].key == last.key
  {
    var all := front + [last];
    assert forall i :: 0 <= i < |front| ==> all[i] == front[i];
    assert all[|front|] == last;
  }

  // ----- decoding ------------------------------------------------------------------------------

  /** `from_bytes` */
  function FromBytes(b: bytes): Result<Value> {
    if |b| < 4 then Failure(BadMagic(b))
    else if b[..4] != MAGIC then Failure(BadMagic(b[..4]))
    else
      match Parse(b, 4)
      case Err(e) => Failure(e)
      case Ok(v, p) =>
        if p < |b| then Failure(TrailingBytes(p, |b| - p)) else Success(Collapse(v))
  }

  /** Whatever a stream spells, repeated keys and all, decodes to its collapse, and anything after it is
      reported exactly. */
  lemma {:induction false} SpelledDecodes(v: Value, x: bytes)
    requires Spellable(v)
    ensures FromBytes(ToBytes(v) + x)
         == if x == [] then Success(Collapse(v)) else Failure(TrailingBytes(|ToBytes(v)|, |x|))
  {
    var b := ToBytes(v) + x;
    assert b[..4] == MAGIC && b[4..4 + |Enc(v)|] == Enc(v);
    ParseOfEnc(b, 4, v);
  }

  /** Every value comes back from its bytes, and anything after them is reported exactly. */
  lemma {:induction false} RoundTrip(v: Value, x: bytes)
    requires Canonical(v)
    ensures FromBytes(ToBytes(v) + x)
         == if x == [] then Success(v) else Failure(TrailingBytes(|ToBytes(v)|, |x|))
  {
    SpelledDecodes(v, x);
    CollapseExact(v);
  }

  /** Two values with the same bytes, or one's bytes starting the other's, are the same value. */
  lemma {:induction false} PrefixFree(v: Value, w: Value, x: bytes)
    requires Canonical(v) && Canonical(w) && ToBytes(v) + x == ToBytes(w)
    ensures x == [] && v == w
  {
    RoundTrip(v, x);
    RoundTrip(w, []);
    assert ToBytes(w) + [] == ToBytes(w);
  }

  /** What an accepted stream spelled, repeated keys and all. */
  function Spelled(b: bytes): (v: Value)
    requires FromBytes(b).Success?
  {
    Parse(b, 4).value
  }

  /** Re-encoding an accepted stream is never longer, and gives the stream back exactly when
      no map in the stream repeats a key. */
  lemma {:induction false} Reencode(b: bytes)
    requires FromBytes(b).Success?
    ensures var v := FromBytes(b).value;
      && Canonical(v) && |ToBytes(v)| <= |b|
      && b == ToBytes(Spelled(b))
      && (ToBytes(v) == b <==> NoRepeats(Spelled(b)))
  {
    EncOfParse(b, 4);
    CollapseExact(Spelled(b));
    assert b == b[..4] + b[4..];
  }

  /** Two streams decode alike exactly when what they spell collapses alike. */
  lemma {:induction false} DecodingMerges(v: Value, w: Value)
    requires Spellable(v) && Spellable(w)
    ensures FromBytes(ToBytes(v)) == FromBytes(ToBytes(w)) <==> Collapse(v) == Collapse(w)
  {
    SpelledDecodes(v, []);
    SpelledDecodes(w, []);
    assert ToBytes(v) + [] == ToBytes(v) && ToBytes(w) + [] == ToBytes(w);
  }

  /** A map that spells one key twice is accepted, keeps the last value, and re-encodes shorter: two
      different streams for one value. */
  lemma {:induction false} RepeatedKeyDecodes(key: bytes, u: Value, v: Value)
    requires Utf8(key) && |key| < TWO_TO_THE_64 && Spellable(u) && Spellable(v)
    ensures var b := ToBytes(Map([Entry(key, u), Entry(key, v)]));
      && FromBytes(b) == Success(Map([Entry(key, Collapse(v))]))
      && !NoRepeats(Map([Entry(key, u), Entry(key, v)]))
      && |ToBytes(Map([Entry(key, Collapse(v))]))| < |b|
      && FromBytes(ToBytes(Map([Entry(key, Collapse(v))]))) == FromBytes(b)
  {
    var twice := [Entry(key, u), Entry(key, v)];
    var once := Map([Entry(key, Collapse(v))]);
    CollapseTwice(key, u, v);
    assert twice[0].key == twice[1].key && !DistinctKeys(twice);
    SpelledDecodes(Map(twice), []);
    CollapseExact(Map(twice));
    RoundTrip(once, []);
    assert ToBytes(once) + [] == ToBytes(once) && ToBytes(Map(twice)) + [] == ToBytes(Map(twice));
  }

  lemma {:induction false} CollapseTwice(key: bytes, u: Value, v: Value)
    ensures Collapse(Map([Entry(key, u), Entry(key, v)])) == Map([Entry(key, Collapse(v))])
  {
    var first := Entry(key, Collapse(u));
    assert [Entry(key, u), Entry(key, v)][..1] == [Entry(key, u)];
    assert [Entry(key, u)][..0] == [];
    assert CollapseEntries([Entry(key, u)]) == [first];
    assert IndexOf([first], key) == 0;
  }

  /** A stream is the encoding of some value exactly when it is accepted and repeats no key. */
  lemma {:induction false} ImageOfToBytes(b: bytes)
    ensures (exists v :: Canonical(v) && ToBytes(v) == b) <==>
      FromBytes(b).Success? && NoRepeats(Spelled(b))
  {
    if FromBytes(b).Success? && NoRepeats(Spelled(b)) {
      Reencode(b);
      assert Canonical(FromBytes(b).value) && ToBytes(FromBytes(b).value) == b;
    }
    forall v | Canonical(v) && ToBytes(v) == b
      ensures FromBytes(b).Success? && NoRepeats(Spelled(b))
    {
      RoundTrip(v, []);
      assert b + [] == b;
      Reencode(b);
    }
  }

  // ----- the node count --------------------------------------------------------------------------

  /** How many values a value holds, itself included. */
  function Nodes(v: Value): (n: nat)
    decreases v, 1
  {
    match v
    case Array(items) => 1 + NodesOfItems(items)
    case Map(entries) => 1 + NodesOfEntries(entries)
    case _ => 1
  }

  function NodesOfItems(items: seq<Value>): nat
    decreases items, 0
  {
    if items == [] then 0 else Nodes(items[0]) + NodesOfItems(items[1..])
  }

  function NodesOfEntries(entries: seq<Entry>): nat
    decreases entries, 0
  {
    if entries == [] then 0 else Nodes(entries[0].val) + NodesOfEntries(entries[1..])
  }

  lemma {:induction false} NodesBoundedByBytes(v: Value)
    ensures Nodes(v) <= |Enc(v)|
    decreases v, 1
  {
    match v
    case Array(items) => ItemNodesBounded(items);
    case Map(entries) => EntryNodesBounded(entries);
    case _ =>
  }

  lemma {:induction false} ItemNodesBounded(items: seq<Value>)
    ensures NodesOfItems(items) <= |EncItems(items)|
    decreases items, 0
  {
    if items != [] {
      NodesBoundedByBytes(items[0]);
      ItemNodesBounded(items[1..]);
    }
  }

  lemma {:induction false} EntryNodesBounded(entries: seq<Entry>)
    ensures NodesOfEntries(entries) <= |EncEntries(entries)|
    decreases entries, 0
  {
    if entries != [] {
      NodesBoundedByBytes(entries[0].val);
      EntryNodesBounded(entries[1..]);
    }
  }

  /** However many items and entries a stream declares, what is decoded, and what was read on
      the way, has no more nodes than the stream has bytes after the magic. */
  lemma {:induction false} DecodedNodesBounded(b: bytes)
    requires FromBytes(b).Success?
    ensures Nodes(FromBytes(b).value) <= |b| - 4 && Nodes(Spelled(b)) <= |b| - 4
  {
    Reencode(b);
    NodesBoundedByBytes(FromBytes(b).value);
    NodesBoundedByBytes(Spelled(b));
  }

  // ----- streams cut short --------------------------------------------------------------------------

  /** The errors that say only that the stream ended too early. */
  predicate RanOut(e: BdfError) { e.Truncated? || e.LengthOverflow? }

  /** A read that succeeds in `b` reads the same in any cut of `b` that contains it, and runs
      out in any cut that does not. */
  ghost predicate CutAgrees<T(!new)>(whole: Parsed<T>, cut: Parsed<T>, n: nat) {
    whole.Ok? ==> if whole.pos <= n then cut == whole else cut.Err? && RanOut(cut.error)
  }

  lemma {:induction false} CutU64(b: bytes, n: nat, pos: nat)
    requires pos <= n <= |b|
    ensures CutAgrees(TakeU64(b, pos), TakeU64(b[..n], pos), n)
  {
    assert pos + 8 <= n ==> b[..n][pos..pos + 8] == b[pos..pos + 8];
  }

  lemma {:induction false} CutBytes(b: bytes, n: nat, pos: nat)
    requires pos <= n <= |b|
    ensures CutAgrees(TakeBytes(b, pos), TakeBytes(b[..n], pos), n)
    ensures CutAgrees(TakeText(b, pos), TakeText(b[..n], pos), n)
  {
    CutU64(b, n, pos);
    if TakeBytes(b, pos).Ok? {
      var p, q := pos + 8, TakeBytes(b, pos).pos;
      assert q <= n ==> b[..n][p..q] == b[p..q];
    }
  }

  lemma {:induction false} CutParse(b: bytes, n: nat, pos: nat)
    requires pos <= n <= |b|
    ensures CutAgrees(Parse(b, pos), Parse(b[..n], pos), n)
    decreases |b| - pos, 0
  {
    if pos < n {
      var p := pos + 1;
      assert b[..n][pos] == b[pos] && (p < n ==> b[..n][p] == b[p]);
      CutU64(b, n, p);
      CutBytes(b, n, p);
      CutArray(b, n, p);
      CutMap(b, n, p);
    }
  }

  lemma {:induction false} CutArray(b: bytes, n: nat, pos: nat)
    requires pos <= n <= |b|
    ensures CutAgrees(ParseArray(b, pos), ParseArray(b[..n], pos), n)
    decreases |b| - pos, 4
  {
    CutU64(b, n, pos);
    if TakeU64(b, pos).Ok? && pos + 8 <= n {
      CutItems(b, n, pos + 8, TakeU64(b, pos).value);
    }
  }

  lemma {:induction false} CutMap(b: bytes, n: nat, pos: nat)
    requires pos <= n <= |b|
    ensures CutAgrees(ParseMap(b, pos), ParseMap(b[..n], pos), n)
    decreases |b| - pos, 4
  {
    CutU64(b, n, pos);
    if TakeU64(b, pos).Ok? && pos + 8 <= n {
      CutEntries(b, n, pos + 8, TakeU64(b, pos).value);
    }
  }

  lemma {:induction false} CutItems(b: bytes, n: nat, pos: nat, k: nat)
    requires pos <= n <= |b|
    ensures CutAgrees(ParseItems(b, pos, k), ParseItems(b[..n], pos, k), n)
    decreases |b| - pos, 3
  {
    if k > 0 {
      CutParse(b, n, pos);
      var r := Parse(b, pos);
      if r.Ok? && r.pos <= n {
        CutItems(b, n, r.pos, k - 1);
      }
    }
  }

  lemma {:induction false} CutEntry(b: bytes, n: nat, pos: nat)
    requires pos <= n <= |b|
    ensures CutAgrees(ParseEntry(b, pos), ParseEntry(b[..n], pos), n)
    decreases |b| - pos, 2
  {
    CutBytes(b, n, pos);
    var r := TakeText(b, pos);
    if r.Ok? && r.pos <= n {
      CutParse(b, n, r.pos);
    }
  }

  lemma {:induction false} CutEntries(b: bytes, n: nat, pos: nat, k: nat)
    requires pos <= n <= |b|
    ensures CutAgrees(ParseEntries(b, pos, k), ParseEntries(b[..n], pos, k), n)
    decreases |b| - pos, 3
  {
    if k > 0 {
      CutEntry(b, n, pos);
      var r := ParseEntry(b, pos);
      if r.Ok? && r.pos <= n {
        CutEntries(b, n, r.pos, k - 1);
      }
    }
  }

  /** Every strict prefix of an encoding is rejected: without its magic as such, and with it
      only because the stream ran out. */
  lemma {:induction false} StrictPrefixRejected(v: Value, n: nat)
    requires Canonical(v) && n < |ToBytes(v)|
    ensures FromBytes(ToBytes(v)[..n]).Failure?
    ensures var e := FromBytes(ToBytes(v)[..n]).error;
      if n < 4 then e == BadMagic(ToBytes(v)[..n]) else RanOut(e)
  {
    if n >= 4 {
      var b := ToBytes(v);
      assert b[4..4 + |Enc(v)|] == Enc(v);
      ParseOfEnc(b, 4, v);
      CutParse(b, n, 4);
      assert b[..n][..4] == MAGIC;
    }
  }
}
