/** What the probing table means as a map. */
module ProbeMap {

  // What the probing table means as a mathematical map, which runs keep it a map, and which
  // entries a removal hides.

  import opened Options
  import opened ProbeTable

  // ----- distinct keys, unbroken probes -----------------------------------------------

  /** No key is stored twice. */
  ghost predicate Distinct<K, V>(t: Table<K, V>)
    requires t.Shaped()
  {
    forall i, j :: 0 <= i < j < t.Cap() && t.occ[i] && t.occ[j] ==> t.keys[i] != t.keys[j]
  }

  /** Slot `i` lies on the probe path from `home` up to, and not including, slot `j`. */
  predicate OnPath(home: nat, i: nat, j: nat, cap: nat)
    requires home < cap && i < cap && j < cap
  {
    Dist(home, i, cap) < Dist(home, j, cap)
  }

  /** Every slot a probe for the key in `j` passes on its way to `j` is occupied. */
  ghost predicate Reachable<K, V>(c: Config<K, V>, t: Table<K, V>, j: nat)
    requires t.Shaped() && j < t.Cap()
  {
    var home := Home(c, t.keys[j], t.Cap());
    forall d :: 0 <= d < Dist(home, j, t.Cap()) ==> t.occ[SlotAt(home, d, t.Cap())]
  }

  ghost predicate AllReachable<K, V>(c: Config<K, V>, t: Table<K, V>)
    requires t.Shaped()
  {
    forall j :: 0 <= j < t.Cap() && t.occ[j] ==> Reachable(c, t, j)
  }

  /** A table in which a lookup finds whatever is stored. */
  ghost predicate Clean<K, V>(c: Config<K, V>, t: Table<K, V>) {
    Sized(t) && Distinct(t) && AllReachable(c, t)
  }

  /** A lookup finds the key of slot `j` exactly when the probe path up to `j` is unbroken. */
  lemma {:induction false} FoundIffReachable<K, V>(c: Config<K, V>, t: Table<K, V>, j: nat)
    requires t.Shaped() && Distinct(t) && j < t.Cap() && t.occ[j]
    ensures Find(c, t, t.keys[j]) == (if Reachable(c, t, j) then Some(j) else None)
  {
    var key := t.keys[j];
    var home := Home(c, key, t.Cap());
    var r := Stop(t, home, key, 0);
    var dj := Dist(home, j, t.Cap());
    if r < t.Cap() {
      var i := SlotAt(home, r, t.Cap());
      if t.occ[i] {
        assert i == j;
        assert r == dj;
      } else if Reachable(c, t, j) {
        assert false;
      }
    }
  }

  // ----- the map a table stands for ----------------------------------------------------

  /** The entries of the first `n` slots, later slots last. */
  ghost function ContentsTo<K, V>(t: Table<K, V>, n: nat): (m: map<K, V>)
    requires t.Shaped() && n <= t.Cap()
    ensures forall j :: 0 <= j < n && t.occ[j] ==> t.keys[j] in m
  {
    if n == 0 then map[]
    else if t.occ[n - 1] then ContentsTo(t, n - 1)[t.keys[n - 1] := t.values[n - 1]]
    else ContentsTo(t, n - 1)
  }

  ghost function Contents<K, V>(t: Table<K, V>): map<K, V>
    requires t.Shaped()
  {
    ContentsTo(t, t.Cap())
  }

  /** The slot a key of the contents came from. */
  lemma {:induction false} SlotOf<K, V>(t: Table<K, V>, n: nat, key: K) returns (j: nat)
    requires t.Shaped() && n <= t.Cap() && key in ContentsTo(t, n)
    ensures j < n && t.occ[j] && t.keys[j] == key
  {
    if t.occ[n - 1] && t.keys[n - 1] == key {
      j := n - 1;
    } else {
      j := SlotOf(t, n - 1, key);
    }
  }

  lemma {:induction false} NewKey<K, V>(t: Table<K, V>, n: nat)
    requires t.Shaped() && Distinct(t) && n < t.Cap() && t.occ[n]
    ensures t.keys[n] !in ContentsTo(t, n)
  {
    if t.keys[n] in ContentsTo(t, n) {
      var j := SlotOf(t, n, t.keys[n]);
    }
  }

  /** With distinct keys every slot keeps its own entry, and there are as many as occupied slots. */
  lemma {:induction false} ContentsOfDistinct<K, V>(t: Table<K, V>, n: nat)
    requires t.Shaped() && Distinct(t) && n <= t.Cap()
    ensures forall j :: 0 <= j < n && t.occ[j] ==> ContentsTo(t, n)[t.keys[j]] == t.values[j]
    ensures |ContentsTo(t, n)| == CountTo(t.occ, n)
  {
    if n > 0 {
      ContentsOfDistinct(t, n - 1);
      if t.occ[n - 1] {
        NewKey(t, n - 1);
        assert ContentsTo(t, n).Keys == ContentsTo(t, n - 1).Keys + {t.keys[n - 1]};
        assert |ContentsTo(t, n).Keys| == |ContentsTo(t, n - 1).Keys| + 1;
      }
    }
  }

  /** A map that agrees with the slots both ways is the contents. */
  lemma {:induction false} ContentsUnique<K, V>(t: Table<K, V>, m: map<K, V>)
    requires t.Shaped() && Distinct(t)
    requires forall j :: 0 <= j < t.Cap() && t.occ[j] ==> t.keys[j] in m && m[t.keys[j]] == t.values[j]
    requires forall k :: k in m ==> exists j :: 0 <= j < t.Cap() && t.occ[j] && t.keys[j] == k
    ensures Contents(t) == m
  {
    ContentsOfDistinct(t, t.Cap());
    forall k | k in Contents(t)
      ensures k in m && m[k] == Contents(t)[k]
    {
      var j := SlotOf(t, t.Cap(), k);
    }
  }

  /** In a clean table, lookups and the length are those of the map. */
  lemma {:induction false} CleanReads<K, V>(c: Config<K, V>, t: Table<K, V>, key: K, fallback: V)
    requires Clean(c, t)
    ensures Contains(c, t, key) <==> key in Contents(t)
    ensures Get(c, t, key, fallback) == if key in Contents(t) then Contents(t)[key] else fallback
    ensures t.len == |Contents(t)|
  {
    VisibleReads(c, t, key, fallback);
    if key in Contents(t) {
      var j := SlotOf(t, t.Cap(), key);
    }
  }

  /** In any table with distinct keys, a lookup sees a stored key exactly when its slot is
      reachable, and then reads the map's value. */
  lemma {:induction false} VisibleReads<K, V>(c: Config<K, V>, t: Table<K, V>, key: K, fallback: V)
    requires t.Shaped() && Distinct(t)
    ensures Contains(c, t, key) <==>
      exists j :: 0 <= j < t.Cap() && t.occ[j] && t.keys[j] == key && Reachable(c, t, j)
    ensures Contains(c, t, key) ==>
      key in Contents(t) && Get(c, t, key, fallback) == Contents(t)[key]
    ensures !Contains(c, t, key) ==> Get(c, t, key, fallback) == fallback
    ensures |Contents(t)| == CountTo(t.occ, t.Cap())
  {
    ContentsOfDistinct(t, t.Cap());
    forall j | 0 <= j < t.Cap() && t.occ[j] && t.keys[j] == key
      ensures Find(c, t, key) == (if Reachable(c, t, j) then Some(j) else None)
    {
      FoundIffReachable(c, t, j);
    }
  }

  // ----- filling a free slot -------------------------------------------------------------

  /** Filling a free slot with a key that is nowhere else updates the map and breaks no probe. */
  lemma {:induction false} PutAtUpdates<K, V>(c: Config<K, V>, t: Table<K, V>, j: nat, key: K, value: V)
    requires t.Shaped() && Distinct(t) && j < t.Cap() && !t.occ[j] && key !in Contents(t)
    ensures Distinct(PutAt(t, j, key, value))
    ensures Contents(PutAt(t, j, key, value)) == Contents(t)[key := value]
  {
    var p := PutAt(t, j, key, value);
    var m := Contents(t)[key := value];
    ContentsOfDistinct(t, t.Cap());
    forall k | k in m
      ensures exists i :: 0 <= i < p.Cap() && p.occ[i] && p.keys[i] == k
    {
      if k == key {
        assert p.occ[j] && p.keys[j] == k;
      } else {
        var i := SlotOf(t, t.Cap(), k);
        assert p.occ[i] && p.keys[i] == k;
      }
    }
    ContentsUnique(p, m);
  }

  lemma {:induction false} PutAtKeepsReachable<K, V>(c: Config<K, V>, t: Table<K, V>, j: nat, key: K, value: V, i: nat)
    requires t.Shaped() && j < t.Cap() && !t.occ[j] && i < t.Cap() && t.occ[i] && Reachable(c, t, i)
    ensures Reachable(c, PutAt(t, j, key, value), i)
  {
    var p := PutAt(t, j, key, value);
    var home := Home(c, key, t.Cap());
    assert p.keys[i] == t.keys[i];
    assert forall s :: 0 <= s < t.Cap() && t.occ[s] ==> p.occ[s];
  }

  /** The slot where an unbroken probe stopped is reachable once it is filled. */
  lemma {:induction false} PutAtStopIsReachable<K, V>(c: Config<K, V>, t: Table<K, V>, r: nat, key: K, value: V)
    requires t.Shaped() && r < t.Cap()
    requires forall e :: 0 <= e < r ==> t.occ[SlotAt(Home(c, key, t.Cap()), e, t.Cap())]
    ensures Reachable(c, PutAt(t, SlotAt(Home(c, key, t.Cap()), r, t.Cap()), key, value),
                      SlotAt(Home(c, key, t.Cap()), r, t.Cap()))
  {
    var home := Home(c, key, t.Cap());
    var j := SlotAt(home, r, t.Cap());
    assert Dist(home, j, t.Cap()) == r;
    var p := PutAt(t, j, key, value);
    forall d | 0 <= d < r
      ensures p.occ[SlotAt(home, d, t.Cap())]
    {
      assert t.occ[SlotAt(home, d, t.Cap())];
    }
  }

  // ----- growth -------------------------------------------------------------------------

  /** After copying `n` slots the grown table is clean and holds exactly their entries,
      whether or not they could be reached in the old table. */
  lemma {:induction false} RehashIsClean<K, V>(c: Config<K, V>, t: Table<K, V>, n: nat)
    requires t.Shaped() && Distinct(t) && n <= t.Cap()
    ensures Distinct(Rehash(c, t, n)) && AllReachable(c, Rehash(c, t, n))
    ensures Contents(Rehash(c, t, n)) == ContentsTo(t, n)
  {
    if n == 0 {
      ContentsUnique(Rehash(c, t, 0), map[]);
    } else {
      RehashIsClean(c, t, n - 1);
      if t.occ[n - 1] {
        NewKey(t, n - 1);
        PlaceIsClean(c, Rehash(c, t, n - 1), t.keys[n - 1], t.values[n - 1]);
      }
    }
  }

  lemma {:induction false} PlaceIsClean<K, V>(c: Config<K, V>, g: Table<K, V>, key: K, value: V)
    requires g.Shaped() && CountTo(g.occ, g.Cap()) < g.Cap()
    requires Distinct(g) && AllReachable(c, g) && key !in Contents(g)
    ensures Distinct(Place(c, g, key, value)) && AllReachable(c, Place(c, g, key, value))
    ensures Contents(Place(c, g, key, value)) == Contents(g)[key := value]
  {
    var home := Home(c, key, g.Cap());
    ProbesStop(g, home, key);
    var r := FirstFree(g.occ, home, 0);
    var j := SlotAt(home, r, g.Cap());
    PutAtUpdates(c, g, j, key, value);
    PutAtStopIsReachable(c, g, r, key, value);
    forall i | 0 <= i < g.Cap() && g.occ[i]
      ensures Reachable(c, PutAt(g, j, key, value), i)
    {
      PutAtKeepsReachable(c, g, j, key, value, i);
    }
  }

  /** Growing a table whose keys are distinct makes every entry reachable again, hidden ones
      included, and changes no entry. */
  lemma {:induction false} GrowIsClean<K, V>(c: Config<K, V>, t: Table<K, V>)
    requires Sized(t) && Distinct(t)
    ensures Clean(c, Grow(c, t)) && Contents(Grow(c, t)) == Contents(t) && Grow(c, t).len == t.len
  {
    RehashIsClean(c, t, t.Cap());
    CapDividesBySixteen(t.Cap());
    assert IsCap(2 * t.Cap());
  }

  // ----- insert -------------------------------------------------------------------------

  /** A stored key that no lookup finds. */
  ghost predicate Hidden<K, V>(c: Config<K, V>, t: Table<K, V>, key: K)
    requires t.Shaped()
  {
    key in Contents(t) && !Contains(c, t, key)
  }

  /** Insert is map update exactly when it grows the table first or the key is not hidden;
      otherwise it stores the key a second time. */
  lemma {:induction false} InsertUpdatesIff<K, V>(c: Config<K, V>, t: Table<K, V>, key: K, value: V)
    requires Sized(t) && Distinct(t)
    ensures Distinct(Insert(c, t, key, value)) <==> Full(t) || !Hidden(c, t, key)
    ensures Full(t) || !Hidden(c, t, key) ==>
      Contents(Insert(c, t, key, value)) == Contents(t)[key := value]
  {
    RoomAfterGrow(c, t);
    var g := MakeRoom(c, t);
    if Full(t) {
      GrowIsClean(c, t);
      CleanReads(c, g, key, value);
    }
    assert Distinct(g) && Contents(g) == Contents(t);
    StoreUpdatesIff(c, g, key, value);
  }

  lemma {:induction false} StoreUpdatesIff<K, V>(c: Config<K, V>, g: Table<K, V>, key: K, value: V)
    requires g.Shaped() && Distinct(g) && CountTo(g.occ, g.Cap()) < g.Cap()
    ensures Distinct(Store(c, g, key, value)) <==> !Hidden(c, g, key)
    ensures !Hidden(c, g, key) ==> Contents(Store(c, g, key, value)) == Contents(g)[key := value]
  {
    var home := Home(c, key, g.Cap());
    ProbesStop(g, home, key);
    var j := SlotAt(home, Stop(g, home, key, 0), g.Cap());
    if g.occ[j] {
      OverwriteUpdates(g, j, value);
      assert Contains(c, g, key);
    } else if key in Contents(g) {
      var i := SlotOf(g, g.Cap(), key);
      var p := PutAt(g, j, key, value);
      assert p.occ[i] && p.occ[j] && p.keys[i] == p.keys[j];
      assert i != j && !Distinct(p);
    } else {
      PutAtUpdates(c, g, j, key, value);
    }
  }

  lemma {:induction false} OverwriteUpdates<K, V>(t: Table<K, V>, j: nat, value: V)
    requires t.Shaped() && Distinct(t) && j < t.Cap() && t.occ[j]
    ensures var o := t.(values := t.values[j := value]);
      Distinct(o) && Contents(o) == Contents(t)[t.keys[j] := value]
  {
    var o := t.(values := t.values[j := value]);
    ContentsOfDistinct(t, t.Cap());
    forall k | k in Contents(t)
      ensures exists i :: 0 <= i < o.Cap() && o.occ[i] && o.keys[i] == k
    {
      var i := SlotOf(t, t.Cap(), k);
      assert o.occ[i] && o.keys[i] == k;
    }
    ContentsUnique(o, Contents(t)[t.keys[j] := value]);
  }

  /** Insert never breaks a probe: what was reachable, and the new key, are reachable after it. */
  lemma {:induction false} StoreKeepsReachable<K, V>(c: Config<K, V>, g: Table<K, V>, key: K, value: V)
    requires g.Shaped() && CountTo(g.occ, g.Cap()) < g.Cap() && AllReachable(c, g)
    ensures AllReachable(c, Store(c, g, key, value))
  {
    var home := Home(c, key, g.Cap());
    ProbesStop(g, home, key);
    var r := Stop(g, home, key, 0);
    var j := SlotAt(home, r, g.Cap());
    var s := Store(c, g, key, value);
    if g.occ[j] {
      forall i | 0 <= i < s.Cap() && s.occ[i]
        ensures Reachable(c, s, i)
      {
        assert Reachable(c, g, i);
      }
    } else {
      PutAtStopIsReachable(c, g, r, key, value);
      forall i | 0 <= i < g.Cap() && g.occ[i]
        ensures Reachable(c, s, i)
      {
        PutAtKeepsReachable(c, g, j, key, value, i);
      }
    }
  }

  lemma {:induction false} InsertOnClean<K, V>(c: Config<K, V>, t: Table<K, V>, key: K, value: V)
    requires Clean(c, t)
    ensures Clean(c, Insert(c, t, key, value))
    ensures Contents(Insert(c, t, key, value)) == Contents(t)[key := value]
  {
    CleanReads(c, t, key, value);
    InsertUpdatesIff(c, t, key, value);
    InsertKeepsSized(c, t, key, value);
    RoomAfterGrow(c, t);
    if Full(t) {
      GrowIsClean(c, t);
    }
    StoreKeepsReachable(c, MakeRoom(c, t), key, value);
  }

  // ----- remove -------------------------------------------------------------------------

  /** What is stored after a removal: everything but the key, and still no key twice. */
  lemma {:induction false} RemoveDeletes<K, V>(c: Config<K, V>, t: Table<K, V>, key: K)
    requires Sized(t) && Distinct(t)
    ensures Distinct(Remove(c, t, key))
    ensures Contents(Remove(c, t, key))
         == if Contains(c, t, key) then Contents(t) - {key} else Contents(t)
  {
    match Find(c, t, key)
    case None =>
    case Some(i) =>
      var s := Remove(c, t, key);
      ContentsOfDistinct(t, t.Cap());
      var m := Contents(t) - {key};
      forall k | k in m
        ensures exists j :: 0 <= j < s.Cap() && s.occ[j] && s.keys[j] == k
      {
        var j := SlotOf(t, t.Cap(), k);
        assert s.occ[j] && s.keys[j] == k;
      }
      forall j | 0 <= j < s.Cap() && s.occ[j]
        ensures s.keys[j] in m && m[s.keys[j]] == s.values[j]
      {
        assert t.occ[j] && i != j;
      }
      ContentsUnique(s, m);
  }

  /** The entries that a lookup still finds after slot `i` is freed: those that it found before and
      whose probe path does not run through `i`. Their values are what they were. */
  lemma {:induction false} RemoveHidesIff<K, V>(c: Config<K, V>, t: Table<K, V>, key: K, i: nat, j: nat, fallback: V)
    requires Sized(t) && Distinct(t) && Find(c, t, key) == Some(i)
    requires j < t.Cap() && t.occ[j] && j != i
    ensures var k := t.keys[j]; var s := Remove(c, t, key);
      && k in Contents(s)
      && (Contains(c, s, k) <==> Reachable(c, t, j) && !OnPath(Home(c, k, t.Cap()), i, j, t.Cap()))
      && (Contains(c, s, k) <==> Reachable(c, s, j))
      && Get(c, s, k, fallback) == if Contains(c, s, k) then t.values[j] else fallback
  {
    var k := t.keys[j];
    var s := Remove(c, t, key);
    var cap := t.Cap();
    var home := Home(c, k, cap);
    RemoveDeletes(c, t, key);
    FoundIffReachable(c, s, j);
    if OnPath(home, i, j, cap) {
      assert !s.occ[SlotAt(home, Dist(home, i, cap), cap)];
    } else {
      forall d | 0 <= d < Dist(home, j, cap)
        ensures s.occ[SlotAt(home, d, cap)] == t.occ[SlotAt(home, d, cap)]
      {
        assert Dist(home, SlotAt(home, d, cap), cap) == d;
      }
    }
  }

  /** Removing a key that a lookup finds leaves a clean table exactly when no other stored
      probe path runs through the freed slot. */
  lemma {:induction false} RemoveIsCleanIff<K, V>(c: Config<K, V>, t: Table<K, V>, key: K, i: nat)
    requires Clean(c, t) && Find(c, t, key) == Some(i)
    ensures Clean(c, Remove(c, t, key)) <==>
      forall j :: 0 <= j < t.Cap() && t.occ[j] && j != i ==>
        !OnPath(Home(c, t.keys[j], t.Cap()), i, j, t.Cap())
  {
    var s := Remove(c, t, key);
    RemoveDeletes(c, t, key);
    RemoveKeepsSized(c, t, key);
    forall j | 0 <= j < t.Cap() && t.occ[j] && j != i
      ensures Reachable(c, s, j) <==> !OnPath(Home(c, t.keys[j], t.Cap()), i, j, t.Cap())
    {
      RemoveHidesIff(c, t, key, i, j, t.values[j]);
      assert Reachable(c, t, j);
    }
  }

  // ----- runs ---------------------------------------------------------------------------

  datatype Op<K, V> = OpInsert(key: K, value: V) | OpRemove(key: K)

  function Step<K(==), V>(c: Config<K, V>, t: Table<K, V>, op: Op<K, V>): (s: Table<K, V>)
    requires Sized(t)
    ensures Sized(s)
  {
    match op
    case OpInsert(key, value) =>
      InsertKeepsSized(c, t, key, value);
      Insert(c, t, key, value)
    case OpRemove(key) =>
      RemoveKeepsSized(c, t, key);
      Remove(c, t, key)
  }

  ghost function StepMap<K, V>(m: map<K, V>, op: Op<K, V>): map<K, V> {
    match op
    case OpInsert(key, value) => m[key := value]
    case OpRemove(key) => m - {key}
  }

  /** The table after a run of operations on a new map. */
  function Run<K(==), V>(c: Config<K, V>, ops: seq<Op<K, V>>): (t: Table<K, V>)
    ensures Sized(t)
  {
    if |ops| == 0 then
      NewIsSized(c);
      New(c)
    else
      Step(c, Run(c, ops[..|ops| - 1]), ops[|ops| - 1])
  }

  /** The same run on a mathematical map. */
  ghost function RunMap<K, V>(ops: seq<Op<K, V>>): map<K, V> {
    if |ops| == 0 then map[]
    else
      StepMap(RunMap(ops[..|ops| - 1]), ops[|ops| - 1])
  }

  /** Without removals every run refines the map. */
  lemma {:induction false} InsertRunsRefineMaps<K, V>(c: Config<K, V>, ops: seq<Op<K, V>>)
    requires forall i :: 0 <= i < |ops| ==> ops[i].OpInsert?
    ensures Clean(c, Run(c, ops)) && Contents(Run(c, ops)) == RunMap(ops)
  {
    if |ops| == 0 {
      ContentsUnique(New(c), map[]);
    } else {
      InsertRunsRefineMaps(c, ops[..|ops| - 1]);
      var op := ops[|ops| - 1];
      InsertOnClean(c, Run(c, ops[..|ops| - 1]), op.key, op.value);
    }
  }

  /** The step from table `t` names a key that `t` stores but cannot find, and does not grow first. */
  ghost predicate TouchesHidden<K, V>(c: Config<K, V>, t: Table<K, V>, op: Op<K, V>)
    requires t.Shaped()
  {
    Hidden(c, t, op.key) && (op.OpInsert? ==> !Full(t))
  }

  /** A run in which no step touches a hidden key. */
  ghost predicate KeepsClear<K, V>(c: Config<K, V>, ops: seq<Op<K, V>>) {
    |ops| == 0 ||
    (KeepsClear(c, ops[..|ops| - 1])
     && !TouchesHidden(c, Run(c, ops[..|ops| - 1]), ops[|ops| - 1]))
  }

  /** One step keeps the stored entries those of the map exactly when it touches no hidden key. */
  lemma {:induction false} StepStoresTheMapIff<K, V>(c: Config<K, V>, t: Table<K, V>, op: Op<K, V>)
    requires Sized(t) && Distinct(t)
    ensures var s := Step(c, t, op);
      Distinct(s) && Contents(s) == StepMap(Contents(t), op) <==> !TouchesHidden(c, t, op)
  {
    match op
    case OpInsert(key, value) => InsertUpdatesIff(c, t, key, value);
    case OpRemove(key) =>
      RemoveDeletes(c, t, key);
      ContainsIsStored(c, t, key);
  }

  lemma {:induction false} ContainsIsStored<K, V>(c: Config<K, V>, t: Table<K, V>, key: K)
    requires t.Shaped() && Distinct(t)
    ensures Contains(c, t, key) ==> key in Contents(t)
    ensures key !in Contents(t) ==> Contents(t) - {key} == Contents(t)
  {
    if Contains(c, t, key) {
      var j := Find(c, t, key).value;
      assert t.occ[j] && t.keys[j] == key;
    }
  }

  /** After the run every entry of its map is stored, each once, and nothing else. */
  ghost predicate StoresItsMap<K, V>(c: Config<K, V>, ops: seq<Op<K, V>>) {
    Distinct(Run(c, ops)) && Contents(Run(c, ops)) == RunMap(ops)
  }

  ghost predicate AlwaysStoresItsMap<K, V>(c: Config<K, V>, ops: seq<Op<K, V>>) {
    forall n :: 0 <= n <= |ops| ==> StoresItsMap(c, ops[..n])
  }

  lemma {:induction false} NewStoresNothing<K, V>(c: Config<K, V>)
    ensures StoresItsMap<K, V>(c, [])
  {
    ContentsUnique(New(c), map[]);
  }

  /** With removals, the stored entries are those of the map all along the run exactly when no step
      of the run touches a hidden key. */
  lemma {:induction false} RunsStoreTheMapIff<K, V>(c: Config<K, V>, ops: seq<Op<K, V>>)
    ensures KeepsClear(c, ops) <==> AlwaysStoresItsMap(c, ops)
    decreases |ops|
  {
    hide StoresItsMap, TouchesHidden, Run;
    if |ops| == 0 {
      NewStoresNothing(c);
      assert ops[..0] == [];
    } else {
      var before := ops[..|ops| - 1];
      RunsStoreTheMapIff(c, before);
      assert forall n :: 0 <= n < |ops| ==> ops[..n] == before[..n];
      assert before[..|before|] == before && ops[..|ops|] == ops;
      if AlwaysStoresItsMap(c, before) {
        OneMoreStep(c, ops);
      }
    }
  }

  lemma {:induction false} OneMoreStep<K, V>(c: Config<K, V>, ops: seq<Op<K, V>>)
    requires ops != [] && StoresItsMap(c, ops[..|ops| - 1])
    ensures StoresItsMap(c, ops) <==> !TouchesHidden(c, Run(c, ops[..|ops| - 1]), ops[|ops| - 1])
  {
    hide TouchesHidden, Contents, Distinct;
    StepStoresTheMapIff(c, Run(c, ops[..|ops| - 1]), ops[|ops| - 1]);
  }

  /** Once the stored keys are distinct, contains agrees with the stored entries on every key exactly
      when every entry is reachable. */
  lemma {:induction false} LookupsAgreeIff<K(!new), V>(c: Config<K, V>, t: Table<K, V>)
    requires t.Shaped() && Distinct(t)
    ensures (forall key :: Contains(c, t, key) <==> key in Contents(t)) <==> AllReachable(c, t)
  {
    if AllReachable(c, t) {
      forall key ensures Contains(c, t, key) <==> key in Contents(t) {
        ContainsIsStored(c, t, key);
        if key in Contents(t) {
          var j := SlotOf(t, t.Cap(), key);
          FoundIffReachable(c, t, j);
        }
      }
    }
    if forall key :: Contains(c, t, key) <==> key in Contents(t) {
      forall j | 0 <= j < t.Cap() && t.occ[j] ensures Reachable(c, t, j) {
        FoundIffReachable(c, t, j);
        assert Contains(c, t, t.keys[j]);
      }
    }
  }

  // ----- a run that loses an entry --------------------------------------------------------

  /** Two keys with one home: after the first is removed the second is stored but not found,
      and inserting it again stores it twice. */
  lemma {:induction false} RemovalCanHideAKey<K, V>(c: Config<K, V>, k: K, l: K, v: V, w: V)
    requires k != l && Home(c, k, 16) == Home(c, l, 16)
    ensures var t := Run(c, [OpInsert(k, v), OpInsert(l, w), OpRemove(k)]);
      Hidden(c, t, l) && !Distinct(Insert(c, t, l, w))
  {
    var h := Home(c, k, 16);
    var ops := [OpInsert(k, v), OpInsert(l, w), OpRemove(k)];
    assert ops[..2] == [OpInsert(k, v), OpInsert(l, w)];
    assert ops[..2][..1] == [OpInsert(k, v)];
    assert ops[..1][..0] == [];
    var t0 := New(c);
    NewIsSized(c);
    var t1 := Insert(c, t0, k, v);
    assert t1 == Run(c, ops[..1]);
    assert t1.occ[h] && t1.keys[h] == k;
    var t2 := Insert(c, t1, l, w);
    var j := SlotAt(h, 1, 16);
    assert Stop(t1, h, l, 0) == Stop(t1, h, l, 1) == 1;
    assert t2 == Run(c, ops[..2]);
    assert t2.occ[j] && t2.keys[j] == l;
    InsertRunsRefineMaps(c, ops[..2]);
    assert Find(c, t2, k) == Some(h);
    RemoveHidesIff(c, t2, k, h, j, w);
    var t3 := Remove(c, t2, k);
    assert t3 == Run(c, ops);
    RemoveDeletes(c, t2, k);
    InsertUpdatesIff(c, t3, l, w);
  }
}
