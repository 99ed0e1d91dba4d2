/** The open-addressing hash map, on values. */
module ProbeTable {

  // The open-addressing hash map of the runtime, on values: a table of slots, the linear
  // probe, and what new, insert, grow, get, contains and remove do to the table.
  //
  // The map is generic in the key, the value and the hash, because the typed maps of the
  // runtime are the same algorithm with another hash. OpenMap.dfy has the in-place methods,
  // each proved equal to a function of this module.

  import opened Options

  /** What a typed map fixes: the hash, and the zero that calloc leaves in a fresh slot. */
  datatype Config<!K, V> = Config(hash: K -> nat, zeroKey: K, zeroValue: V)

  /** One table: the three parallel arrays and the stored length. */
  datatype Table<K, V> = Table(keys: seq<K>, values: seq<V>, occ: seq<bool>, len: nat) {

    function Cap(): nat { |occ| }

    predicate Shaped() {
      |keys| == |occ| && |values| == |occ| && 0 < |occ|
    }
  }

  // ----- the cyclic probe ------------------------------------------------------------

  /** The slot a probe from `home` reaches after `d` steps. */
  function SlotAt(home: nat, d: nat, cap: nat): (j: nat)
    requires home < cap && d <= cap
    ensures j < cap
  {
    if home + d < cap then home + d else home + d - cap
  }

  /** How many steps a probe from `home` takes to reach slot `j` for the first time. */
  function Dist(home: nat, j: nat, cap: nat): (d: nat)
    requires home < cap && j < cap
    ensures d < cap && SlotAt(home, d, cap) == j
  {
    if home <= j then j - home else j + cap - home
  }

  /** The loop's `(idx + 1) % cap` is one step of the probe, and it closes the cycle at `cap`. */
  lemma {:induction false} StepIsModular(home: nat, d: nat, cap: nat)
    requires home < cap && d < cap
    ensures (SlotAt(home, d, cap) + 1) % cap == SlotAt(home, d + 1, cap)
    ensures SlotAt(home, d + 1, cap) == home <==> d + 1 == cap
  {
    var j := SlotAt(home, d, cap);
    if j + 1 < cap {
      assert (j + 1) % cap == j + 1;
    } else {
      assert (j + 1) % cap == 0;
    }
  }

  function Home<K, V>(c: Config<K, V>, key: K, cap: nat): (h: nat)
    requires 0 < cap
    ensures h < cap
  {
    c.hash(key) % cap
  }

  /** Steps from `home`, starting at step `d`, to the first slot that is free or holds `key`. */
  function Stop<K(==), V>(t: Table<K, V>, home: nat, key: K, d: nat): (r: nat)
    requires t.Shaped() && home < t.Cap() && d <= t.Cap()
    ensures d <= r <= t.Cap()
    ensures forall e :: d <= e < r ==>
      t.occ[SlotAt(home, e, t.Cap())] && t.keys[SlotAt(home, e, t.Cap())] != key
    ensures r < t.Cap() ==> var j := SlotAt(home, r, t.Cap()); t.occ[j] ==> t.keys[j] == key
    decreases t.Cap() - d
  {
    if d == t.Cap() then d
    else
      var j := SlotAt(home, d, t.Cap());
      if t.occ[j] && t.keys[j] != key then Stop(t, home, key, d + 1) else d
  }

  /** Steps from `home`, starting at step `d`, to the first free slot. */
  function FirstFree(occ: seq<bool>, home: nat, d: nat): (r: nat)
    requires home < |occ| && d <= |occ|
    ensures d <= r <= |occ|
    ensures forall e :: d <= e < r ==> occ[SlotAt(home, e, |occ|)]
    ensures r < |occ| ==> !occ[SlotAt(home, r, |occ|)]
    decreases |occ| - d
  {
    if d == |occ| then d
    else if occ[SlotAt(home, d, |occ|)] then FirstFree(occ, home, d + 1) else d
  }

  // ----- counting slots --------------------------------------------------------------

  /** How many of the first `n` slots are occupied. */
  function CountTo(occ: seq<bool>, n: nat): (k: nat)
    requires n <= |occ|
    ensures k <= n
  {
    if n == 0 then 0 else CountTo(occ, n - 1) + (if occ[n - 1] then 1 else 0)
  }

  lemma {:induction false} CountAfterUpdate(occ: seq<bool>, n: nat, j: nat, b: bool)
    requires n <= |occ| && j < |occ| && occ[j] != b
    ensures CountTo(occ[j := b], n)
         == CountTo(occ, n) + (if j < n then if b then 1 else -1 else 0)
  {
    if n > 0 {
      CountAfterUpdate(occ, n - 1, j, b);
    }
  }

  lemma {:induction false} FreeSlot(occ: seq<bool>, n: nat) returns (j: nat)
    requires n <= |occ| && CountTo(occ, n) < n
    ensures j < n && !occ[j]
  {
    if occ[n - 1] {
      j := FreeSlot(occ, n - 1);
    } else {
      j := n - 1;
    }
  }

  lemma {:induction false} CountOfFree(occ: seq<bool>, n: nat)
    requires n <= |occ| && forall j :: 0 <= j < n ==> !occ[j]
    ensures CountTo(occ, n) == 0
  {
    if n > 0 {
      CountOfFree(occ, n - 1);
    }
  }

  /** With a free slot anywhere, both probe loops stop before they come round. */
  lemma {:induction false} ProbesStop<K, V>(t: Table<K, V>, home: nat, key: K)
    requires t.Shaped() && home < t.Cap() && CountTo(t.occ, t.Cap()) < t.Cap()
    ensures FirstFree(t.occ, home, 0) < t.Cap()
    ensures Stop(t, home, key, 0) < t.Cap()
  {
    var j := FreeSlot(t.occ, t.Cap());
    var d := Dist(home, j, t.Cap());
    assert SlotAt(home, d, t.Cap()) == j;
  }

  // ----- sizes ----------------------------------------------------------------------

  /** Sixteen times a power of two. */
  predicate IsCap(cap: nat) {
    cap == 16 || (cap > 16 && cap % 2 == 0 && IsCap(cap / 2))
  }

  lemma {:induction false} CapDividesBySixteen(cap: nat)
    requires IsCap(cap)
    ensures cap % 16 == 0 && cap >= 16
  {
    if cap != 16 {
      CapDividesBySixteen(cap / 2);
    }
  }

  /** What every reachable table satisfies, removals included. */
  predicate Sized<K, V>(t: Table<K, V>) {
    t.Shaped() && IsCap(t.Cap()) && t.len == CountTo(t.occ, t.Cap()) && 4 * t.len <= 3 * t.Cap()
  }

  // ----- the operations --------------------------------------------------------------

  function Empty<K, V>(c: Config<K, V>, cap: nat): Table<K, V> {
    Table(seq(cap, _ => c.zeroKey), seq(cap, _ => c.zeroValue), seq(cap, _ => false), 0)
  }

  function New<K, V>(c: Config<K, V>): Table<K, V> { Empty(c, 16) }

  /** Fill the free slot `j`. */
  function PutAt<K, V>(t: Table<K, V>, j: nat, key: K, value: V): Table<K, V>
    requires t.Shaped() && j < t.Cap()
  {
    Table(t.keys[j := key], t.values[j := value], t.occ[j := true], t.len + 1)
  }

  /** Copy one entry into the table that is being grown: the first free slot, keys not compared. */
  function Place<K, V>(c: Config<K, V>, t: Table<K, V>, key: K, value: V): Table<K, V>
    requires t.Shaped() && CountTo(t.occ, t.Cap()) < t.Cap()
  {
    var home := Home(c, key, t.Cap());
    ProbesStop(t, home, key);
    PutAt(t, SlotAt(home, FirstFree(t.occ, home, 0), t.Cap()), key, value)
  }

  /** The grown table after the first `n` slots of `t` have been copied into it. */
  function Rehash<K, V>(c: Config<K, V>, t: Table<K, V>, n: nat): (g: Table<K, V>)
    requires t.Shaped() && n <= t.Cap()
    ensures g.Shaped() && g.Cap() == 2 * t.Cap()
    ensures g.len == CountTo(g.occ, g.Cap()) == CountTo(t.occ, n)
  {
    if n == 0 then
      var e := Empty(c, 2 * t.Cap());
      CountOfFree(e.occ, e.Cap());
      e
    else
      var g := Rehash(c, t, n - 1);
      if t.occ[n - 1] then
        var home := Home(c, t.keys[n - 1], g.Cap());
        ProbesStop(g, home, t.keys[n - 1]);
        CountAfterUpdate(g.occ, g.Cap(), SlotAt(home, FirstFree(g.occ, home, 0), g.Cap()), true);
        Place(c, g, t.keys[n - 1], t.values[n - 1])
      else g
  }

  function Grow<K, V>(c: Config<K, V>, t: Table<K, V>): (g: Table<K, V>)
    requires t.Shaped()
  {
    Rehash(c, t, t.Cap())
  }

  /** Whether insert grows the table first. */
  predicate Full<K, V>(t: Table<K, V>) { t.len * 4 >= t.Cap() * 3 }

  function MakeRoom<K, V>(c: Config<K, V>, t: Table<K, V>): Table<K, V>
    requires t.Shaped()
  {
    if Full(t) then Grow(c, t) else t
  }

  /** Overwrite the value in the slot where the probe stopped, or fill that slot. */
  function Store<K(==), V>(c: Config<K, V>, t: Table<K, V>, key: K, value: V): Table<K, V>
    requires t.Shaped() && CountTo(t.occ, t.Cap()) < t.Cap()
  {
    var home := Home(c, key, t.Cap());
    ProbesStop(t, home, key);
    var j := SlotAt(home, Stop(t, home, key, 0), t.Cap());
    if t.occ[j] then t.(values := t.values[j := value]) else PutAt(t, j, key, value)
  }

  function Insert<K(==), V>(c: Config<K, V>, t: Table<K, V>, key: K, value: V): Table<K, V>
    requires Sized(t)
  {
    RoomAfterGrow(c, t);
    Store(c, MakeRoom(c, t), key, value)
  }

  /** The slot where a lookup of `key` ends, if it ends on the key. */
  function Find<K(==), V>(c: Config<K, V>, t: Table<K, V>, key: K): (r: Option<nat>)
    requires t.Shaped()
    ensures r.Some? ==> r.value < t.Cap() && t.occ[r.value] && t.keys[r.value] == key
  {
    var home := Home(c, key, t.Cap());
    var d := Stop(t, home, key, 0);
    if d < t.Cap() && t.occ[SlotAt(home, d, t.Cap())] then Some(SlotAt(home, d, t.Cap())) else None
  }

  predicate Contains<K(==), V>(c: Config<K, V>, t: Table<K, V>, key: K)
    requires t.Shaped()
  {
    Find(c, t, key).Some?
  }

  function Get<K(==), V>(c: Config<K, V>, t: Table<K, V>, key: K, fallback: V): V
    requires t.Shaped()
  {
    match Find(c, t, key)
    case Some(j) => t.values[j]
    case None => fallback
  }

  /** Clear the slot; nothing marks that it was ever used. */
  function Remove<K(==), V>(c: Config<K, V>, t: Table<K, V>, key: K): Table<K, V>
    requires Sized(t)
  {
    match Find(c, t, key)
    case None => t
    case Some(j) =>
      CountAfterUpdate(t.occ, t.Cap(), j, false);
      t.(occ := t.occ[j := false], len := t.len - 1)
  }

  // ----- every operation keeps the sizes ---------------------------------------------

  lemma {:induction false} RoomAfterGrow<K, V>(c: Config<K, V>, t: Table<K, V>)
    requires Sized(t)
    ensures var g := MakeRoom(c, t);
      Sized(g) && 4 * g.len + 4 <= 3 * g.Cap() && CountTo(g.occ, g.Cap()) < g.Cap()
      && g.len == t.len
  {
    CapDividesBySixteen(t.Cap());
    if Full(t) {
      assert IsCap(2 * t.Cap());
    }
  }

  /** The table doubles exactly when three quarters of its slots were taken before the insert. */
  lemma {:induction false} GrowthPoint<K, V>(c: Config<K, V>, t: Table<K, V>, key: K, value: V)
    requires Sized(t)
    ensures Insert(c, t, key, value).Cap() == if 4 * t.len >= 3 * t.Cap() then 2 * t.Cap() else t.Cap()
  {
    RoomAfterGrow(c, t);
    hide Rehash, Stop, Home;
  }

  lemma {:induction false} NewIsSized<K, V>(c: Config<K, V>)
    ensures Sized(New(c))
  {
    CountOfFree(New(c).occ, 16);
  }

  lemma {:induction false} InsertKeepsSized<K, V>(c: Config<K, V>, t: Table<K, V>, key: K, value: V)
    requires Sized(t)
    ensures Sized(Insert(c, t, key, value))
  {
    RoomAfterGrow(c, t);
    var g := MakeRoom(c, t);
    var home := Home(c, key, g.Cap());
    ProbesStop(g, home, key);
    var j := SlotAt(home, Stop(g, home, key, 0), g.Cap());
    if !g.occ[j] {
      CountAfterUpdate(g.occ, g.Cap(), j, true);
    }
  }

  lemma {:induction false} RemoveKeepsSized<K, V>(c: Config<K, V>, t: Table<K, V>, key: K)
    requires Sized(t)
    ensures Sized(Remove(c, t, key))
    ensures Contains(c, t, key) ==> Remove(c, t, key).len == t.len - 1
  {
    match Find(c, t, key)
    case None =>
    case Some(j) => CountAfterUpdate(t.occ, t.Cap(), j, false);
  }
}
