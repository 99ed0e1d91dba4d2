/** The hash map object of the runtime. */
module OpenMap {

  // The hash map object of the runtime: arrays changed in place, each method proved equal to
  // the table function it computes. The probe loops of Insert and Grow have no bound of their
  // own; they terminate because a sized table always keeps a free slot.

  import opened ProbeTable
  import opened ProbeMap

  const TWO_TO_THE_32: nat := 0x1_0000_0000

  /** The hash of the i32 map: the key's 32-bit pattern times Knuth's constant, wrapped. */
  function HashI32(key: int): nat {
    (key % TWO_TO_THE_32) * 2654435761 % TWO_TO_THE_32
  }

  class BuildHashMap<K(==), V> {
    const config: Config<K, V>
    var keys: array<K>
    var values: array<V>
    var occupied: array<bool>
    var cap: nat
    var len: nat

    /** The three arrays are separate and as long as `cap` says. */
    ghost predicate Valid()
      reads this
    {
      && keys.Length == values.Length == occupied.Length == cap
      && 0 < cap
      && keys as object != values as object
      && keys as object != occupied as object
      && values as object != occupied as object
    }

    /** The table the object holds. */
    ghost function Abs(): (t: Table<K, V>)
      reads this, keys, values, occupied
      requires Valid()
      ensures t.Shaped() && t.Cap() == cap
    {
      Table(keys[..], values[..], occupied[..], len)
    }

    /** `build_map_new` */
    constructor (config: Config<K, V>)
      ensures Valid() && this.config == config
      ensures fresh(keys) && fresh(values) && fresh(occupied)
      ensures Abs() == New(config) && Sized(Abs())
    {
      this.config := config;
      cap := 16;
      len := 0;
      keys := new K[16](_ => config.zeroKey);
      values := new V[16](_ => config.zeroValue);
      occupied := new bool[16](_ => false);
      new;
      assert Abs() == New(config);
      NewIsSized(config);
    }

    /** Fresh arrays as calloc gives them. */
    method Allocate(newCap: nat)
      requires 0 < newCap
      modifies this
      ensures Valid() && fresh(keys) && fresh(values) && fresh(occupied)
      ensures Abs() == Empty(config, newCap)
    {
      cap := newCap;
      len := 0;
      keys := new K[cap](_ => config.zeroKey);
      values := new V[cap](_ => config.zeroValue);
      occupied := new bool[cap](_ => false);
    }

    /** The body of the copy loop of `build_map_grow`: the first free slot takes the entry. */
    method CopyEntry(key: K, value: V)
      requires Valid() && CountTo(Abs().occ, cap) < cap
      modifies this`len, keys, values, occupied
      ensures Valid()
      ensures Abs() == Place(config, old(Abs()), key, value)
    {
      hide CountTo, IsCap;
      ghost var g := Abs();
      var home := config.hash(key) % cap;
      ProbesStop(g, home, key);
      var idx := home;
      ghost var d := 0;
      while occupied[idx]
        invariant d < cap && idx == SlotAt(home, d, cap)
        invariant FirstFree(g.occ, home, d) == FirstFree(g.occ, home, 0)
        invariant Abs() == g
        decreases cap - d
      {
        StepIsModular(home, d, cap);
        idx := (idx + 1) % cap;
        d := d + 1;
      }
      keys[idx] := key;
      values[idx] := value;
      occupied[idx] := true;
      len := len + 1;
      assert keys[..] == g.keys[idx := key] && values[..] == g.values[idx := value];
      assert occupied[..] == g.occ[idx := true];
    }

    /** `build_map_grow`: copies every occupied slot into arrays twice as long. */
    method Grow()
      requires Valid()
      modifies this
      ensures Valid() && fresh(keys) && fresh(values) && fresh(occupied)
      ensures Abs() == ProbeTable.Grow(config, old(Abs()))
    {
      hide Place, PutAt, Home, FirstFree, IsCap, CountTo, Empty;
      ghost var t := Abs();
      var oldCap, oldKeys, oldValues, oldOccupied := cap, keys, values, occupied;
      Allocate(cap * 2);
      for i := 0 to oldCap
        invariant Valid() && fresh(keys) && fresh(values) && fresh(occupied)
        invariant oldKeys[..] == t.keys && oldValues[..] == t.values && oldOccupied[..] == t.occ
        invariant Abs() == Rehash(config, t, i)
        modifies this`len, keys, values, occupied
      {
        if oldOccupied[i] {
          CopyEntry(oldKeys[i], oldValues[i]);
        }
      }
    }

    /** The probe loop of `build_map_insert`: overwrite the key's value or fill the first free slot. */
    method StoreEntry(key: K, value: V)
      requires Valid() && CountTo(Abs().occ, cap) < cap
      modifies this`len, keys, values, occupied
      ensures Valid()
      ensures Abs() == Store(config, old(Abs()), key, value)
    {
      ghost var g := Abs();
      var home := config.hash(key) % cap;
      ProbesStop(g, home, key);
      var idx := home;
      ghost var d := 0;
      while occupied[idx]
        invariant Valid() && Abs() == g && home < cap
        invariant d < cap && idx == SlotAt(home, d, cap)
        invariant Stop(g, home, key, d) == Stop(g, home, key, 0)
        modifies values
        decreases cap - d
      {
        if keys[idx] == key {
          values[idx] := value;
          assert values[..] == g.values[idx := value];
          return;
        }
        StepIsModular(home, d, cap);
        idx := (idx + 1) % cap;
        d := d + 1;
      }
      keys[idx] := key;
      values[idx] := value;
      occupied[idx] := true;
      len := len + 1;
      assert keys[..] == g.keys[idx := key] && values[..] == g.values[idx := value];
      assert occupied[..] == g.occ[idx := true];
    }

    /** `build_map_insert` */
    method Insert(key: K, value: V)
      requires Valid() && Sized(Abs())
      modifies this, keys, values, occupied
      ensures Valid()
      ensures Abs() == ProbeTable.Insert(config, old(Abs()), key, value) && Sized(Abs())
      ensures (keys == old(keys) && values == old(values) && occupied == old(occupied))
           || (fresh(keys) && fresh(values) && fresh(occupied))
    {
      InsertKeepsSized(config, Abs(), key, value);
      RoomAfterGrow(config, Abs());
      if len * 4 >= cap * 3 {
        Grow();
      }
      StoreEntry(key, value);
    }

    /** `build_map_get` */
    method Get(key: K, fallback: V) returns (value: V)
      requires Valid()
      ensures value == ProbeTable.Get(config, Abs(), key, fallback)
    {
      var home := config.hash(key) % cap;
      var idx, start := home, home;
      ghost var d := 0;
      while occupied[idx]
        invariant d < cap && idx == SlotAt(home, d, cap)
        invariant Stop(Abs(), home, key, d) == Stop(Abs(), home, key, 0)
        decreases cap - d
      {
        if keys[idx] == key {
          return values[idx];
        }
        StepIsModular(home, d, cap);
        idx := (idx + 1) % cap;
        d := d + 1;
        if idx == start {
          break;
        }
      }
      value := fallback;
    }

    /** `build_map_contains` */
    method Contains(key: K) returns (found: bool)
      requires Valid()
      ensures found == ProbeTable.Contains(config, Abs(), key)
    {
      var home := config.hash(key) % cap;
      var idx, start := home, home;
      ghost var d := 0;
      while occupied[idx]
        invariant d < cap && idx == SlotAt(home, d, cap)
        invariant Stop(Abs(), home, key, d) == Stop(Abs(), home, key, 0)
        decreases cap - d
      {
        if keys[idx] == key {
          return true;
        }
        StepIsModular(home, d, cap);
        idx := (idx + 1) % cap;
        d := d + 1;
        if idx == start {
          break;
        }
      }
      found := false;
    }

    /** `build_map_len` */
    method Len() returns (n: nat)
      requires Valid()
      ensures n == Abs().len
    {
      n := len;
    }

    /** `build_map_remove` */
    method Remove(key: K) returns (found: bool)
      requires Valid() && Sized(Abs())
      modifies this, occupied
      ensures Valid() && keys == old(keys) && values == old(values) && occupied == old(occupied)
      ensures Abs() == ProbeTable.Remove(config, old(Abs()), key) && Sized(Abs())
      ensures found == ProbeTable.Contains(config, old(Abs()), key)
    {
      ghost var t := Abs();
      RemoveKeepsSized(config, t, key);
      var home := config.hash(key) % cap;
      var idx, start := home, home;
      ghost var d := 0;
      while occupied[idx]
        invariant Valid() && Abs() == t && home < cap
        invariant d < cap && idx == SlotAt(home, d, cap)
        invariant Stop(t, home, key, d) == Stop(t, home, key, 0)
        modifies this`len, occupied
        decreases cap - d
      {
        if keys[idx] == key {
          occupied[idx] := false;
          len := len - 1;
          assert occupied[..] == t.occ[idx := false];
          return true;
        }
        StepIsModular(home, d, cap);
        idx := (idx + 1) % cap;
        d := d + 1;
        if idx == start {
          break;
        }
      }
      found := false;
    }
  }

  lemma {:induction false} SameRemainder(x: int, y: int, m: nat)
    requires m > 0
    ensures x % m == y % m <==> exists q :: x - y == m * q
  {
    var p, r := x / m, y / m;
    if x % m == y % m {
      assert x - y == m * (p - r);
    }
    if q :| x - y == m * q {
      var d := p - r - q;
      assert m * d == y % m - x % m;
      assert (d > 0 ==> m * d >= m) && (d < 0 ==> m * d + m <= 0);
    }
  }

  lemma {:induction false} WrappedRemainder(x: int, m: nat)
    requires m > 0 && TWO_TO_THE_32 % m == 0
    ensures x % TWO_TO_THE_32 % m == x % m
  {
    var k, q := TWO_TO_THE_32 / m, x / TWO_TO_THE_32;
    assert TWO_TO_THE_32 == m * k;
    assert x % TWO_TO_THE_32 - x == m * (-(k * q)) by {
      assert TWO_TO_THE_32 * q == m * k * q;
    }
    SameRemainder(x % TWO_TO_THE_32, x, m);
  }

  /** Knuth's constant is odd, so it can be undone modulo a power of two. */
  const UNDO: nat := 244002641

  lemma {:induction false} TimesUndo(x: int, m: nat)
    requires m > 0 && TWO_TO_THE_32 % m == 0
    ensures (x * 2654435761 * UNDO) % m == x % m
  {
    var k := TWO_TO_THE_32 / m;
    assert 2654435761 * UNDO == TWO_TO_THE_32 * 150801925 + 1;
    assert x * 2654435761 * UNDO - x == x * (TWO_TO_THE_32 * 150801925);
    assert x * (TWO_TO_THE_32 * 150801925) == m * (k * 150801925 * x) by {
      assert TWO_TO_THE_32 == m * k;
    }
    SameRemainder(x * 2654435761 * UNDO, x, m);
  }

  lemma {:induction false} TimesKeeps(x: int, y: int, f: int, m: nat)
    requires m > 0 && x % m == y % m
    ensures (x * f) % m == (y * f) % m
  {
    SameRemainder(x, y, m);
    var q :| x - y == m * q;
    assert x * f - y * f == m * (q * f);
    SameRemainder(x * f, y * f, m);
  }

  /** In a table of a capacity that divides 2 to the 32, two keys of the i32 map have one home exactly
      when they agree modulo the capacity. */
  lemma {:induction false} SameHomeI32(a: int, b: int, cap: nat)
    requires cap > 0 && TWO_TO_THE_32 % cap == 0
    ensures var c := Config(HashI32, 0, 0);
      Home(c, a, cap) == Home(c, b, cap) <==> a % cap == b % cap
  {
    HomeIsProduct(a, cap);
    HomeIsProduct(b, cap);
    hide HashI32;
    if a % cap == b % cap {
      TimesKeeps(a, b, 2654435761, cap);
    }
    if (a * 2654435761) % cap == (b * 2654435761) % cap {
      TimesKeeps(a * 2654435761, b * 2654435761, UNDO, cap);
      TimesUndo(a, cap);
      TimesUndo(b, cap);
    }
  }

  lemma {:induction false} HomeIsProduct(a: int, cap: nat)
    requires cap > 0 && TWO_TO_THE_32 % cap == 0
    ensures HashI32(a) % cap == (a * 2654435761) % cap
  {
    var x := a % TWO_TO_THE_32;
    WrappedRemainder(x * 2654435761, cap);
    WrappedRemainder(a, cap);
    TimesKeeps(x, a, 2654435761, cap);
  }

  /** In the i32 map the keys 0 and 16 share a home in a new table, so a run that only ever
      removes 0 makes 16 unfindable and a second insert of 16 stores it twice. */
  lemma {:induction false} I32CollisionHides(v: int, w: int)
    ensures var c := Config(HashI32, 0, 0);
      var t := Run(c, [OpInsert(0, v), OpInsert(16, w), OpRemove(0)]);
      Hidden(c, t, 16) && !Distinct(ProbeTable.Insert(c, t, 16, w))
  {
    var c := Config(HashI32, 0, 0);
    assert Home(c, 0, 16) == Home(c, 16, 16);
    RemovalCanHideAKey(c, 0, 16, v, w);
  }
}
