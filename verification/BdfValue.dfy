/** BDF values and their encoding, byte by byte, with the bounds on lengths that the format sets. */
module BdfValue {

  // BDF v0 values and their canonical binary form, on sequences of bytes.
  //
  // A Rust String is modelled by its UTF-8 bytes, a float by its 64-bit pattern, and an IndexMap
  // by its entries in iteration order. A value whose maps may repeat a key is what a byte stream
  // spells out; a canonical value, with distinct keys, is what the Rust type can hold.

  const TWO_TO_THE_63: int := 0x8000_0000_0000_0000
  const TWO_TO_THE_64: int := 0x1_0000_0000_0000_0000

  type byte = b: int | 0 <= b < 256
  type bytes = seq<byte>
  type u64 = n: int | 0 <= n < TWO_TO_THE_64
  type i64 = n: int | -TWO_TO_THE_63 <= n < TWO_TO_THE_63

  const MAGIC: bytes := [0x42, 0x44, 0x46, 0x30]

  const TAG_NULL: byte := 0
  const TAG_BOOL: byte := 1
  const TAG_INT: byte := 2
  const TAG_FLOAT: byte := 3
  const TAG_STR: byte := 4
  const TAG_BYTES: byte := 5
  const TAG_ARRAY: byte := 6
  const TAG_MAP: byte := 7

  datatype Entry = Entry(key: bytes, val: Value)

  datatype Value =
    | Null
    | Bool(flag: bool)
    | Int(i: i64)
    | Float(bits: u64)
    | Str(s: bytes)
    | Bytes(raw: bytes)
    | Array(items: seq<Value>)
    | Map(entries: seq<Entry>)

  // ----- UTF-8, section 4 of RFC 3629 -----------------------------------------------------

  predicate Tail(b: byte) { 0x80 <= b <= 0xBF }

  /** The length of the well-formed character the bytes start with; 0 if there is none. */
  function CharLen(s: bytes): (n: nat)
    ensures n <= |s|
  {
    if |s| >= 1 && s[0] <= 0x7F then 1
    else if |s| >= 2 && 0xC2 <= s[0] <= 0xDF && Tail(s[1]) then 2
    else if |s| >= 3 && Tail(s[2]) && Tail(s[1])
            && ((s[0] == 0xE0 && s[1] >= 0xA0) || 0xE1 <= s[0] <= 0xEC
                || (s[0] == 0xED && s[1] <= 0x9F) || 0xEE <= s[0] <= 0xEF) then 3
    else if |s| >= 4 && Tail(s[3]) && Tail(s[2]) && Tail(s[1])
            && ((s[0] == 0xF0 && s[1] >= 0x90) || 0xF1 <= s[0] <= 0xF3
                || (s[0] == 0xF4 && s[1] <= 0x8F)) then 4
    else 0
  }

  predicate Utf8(s: bytes) {
    s == [] || (CharLen(s) > 0 && Utf8(s[CharLen(s)..]))
  }

  lemma {:induction false} AsciiIsUtf8(s: bytes)
    requires forall i :: 0 <= i < |s| ==> s[i] <= 0x7F
    ensures Utf8(s)
  {
    if s != [] {
      AsciiIsUtf8(s[1..]);
    }
  }

  // ----- which values there are -----------------------------------------------------------

  /** Strings and keys are UTF-8 and lengths fit in 64 bits: a value a stream can spell. */
  predicate Spellable(v: Value) {
    match v
    case Str(s) => Utf8(s) && |s| < TWO_TO_THE_64
    case Bytes(raw) => |raw| < TWO_TO_THE_64
    case Array(items) =>
      |items| < TWO_TO_THE_64 && forall i :: 0 <= i < |items| ==> Spellable(items[i])
    case Map(entries) =>
      |entries| < TWO_TO_THE_64 && forall i :: 0 <= i < |entries| ==>
        Utf8(entries[i].key) && |entries[i].key| < TWO_TO_THE_64 && Spellable(entries[i].val)
    case _ => true
  }

  ghost predicate DistinctKeys(entries: seq<Entry>) {
    forall i, j :: 0 <= i < j < |entries| ==> entries[i].key != entries[j].key
  }

  /** No map in the value, at any depth, repeats a key. */
  ghost predicate NoRepeats(v: Value) {
    match v
    case Array(items) => forall i :: 0 <= i < |items| ==> NoRepeats(items[i])
    case Map(entries) =>
      DistinctKeys(entries) && forall i :: 0 <= i < |entries| ==> NoRepeats(entries[i].val)
    case _ => true
  }

  /** What the Rust value type holds. */
  ghost predicate Canonical(v: Value) { Spellable(v) && NoRepeats(v) }

  // ----- little-endian numbers -------------------------------------------------------------

  /** The low `k` bytes of `n`, least significant first. */
  function Le(n: nat, k: nat): (s: bytes)
    ensures |s| == k
  {
    if k == 0 then [] else [n % 256] + Le(n / 256, k - 1)
  }

  function FromLe(s: bytes): nat {
    if s == [] then 0 else s[0] + 256 * FromLe(s[1..])
  }

  function Pow256(k: nat): nat {
    if k == 0 then 1 else 256 * Pow256(k - 1)
  }

  lemma {:induction false} Pow256Of8()
    ensures Pow256(8) == TWO_TO_THE_64
  {
    assert Pow256(2) == 0x1_0000;
    assert Pow256(4) == 0x1_0000_0000;
    assert Pow256(6) == 0x1_0000_0000_0000;
  }

  lemma {:induction false} FromLeOfLe(n: nat, k: nat)
    requires n < Pow256(k)
    ensures FromLe(Le(n, k)) == n
  {
    if k > 0 {
      FromLeOfLe(n / 256, k - 1);
      assert Le(n, k)[1..] == Le(n / 256, k - 1);
    }
  }

  lemma {:induction false} LeOfFromLe(s: bytes)
    ensures FromLe(s) < Pow256(|s|) && Le(FromLe(s), |s|) == s
  {
    if s != [] {
      LeOfFromLe(s[1..]);
      assert s == [s[0]] + s[1..];
    }
  }

  /** The two's complement pattern of a signed 64-bit number, and back. */
  function Pattern(i: i64): u64 { if i < 0 then i + TWO_TO_THE_64 else i }

  function Signed(n: u64): i64 { if n >= TWO_TO_THE_63 then n - TWO_TO_THE_64 else n }

  function Le64(n: u64): (s: bytes)
    ensures |s| == 8
  {
    Le(n, 8)
  }

  function FromLe64(s: bytes): (n: u64)
    requires |s| == 8
  {
    LeOfFromLe(s);
    Pow256Of8();
    FromLe(s)
  }

  lemma {:induction false} Le64RoundTrip(n: u64)
    ensures FromLe64(Le64(n)) == n
  {
    Pow256Of8();
    FromLeOfLe(n, 8);
  }

  lemma {:induction false} FromLe64RoundTrip(s: bytes)
    requires |s| == 8
    ensures Le64(FromLe64(s)) == s
  {
    LeOfFromLe(s);
  }

  // ----- the canonical encoding --------------------------------------------------------------

  /** A length as the encoder writes it: `len as u64`. */
  function Len64(n: nat): bytes { Le64(n % TWO_TO_THE_64) }

  function EncBytes(s: bytes): bytes { Len64(|s|) + s }

  function Enc(v: Value): (s: bytes)
    ensures |s| >= 1
    decreases v, 1
  {
    match v
    case Null => [TAG_NULL]
    case Bool(flag) => [TAG_BOOL, if flag then 1 else 0]
    case Int(i) => [TAG_INT] + Le64(Pattern(i))
    case Float(bits) => [TAG_FLOAT] + Le64(bits)
    case Str(s) => [TAG_STR] + EncBytes(s)
    case Bytes(raw) => [TAG_BYTES] + EncBytes(raw)
    case Array(items) => [TAG_ARRAY] + (Len64(|items|) + EncItems(items))
    case Map(entries) => [TAG_MAP] + (Len64(|entries|) + EncEntries(entries))
  }

  function EncItems(items: seq<Value>): (s: bytes)
    ensures |s| >= |items|
    decreases items, 0
  {
    if items == [] then [] else Enc(items[0]) + EncItems(items[1..])
  }

  function EncEntry(e: Entry): (s: bytes)
    ensures |s| >= 1
    decreases e, 2
  {
    EncBytes(e.key) + Enc(e.val)
  }

  function EncEntries(entries: seq<Entry>): (s: bytes)
    ensures |s| >= |entries|
    decreases entries, 0
  {
    if entries == [] then [] else EncEntry(entries[0]) + EncEntries(entries[1..])
  }

  function ToBytes(v: Value): bytes { MAGIC + Enc(v) }

  lemma {:induction false} Regroup(a: bytes, b: bytes, c: bytes)
    ensures (a + b) + c == a + (b + c)
  {
  }

  lemma {:induction false} EncItemsAppend(a: seq<Value>, b: seq<Value>)
    ensures EncItems(a + b) == EncItems(a) + EncItems(b)
  {
    if a == [] {
      assert a + b == b;
    } else {
      var rest := a[1..];
      EncItemsAppend(rest, b);
      assert (a + b)[0] == a[0] && (a + b)[1..] == rest + b;
      assert EncItems(a) == Enc(a[0]) + EncItems(rest);
      assert EncItems(a + b) == Enc(a[0]) + EncItems(rest + b);
      hide EncItems, Enc;
      Regroup(Enc(a[0]), EncItems(rest), EncItems(b));
    }
  }

  lemma {:induction false} EncEntriesAppend(a: seq<Entry>, b: seq<Entry>)
    ensures EncEntries(a + b) == EncEntries(a) + EncEntries(b)
  {
    if a == [] {
      assert a + b == b;
    } else {
      var rest := a[1..];
      EncEntriesAppend(rest, b);
      assert (a + b)[0] == a[0] && (a + b)[1..] == rest + b;
      assert EncEntries(a) == EncEntry(a[0]) + EncEntries(rest);
      assert EncEntries(a + b) == EncEntry(a[0]) + EncEntries(rest + b);
      hide EncEntries, EncEntry;
      Regroup(EncEntry(a[0]), EncEntries(rest), EncEntries(b));
    }
  }
}
