/** BDF streams, as they are spelled: reading a value from its bytes, and the bytes from what was read. */
module BdfParse {

  // The grammar of a BDF byte stream, read at a position: what value a stream spells, with every
  // entry of every map in the order written, repeated keys included. Spelling and reading are
  // inverse to each other, and a stream that is cut short fails only by running out.

  import opened BdfValue

  datatype BdfError =
    | BadMagic(found: bytes)
    | Truncated(offset: nat, needed: nat)
    | UnknownTag(tag: byte, tagOffset: nat)
    | InvalidBool(flagByte: byte, flagOffset: nat)
    | InvalidUtf8(textOffset: nat)
    | LengthOverflow(len: u64, remaining: nat, lenOffset: nat)
    | TrailingBytes(endOffset: nat, count: nat)
    | Json(message: string)
    | UnsupportedSchema(schema: bytes, expected: string)

  /** A value and the position behind it, or an error. */
  datatype Parsed<+T> = Ok(value: T, pos: nat) | Err(error: BdfError)

  /** A result that propagates its error with `:-`. */
  datatype Result<+T> = Success(value: T) | Failure(error: BdfError) {
    predicate IsFailure() { Failure? }

    function PropagateFailure<U>(): Result<U>
      requires Failure?
    {
      Failure(error)
    }

    function Extract(): T
      requires Success?
    {
      value
    }
  }

  // ----- reading -------------------------------------------------------------------------

  /** `Cursor::take` */
  function Take(b: bytes, pos: nat, n: nat): (r: Parsed<bytes>)
    requires pos <= |b|
    ensures r.Ok? ==> r.pos == pos + n <= |b| && |r.value| == n
  {
    if |b| - pos < n then Err(Truncated(pos, n - (|b| - pos))) else Ok(b[pos..pos + n], pos + n)
  }

  /** `Cursor::take_u64`; `take_i64` reads the same eight bytes as signed. */
  function TakeU64(b: bytes, pos: nat): (r: Parsed<u64>)
    requires pos <= |b|
    ensures r.Ok? ==> r.pos == pos + 8 <= |b|
  {
    match Take(b, pos, 8)
    case Err(e) => Err(e)
    case Ok(s, p) => Ok(FromLe64(s), p)
  }

  /** `Cursor::take_len_prefixed` */
  function TakeBytes(b: bytes, pos: nat): (r: Parsed<bytes>)
    requires pos <= |b|
    ensures r.Ok? ==> pos + 8 <= r.pos <= |b|
  {
    match TakeU64(b, pos)
    case Err(e) => Err(e)
    case Ok(len, p) =>
      if len > |b| - p then Err(LengthOverflow(len, |b| - p, pos)) else Take(b, p, len)
  }

  function TakeText(b: bytes, pos: nat): (r: Parsed<bytes>)
    requires pos <= |b|
    ensures r.Ok? ==> pos + 8 <= r.pos <= |b|
  {
    match TakeBytes(b, pos)
    case Err(e) => Err(e)
    case Ok(s, p) => if Utf8(s) then Ok(s, p) else Err(InvalidUtf8(pos))
  }

  function Parse(b: bytes, pos: nat): (r: Parsed<Value>)
    requires pos <= |b|
    ensures r.Ok? ==> pos < r.pos <= |b|
    decreases |b| - pos, 0
  {
    if pos == |b| then Err(Truncated(pos, 1))
    else
      var p := pos + 1;
      match b[pos]
      case 0 => Ok(Null, p)
      case 1 =>
        if p == |b| then Err(Truncated(p, 1))
        else if b[p] > 1 then Err(InvalidBool(b[p], p))
        else Ok(Bool(b[p] == 1), p + 1)
      case 2 => (match TakeU64(b, p) case Err(e) => Err(e) case Ok(n, q) => Ok(Int(Signed(n)), q))
      case 3 => (match TakeU64(b, p) case Err(e) => Err(e) case Ok(n, q) => Ok(Float(n), q))
      case 4 => (match TakeText(b, p) case Err(e) => Err(e) case Ok(s, q) => Ok(Str(s), q))
      case 5 => (match TakeBytes(b, p) case Err(e) => Err(e) case Ok(s, q) => Ok(Bytes(s), q))
      case 6 => ParseArray(b, p)
      case 7 => ParseMap(b, p)
      case tag => Err(UnknownTag(tag, pos))
  }

  function ParseArray(b: bytes, pos: nat): (r: Parsed<Value>)
    requires pos <= |b|
    ensures r.Ok? ==> pos < r.pos <= |b|
    decreases |b| - pos, 4
  {
    match TakeU64(b, pos)
    case Err(e) => Err(e)
    case Ok(n, p) =>
      match ParseItems(b, p, n)
      case Err(e) => Err(e)
      case Ok(items, q) => Ok(Array(items), q)
  }

  function ParseMap(b: bytes, pos: nat): (r: Parsed<Value>)
    requires pos <= |b|
    ensures r.Ok? ==> pos < r.pos <= |b|
    decreases |b| - pos, 4
  {
    match TakeU64(b, pos)
    case Err(e) => Err(e)
    case Ok(n, p) =>
      match ParseEntries(b, p, n)
      case Err(e) => Err(e)
      case Ok(entries, q) => Ok(Map(entries), q)
  }

  function ParseItems(b: bytes, pos: nat, n: nat): (r: Parsed<seq<Value>>)
    requires pos <= |b|
    ensures r.Ok? ==> pos <= r.pos <= |b| && |r.value| == n
    decreases |b| - pos, 3
  {
    if n == 0 then Ok([], pos)
    else
      match Parse(b, pos)
      case Err(e) => Err(e)
      case Ok(v, p) =>
        match ParseItems(b, p, n - 1)
        case Err(e) => Err(e)
        case Ok(rest, q) => Ok([v] + rest, q)
  }

  function ParseEntry(b: bytes, pos: nat): (r: Parsed<Entry>)
    requires pos <= |b|
    ensures r.Ok? ==> pos < r.pos <= |b|
    decreases |b| - pos, 2
  {
    match TakeText(b, pos)
    case Err(e) => Err(e)
    case Ok(key, p) =>
      match Parse(b, p)
      case Err(e) => Err(e)
      case Ok(v, q) => Ok(Entry(key, v), q)
  }

  function ParseEntries(b: bytes, pos: nat, n: nat): (r: Parsed<seq<Entry>>)
    requires pos <= |b|
    ensures r.Ok? ==> pos <= r.pos <= |b| && |r.value| == n
    decreases |b| - pos, 3
  {
    if n == 0 then Ok([], pos)
    else
      match ParseEntry(b, pos)
      case Err(e) => Err(e)
      case Ok(entry, p) =>
        match ParseEntries(b, p, n - 1)
        case Err(e) => Err(e)
        case Ok(rest, q) => Ok([entry] + rest, q)
  }

  // ----- a stretch of the stream spells something ------------------------------------------

  predicate Reads(b: bytes, pos: nat, s: bytes) {
    pos + |s| <= |b| && b[pos..pos + |s|] == s
  }

  lemma {:induction false} ReadsFits(b: bytes, pos: nat, s: bytes)
    requires Reads(b, pos, s)
    ensures pos + |s| <= |b|
  {
  }

  lemma {:induction false} ReadsConcat(b: bytes, pos: nat, s: bytes, t: bytes)
    ensures Reads(b, pos, s + t) <==> Reads(b, pos, s) && Reads(b, pos + |s|, t)
  {
    if pos + |s| + |t| <= |b| {
      var whole := b[pos..pos + |s + t|];
      assert whole == b[pos..pos + |s|] + b[pos + |s|..pos + |s| + |t|];
      if whole == s + t {
        assert whole[..|s|] == s && whole[|s|..] == t;
      }
    }
  }

  lemma {:induction false} ReadsByte(b: bytes, pos: nat, x: byte, s: bytes)
    ensures Reads(b, pos, [x] + s) <==> pos < |b| && b[pos] == x && Reads(b, pos + 1, s)
  {
    ReadsConcat(b, pos, [x], s);
    assert pos < |b| ==> b[pos..pos + 1] == [b[pos]];
  }

  lemma {:induction false} CountThenRest(b: bytes, pos: nat, n: u64, rest: bytes)
    ensures Reads(b, pos, Le64(n)) && Reads(b, pos + 8, rest) <==> Reads(b, pos, Len64(n) + rest)
  {
    ReadsConcat(b, pos, Le64(n), rest);
  }

  predicate SpellableItems(items: seq<Value>) {
    forall i :: 0 <= i < |items| ==> Spellable(items[i])
  }

  predicate SpellableEntry(e: Entry) {
    Utf8(e.key) && |e.key| < TWO_TO_THE_64 && Spellable(e.val)
  }

  predicate SpellableEntries(entries: seq<Entry>) {
    forall i :: 0 <= i < |entries| ==> SpellableEntry(entries[i])
  }

  // ----- what is spelled is read back --------------------------------------------------------

  lemma {:induction false} TakeU64OfLe(b: bytes, pos: nat, n: u64)
    requires Reads(b, pos, Le64(n))
    ensures TakeU64(b, pos) == Ok(n, pos + 8)
  {
    Le64RoundTrip(n);
  }

  lemma {:induction false} TakeBytesOfEnc(b: bytes, pos: nat, s: bytes)
    requires |s| < TWO_TO_THE_64 && Reads(b, pos, EncBytes(s))
    ensures TakeBytes(b, pos) == Ok(s, pos + 8 + |s|)
  {
    CountThenRest(b, pos, |s|, s);
    TakeU64OfLe(b, pos, |s|);
  }

  /** A value whose encoding stands at a position is read there, up to the end of its encoding. */
  lemma {:induction false} ParseOfEnc(b: bytes, pos: nat, v: Value)
    requires Spellable(v) && Reads(b, pos, Enc(v))
    ensures Parse(b, pos) == Ok(v, pos + |Enc(v)|)
    decreases v, 1
  {
    hide TakeBytes, ParseItems, ParseEntries, EncItems, EncEntries;
    var p := pos + 1;
    ReadsByte(b, pos, Enc(v)[0], Enc(v)[1..]);
    assert Enc(v) == [Enc(v)[0]] + Enc(v)[1..];
    match v
    case Null =>
    case Bool(flag) => assert b[p..p + 1] == [b[p]];
    case Int(i) => TakeU64OfLe(b, p, Pattern(i));
    case Float(bits) => TakeU64OfLe(b, p, bits);
    case Str(s) => TakeBytesOfEnc(b, p, s);
    case Bytes(raw) => TakeBytesOfEnc(b, p, raw);
    case Array(items) => ParseArrayOfEnc(b, p, items);
    case Map(entries) => ParseMapOfEnc(b, p, entries);
  }

  lemma {:induction false} ParseArrayOfEnc(b: bytes, pos: nat, items: seq<Value>)
    requires |items| < TWO_TO_THE_64 && SpellableItems(items)
    requires Reads(b, pos, Len64(|items|) + EncItems(items))
    ensures ParseArray(b, pos) == Ok(Array(items), pos + 8 + |EncItems(items)|)
    decreases items, 4
  {
    CountThenRest(b, pos, |items|, EncItems(items));
    TakeU64OfLe(b, pos, |items|);
    ParseItemsOfEnc(b, pos + 8, items);
  }

  lemma {:induction false} ParseMapOfEnc(b: bytes, pos: nat, entries: seq<Entry>)
    requires |entries| < TWO_TO_THE_64 && SpellableEntries(entries)
    requires Reads(b, pos, Len64(|entries|) + EncEntries(entries))
    ensures ParseMap(b, pos) == Ok(Map(entries), pos + 8 + |EncEntries(entries)|)
    decreases entries, 4
  {
    CountThenRest(b, pos, |entries|, EncEntries(entries));
    TakeU64OfLe(b, pos, |entries|);
    ParseEntriesOfEnc(b, pos + 8, entries);
  }

  lemma {:induction false} ParseItemsOfEnc(b: bytes, pos: nat, items: seq<Value>)
    requires SpellableItems(items) && Reads(b, pos, EncItems(items))
    ensures ParseItems(b, pos, |items|) == Ok(items, pos + |EncItems(items)|)
    decreases items, 3
  {
    hide Enc, Parse, Reads;
    if items != [] {
      var v, rest := items[0], items[1..];
      ReadsConcat(b, pos, Enc(v), EncItems(rest));
      ReadsFits(b, pos, Enc(v));
      ParseOfEnc(b, pos, v);
      ParseItemsOfEnc(b, pos + |Enc(v)|, rest);
      assert items == [v] + rest;
    }
  }

  lemma {:induction false} ParseEntryOfEnc(b: bytes, pos: nat, e: Entry)
    requires SpellableEntry(e) && Reads(b, pos, EncEntry(e))
    ensures ParseEntry(b, pos) == Ok(e, pos + |EncEntry(e)|)
    decreases e, 2
  {
    hide Parse, Enc, Reads, TakeBytes;
    ReadsConcat(b, pos, EncBytes(e.key), Enc(e.val));
    ReadsFits(b, pos, EncBytes(e.key));
    TakeBytesOfEnc(b, pos, e.key);
    ParseOfEnc(b, pos + 8 + |e.key|, e.val);
  }

  lemma {:induction false} ParseEntriesOfEnc(b: bytes, pos: nat, entries: seq<Entry>)
    requires SpellableEntries(entries) && Reads(b, pos, EncEntries(entries))
    ensures ParseEntries(b, pos, |entries|) == Ok(entries, pos + |EncEntries(entries)|)
    decreases entries, 3
  {
    hide EncEntry, ParseEntry, Reads;
    if entries != [] {
      var e, rest := entries[0], entries[1..];
      ReadsConcat(b, pos, EncEntry(e), EncEntries(rest));
      ReadsFits(b, pos, EncEntry(e));
      ParseEntryOfEnc(b, pos, e);
      ParseEntriesOfEnc(b, pos + |EncEntry(e)|, rest);
      assert entries == [e] + rest;
    }
  }

  // ----- what is read was spelled there ------------------------------------------------------

  lemma {:induction false} LeOfTakeU64(b: bytes, pos: nat)
    requires pos <= |b| && TakeU64(b, pos).Ok?
    ensures Reads(b, pos, Le64(TakeU64(b, pos).value))
  {
    FromLe64RoundTrip(b[pos..pos + 8]);
  }

  lemma {:induction false} EncOfTakeBytes(b: bytes, pos: nat)
    requires pos <= |b| && TakeBytes(b, pos).Ok?
    ensures var r := TakeBytes(b, pos);
      |r.value| < TWO_TO_THE_64 && Reads(b, pos, EncBytes(r.value)) && r.pos == pos + |EncBytes(r.value)|
  {
    LeOfTakeU64(b, pos);
    CountThenRest(b, pos, TakeU64(b, pos).value, TakeBytes(b, pos).value);
  }

  /** What is read stands there: the tag, and behind it the payload. */
  ghost predicate ReadsBack(b: bytes, pos: nat, v: Value, end: nat) {
    Spellable(v) && Reads(b, pos, Enc(v)) && end == pos + |Enc(v)|
  }

  lemma {:induction false} TagThenPayload(b: bytes, pos: nat, v: Value, payload: bytes, end: nat)
    requires pos < |b| && Spellable(v) && Enc(v) == [b[pos]] + payload
    requires Reads(b, pos + 1, payload) && end == pos + 1 + |payload|
    ensures ReadsBack(b, pos, v, end)
  {
    hide Enc, Spellable, Reads;
    ReadsByte(b, pos, b[pos], payload);
  }

  /** Whatever value is read at a position, exactly its encoding stands there. */
  lemma {:induction false} EncOfParse(b: bytes, pos: nat)
    requires pos <= |b| && Parse(b, pos).Ok?
    ensures ReadsBack(b, pos, Parse(b, pos).value, Parse(b, pos).pos)
    decreases |b| - pos, 0
  {
    var v, p := Parse(b, pos).value, pos + 1;
    if v.Array? || v.Map? {
      EncOfParseCollection(b, pos);
    } else {
      EncOfParseScalar(b, pos);
    }
  }

  lemma {:induction false} EncOfParseScalar(b: bytes, pos: nat)
    requires pos <= |b| && Parse(b, pos).Ok? && !Parse(b, pos).value.Array? && !Parse(b, pos).value.Map?
    ensures ReadsBack(b, pos, Parse(b, pos).value, Parse(b, pos).pos)
  {
    hide ParseItems, ParseEntries, ReadsBack, Reads, Le64, FromLe64, EncBytes, TakeBytes;
    var v, p := Parse(b, pos).value, pos + 1;
    if v.Str? || v.Bytes? {
      EncOfTakeBytes(b, p);
      TagThenPayload(b, pos, v, EncBytes(TakeBytes(b, p).value), Parse(b, pos).pos);
    } else if v.Int? || v.Float? {
      LeOfTakeU64(b, p);
      EightBytes(TakeU64(b, p).value);
      TagThenPayload(b, pos, v, Le64(TakeU64(b, p).value), Parse(b, pos).pos);
    } else if v.Bool? {
      ReadsOne(b, p);
      assert Enc(v) == [b[pos]] + [b[p]];
      TagThenPayload(b, pos, v, [b[p]], Parse(b, pos).pos);
    } else {
      ReadsNone(b, p);
      assert Enc(v) == [b[pos]] + [];
      TagThenPayload(b, pos, v, [], Parse(b, pos).pos);
    }
  }

  lemma {:induction false} EightBytes(n: u64)
    ensures |Le64(n)| == 8
  {
  }

  lemma {:induction false} ReadsOne(b: bytes, p: nat)
    ensures p < |b| ==> Reads(b, p, [b[p]])
  {
  }

  lemma {:induction false} ReadsNone(b: bytes, p: nat)
    ensures p <= |b| ==> Reads(b, p, [])
  {
  }

  lemma {:induction false} EncOfParseCollection(b: bytes, pos: nat)
    requires pos <= |b| && Parse(b, pos).Ok? && (Parse(b, pos).value.Array? || Parse(b, pos).value.Map?)
    ensures ReadsBack(b, pos, Parse(b, pos).value, Parse(b, pos).pos)
    decreases |b| - pos, 0, 0
  {
    hide ParseItems, ParseEntries, ReadsBack, Reads, TakeU64, TakeBytes, TakeText;
    var v, p := Parse(b, pos).value, pos + 1;
    if v.Array? {
      EncOfParseArray(b, p);
      TagThenPayload(b, pos, v, Len64(|v.items|) + EncItems(v.items), Parse(b, pos).pos);
    } else {
      EncOfParseMap(b, p);
      TagThenPayload(b, pos, v, Len64(|v.entries|) + EncEntries(v.entries), Parse(b, pos).pos);
    }
  }

  lemma {:induction false} EncOfParseArray(b: bytes, pos: nat)
    requires pos <= |b| && ParseArray(b, pos).Ok?
    ensures var r := ParseArray(b, pos);
      && r.value.Array? && |r.value.items| < TWO_TO_THE_64 && SpellableItems(r.value.items)
      && Reads(b, pos, Len64(|r.value.items|) + EncItems(r.value.items))
      && r.pos == pos + 8 + |EncItems(r.value.items)|
    decreases |b| - pos, 4
  {
    var n := TakeU64(b, pos).value;
    var items := ParseItems(b, pos + 8, n).value;
    LeOfTakeU64(b, pos);
    EncOfParseItems(b, pos + 8, n);
    CountThenRest(b, pos, n, EncItems(items));
  }

  lemma {:induction false} EncOfParseMap(b: bytes, pos: nat)
    requires pos <= |b| && ParseMap(b, pos).Ok?
    ensures var r := ParseMap(b, pos);
      && r.value.Map? && |r.value.entries| < TWO_TO_THE_64 && SpellableEntries(r.value.entries)
      && Reads(b, pos, Len64(|r.value.entries|) + EncEntries(r.value.entries))
      && r.pos == pos + 8 + |EncEntries(r.value.entries)|
    decreases |b| - pos, 4
  {
    var n := TakeU64(b, pos).value;
    var entries := ParseEntries(b, pos + 8, n).value;
    LeOfTakeU64(b, pos);
    EncOfParseEntries(b, pos + 8, n);
    CountThenRest(b, pos, n, EncEntries(entries));
  }

  lemma {:induction false} EncOfParseItems(b: bytes, pos: nat, n: nat)
    requires pos <= |b| && ParseItems(b, pos, n).Ok?
    ensures var r := ParseItems(b, pos, n);
      SpellableItems(r.value) && Reads(b, pos, EncItems(r.value)) && r.pos == pos + |EncItems(r.value)|
    decreases |b| - pos, 3
  {
    if n > 0 {
      var v, p := Parse(b, pos).value, Parse(b, pos).pos;
      var rest := ParseItems(b, p, n - 1).value;
      EncOfParse(b, pos);
      EncOfParseItems(b, p, n - 1);
      assert ([v] + rest)[1..] == rest;
      ReadsConcat(b, pos, Enc(v), EncItems(rest));
    }
  }

  lemma {:induction false} EncOfParseEntry(b: bytes, pos: nat)
    requires pos <= |b| && ParseEntry(b, pos).Ok?
    ensures var r := ParseEntry(b, pos);
      SpellableEntry(r.value) && Reads(b, pos, EncEntry(r.value)) && r.pos == pos + |EncEntry(r.value)|
    decreases |b| - pos, 2
  {
    var e := ParseEntry(b, pos).value;
    var p := TakeText(b, pos).pos;
    EncOfTakeBytes(b, pos);
    EncOfParse(b, p);
    hide Parse, TakeBytes, Reads, Enc, EncBytes;
    ReadsConcat(b, pos, EncBytes(e.key), Enc(e.val));
  }

  lemma {:induction false} ConsEntries(b: bytes, pos: nat, e: Entry, rest: seq<Entry>)
    requires SpellableEntry(e) && Reads(b, pos, EncEntry(e))
    requires SpellableEntries(rest) && Reads(b, pos + |EncEntry(e)|, EncEntries(rest))
    ensures SpellableEntries([e] + rest) && Reads(b, pos, EncEntries([e] + rest))
    ensures |EncEntries([e] + rest)| == |EncEntry(e)| + |EncEntries(rest)|
  {
    assert ([e] + rest)[1..] == rest;
    ReadsConcat(b, pos, EncEntry(e), EncEntries(rest));
  }

  lemma {:induction false} NothingReads(b: bytes, pos: nat)
    ensures SpellableEntries([]) && EncEntries([]) == [] && SpellableItems([]) && EncItems([]) == []
    ensures pos <= |b| ==> Reads(b, pos, [])
  {
  }

  lemma {:induction false} EncOfParseEntries(b: bytes, pos: nat, n: nat)
    requires pos <= |b| && ParseEntries(b, pos, n).Ok?
    ensures var r := ParseEntries(b, pos, n);
      SpellableEntries(r.value) && Reads(b, pos, EncEntries(r.value)) && r.pos == pos + |EncEntries(r.value)|
    decreases |b| - pos, 3
  {
    hide ParseEntry, Reads, EncEntry, EncEntries, SpellableEntry, SpellableEntries;
    NothingReads(b, pos);
    if n > 0 {
      var e, p := ParseEntry(b, pos).value, ParseEntry(b, pos).pos;
      var rest := ParseEntries(b, p, n - 1).value;
      EncOfParseEntry(b, pos);
      EncOfParseEntries(b, p, n - 1);
      ConsEntries(b, pos, e, rest);
    }
  }
}
