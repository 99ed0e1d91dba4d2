/**
 The encoder and the decoder of BDF v0 as the compiler runs them: an output buffer that is
 appended to and a cursor that advances, each proved against the codec's functions.
 */
module BdfCursor {
  import opened BdfValue
  import opened BdfParse
  import opened BdfCodec

  // ----- the encoder ------------------------------------------------------------------------

  /** The `Vec<u8>` the encoder writes to. */
  class Output {
    var data: bytes

    constructor ()
      ensures data == []
    {
      data := [];
    }

    method Push(b: byte)
      modifies this
      ensures data == old(data) + [b]
    {
      data := data + [b];
    }

    method ExtendFromSlice(s: bytes)
      modifies this
      ensures data == old(data) + s
    {
      data := data + s;
    }
  }

  method EncodeBytesPayload(s: bytes, out: Output)
    modifies out
    ensures out.data == old(out.data) + EncBytes(s)
  {
    out.ExtendFromSlice(Len64(|s|));
    out.ExtendFromSlice(s);
  }

  /** `encode_value` */
  method EncodeValue(value: Value, out: Output)
    modifies out
    ensures out.data == old(out.data) + Enc(value)
    decreases value, 1
  {
    hide EncItems, EncEntries, EncBytes, Le64, Len64, Pattern;
    ghost var before := out.data;
    match value
    case Null => out.Push(TAG_NULL);
    case Bool(flag) =>
      out.Push(TAG_BOOL);
      out.Push(if flag then 1 else 0);
      assert out.data == before + [TAG_BOOL, if flag then 1 else 0];
    case Int(i) =>
      out.Push(TAG_INT);
      out.ExtendFromSlice(Le64(Pattern(i)));
      Regroup(before, [TAG_INT], Le64(Pattern(i)));
    case Float(bits) =>
      out.Push(TAG_FLOAT);
      out.ExtendFromSlice(Le64(bits));
      Regroup(before, [TAG_FLOAT], Le64(bits));
    case Str(s) =>
      out.Push(TAG_STR);
      EncodeBytesPayload(s, out);
      Regroup(before, [TAG_STR], EncBytes(s));
    case Bytes(raw) =>
      out.Push(TAG_BYTES);
      EncodeBytesPayload(raw, out);
      Regroup(before, [TAG_BYTES], EncBytes(raw));
    case Array(items) =>
      out.Push(TAG_ARRAY);
      EncodeItems(items, out);
      Regroup(before, [TAG_ARRAY], Len64(|items|) + EncItems(items));
    case Map(entries) =>
      out.Push(TAG_MAP);
      EncodeEntries(entries, out);
      Regroup(before, [TAG_MAP], Len64(|entries|) + EncEntries(entries));
  }

  lemma {:induction false} NothingEncoded()
    ensures EncItems([]) == [] && EncEntries([]) == []
  {
  }

  /** The array arm: the count, then every item. */
  method EncodeItems(items: seq<Value>, out: Output)
    modifies out
    ensures out.data == old(out.data) + (Len64(|items|) + EncItems(items))
    decreases items, 0
  {
    hide Enc, EncItems, Len64;
    NothingEncoded();
    out.ExtendFromSlice(Len64(|items|));
    ghost var before := out.data;
    for k := 0 to |items|
      invariant out.data == before + EncItems(items[..k])
    {
      EncodeValue(items[k], out);
      EncItemsSnoc(items[..k], items[k]);
      assert items[..k + 1] == items[..k] + [items[k]];
    }
    assert items[..|items|] == items;
    Regroup(old(out.data), Len64(|items|), EncItems(items));
  }

  /** The map arm: the count, then every key and value. */
  method EncodeEntries(entries: seq<Entry>, out: Output)
    modifies out
    ensures out.data == old(out.data) + (Len64(|entries|) + EncEntries(entries))
    decreases entries, 0
  {
    hide Enc, EncBytes, EncEntries, Len64;
    NothingEncoded();
    out.ExtendFromSlice(Len64(|entries|));
    ghost var before := out.data;
    for k := 0 to |entries|
      invariant out.data == before + EncEntries(entries[..k])
    {
      EncodeBytesPayload(entries[k].key, out);
      EncodeValue(entries[k].val, out);
      EncEntriesSnoc(entries[..k], entries[k]);
      assert entries[..k + 1] == entries[..k] + [entries[k]];
    }
    assert entries[..|entries|] == entries;
    Regroup(old(out.data), Len64(|entries|), EncEntries(entries));
  }

  /** `to_bytes` */
  method RunToBytes(value: Value) returns (b: bytes)
    ensures b == ToBytes(value)
  {
    var out := new Output();
    out.ExtendFromSlice(MAGIC);
    EncodeValue(value, out);
    b := out.data;
  }

  // ----- the decoder ------------------------------------------------------------------------

  /** What the cursor has read so far, put before what it reads next. */
  function Prepend<T>(xs: seq<T>, r: Parsed<seq<T>>): Parsed<seq<T>> {
    match r
    case Err(e) => Err(e)
    case Ok(ys, p) => Ok(xs + ys, p)
  }

  class Cursor {
    const input: bytes
    var pos: nat

    constructor (input: bytes)
      ensures this.input == input && pos == 0
    {
      this.input := input;
      pos := 0;
    }

    predicate Valid()
      reads this
    {
      pos <= |input|
    }

    /** `Cursor::remaining` */
    function Remaining(): nat
      reads this
      requires Valid()
    {
      |input| - pos
    }

    /** A read did what `p` says: its value and the new position, or its error. */
    ghost predicate Did<T>(p: Parsed<T>, r: Result<T>)
      reads this
    {
      match p
      case Ok(v, q) => r == Success(v) && pos == q
      case Err(e) => r == Failure(e)
    }

    method Take(n: nat) returns (r: Result<bytes>)
      requires Valid()
      modifies this
      ensures Valid() && Did(BdfParse.Take(input, old(pos), n), r)
    {
      if Remaining() < n {
        return Failure(Truncated(pos, n - Remaining()));
      }
      r := Success(input[pos..pos + n]);
      pos := pos + n;
    }

    method TakeU8() returns (r: Result<byte>)
      requires Valid()
      modifies this
      ensures Valid()
      ensures if old(pos) < |input| then r == Success(input[old(pos)]) && pos == old(pos) + 1
              else r == Failure(Truncated(old(pos), 1))
    {
      var t := Take(1);
      match t
      case Failure(e) => r := Failure(e);
      case Success(s) => r := Success(s[0]);
    }

    method TakeU64() returns (r: Result<u64>)
      requires Valid()
      modifies this
      ensures Valid() && Did(BdfParse.TakeU64(input, old(pos)), r)
    {
      var t := Take(8);
      match t
      case Failure(e) => r := Failure(e);
      case Success(s) => r := Success(FromLe64(s));
    }

    method TakeLenPrefixed() returns (r: Result<bytes>)
      requires Valid()
      modifies this
      ensures Valid() && Did(TakeBytes(input, old(pos)), r)
    {
      var offset := pos;
      var t := TakeU64();
      match t
      case Failure(e) => r := Failure(e);
      case Success(len) =>
        if len > Remaining() {
          return Failure(LengthOverflow(len, Remaining(), offset));
        }
        r := Take(len);
    }

    method TakeString() returns (r: Result<bytes>)
      requires Valid()
      modifies this
      ensures Valid() && Did(TakeText(input, old(pos)), r)
    {
      var offset := pos;
      r := TakeLenPrefixed();
      if r.Success? && !Utf8(r.value) {
        r := Failure(InvalidUtf8(offset));
      }
    }

    /** What `decode_value` returns for what the stream spells: maps with the collapse applied. */
    ghost predicate Decodes(p: Parsed<Value>, r: Result<Value>)
      reads this
    {
      match p
      case Ok(v, q) => r == Success(Collapse(v)) && pos == q
      case Err(e) => r == Failure(e)
    }

    /** `decode_value` */
    method DecodeValue() returns (r: Result<Value>)
      requires Valid()
      modifies this
      ensures Valid() && Decodes(Parse(input, old(pos)), r)
      decreases |input| - pos, 0
    {
      var tagOffset := pos;
      var t := TakeU8();
      if t.Failure? {
        return Failure(t.error);
      }
      match t.value
      case 0 => r := Success(Null);
      case 1 =>
        var offset := pos;
        var flag := TakeU8();
        if flag.Failure? {
          return Failure(flag.error);
        }
        r := match flag.value
             case 0 => Success(Bool(false))
             case 1 => Success(Bool(true))
             case other => Failure(InvalidBool(other, offset));
      case 2 =>
        var n := TakeU64();
        r := match n case Failure(e) => Failure(e) case Success(u) => Success(Int(Signed(u)));
      case 3 =>
        var n := TakeU64();
        r := match n case Failure(e) => Failure(e) case Success(u) => Success(Float(u));
      case 4 =>
        var s := TakeString();
        r := match s case Failure(e) => Failure(e) case Success(text) => Success(Str(text));
      case 5 =>
        var s := TakeLenPrefixed();
        r := match s case Failure(e) => Failure(e) case Success(raw) => Success(Bytes(raw));
      case 6 => r := DecodeArray();
      case 7 => r := DecodeMap();
      case tag => r := Failure(UnknownTag(tag, tagOffset));
    }

    /** The array arm: `count` values, one after the other. */
    method DecodeArray() returns (r: Result<Value>)
      requires Valid()
      modifies this
      ensures Valid() && Decodes(ParseArray(input, old(pos)), r)
      decreases |input| - pos, 4
    {
      var n := TakeU64();
      if n.Failure? {
        return Failure(n.error);
      }
      var count := n.value;
      ghost var start := pos;
      var items: seq<Value> := [];
      ghost var spelled: seq<Value> := [];
      PrependNothing(ParseItems(input, start, count), spelled, start);
      for i := 0 to count
        invariant Valid() && start <= pos
        invariant |spelled| == i && items == CollapseItems(spelled)
        invariant ParseItems(input, start, count) == Prepend(spelled, ParseItems(input, pos, count - i))
      {
        ghost var before := pos;
        var item := DecodeValue();
        if item.Failure? {
          return Failure(item.error);
        }
        items := items + [item.value];
        ghost var v := Parse(input, before).value;
        SnocItem(spelled, v, ParseItems(input, pos, count - i - 1));
        spelled := spelled + [v];
      }
      PrependNothing(ParseItems(input, start, count), spelled, pos);
      r := Success(Array(items));
    }

    /** One key and its value. */
    method DecodeEntry() returns (r: Result<Entry>)
      requires Valid()
      modifies this
      ensures Valid()
      ensures match ParseEntry(input, old(pos))
        case Ok(e, q) => r == Success(Entry(e.key, Collapse(e.val))) && pos == q
        case Err(e) => r == Failure(e)
      decreases |input| - pos, 2
    {
      var key := TakeString();
      if key.Failure? {
        return Failure(key.error);
      }
      var val := DecodeValue();
      if val.Failure? {
        return Failure(val.error);
      }
      r := Success(Entry(key.value, val.value));
    }

    /** The map arm: `count` keys and values, inserted as they come. */
    method DecodeMap() returns (r: Result<Value>)
      requires Valid()
      modifies this
      ensures Valid() && Decodes(ParseMap(input, old(pos)), r)
      decreases |input| - pos, 4
    {
      var n := TakeU64();
      if n.Failure? {
        return Failure(n.error);
      }
      var count := n.value;
      ghost var start := pos;
      var entries: seq<Entry> := [];
      ghost var spelled: seq<Entry> := [];
      PrependNothing(ParseEntries(input, start, count), spelled, start);
      for i := 0 to count
        invariant Valid() && start <= pos
        invariant |spelled| == i && entries == CollapseEntries(spelled)
        invariant ParseEntries(input, start, count) == Prepend(spelled, ParseEntries(input, pos, count - i))
      {
        ghost var before := pos;
        var entry := DecodeEntry();
        if entry.Failure? {
          return Failure(entry.error);
        }
        entries := InsertEntry(entries, entry.value);
        ghost var e := ParseEntry(input, before).value;
        SnocEntry(spelled, e, ParseEntries(input, pos, count - i - 1));
        spelled := spelled + [e];
      }
      PrependNothing(ParseEntries(input, start, count), spelled, pos);
      r := Success(Map(entries));
    }
  }

  lemma {:induction false} PrependNothing<T>(r: Parsed<seq<T>>, xs: seq<T>, p: nat)
    ensures Prepend([], r) == r && Prepend(xs, Ok([], p)) == Ok(xs, p)
  {
    assert xs + [] == xs;
    if r.Ok? {
      assert [] + r.value == r.value;
    }
  }

  lemma {:induction false} SnocItem(spelled: seq<Value>, v: Value, rest: Parsed<seq<Value>>)
    ensures CollapseItems(spelled + [v]) == CollapseItems(spelled) + [Collapse(v)]
    ensures Prepend(spelled, Prepend([v], rest)) == Prepend(spelled + [v], rest)
  {
    assert (spelled + [v])[..|spelled|] == spelled;
    if rest.Ok? {
      assert spelled + ([v] + rest.value) == spelled + [v] + rest.value;
    }
  }

  lemma {:induction false} SnocEntry(spelled: seq<Entry>, e: Entry, rest: Parsed<seq<Entry>>)
    ensures CollapseEntries(spelled + [e])
         == InsertEntry(CollapseEntries(spelled), Entry(e.key, Collapse(e.val)))
    ensures Prepend(spelled, Prepend([e], rest)) == Prepend(spelled + [e], rest)
  {
    assert (spelled + [e])[..|spelled|] == spelled;
    if rest.Ok? {
      assert spelled + ([e] + rest.value) == spelled + [e] + rest.value;
    }
  }

  /** `from_bytes` */
  method RunFromBytes(b: bytes) returns (r: Result<Value>)
    ensures r == FromBytes(b)
  {
    var cursor := new Cursor(b);
    if cursor.Remaining() < |MAGIC| {
      return Failure(BadMagic(b));
    }
    var magic := cursor.Take(|MAGIC|);
    if magic.value != MAGIC {
      return Failure(BadMagic(magic.value));
    }
    var value := cursor.DecodeValue();
    if value.Failure? {
      return Failure(value.error);
    }
    if cursor.Remaining() != 0 {
      return Failure(TrailingBytes(cursor.pos, cursor.Remaining()));
    }
    r := Success(value.value);
  }
}
