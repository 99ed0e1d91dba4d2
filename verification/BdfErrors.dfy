/** What is wrong with a refused BDF stream. */
module BdfErrors {

  // Every way in which a stream can be refused, with the error that it gives: where the stream ends,
  // what stands where something else should, and that the first fault in an array or a map is the
  // one reported.

  import opened BdfValue
  import opened BdfParse
  import opened BdfCodec
  import opened BdfLayout

  /** The eight bytes at the position as a number. */
  function Number(b: bytes, pos: nat): int
    requires pos + 8 <= |b|
  {
    Four(b, pos) + 0x1_0000_0000 * Four(b, pos + 4)
  }

  lemma {:induction false} NumberIsRead(b: bytes, pos: nat)
    requires pos + 8 <= |b|
    ensures 0 <= Number(b, pos) < TWO_TO_THE_64 && TakeU64(b, pos) == Ok(Number(b, pos), pos + 8)
  {
    BdfLayout.EightBytes(b[pos..pos + 8]);
    hide FromLe64;
  }

  lemma {:induction false} NumberIsCut(b: bytes, pos: nat)
    requires pos <= |b| < pos + 8
    ensures TakeU64(b, pos) == Err(Truncated(pos, pos + 8 - |b|))
  {
  }

  /** Nothing where a value should begin, or a tag that there is not. */
  lemma {:induction false} NoTag(b: bytes, pos: nat)
    requires pos <= |b|
    ensures pos == |b| ==> Parse(b, pos) == Err(Truncated(pos, 1))
    ensures pos < |b| && b[pos] > 7 ==> Parse(b, pos) == Err(UnknownTag(b[pos], pos))
  {
    hide ParseArray, ParseMap, TakeU64, TakeText, TakeBytes;
  }

  /** A truth value that is missing, or neither 0 nor 1. */
  lemma {:induction false} NoTruth(b: bytes, pos: nat)
    requires pos < |b| && b[pos] == 1
    ensures pos + 1 == |b| ==> Parse(b, pos) == Err(Truncated(pos + 1, 1))
    ensures pos + 1 < |b| && b[pos + 1] > 1 ==> Parse(b, pos) == Err(InvalidBool(b[pos + 1], pos + 1))
  {
  }

  /** A number, a length or a count that is cut short. */
  lemma {:induction false} NoNumber(b: bytes, pos: nat)
    requires pos < |b| < pos + 9 && 2 <= b[pos] <= 7
    ensures Parse(b, pos) == Err(Truncated(pos + 1, pos + 9 - |b|))
  {
    NumberIsCut(b, pos + 1);
    hide TakeU64, ParseItems, ParseEntries;
  }

  /** A length that is more than what is left. */
  lemma {:induction false} TooLong(b: bytes, pos: nat)
    requires pos + 9 <= |b| && (b[pos] == 4 || b[pos] == 5) && Number(b, pos + 1) > |b| - (pos + 9)
    ensures 0 <= Number(b, pos + 1) < TWO_TO_THE_64
    ensures Parse(b, pos) == Err(LengthOverflow(Number(b, pos + 1), |b| - (pos + 9), pos + 1))
  {
    NumberIsRead(b, pos + 1);
    hide TakeU64, Number;
  }

  /** A string that is no UTF-8. */
  lemma {:induction false} NoText(b: bytes, pos: nat)
    requires pos + 9 <= |b| && b[pos] == 4 && 0 <= Number(b, pos + 1) <= |b| - (pos + 9)
    requires !Utf8(b[pos + 9..pos + 9 + Number(b, pos + 1)])
    ensures Parse(b, pos) == Err(InvalidUtf8(pos + 1))
  {
    NumberIsRead(b, pos + 1);
    hide TakeU64, Number, Utf8;
  }

  // ----- inside arrays and maps -----------------------------------------------------------------------

  /** Behind good items the first faulty one decides. */
  lemma {:induction false} FaultyItem(b: bytes, pos: nat, vs: seq<Value>, e: BdfError)
    requires pos + 9 <= |b| && b[pos] == 6 && Number(b, pos + 1) > |vs|
    requires SpellableItems(vs) && Reads(b, pos + 9, EncItems(vs))
    requires pos + 9 + |EncItems(vs)| <= |b| && Parse(b, pos + 9 + |EncItems(vs)|) == Err(e)
    ensures Parse(b, pos) == Err(e)
  {
    NumberIsRead(b, pos + 1);
    var n := Number(b, pos + 1);
    FaultAfterItems(b, pos + 9, vs, n, e);
    ArrayParses(b, pos);
    hide TakeU64, ParseItems, Number, EncItems, Parse;
  }

  lemma {:induction false} ArrayParses(b: bytes, pos: nat)
    requires pos < |b|
    ensures b[pos] == 6 ==> Parse(b, pos) == ParseArray(b, pos + 1)
    ensures b[pos] == 7 ==> Parse(b, pos) == ParseMap(b, pos + 1)
  {
    hide ParseArray, ParseMap;
  }

  lemma {:induction false} FaultAfterItems(b: bytes, pos: nat, vs: seq<Value>, n: nat, e: BdfError)
    requires pos <= |b| && n > |vs| && SpellableItems(vs) && Reads(b, pos, EncItems(vs))
    requires pos + |EncItems(vs)| <= |b| && Parse(b, pos + |EncItems(vs)|) == Err(e)
    ensures ParseItems(b, pos, n) == Err(e)
    decreases |vs|
  {
    hide Parse, Enc;
    if vs != [] {
      assert EncItems(vs) == Enc(vs[0]) + EncItems(vs[1..]);
      hide EncItems;
      ReadsConcat(b, pos, Enc(vs[0]), EncItems(vs[1..]));
      ParseOfEnc(b, pos, vs[0]);
      FaultAfterItems(b, pos + |Enc(vs[0])|, vs[1..], n - 1, e);
    }
  }

  /** Behind good entries the first faulty one decides: its key, or its value. */
  lemma {:induction false} FaultyEntry(b: bytes, pos: nat, es: seq<Entry>, e: BdfError)
    requires pos + 9 <= |b| && b[pos] == 7 && Number(b, pos + 1) > |es|
    requires SpellableEntries(es) && Reads(b, pos + 9, EncEntries(es))
    requires pos + 9 + |EncEntries(es)| <= |b| && ParseEntry(b, pos + 9 + |EncEntries(es)|) == Err(e)
    ensures Parse(b, pos) == Err(e)
  {
    NumberIsRead(b, pos + 1);
    var n := Number(b, pos + 1);
    FaultAfterEntries(b, pos + 9, es, n, e);
    ArrayParses(b, pos);
    hide TakeU64, ParseEntries, Number, EncEntries, Parse, ParseEntry;
  }

  lemma {:induction false} FaultAfterEntries(b: bytes, pos: nat, es: seq<Entry>, n: nat, e: BdfError)
    requires pos <= |b| && n > |es| && SpellableEntries(es) && Reads(b, pos, EncEntries(es))
    requires pos + |EncEntries(es)| <= |b| && ParseEntry(b, pos + |EncEntries(es)|) == Err(e)
    ensures ParseEntries(b, pos, n) == Err(e)
    decreases |es|
  {
    hide ParseEntry, EncEntry;
    if es != [] {
      assert EncEntries(es) == EncEntry(es[0]) + EncEntries(es[1..]);
      hide EncEntries;
      ReadsConcat(b, pos, EncEntry(es[0]), EncEntries(es[1..]));
      EntryIsRead(b, pos, es[0]);
      FaultAfterEntries(b, pos + |EncEntry(es[0])|, es[1..], n - 1, e);
    }
  }

  lemma {:induction false} EntryIsRead(b: bytes, pos: nat, e: Entry)
    requires SpellableEntry(e) && Reads(b, pos, EncEntry(e))
    ensures pos <= |b| && ParseEntry(b, pos) == Ok(e, pos + |EncEntry(e)|)
  {
    hide TakeBytes, Enc, EncBytes, Utf8;
    ReadsConcat(b, pos, EncBytes(e.key), Enc(e.val));
    TakeBytesOfEnc(b, pos, e.key);
    KeyLength(e.key);
    ParseOfEnc(b, pos + 8 + |e.key|, e.val);
  }

  lemma {:induction false} KeyLength(s: bytes)
    ensures |EncBytes(s)| == 8 + |s|
  {
  }

  /** The faults of a key, and of a value behind a good key. */
  lemma {:induction false} FaultyKeyOrValue(b: bytes, pos: nat)
    requires pos <= |b|
    ensures |b| < pos + 8 ==> ParseEntry(b, pos) == Err(Truncated(pos, pos + 8 - |b|))
    ensures pos + 8 <= |b| ==> 0 <= Number(b, pos) < TWO_TO_THE_64
    ensures pos + 8 <= |b| && Number(b, pos) > |b| - (pos + 8) ==>
      ParseEntry(b, pos) == Err(LengthOverflow(Number(b, pos), |b| - (pos + 8), pos))
    ensures pos + 8 <= |b| && Number(b, pos) <= |b| - (pos + 8) && !Utf8(b[pos + 8..pos + 8 + Number(b, pos)]) ==>
      ParseEntry(b, pos) == Err(InvalidUtf8(pos))
    ensures pos + 8 <= |b| && Number(b, pos) <= |b| - (pos + 8) && Utf8(b[pos + 8..pos + 8 + Number(b, pos)]) ==>
      (var v := Parse(b, pos + 8 + Number(b, pos)); v.Err? ==> ParseEntry(b, pos) == Err(v.error))
  {
    if pos + 8 <= |b| {
      NumberIsRead(b, pos);
    } else {
      NumberIsCut(b, pos);
    }
    hide TakeU64, Number, Utf8, Parse;
  }

  // ----- the whole stream -----------------------------------------------------------------------------

  /** A stream that does not begin with the magic, and one whose value is faulty. */
  lemma {:induction false} FaultyStream(b: bytes)
    ensures |b| < 4 ==> FromBytes(b) == Failure(BadMagic(b))
    ensures |b| >= 4 && b[..4] != [66, 68, 70, 48] ==> FromBytes(b) == Failure(BadMagic(b[..4]))
    ensures |b| >= 4 && b[..4] == [66, 68, 70, 48] && Parse(b, 4).Err? ==> FromBytes(b) == Failure(Parse(b, 4).error)
  {
    hide Parse;
  }
}
