/** The character map of a font. */
module Cmap {

  // The character map of a font: one subtable is chosen and its segments are written out into a
  // dictionary, one code after the other, a later segment over an earlier one. The OpenType
  // standard instead looks a code up by searching the segments ('cmap' table, formats 4 and 12).

  import opened Options

  type byte = b: int | 0 <= b < 256

  type Data = seq<byte>

  /** A read past the end of the data raises an error, as does a font with no usable subtable. */
  datatype Result<+T> = Ok(value: T) | ShortData | NoUnicodeCmap

  predicate Readable(d: Data, o: nat, n: nat) { o + n <= |d| }

  /** Big-endian numbers; zero where the data ends early. */
  function U16(d: Data, o: nat): nat {
    if Readable(d, o, 2) then 256 * (d[o] as int) + (d[o + 1] as int) else 0
  }

  function S16(d: Data, o: nat): int { if U16(d, o) >= 0x8000 then U16(d, o) - 0x1_0000 else U16(d, o) }

  function U32(d: Data, o: nat): nat { 0x1_0000 * U16(d, o) + U16(d, o + 2) }

  // ----- the choice of a subtable --------------------------------------------------------------

  datatype Record = Record(platform: nat, format: nat, offset: nat)

  function RecordAt(d: Data, o: nat, i: nat): Record {
    var at := o + 4 + 8 * i;
    var offset := o + U32(d, at + 4);
    Record(U16(d, at), U16(d, offset), offset)
  }

  function RecordCount(d: Data, o: nat): nat { U16(d, o + 2) }

  predicate RecordReadable(d: Data, o: nat, i: nat) {
    Readable(d, o + 4 + 8 * i, 8) && Readable(d, RecordAt(d, o, i).offset, 2)
  }

  ghost predicate RecordsReadable(d: Data, o: nat) {
    Readable(d, o + 2, 2) && forall i: nat :: i < RecordCount(d, o) ==> RecordReadable(d, o, i)
  }

  function Rank(r: Record): nat {
    if r.platform != 0 && r.platform != 3 then 0
    else if r.format == 12 then 3
    else if r.format == 4 then 2
    else 0
  }

  function RankAt(d: Data, o: nat, i: nat): nat { Rank(RecordAt(d, o, i)) }

  /** The first of the records with the highest rank, which is not zero. */
  ghost predicate IsBest(d: Data, o: nat, n: nat, i: nat) {
    && i < n && RankAt(d, o, i) > 0
    && (forall j: nat :: j < n ==> RankAt(d, o, j) <= RankAt(d, o, i))
    && (forall j: nat :: j < i ==> RankAt(d, o, j) < RankAt(d, o, i))
  }

  ghost predicate NoneRanked(d: Data, o: nat, n: nat) { forall j: nat :: j < n ==> RankAt(d, o, j) == 0 }

  method Choose(d: Data, o: nat) returns (r: Result<Record>)
    ensures r.ShortData? <==> !RecordsReadable(d, o)
    ensures r.NoUnicodeCmap? <==> RecordsReadable(d, o) && NoneRanked(d, o, RecordCount(d, o))
    ensures r.Ok? ==> exists i: nat :: IsBest(d, o, RecordCount(d, o), i) && r.value == RecordAt(d, o, i)
  {
    if !Readable(d, o + 2, 2) {
      return ShortData;
    }
    var best: int := -1;
    for i := 0 to RecordCount(d, o)
      invariant forall j: nat :: j < i ==> RecordReadable(d, o, j)
      invariant best == -1 ==> NoneRanked(d, o, i)
      invariant best != -1 ==> 0 <= best && IsBest(d, o, i, best)
    {
      if !RecordReadable(d, o, i) {
        return ShortData;
      }
      var rank := RankAt(d, o, i);
      if rank > 0 && (best == -1 || rank > RankAt(d, o, best)) {
        best := i;
      }
    }
    if best == -1 {
      return NoUnicodeCmap;
    }
    return Ok(RecordAt(d, o, best));
  }

  lemma {:induction false} BestIsUnique(d: Data, o: nat, n: nat, i: nat, j: nat)
    requires IsBest(d, o, n, i) && IsBest(d, o, n, j)
    ensures i == j && !NoneRanked(d, o, n)
  {
  }

  // ----- format 4 ---------------------------------------------------------------------------------

  /** A segment, and the address that its range offset counts from. */
  datatype Segment = Segment(start: nat, end: nat, delta: int, rangeOffset: nat, at: nat)

  function SegmentCount(d: Data, sub: nat): nat { U16(d, sub + 6) / 2 }

  function SegmentAt(d: Data, sub: nat, s: nat): Segment {
    var size := U16(d, sub + 6);
    var ends, starts := sub + 14, sub + 16 + size;
    var deltas, ranges := starts + size, starts + 2 * size;
    Segment(U16(d, starts + 2 * s), U16(d, ends + 2 * s), S16(d, deltas + 2 * s), U16(d, ranges + 2 * s),
            ranges + 2 * s)
  }

  function Segments(d: Data, sub: nat): seq<Segment> {
    seq(SegmentCount(d, sub), s requires 0 <= s < SegmentCount(d, sub) => SegmentAt(d, sub, s))
  }

  /** The last of the four arrays is the last to be readable. */
  predicate SegmentReadable(d: Data, sub: nat, s: nat) { Readable(d, SegmentAt(d, sub, s).at, 2) }

  /** The address of the glyph number of a code in a segment with a range offset. */
  function GlyphAddress(g: Segment, c: nat): nat
    requires g.start <= c
  {
    g.at + g.rangeOffset + 2 * (c - g.start)
  }

  ghost predicate GlyphsReadable(d: Data, g: Segment) {
    forall c: nat :: g.start <= c <= g.end && c != 0xFFFF && g.rangeOffset != 0 ==> Readable(d, GlyphAddress(g, c), 2)
  }

  /** The glyph of a code in its segment; the standard's rule for both kinds of segments. */
  function Glyph(d: Data, g: Segment, c: nat): nat
    requires g.start <= c
  {
    if g.rangeOffset == 0 then (c + g.delta) % 0x1_0000
    else if U16(d, GlyphAddress(g, c)) == 0 then 0
    else (U16(d, GlyphAddress(g, c)) + g.delta) % 0x1_0000
  }

  /** What the segment writes for a code: its glyph, or nothing for 0 and for the last code. */
  function Written(d: Data, g: Segment, c: nat): nat {
    if g.start <= c <= g.end && c != 0xFFFF then Glyph(d, g, c) else 0
  }

  /** The entry of a code after the first n segments: what the last of them wrote. */
  function Entry(d: Data, gs: seq<Segment>, c: nat): nat {
    if gs == [] then 0
    else if Written(d, gs[|gs| - 1], c) != 0 then Written(d, gs[|gs| - 1], c)
    else Entry(d, gs[..|gs| - 1], c)
  }

  /** The dictionary holds the entries that are not 0. */
  ghost predicate Holds(m: map<nat, nat>, d: Data, gs: seq<Segment>) {
    && (forall c: nat :: c in m <==> Entry(d, gs, c) != 0)
    && (forall c: nat :: c in m ==> m[c] == Entry(d, gs, c))
  }

  ghost predicate Format4Readable(d: Data, sub: nat) {
    && Readable(d, sub + 6, 2)
    && forall s: nat :: s < SegmentCount(d, sub) ==>
      SegmentReadable(d, sub, s) && GlyphsReadable(d, SegmentAt(d, sub, s))
  }

  /** The codes of one segment, written over the dictionary. */
  method WriteSegment(d: Data, g: Segment, before: map<nat, nat>) returns (r: Result<map<nat, nat>>)
    ensures !r.NoUnicodeCmap? && (r.Ok? <==> GlyphsReadable(d, g))
    ensures r.Ok? ==> forall c: nat :: c in r.value <==> c in before || Written(d, g, c) != 0
    ensures r.Ok? ==> forall c: nat :: c in r.value ==>
      r.value[c] == if Written(d, g, c) != 0 then Written(d, g, c) else before[c]
  {
    hide Glyph, U16;
    var cmap: map<nat, nat> := before;
    var c := g.start;
    while c < g.end + 1
      invariant g.start <= c
      invariant forall x: nat :: g.start <= x < c && x <= g.end && x != 0xFFFF && g.rangeOffset != 0 ==>
        Readable(d, GlyphAddress(g, x), 2)
      invariant forall x: nat :: x in cmap <==> x in before || (x < c && Written(d, g, x) != 0)
      invariant forall x: nat :: x in cmap ==>
        cmap[x] == if x < c && Written(d, g, x) != 0 then Written(d, g, x) else before[x]
    {
      if c != 0xFFFF {
        if g.rangeOffset != 0 && !Readable(d, GlyphAddress(g, c), 2) {
          return ShortData;
        }
        var glyph := Glyph(d, g, c);
        if glyph != 0 {
          cmap := cmap[c := glyph];
        }
      }
      c := c + 1;
    }
    return Ok(cmap);
  }

  lemma {:induction false} EntrySnoc(d: Data, gs: seq<Segment>, g: Segment, c: nat)
    ensures Entry(d, gs + [g], c) == if Written(d, g, c) != 0 then Written(d, g, c) else Entry(d, gs, c)
  {
    assert (gs + [g])[..|gs|] == gs;
  }

  /** The expansion succeeds exactly when everything it reads is there, and then holds for each code
      what the last segment with a glyph for it says. */
  method ReadFormat4(d: Data, sub: nat) returns (r: Result<map<nat, nat>>)
    ensures !r.NoUnicodeCmap? && (r.Ok? <==> Format4Readable(d, sub))
    ensures r.Ok? ==> Holds(r.value, d, Segments(d, sub))
  {
    hide Glyph, U16, SegmentAt, GlyphsReadable, Entry, Written;
    if !Readable(d, sub + 6, 2) {
      return ShortData;
    }
    var cmap: map<nat, nat> := map[];
    ghost var gs := Segments(d, sub);
    EmptyHolds(d);
    for s := 0 to SegmentCount(d, sub)
      invariant forall t: nat :: t < s ==> SegmentReadable(d, sub, t) && GlyphsReadable(d, SegmentAt(d, sub, t))
      invariant Holds(cmap, d, gs[..s])
    {
      if !SegmentReadable(d, sub, s) {
        return ShortData;
      }
      var g := SegmentAt(d, sub, s);
      var next := WriteSegment(d, g, cmap);
      if !next.Ok? {
        return ShortData;
      }
      forall c: nat
        ensures Entry(d, gs[..s] + [g], c) == if Written(d, g, c) != 0 then Written(d, g, c) else Entry(d, gs[..s], c)
      {
        EntrySnoc(d, gs[..s], g, c);
      }
      assert gs[..s + 1] == gs[..s] + [g];
      cmap := next.value;
    }
    assert gs[..SegmentCount(d, sub)] == gs;
    return Ok(cmap);
  }

  lemma {:induction false} EmptyHolds(d: Data)
    ensures Holds(map[], d, [])
  {
  }

  // ----- what the standard says ---------------------------------------------------------------------

  /** "Format 4: Segment mapping to delta values": the first segment that ends at the code or
      later decides; a code before its start has no glyph. */
  function Lookup4(d: Data, gs: seq<Segment>, c: nat): nat {
    if gs == [] then 0
    else if gs[0].end < c then Lookup4(d, gs[1..], c)
    else if c < gs[0].start then 0
    else Glyph(d, gs[0], c)
  }

  /** Segments in order of their ends, no two with a code below the last in common. */
  ghost predicate SortedDisjoint(gs: seq<Segment>) {
    && (forall i, j :: 0 <= i < j < |gs| ==> gs[i].end <= gs[j].end)
    && (forall i, j :: 0 <= i < j < |gs| && gs[j].start < 0xFFFF ==> gs[i].end < gs[j].start)
  }

  lemma {:induction false} NothingWritten(d: Data, gs: seq<Segment>, c: nat)
    requires forall i :: 0 <= i < |gs| ==> Written(d, gs[i], c) == 0
    ensures Entry(d, gs, c) == 0
  {
    if gs != [] {
      NothingWritten(d, gs[..|gs| - 1], c);
    }
  }

  /** Seen from the front: the first segment's glyph stands when no later one writes. */
  lemma {:induction false} EntryCons(d: Data, g: Segment, gs: seq<Segment>, c: nat)
    ensures Entry(d, [g] + gs, c) == if Entry(d, gs, c) != 0 then Entry(d, gs, c) else Written(d, g, c)
  {
    if gs == [] {
      assert [g] + gs == [g];
      assert [g][..0] == [];
    } else {
      var last := gs[|gs| - 1];
      EntryCons(d, g, gs[..|gs| - 1], c);
      EntrySnoc(d, [g] + gs[..|gs| - 1], last, c);
      assert [g] + gs == [g] + gs[..|gs| - 1] + [last];
    }
  }

  /** On sorted disjoint segments the dictionary and the standard's search agree on every code below
      the last one, glyph 0 standing for no entry. */
  lemma {:induction false} DictionaryIsLookup4(d: Data, gs: seq<Segment>, c: nat)
    requires SortedDisjoint(gs) && c < 0xFFFF
    ensures Entry(d, gs, c) == Lookup4(d, gs, c)
  {
    hide Glyph;
    if gs != [] {
      var g, rest := gs[0], gs[1..];
      assert gs == [g] + rest;
      EntryCons(d, g, rest, c);
      if g.end < c {
        DictionaryIsLookup4(d, rest, c);
      } else {
        NothingWritten(d, rest, c);
      }
    }
  }

  /** For overlapping segments they differ: the standard takes the first, the dictionary the last. Here
      the subtable maps the codes 10 to 20 with delta 1 and the codes 15 to 30 with delta 5. */
  lemma {:induction false} OverlapsDiffer()
    ensures var d: Data := [0, 4, 0, 0, 0, 0, 0, 4, 0, 0, 0, 0, 0, 0, 0, 20, 0, 30, 0, 0, 0, 10, 0, 15, 0, 1, 0, 5,
        0, 0, 0, 0];
      && Format4Readable(d, 0)
      && Lookup4(d, Segments(d, 0), 15) == 16 && Entry(d, Segments(d, 0), 15) == 20
  {
    var d: Data := [0, 4, 0, 0, 0, 0, 0, 4, 0, 0, 0, 0, 0, 0, 0, 20, 0, 30, 0, 0, 0, 10, 0, 15, 0, 1, 0, 5, 0, 0, 0, 0];
    OverlapWords(d);
    hide U16;
    assert SegmentAt(d, 0, 0) == Segment(10, 20, 1, 0, 28);
    assert SegmentAt(d, 0, 1) == Segment(15, 30, 5, 0, 30);
    var gs := [Segment(10, 20, 1, 0, 28), Segment(15, 30, 5, 0, 30)];
    assert Segments(d, 0) == gs;
    assert gs[1..] == [gs[1]] && gs[..1] == [gs[0]];
    assert Written(d, gs[1], 15) == 20;
  }

  lemma {:induction false} OverlapWords(d: Data)
    requires d == [0, 4, 0, 0, 0, 0, 0, 4, 0, 0, 0, 0, 0, 0, 0, 20, 0, 30, 0, 0, 0, 10, 0, 15, 0, 1, 0, 5, 0, 0, 0, 0]
    ensures U16(d, 6) == 4 && U16(d, 14) == 20 && U16(d, 16) == 30 && U16(d, 20) == 10 && U16(d, 22) == 15
    ensures U16(d, 24) == 1 && U16(d, 26) == 5 && U16(d, 28) == 0 && U16(d, 30) == 0 && |d| == 32
  {
  }

  // ----- exactly when they agree ----------------------------------------------------------------------

  datatype Range = Range(first: nat, last: nat)

  /** The codes that the segments of a subtable cover. */
  ghost predicate HasShape(d: Data, sub: nat, shape: seq<Range>) {
    && SegmentCount(d, sub) == |shape|
    && forall s :: 0 <= s < |shape| ==>
      SegmentAt(d, sub, s).start == shape[s].first && SegmentAt(d, sub, s).end == shape[s].last
  }

  /** Whatever glyphs the segments give, the dictionary is the standard's lookup below the last code. */
  ghost predicate AlwaysAgrees(shape: seq<Range>) {
    forall d: Data, sub: nat, c: nat ::
      HasShape(d, sub, shape) && Format4Readable(d, sub) && c < 0xFFFF ==>
        Entry(d, Segments(d, sub), c) == Lookup4(d, Segments(d, sub), c)
  }

  /** No segment begins before an earlier one has ended, unless at the last code. */
  ghost predicate DisjointShape(shape: seq<Range>) {
    forall i, j :: 0 <= i < j < |shape| && shape[j].first < 0xFFFF ==> shape[i].last < shape[j].first
  }

  /** A shape that 16-bit numbers can spell, in order of the ends as the standard wants it. */
  ghost predicate ShapeInOrder(shape: seq<Range>) {
    && |shape| <= 0x7FFF
    && (forall s :: 0 <= s < |shape| ==> shape[s].first <= 0xFFFF && shape[s].last <= 0xFFFF)
    && (forall i, j :: 0 <= i < j < |shape| ==> shape[i].last <= shape[j].last)
  }

  /** The words of a subtable with range offsets 0: its format, length, language and sizes, then the
      ends, a zero, the starts, the deltas and the range offsets. */
  function TableWord(shape: seq<Range>, deltas: seq<nat>, k: nat): (w: nat)
    requires |deltas| == |shape|
  {
    var n := |shape|;
    if k == 0 then 4
    else if k == 3 then 2 * n
    else if 7 <= k < 7 + n then shape[k - 7].last
    else if 8 + n <= k < 8 + 2 * n then shape[k - 8 - n].first
    else if 8 + 2 * n <= k < 8 + 3 * n then deltas[k - 8 - 2 * n]
    else 0
  }

  function TableOf(shape: seq<Range>, deltas: seq<nat>): Data
    requires |deltas| == |shape|
  {
    seq(16 + 8 * |shape|, b requires 0 <= b < 16 + 8 * |shape| =>
      if b % 2 == 0 then TableWord(shape, deltas, b / 2) / 256 % 256 else TableWord(shape, deltas, b / 2) % 256)
  }

  lemma {:induction false} WordOfTable(shape: seq<Range>, deltas: seq<nat>, k: nat)
    requires |deltas| == |shape| && k < 8 + 4 * |shape| && TableWord(shape, deltas, k) <= 0xFFFF
    ensures U16(TableOf(shape, deltas), 2 * k) == TableWord(shape, deltas, k)
  {
    hide TableWord;
    assert 2 * k / 2 == k && (2 * k + 1) / 2 == k;
  }

  lemma {:induction false} TableWords(shape: seq<Range>, deltas: seq<nat>, s: nat)
    requires ShapeInOrder(shape) && |deltas| == |shape| && s < |shape|
    ensures 2 * |shape| <= 0xFFFF && shape[s].first <= 0xFFFF && shape[s].last <= 0xFFFF
    ensures TableWord(shape, deltas, 3) == 2 * |shape|
    ensures TableWord(shape, deltas, 7 + s) == shape[s].last
    ensures TableWord(shape, deltas, 8 + |shape| + s) == shape[s].first
    ensures |TableOf(shape, deltas)| == 16 + 8 * |shape|
  {
  }

  lemma {:induction false} ReadCodes(shape: seq<Range>, deltas: seq<nat>, s: nat)
    requires ShapeInOrder(shape) && |deltas| == |shape| && s < |shape|
    ensures U16(TableOf(shape, deltas), 2 * 3) == 2 * |shape|
    ensures U16(TableOf(shape, deltas), 2 * (7 + s)) == shape[s].last
    ensures U16(TableOf(shape, deltas), 2 * (8 + |shape| + s)) == shape[s].first
  {
    TableWords(shape, deltas, s);
    hide *;
    ReadWord(shape, deltas, 3, 2 * |shape|);
    ReadWord(shape, deltas, 7 + s, shape[s].last);
    ReadWord(shape, deltas, 8 + |shape| + s, shape[s].first);
  }

  lemma {:induction false} ReadGlyphs(shape: seq<Range>, deltas: seq<nat>, s: nat)
    requires |deltas| == |shape| && s < |shape| && deltas[s] <= 0xFFFF
    ensures U16(TableOf(shape, deltas), 2 * (8 + 2 * |shape| + s)) == deltas[s]
    ensures U16(TableOf(shape, deltas), 2 * (8 + 3 * |shape| + s)) == 0
  {
    hide TableOf, U16;
    ReadWord(shape, deltas, 8 + 2 * |shape| + s, deltas[s]);
    ReadWord(shape, deltas, 8 + 3 * |shape| + s, 0);
  }

  lemma {:induction false} ReadWord(shape: seq<Range>, deltas: seq<nat>, k: nat, w: nat)
    requires |deltas| == |shape| && k < 8 + 4 * |shape| && TableWord(shape, deltas, k) == w <= 0xFFFF
    ensures U16(TableOf(shape, deltas), 2 * k) == w
  {
    WordOfTable(shape, deltas, k);
  }

  /** The subtable has the shape and the deltas it was made with. */
  lemma {:induction false} TableSegment(shape: seq<Range>, deltas: seq<nat>, s: nat)
    requires ShapeInOrder(shape) && |deltas| == |shape| && s < |shape| && deltas[s] <= 0xFFFF
    ensures SegmentCount(TableOf(shape, deltas), 0) == |shape| && SegmentReadable(TableOf(shape, deltas), 0, s)
    ensures Spelled(SegmentAt(TableOf(shape, deltas), 0, s), shape[s], deltas[s])
  {
    hide *;
    ReadCodes(shape, deltas, s);
    ReadGlyphs(shape, deltas, s);
    TableWords(shape, deltas, s);
    SegmentFromWords(TableOf(shape, deltas), |shape|, s, shape[s], deltas[s]);
  }

  /** The segment has these codes and this delta, and no range offset. */
  predicate Spelled(g: Segment, r: Range, delta: nat) {
    g.start == r.first && g.end == r.last && g.rangeOffset == 0 && g.delta % 0x1_0000 == delta
  }

  lemma {:induction false} SegmentFromWords(d: Data, n: nat, s: nat, r: Range, delta: nat)
    requires s < n && |d| == 16 + 8 * n && delta <= 0xFFFF
    requires U16(d, 2 * 3) == 2 * n && U16(d, 2 * (7 + s)) == r.last && U16(d, 2 * (8 + n + s)) == r.first
    requires U16(d, 2 * (8 + 2 * n + s)) == delta && U16(d, 2 * (8 + 3 * n + s)) == 0
    ensures SegmentCount(d, 0) == n && SegmentReadable(d, 0, s)
    ensures Spelled(SegmentAt(d, 0, s), r, delta)
  {
    hide U16;
    assert 14 + 2 * s == 2 * (7 + s) && 16 + 2 * n + 2 * s == 2 * (8 + n + s);
    assert 16 + 2 * n + 2 * n + 2 * s == 2 * (8 + 2 * n + s);
  }

  lemma {:induction false} TableHasShape(shape: seq<Range>, deltas: seq<nat>)
    requires ShapeInOrder(shape) && shape != []
    requires |deltas| == |shape| && forall s :: 0 <= s < |shape| ==> deltas[s] <= 0xFFFF
    ensures HasShape(TableOf(shape, deltas), 0, shape) && Format4Readable(TableOf(shape, deltas), 0)
  {
    var d := TableOf(shape, deltas);
    assert |d| >= 24;
    forall s: nat | s < |shape|
      ensures SegmentCount(d, 0) == |shape| && SegmentReadable(d, 0, s) && GlyphsReadable(d, SegmentAt(d, 0, s))
      ensures SegmentAt(d, 0, s).start == shape[s].first && SegmentAt(d, 0, s).end == shape[s].last
    {
      TableSegment(shape, deltas, s);
    }
    hide TableOf, SegmentAt;
    TableSegment(shape, deltas, 0);
  }

  /** The first segment that ends at the code or later decides the standard's lookup. */
  lemma {:induction false} LookupAtFirst(d: Data, gs: seq<Segment>, f: nat, c: nat)
    requires f < |gs| && c <= gs[f].end && forall k :: 0 <= k < f ==> gs[k].end < c
    ensures Lookup4(d, gs, c) == if c < gs[f].start then 0 else Glyph(d, gs[f], c)
  {
    hide Glyph;
    if f > 0 {
      LookupAtFirst(d, gs[1..], f - 1, c);
    }
  }

  /** If a segment writes a glyph and no later one writes another, the entry is that glyph. */
  lemma {:induction false} EntryFrom(d: Data, gs: seq<Segment>, j: nat, c: nat)
    requires j < |gs| && Written(d, gs[j], c) != 0
    requires forall k :: j < k < |gs| ==> Written(d, gs[k], c) == 0 || Written(d, gs[k], c) == Written(d, gs[j], c)
    ensures Entry(d, gs, c) == Written(d, gs[j], c)
  {
    hide Written;
    if j < |gs| - 1 {
      EntryFrom(d, gs[..|gs| - 1], j, c);
    }
  }

  lemma {:induction false} SegmentsAre(d: Data, shape: seq<Range>)
    requires HasShape(d, 0, shape)
    ensures |Segments(d, 0)| == |shape| && forall s: nat :: s < |shape| ==> Segments(d, 0)[s] == SegmentAt(d, 0, s)
  {
    hide SegmentAt;
  }

  /** Where two segments overlap, some choice of glyphs tells the dictionary from the standard: one
      glyph for the first segment that ends at the code or later, another for all the others. */
  lemma {:induction false} OverlapIsSeen(shape: seq<Range>, i: nat, j: nat)
    requires ShapeInOrder(shape) && i < j < |shape| && shape[j].first < 0xFFFF && shape[j].first <= shape[i].last
    ensures !AlwaysAgrees(shape)
  {
    var c := shape[j].first;
    var f := FirstEnd(shape, i, c);
    var d := TableOf(shape, TellingDeltas(shape, f, c));
    TableHasShape(shape, TellingDeltas(shape, f, c));
    forall s: nat | s < |shape| ensures Told(d, SegmentAt(d, 0, s), shape[s], c, if s == f then 1 else 2) {
      TellingGlyph(shape, f, c, s);
    }
    SegmentsAre(d, shape);
    hide TableOf, TellingDeltas, Format4Readable, SegmentAt, SegmentCount, Written, Glyph, Entry, Lookup4, Segments;
    var gs := Segments(d, 0);
    LookupAtFirst(d, gs, f, c);
    EntryFrom(d, gs, j, c);
  }

  /** Deltas that give the code one glyph in segment `f` and another in all the others. */
  function TellingDeltas(shape: seq<Range>, f: nat, c: nat): (r: seq<nat>)
    ensures |r| == |shape| && forall s :: 0 <= s < |r| ==> r[s] <= 0xFFFF
  {
    seq(|shape|, s requires 0 <= s < |shape| => ((if s == f then 1 else 2) - c) % 0x1_0000)
  }

  /** The segment gives the code this glyph, as far as it covers it. */
  ghost predicate Told(d: Data, g: Segment, r: Range, c: nat, x: nat) {
    && g.start == r.first && g.end == r.last
    && (g.start <= c ==> Glyph(d, g, c) == x)
    && Written(d, g, c) == if r.first <= c <= r.last then x else 0
  }

  lemma {:induction false} TellingDelta(shape: seq<Range>, f: nat, c: nat, s: nat)
    requires s < |shape|
    ensures TellingDeltas(shape, f, c)[s] == ((if s == f then 1 else 2) - c) % 0x1_0000
  {
  }

  lemma {:induction false} TellingGlyph(shape: seq<Range>, f: nat, c: nat, s: nat)
    requires ShapeInOrder(shape) && s < |shape| && c < 0xFFFF
    ensures var d := TableOf(shape, TellingDeltas(shape, f, c));
      Told(d, SegmentAt(d, 0, s), shape[s], c, if s == f then 1 else 2)
  {
    hide *;
    var deltas := TellingDeltas(shape, f, c);
    TellingDelta(shape, f, c, s);
    TableSegment(shape, deltas, s);
    GlyphChosen(TableOf(shape, deltas), SegmentAt(TableOf(shape, deltas), 0, s), shape[s], c, if s == f then 1 else 2);
  }

  lemma {:induction false} GlyphChosen(d: Data, g: Segment, r: Range, c: nat, x: nat)
    requires 0 < x < 0x1_0000 && c < 0xFFFF && Spelled(g, r, (x - c) % 0x1_0000)
    ensures Told(d, g, r, c, x)
  {
    assert (c + g.delta) % 0x1_0000 == x;
  }

  lemma {:induction false} FirstEnd(shape: seq<Range>, i: nat, c: nat) returns (f: nat)
    requires i < |shape| && c <= shape[i].last
    ensures f <= i && c <= shape[f].last && forall k :: 0 <= k < f ==> shape[k].last < c
  {
    f := 0;
    while shape[f].last < c
      invariant f <= i && forall k :: 0 <= k < f ==> shape[k].last < c
      decreases i - f
    {
      f := f + 1;
    }
  }

  /** For segments in order of their ends, the dictionary is the standard's lookup of every code below
      the last, whatever the glyphs, exactly when no two of them overlap there. */
  lemma {:induction false} AgreesExactlyWhenDisjoint(shape: seq<Range>)
    requires ShapeInOrder(shape)
    ensures AlwaysAgrees(shape) <==> DisjointShape(shape)
  {
    if DisjointShape(shape) {
      forall d: Data, sub: nat, c: nat | HasShape(d, sub, shape) && Format4Readable(d, sub) && c < 0xFFFF
        ensures Entry(d, Segments(d, sub), c) == Lookup4(d, Segments(d, sub), c)
      {
        hide Entry, Lookup4, SegmentAt;
        DictionaryIsLookup4(d, Segments(d, sub), c);
      }
    } else {
      var i: nat, j: nat :| i < j < |shape| && shape[j].first < 0xFFFF && shape[j].first <= shape[i].last;
      OverlapIsSeen(shape, i, j);
    }
  }

  // ----- format 12 --------------------------------------------------------------------------------

  datatype Group = Group(start: nat, end: nat, glyph: nat)

  function GroupCount(d: Data, sub: nat): nat { U32(d, sub + 12) }

  function GroupAt(d: Data, sub: nat, k: nat): Group {
    var at := sub + 16 + 12 * k;
    Group(U32(d, at), U32(d, at + 4), U32(d, at + 8))
  }

  function Groups(d: Data, sub: nat): seq<Group> {
    seq(GroupCount(d, sub), k requires 0 <= k < GroupCount(d, sub) => GroupAt(d, sub, k))
  }

  predicate Covers(g: Group, c: nat) { g.start <= c <= g.end }

  function GroupGlyph(g: Group, c: nat): nat
    requires g.start <= c
  {
    g.glyph + (c - g.start)
  }

  /** The entry of a code after the groups: the last that covers it decides. */
  function Entry12(gs: seq<Group>, c: nat): Option<nat> {
    if gs == [] then None
    else if Covers(gs[|gs| - 1], c) then Some(GroupGlyph(gs[|gs| - 1], c))
    else Entry12(gs[..|gs| - 1], c)
  }

  ghost predicate Holds12(m: map<nat, nat>, gs: seq<Group>) {
    forall c: nat :: Entry12(gs, c) == if c in m then Some(m[c]) else None
  }

  ghost predicate Format12Readable(d: Data, sub: nat) {
    Readable(d, sub + 12, 4) && forall k: nat :: k < GroupCount(d, sub) ==> Readable(d, sub + 16 + 12 * k, 12)
  }

  method WriteGroup(g: Group, before: map<nat, nat>) returns (cmap: map<nat, nat>)
    ensures forall c: nat :: c in cmap <==> c in before || Covers(g, c)
    ensures forall c: nat :: c in cmap ==> cmap[c] == if Covers(g, c) then g.glyph + (c - g.start) else before[c]
  {
    cmap := before;
    var c := g.start;
    while c < g.end + 1
      invariant g.start <= c
      invariant forall x: nat :: x in cmap <==> x in before || (Covers(g, x) && x < c)
      invariant forall x: nat :: x in cmap ==>
        cmap[x] == if Covers(g, x) && x < c then g.glyph + (x - g.start) else before[x]
    {
      cmap := cmap[c := g.glyph + (c - g.start)];
      c := c + 1;
    }
  }

  lemma {:induction false} Entry12Snoc(gs: seq<Group>, g: Group, c: nat)
    ensures Entry12(gs + [g], c) == if Covers(g, c) then Some(GroupGlyph(g, c)) else Entry12(gs, c)
  {
    assert (gs + [g])[..|gs|] == gs;
  }

  /** The expansion of the groups: a code is mapped exactly when a group covers it, by the last that
      does. */
  method ReadFormat12(d: Data, sub: nat) returns (r: Result<map<nat, nat>>)
    ensures !r.NoUnicodeCmap? && (r.Ok? <==> Format12Readable(d, sub))
    ensures r.Ok? ==> Holds12(r.value, Groups(d, sub))
  {
    hide GroupAt, U32, Entry12;
    if !Readable(d, sub + 12, 4) {
      return ShortData;
    }
    var cmap: map<nat, nat> := map[];
    ghost var gs := Groups(d, sub);
    EmptyHolds12();
    for k := 0 to GroupCount(d, sub)
      invariant forall j: nat :: j < k ==> Readable(d, sub + 16 + 12 * j, 12)
      invariant Holds12(cmap, gs[..k])
    {
      if !Readable(d, sub + 16 + 12 * k, 12) {
        return ShortData;
      }
      var g := GroupAt(d, sub, k);
      var next := WriteGroup(g, cmap);
      assert gs[..k + 1] == gs[..k] + [g];
      forall c: nat
        ensures Entry12(gs[..k + 1], c) == if Covers(g, c) then Some(GroupGlyph(g, c)) else Entry12(gs[..k], c)
      {
        Entry12Snoc(gs[..k], g, c);
      }
      cmap := next;
    }
    assert gs[..GroupCount(d, sub)] == gs;
    return Ok(cmap);
  }

  lemma {:induction false} EmptyHolds12()
    ensures Holds12(map[], [])
  {
  }

  /** "Format 12: Segmented coverage": a group that covers the code decides; without one there is no
      glyph. */
  function Lookup12(gs: seq<Group>, c: nat): Option<nat> {
    if gs == [] then None
    else if Covers(gs[0], c) then Some(gs[0].glyph + (c - gs[0].start))
    else Lookup12(gs[1..], c)
  }

  ghost predicate Disjoint(gs: seq<Group>) {
    forall i, j, c: nat :: 0 <= i < j < |gs| ==> !(Covers(gs[i], c) && Covers(gs[j], c))
  }

  /** Seen from the front: the first group's entry stands when no later one covers the code. */
  lemma {:induction false} Entry12Cons(g: Group, gs: seq<Group>, c: nat)
    ensures Entry12([g] + gs, c)
         == if Entry12(gs, c).Some? then Entry12(gs, c) else if Covers(g, c) then Some(GroupGlyph(g, c)) else None
  {
    if gs == [] {
      assert [g] + gs == [g];
      assert [g][..0] == [];
    } else {
      var last := gs[|gs| - 1];
      Entry12Cons(g, gs[..|gs| - 1], c);
      Entry12Snoc([g] + gs[..|gs| - 1], last, c);
      assert [g] + gs == [g] + gs[..|gs| - 1] + [last];
    }
  }

  lemma {:induction false} Uncovered(gs: seq<Group>, c: nat)
    requires forall i :: 0 <= i < |gs| ==> !Covers(gs[i], c)
    ensures Entry12(gs, c).None?
  {
    if gs != [] {
      Uncovered(gs[..|gs| - 1], c);
    }
  }

  /** On disjoint groups, in whatever order, the dictionary is the standard's lookup. */
  lemma {:induction false} DictionaryIsLookup12(gs: seq<Group>, c: nat)
    requires Disjoint(gs)
    ensures Entry12(gs, c) == Lookup12(gs, c)
  {
    hide Covers;
    if gs != [] {
      var g, rest := gs[0], gs[1..];
      assert gs == [g] + rest;
      Entry12Cons(g, rest, c);
      if Covers(g, c) {
        Uncovered(rest, c);
      } else {
        DictionaryIsLookup12(rest, c);
      }
    }
  }

  // ----- the whole table ------------------------------------------------------------------------------

  /** What the expansion of the chosen subtable holds. */
  ghost predicate Expands(d: Data, r: Record, m: map<nat, nat>) {
    if r.format == 4 then Holds(m, d, Segments(d, r.offset)) else Holds12(m, Groups(d, r.offset))
  }

  ghost predicate SubtableReadable(d: Data, r: Record) {
    if r.format == 4 then Format4Readable(d, r.offset) else Format12Readable(d, r.offset)
  }

  /** The character map of a font whose 'cmap' table starts at `o`. */
  method ReadCmap(d: Data, o: nat) returns (r: Result<map<nat, nat>>)
    ensures r.NoUnicodeCmap? <==> RecordsReadable(d, o) && NoneRanked(d, o, RecordCount(d, o))
    ensures forall i: nat :: RecordsReadable(d, o) && IsBest(d, o, RecordCount(d, o), i) ==>
      && (r.Ok? <==> SubtableReadable(d, RecordAt(d, o, i)))
      && (r.Ok? ==> Expands(d, RecordAt(d, o, i), r.value))
    ensures r.Ok? ==> RecordsReadable(d, o) && exists i: nat :: IsBest(d, o, RecordCount(d, o), i)
  {
    hide Holds, Holds12, Format4Readable, Format12Readable, RecordAt, RecordsReadable, IsBest, NoneRanked;
    var best := Choose(d, o);
    match best
    case ShortData =>
      r := ShortData;
    case NoUnicodeCmap =>
      NoBest(d, o, RecordCount(d, o));
      r := NoUnicodeCmap;
    case Ok(record) =>
      ghost var i: nat :| IsBest(d, o, RecordCount(d, o), i) && record == RecordAt(d, o, i);
      forall j: nat | IsBest(d, o, RecordCount(d, o), j) ensures j == i {
        BestIsUnique(d, o, RecordCount(d, o), i, j);
      }
      BestIsUnique(d, o, RecordCount(d, o), i, i);
      BestFormat(d, o, i);
      if record.format == 4 {
        r := ReadFormat4(d, record.offset);
      } else {
        r := ReadFormat12(d, record.offset);
      }
  }

  lemma {:induction false} NoBest(d: Data, o: nat, n: nat)
    requires NoneRanked(d, o, n)
    ensures forall i: nat :: !IsBest(d, o, n, i)
  {
  }

  lemma {:induction false} BestFormat(d: Data, o: nat, i: nat)
    requires IsBest(d, o, RecordCount(d, o), i)
    ensures RecordAt(d, o, i).format in {4, 12} && RecordAt(d, o, i).platform in {0, 3}
  {
  }
}
