/** The character map as bytes. */
module CmapBytes {

  // What the bytes of a 'cmap' table spell, field by field as the OpenType standard lays them out, and
  // that the reader sees exactly that: the records, the segments of a format 4 subtable with their
  // glyph array, and the groups of a format 12 subtable.

  import opened Options
  import opened Cmap

  // ----- numbers ------------------------------------------------------------------------------------

  /** A 16-bit number, its high byte first. */
  function Big16(n: nat): Data
    requires n < 0x1_0000
  {
    [n / 256, n % 256]
  }

  /** A 32-bit number, its highest byte first. */
  function Big32(n: nat): Data
    requires n < 0x1_0000_0000
  {
    [n / 0x100_0000, n / 0x1_0000 % 256, n / 256 % 256, n % 256]
  }

  /** The bytes stand at the address. */
  predicate Stands(d: Data, o: nat, bytes: Data) { o + |bytes| <= |d| && d[o..o + |bytes|] == bytes }

  lemma {:induction false} StandsSplit(d: Data, o: nat, a: Data, b: Data)
    ensures Stands(d, o, a + b) <==> Stands(d, o, a) && Stands(d, o + |a|, b)
  {
    if o + |a| + |b| <= |d| {
      var x := d[o..o + |a| + |b|];
      assert x == d[o..o + |a|] + d[o + |a|..o + |a| + |b|];
      assert x[..|a|] == d[o..o + |a|] && x[|a|..] == d[o + |a|..o + |a| + |b|];
      assert (a + b)[..|a|] == a && (a + b)[|a|..] == b;
    }
  }

  lemma {:induction false} Reads16(d: Data, o: nat, n: nat)
    requires n < 0x1_0000
    ensures Stands(d, o, Big16(n)) <==> Readable(d, o, 2) && U16(d, o) == n
  {
    if o + 2 <= |d| {
      var x := d[o..o + 2];
      assert x[0] == d[o] && x[1] == d[o + 1] && x == [x[0], x[1]];
    }
  }

  /** The four bytes of a number, from its two halves. */
  lemma {:induction false} Quarters(n: nat)
    requires n < 0x1_0000_0000
    ensures var high, low := n / 0x1_0000, n % 0x1_0000;
      high < 0x1_0000 && n / 0x100_0000 == high / 256 && n / 256 % 256 == low / 256 && n % 256 == low % 256
  {
    var high, low := n / 0x1_0000, n % 0x1_0000;
    var a, b, c, e := high / 256, high % 256, low / 256, low % 256;
    assert n == 0x100_0000 * a + (0x1_0000 * b + 256 * c + e);
    assert n == 256 * (0x1_0000 * a + 256 * b + c) + e;
    assert n / 256 == 256 * (256 * a + b) + c;
  }

  lemma {:induction false} Halves(n: nat)
    requires n < 0x1_0000_0000
    ensures n / 0x1_0000 < 0x1_0000 && Big32(n) == Big16(n / 0x1_0000) + Big16(n % 0x1_0000)
  {
    Quarters(n);
  }

  lemma {:induction false} Reads32(d: Data, o: nat, n: nat)
    requires n < 0x1_0000_0000
    ensures Stands(d, o, Big32(n)) <==> Readable(d, o, 4) && U32(d, o) == n
  {
    Halves(n);
    StandsSplit(d, o, Big16(n / 0x1_0000), Big16(n % 0x1_0000));
    Reads16(d, o, n / 0x1_0000);
    Reads16(d, o + 2, n % 0x1_0000);
    U16Small(d, o);
    U16Small(d, o + 2);
    hide U16, Big16, Big32, Stands;
  }

  lemma {:induction false} U16Small(d: Data, o: nat)
    ensures U16(d, o) < 0x1_0000
  {
  }

  // ----- format 12 ----------------------------------------------------------------------------------

  predicate WideGroup(g: Group) { g.start < 0x1_0000_0000 && g.end < 0x1_0000_0000 && g.glyph < 0x1_0000_0000 }

  ghost predicate Wide(gs: seq<Group>) {
    |gs| < 0x1_0000_0000 && forall k :: 0 <= k < |gs| ==> WideGroup(gs[k])
  }

  predicate SpellsGroup(d: Data, o: nat, g: Group)
    requires WideGroup(g)
  {
    Stands(d, o, Big32(g.start) + Big32(g.end) + Big32(g.glyph))
  }

  /** The subtable has these groups: their number after twelve bytes, then for each the first code, the
      last and the glyph of the first. */
  ghost predicate Spells12(d: Data, sub: nat, gs: seq<Group>)
    requires Wide(gs)
  {
    && Stands(d, sub + 12, Big32(|gs|))
    && forall k :: 0 <= k < |gs| ==>
      SpellsGroup(d, sub + 16 + 12 * k, gs[k])
  }

  lemma {:induction false} GroupReads(d: Data, sub: nat, k: nat, g: Group)
    requires WideGroup(g)
    ensures SpellsGroup(d, sub + 16 + 12 * k, g)
       <==> Readable(d, sub + 16 + 12 * k, 12) && GroupAt(d, sub, k) == g
  {
    hide U32, Big32, Stands;
    var o := sub + 16 + 12 * k;
    StandsSplit(d, o, Big32(g.start) + Big32(g.end), Big32(g.glyph));
    StandsSplit(d, o, Big32(g.start), Big32(g.end));
    Lengths(g.start, g.end);
    Reads32(d, o, g.start);
    Reads32(d, o + 4, g.end);
    Reads32(d, o + 8, g.glyph);
  }

  lemma {:induction false} Lengths(a: nat, b: nat)
    requires a < 0x1_0000_0000 && b < 0x1_0000_0000
    ensures |Big32(a)| == 4 && |Big32(a) + Big32(b)| == 8
  {
  }

  lemma {:induction false} GroupsAre(d: Data, sub: nat, gs: seq<Group>)
    ensures Groups(d, sub) == gs
       <==> GroupCount(d, sub) == |gs| && forall k :: 0 <= k < |gs| ==> GroupAt(d, sub, k) == gs[k]
  {
    hide GroupAt, GroupCount;
    if Groups(d, sub) == gs {
      forall k | 0 <= k < |gs| ensures GroupAt(d, sub, k) == gs[k] {
        assert Groups(d, sub)[k] == gs[k];
      }
    }
  }

  /** The reader sees exactly the groups that the bytes spell. */
  lemma {:induction false} GroupsAreSpelled(d: Data, sub: nat, gs: seq<Group>)
    requires Wide(gs)
    ensures Spells12(d, sub, gs) <==> Format12Readable(d, sub) && Groups(d, sub) == gs
  {
    Reads32(d, sub + 12, |gs|);
    GroupsAre(d, sub, gs);
    hide U32, Big32, Stands, GroupAt, Groups, SpellsGroup, Readable, WideGroup;
    forall k: nat | k < |gs|
      ensures SpellsGroup(d, sub + 16 + 12 * k, gs[k])
         <==> Readable(d, sub + 16 + 12 * k, 12) && GroupAt(d, sub, k) == gs[k]
    {
      GroupReads(d, sub, k, gs[k]);
    }
    if Spells12(d, sub, gs) {
      forall k: nat | k < |gs| ensures Readable(d, sub + 16 + 12 * k, 12) && GroupAt(d, sub, k) == gs[k] {
        assert SpellsGroup(d, sub + 16 + 12 * k, gs[k]);
      }
    }
  }

  /** What the expansion of a spelled subtable holds, group by group, when no code is in two groups. */
  lemma {:induction false} SpelledExpands12(d: Data, r: Record, gs: seq<Group>, m: map<nat, nat>, c: nat)
    requires Wide(gs) && r.format == 12 && Spells12(d, r.offset, gs) && Disjoint(gs) && Expands(d, r, m)
    ensures c in m <==> exists k :: 0 <= k < |gs| && gs[k].start <= c <= gs[k].end
    ensures forall k :: 0 <= k < |gs| && gs[k].start <= c <= gs[k].end ==>
      c in m && m[c] == gs[k].glyph + (c - gs[k].start)
  {
    GroupsAreSpelled(d, r.offset, gs);
    hide Spells12, Format12Readable, Groups, GroupAt;
    assert Entry12(gs, c) == if c in m then Some(m[c]) else None;
    if forall k :: 0 <= k < |gs| ==> !Covers(gs[k], c) {
      Uncovered(gs, c);
    }
    forall k | 0 <= k < |gs| && gs[k].start <= c <= gs[k].end
      ensures c in m && m[c] == gs[k].glyph + (c - gs[k].start)
    {
      EntryOfGroup(gs, k, c);
    }
  }

  lemma {:induction false} EntryOfGroup(gs: seq<Group>, k: nat, c: nat)
    requires Disjoint(gs) && k < |gs| && Covers(gs[k], c)
    ensures Entry12(gs, c) == Some(gs[k].glyph + (c - gs[k].start))
  {
    var last := |gs| - 1;
    if k < last {
      assert !(Covers(gs[k], c) && Covers(gs[last], c));
      EntryOfGroup(gs[..last], k, c);
    }
  }

  // ----- format 4 -----------------------------------------------------------------------------------

  /** A segment as the standard lays it out; the delta is a 16-bit number with a sign. */
  datatype Spelling = Spelling(end: nat, start: nat, delta: int, rangeOffset: nat)

  ghost predicate Narrow(ss: seq<Spelling>) {
    |ss| <= 0x7FFF
    && forall s :: 0 <= s < |ss| ==>
      ss[s].end < 0x1_0000 && ss[s].start < 0x1_0000 && -0x8000 <= ss[s].delta < 0x8000 && ss[s].rangeOffset < 0x1_0000
  }

  /** The subtable has these segments: twice their number after six bytes; after fourteen bytes all the
      ends, then two bytes, all the starts, all the deltas and all the range offsets. */
  ghost predicate Spells4(d: Data, sub: nat, ss: seq<Spelling>)
    requires Narrow(ss)
  {
    && Stands(d, sub + 6, Big16(2 * |ss|))
    && forall s :: 0 <= s < |ss| ==>
      && Stands(d, sub + 14 + 2 * s, Big16(ss[s].end))
      && Stands(d, sub + 16 + 2 * |ss| + 2 * s, Big16(ss[s].start))
      && Stands(d, sub + 16 + 4 * |ss| + 2 * s, Big16(ss[s].delta % 0x1_0000))
      && Stands(d, sub + 16 + 6 * |ss| + 2 * s, Big16(ss[s].rangeOffset))
  }

  function SegmentOf(sub: nat, ss: seq<Spelling>, s: nat): Segment
    requires s < |ss|
  {
    Segment(ss[s].start, ss[s].end, ss[s].delta, ss[s].rangeOffset, sub + 16 + 6 * |ss| + 2 * s)
  }

  lemma {:induction false} SignedReads(d: Data, o: nat, n: int)
    requires -0x8000 <= n < 0x8000
    ensures Stands(d, o, Big16(n % 0x1_0000)) ==> Readable(d, o, 2) && S16(d, o) == n
  {
    Reads16(d, o, n % 0x1_0000);
    hide U16, Big16, Stands;
  }

  /** The reader sees exactly the segments that the bytes spell. */
  lemma {:induction false} SegmentsAreSpelled(d: Data, sub: nat, ss: seq<Spelling>)
    requires Narrow(ss) && Spells4(d, sub, ss)
    ensures Readable(d, sub + 6, 2) && SegmentCount(d, sub) == |ss|
    ensures forall s: nat :: s < |ss| ==> SegmentReadable(d, sub, s) && SegmentAt(d, sub, s) == SegmentOf(sub, ss, s)
  {
    Reads16(d, sub + 6, 2 * |ss|);
    hide U16, S16, Big16, Stands;
    forall s: nat | s < |ss|
      ensures SegmentReadable(d, sub, s) && SegmentAt(d, sub, s) == SegmentOf(sub, ss, s)
    {
      Reads16(d, sub + 14 + 2 * s, ss[s].end);
      Reads16(d, sub + 16 + 2 * |ss| + 2 * s, ss[s].start);
      SignedReads(d, sub + 16 + 4 * |ss| + 2 * s, ss[s].delta);
      Reads16(d, sub + 16 + 6 * |ss| + 2 * s, ss[s].rangeOffset);
    }
  }

  /** Without a range offset the glyph of a code is the code and the delta, modulo 65536. */
  lemma {:induction false} GlyphByDelta(d: Data, sub: nat, ss: seq<Spelling>, s: nat, c: nat)
    requires s < |ss| && ss[s].rangeOffset == 0 && ss[s].start <= c <= ss[s].end && c < 0xFFFF
    ensures Written(d, SegmentOf(sub, ss, s), c) == (c + ss[s].delta) % 0x1_0000
  {
  }

  /** With one it comes from the array of glyphs behind the range offsets: counted in words from the
      segment's own range offset, at half the offset and as many words on as the code is from the start.
      A zero there means no glyph, and to any other number the delta is added. */
  lemma {:induction false} GlyphByArray(
      d: Data, sub: nat, ss: seq<Spelling>, glyphs: seq<nat>, s: nat, c: nat, half: nat)
    requires s < |ss| && ss[s].rangeOffset == 2 * half > 0 && ss[s].start <= c <= ss[s].end && c < 0xFFFF
    requires forall i :: 0 <= i < |glyphs| ==>
      glyphs[i] < 0x1_0000 && Stands(d, sub + 16 + 8 * |ss| + 2 * i, Big16(glyphs[i]))
    requires |ss| <= s + half + (c - ss[s].start) < |ss| + |glyphs|
    ensures var glyph := glyphs[s + half + (c - ss[s].start) - |ss|];
      Written(d, SegmentOf(sub, ss, s), c) == if glyph == 0 then 0 else (glyph + ss[s].delta) % 0x1_0000
  {
    var i := s + half + (c - ss[s].start) - |ss|;
    Reads16(d, sub + 16 + 8 * |ss| + 2 * i, glyphs[i]);
    hide U16, Big16, Stands;
    assert GlyphAddress(SegmentOf(sub, ss, s), c) == sub + 16 + 8 * |ss| + 2 * i;
  }

  /** What the expansion of a spelled subtable holds, when no code is in two segments: the glyph of its
      segment, if there is one. */
  lemma {:induction false} SpelledExpands4(
      d: Data, r: Record, ss: seq<Spelling>, m: map<nat, nat>, s: nat, c: nat)
    requires Narrow(ss) && r.format == 4 && Spells4(d, r.offset, ss) && Expands(d, r, m)
    requires s < |ss| && ss[s].start <= c <= ss[s].end && c < 0xFFFF
    requires forall t :: 0 <= t < |ss| && t != s ==> !(ss[t].start <= c <= ss[t].end)
    ensures var glyph := Written(d, SegmentOf(r.offset, ss, s), c);
      (c in m <==> glyph != 0) && (c in m ==> m[c] == glyph)
  {
    SegmentsAreSpelled(d, r.offset, ss);
    hide Spells4, SegmentAt, SegmentCount, Glyph;
    var gs := Segments(d, r.offset);
    forall t | 0 <= t < |gs| ensures gs[t] == SegmentOf(r.offset, ss, t) {
      assert gs[t] == SegmentAt(d, r.offset, t);
    }
    EntryOfSegment(d, gs, s, c);
  }

  lemma {:induction false} EntryOfSegment(d: Data, gs: seq<Segment>, s: nat, c: nat)
    requires s < |gs| && forall t :: 0 <= t < |gs| && t != s ==> !(gs[t].start <= c <= gs[t].end)
    ensures Entry(d, gs, c) == Written(d, gs[s], c)
  {
    hide Glyph;
    var last := |gs| - 1;
    if s < last {
      EntryOfSegment(d, gs[..last], s, c);
    } else {
      NothingWritten(d, gs[..last], c);
    }
  }

  // ----- the records --------------------------------------------------------------------------------

  /** The header has this many records; record `i` names a platform, an encoding and the offset of a
      subtable, which begins with its format. */
  ghost predicate SpellsRecord(d: Data, o: nat, i: nat, platform: nat, encoding: nat, offset: nat, format: nat)
    requires platform < 0x1_0000 && encoding < 0x1_0000 && offset < 0x1_0000_0000 && format < 0x1_0000
  {
    && Stands(d, o + 4 + 8 * i, Big16(platform) + Big16(encoding) + Big32(offset))
    && Stands(d, o + offset, Big16(format))
  }

  lemma {:induction false} RecordIsSpelled(
      d: Data, o: nat, i: nat, platform: nat, encoding: nat, offset: nat, format: nat)
    requires platform < 0x1_0000 && encoding < 0x1_0000 && offset < 0x1_0000_0000 && format < 0x1_0000
    requires SpellsRecord(d, o, i, platform, encoding, offset, format)
    ensures RecordReadable(d, o, i) && RecordAt(d, o, i) == Record(platform, format, o + offset)
  {
    hide U16, U32, Big16, Big32, Stands;
    var at := o + 4 + 8 * i;
    Lengths16(platform, encoding);
    StandsSplit(d, at, Big16(platform) + Big16(encoding), Big32(offset));
    StandsSplit(d, at, Big16(platform), Big16(encoding));
    Reads16(d, at, platform);
    Reads32(d, at + 4, offset);
    Reads16(d, o + offset, format);
  }

  lemma {:induction false} Lengths16(a: nat, b: nat)
    requires a < 0x1_0000 && b < 0x1_0000
    ensures |Big16(a)| == 2 && |Big16(a) + Big16(b)| == 4
  {
  }

  /** The number of records stands after two bytes. */
  lemma {:induction false} CountIsSpelled(d: Data, o: nat, n: nat)
    requires n < 0x1_0000
    ensures Stands(d, o + 2, Big16(n)) <==> Readable(d, o + 2, 2) && RecordCount(d, o) == n
  {
    Reads16(d, o + 2, n);
    hide U16, Big16, Stands;
  }

  predicate Unicode(r: Record) { r.platform == 0 || r.platform == 3 }

  /** A record of a format that is read, on a Unicode platform. */
  predicate Usable(r: Record, format: nat) { Unicode(r) && r.format == format }

  /** The best record is the first of format 12, or else the first of format 4. */
  lemma {:induction false} BestRecord(d: Data, o: nat, n: nat, i: nat)
    ensures IsBest(d, o, n, i) <==>
      i < n
      && (|| (Usable(RecordAt(d, o, i), 12) && forall j: nat :: j < i ==> !Usable(RecordAt(d, o, j), 12))
          || (Usable(RecordAt(d, o, i), 4) && (forall j: nat :: j < n ==> !Usable(RecordAt(d, o, j), 12))
              && forall j: nat :: j < i ==> !Usable(RecordAt(d, o, j), 4)))
    ensures NoneRanked(d, o, n) <==>
      forall j: nat :: j < n ==> !Usable(RecordAt(d, o, j), 12) && !Usable(RecordAt(d, o, j), 4)
  {
    hide RecordAt;
    forall j: nat ensures RankAt(d, o, j)
      == if Usable(RecordAt(d, o, j), 12) then 3 else if Usable(RecordAt(d, o, j), 4) then 2 else 0
    {
    }
    hide RankAt, Usable;
  }

  // ----- what is read at all --------------------------------------------------------------------------

  /** The header is readable exactly when the number of records, every record and the format of every
      subtable lie within the data. */
  lemma {:induction false} HeaderIsThere(d: Data, o: nat)
    ensures RecordsReadable(d, o) <==>
      o + 4 <= |d|
      && forall i: nat :: i < RecordCount(d, o) ==>
        o + 12 + 8 * i <= |d| && RecordAt(d, o, i).offset + 2 <= |d|
  {
    hide RecordAt, RecordCount;
    if RecordsReadable(d, o) {
      forall i: nat | i < RecordCount(d, o)
        ensures o + 12 + 8 * i <= |d| && RecordAt(d, o, i).offset + 2 <= |d|
      {
        assert RecordReadable(d, o, i);
      }
    }
  }

  /** The glyphs of a segment are readable exactly when the word of its last code lies within the data,
      the very last code 65535 not counted; without a range offset nothing is read. */
  lemma {:induction false} GlyphsAreThere(d: Data, g: Segment)
    requires g.end <= 65535
    ensures var last := if g.end == 65535 then 65534 else g.end;
      GlyphsReadable(d, g)
      <==> g.rangeOffset == 0 || last < g.start || g.at + g.rangeOffset + 2 * (last - g.start) + 2 <= |d|
  {
    var last := if g.end == 65535 then 65534 else g.end;
    if GlyphsReadable(d, g) && g.rangeOffset != 0 && g.start <= last {
      assert Readable(d, GlyphAddress(g, last), 2);
    }
  }

  /** The last code of all is never written. */
  lemma {:induction false} LastCodeIsLeftOut(d: Data, g: Segment)
    ensures Written(d, g, 65535) == 0
  {
  }
}
