/** What a width is. */
module CardMeasure {

  // The two measures of drawn text in plain numbers: a character draws its advance, a text what its
  // characters draw, and a character outside the tables as much as the widest inside them. And the
  // renderer's table is no wider than it must be.

  import opened CardWidth

  /** One character, in pixels: a face's thousandths of an em, and the renderer's ems, at 11.5 pixels. */
  lemma {:induction false} OneCharacter(p: Pen, f: Face, c: char)
    ensures ' ' <= c <= '~' ==> TextWidth(p, [c]) == p.bound[c as int - 32] * 11.5
    ensures !(' ' <= c <= '~') ==> TextWidth(p, [c]) == p.off * 11.5
    ensures ' ' <= c <= '~' ==> FaceWidth(f, [c]) == f[c as int - 32] as real / 1000.0 * 11.5
    ensures !(' ' <= c <= '~') ==> FaceWidth(f, [c]) == MaxOf(f) as real / 1000.0 * 11.5
  {
    assert [c][..0] == "" && [c][0] == c;
    assert Total(p, [c]) == Total(p, "") + Advance(p, c) == Advance(p, c);
    assert FaceTotal(f, [c]) == FaceTotal(f, "") + FaceAdvance(f, c) == FaceAdvance(f, c);
  }

  /** Texts are drawn side by side. */
  lemma {:induction false} SideBySide(p: Pen, f: Face, a: string, b: string)
    ensures TextWidth(p, a + b) == TextWidth(p, a) + TextWidth(p, b)
    ensures FaceTotal(f, a + b) == FaceTotal(f, a) + FaceTotal(f, b)
    ensures TextWidth(p, "") == 0.0 && FaceTotal(f, "") == 0
  {
    TotalsAdd(p, f, a, b);
    assert Total(p, "") == 0.0 && FaceTotal(f, "") == 0;
    hide Total, FaceTotal;
    Distributes(Total(p, a), Total(p, b));
  }

  lemma {:induction false} Distributes(x: real, y: real)
    ensures (x + y) * SIZE == x * SIZE + y * SIZE
  {
  }

  lemma {:induction false} TotalsAdd(p: Pen, f: Face, a: string, b: string)
    ensures Total(p, a + b) == Total(p, a) + Total(p, b)
    ensures FaceTotal(f, a + b) == FaceTotal(f, a) + FaceTotal(f, b)
    decreases |b|
  {
    hide Advance, FaceAdvance;
    if b == "" {
      assert a + b == a;
    } else {
      var last := |b| - 1;
      TotalsAdd(p, f, a, b[..last]);
      assert (a + b)[..|a + b| - 1] == a + b[..last] && (a + b)[|a + b| - 1] == b[last];
    }
  }

  // ----- the renderer's table ---------------------------------------------------------------------

  /** Each entry is the advance of some face, in ems, and of no face less than its own. */
  lemma {:induction false} EntriesAreAdvances(faces: Faces, i: nat)
    requires i < 95
    ensures exists k :: 0 <= k < |faces| && Widest(faces)[i] == faces[k][i] as real / 1000.0
    ensures forall k :: 0 <= k < |faces| ==> faces[k][i] as real / 1000.0 <= Widest(faces)[i]
  {
    LargestIsOne(faces, i);
    forall k | 0 <= k < |faces| ensures faces[k][i] <= Largest(faces, i) {
      LargestIsLargest(faces, i, k);
    }
  }

  lemma {:induction false} LargestIsOne(faces: seq<Face>, i: nat)
    requires i < 95 && faces != []
    ensures exists k :: 0 <= k < |faces| && Largest(faces, i) == faces[k][i]
  {
    var last := |faces| - 1;
    if last > 0 && Largest(faces[..last], i) >= faces[last][i] {
      LargestIsOne(faces[..last], i);
      var k :| 0 <= k < last && Largest(faces[..last], i) == faces[..last][k][i];
      assert Largest(faces, i) == faces[k][i];
    } else {
      assert Largest(faces, i) == faces[last][i];
    }
  }

  /** What a character outside the tables is taken to draw is the widest entry of the four tables, and
      what a face is taken to draw for it is its widest advance. */
  lemma {:induction false} OffIsWidest(m: Metrics, f: Face)
    ensures forall t, i :: 0 <= t < 4 && 0 <= i < 95 ==> RendererTables(m)[t].bound[i] <= OffTable(m)
    ensures OffTable(m) == 0.0
      || exists t, i :: 0 <= t < 4 && 0 <= i < 95 && RendererTables(m)[t].bound[i] == OffTable(m)
    ensures (forall i :: 0 <= i < 95 ==> f[i] <= MaxOf(f)) && exists i :: 0 <= i < 95 && f[i] == MaxOf(f)
  {
    MaxOfIsReached(f);
    forall i | 0 <= i < 95 ensures f[i] <= MaxOf(f) {
      MaxOfBounds(f, i);
    }
    var ts := RendererTables(m);
    forall t | 0 <= t < 4 ensures MaxOfReals(ts[t].bound) <= OffTable(m) {
    }
    forall t, i | 0 <= t < 4 && 0 <= i < 95 ensures ts[t].bound[i] <= OffTable(m) {
      MaxOfRealsBounds(ts[t].bound, i);
    }
    assert OffTable(m) == MaxOfReals(ts[0].bound) || OffTable(m) == MaxOfReals(ts[1].bound)
        || OffTable(m) == MaxOfReals(ts[2].bound) || OffTable(m) == MaxOfReals(ts[3].bound);
    var t :| 0 <= t < 4 && MaxOfReals(ts[t].bound) == OffTable(m);
    MaxOfRealsIsOne(ts[t].bound);
  }

  lemma {:induction false} MaxOfBounds(s: seq<nat>, i: nat)
    requires i < |s|
    ensures s[i] <= MaxOf(s)
  {
    if i < |s| - 1 {
      MaxOfBounds(s[..|s| - 1], i);
    }
  }

  lemma {:induction false} MaxOfRealsIsOne(s: seq<real>)
    ensures MaxOfReals(s) == 0.0 || exists i :: 0 <= i < |s| && MaxOfReals(s) == s[i]
  {
    if s != [] {
      var last := |s| - 1;
      MaxOfRealsIsOne(s[..last]);
      if MaxOfReals(s) != s[last] && MaxOfReals(s) != 0.0 {
        var i :| 0 <= i < last && MaxOfReals(s[..last]) == s[..last][i];
        assert MaxOfReals(s) == s[i];
      }
    }
  }

  // ----- the tolerance ------------------------------------------------------------------------------

  /** An entry is reported exactly when it is more than a billionth of an em below the face's advance. */
  lemma {:induction false} Tolerated(bound: seq<real>, f: Face, i: nat)
    requires |bound| == 95 && i < 95
    ensures Underestimated(bound, f, i) <==> bound[i] + 0.000000001 < f[i] as real / 1000.0
  {
  }
}
