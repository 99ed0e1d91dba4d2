/** Lines that the name of a field projection, printed as it is, could imitate. */
module MirImitation {

  // A field projection prints its name as it is, so a name with a newline in it can look like the
  // line that follows: the type line of the projection. Two printed trees are told apart by their
  // text all the same when no name of either holds the type line of its own projection; and one tree
  // is told apart from any other when no name of it, and nothing after it, holds the type line of any
  // of its projections.

  import opened Quoting
  import opened MirNodes

  // ----- labels -----------------------------------------------------------------------------------

  predicate StartsWith(s: string, p: string) { |p| <= |s| && s[..|p|] == p }

  /** Neither label begins the other. */
  predicate Apart(a: string, b: string) { !StartsWith(a, b) && !StartsWith(b, a) }

  /** The label ends as `.type` does. */
  predicate EndsInPe(w: string) { |w| >= 2 && w[|w| - 2] == 'p' && w[|w| - 1] == 'e' }

  /** A label that no type line under `at` has. */
  predicate Harmless(at: string, w: string) { Apart(at, w) || (NoSpace(w) && !EndsInPe(w)) }

  /** A label that lines under it make harmless, whatever they are called. */
  predicate Roomy(at: string, w: string) { Apart(at, w) || NoSpace(w) }

  /** Every label in the tree is harmless. */
  ghost predicate Off(at: string, n: Node) {
    Harmless(at, n.tag) && forall i :: 0 <= i < |n.kids| ==> Off(at, n.kids[i])
  }

  ghost predicate AllOff(at: string, ns: seq<Node>) { forall i :: 0 <= i < |ns| ==> Off(at, ns[i]) }

  lemma {:induction false} PrefixesCompare(s: string, p: string, q: string)
    requires StartsWith(s, p) && StartsWith(s, q)
    ensures StartsWith(p, q) || StartsWith(q, p)
  {
    if |p| <= |q| {
      assert q[..|p|] == s[..|q|][..|p|] == s[..|p|];
    } else {
      assert p[..|q|] == s[..|p|][..|q|] == s[..|q|];
    }
  }

  lemma {:induction false} PrefixOfPrefix(s: string, p: string, q: string)
    requires StartsWith(s, p) && StartsWith(p, q)
    ensures StartsWith(s, q)
  {
    assert s[..|q|] == s[..|p|][..|q|];
  }

  lemma {:induction false} PrefixOfSum(p: string, s: string)
    ensures StartsWith(p + s, p)
  {
  }

  lemma {:induction false} ApartLonger(at: string, w: string, s: string)
    requires Apart(at, w)
    ensures Apart(at, w + s)
  {
    PrefixOfSum(w, s);
    if StartsWith(w + s, at) {
      PrefixesCompare(w + s, w, at);
    }
    if StartsWith(at, w + s) {
      PrefixOfPrefix(at, w + s, w);
    }
  }

  /** A line of a harmless label is not labelled like a type line under `at`. */
  lemma {:induction false} HarmlessLine(at: string, tag: string, head: string, w: string)
    requires Harmless(at, tag) && StartsWith(w, at) && NoSpace(w) && EndsInPe(w)
    ensures !StartsWith(tag + " " + head, w + " ")
  {
    var line := tag + " " + head;
    if StartsWith(line, w + " ") {
      if Apart(at, tag) {
        PrefixOfSum(tag, " " + head);
        assert line == tag + (" " + head);
        PrefixOfSum(w, " ");
        PrefixOfPrefix(line, w + " ", w);
        PrefixOfPrefix(line, w, at);
        PrefixesCompare(line, at, tag);
      } else {
        SameFirstWord(tag, head, w, line[|w| + 1..]);
      }
    }
  }

  lemma {:induction false} SameFirstWord(v: string, p: string, w: string, q: string)
    requires StartsWith(v + " " + p, w + " ") && q == (v + " " + p)[|w| + 1..]
    requires NoSpace(v) && NoSpace(w)
    ensures v == w
  {
    var line := v + " " + p;
    assert line == line[..|w| + 1] + line[|w| + 1..] == w + " " + q;
    assert line == v + (" " + p) && w + " " + q == w + (" " + q);
    FirstWord(v, " " + p, w, " " + q);
  }


  /** What is harmless under a label is harmless under a longer one. */
  lemma {:induction false} OffLonger(at: string, s: string, n: Node)
    requires Off(at, n)
    ensures Off(at + s, n)
  {
    if Apart(at, n.tag) {
      ApartLonger(n.tag, at, s);
    }
    forall i | 0 <= i < |n.kids| ensures Off(at + s, n.kids[i]) {
      OffLonger(at, s, n.kids[i]);
    }
  }

  // ----- field lines --------------------------------------------------------------------------------

  /** How the type line of the projection labelled `w` begins, after the end of the line before. */
  function TypeMark(w: string): string { [NEWLINE] + (w + ".type" + " ") }

  predicate At(p: string, s: string, i: nat) { i + |p| <= |s| && s[i..i + |p|] == p }

  /** The text has no line, after its first, that looks like the type line of the projection. */
  ghost predicate Silent(w: string, s: string) { forall i: nat :: !At(TypeMark(w), s, i) }

  /** A field projection prints its name and then the lines of its type. */
  ghost predicate FieldShape(n: Node) { |n.kids| == 1 && n.kids[0].tag == n.tag + ".type" && Clean(n.kids[0]) }

  /** Every line but that of a field projection is a single line. */
  ghost predicate Shaped(n: Node) {
    && OneLine(n.tag)
    && (if FieldHead(n.head) then FieldShape(n) else OneLine(n.head))
    && forall i :: 0 <= i < |n.kids| ==> Shaped(n.kids[i])
  }

  ghost predicate AllShaped(ns: seq<Node>) { forall i :: 0 <= i < |ns| ==> Shaped(ns[i]) }

  /** The tree has a field projection labelled `w`. */
  ghost predicate HasField(n: Node, w: string) {
    (FieldHead(n.head) && n.tag == w) || exists i :: 0 <= i < |n.kids| && HasField(n.kids[i], w)
  }

  ghost predicate AnyField(ns: seq<Node>, w: string) { exists i :: 0 <= i < |ns| && HasField(ns[i], w) }

  /** No line of the tree holds the type line of the projection labelled `w`. */
  ghost predicate Quiet(w: string, n: Node) {
    Silent(w, n.head) && forall i :: 0 <= i < |n.kids| ==> Quiet(w, n.kids[i])
  }

  ghost predicate AllQuiet(w: string, ns: seq<Node>) { forall i :: 0 <= i < |ns| ==> Quiet(w, ns[i]) }

  /** No field projection of the tree holds its own type line in its name. */
  ghost predicate Own(n: Node) {
    (FieldHead(n.head) ==> Silent(n.tag, n.head)) && forall i :: 0 <= i < |n.kids| ==> Own(n.kids[i])
  }

  ghost predicate AllOwn(ns: seq<Node>) { forall i :: 0 <= i < |ns| ==> Own(ns[i]) }

  /** No line of the tree, nor any line of what follows it, looks like the type line of one of the
      tree's field projections. */
  ghost predicate Settled(n: Node, v: string) {
    forall w :: HasField(n, w) ==> Quiet(w, n) && Silent(w, [NEWLINE] + v)
  }

  ghost predicate AllSettled(ns: seq<Node>, v: string) {
    forall w :: AnyField(ns, w) ==> AllQuiet(w, ns) && Silent(w, [NEWLINE] + v)
  }

  /** No label occurs twice where it matters: the label of a field projection's type is that of no
      later line. */
  ghost predicate Separate(n: Node) {
    && (FieldHead(n.head) ==> NoSpace(n.tag) && |n.kids| == 1 && AllOff(n.tag, n.kids[0].kids))
    && AllSeparate(n.kids)
  }

  ghost predicate AllSeparate(ns: seq<Node>) {
    && (forall i :: 0 <= i < |ns| ==> Separate(ns[i]))
    && (forall i, j, w :: 0 <= i < j < |ns| && HasField(ns[i], w) ==> Off(w, ns[j]))
  }

  // ----- silence ------------------------------------------------------------------------------------

  lemma {:induction false} MarkAt(w: string, k: nat)
    requires k < |TypeMark(w)|
    ensures TypeMark(w)[0] == NEWLINE
    ensures OneLine(w) && k > 0 ==> TypeMark(w)[k] != NEWLINE
  {
  }

  lemma {:induction false} AtElement(p: string, s: string, i: nat, k: nat)
    requires At(p, s, i) && k < |p|
    ensures s[i + k] == p[k]
  {
    assert s[i..i + |p|][k] == p[k];
  }

  lemma {:induction false} OneLineIsSilent(w: string, s: string)
    requires OneLine(s)
    ensures Silent(w, s)
  {
    forall i: nat ensures !At(TypeMark(w), s, i) {
      if At(TypeMark(w), s, i) {
        AtElement(TypeMark(w), s, i, 0);
      }
    }
  }

  /** What stands in the second part of a text stands in the text. */
  lemma {:induction false} AtShift(p: string, a: string, b: string, i: nat)
    ensures At(p, a + b, |a| + i) <==> At(p, b, i)
  {
    if i + |p| <= |b| {
      assert (a + b)[|a| + i..|a| + i + |p|] == b[i..i + |p|];
    }
  }

  lemma {:induction false} AtPrefix(p: string, a: string, b: string, i: nat)
    requires i + |p| <= |a|
    ensures At(p, a + b, i) <==> At(p, a, i)
  {
    assert (a + b)[i..i + |p|] == a[i..i + |p|];
  }

  /** A mark that begins in a line, but not with it, ends in it. */
  lemma {:induction false} MarkEndsInLine(w: string, f: string, y: string, i: nat)
    requires OneLine(w) && i < |f| && At(TypeMark(w), f + ([NEWLINE] + y), i)
    ensures At(TypeMark(w), f, i)
  {
    var p, s := TypeMark(w), f + ([NEWLINE] + y);
    if i + |p| > |f| {
      var k := |f| - i;
      MarkAt(w, k);
      CharAt(f, [NEWLINE] + y, |f|);
      AtElement(p, s, i, k);
    } else {
      AtPrefix(p, f, [NEWLINE] + y, i);
    }
  }

  /** A silent line and silence after it. */
  lemma {:induction false} SilentThen(w: string, f: string, y: string)
    requires OneLine(w) && Silent(w, f) && Silent(w, [NEWLINE] + y)
    ensures Silent(w, f + ([NEWLINE] + y))
  {
    forall i: nat ensures !At(TypeMark(w), f + ([NEWLINE] + y), i) {
      if i < |f| {
        if At(TypeMark(w), f + ([NEWLINE] + y), i) {
          MarkEndsInLine(w, f, y, i);
        }
      } else {
        AtShift(TypeMark(w), f, [NEWLINE] + y, i - |f|);
      }
    }
  }

  lemma {:induction false} SilentInside(w: string, t: string, h: string)
    requires OneLine(t) && Silent(w, h)
    ensures Silent(w, t + h)
  {
    forall i: nat ensures !At(TypeMark(w), t + h, i) {
      if i < |t| {
        if At(TypeMark(w), t + h, i) {
          AtElement(TypeMark(w), t + h, i, 0);
        }
      } else {
        AtShift(TypeMark(w), t, h, i - |t|);
      }
    }
  }

  /** A line with a harmless label is silent, begun anew. */
  lemma {:induction false} HarmlessIsSilent(w: string, tag: string, head: string)
    requires NoSpace(w) && OneLine(w) && Harmless(w, tag) && OneLine(tag) && Silent(w, head)
    ensures Silent(w, [NEWLINE] + (tag + " " + head))
  {
    var line := tag + " " + head;
    SilentInside(w, tag + " ", head);
    forall i: nat ensures !At(TypeMark(w), [NEWLINE] + line, i) {
      if i > 0 {
        AtShift(TypeMark(w), [NEWLINE], line, i - 1);
      } else if At(TypeMark(w), [NEWLINE] + line, 0) {
        var p := w + ".type" + " ";
        assert ([NEWLINE] + line)[1..|p| + 1] == ([NEWLINE] + line)[0..|p| + 1][1..] == p;
        assert StartsWith(line, p);
        HarmlessLine(w, tag, head, w + ".type");
      }
    }
  }

  lemma {:induction false} SilentLine(w: string, tag: string, head: string, y: string)
    requires NoSpace(w) && OneLine(w) && Harmless(w, tag) && OneLine(tag) && Silent(w, head)
    requires Silent(w, [NEWLINE] + y)
    ensures Silent(w, [NEWLINE] + (tag + " " + head + [NEWLINE] + y))
  {
    HarmlessIsSilent(w, tag, head);
    SilentThen(w, [NEWLINE] + (tag + " " + head), y);
    assert [NEWLINE] + (tag + " " + head) + ([NEWLINE] + y) == [NEWLINE] + (tag + " " + head + [NEWLINE] + y);
  }

  // ----- trees without field projections ------------------------------------------------------------

  lemma {:induction false} CleanIsShaped(n: Node)
    requires Clean(n)
    ensures Shaped(n) && Own(n) && Separate(n)
    ensures forall w :: Quiet(w, n) && !HasField(n, w)
  {
    forall i | 0 <= i < |n.kids| ensures Shaped(n.kids[i]) && Own(n.kids[i]) && Separate(n.kids[i]) {
      CleanIsShaped(n.kids[i]);
    }
    forall w ensures Quiet(w, n) && !HasField(n, w) {
      OneLineIsSilent(w, n.head);
      forall i | 0 <= i < |n.kids| ensures Quiet(w, n.kids[i]) && !HasField(n.kids[i], w) {
        CleanIsShaped(n.kids[i]);
      }
    }
    forall i, w | 0 <= i < |n.kids| ensures !HasField(n.kids[i], w) {
      CleanIsShaped(n.kids[i]);
    }
  }

  lemma {:induction false} AllCleanIsShaped(ns: seq<Node>)
    requires AllClean(ns)
    ensures AllShaped(ns) && AllOwn(ns) && AllSeparate(ns)
    ensures forall w :: AllQuiet(w, ns) && !AnyField(ns, w)
  {
    var n := Node("", "", ns);
    hide Silent;
    CleanIsShaped(n);
    forall w ensures AllQuiet(w, ns) && !AnyField(ns, w) {
      assert Quiet(w, n) && !HasField(n, w);
    }
  }

  // ----- the text of silent trees ---------------------------------------------------------------------

  lemma {:induction false} NodeSplit(n: Node, v: string)
    ensures NodeText(n) + v == (n.tag + " " + n.head) + [NEWLINE] + (KidsText(n.kids) + v)
  {
    NodeTextParts(n);
    hide NodeText, KidsText;
    var line := n.tag + " " + n.head;
    assert line + [NEWLINE] + KidsText(n.kids) + v == line + [NEWLINE] + (KidsText(n.kids) + v);
  }

  lemma {:induction false} OneNode(n: Node)
    ensures KidsText([n]) == NodeText(n)
  {
    assert LinesOf([n]) == Lines(n) + LinesOf([]) == Lines(n);
  }

  lemma {:induction false} KidsSplit(ns: seq<Node>, v: string)
    ensures ns != [] ==> KidsText(ns) + v == NodeText(ns[0]) + (KidsText(ns[1..]) + v)
    ensures ns == [] ==> KidsText(ns) + v == v
  {
    if ns != [] {
      var n, rest := ns[0], ns[1..];
      assert ns == [n] + rest;
      KidsTextAppend([n], rest);
      OneNode(n);
      hide NodeText, KidsText;
      assert NodeText(n) + KidsText(rest) + v == NodeText(n) + (KidsText(rest) + v);
    }
  }

  /** Trees with harmless labels and quiet lines, before a silent text. */
  lemma {:induction false} SilentNode(w: string, n: Node, x: string)
    requires NoSpace(w) && OneLine(w) && Off(w, n) && Quiet(w, n) && Shaped(n) && Silent(w, [NEWLINE] + x)
    ensures Silent(w, [NEWLINE] + (NodeText(n) + x))
    decreases n, 1
  {
    hide Silent, NodeText, KidsText, Harmless;
    SilentKids(w, n.kids, x);
    NodeSplit(n, x);
    SilentLine(w, n.tag, n.head, KidsText(n.kids) + x);
  }

  lemma {:induction false} SilentKids(w: string, ns: seq<Node>, x: string)
    requires NoSpace(w) && OneLine(w) && AllOff(w, ns) && AllQuiet(w, ns) && AllShaped(ns) && Silent(w, [NEWLINE] + x)
    ensures Silent(w, [NEWLINE] + (KidsText(ns) + x))
    decreases ns, 0
  {
    hide Silent, NodeText, KidsText, Off, Quiet, Shaped;
    KidsSplit(ns, x);
    if ns != [] {
      SilentKids(w, ns[1..], x);
      SilentNode(w, ns[0], KidsText(ns[1..]) + x);
    }
  }

  // ----- reading back -----------------------------------------------------------------------------------

  /** One of two field lines is longer: it holds the type mark, or the text after the other does. */
  lemma {:induction false} LongerHead(w: string, f: string, a: string, g: string, b: string)
    requires OneLine(w) && f + ([NEWLINE] + a) == g + ([NEWLINE] + b) && |f| < |g|
    requires StartsWith(a, w + ".type" + " ") && StartsWith(b, w + ".type" + " ")
    ensures !Silent(w, g) && !Silent(w, a)
  {
    var p, t := TypeMark(w), f + ([NEWLINE] + a);
    var q := w + ".type" + " ";
    assert ([NEWLINE] + a)[0..|p|] == [NEWLINE] + a[..|q|] && At(p, [NEWLINE] + a, 0);
    assert ([NEWLINE] + b)[0..|p|] == [NEWLINE] + b[..|q|] && At(p, [NEWLINE] + b, 0);
    AtShift(p, f, [NEWLINE] + a, 0);
    AtShift(p, g, [NEWLINE] + b, 0);
    MarkEndsInLine(w, g, b, |f|);
    AtShift(p, f, [NEWLINE] + a, |g| - |f|);
    AtShift(p, [NEWLINE], a, |g| - |f| - 1);
  }

  lemma {:induction false} FieldHeadPrefix(f: string, a: string, g: string, b: string)
    requires f + ([NEWLINE] + a) == g + ([NEWLINE] + b) && FieldHead(f)
    ensures FieldHead(g)
  {
    forall k: nat | k <= 5 ensures k < |g| ==> g[k] == f[k] {
      CharAt(f, [NEWLINE] + a, k);
      CharAt(g, [NEWLINE] + b, k);
    }
    if |g| <= 5 {
      CharAt(f, [NEWLINE] + a, |g|);
      CharAt(g, [NEWLINE] + b, |g|);
    }
  }

  lemma {:induction false} HeadsFollow(n: Node, v: string, m: Node, u: string)
    requires n.tag == m.tag && NodeText(n) + v == NodeText(m) + u
    ensures n.head + ([NEWLINE] + (KidsText(n.kids) + v)) == m.head + ([NEWLINE] + (KidsText(m.kids) + u))
  {
    NodeSplit(n, v);
    NodeSplit(m, u);
    hide NodeText, KidsText;
    var a, b := KidsText(n.kids) + v, KidsText(m.kids) + u;
    assert (n.tag + " " + n.head) + [NEWLINE] + a == n.tag + " " + (n.head + ([NEWLINE] + a));
    assert (m.tag + " " + m.head) + [NEWLINE] + b == n.tag + " " + (m.head + ([NEWLINE] + b));
    Cancel(n.tag + " ", n.head + ([NEWLINE] + a), m.head + ([NEWLINE] + b));
  }

  lemma {:induction false} SameCut(f: string, a: string, g: string, b: string)
    requires f + ([NEWLINE] + a) == g + ([NEWLINE] + b) && |f| == |g|
    ensures f == g && a == b
  {
    var t := f + ([NEWLINE] + a);
    assert t[..|f|] == f && t[..|f|] == g && t[|f| + 1..] == a && t[|f| + 1..] == b;
  }

  /** The lines after a field projection's begin with the line of its type. */
  lemma {:induction false} FieldKids(n: Node, v: string)
    requires FieldHead(n.head) && Shaped(n)
    ensures StartsWith(KidsText(n.kids) + v, n.tag + ".type" + " ")
    ensures KidsText(n.kids) + v
         == (n.kids[0].tag + " " + n.kids[0].head) + ([NEWLINE] + (KidsText(n.kids[0].kids) + v))
  {
    var k := n.kids[0];
    assert n.kids == [k];
    OneNode(k);
    NodeSplit(k, v);
    hide NodeText, KidsText;
    var line, rest := k.tag + " " + k.head, KidsText(k.kids) + v;
    assert line + [NEWLINE] + rest == line + ([NEWLINE] + rest);
    assert line + ([NEWLINE] + rest) == (k.tag + " ") + (k.head + ([NEWLINE] + rest));
    PrefixOfSum(k.tag + " ", k.head + ([NEWLINE] + rest));
  }

  /** Two field projections with a quiet line each, or a quiet one before a text that is silent of it. */
  lemma {:induction false} SameField(n: Node, v: string, m: Node, u: string)
    requires n.tag == m.tag && FieldHead(n.head) && FieldHead(m.head) && Shaped(n) && Shaped(m)
    requires Silent(n.tag, n.head) && (Silent(m.tag, m.head) || Silent(n.tag, KidsText(n.kids) + v))
    requires n.head + ([NEWLINE] + (KidsText(n.kids) + v)) == m.head + ([NEWLINE] + (KidsText(m.kids) + u))
    ensures n.head == m.head && KidsText(n.kids) + v == KidsText(m.kids) + u
  {
    FieldKids(n, v);
    FieldKids(m, u);
    var w := n.tag;
    assert OneLine(w);
    var a, b := KidsText(n.kids) + v, KidsText(m.kids) + u;
    hide *;
    if |n.head| < |m.head| {
      LongerHead(w, n.head, a, m.head, b);
    } else if |m.head| < |n.head| {
      LongerHead(w, m.head, b, n.head, a);
    } else {
      SameCut(n.head, a, m.head, b);
    }
  }

  lemma {:induction false} SameLine(n: Node, v: string, m: Node, u: string)
    requires OneLine(n.head) && OneLine(m.head)
    requires n.head + ([NEWLINE] + (KidsText(n.kids) + v)) == m.head + ([NEWLINE] + (KidsText(m.kids) + u))
    ensures n.head == m.head && KidsText(n.kids) + v == KidsText(m.kids) + u
  {
    hide KidsText;
    var a, b := KidsText(n.kids) + v, KidsText(m.kids) + u;
    assert n.head + ([NEWLINE] + a) == n.head + [NEWLINE] + a && m.head + ([NEWLINE] + b) == m.head + [NEWLINE] + b;
    LineEnd(n.head, a, m.head, b);
  }

  /** What follows a settled field line is silent of it. */
  lemma {:induction false} AfterField(n: Node, v: string)
    requires FieldHead(n.head) && Shaped(n) && Separate(n) && Settled(n, v)
    ensures Silent(n.tag, n.head) && Silent(n.tag, KidsText(n.kids) + v)
  {
    var w, k := n.tag, n.kids[0];
    assert HasField(n, w) && Quiet(w, n) && Quiet(w, k) && Shaped(k);
    assert OneLine(k.tag + " " + k.head);
    FieldKids(n, v);
    hide Silent, KidsText, NodeText;
    SilentKids(w, k.kids, v);
    OneLineIsSilent(w, k.tag + " " + k.head);
    SilentThen(w, k.tag + " " + k.head, KidsText(k.kids) + v);
  }

  /** The first lines of two trees of which one is settled, or whose own fields are quiet. */
  lemma {:induction false} HeadDetermines(n: Node, v: string, m: Node, u: string)
    requires n.tag == m.tag && Shaped(n) && Shaped(m) && NodeText(n) + v == NodeText(m) + u
    requires (Separate(n) && Settled(n, v)) || (Own(n) && Own(m))
    ensures n.head == m.head && KidsText(n.kids) + v == KidsText(m.kids) + u
  {
    HeadsFollow(n, v, m, u);
    var a, b := KidsText(n.kids) + v, KidsText(m.kids) + u;
    if FieldHead(n.head) || FieldHead(m.head) {
      if FieldHead(n.head) {
        FieldHeadPrefix(n.head, a, m.head, b);
      } else {
        FieldHeadPrefix(m.head, b, n.head, a);
      }
      if Separate(n) && Settled(n, v) {
        AfterField(n, v);
      }
      hide KidsText, NodeText, Silent, Settled, FieldHead, Separate;
      SameField(n, v, m, u);
    } else {
      SameLine(n, v, m, u);
    }
  }

  /** Two trees none of whose names holds the type line of its own projection: each is read back from
      its text, whatever follows. */
  lemma {:induction false} TwoSided(n: Node, v: string, m: Node, u: string)
    requires Aligned(n, m) && Shaped(n) && Shaped(m) && Own(n) && Own(m)
    requires NodeText(n) + v == NodeText(m) + u
    ensures n == m && v == u
    decreases n, 1
  {
    hide NodeText, KidsText, FieldHead, FieldShape, Silent, Settled, Separate;
    HeadDetermines(n, v, m, u);
    KidsTwoSided(n.kids, v, m.kids, u);
  }

  lemma {:induction false} KidsTwoSided(ns: seq<Node>, v: string, ms: seq<Node>, u: string)
    requires AllAligned(ns, ms) && AllShaped(ns) && AllShaped(ms) && AllOwn(ns) && AllOwn(ms)
    requires KidsText(ns) + v == KidsText(ms) + u
    ensures ns == ms && v == u
    decreases ns, 0
  {
    hide NodeText, KidsText, Aligned, Shaped, Own;
    KidsSplit(ns, v);
    KidsSplit(ms, u);
    if ns != [] {
      TwoSided(ns[0], KidsText(ns[1..]) + v, ms[0], KidsText(ms[1..]) + u);
      KidsTwoSided(ns[1..], v, ms[1..], u);
      assert ns == [ns[0]] + ns[1..] && ms == [ms[0]] + ms[1..];
    }
  }

  /** A settled tree is read back from its text, whatever the names in the other. */
  lemma {:induction false} OneSided(n: Node, v: string, m: Node, u: string)
    requires Aligned(n, m) && Shaped(n) && Shaped(m) && Separate(n) && Settled(n, v)
    requires NodeText(n) + v == NodeText(m) + u
    ensures n == m && v == u
    decreases n, 1
  {
    hide NodeText, KidsText, FieldHead, FieldShape, Silent;
    HeadDetermines(n, v, m, u);
    KidsSettled(n, v);
    KidsOneSided(n.kids, v, m.kids, u);
  }

  lemma {:induction false} KidsSettled(n: Node, v: string)
    requires Settled(n, v)
    ensures AllSettled(n.kids, v)
  {
    hide Silent;
    forall w | AnyField(n.kids, w) ensures AllQuiet(w, n.kids) && Silent(w, [NEWLINE] + v) {
      var i :| 0 <= i < |n.kids| && HasField(n.kids[i], w);
      assert HasField(n, w);
    }
  }

  lemma {:induction false} KidsOneSided(ns: seq<Node>, v: string, ms: seq<Node>, u: string)
    requires AllAligned(ns, ms) && AllShaped(ns) && AllShaped(ms) && AllSeparate(ns) && AllSettled(ns, v)
    requires KidsText(ns) + v == KidsText(ms) + u
    ensures ns == ms && v == u
    decreases ns, 0
  {
    KidsSplit(ns, v);
    KidsSplit(ms, u);
    if ns != [] {
      FirstSettled(ns, v);
      RestSettled(ns, v);
      hide NodeText, KidsText, Aligned, Shaped, AllSeparate, Settled, AllSettled;
      OneSided(ns[0], KidsText(ns[1..]) + v, ms[0], KidsText(ms[1..]) + u);
      KidsOneSided(ns[1..], v, ms[1..], u);
      assert ns == [ns[0]] + ns[1..] && ms == [ms[0]] + ms[1..];
    }
  }

  lemma {:induction false} FieldIsOneLine(n: Node, w: string)
    requires Shaped(n) && HasField(n, w)
    ensures OneLine(w)
  {
    if !(FieldHead(n.head) && n.tag == w) {
      var i :| 0 <= i < |n.kids| && HasField(n.kids[i], w);
      FieldIsOneLine(n.kids[i], w);
    }
  }

  /** The first of several trees is settled before the text of the others. */
  lemma {:induction false} FirstSettled(ns: seq<Node>, v: string)
    requires ns != [] && AllShaped(ns) && AllSeparate(ns) && AllSettled(ns, v)
    ensures Separate(ns[0]) && Settled(ns[0], KidsText(ns[1..]) + v)
  {
    hide Silent, KidsText, Shaped, Quiet, Off, HasField;
    forall w | HasField(ns[0], w) ensures Quiet(w, ns[0]) && Silent(w, [NEWLINE] + (KidsText(ns[1..]) + v)) {
      assert AnyField(ns, w);
      FieldIsOneLine(ns[0], w);
      NoSpaceInField(ns[0], w);
      SilentKids(w, ns[1..], v);
    }
  }

  lemma {:induction false} NoSpaceInField(n: Node, w: string)
    requires Separate(n) && HasField(n, w)
    ensures NoSpace(w)
  {
    if !(FieldHead(n.head) && n.tag == w) {
      var i :| 0 <= i < |n.kids| && HasField(n.kids[i], w);
      NoSpaceInField(n.kids[i], w);
    }
  }

  lemma {:induction false} RestSettled(ns: seq<Node>, v: string)
    requires ns != [] && AllSeparate(ns) && AllSettled(ns, v)
    ensures AllSeparate(ns[1..]) && AllSettled(ns[1..], v)
  {
    hide Silent, Quiet, Off, HasField, Separate, NoSpace;
    var rest := ns[1..];
    forall i, j, w | 0 <= i < j < |rest| && HasField(rest[i], w) ensures Off(w, rest[j]) {
      assert rest[i] == ns[i + 1] && rest[j] == ns[j + 1];
    }
    forall w | AnyField(rest, w) ensures AllQuiet(w, rest) && Silent(w, [NEWLINE] + v) {
      var i :| 0 <= i < |rest| && HasField(rest[i], w);
      assert HasField(ns[i + 1], w) && AnyField(ns, w);
    }
  }

  /** Both together: two printed trees before any two texts. */
  lemma {:induction false} TextDecodes(n: Node, x: string, m: Node, y: string)
    requires Aligned(n, m) && Aligned(m, n) && Shaped(n) && Shaped(m)
    requires (Own(n) && Own(m)) || (Separate(n) && Settled(n, x)) || (Separate(m) && Settled(m, y))
    requires NodeText(n) + x == NodeText(m) + y
    ensures n == m && x == y
  {
    hide *;
    if Own(n) && Own(m) {
      TwoSided(n, x, m, y);
    } else if Separate(n) && Settled(n, x) {
      OneSided(n, x, m, y);
    } else {
      OneSided(m, y, n, x);
    }
  }

  /** Single lines throughout. */
  ghost predicate SingleLines(n: Node) { OneLine(n.head) && forall i :: 0 <= i < |n.kids| ==> SingleLines(n.kids[i]) }

  /** A tree of single lines holds no type line out of place. */
  lemma {:induction false} SingleLinesAreQuiet(n: Node)
    requires SingleLines(n)
    ensures Own(n) && forall w :: Quiet(w, n)
  {
    forall i | 0 <= i < |n.kids| ensures Own(n.kids[i]) && forall w :: Quiet(w, n.kids[i]) {
      SingleLinesAreQuiet(n.kids[i]);
    }
    forall w ensures Silent(w, n.head) {
      OneLineIsSilent(w, n.head);
    }
    hide Silent;
  }

  /** So a tree of single lines is settled wherever what follows it holds no such line. */
  lemma {:induction false} SingleLinesSettle(n: Node, x: string)
    requires SingleLines(n)
    ensures Settled(n, x) <==> forall w :: HasField(n, w) ==> Silent(w, [NEWLINE] + x)
  {
    SingleLinesAreQuiet(n);
    hide Silent;
  }
}
