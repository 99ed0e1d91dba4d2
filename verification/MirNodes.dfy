/**
 Labelled lines. The writer prints a tree as one line `label head` for its root, then the
 lines of its children in order. Whatever tree it is, if its children's labels and number
 are settled by the line above them, the lines can be read back; and if every line is a single
 line, so can the text, whatever follows it.
 */
module MirNodes {
  import opened Quoting

  datatype Node = Node(tag: string, head: string, kids: seq<Node>)

  function Leaf(tag: string, head: string): Node { Node(tag, head, []) }

  function Lines(n: Node): (ls: seq<string>)
    decreases n, 1
  {
    [n.tag + " " + n.head] + LinesOf(n.kids)
  }

  function LinesOf(ns: seq<Node>): seq<string>
    decreases ns, 0
  {
    if ns == [] then [] else Lines(ns[0]) + LinesOf(ns[1..])
  }

  /** What `push_line` leaves in the output: every line and its newline. */
  function Text(ls: seq<string>): string {
    if ls == [] then "" else ls[0] + [NEWLINE] + Text(ls[1..])
  }

  function NodeText(n: Node): string { Text(Lines(n)) }

  function KidsText(ns: seq<Node>): string { Text(LinesOf(ns)) }

  // ----- text and lines ----------------------------------------------------------------------

  lemma {:induction false} TextAppend(a: seq<string>, b: seq<string>)
    ensures Text(a + b) == Text(a) + Text(b)
  {
    if a == [] {
      assert a + b == b;
    } else {
      TextAppend(a[1..], b);
      assert (a + b)[0] == a[0] && (a + b)[1..] == a[1..] + b;
      assert a[0] + [NEWLINE] + (Text(a[1..]) + Text(b)) == a[0] + [NEWLINE] + Text(a[1..]) + Text(b);
    }
  }

  lemma {:induction false} LinesOfAppend(a: seq<Node>, b: seq<Node>)
    ensures LinesOf(a + b) == LinesOf(a) + LinesOf(b)
  {
    if a == [] {
      assert a + b == b;
    } else {
      LinesOfAppend(a[1..], b);
      assert (a + b)[0] == a[0] && (a + b)[1..] == a[1..] + b;
      assert Lines(a[0]) + (LinesOf(a[1..]) + LinesOf(b)) == Lines(a[0]) + LinesOf(a[1..]) + LinesOf(b);
    }
  }

  lemma {:induction false} NodeTextParts(n: Node)
    ensures NodeText(n) == n.tag + " " + n.head + [NEWLINE] + KidsText(n.kids)
  {
    assert Lines(n)[0] == n.tag + " " + n.head && Lines(n)[1..] == LinesOf(n.kids);
  }

  lemma {:induction false} KidsTextSnoc(ns: seq<Node>, n: Node)
    ensures KidsText(ns + [n]) == KidsText(ns) + NodeText(n)
  {
    LinesOfAppend(ns, [n]);
    assert LinesOf([n]) == Lines(n) + LinesOf([]);
    assert Lines(n) + [] == Lines(n);
    TextAppend(LinesOf(ns), Lines(n));
  }

  lemma {:induction false} KidsTextAppend(ns: seq<Node>, ms: seq<Node>)
    ensures KidsText(ns + ms) == KidsText(ns) + KidsText(ms)
  {
    LinesOfAppend(ns, ms);
    TextAppend(LinesOf(ns), LinesOf(ms));
  }

  lemma {:induction false} LineEnd(x: string, s: string, y: string, t: string)
    requires x + [NEWLINE] + s == y + [NEWLINE] + t && OneLine(x) && OneLine(y)
    ensures x == y && s == t
  {
    var l, r := x + [NEWLINE] + s, y + [NEWLINE] + t;
    CharAt(x, [NEWLINE] + s, |x|);
    CharAt(x, [NEWLINE] + s, |y|);
    CharAt(y, [NEWLINE] + t, |x|);
    CharAt(y, [NEWLINE] + t, |y|);
    assert l == x + ([NEWLINE] + s) && r == y + ([NEWLINE] + t);
    assert l[..|x|] == x && r[..|y|] == y && l[|x| + 1..] == s && r[|y| + 1..] == t;
  }

  // ----- every line of a clean tree is one line -------------------------------------------------

  /** The line of a field projection begins so, and no other line does. */
  predicate FieldHead(s: string) {
    |s| > 5 && s[0] == 'F' && s[1] == 'i' && s[2] == 'e' && s[3] == 'l' && s[4] == 'd' && s[5] == ' '
  }

  /** Single lines throughout, and no field projection. */
  ghost predicate Clean(n: Node) {
    OneLine(n.tag) && OneLine(n.head) && !FieldHead(n.head) && forall i :: 0 <= i < |n.kids| ==> Clean(n.kids[i])
  }

  ghost predicate AllClean(ns: seq<Node>) { forall i :: 0 <= i < |ns| ==> Clean(ns[i]) }

  lemma {:induction false} CleanTwo(a: Node, b: Node)
    requires Clean(a) && Clean(b)
    ensures AllClean([a, b])
  {
  }

  lemma {:induction false} CleanThree(a: Node, b: Node, c: Node)
    requires Clean(a) && Clean(b) && Clean(c)
    ensures AllClean([a, b, c])
  {
  }

  lemma {:induction false} CleanFive(a: Node, b: Node, c: Node, d: Node, e: Node)
    requires Clean(a) && Clean(b) && Clean(c) && Clean(d) && Clean(e)
    ensures AllClean([a, b, c, d, e])
  {
  }

  // ----- reading back -----------------------------------------------------------------------------

  /** Two trees whose labels agree, and whose children agree wherever the line above is the same. */
  ghost predicate Aligned(n: Node, m: Node) {
    n.tag == m.tag && (n.head == m.head ==> AllAligned(n.kids, m.kids))
  }

  ghost predicate AllAligned(ns: seq<Node>, ms: seq<Node>) {
    |ns| == |ms| && forall i :: 0 <= i < |ns| ==> Aligned(ns[i], ms[i])
  }
}
