/**
 The blocks of a function in the canonical text: for each its number and label, its statements,
 and its terminator. The text of a function's body determines the body, up to the components
 that are never written.
 */
module MirBlocks {
  import opened Options
  import opened Decimal
  import opened Quoting
  import opened MirTree
  import opened MirNodes
  import opened MirHeads
  import opened MirPrint
  import opened MirBody
  import opened MirWriter

  // ----- nodes ----------------------------------------------------------------------------------

  function OptionalQuoted(o: Option<string>): string { if o.Some? then Quoted(o.value) else "null" }

  function BlockHead(id: nat, name: Option<string>): string {
    "id=" + (Dec(id) + (" label=" + OptionalQuoted(name)))
  }

  function StmtNodes(at: string, ss: seq<Stmt>): (ns: seq<Node>)
    ensures |ns| == |ss|
  {
    seq(|ss|, i requires 0 <= i < |ss| => StmtNode(Indexed(at, i), ss[i]))
  }

  function StmtList(at: string, ss: seq<Stmt>): Node { Node(at + ".stmts", Dec(|ss|), StmtNodes(at + ".stmt", ss)) }

  function EndNode(at: string, t: Option<Terminator>): Node {
    if t.Some? then TerminatorNode(at, t.value) else Leaf(at, "null")
  }

  function BlockNode(at: string, b: Block): Node {
    Node(at, BlockHead(b.id, b.name), [StmtList(at, b.stmts), EndNode(at + ".terminator", b.terminator)])
  }

  function BlockNodes(at: string, bs: seq<Block>): (ns: seq<Node>)
    ensures |ns| == |bs|
  {
    seq(|bs|, i requires 0 <= i < |bs| => BlockNode(Indexed(at, i), bs[i]))
  }

  /** A declaration has no blocks. */
  function BodyNode(at: string, body: Option<seq<Block>>): Node {
    if body.Some? then Node(at + ".blocks", Dec(|body.value|), BlockNodes(at + ".block", body.value))
    else Leaf(at + ".blocks", "null")
  }

  // ----- what is erased ---------------------------------------------------------------------------

  function EraseStmts(ss: seq<Stmt>): (r: seq<Stmt>)
    ensures |r| == |ss|
  {
    seq(|ss|, i requires 0 <= i < |ss| => EraseStmt(ss[i]))
  }

  function EraseBlock(b: Block): Block { b.(stmts := EraseStmts(b.stmts)) }

  function EraseBlocks(bs: seq<Block>): (r: seq<Block>)
    ensures |r| == |bs|
  {
    seq(|bs|, i requires 0 <= i < |bs| => EraseBlock(bs[i]))
  }

  function EraseBody(body: Option<seq<Block>>): Option<seq<Block>> {
    if body.Some? then Some(EraseBlocks(body.value)) else None
  }

  // ----- single lines -------------------------------------------------------------------------------

  lemma {:induction false} BlockHeadClean(id: nat, name: Option<string>)
    ensures OneLine(BlockHead(id, name)) && !FieldHead(BlockHead(id, name))
  {
    if name.Some? {
      QuotedLeaf("", name.value, name.value);
    }
  }

  // ----- what the nodes determine -----------------------------------------------------------------------

  lemma {:induction false} OptionalQuotedDetermines(a: Option<string>, b: Option<string>)
    requires OptionalQuoted(a) == OptionalQuoted(b)
    ensures a == b
  {
    if a.Some? {
      QuotedIsNotNull(a.value);
    }
    if b.Some? {
      QuotedIsNotNull(b.value);
    }
    if a.Some? && b.Some? {
      QuotedInjective(a.value, b.value);
    }
  }

  lemma {:induction false} QuotedIsNotNull(s: string)
    ensures Quoted(s) != "null"
  {
    assert Quoted(s)[0] == '"';
  }

  lemma {:induction false} BlockHeadDetermines(i: nat, a: Option<string>, j: nat, b: Option<string>)
    requires BlockHead(i, a) == BlockHead(j, b)
    ensures i == j && a == b
  {
    var x, y := " label=" + OptionalQuoted(a), " label=" + OptionalQuoted(b);
    Cancel("id=", Dec(i) + x, Dec(j) + y);
    NumberThen(i, x, j, y);
    Cancel(" label=", OptionalQuoted(a), OptionalQuoted(b));
    OptionalQuotedDetermines(a, b);
  }

  lemma {:induction false} StmtListDetermined(at: string, ss: seq<Stmt>, ts: seq<Stmt>)
    ensures Aligned(StmtList(at, ss), StmtList(at, ts))
    ensures StmtList(at, ss) == StmtList(at, ts) <==> EraseStmts(ss) == EraseStmts(ts)
  {
    hide StmtNode, EraseStmt, Aligned;
    DecInjective(|ss|, |ts|);
    var ns, ms := StmtNodes(at + ".stmt", ss), StmtNodes(at + ".stmt", ts);
    if |ss| == |ts| {
      forall i | 0 <= i < |ss|
        ensures Aligned(ns[i], ms[i]) && (ns[i] == ms[i] <==> EraseStmt(ss[i]) == EraseStmt(ts[i]))
      {
        StmtDetermined(Indexed(at + ".stmt", i), ss[i], ts[i]);
      }
      SameElements(ss, ts, ns, ms);
    }
    AlignedIs(StmtList(at, ss), StmtList(at, ts));
  }

  lemma {:induction false} SameElements(ss: seq<Stmt>, ts: seq<Stmt>, ns: seq<Node>, ms: seq<Node>)
    requires |ss| == |ts| == |ns| == |ms|
    requires forall i :: 0 <= i < |ss| ==> (ns[i] == ms[i] <==> EraseStmt(ss[i]) == EraseStmt(ts[i]))
    ensures ns == ms <==> EraseStmts(ss) == EraseStmts(ts)
  {
    hide EraseStmt;
    if EraseStmts(ss) == EraseStmts(ts) {
      forall i | 0 <= i < |ss| ensures ns[i] == ms[i] {
        assert EraseStmts(ss)[i] == EraseStmts(ts)[i];
      }
    }
  }

  lemma {:induction false} AlignedIs(n: Node, m: Node)
    ensures Aligned(n, m) <==> n.tag == m.tag && (n.head == m.head ==> AllAligned(n.kids, m.kids))
  {
  }

  lemma {:induction false} EndDetermined(at: string, t: Option<Terminator>, u: Option<Terminator>)
    ensures Aligned(EndNode(at, t), EndNode(at, u))
    ensures EndNode(at, t) == EndNode(at, u) ==> t == u
  {
    hide TerminatorKids;
    if t.Some? {
      NotNull(t.value);
    }
    if u.Some? {
      NotNull(u.value);
    }
    if t.Some? && u.Some? {
      TerminatorDetermined(at, t.value, u.value);
    }
  }

  lemma {:induction false} NotNull(t: Terminator)
    ensures TerminatorName(t) != "null"
  {
    assert TerminatorName(t)[0] != 'n';
  }

  lemma {:induction false} BlockDetermined(at: string, b: Block, c: Block)
    ensures Aligned(BlockNode(at, b), BlockNode(at, c))
    ensures BlockNode(at, b) == BlockNode(at, c) <==> EraseBlock(b) == EraseBlock(c)
  {
    hide StmtList, EndNode, BlockHead, Aligned, EraseStmts;
    StmtListDetermined(at, b.stmts, c.stmts);
    EndDetermined(at + ".terminator", b.terminator, c.terminator);
    AlignedIs(BlockNode(at, b), BlockNode(at, c));
    if BlockHead(b.id, b.name) == BlockHead(c.id, c.name) {
      BlockHeadDetermines(b.id, b.name, c.id, c.name);
    }
  }

  lemma {:induction false} BlocksDetermined(at: string, bs: seq<Block>, cs: seq<Block>)
    requires |bs| == |cs|
    ensures AllAligned(BlockNodes(at, bs), BlockNodes(at, cs))
    ensures BlockNodes(at, bs) == BlockNodes(at, cs) <==> EraseBlocks(bs) == EraseBlocks(cs)
  {
    hide BlockNode, EraseBlock, Aligned;
    var ns, ms := BlockNodes(at, bs), BlockNodes(at, cs);
    forall i | 0 <= i < |bs|
      ensures Aligned(ns[i], ms[i]) && (ns[i] == ms[i] <==> EraseBlock(bs[i]) == EraseBlock(cs[i]))
    {
      BlockDetermined(Indexed(at, i), bs[i], cs[i]);
    }
    if EraseBlocks(bs) == EraseBlocks(cs) {
      forall i | 0 <= i < |bs| ensures ns[i] == ms[i] {
        assert EraseBlocks(bs)[i] == EraseBlocks(cs)[i];
      }
    }
  }

  lemma {:induction false} BodyDetermined(at: string, b: Option<seq<Block>>, c: Option<seq<Block>>)
    ensures Aligned(BodyNode(at, b), BodyNode(at, c))
    ensures BodyNode(at, b) == BodyNode(at, c) <==> EraseBody(b) == EraseBody(c)
  {
    hide BlockNodes, EraseBlocks, Aligned;
    AlignedIs(BodyNode(at, b), BodyNode(at, c));
    if b.Some? {
      assert IsDigit(Dec(|b.value|)[0]);
    }
    if c.Some? {
      assert IsDigit(Dec(|c.value|)[0]);
    }
    if b.Some? && c.Some? {
      DecInjective(|b.value|, |c.value|);
      if |b.value| == |c.value| {
        BlocksDetermined(at + ".block", b.value, c.value);
      } else {
        assert |EraseBlocks(b.value)| != |EraseBlocks(c.value)|;
      }
    }
  }

  // ----- the writer -----------------------------------------------------------------------------------

  method WriteStmts(output: Output, at: string, ss: seq<Stmt>)
    modifies output
    ensures output.text == old(output.text) + NodeText(StmtList(at, ss))
  {
    hide NodeText, KidsText, StmtNode;
    ghost var n := StmtList(at, ss);
    LineThenKids(n);
    NoKids();
    output.PushLine(at + ".stmts" + " " + Dec(|ss|));
    ghost var before, ns := output.text, StmtNodes(at + ".stmt", ss);
    for i := 0 to |ss|
      invariant output.text == before + KidsText(ns[..i])
    {
      KidsTextSnoc(ns[..i], ns[i]);
      assert ns[..i + 1] == ns[..i] + [ns[i]];
      MirWriter.Regroup(before, KidsText(ns[..i]), NodeText(ns[i]));
      WriteStmt(output, Indexed(at + ".stmt", i), ss[i]);
    }
    assert ns[..|ss|] == ns;
    MirWriter.Regroup(old(output.text), at + ".stmts" + " " + Dec(|ss|) + [NEWLINE], KidsText(n.kids));
  }

  method WriteEnd(output: Output, at: string, t: Option<Terminator>)
    modifies output
    ensures output.text == old(output.text) + NodeText(EndNode(at, t))
  {
    hide NodeText, TerminatorNode;
    match t
    case Some(terminator) => WriteTerminator(output, at, terminator);
    case None => WriteLine(output, at, "null");
  }

  method WriteBlock(output: Output, at: string, b: Block)
    modifies output
    ensures output.text == old(output.text) + NodeText(BlockNode(at, b))
  {
    hide NodeText, KidsText, StmtList, EndNode, BlockHead;
    ghost var n := BlockNode(at, b);
    LineThenKids(n);
    var head := BlockHead(b.id, b.name);
    output.PushLine(at + " " + head);
    AppendTwo(output.text, StmtList(at, b.stmts), EndNode(at + ".terminator", b.terminator));
    WriteStmts(output, at, b.stmts);
    WriteEnd(output, at + ".terminator", b.terminator);
    MirWriter.Regroup(old(output.text), at + " " + head + [NEWLINE], KidsText(n.kids));
  }

  /** The blocks of a function, as `write_mir_module` writes them. */
  method WriteBody(output: Output, at: string, body: Option<seq<Block>>)
    modifies output
    ensures output.text == old(output.text) + NodeText(BodyNode(at, body))
  {
    hide NodeText, KidsText, BlockNode;
    match body
    case None => WriteLine(output, at + ".blocks", "null");
    case Some(blocks) =>
      ghost var n := BodyNode(at, body);
      LineThenKids(n);
      NoKids();
      output.PushLine(at + ".blocks" + " " + Dec(|blocks|));
      ghost var before, ns := output.text, BlockNodes(at + ".block", blocks);
      for i := 0 to |blocks|
        invariant output.text == before + KidsText(ns[..i])
      {
        KidsTextSnoc(ns[..i], ns[i]);
        assert ns[..i + 1] == ns[..i] + [ns[i]];
        MirWriter.Regroup(before, KidsText(ns[..i]), NodeText(ns[i]));
        WriteBlock(output, Indexed(at + ".block", i), blocks[i]);
      }
      assert ns[..|blocks|] == ns;
      MirWriter.Regroup(old(output.text), at + ".blocks" + " " + Dec(|blocks|) + [NEWLINE], KidsText(n.kids));
  }
}
