/** The control-flow summary of a MIR module. */
module MirLoops {

  // The control-flow summary of a module. The `loops` flag is set from block numbers alone: by an
  // edge that does not go to a larger number. Left false, it promises that no function can revisit
  // a block; set, it promises nothing.

  import opened Options
  import opened MirTree

  /** A declaration has no blocks. */
  datatype Procedure = Procedure(blocks: Option<seq<Block>>)

  function Optional(target: Option<nat>): set<nat> {
    match target
    case Some(id) => {id}
    case None => {}
  }

  function Successors(t: Terminator): set<nat> {
    match t
    case Goto(target) => {target}
    case If(_, yes, no) => {yes, no}
    case Switch(_, targets, default) => (set target | target in targets :: target.block) + {default}
    case Call(_, _, _, next, unwind) => Optional(next) + Optional(unwind)
    case Drop(_, target, unwind) => {target} + Optional(unwind)
    case Assert(_, _, _, target, unwind) => {target} + Optional(unwind)
    case _ => {}
  }

  function BlockSuccessors(b: Block): set<nat> {
    if b.terminator.Some? then Successors(b.terminator.value) else {}
  }

  /** Control can pass from block `a` to block `b`. */
  ghost predicate Edge(blocks: seq<Block>, a: nat, b: nat) {
    exists i :: 0 <= i < |blocks| && blocks[i].id == a && b in BlockSuccessors(blocks[i])
  }

  /** An edge of the terminator goes back, or to the block itself. */
  ghost predicate Descends(t: Terminator, current: nat) {
    exists target :: target in Successors(t) && target <= current
  }

  ghost predicate Ascends(b: Block) {
    forall target :: target in BlockSuccessors(b) ==> b.id < target
  }

  ghost predicate AllAscend(blocks: seq<Block>) {
    forall i :: 0 <= i < |blocks| ==> Ascends(blocks[i])
  }

  /** What the flag records: the block numbers of every function ascend along its edges. */
  ghost predicate Ordered(procedures: seq<Procedure>) {
    forall i :: 0 <= i < |procedures| && procedures[i].blocks.Some? ==> AllAscend(procedures[i].blocks.value)
  }

  /** The other flags, each raised by some kind of terminator. */
  datatype Mark = Branches | Switches | Calls | Unreached

  predicate Marks(t: Terminator, m: Mark) {
    match m
    case Branches => t.If? || t.Assert?
    case Switches => t.Switch?
    case Calls => t.Call?
    case Unreached => t.Unreachable?
  }

  ghost predicate BlockMarks(b: Block, m: Mark) { b.terminator.Some? && Marks(b.terminator.value, m) }

  ghost predicate Marked(blocks: seq<Block>, m: Mark) {
    exists i :: 0 <= i < |blocks| && BlockMarks(blocks[i], m)
  }

  ghost predicate AnyMarked(procedures: seq<Procedure>, m: Mark) {
    exists i :: 0 <= i < |procedures| && procedures[i].blocks.Some? && Marked(procedures[i].blocks.value, m)
  }

  // ----- the collector --------------------------------------------------------------------------

  class ControlFlow {
    var blockCount: nat
    var branching: bool
    var loops: bool
    var switching: bool
    var calls: bool
    var unreachable: bool

    constructor ()
      ensures blockCount == 0
      ensures !branching && !loops && !switching && !calls && !unreachable
    {
      blockCount := 0;
      branching, loops, switching, calls, unreachable := false, false, false, false, false;
    }

    predicate Raised(m: Mark)
      reads this
    {
      match m
      case Branches => branching
      case Switches => switching
      case Calls => calls
      case Unreached => unreachable
    }

    method NoteTarget(current: nat, target: nat)
      modifies this`loops
      ensures loops == (old(loops) || target <= current)
    {
      if target <= current {
        loops := true;
      }
    }

    method NoteOptional(current: nat, target: Option<nat>)
      modifies this`loops
      ensures loops == (old(loops) || (target.Some? && target.value <= current))
    {
      if target.Some? {
        NoteTarget(current, target.value);
      }
    }

    /** The edges of one terminator, unwinding included: the flag is raised by any that does not
        ascend. */
    method CollectLoopEdges(t: Terminator, current: nat)
      modifies this`loops
      ensures loops == (old(loops) || Descends(t, current))
    {
      match t
      case Goto(target) =>
        NoteTarget(current, target);
        assert target in Successors(t);
      case If(_, yes, no) =>
        NoteTarget(current, yes);
        NoteTarget(current, no);
        assert yes in Successors(t) && no in Successors(t);
      case Switch(_, _, _) =>
        CollectSwitch(t, current);
      case Call(_, _, _, next, unwind) =>
        NoteOptional(current, next);
        NoteOptional(current, unwind);
        CallEdges(t, current);
      case Drop(_, target, unwind) =>
        NoteTarget(current, target);
        NoteOptional(current, unwind);
        UnwindEdges(t, current);
      case Assert(_, _, _, target, unwind) =>
        NoteTarget(current, target);
        NoteOptional(current, unwind);
        UnwindEdges(t, current);
      case Return(_) =>
      case Unreachable =>
      case Resume =>
      case Abort =>
    }

    method CollectSwitch(t: Terminator, current: nat)
      requires t.Switch?
      modifies this`loops
      ensures loops == (old(loops) || Descends(t, current))
    {
      for i := 0 to |t.targets|
        invariant loops == (old(loops) || exists j :: 0 <= j < i && t.targets[j].block <= current)
      {
        NoteTarget(current, t.targets[i].block);
      }
      NoteTarget(current, t.default);
      forall j | 0 <= j < |t.targets| ensures t.targets[j].block in Successors(t) {
        assert t.targets[j] in t.targets;
      }
      assert t.default in Successors(t);
    }

    /** The other marks of a terminator. */
    method CollectTerminator(t: Terminator)
      modifies this`branching, this`switching, this`calls, this`unreachable
      ensures forall m :: Raised(m) <==> old(Raised(m)) || Marks(t, m)
    {
      match t
      case If(_, _, _) => branching := true;
      case Switch(_, _, _) => switching := true;
      case Call(_, _, _, _, _) => calls := true;
      case Unreachable => unreachable := true;
      case Assert(_, _, _, _, _) => branching := true;
      case _ =>
    }

    method CollectBlocks(blocks: seq<Block>)
      modifies this
      ensures blockCount == old(blockCount) + |blocks|
      ensures loops == (old(loops) || !AllAscend(blocks))
      ensures forall m :: Raised(m) <==> old(Raised(m)) || Marked(blocks, m)
    {
      blockCount := blockCount + |blocks|;
      for i := 0 to |blocks|
        invariant blockCount == old(blockCount) + |blocks|
        invariant loops == (old(loops) || !AllAscend(blocks[..i]))
        invariant forall m :: Raised(m) <==> old(Raised(m)) || Marked(blocks[..i], m)
      {
        var b := blocks[i];
        AscendSnoc(blocks[..i], b);
        BackEdges(b);
        assert blocks[..i + 1] == blocks[..i] + [b];
        if b.terminator.Some? {
          CollectLoopEdges(b.terminator.value, b.id);
          CollectTerminator(b.terminator.value);
        }
      }
      assert blocks[..|blocks|] == blocks;
    }

    /** Over a whole module the flag ends false exactly when every function's edges ascend. */
    method Collect(procedures: seq<Procedure>)
      modifies this
      ensures blockCount == old(blockCount) + BlockTotal(procedures)
      ensures loops == (old(loops) || !Ordered(procedures))
      ensures forall m :: Raised(m) <==> old(Raised(m)) || AnyMarked(procedures, m)
    {
      hide Ordered, AnyMarked, Marked, AllAscend;
      NoProcedures();
      for i := 0 to |procedures|
        invariant blockCount == old(blockCount) + BlockTotal(procedures[..i])
        invariant loops == (old(loops) || !Ordered(procedures[..i]))
        invariant forall m :: Raised(m) <==> old(Raised(m)) || AnyMarked(procedures[..i], m)
      {
        OrderedSnoc(procedures[..i], procedures[i]);
        assert procedures[..i + 1] == procedures[..i] + [procedures[i]];
        assert procedures[..i + 1][..i] == procedures[..i];
        match procedures[i].blocks
        case Some(blocks) => CollectBlocks(blocks);
        case None =>
      }
      assert procedures[..|procedures|] == procedures;
    }
  }

  lemma {:induction false} NoProcedures()
    ensures Ordered([]) && BlockTotal([]) == 0 && forall m :: !AnyMarked([], m)
  {
  }

  lemma {:induction false} CallEdges(t: Terminator, current: nat)
    requires t.Call?
    ensures Descends(t, current)
       <==> (t.next.Some? && t.next.value <= current) || (t.unwind.Some? && t.unwind.value <= current)
  {
    forall x ensures x in Successors(t) <==> Some(x) == t.next || Some(x) == t.unwind {}
    if t.next.Some? { assert t.next.value in Successors(t); }
    if t.unwind.Some? { assert t.unwind.value in Successors(t); }
  }

  lemma {:induction false} UnwindEdges(t: Terminator, current: nat)
    requires t.Drop? || t.Assert?
    ensures Descends(t, current) <==> t.target <= current || (t.unwind.Some? && t.unwind.value <= current)
  {
    forall x ensures x in Successors(t) <==> x == t.target || Some(x) == t.unwind {}
    assert t.target in Successors(t);
    if t.unwind.Some? { assert t.unwind.value in Successors(t); }
  }

  function BlockCount(p: Procedure): nat { if p.blocks.Some? then |p.blocks.value| else 0 }

  function BlockTotal(procedures: seq<Procedure>): nat {
    if procedures == [] then 0
    else BlockTotal(procedures[..|procedures| - 1]) + BlockCount(procedures[|procedures| - 1])
  }

  lemma {:induction false} BackEdges(b: Block)
    ensures Ascends(b) <==> !(b.terminator.Some? && Descends(b.terminator.value, b.id))
  {
    if !Ascends(b) {
      var target :| target in BlockSuccessors(b) && target <= b.id;
      assert target in Successors(b.terminator.value);
    }
    if b.terminator.Some? && Descends(b.terminator.value, b.id) {
      var target :| target in Successors(b.terminator.value) && target <= b.id;
      assert target in BlockSuccessors(b);
    }
  }

  lemma {:induction false} AscendSnoc(blocks: seq<Block>, b: Block)
    ensures AllAscend(blocks + [b]) <==> AllAscend(blocks) && Ascends(b)
    ensures forall m :: Marked(blocks + [b], m) <==> Marked(blocks, m) || BlockMarks(b, m)
  {
    forall m ensures Marked(blocks + [b], m) <==> Marked(blocks, m) || BlockMarks(b, m) {
      assert (blocks + [b])[|blocks|] == b;
      if i :| 0 <= i < |blocks| && BlockMarks(blocks[i], m) {
        assert (blocks + [b])[i] == blocks[i];
      }
    }
    if AllAscend(blocks + [b]) {
      assert (blocks + [b])[|blocks|] == b;
      forall i | 0 <= i < |blocks| ensures Ascends(blocks[i]) {
        assert (blocks + [b])[i] == blocks[i];
      }
    }
  }

  lemma {:induction false} OrderedSnoc(procedures: seq<Procedure>, p: Procedure)
    ensures Ordered(procedures + [p]) <==> Ordered(procedures) && (p.blocks.Some? ==> AllAscend(p.blocks.value))
    ensures forall m ::
      (AnyMarked(procedures + [p], m) <==>
       AnyMarked(procedures, m) || (p.blocks.Some? && Marked(p.blocks.value, m)))
  {
    forall m ensures
      (AnyMarked(procedures + [p], m) <==>
       AnyMarked(procedures, m) || (p.blocks.Some? && Marked(p.blocks.value, m)))
    {
      assert (procedures + [p])[|procedures|] == p;
      if i :| 0 <= i < |procedures| && procedures[i].blocks.Some? && Marked(procedures[i].blocks.value, m) {
        assert (procedures + [p])[i] == procedures[i];
      }
    }
    if Ordered(procedures + [p]) {
      assert (procedures + [p])[|procedures|] == p;
      forall i | 0 <= i < |procedures| && procedures[i].blocks.Some? ensures AllAscend(procedures[i].blocks.value) {
        assert (procedures + [p])[i] == procedures[i];
      }
    }
  }

  // ----- what the edges stand for ---------------------------------------------------------------------

  /** What can happen at the end of a block: it goes on, a condition comes out, a switch meets case `i`
      or none of its cases, or what was begun there unwinds. */
  datatype Outcome = GoesOn | ComesOut(truth: bool) | Meets(i: nat) | MeetsNone | Unwinds

  /** The block that control passes to; none where the outcome is not the terminator's, or control
      leaves the function. An assertion goes on when the condition is what it expects. */
  function Jump(t: Terminator, o: Outcome): Option<nat> {
    match o
    case GoesOn =>
      if t.Goto? || t.Drop? then Some(t.target)
      else if t.Call? then t.next
      else None
    case ComesOut(truth) =>
      if t.If? then Some(if truth then t.thenBlock else t.elseBlock)
      else if t.Assert? then (if truth == t.expected then Some(t.target) else t.unwind)
      else None
    case Meets(i) => if t.Switch? && i < |t.targets| then Some(t.targets[i].block) else None
    case MeetsNone => if t.Switch? then Some(t.default) else None
    case Unwinds => if t.Call? || t.Drop? then t.unwind else None
  }

  /** The targets noted are those that control can pass to. */
  lemma {:induction false} SuccessorsAreJumps(t: Terminator, x: nat)
    ensures x in Successors(t) <==> exists o :: Jump(t, o) == Some(x)
  {
    if x in Successors(t) {
      var o := OutcomeFor(t, x);
    }
    if o :| Jump(t, o) == Some(x) {
      if o.Meets? {
        assert t.targets[o.i] in t.targets;
      }
    }
  }

  lemma {:induction false} OutcomeFor(t: Terminator, x: nat) returns (o: Outcome)
    requires x in Successors(t)
    ensures Jump(t, o) == Some(x)
  {
    match t
    case Goto(_) => o := GoesOn;
    case If(_, yes, _) => o := ComesOut(x == yes);
    case Switch(_, targets, default) =>
      if x == default {
        o := MeetsNone;
      } else {
        var i :| 0 <= i < |targets| && targets[i].block == x;
        o := Meets(i);
      }
    case Call(_, _, _, next, _) => o := if next == Some(x) then GoesOn else Unwinds;
    case Drop(_, target, _) => o := if target == x then GoesOn else Unwinds;
    case Assert(_, expected, _, target, _) => o := ComesOut(if target == x then expected else !expected);
  }

  /** The marks, told by what the terminator decides on: a condition, or the case of a switch. */
  lemma {:induction false} MarksAreDecisions(t: Terminator)
    ensures Marks(t, Branches) <==> Jump(t, ComesOut(true)).Some? || Jump(t, ComesOut(false)).Some?
    ensures Marks(t, Switches) <==> Jump(t, MeetsNone).Some?
    ensures Marks(t, Calls) <==> t.Call?
    ensures Marks(t, Unreached) <==> t == Unreachable
  {
    if t.Assert? {
      assert Jump(t, ComesOut(t.expected)) == Some(t.target);
    }
  }

  /** A run through the blocks of a function, with what happened at the end of each. */
  ghost predicate Runs(blocks: seq<Block>, w: seq<nat>, os: seq<Outcome>) {
    && |w| == |os| + 1
    && forall k :: 0 <= k < |os| ==> Passes(blocks, w[k], os[k], w[k + 1])
  }

  /** Some block numbered `a` passes control to `b` on this outcome. */
  ghost predicate Passes(blocks: seq<Block>, a: nat, o: Outcome, b: nat) {
    exists i :: 0 <= i < |blocks| && blocks[i].id == a
      && blocks[i].terminator.Some? && Jump(blocks[i].terminator.value, o) == Some(b)
  }

  lemma {:induction false} EdgesPass(blocks: seq<Block>, a: nat, b: nat)
    ensures Edge(blocks, a, b) <==> exists o :: Passes(blocks, a, o, b)
  {
    if Edge(blocks, a, b) {
      var i :| 0 <= i < |blocks| && blocks[i].id == a && b in BlockSuccessors(blocks[i]);
      var o := OutcomeFor(blocks[i].terminator.value, b);
      assert Passes(blocks, a, o, b);
    }
    if o :| Passes(blocks, a, o, b) {
      var i :| 0 <= i < |blocks| && blocks[i].id == a
        && blocks[i].terminator.Some? && Jump(blocks[i].terminator.value, o) == Some(b);
      SuccessorsAreJumps(blocks[i].terminator.value, b);
      assert b in BlockSuccessors(blocks[i]);
    }
  }

  // ----- what a false flag promises -----------------------------------------------------------------

  /** A walk through the blocks of one function: each block passes control to the next. */
  ghost predicate Walk(blocks: seq<Block>, w: seq<nat>) {
    |w| > 0 && forall i :: 0 <= i < |w| - 1 ==> Edge(blocks, w[i], w[i + 1])
  }

  /** Walks are what runs leave behind: every run is a walk, and every walk some run. */
  lemma {:induction false} WalksAreRuns(blocks: seq<Block>, w: seq<nat>)
    ensures Walk(blocks, w) <==> exists os :: Runs(blocks, w, os)
  {
    if Walk(blocks, w) {
      var os := RunOf(blocks, w);
    }
    if os :| Runs(blocks, w, os) {
      forall k | 0 <= k < |w| - 1 ensures Edge(blocks, w[k], w[k + 1]) {
        assert Passes(blocks, w[k], os[k], w[k + 1]);
        EdgesPass(blocks, w[k], w[k + 1]);
      }
    }
  }

  lemma {:induction false} RunOf(blocks: seq<Block>, w: seq<nat>) returns (os: seq<Outcome>)
    requires Walk(blocks, w)
    ensures Runs(blocks, w, os)
  {
    hide Edge, Passes;
    os := [];
    if |w| > 1 {
      var last := |w| - 1;
      WalkStep(blocks, w, last - 1);
      EdgesPass(blocks, w[last - 1], w[last]);
      var o :| Passes(blocks, w[last - 1], o, w[last]);
      forall k | 0 <= k < last - 1 ensures Edge(blocks, w[..last][k], w[..last][k + 1]) {
        WalkStep(blocks, w, k);
      }
      var before := RunOf(blocks, w[..last]);
      os := before + [o];
    }
  }

  function Ids(blocks: seq<Block>): set<nat> { set b | b in blocks :: b.id }

  ghost predicate TargetsExist(blocks: seq<Block>) {
    forall i, target :: 0 <= i < |blocks| && target in BlockSuccessors(blocks[i]) ==> target in Ids(blocks)
  }

  lemma {:induction false} WalkAscends(blocks: seq<Block>, w: seq<nat>, i: nat, j: nat)
    requires AllAscend(blocks) && Walk(blocks, w) && i < j < |w|
    ensures w[i] < w[j]
  {
    assert Edge(blocks, w[j - 1], w[j - 1 + 1]);
    if i < j - 1 {
      WalkAscends(blocks, w, i, j - 1);
    }
  }

  lemma {:induction false} WalkStays(blocks: seq<Block>, w: seq<nat>, i: nat)
    requires TargetsExist(blocks) && Walk(blocks, w) && w[0] in Ids(blocks) && i < |w|
    ensures w[i] in Ids(blocks)
  {
    if i > 0 {
      assert Edge(blocks, w[i - 1], w[i - 1 + 1]);
    }
  }

  lemma {:induction false} IdCount(blocks: seq<Block>)
    ensures |Ids(blocks)| <= |blocks|
  {
    if blocks != [] {
      IdCount(blocks[1..]);
      assert blocks == [blocks[0]] + blocks[1..];
      assert Ids(blocks) == {blocks[0].id} + Ids(blocks[1..]);
    } else {
      assert Ids(blocks) == {};
    }
  }

  /** Distinct entries of a finite set are no more than its elements. */
  lemma {:induction false} Pigeonhole(w: seq<nat>, s: set<nat>)
    requires forall i :: 0 <= i < |w| ==> w[i] in s
    requires forall i, j :: 0 <= i < j < |w| ==> w[i] != w[j]
    ensures |w| <= |s|
  {
    if w != [] {
      var last := |w| - 1;
      Pigeonhole(w[..last], s - {w[last]});
    }
  }

  /** If the flag ends false, no function's graph has a cycle, and a walk from one of a function's
      blocks whose targets exist visits no more blocks than the function has. */
  lemma {:induction false} FalseFlagMeansAcyclic(procedures: seq<Procedure>, p: nat, blocks: seq<Block>, w: seq<nat>)
    requires Ordered(procedures) && p < |procedures| && procedures[p].blocks == Some(blocks)
    requires Walk(blocks, w)
    ensures |w| > 1 ==> w[0] != w[|w| - 1]
    ensures forall i, j :: 0 <= i < j < |w| ==> w[i] != w[j]
    ensures TargetsExist(blocks) && w[0] in Ids(blocks) ==> |w| <= |blocks|
  {
    forall i, j | 0 <= i < j < |w| ensures w[i] != w[j] {
      WalkAscends(blocks, w, i, j);
    }
    if TargetsExist(blocks) && w[0] in Ids(blocks) {
      forall i | 0 <= i < |w| ensures w[i] in Ids(blocks) {
        WalkStays(blocks, w, i);
      }
      Pigeonhole(w, Ids(blocks));
      IdCount(blocks);
    }
  }

  /** A cycle anywhere raises the flag. */
  lemma {:induction false} CyclesAreSeen(procedures: seq<Procedure>, p: nat, blocks: seq<Block>, w: seq<nat>)
    requires p < |procedures| && procedures[p].blocks == Some(blocks)
    requires Walk(blocks, w) && |w| > 1 && w[0] == w[|w| - 1]
    ensures !Ordered(procedures)
  {
    if Ordered(procedures) {
      FalseFlagMeansAcyclic(procedures, p, blocks, w);
    }
  }

  /** The bound is met: a chain of blocks in order has a walk through all of them. */
  lemma {:induction false} ChainMeetsTheBound(n: nat)
    requires n > 0
    ensures var blocks := Chain(n); var w := seq(n, i requires 0 <= i < n => i);
      AllAscend(blocks) && TargetsExist(blocks) && Walk(blocks, w) && |w| == |blocks|
  {
    var blocks := Chain(n);
    var w := seq(n, i requires 0 <= i < n => i);
    forall i | 0 <= i < n ensures i in Ids(blocks) {
      assert blocks[i] in blocks;
    }
    forall i | 0 <= i < n - 1 ensures Edge(blocks, w[i], w[i + 1]) {
      assert blocks[i].id == w[i] && w[i + 1] in BlockSuccessors(blocks[i]);
    }
  }

  function Chain(n: nat): (blocks: seq<Block>)
    ensures |blocks| == n
  {
    seq(n, i requires 0 <= i < n => Block(i, None, [], Some(if i + 1 < n then Goto(i + 1) else Abort)))
  }

  /** The flag errs on one side only: here it is raised though no walk repeats a block. */
  lemma {:induction false} RaisedWithoutACycle(w: seq<nat>)
    ensures var blocks := [Block(0, None, [], Some(Return(None))), Block(1, None, [], Some(Goto(0)))];
      !Ordered([Procedure(Some(blocks))])
      && (Walk(blocks, w) ==> |w| <= 2 && (|w| == 2 ==> w[0] != w[1]))
  {
    var blocks := [Block(0, None, [], Some(Return(None))), Block(1, None, [], Some(Goto(0)))];
    assert 0 in BlockSuccessors(blocks[1]) && !Ascends(blocks[1]);
    assert [Procedure(Some(blocks))][0].blocks.value == blocks;
    if Walk(blocks, w) && |w| >= 2 {
      WalkStep(blocks, w, 0);
      if |w| > 2 {
        WalkStep(blocks, w, 1);
      }
    }
  }

  lemma {:induction false} WalkStep(blocks: seq<Block>, w: seq<nat>, i: nat)
    requires Walk(blocks, w) && i < |w| - 1
    ensures Edge(blocks, w[i], w[i + 1])
  {
  }

  // ----- what the flag promises up to the numbers of the blocks -----------------------------------

  /** No walk of at least one step comes back to where it began. */
  ghost predicate Acyclic(blocks: seq<Block>) {
    forall w :: Walk(blocks, w) && |w| > 1 ==> w[0] != w[|w| - 1]
  }

  function Targets(blocks: seq<Block>): set<nat> {
    if blocks == [] then {} else Targets(blocks[1..]) + BlockSuccessors(blocks[0])
  }

  /** The numbers that a function's blocks have or name. */
  function Numbers(blocks: seq<Block>): set<nat> { Ids(blocks) + Targets(blocks) }

  /** A new number for each, from zero and without gaps. */
  ghost predicate Renumbering(blocks: seq<Block>, number: map<nat, nat>) {
    && number.Keys == Numbers(blocks)
    && (forall a, b :: a in number && b in number && number[a] == number[b] ==> a == b)
    && (forall a :: a in number ==> number[a] < |Numbers(blocks)|)
  }

  function New(number: map<nat, nat>, n: nat): nat { if n in number then number[n] else n }

  function NewOptional(number: map<nat, nat>, n: Option<nat>): Option<nat> {
    match n
    case Some(id) => Some(New(number, id))
    case None => None
  }

  function NewTargets(number: map<nat, nat>, targets: seq<Target>): seq<Target> {
    seq(|targets|, i requires 0 <= i < |targets| => Target(targets[i].constant, New(number, targets[i].block)))
  }

  function NewTerminator(number: map<nat, nat>, t: Terminator): Terminator {
    match t
    case Goto(target) => Goto(New(number, target))
    case If(cond, yes, no) => If(cond, New(number, yes), New(number, no))
    case Switch(value, targets, default) => Switch(value, NewTargets(number, targets), New(number, default))
    case Call(func, args, dest, next, unwind) =>
      Call(func, args, dest, NewOptional(number, next), NewOptional(number, unwind))
    case Drop(place, target, unwind) => Drop(place, New(number, target), NewOptional(number, unwind))
    case Assert(cond, expected, msg, target, unwind) =>
      Assert(cond, expected, msg, New(number, target), NewOptional(number, unwind))
    case _ => t
  }

  function NewBlock(number: map<nat, nat>, b: Block): Block {
    b.(id := New(number, b.id),
       terminator := if b.terminator.Some? then Some(NewTerminator(number, b.terminator.value)) else None)
  }

  function Renumbered(blocks: seq<Block>, number: map<nat, nat>): seq<Block> {
    seq(|blocks|, i requires 0 <= i < |blocks| => NewBlock(number, blocks[i]))
  }

  lemma {:induction false} NewSuccessors(number: map<nat, nat>, t: Terminator)
    ensures Successors(NewTerminator(number, t)) == set n | n in Successors(t) :: New(number, n)
  {
    if t.Switch? {
      var after := NewTargets(number, t.targets);
      forall n | n in t.targets ensures New(number, n.block) in Successors(NewTerminator(number, t)) {
        var i :| 0 <= i < |t.targets| && t.targets[i] == n;
        assert after[i] in after;
      }
      forall n | n in after ensures exists m :: m in t.targets && n.block == New(number, m.block) {
        var i :| 0 <= i < |after| && after[i] == n;
        assert t.targets[i] in t.targets;
      }
    }
  }

  lemma {:induction false} NewBlockSuccessors(number: map<nat, nat>, b: Block)
    ensures BlockSuccessors(NewBlock(number, b)) == set n | n in BlockSuccessors(b) :: New(number, n)
  {
    if b.terminator.Some? {
      NewSuccessors(number, b.terminator.value);
    }
  }

  /** What happens at the end of a block leads to the new number of the same block. */
  lemma {:induction false} JumpsAreRenumbered(number: map<nat, nat>, t: Terminator, o: Outcome)
    ensures Jump(NewTerminator(number, t), o) == NewOptional(number, Jump(t, o))
  {
    hide New;
  }

  /** Renumbering keeps the graph: control passes between new numbers exactly as between the old. */
  lemma {:induction false} RenumberingKeepsEdges(blocks: seq<Block>, number: map<nat, nat>, a: nat, b: nat)
    requires Renumbering(blocks, number) && a in number && b in number
    ensures Edge(Renumbered(blocks, number), number[a], number[b]) <==> Edge(blocks, a, b)
  {
    var after := Renumbered(blocks, number);
    forall i | 0 <= i < |blocks|
      ensures after[i].id == number[a] && number[b] in BlockSuccessors(after[i])
         <==> blocks[i].id == a && b in BlockSuccessors(blocks[i])
    {
      NewBlockSuccessors(number, blocks[i]);
      assert blocks[i] in blocks;
      forall n | n in BlockSuccessors(blocks[i]) ensures n in Numbers(blocks) {
        TargetIn(blocks, i, n);
      }
    }
  }

  /** Renumbered blocks ascend exactly when the new numbers ascend along the old edges. */
  lemma {:induction false} AscendRenumbered(blocks: seq<Block>, number: map<nat, nat>)
    ensures AllAscend(Renumbered(blocks, number))
       <==> forall a, b :: Edge(blocks, a, b) ==> New(number, a) < New(number, b)
  {
    var after := Renumbered(blocks, number);
    forall i | 0 <= i < |blocks|
      ensures BlockSuccessors(after[i]) == set n | n in BlockSuccessors(blocks[i]) :: New(number, n)
    {
      NewBlockSuccessors(number, blocks[i]);
    }
    hide BlockSuccessors, New;
    if AllAscend(after) {
      forall a, b | Edge(blocks, a, b) ensures New(number, a) < New(number, b) {
        var i :| 0 <= i < |blocks| && blocks[i].id == a && b in BlockSuccessors(blocks[i]);
        assert Ascends(after[i]) && after[i].id == New(number, a) && New(number, b) in BlockSuccessors(after[i]);
      }
    }
    if forall a, b :: Edge(blocks, a, b) ==> New(number, a) < New(number, b) {
      forall i, target | 0 <= i < |after| && target in BlockSuccessors(after[i]) ensures after[i].id < target {
        var b :| b in BlockSuccessors(blocks[i]) && target == New(number, b);
        assert Edge(blocks, blocks[i].id, b);
      }
    }
  }

  /** New numbers of any kind, even shared ones, that leave the flag false show that there is no cycle. */
  lemma {:induction false} AscendingIsAcyclic(blocks: seq<Block>, number: map<nat, nat>)
    requires AllAscend(Renumbered(blocks, number))
    ensures Acyclic(blocks)
  {
    AscendRenumbered(blocks, number);
    forall w | Walk(blocks, w) && |w| > 1 ensures w[0] != w[|w| - 1] {
      NewAscends(blocks, number, w, |w| - 1);
    }
  }

  lemma {:induction false} NewAscends(blocks: seq<Block>, number: map<nat, nat>, w: seq<nat>, k: nat)
    requires forall a, b :: Edge(blocks, a, b) ==> New(number, a) < New(number, b)
    requires Walk(blocks, w) && 0 < k < |w|
    ensures New(number, w[0]) < New(number, w[k])
  {
    WalkStep(blocks, w, k - 1);
    if k > 1 {
      NewAscends(blocks, number, w, k - 1);
    }
  }

  /** No edge leads from the set to `x`. */
  ghost predicate Entry(blocks: seq<Block>, s: set<nat>, x: nat) {
    forall a :: a in s ==> !Edge(blocks, a, x)
  }

  ghost predicate NoEntry(blocks: seq<Block>, s: set<nat>) { forall x :: x in s ==> !Entry(blocks, s, x) }

  lemma {:induction false} Entered(blocks: seq<Block>, s: set<nat>, x: nat) returns (a: nat)
    requires NoEntry(blocks, s) && x in s
    ensures a in s && Edge(blocks, a, x)
  {
    assert !Entry(blocks, s, x);
    a :| a in s && Edge(blocks, a, x);
  }

  ghost predicate Inside(w: seq<nat>, s: set<nat>) { forall i :: 0 <= i < |w| ==> w[i] in s }

  /** Where each number of a set is entered from the set, walks of any length stay inside it. */
  lemma {:induction false} LongWalk(blocks: seq<Block>, s: set<nat>, n: nat) returns (w: seq<nat>)
    requires s != {} && NoEntry(blocks, s)
    ensures |w| == n + 1 && Walk(blocks, w) && Inside(w, s)
  {
    hide Edge, NoEntry;
    if n == 0 {
      var x :| x in s;
      w := [x];
    } else {
      var rest := LongWalk(blocks, s, n - 1);
      hide Walk;
      assert rest[0] in s;
      var a := Entered(blocks, s, rest[0]);
      WalkCons(blocks, a, rest);
      w := [a] + rest;
    }
  }

  lemma {:induction false} WalkCons(blocks: seq<Block>, a: nat, w: seq<nat>)
    requires Walk(blocks, w) && Edge(blocks, a, w[0])
    ensures Walk(blocks, [a] + w)
  {
    var after := [a] + w;
    forall i | 0 <= i < |after| - 1 ensures Edge(blocks, after[i], after[i + 1]) {
      if i > 0 {
        WalkStep(blocks, w, i - 1);
      }
    }
  }

  /** A walk that repeats a number holds a cycle. */
  lemma {:induction false} NoRepeats(blocks: seq<Block>, w: seq<nat>, i: nat, j: nat)
    requires Acyclic(blocks) && Walk(blocks, w) && i < j < |w|
    ensures w[i] != w[j]
  {
    hide Edge;
    var part := w[i..j + 1];
    forall k | 0 <= k < |part| - 1 ensures Edge(blocks, part[k], part[k + 1]) {
      WalkStep(blocks, w, i + k);
    }
    assert Walk(blocks, part);
  }

  /** Without a cycle some number of the set is not entered from it. */
  lemma {:induction false} HasEntry(blocks: seq<Block>, s: set<nat>)
    requires Acyclic(blocks) && s != {}
    ensures exists x :: x in s && Entry(blocks, s, x)
  {
    if NoEntry(blocks, s) {
      var w := LongWalk(blocks, s, |s|);
      hide Acyclic, Walk, Entry, NoEntry;
      forall i, j | 0 <= i < j < |w| ensures w[i] != w[j] {
        NoRepeats(blocks, w, i, j);
      }
      Pigeonhole(w, s);
    }
  }

  /** Different numbers below the size of the set, ascending along the edges inside it. */
  ghost predicate Sorted(blocks: seq<Block>, s: set<nat>, number: map<nat, nat>) {
    && number.Keys == s
    && (forall a, b :: a in s && b in s && number[a] == number[b] ==> a == b)
    && (forall a :: a in s ==> number[a] < |s|)
    && (forall a, b :: a in s && b in s && Edge(blocks, a, b) ==> number[a] < number[b])
  }

  function PutFirst(s: set<nat>, x: nat, rest: map<nat, nat>): map<nat, nat>
    requires rest.Keys == s - {x}
  {
    map a | a in s :: if a == x then 0 else rest[a] + 1
  }

  lemma {:induction false} SortedPutFirst(blocks: seq<Block>, s: set<nat>, x: nat, rest: map<nat, nat>)
    requires x in s && Entry(blocks, s, x) && Sorted(blocks, s - {x}, rest)
    ensures Sorted(blocks, s, PutFirst(s, x, rest))
  {
    hide Edge;
    var number := PutFirst(s, x, rest);
    assert |s - {x}| == |s| - 1;
    forall a, b | a in s && b in s && Edge(blocks, a, b) ensures number[a] < number[b] {
      assert b != x;
    }
  }

  /** The set has a topological order. */
  lemma {:induction false} Sort(blocks: seq<Block>, s: set<nat>) returns (number: map<nat, nat>)
    requires Acyclic(blocks)
    ensures number.Keys == s && Sorted(blocks, s, number)
  {
    number := map[];
    if s != {} {
      HasEntry(blocks, s);
      hide Acyclic, Sorted, Entry;
      var x :| x in s && Entry(blocks, s, x);
      var rest := Sort(blocks, s - {x});
      SortedPutFirst(blocks, s, x, rest);
      number := PutFirst(s, x, rest);
    }
  }

  lemma {:induction false} TargetIn(blocks: seq<Block>, i: nat, target: nat)
    requires i < |blocks| && target in BlockSuccessors(blocks[i])
    ensures target in Targets(blocks)
  {
    if i > 0 {
      TargetIn(blocks[1..], i - 1, target);
    }
  }

  lemma {:induction false} EdgeNumbers(blocks: seq<Block>, a: nat, b: nat)
    requires Edge(blocks, a, b)
    ensures a in Numbers(blocks) && b in Numbers(blocks)
  {
    var i :| 0 <= i < |blocks| && blocks[i].id == a && b in BlockSuccessors(blocks[i]);
    TargetIn(blocks, i, b);
    assert blocks[i] in blocks;
  }

  /** The exact law: a function has no cycle exactly when its blocks can be renumbered so that the
      flag stays false. */
  lemma {:induction false} AcyclicIffRenumberable(blocks: seq<Block>)
    ensures Acyclic(blocks)
       <==> exists number :: Renumbering(blocks, number) && Ordered([Procedure(Some(Renumbered(blocks, number)))])
  {
    forall number
      ensures Ordered([Procedure(Some(Renumbered(blocks, number)))]) <==> AllAscend(Renumbered(blocks, number))
    {
      assert [Procedure(Some(Renumbered(blocks, number)))][0].blocks == Some(Renumbered(blocks, number));
    }
    hide Renumbered, Ordered, AllAscend, Numbers;
    if Acyclic(blocks) {
      var number := Sort(blocks, Numbers(blocks));
      forall a, b | Edge(blocks, a, b) ensures New(number, a) < New(number, b) {
        EdgeNumbers(blocks, a, b);
      }
      AscendRenumbered(blocks, number);
      assert Renumbering(blocks, number);
    }
    if number :| Renumbering(blocks, number) && Ordered([Procedure(Some(Renumbered(blocks, number)))]) {
      AscendingIsAcyclic(blocks, number);
    }
  }
}
