/**
 The labels of every kind of tree. Under a label apart from a projection's, no line is labelled like
 that projection's type line.
 */
module MirLabels {
  import opened Options
  import opened Decimal
  import opened Quoting
  import opened MirTree
  import opened MirNodes
  import opened MirHeads
  import opened MirPrint
  import opened MirBody
  import opened MirBlocks
  import opened MirImitation

  // ----- the labels of every kind of tree -----------------------------------------------------------------

  /** A longer label is harmless when the longer part is spaceless and ends otherwise. */
  lemma {:induction false} Longer(at: string, w: string, s: string)
    requires Roomy(at, w) && NoSpace(s) && |s| >= 2 && !EndsInPe(s)
    ensures Harmless(at, w + s) && Roomy(at, w + s)
  {
    if Apart(at, w) {
      ApartLonger(at, w, s);
    }
  }

  lemma {:induction false} IndexedRoomy(at: string, w: string, s: string, i: nat)
    requires Roomy(at, w) && NoSpace(s)
    ensures Harmless(at, Indexed(w + s, i)) && Roomy(at, Indexed(w + s, i))
  {
    var t := s + "[" + Dec(i) + "]";
    assert Indexed(w + s, i) == w + t;
    assert NoSpace(t) && t[|t| - 1] == ']';
    Longer(at, w, t);
  }

  lemma {:induction false} TypeOff(at: string, w: string, t: Type)
    requires Harmless(at, w)
    ensures Off(at, TypeNode(w, t))
    decreases t, 2
  {
    hide Apart, NoSpace, EndsInPe;
    TypeKidsOff(at, w, t);
  }

  lemma {:induction false} TypeKidsOff(at: string, w: string, t: Type)
    requires Roomy(at, w)
    ensures AllOff(at, TypeKids(w, t))
    decreases t, 1
  {
    TypeSuffixes();
    hide Apart, NoSpace, EndsInPe, Harmless, Roomy, Off, TypeHead;
    match t
    case Ptr(inner) => Longer(at, w, ".inner"); TypeOff(at, w + ".inner", inner);
    case TOption(inner) => Longer(at, w, ".inner"); TypeOff(at, w + ".inner", inner);
    case TArray(element, _) => Longer(at, w, ".element"); TypeOff(at, w + ".element", element);
    case Slice(element) => Longer(at, w, ".element"); TypeOff(at, w + ".element", element);
    case Vector(element, _) => Longer(at, w, ".element"); TypeOff(at, w + ".element", element);
    case Texture2D(element) => Longer(at, w, ".element"); TypeOff(at, w + ".element", element);
    case SampledImage(element) => Longer(at, w, ".element"); TypeOff(at, w + ".element", element);
    case TVec(element) => Longer(at, w, ".element"); TypeOff(at, w + ".element", element);
    case TMap(key, value) =>
      Longer(at, w, ".key");
      Longer(at, w, ".value");
      TypeOff(at, w + ".key", key);
      TypeOff(at, w + ".value", value);
    case FnPtr(sig) => SigOff(at, sig);
    case TTuple(elements) =>
      forall i | 0 <= i < |elements| ensures Off(at, TypeNode(Indexed(w + ".element", i), elements[i])) {
        IndexedRoomy(at, w, ".element", i);
        TypeOff(at, Indexed(w + ".element", i), elements[i]);
      }
    case _ =>
  }

  lemma {:induction false} TypeSuffixes()
    ensures NoSpace(".inner") && NoSpace(".element") && NoSpace(".key") && NoSpace(".value")
    ensures !EndsInPe(".inner") && !EndsInPe(".element") && !EndsInPe(".key") && !EndsInPe(".value")
  {
  }

  lemma {:induction false} SigLabels(at: string)
    ensures Harmless(at, "sig") && Harmless(at, "sig.params") && Harmless(at, "sig.ret") && NoSpace(".param")
    ensures Roomy(at, "sig")
  {
  }

  lemma {:induction false} SigOff(at: string, sig: FnSig)
    ensures AllOff(at, SigNodes(sig))
    decreases sig, 3
  {
    SigLabels(at);
    hide Apart, NoSpace, EndsInPe, Harmless, Roomy, SigHead, Dec;
    TypeOff(at, "sig.ret", sig.ret);
    var ns := ParamNodes(sig);
    forall i | 0 <= i < |ns| ensures Off(at, ns[i]) {
      IndexedRoomy(at, "sig", ".param", i);
      assert "sig" + ".param" == "sig.param";
      TypeOff(at, Indexed("sig.param", i), sig.params[i]);
    }
  }

  /** Every label that is longer than an apart one is apart. */
  lemma {:induction false} AllApart(at: string, w: string)
    requires Apart(at, w)
    ensures Harmless(at, w) && Roomy(at, w)
    ensures forall s :: Apart(at, w + s)
  {
    forall s ensures Apart(at, w + s) {
      ApartLonger(at, w, s);
    }
  }

  lemma {:induction false} ApartIndexed(at: string, w: string, i: nat)
    requires Apart(at, w)
    ensures Apart(at, Indexed(w, i)) && Harmless(at, Indexed(w, i))
  {
    ApartLonger(at, w, "[");
    ApartLonger(at, w + "[", Dec(i));
    ApartLonger(at, w + "[" + Dec(i), "]");
  }

  lemma {:induction false} LeafOff(at: string, w: string, head: string)
    requires Apart(at, w)
    ensures Off(at, Leaf(w, head))
  {
  }

  lemma {:induction false} TypeApart(at: string, w: string, t: Type)
    requires Apart(at, w)
    ensures Off(at, TypeNode(w, t))
  {
    TypeOff(at, w, t);
  }

  lemma {:induction false} ConstOff(at: string, w: string, c: Const)
    requires Apart(at, w)
    ensures Off(at, ConstNode(w, c))
    decreases c
  {
    hide Apart, Harmless, Roomy, TypeNode, ConstHead;
    AllApart(at, w);
    match c
    case CInt(_, ty) => TypeApart(at, w + ".type", ty);
    case CUint(_, ty) => TypeApart(at, w + ".type", ty);
    case CFloat(_, ty) => TypeApart(at, w + ".type", ty);
    case CNull(ty) => TypeApart(at, w + ".type", ty);
    case CZeroed(ty) => TypeApart(at, w + ".type", ty);
    case CUndef(ty) => TypeApart(at, w + ".type", ty);
    case CStruct(_, fields) =>
      forall i | 0 <= i < |fields| ensures Off(at, ConstNode(Indexed(w + ".field", i), fields[i])) {
        ApartIndexed(at, w + ".field", i);
        ConstOff(at, Indexed(w + ".field", i), fields[i]);
      }
    case _ =>
  }

  lemma {:induction false} ValueOff(at: string, w: string, v: Value)
    requires Apart(at, w)
    ensures Off(at, ValueNode(w, v))
  {
    AllApart(at, w);
    hide Apart, Harmless, Roomy, ConstNode, ValueHead;
    if v.VConst? {
      ConstOff(at, w + ".const", v.constant);
    }
  }

  lemma {:induction false} ValueListOff(at: string, counted: string, each: string, vs: seq<Value>)
    requires Apart(at, counted) && Apart(at, each)
    ensures Off(at, ValueList(counted, each, vs))
  {
    AllApart(at, counted);
    hide Apart, Harmless, Roomy, ValueNode, Dec;
    forall i | 0 <= i < |vs| ensures Off(at, ValueNode(Indexed(each, i), vs[i])) {
      ApartIndexed(at, each, i);
      ValueOff(at, Indexed(each, i), vs[i]);
    }
  }

  lemma {:induction false} ProjectionOff(at: string, w: string, p: Projection)
    requires Apart(at, w)
    ensures Off(at, ProjectionNode(w, p))
  {
    AllApart(at, w);
    hide Apart, Harmless, Roomy, TypeNode, ProjectionHead;
    if p.PField? {
      TypeApart(at, w + ".type", p.ty);
    }
  }

  lemma {:induction false} PlaceOff(at: string, w: string, p: Place)
    requires Apart(at, w)
    ensures Off(at, PlaceNode(w, p))
  {
    AllApart(at, w);
    hide Apart, Harmless, Roomy, ProjectionNode, PlaceHead;
    forall i | 0 <= i < |p.projections|
      ensures Off(at, ProjectionNode(Indexed(w + ".projection", i), p.projections[i]))
    {
      ApartIndexed(at, w + ".projection", i);
      ProjectionOff(at, Indexed(w + ".projection", i), p.projections[i]);
    }
  }

  lemma {:induction false} AggregateOff(at: string, w: string, k: AggregateKind)
    requires Apart(at, w)
    ensures Off(at, AggregateNode(w, k))
  {
    AllApart(at, w);
    hide Apart, Harmless, Roomy, TypeNode, AggregateHead;
    if k.AArray? {
      TypeApart(at, w + ".element", k.element);
    }
  }

  lemma {:induction false} NullaryOff(at: string, w: string, op: NullaryOp)
    requires Apart(at, w)
    ensures Off(at, NullaryNode(w, op))
  {
    AllApart(at, w);
    AllApart(at, w + ".op");
    hide Apart, Harmless, Roomy, NullaryOpName, Dec;
    if op.ThreadIndex? {
      LeafOff(at, w + ".component", Dec(op.component));
    }
  }

  // A part under its own longer label.

  lemma {:induction false} LeafUnder(at: string, w: string, s: string, head: string)
    requires Apart(at, w)
    ensures Off(at, Leaf(w + s, head))
  {
    ApartLonger(at, w, s);
    LeafOff(at, w + s, head);
  }

  lemma {:induction false} TypeUnder(at: string, w: string, s: string, t: Type)
    requires Apart(at, w)
    ensures Off(at, TypeNode(w + s, t))
  {
    ApartLonger(at, w, s);
    TypeApart(at, w + s, t);
  }

  lemma {:induction false} ValueUnder(at: string, w: string, s: string, v: Value)
    requires Apart(at, w)
    ensures Off(at, ValueNode(w + s, v))
  {
    ApartLonger(at, w, s);
    ValueOff(at, w + s, v);
  }

  lemma {:induction false} ValueListUnder(at: string, w: string, s: string, t: string, vs: seq<Value>)
    requires Apart(at, w)
    ensures Off(at, ValueList(w + s, w + t, vs))
  {
    ApartLonger(at, w, s);
    ApartLonger(at, w, t);
    ValueListOff(at, w + s, w + t, vs);
  }

  lemma {:induction false} PlaceUnder(at: string, w: string, s: string, p: Place)
    requires Apart(at, w)
    ensures Off(at, PlaceNode(w + s, p))
  {
    ApartLonger(at, w, s);
    PlaceOff(at, w + s, p);
  }

  lemma {:induction false} AggregateUnder(at: string, w: string, s: string, k: AggregateKind)
    requires Apart(at, w)
    ensures Off(at, AggregateNode(w + s, k))
  {
    ApartLonger(at, w, s);
    AggregateOff(at, w + s, k);
  }

  lemma {:induction false} RValueKidsOff(at: string, w: string, r: RValue)
    requires Apart(at, w)
    ensures AllOff(at, RValueKids(w, r))
  {
    hide Apart, Harmless, Roomy, Off, TypeNode, ValueNode, PlaceNode, ValueList, AggregateNode, NullaryNode, AccessKids;
    hide BinOpName, UnaryOpName, CastKindName, BoolName, Dec;
    match r
    case Use(value) => ValueUnder(at, w, ".value", value);
    case BinaryOp(op, left, right) =>
      LeafUnder(at, w, ".op", BinOpName(op));
      ValueUnder(at, w, ".left", left);
      ValueUnder(at, w, ".right", right);
    case UnaryOp(op, operand) => LeafUnder(at, w, ".op", UnaryOpName(op)); ValueUnder(at, w, ".operand", operand);
    case Ref(isMut, place) => LeafUnder(at, w, ".is_mut", BoolName(isMut)); PlaceUnder(at, w, ".place", place);
    case AddressOf(isMut, place) => LeafUnder(at, w, ".is_mut", BoolName(isMut)); PlaceUnder(at, w, ".place", place);
    case Cast(kind, value, ty) =>
      LeafUnder(at, w, ".kind", CastKindName(kind));
      ValueUnder(at, w, ".value", value);
      TypeUnder(at, w, ".type", ty);
    case Aggregate(kind, operands) =>
      AggregateUnder(at, w, ".kind", kind);
      ValueListUnder(at, w, ".operands", ".operand", operands);
    case Repeat(value, count) => LeafUnder(at, w, ".count", Dec(count)); ValueUnder(at, w, ".value", value);
    case Discriminant(place) => PlaceUnder(at, w, ".place", place);
    case Len(place) => PlaceUnder(at, w, ".place", place);
    case Nullary(op, ty) => NullaryOff(at, w, op); TypeUnder(at, w, ".type", ty);
    case _ => AccessOff(at, w, r);
  }

  lemma {:induction false} AccessOff(at: string, w: string, r: RValue)
    requires Apart(at, w) && RValueKind(r) >= 11
    ensures AllOff(at, AccessKids(w, r))
  {
    hide Apart, Harmless, Roomy, Off, TypeNode, ValueNode, VariantHead, Quoted;
    match r
    case FieldAccess(base, field, ty) =>
      ValueUnder(at, w, ".base", base);
      LeafUnder(at, w, ".field", Quoted(field));
      TypeUnder(at, w, ".field_type", ty);
    case VariantField(base, variant, index, ty) =>
      ValueUnder(at, w, ".base", base);
      LeafUnder(at, w, ".variant", VariantHead(variant, index));
      TypeUnder(at, w, ".field_type", ty);
    case IndexAccess(base, index, ty) =>
      ValueUnder(at, w, ".base", base);
      ValueUnder(at, w, ".index", index);
      TypeUnder(at, w, ".element_type", ty);
    case Deref(ptr, ty) => ValueUnder(at, w, ".ptr", ptr); TypeUnder(at, w, ".pointee_type", ty);
    case TextureSample(texture, sampler, coords) =>
      ValueUnder(at, w, ".texture", texture);
      ValueUnder(at, w, ".sampler", sampler);
      ValueUnder(at, w, ".coords", coords);
  }

  lemma {:induction false} RValueOff(at: string, w: string, r: RValue)
    requires Apart(at, w)
    ensures Off(at, RValueNode(w, r))
  {
    hide RValueKids;
    RValueKidsOff(at, w, r);
  }

  lemma {:induction false} RValueUnder(at: string, w: string, s: string, r: RValue)
    requires Apart(at, w)
    ensures Off(at, RValueNode(w + s, r))
  {
    ApartLonger(at, w, s);
    RValueOff(at, w + s, r);
  }

  lemma {:induction false} StmtKidsOff(at: string, w: string, s: Stmt)
    requires Apart(at, w)
    ensures AllOff(at, StmtKids(w, s))
  {
    hide Apart, Harmless, Roomy, Off, TypeNode, ValueNode, RValueNode, Quoted, Dec;
    match s
    case Assign(dest, value) => LeafUnder(at, w, ".dest", Dec(dest)); RValueUnder(at, w, ".value", value);
    case DerefAssign(ptr, value) => LeafUnder(at, w, ".ptr", Dec(ptr)); RValueUnder(at, w, ".value", value);
    case FieldDerefAssign(ptr, field, value) =>
      LeafUnder(at, w, ".ptr", Dec(ptr));
      LeafUnder(at, w, ".field", Quoted(field));
      RValueUnder(at, w, ".value", value);
    case FieldAssign(base, field, value) =>
      LeafUnder(at, w, ".base", Dec(base));
      LeafUnder(at, w, ".field", Quoted(field));
      RValueUnder(at, w, ".value", value);
    case GlobalStore(name, value) => LeafUnder(at, w, ".global", Quoted(name)); RValueUnder(at, w, ".value", value);
    case IndexStore(base, index, ty, value) =>
      ValueUnder(at, w, ".base", base);
      ValueUnder(at, w, ".index", index);
      TypeUnder(at, w, ".elem_ty", ty);
      RValueUnder(at, w, ".value", value);
    case StorageLive(local) => LeafUnder(at, w, ".local", Dec(local));
    case StorageDead(local) => LeafUnder(at, w, ".local", Dec(local));
    case Nop =>
    case WorkgroupBarrier =>
  }

  lemma {:induction false} StmtOff(at: string, w: string, s: Stmt)
    requires Apart(at, w)
    ensures Off(at, StmtNode(w, s))
  {
    hide StmtKids;
    StmtKidsOff(at, w, s);
  }

  lemma {:induction false} TargetsOff(at: string, w: string, i: nat, ts: seq<Target>)
    requires Apart(at, w) && i <= |ts|
    ensures AllOff(at, TargetNodes(w, i, ts))
    decreases |ts| - i
  {
    hide Apart, Harmless, Roomy, Off, ConstNode, Dec;
    if i < |ts| {
      ApartIndexed(at, w, i);
      AllApart(at, Indexed(w, i));
      ConstOff(at, Indexed(w, i) + ".value", ts[i].constant);
      LeafOff(at, Indexed(w, i) + ".block", Dec(ts[i].block));
      TargetsOff(at, w, i + 1, ts);
    }
  }

  lemma {:induction false} TargetListOff(at: string, w: string, ts: seq<Target>)
    requires Apart(at, w)
    ensures Off(at, TargetList(w, ts))
  {
    AllApart(at, w);
    AllApart(at, w + ".targets");
    hide Apart, Harmless, Roomy, TargetNodes, Dec;
    TargetsOff(at, w + ".target", 0, ts);
  }

  lemma {:induction false} ResultOff(at: string, w: string, v: Option<Value>)
    requires Apart(at, w)
    ensures Off(at, ResultNode(w, v))
  {
    hide ValueNode;
    match v
    case Some(value) => ValueOff(at, w, value);
    case None => LeafOff(at, w, "null");
  }

  lemma {:induction false} ResultUnder(at: string, w: string, s: string, v: Option<Value>)
    requires Apart(at, w)
    ensures Off(at, ResultNode(w + s, v))
  {
    ApartLonger(at, w, s);
    ResultOff(at, w + s, v);
  }

  lemma {:induction false} TerminatorKidsOff(at: string, w: string, t: Terminator)
    requires Apart(at, w)
    ensures AllOff(at, TerminatorKids(w, t))
  {
    hide Apart, Harmless, Roomy, Off, ValueNode, PlaceNode, ValueList, TargetList, ResultNode;
    hide OptionalNumber, Quoted, Dec, BoolName;
    match t
    case Goto(target) => LeafUnder(at, w, ".target", Dec(target));
    case If(cond, yes, no) =>
      ValueUnder(at, w, ".cond", cond);
      LeafUnder(at, w, ".then", Dec(yes));
      LeafUnder(at, w, ".else", Dec(no));
    case Switch(value, targets, default) =>
      ValueUnder(at, w, ".value", value);
      TargetListOff(at, w, targets);
      LeafUnder(at, w, ".default", Dec(default));
    case Call(func, args, dest, next, unwind) =>
      ValueUnder(at, w, ".func", func);
      ValueListUnder(at, w, ".args", ".arg", args);
      LeafUnder(at, w, ".dest", OptionalNumber(dest));
      LeafUnder(at, w, ".target", OptionalNumber(next));
      LeafUnder(at, w, ".unwind", OptionalNumber(unwind));
    case Return(result) => ResultUnder(at, w, ".value", result);
    case Drop(place, target, unwind) =>
      PlaceUnder(at, w, ".place", place);
      LeafUnder(at, w, ".target", Dec(target));
      LeafUnder(at, w, ".unwind", OptionalNumber(unwind));
    case Assert(cond, expected, msg, target, unwind) =>
      ValueUnder(at, w, ".cond", cond);
      LeafUnder(at, w, ".expected", BoolName(expected));
      LeafUnder(at, w, ".msg", Quoted(msg));
      LeafUnder(at, w, ".target", Dec(target));
      LeafUnder(at, w, ".unwind", OptionalNumber(unwind));
    case Unreachable =>
    case Resume =>
    case Abort =>
  }

  lemma {:induction false} EndOff(at: string, w: string, t: Option<Terminator>)
    requires Apart(at, w)
    ensures Off(at, EndNode(w, t))
  {
    hide TerminatorKids;
    if t.Some? {
      TerminatorKidsOff(at, w, t.value);
    }
  }

  lemma {:induction false} StmtListOff(at: string, w: string, ss: seq<Stmt>)
    requires Apart(at, w)
    ensures Off(at, StmtList(w, ss))
  {
    AllApart(at, w);
    AllApart(at, w + ".stmts");
    hide Apart, Harmless, Roomy, StmtNode, Dec;
    forall i | 0 <= i < |ss| ensures Off(at, StmtNode(Indexed(w + ".stmt", i), ss[i])) {
      ApartIndexed(at, w + ".stmt", i);
      StmtOff(at, Indexed(w + ".stmt", i), ss[i]);
    }
  }

  lemma {:induction false} BlockOff(at: string, w: string, b: Block)
    requires Apart(at, w)
    ensures Off(at, BlockNode(w, b))
  {
    AllApart(at, w);
    hide Apart, Harmless, Roomy, StmtList, EndNode, BlockHead;
    StmtListOff(at, w, b.stmts);
    EndOff(at, w + ".terminator", b.terminator);
  }
}
