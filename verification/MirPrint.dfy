/**
 The lines the writer prints for each kind of MIR tree under a label, and the proof that they
 determine the tree.

 Only two things are lost. `LocalInvocationId` and `WorkgroupId` print without their component,
 so trees are determined up to that number. A field projection prints its name unquoted, so a
 name with a newline in it could imitate the lines that follow.
 */
module MirPrint {
  import opened Options
  import opened Decimal
  import opened Quoting
  import opened MirTree
  import opened MirNodes
  import opened MirHeads

  /** `{at}{suffix}[{i}]` */
  function Indexed(at: string, i: nat): (s: string)
    ensures OneLine(at) ==> OneLine(s)
  {
    at + "[" + Dec(i) + "]"
  }

  // ----- types ---------------------------------------------------------------------------------

  function TypeNode(at: string, t: Type): (n: Node)
    decreases t, 2
  {
    Node(at, TypeHead(t), TypeKids(at, t))
  }

  function TypeKids(at: string, t: Type): seq<Node>
    decreases t, 1
  {
    match t
    case Ptr(inner) => [TypeNode(at + ".inner", inner)]
    case TOption(inner) => [TypeNode(at + ".inner", inner)]
    case TArray(element, _) => [TypeNode(at + ".element", element)]
    case Slice(element) => [TypeNode(at + ".element", element)]
    case Vector(element, _) => [TypeNode(at + ".element", element)]
    case Texture2D(element) => [TypeNode(at + ".element", element)]
    case SampledImage(element) => [TypeNode(at + ".element", element)]
    case TVec(element) => [TypeNode(at + ".element", element)]
    case TMap(key, value) => [TypeNode(at + ".key", key), TypeNode(at + ".value", value)]
    case FnPtr(sig) => SigNodes(sig)
    case TTuple(elements) =>
      seq(|elements|, i requires 0 <= i < |elements| => TypeNode(Indexed(at + ".element", i), elements[i]))
    case _ => []
  }

  function SigHead(sig: FnSig): string {
    "variadic=" + (BoolName(sig.variadic) + (" calling_conv=" + ConvName(sig.conv)))
  }

  /** A signature prints under labels of its own, wherever it stands. */
  function SigNodes(sig: FnSig): (ns: seq<Node>)
    ensures |ns| == 3
    decreases sig, 1
  {
    [Leaf("sig", SigHead(sig)),
     Node("sig.params", Dec(|sig.params|), ParamNodes(sig)),
     TypeNode("sig.ret", sig.ret)]
  }

  function ParamNodes(sig: FnSig): (ns: seq<Node>)
    ensures |ns| == |sig.params|
    decreases sig, 0
  {
    seq(|sig.params|, i requires 0 <= i < |sig.params| => TypeNode(Indexed("sig.param", i), sig.params[i]))
  }

  lemma {:induction false} SigHeadDetermines(a: FnSig, b: FnSig)
    ensures SigHead(a) == SigHead(b) ==> a.variadic == b.variadic && a.conv == b.conv
    ensures OneLine(SigHead(a)) && !FieldHead(SigHead(a))
  {
    ConvNameClean(a.conv);
    if SigHead(a) == SigHead(b) {
      var p, q := " calling_conv=" + ConvName(a.conv), " calling_conv=" + ConvName(b.conv);
      Cancel("variadic=", BoolName(a.variadic) + p, BoolName(b.variadic) + q);
      FirstWord(BoolName(a.variadic), p, BoolName(b.variadic), q);
      Cancel(" calling_conv=", ConvName(a.conv), ConvName(b.conv));
      ConvNames(a.conv, b.conv);
    }
  }

  /** The lines of a type are single lines. */
  lemma {:induction false} TypeClean(at: string, t: Type)
    requires OneLine(at)
    ensures Clean(TypeNode(at, t))
    decreases t, 2
  {
    TypeHeadClean(t);
    TypeKidsClean(at, t);
  }

  lemma {:induction false} TypeKidsClean(at: string, t: Type)
    requires OneLine(at)
    ensures AllClean(TypeKids(at, t))
    decreases t, 1
  {
    hide Clean, TypeHead;
    match t
    case Ptr(inner) => TypeClean(at + ".inner", inner);
    case TOption(inner) => TypeClean(at + ".inner", inner);
    case TArray(element, _) => TypeClean(at + ".element", element);
    case Slice(element) => TypeClean(at + ".element", element);
    case Vector(element, _) => TypeClean(at + ".element", element);
    case Texture2D(element) => TypeClean(at + ".element", element);
    case SampledImage(element) => TypeClean(at + ".element", element);
    case TVec(element) => TypeClean(at + ".element", element);
    case TMap(key, value) => TypeClean(at + ".key", key); TypeClean(at + ".value", value);
    case FnPtr(sig) => SigClean(sig);
    case TTuple(elements) =>
      forall i | 0 <= i < |elements|
        ensures Clean(TypeNode(Indexed(at + ".element", i), elements[i]))
      {
        TypeClean(Indexed(at + ".element", i), elements[i]);
      }
    case _ =>
  }

  lemma {:induction false} SigClean(sig: FnSig)
    ensures AllClean(SigNodes(sig))
    decreases sig, 1
  {
    SigHeadDetermines(sig, sig);
    TypeClean("sig.ret", sig.ret);
    forall i | 0 <= i < |sig.params|
      ensures Clean(TypeNode(Indexed("sig.param", i), sig.params[i]))
    {
      TypeClean(Indexed("sig.param", i), sig.params[i]);
    }
  }

  /** Two types under one label print aligned trees, and the same tree only if they are the same. */
  lemma {:induction false} TypeDetermined(at: string, t: Type, u: Type)
    ensures Aligned(TypeNode(at, t), TypeNode(at, u))
    ensures TypeNode(at, t) == TypeNode(at, u) ==> t == u
    decreases t, 2
  {
    if TypeHead(t) == TypeHead(u) {
      TypeHeadDetermines(t, u);
      TypeKidsDetermined(at, t, u);
    }
  }

  lemma {:induction false} TypeKidsDetermined(at: string, t: Type, u: Type)
    requires SameTypeTop(t, u)
    ensures AllAligned(TypeKids(at, t), TypeKids(at, u))
    ensures TypeKids(at, t) == TypeKids(at, u) ==> t == u
    decreases t, 1
  {
    match t
    case Ptr(inner) => TypeDetermined(at + ".inner", inner, u.inner);
    case TOption(inner) => TypeDetermined(at + ".inner", inner, u.inner);
    case TArray(element, _) => TypeDetermined(at + ".element", element, u.element);
    case Slice(element) => TypeDetermined(at + ".element", element, u.element);
    case Vector(element, _) => TypeDetermined(at + ".element", element, u.element);
    case Texture2D(element) => TypeDetermined(at + ".element", element, u.element);
    case SampledImage(element) => TypeDetermined(at + ".element", element, u.element);
    case TVec(element) => TypeDetermined(at + ".element", element, u.element);
    case TMap(key, value) =>
      TypeDetermined(at + ".key", key, u.key);
      TypeDetermined(at + ".value", value, u.value);
    case FnPtr(sig) => SigDetermined(sig, u.sig);
    case TTuple(elements) => TypesDetermined(at + ".element", elements, u.elements, TypeKids(at, t), TypeKids(at, u));
    case _ =>
  }

  lemma {:induction false} TypesDetermined(at: string, ts: seq<Type>, us: seq<Type>, ns: seq<Node>, ms: seq<Node>)
    requires |ts| == |us| == |ns| == |ms|
    requires forall i :: 0 <= i < |ts| ==>
      ns[i] == TypeNode(Indexed(at, i), ts[i]) && ms[i] == TypeNode(Indexed(at, i), us[i])
    ensures AllAligned(ns, ms)
    ensures ns == ms ==> ts == us
    decreases ts, 3
  {
    forall i | 0 <= i < |ts|
      ensures Aligned(ns[i], ms[i]) && (ns[i] == ms[i] ==> ts[i] == us[i])
    {
      TypeDetermined(Indexed(at, i), ts[i], us[i]);
    }
  }

  lemma {:induction false} SigDetermined(a: FnSig, b: FnSig)
    ensures AllAligned(SigNodes(a), SigNodes(b))
    ensures SigNodes(a) == SigNodes(b) ==> a == b
    decreases a, 5
  {
    var ns, ms := SigNodes(a), SigNodes(b);
    SigHeadDetermines(a, b);
    TypeDetermined("sig.ret", a.ret, b.ret);
    ParamsDetermined(a, b);
    assert ns[0] == Leaf("sig", SigHead(a)) && ms[0] == Leaf("sig", SigHead(b));
    assert ns[1] == Node("sig.params", Dec(|a.params|), ParamNodes(a));
    assert ms[1] == Node("sig.params", Dec(|b.params|), ParamNodes(b));
  }

  lemma {:induction false} ParamsDetermined(a: FnSig, b: FnSig)
    ensures Dec(|a.params|) == Dec(|b.params|) ==> AllAligned(ParamNodes(a), ParamNodes(b))
    ensures ParamNodes(a) == ParamNodes(b) ==> a.params == b.params
    decreases a, 4
  {
    DecInjective(|a.params|, |b.params|);
    if |a.params| == |b.params| {
      TypesDetermined("sig.param", a.params, b.params, ParamNodes(a), ParamNodes(b));
    }
  }

  // ----- constants and values -------------------------------------------------------------------

  function ConstNode(at: string, c: Const): (n: Node)
    decreases c, 2
  {
    Node(at, ConstHead(c), ConstKids(at, c))
  }

  function ConstKids(at: string, c: Const): seq<Node>
    decreases c, 1
  {
    match c
    case CInt(_, ty) => [TypeNode(at + ".type", ty)]
    case CUint(_, ty) => [TypeNode(at + ".type", ty)]
    case CFloat(_, ty) => [TypeNode(at + ".type", ty)]
    case CNull(ty) => [TypeNode(at + ".type", ty)]
    case CZeroed(ty) => [TypeNode(at + ".type", ty)]
    case CUndef(ty) => [TypeNode(at + ".type", ty)]
    case CStruct(_, fields) =>
      seq(|fields|, i requires 0 <= i < |fields| => ConstNode(Indexed(at + ".field", i), fields[i]))
    case _ => []
  }

  lemma {:induction false} ConstClean(at: string, c: Const)
    requires OneLine(at)
    ensures Clean(ConstNode(at, c))
    decreases c, 2
  {
    ConstHeadClean(c);
    ConstKidsClean(at, c);
  }

  lemma {:induction false} ConstKidsClean(at: string, c: Const)
    requires OneLine(at)
    ensures AllClean(ConstKids(at, c))
    decreases c, 1
  {
    hide Clean, ConstHead, TypeNode;
    match c
    case CInt(_, ty) => TypeClean(at + ".type", ty);
    case CUint(_, ty) => TypeClean(at + ".type", ty);
    case CFloat(_, ty) => TypeClean(at + ".type", ty);
    case CNull(ty) => TypeClean(at + ".type", ty);
    case CZeroed(ty) => TypeClean(at + ".type", ty);
    case CUndef(ty) => TypeClean(at + ".type", ty);
    case CStruct(_, fields) =>
      forall i | 0 <= i < |fields|
        ensures Clean(ConstNode(Indexed(at + ".field", i), fields[i]))
      {
        ConstClean(Indexed(at + ".field", i), fields[i]);
      }
    case _ =>
  }

  lemma {:induction false} ConstDetermined(at: string, c: Const, d: Const)
    ensures Aligned(ConstNode(at, c), ConstNode(at, d))
    ensures ConstNode(at, c) == ConstNode(at, d) ==> c == d
    decreases c, 2
  {
    if ConstHead(c) == ConstHead(d) {
      ConstHeadDetermines(c, d);
      ConstKidsDetermined(at, c, d);
    }
  }

  lemma {:induction false} ConstKidsDetermined(at: string, c: Const, d: Const)
    requires SameConstTop(c, d)
    ensures AllAligned(ConstKids(at, c), ConstKids(at, d))
    ensures ConstKids(at, c) == ConstKids(at, d) ==> c == d
    decreases c, 1
  {
    match c
    case CInt(_, ty) => TypeDetermined(at + ".type", ty, d.ty);
    case CUint(_, ty) => TypeDetermined(at + ".type", ty, d.ty);
    case CFloat(_, ty) => TypeDetermined(at + ".type", ty, d.ty);
    case CNull(ty) => TypeDetermined(at + ".type", ty, d.ty);
    case CZeroed(ty) => TypeDetermined(at + ".type", ty, d.ty);
    case CUndef(ty) => TypeDetermined(at + ".type", ty, d.ty);
    case CStruct(_, fields) =>
      ConstsDetermined(at + ".field", fields, d.fields, ConstKids(at, c), ConstKids(at, d));
    case _ =>
  }

  lemma {:induction false} ConstsDetermined(at: string, cs: seq<Const>, ds: seq<Const>, ns: seq<Node>, ms: seq<Node>)
    requires |cs| == |ds| == |ns| == |ms|
    requires forall i :: 0 <= i < |cs| ==>
      ns[i] == ConstNode(Indexed(at, i), cs[i]) && ms[i] == ConstNode(Indexed(at, i), ds[i])
    ensures AllAligned(ns, ms)
    ensures ns == ms ==> cs == ds
    decreases cs, 3
  {
    forall i | 0 <= i < |cs|
      ensures Aligned(ns[i], ms[i]) && (ns[i] == ms[i] ==> cs[i] == ds[i])
    {
      ConstDetermined(Indexed(at, i), cs[i], ds[i]);
    }
  }

  function ValueNode(at: string, v: Value): (n: Node)
  {
    Node(at, ValueHead(v), if v.VConst? then [ConstNode(at + ".const", v.constant)] else [])
  }

  lemma {:induction false} ValueClean(at: string, v: Value)
    requires OneLine(at)
    ensures Clean(ValueNode(at, v))
  {
    ValueHeadClean(v);
    if v.VConst? {
      ConstClean(at + ".const", v.constant);
    }
  }

  lemma {:induction false} ValueDetermined(at: string, v: Value, w: Value)
    ensures Aligned(ValueNode(at, v), ValueNode(at, w))
    ensures ValueNode(at, v) == ValueNode(at, w) ==> v == w
  {
    if ValueHead(v) == ValueHead(w) {
      ValueHeadDetermines(v, w);
      if v.VConst? {
        ConstDetermined(at + ".const", v.constant, w.constant);
      }
    }
  }

  function ValueNodes(at: string, vs: seq<Value>): (ns: seq<Node>)
    ensures |ns| == |vs|
  {
    seq(|vs|, i requires 0 <= i < |vs| => ValueNode(Indexed(at, i), vs[i]))
  }

  /** A counted list of values: the count under one label, the values under another. */
  function ValueList(counted: string, each: string, vs: seq<Value>): Node {
    Node(counted, Dec(|vs|), ValueNodes(each, vs))
  }

  lemma {:induction false} ValueListClean(counted: string, each: string, vs: seq<Value>)
    requires OneLine(counted) && OneLine(each)
    ensures Clean(ValueList(counted, each, vs))
  {
    forall i | 0 <= i < |vs|
      ensures Clean(ValueNode(Indexed(each, i), vs[i]))
    {
      ValueClean(Indexed(each, i), vs[i]);
    }
  }

  lemma {:induction false} ValueListDetermined(counted: string, each: string, vs: seq<Value>, ws: seq<Value>)
    ensures Aligned(ValueList(counted, each, vs), ValueList(counted, each, ws))
    ensures ValueList(counted, each, vs) == ValueList(counted, each, ws) ==> vs == ws
  {
    DecInjective(|vs|, |ws|);
    if |vs| == |ws| {
      var ns, ms := ValueNodes(each, vs), ValueNodes(each, ws);
      forall i | 0 <= i < |vs|
        ensures Aligned(ns[i], ms[i]) && (ns[i] == ms[i] ==> vs[i] == ws[i])
      {
        ValueDetermined(Indexed(each, i), vs[i], ws[i]);
      }
    }
  }

  // ----- places -------------------------------------------------------------------------------------

  function ProjectionNode(at: string, p: Projection): (n: Node)
  {
    Node(at, ProjectionHead(p), if p.PField? then [TypeNode(at + ".type", p.ty)] else [])
  }

  lemma {:induction false} ProjectionDetermined(at: string, p: Projection, q: Projection)
    ensures Aligned(ProjectionNode(at, p), ProjectionNode(at, q))
    ensures ProjectionNode(at, p) == ProjectionNode(at, q) ==> p == q
  {
    if ProjectionHead(p) == ProjectionHead(q) {
      ProjectionHeadDetermines(p, q);
      if p.PField? {
        TypeDetermined(at + ".type", p.ty, q.ty);
      }
    }
  }

  function PlaceHead(p: Place): string {
    "local=" + (Dec(p.local) + (" projections=" + Dec(|p.projections|)))
  }

  function ProjectionNodes(at: string, ps: seq<Projection>): (ns: seq<Node>)
    ensures |ns| == |ps|
  {
    seq(|ps|, i requires 0 <= i < |ps| => ProjectionNode(Indexed(at + ".projection", i), ps[i]))
  }

  function PlaceNode(at: string, p: Place): (n: Node)
  {
    Node(at, PlaceHead(p), ProjectionNodes(at, p.projections))
  }

  lemma {:induction false} PlaceHeadDetermines(p: Place, q: Place)
    requires PlaceHead(p) == PlaceHead(q)
    ensures p.local == q.local && |p.projections| == |q.projections|
  {
    var x, y := " projections=" + Dec(|p.projections|), " projections=" + Dec(|q.projections|);
    Cancel("local=", Dec(p.local) + x, Dec(q.local) + y);
    NumberThen(p.local, x, q.local, y);
    Cancel(" projections=", Dec(|p.projections|), Dec(|q.projections|));
    DecInjective(|p.projections|, |q.projections|);
  }

  lemma {:induction false} PlaceDetermined(at: string, p: Place, q: Place)
    ensures Aligned(PlaceNode(at, p), PlaceNode(at, q))
    ensures PlaceNode(at, p) == PlaceNode(at, q) ==> p == q
  {
    if PlaceHead(p) == PlaceHead(q) {
      PlaceHeadDetermines(p, q);
      var ns, ms := ProjectionNodes(at, p.projections), ProjectionNodes(at, q.projections);
      forall i | 0 <= i < |p.projections|
        ensures Aligned(ns[i], ms[i]) && (ns[i] == ms[i] ==> p.projections[i] == q.projections[i])
      {
        ProjectionDetermined(Indexed(at + ".projection", i), p.projections[i], q.projections[i]);
      }
    }
  }

  // ----- leaves ---------------------------------------------------------------------------------------

  lemma {:induction false} AnyLeaf(at: string, s: string, t: string)
    ensures Aligned(Leaf(at, s), Leaf(at, t))
    ensures Leaf(at, s) == Leaf(at, t) <==> s == t
    ensures OneLine(at) && OneLine(s) && !FieldHead(s) ==> Clean(Leaf(at, s))
  {
  }

  lemma {:induction false} NumberLeaf(at: string, n: nat, m: nat)
    ensures Aligned(Leaf(at, Dec(n)), Leaf(at, Dec(m)))
    ensures Leaf(at, Dec(n)) == Leaf(at, Dec(m)) ==> n == m
    ensures OneLine(at) ==> Clean(Leaf(at, Dec(n)))
  {
    DecInjective(n, m);
  }

  lemma {:induction false} OptionLeaf(at: string, n: Option<nat>, m: Option<nat>)
    ensures Aligned(Leaf(at, OptionalNumber(n)), Leaf(at, OptionalNumber(m)))
    ensures Leaf(at, OptionalNumber(n)) == Leaf(at, OptionalNumber(m)) ==> n == m
    ensures OneLine(at) ==> Clean(Leaf(at, OptionalNumber(n)))
  {
    OptionalNumbers(n, m);
  }

  lemma {:induction false} QuotedLeaf(at: string, s: string, t: string)
    ensures Aligned(Leaf(at, Quoted(s)), Leaf(at, Quoted(t)))
    ensures Leaf(at, Quoted(s)) == Leaf(at, Quoted(t)) ==> s == t
    ensures OneLine(at) ==> Clean(Leaf(at, Quoted(s)))
  {
    if Quoted(s) == Quoted(t) {
      QuotedInjective(s, t);
    }
  }

  lemma {:induction false} BoolLeaf(at: string, a: bool, b: bool)
    ensures Aligned(Leaf(at, BoolName(a)), Leaf(at, BoolName(b)))
    ensures Leaf(at, BoolName(a)) == Leaf(at, BoolName(b)) ==> a == b
    ensures OneLine(at) ==> Clean(Leaf(at, BoolName(a)))
  {
  }
}
