/** The MIR trees that the canonical text writer prints. */
module MirTree {

  import opened Options

  type byte = b: int | 0 <= b < 256

  datatype IntSize = I8 | I16 | I32 | I64 | I128 | ISize
  datatype FloatSize = F32 | F64
  datatype CallingConv = CCBuild | CCC | CCFast | CCCold

  datatype FnSig = FnSig(params: seq<Type>, ret: Type, variadic: bool, conv: CallingConv)

  datatype Type =
    | Void
    | TBool
    | TInt(size: IntSize, signed: bool)
    | TFloat(fsize: FloatSize)
    | Ptr(inner: Type)
    | TArray(element: Type, count: nat)
    | Slice(element: Type)
    | TOption(inner: Type)
    | TStruct(name: string)
    | FnPtr(sig: FnSig)
    | Never
    | Vector(element: Type, lanes: nat)
    | Texture2D(element: Type)
    | Sampler
    | SampledImage(element: Type)
    | TraitObject(name: string)
    | TVec(element: Type)
    | TMap(key: Type, value: Type)
    | TTuple(elements: seq<Type>)

  datatype Const =
    | CBool(flag: bool)
    | CInt(number: int, ty: Type)
    | CUint(unsigned: nat, ty: Type)
    | CFloat(bits: nat, ty: Type)
    | CStr(index: nat)
    | CByteStr(bytes: seq<byte>)
    | CNull(ty: Type)
    | CUnit
    | CZeroed(ty: Type)
    | CUndef(ty: Type)
    | CStruct(name: string, fields: seq<Const>)

  datatype Value = Local(id: nat) | VConst(constant: Const) | Global(name: string) | Function(name: string)

  datatype Projection =
    | PDeref
    | PField(index: nat, name: string, ty: Type)
    | PIndex(local: nat)
    | ConstantIndex(offset: nat, fromEnd: bool)
    | Subslice(from: nat, to: nat, fromEnd: bool)
    | Downcast(variant: nat)

  datatype Place = Place(local: nat, projections: seq<Projection>)

  datatype BinOp =
    | Add | Sub | Mul | Div | Rem | Pow | BitAnd | BitOr | BitXor | Shl | Shr
    | Eq | Ne | Lt | Le | Gt | Ge
    | AddChecked | SubChecked | MulChecked
    | AddWrapping | SubWrapping | MulWrapping
    | AddSaturating | SubSaturating | MulSaturating

  datatype UnaryOp = Not | BitNot | Neg

  datatype CastKind =
    | IntToInt | FloatToFloat | IntToFloat | FloatToInt | PtrToInt | IntToPtr | PtrToPtr | FnToPtr
    | Transmute

  datatype AggregateKind =
    | AArray(element: Type)
    | ATuple
    | AStruct(name: string)
    | AVariant(enum: string, discriminant: nat, variant: string)
    | AClosure(name: string)

  datatype NullaryOp =
    | SizeOf
    | AlignOf
    | ThreadIndex(component: nat)
    | LocalInvocationId(component: nat)
    | WorkgroupId(component: nat)

  datatype RValue =
    | Use(value: Value)
    | BinaryOp(op: BinOp, left: Value, right: Value)
    | UnaryOp(uop: UnaryOp, operand: Value)
    | Ref(isMut: bool, place: Place)
    | AddressOf(isMut: bool, place: Place)
    | Cast(kind: CastKind, value: Value, ty: Type)
    | Aggregate(akind: AggregateKind, operands: seq<Value>)
    | Repeat(value: Value, count: nat)
    | Discriminant(place: Place)
    | Len(place: Place)
    | Nullary(nop: NullaryOp, ty: Type)
    | FieldAccess(base: Value, field: string, ty: Type)
    | VariantField(base: Value, variant: string, fieldIndex: nat, ty: Type)
    | IndexAccess(base: Value, index: Value, ty: Type)
    | Deref(ptr: Value, ty: Type)
    | TextureSample(texture: Value, sampler: Value, coords: Value)

  datatype Stmt =
    | Assign(dest: nat, value: RValue)
    | DerefAssign(ptr: nat, value: RValue)
    | FieldDerefAssign(ptr: nat, field: string, value: RValue)
    | FieldAssign(base: nat, field: string, value: RValue)
    | GlobalStore(name: string, value: RValue)
    | IndexStore(target: Value, index: Value, ty: Type, value: RValue)
    | StorageLive(local: nat)
    | StorageDead(local: nat)
    | Nop
    | WorkgroupBarrier

  datatype Target = Target(constant: Const, block: nat)

  datatype Terminator =
    | Goto(target: nat)
    | If(cond: Value, thenBlock: nat, elseBlock: nat)
    | Switch(value: Value, targets: seq<Target>, default: nat)
    | Call(func: Value, args: seq<Value>, dest: Option<nat>, next: Option<nat>, unwind: Option<nat>)
    | Return(result: Option<Value>)
    | Unreachable
    | Drop(place: Place, target: nat, unwind: Option<nat>)
    | Assert(cond: Value, expected: bool, msg: string, target: nat, unwind: Option<nat>)
    | Resume
    | Abort

  datatype Block = Block(id: nat, name: Option<string>, stmts: seq<Stmt>, terminator: Option<Terminator>)

  /** A record under a key of two names. */
  datatype Keyed<T> = Keyed(first: string, second: string, item: T)

  /** A method of a virtual table: its name, the function that it calls, and its signature. */
  type Method = Keyed<FnSig>

  /** The methods of a type for a trait, under the trait's name and the type's. */
  type VTable = Keyed<seq<Method>>
}
