/**
 * The non-flow-sensitive transfer functions of the pointer-nullability
 * analysis: for each expression, once its children are done, the
 * nullability vector of its type, computed from the children's vectors
 * and the written types, and stored in the lattice unless already there.
 *
 * Expressions are identified by `ExprId`; the AST is reduced to the facts
 * the rules read: each expression's type (`exprType`, so the bound-member
 * placeholder is already resolved), the node kind with its children, and
 * for class templates whether a parameter belongs to a partial
 * specialization. A rule that would abort the analysis (a failed CHECK or
 * LLVM assertion) or hit undefined behaviour (an out-of-range vector
 * access) yields `Err`.
 */
module NullabilityTransfer {
  import opened Wrappers
  import opened NullTypes
  import opened TypeNullability
  import opened NullabilityLattice

  /** The opcodes of `UnaryOperator`. */
  datatype UnaryOp =
    | AddrOf | Deref
    | PostInc | PostDec | PreInc | PreDec | Plus | Minus | Not | LNot | Real | Imag | Extension
    | Coawait

  /** The cast kinds the cast rule distinguishes (clang's `CK_` names). */
  datatype CastKind =
    | LValueBitCast | BitCast | LValueToRValueBitCast
    | LValueToRValue | NoOp | AtomicToNonAtomic | NonAtomicToAtomic | AddressSpaceConversion
    | BaseToDerived | DerivedToBase | UncheckedDerivedToBase
    | UserDefinedConversion | ConstructorConversion
    | Dynamic
    | ToVoid | MemberPointerToBoolean | PointerToBoolean | PointerToIntegral | IntegralCast
    | IntegralToBoolean | IntegralToFloating | FloatingToFixedPoint | FixedPointToFloating
    | FixedPointCast | FixedPointToIntegral | IntegralToFixedPoint | FixedPointToBoolean
    | FloatingToIntegral | FloatingToBoolean | BooleanToSignedIntegral | FloatingCast
    | FloatingRealToComplex | FloatingComplexToReal | FloatingComplexToBoolean
    | FloatingComplexCast | FloatingComplexToIntegralComplex | IntegralRealToComplex
    | IntegralComplexToReal | IntegralComplexToBoolean | IntegralComplexCast
    | IntegralComplexToFloatingComplex
    | NullToPointer
    | IntegralToPointer
    | ArrayToPointerDecay | FunctionToPointerDecay
    | BuiltinFnToFnPtr
    | BaseToDerivedMemberPointer | DerivedToBaseMemberPointer | NullToMemberPointer
    | ReinterpretMemberPointer | ToUnion
    | CPointerToObjCPointerCast | ObjCObjectLValueCast | MatrixCast | VectorSplat
    | BlockPointerToObjCPointerCast | AnyPointerToBlockPointerCast | ARCProduceObject
    | ARCConsumeObject | ARCReclaimReturnedObject | ARCExtendBlockObject
    | CopyAndAutoreleaseBlockObject | ZeroToOCLOpaqueType | IntToOCLSampler
    | Dependent

  /** What a cast does to nullability. */
  datatype CastRule =
    | KeepSharedLevels  // unrelated or class-hierarchy types: keep the outer pointer levels both share
    | CopyChild         // equivalent types
    | ResetUnspecified  // nothing is known
    | DynamicRule       // dynamic_cast: Nullable at the top when the result is a pointer
    | NoPointers        // primitive values
    | NullRule          // a null constant: Nullable at the top unless the target is nullptr_t
    | DecayRule         // array or function decay: never null
    | DependentRule     // must not occur after template instantiation

  /** The `switch` of the cast rule, case by case. */
  function RuleOf(k: CastKind): CastRule {
    match k
    case LValueBitCast | BitCast | LValueToRValueBitCast => KeepSharedLevels
    case LValueToRValue | NoOp | AtomicToNonAtomic | NonAtomicToAtomic | AddressSpaceConversion => CopyChild
    case BaseToDerived | DerivedToBase | UncheckedDerivedToBase => KeepSharedLevels
    case UserDefinedConversion | ConstructorConversion => ResetUnspecified
    case Dynamic => DynamicRule
    case ToVoid | MemberPointerToBoolean | PointerToBoolean | PointerToIntegral | IntegralCast
      | IntegralToBoolean | IntegralToFloating | FloatingToFixedPoint | FixedPointToFloating
      | FixedPointCast | FixedPointToIntegral | IntegralToFixedPoint | FixedPointToBoolean
      | FloatingToIntegral | FloatingToBoolean | BooleanToSignedIntegral | FloatingCast
      | FloatingRealToComplex | FloatingComplexToReal | FloatingComplexToBoolean
      | FloatingComplexCast | FloatingComplexToIntegralComplex | IntegralRealToComplex
      | IntegralComplexToReal | IntegralComplexToBoolean | IntegralComplexCast
      | IntegralComplexToFloatingComplex => NoPointers
    case NullToPointer => NullRule
    case IntegralToPointer => ResetUnspecified
    case ArrayToPointerDecay | FunctionToPointerDecay => DecayRule
    case BuiltinFnToFnPtr => CopyChild
    case BaseToDerivedMemberPointer | DerivedToBaseMemberPointer | NullToMemberPointer
      | ReinterpretMemberPointer | ToUnion => ResetUnspecified
    case CPointerToObjCPointerCast | ObjCObjectLValueCast | MatrixCast | VectorSplat
      | BlockPointerToObjCPointerCast | AnyPointerToBlockPointerCast | ARCProduceObject
      | ARCConsumeObject | ARCReclaimReturnedObject | ARCExtendBlockObject
      | CopyAndAutoreleaseBlockObject | ZeroToOCLOpaqueType | IntToOCLSampler => ResetUnspecified
    case Dependent => DependentRule
  }

  /**
   * The callee of a call as the function-template rule sees it, when it
   * is a `DeclRefExpr` once implicit casts are skipped: the primary
   * template of the referenced function (none when it is not a function
   * template specialization) and the explicitly written template
   * arguments, each with its written type if it has one.
   */
  datatype CalleeRef = CalleeRef(primaryTemplate: Option<nat>, explicitArgs: seq<Option<Ty>>)

  /** The expression kinds with a non-flow-sensitive rule, with their children. */
  datatype ExprNode =
    | DeclRef
    | Member(base: ExprId, memberType: Ty)          // `memberType`: the member declaration's type for a bound member function
    | MemberCall(callee: ExprId)
    | Cast(kind: CastKind, sub: ExprId)
    | MaterializeTemporary(sub: ExprId)
    | Call(target: Option<CalleeRef>)
    | Unary(op: UnaryOp, sub: ExprId)
    | New(nullChecked: bool)                         // `shouldNullCheckAllocation()`
    | Subscript(base: ExprId)
    | This

  /**
   * The facts about the function being analysed: the type of each
   * expression, and whether the parameters of a template declaration are
   * those of a partial specialization.
   */
  datatype Ast = Ast(types: ExprId -> Ty, partialPattern: nat -> bool)

  /** A computed vector and the lattice after the children were looked up. */
  datatype Computed = Computed(v: seq<NK>, lattice: Lattice)

  /** Every stored vector has one entry per pointer of its expression's type. */
  predicate Consistent(types: ExprId -> Ty, l: Lattice) {
    forall e :: e in l ==> |l[e]| == CountPointers(types(e))
  }

  /** `later` keeps `earlier`, and what it adds has one entry per pointer. */
  predicate Grows(types: ExprId -> Ty, earlier: Lattice, later: Lattice) {
    Keeps(earlier, later) &&
    forall e :: e in later && e !in earlier ==> |later[e]| == CountPointers(types(e))
  }

  lemma GrowsPreservesConsistent(types: ExprId -> Ty, earlier: Lattice, later: Lattice)
    requires Consistent(types, earlier) && Grows(types, earlier, later)
    ensures Consistent(types, later)
  {
  }

  /** The type is `std::nullptr_t`. */
  predicate IsNullPtrType(t: Ty) {
    Canon(t) == Builtin("nullptr_t")
  }

  /** A sugared type whose walk counts the pointers of its canonical type. */
  predicate WellSugared(t: Ty) {
    Agrees(t, NoCtx, NoSubst(), ResolutionFuel)
  }

  const DependentCastMsg := "Shouldn't see dependent casts here?"
  const SubscriptBaseMsg := "the base of a subscript has no pointer type"
  const OutOfRangeMsg := "vector index out of range"

  function WithLattice(r: Result<seq<NK>>, l: Lattice): (c: Result<Computed>)
    ensures c.Ok? <==> r.Ok?
    ensures c.Ok? ==> c.value == Computed(r.value, l)
    ensures c.Err? ==> c.error == r.error
  {
    match r
    case Ok(v) => Ok(Computed(v, l))
    case Err(m) => Err(m)
  }

  // ---------------------------------------------------------------------
  // Children

  /**
   * `getNullabilityForChild`: the child's stored vector; a child that was
   * not visited gets (and keeps) all-Unspecified.
   */
  function ChildNullability(ast: Ast, l: Lattice, c: ExprId): (r: Computed)
    ensures c in r.lattice && r.lattice[c] == r.v
    ensures Grows(ast.types, l, r.lattice) && r.lattice.Keys == l.Keys + {c}
    ensures c in l ==> r.v == l[c] && r.lattice == l
    ensures c !in l ==> r.v == UnspecifiedNullability(ast.types(c))
    ensures Consistent(ast.types, l) ==> |r.v| == CountPointers(ast.types(c))
  {
    var p := LookupOrInsert(l, c, UnspecifiedNullability(ast.types(c)));
    Computed(p.0, p.1)
  }

  // ---------------------------------------------------------------------
  // Template substitution

  /**
   * The number of pointer levels two canonical types share from the top:
   * how often both are pointers when stepping to the pointee together.
   */
  function SharedPointerLevels(a: Ty, b: Ty): (n: nat)
    ensures n <= Pointers(a) && n <= Pointers(b)
    ensures n > 0 <==> a.Pointer? && b.Pointer?
  {
    if a.Pointer? && b.Pointer? then 1 + SharedPointerLevels(a.pointee, b.pointee) else 0
  }

  /** `countPointersInType` of a declaration context, a template argument, and a prefix of arguments. */
  function CountOpt(e: Option<Ty>): nat {
    |WalkOpt(e, None, NoCtx, NoSubst(), ResolutionFuel).reports|
  }

  function CountArg(a: TArg): nat {
    |WalkArg(a, None, NoCtx, NoSubst(), ResolutionFuel).reports|
  }

  function CountEach(args: seq<TArg>): nat {
    if |args| == 0 then 0 else CountArg(args[0]) + CountEach(args[1..])
  }

  /**
   * The answer of the class-template substitution for the substituted
   * parameter `st`: when the base's type is a specialization of the
   * parameter's own template, the slice of the base's vector that holds
   * the argument, found by counting the pointers of the enclosing context
   * and of the preceding arguments. Partial specializations and pack
   * elements are not resugared. An index past the arguments, or a slice
   * past the base's vector, would fail an `ArrayRef` assertion; both give
   * no answer here.
   */
  function ClassTemplateSlice(ast: Ast, base: seq<NK>, baseType: Ty, st: Ty): (r: Option<seq<NK>>)
    ensures r.Some? ==> st.Subst? && st.packIndex.None? && !ast.partialPattern(st.associated)
    ensures r.Some? ==> (Canon(baseType).Record? && Canon(baseType).isSpecialization
      && Canon(baseType).decl == st.associated && st.index < |Canon(baseType).args|)
    ensures r.Some? ==> var args := Canon(baseType).args;
      var start := CountOpt(Canon(baseType).enclosing) + CountEach(args[..st.index]);
      start + CountArg(args[st.index]) <= |base| && r.value == base[start..start + CountArg(args[st.index])]
    // conversely, a parameter of the base's own template whose slice lies in the vector is answered
    ensures ResugarsParameter(ast, base, baseType, st) ==> var args := Canon(baseType).args;
      var start := CountOpt(Canon(baseType).enclosing) + CountEach(args[..st.index]);
      r == Some(base[start..start + CountArg(args[st.index])])
  {
    match st
    case Subst(associated, index, packIndex, _) =>
      (match Canon(baseType)
       case Record(d, enclosing, true, args) =>
         if d != associated || ast.partialPattern(associated) || packIndex.Some? || index >= |args| then None
         else
           var start := CountOpt(enclosing) + CountEach(args[..index]);
           var size := CountArg(args[index]);
           if start + size > |base| then None else Some(base[start..start + size])
       case _ => None)
    case _ => None
  }

  /**
   * The parameter `st` is one the class-template substitution resugars
   * from `base`: a non-pack parameter of the base's own (not partially
   * specialized) template, whose argument's slice lies within the vector.
   */
  predicate ResugarsParameter(ast: Ast, base: seq<NK>, baseType: Ty, st: Ty) {
    && st.Subst? && st.packIndex.None? && !ast.partialPattern(st.associated)
    && Canon(baseType).Record? && Canon(baseType).isSpecialization
    && Canon(baseType).decl == st.associated && st.index < |Canon(baseType).args|
    && CountOpt(Canon(baseType).enclosing) + CountEach(Canon(baseType).args[..st.index])
       + CountArg(Canon(baseType).args[st.index]) <= |base|
  }

  function ClassTemplateCallback(ast: Ast, base: seq<NK>, baseType: Ty): SubstCallback {
    (st: Ty) => ClassTemplateSlice(ast, base, baseType, st)
  }

  /**
   * The answer of the function-template substitution: the annotations of
   * the explicitly written template argument the parameter stands for,
   * when the call names a specialization of the parameter's template.
   */
  function FunctionTemplateArg(target: Option<CalleeRef>, st: Ty): (r: Option<seq<NK>>)
    ensures r.Some? <==> (st.Subst? && target.Some? && target.value.primaryTemplate == Some(st.associated)
      && st.index < |target.value.explicitArgs| && target.value.explicitArgs[st.index].Some?)
    ensures r.Some? ==> r.value == Annotations(target.value.explicitArgs[st.index].value, NoSubst())
  {
    match st
    case Subst(associated, index, _, _) =>
      (match target
       case None => None
       case Some(c) =>
         if c.primaryTemplate != Some(associated) || index >= |c.explicitArgs| then None
         else
           match c.explicitArgs[index]
           case None => None
           case Some(t) => Some(Annotations(t, NoSubst())))
    case _ => None
  }

  function FunctionTemplateCallback(target: Option<CalleeRef>): SubstCallback {
    (st: Ty) => FunctionTemplateArg(target, st)
  }

  // ---------------------------------------------------------------------
  // The rules

  /**
   * `PreserveTopLevelPointers`: `v` with its first `shared` entries taken
   * from the argument's vector; writing past either vector is undefined
   * behaviour.
   */
  function KeepLevels(v: seq<NK>, arg: seq<NK>, shared: nat): (r: Result<seq<NK>>)
    ensures r.Ok? <==> shared <= |v| && shared <= |arg|
    ensures r.Ok? ==> |r.value| == |v|
    ensures r.Ok? ==> forall i :: 0 <= i < |v| ==> r.value[i] == if i < shared then arg[i] else v[i]
  {
    if shared <= |v| && shared <= |arg| then Ok(arg[..shared] + v[shared..]) else Err(OutOfRangeMsg)
  }

  function PreserveTopLevelPointers(ast: Ast, l: Lattice, e: ExprId, sub: ExprId): (r: Result<Computed>)
    ensures r.Ok? ==> Grows(ast.types, l, r.value.lattice)
  {
    var arg := ChildNullability(ast, l, sub);
    var shared := SharedPointerLevels(Canon(ast.types(sub)), Canon(ast.types(e)));
    WithLattice(KeepLevels(UnspecifiedNullability(ast.types(e)), arg.v, shared), arg.lattice)
  }

  function CastNullability(ast: Ast, l: Lattice, e: ExprId, kind: CastKind, sub: ExprId): (r: Result<Computed>)
    ensures r.Ok? ==> Grows(ast.types, l, r.value.lattice)
    ensures r.Err? <==> (RuleOf(kind) == DependentRule
      || (RuleOf(kind) == KeepSharedLevels && PreserveTopLevelPointers(ast, l, e, sub).Err?)
      || (RuleOf(kind) == DynamicRule && Canon(ast.types(e)).Pointer? && CountPointers(ast.types(e)) == 0)
      || (RuleOf(kind) == NullRule && !IsNullPtrType(ast.types(e)) && CountPointers(ast.types(e)) == 0))
  {
    var t := ast.types(e);
    match RuleOf(kind)
    case KeepSharedLevels => PreserveTopLevelPointers(ast, l, e, sub)
    case CopyChild => Ok(ChildNullability(ast, l, sub))
    case ResetUnspecified => Ok(Computed(UnspecifiedNullability(t), l))
    case DynamicRule =>
      if Canon(t).Pointer? then WithLattice(SetFront(UnspecifiedNullability(t), Nullable), l)
      else Ok(Computed(UnspecifiedNullability(t), l))
    case NoPointers => Ok(Computed([], l))
    case NullRule =>
      if IsNullPtrType(t) then Ok(Computed(Annotations(t, NoSubst()), l))
      else WithLattice(SetFront(Annotations(t, NoSubst()), Nullable), l)
    case DecayRule =>
      var c := ChildNullability(ast, l, sub);
      Ok(Computed(Prepend(NonNull, c.v), c.lattice))
    case DependentRule => Err(DependentCastMsg)
  }

  function UnaryNullability(ast: Ast, l: Lattice, e: ExprId, op: UnaryOp, sub: ExprId): (r: Result<Computed>)
    ensures r.Ok? ==> Grows(ast.types, l, r.value.lattice)
    ensures r.Err? <==> op == Deref && |ChildNullability(ast, l, sub).v| == 0
  {
    match op
    case AddrOf =>
      var c := ChildNullability(ast, l, sub);
      Ok(Computed(Prepend(NonNull, c.v), c.lattice))
    case Deref =>
      var c := ChildNullability(ast, l, sub);
      WithLattice(DropFront(c.v), c.lattice)
    case Coawait => Ok(Computed(UnspecifiedNullability(ast.types(e)), l))
    case _ => Ok(ChildNullability(ast, l, sub))
  }

  function MemberNullability(ast: Ast, l: Lattice, base: ExprId, memberType: Ty): (r: Computed)
    ensures Grows(ast.types, l, r.lattice)
  {
    var b := ChildNullability(ast, l, base);
    Computed(Annotations(memberType, ClassTemplateCallback(ast, b.v, ast.types(base))), b.lattice)
  }

  function SubscriptNullability(ast: Ast, l: Lattice, base: ExprId): (r: Result<Computed>)
    ensures r.Ok? ==> Grows(ast.types, l, r.value.lattice)
    ensures r.Err? <==> !Canon(ast.types(base)).Pointer? || |ChildNullability(ast, l, base).v| == 0
  {
    var b := ChildNullability(ast, l, base);
    if !Canon(ast.types(base)).Pointer? then Err(SubscriptBaseMsg)
    else WithLattice(DropFront(b.v), b.lattice)
  }

  /** The vector a node's rule computes, before normalization. */
  function Compute(ast: Ast, l: Lattice, e: ExprId, node: ExprNode): (r: Result<Computed>)
    ensures r.Ok? ==> Grows(ast.types, l, r.value.lattice)
  {
    var t := ast.types(e);
    match node
    case DeclRef => Ok(Computed(Annotations(t, NoSubst()), l))
    case Member(base, memberType) => Ok(MemberNullability(ast, l, base, memberType))
    case MemberCall(callee) =>
      var c := ChildNullability(ast, l, callee);
      Ok(Computed(TakeFront(c.v, CountPointers(t)), c.lattice))
    case Cast(kind, sub) => CastNullability(ast, l, e, kind, sub)
    case MaterializeTemporary(sub) => Ok(ChildNullability(ast, l, sub))
    case Call(target) => Ok(Computed(Annotations(t, FunctionTemplateCallback(target)), l))
    case Unary(op, sub) => UnaryNullability(ast, l, e, op, sub)
    case New(nullChecked) => WithLattice(SetFront(Annotations(t, NoSubst()), if nullChecked then Nullable else NonNull), l)
    case Subscript(base) => SubscriptNullability(ast, l, base)
    case This => WithLattice(SetFront(Annotations(t, NoSubst()), NonNull), l)
  }

  /**
   * `computeNullability` applied to the node's rule: nothing happens if
   * the expression already has a vector; otherwise the rule runs and its
   * vector, normalized to one entry per pointer, is stored.
   */
  function Transfer(ast: Ast, l: Lattice, e: ExprId, node: ExprNode): (r: Result<Lattice>)
    ensures e in l ==> r == Ok(l)
    ensures r.Ok? ==> e in r.value && Grows(ast.types, l, r.value) && r.value.Keys >= l.Keys + {e}
    ensures r.Ok? && Consistent(ast.types, l) ==> Consistent(ast.types, r.value)
  {
    if e in l then Ok(l)
    else
      match Compute(ast, l, e, node)
      case Err(m) => Err(m)
      case Ok(c) => Ok(InsertIfAbsent(c.lattice, e, Normalize(c.v, CountPointers(ast.types(e)))))
  }
}
