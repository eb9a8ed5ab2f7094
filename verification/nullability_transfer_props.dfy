/**
 * Properties of the non-flow-sensitive transfer rules: on a lattice that
 * already has one entry per pointer everywhere, no rule aborts on a
 * well-typed node, and each rule stores exactly the vector the rule
 * describes (prepend, drop the front, copy, reset, overwrite the top) with
 * no repair needed.
 */
module NullabilityTransferProps {
  import opened Wrappers
  import opened NullTypes
  import opened TypeNullability
  import opened NullabilityLattice
  import opened NullabilityTransfer

  /** A well-sugared type counts the pointers of its canonical type. */
  lemma CountOfWellSugared(t: Ty)
    requires WellSugared(t)
    ensures CountPointers(t) == Pointers(t) == Pointers(Canon(t))
  {
    WalkCountsPointers(t, None, NoCtx, NoSubst(), ResolutionFuel);
    PointersOfCanon(t);
  }

  /**
   * A pointer under attributes, typedefs and elaborated names only: the
   * sugar above which Clang's `getNullability` and the walker read the
   * same nullability for the top pointer.
   */
  predicate SugaredPointer(t: Ty) {
    match t
    case Pointer(_) => true
    case Attributed(_, m) => SugaredPointer(m)
    case Sugar(u) => SugaredPointer(u)
    case Elaborated(_, n) => SugaredPointer(n)
    case _ => false
  }

  /**
   * On such a type the walker reports the top pointer with the nullability
   * still pending from outside, else with the type's own nullability, else
   * Unspecified; so its first annotation is what `getNullability` reads,
   * whatever the template context or substitution.
   */
  lemma {:induction false} OwnNullabilityIsTopReport(t: Ty, pending: Option<NK>, ctx: TCtx, cb: SubstCallback, fuel: nat)
    requires SugaredPointer(t)
    ensures var w := Walk(t, pending, ctx, cb, fuel);
      |w.reports| > 0
      && w.reports[0] == (if pending.Some? then pending.value else TypeOwnNullability(t).GetOr(Unspecified))
  {
    match t
    case Pointer(_) =>
    case Attributed(nk, m) => OwnNullabilityIsTopReport(m, Saw(pending, nk), ctx, cb, fuel);
    case Sugar(u) => OwnNullabilityIsTopReport(u, pending, ctx, cb, fuel);
    case Elaborated(qs, n) => OwnNullabilityIsTopReport(n, pending, BindQualifiers(qs, ctx, ctx), cb, fuel);
  }

  /**
   * The node is well typed where a rule depends on it: a dereferenced or
   * subscripted operand, a `new` or `this`, and the result of a null
   * conversion (unless it is `nullptr_t`) have pointer type; casts are not
   * dependent; and the sugar of the types involved agrees with their
   * canonical types.
   */
  predicate WellTyped(ast: Ast, e: ExprId, node: ExprNode) {
    match node
    case Cast(k, sub) =>
      RuleOf(k) != DependentRule && WellSugared(ast.types(e)) && WellSugared(ast.types(sub))
      && (RuleOf(k) == NullRule ==> IsNullPtrType(ast.types(e)) || Canon(ast.types(e)).Pointer?)
    case Unary(op, sub) => op == Deref ==> Canon(ast.types(sub)).Pointer? && WellSugared(ast.types(sub))
    case Subscript(b) => Canon(ast.types(b)).Pointer? && WellSugared(ast.types(b))
    case New(_) => Canon(ast.types(e)).Pointer? && WellSugared(ast.types(e))
    case This => Canon(ast.types(e)).Pointer? && WellSugared(ast.types(e))
    case _ => true
  }

  /** A pointer type has at least one entry. */
  lemma PointerHasEntry(t: Ty)
    requires WellSugared(t) && Canon(t).Pointer?
    ensures CountPointers(t) >= 1
  {
    CountOfWellSugared(t);
  }

  lemma KeepLevelsInRange(ast: Ast, l: Lattice, e: ExprId, sub: ExprId)
    requires Consistent(ast.types, l) && WellSugared(ast.types(e)) && WellSugared(ast.types(sub))
    ensures PreserveTopLevelPointers(ast, l, e, sub).Ok?
  {
    CountOfWellSugared(ast.types(e));
    CountOfWellSugared(ast.types(sub));
  }

  lemma CastNeverAborts(ast: Ast, l: Lattice, e: ExprId, k: CastKind, sub: ExprId)
    requires Consistent(ast.types, l) && WellTyped(ast, e, Cast(k, sub))
    ensures CastNullability(ast, l, e, k, sub).Ok?
  {
    match RuleOf(k)
    case KeepSharedLevels => KeepLevelsInRange(ast, l, e, sub);
    case DynamicRule => if Canon(ast.types(e)).Pointer? { PointerHasEntry(ast.types(e)); }
    case NullRule => if !IsNullPtrType(ast.types(e)) { PointerHasEntry(ast.types(e)); }
    case _ =>
  }

  /**
   * On a consistent lattice no rule aborts for a well-typed node: every
   * `drop_front`, `front()` and index the rules perform is in range, and
   * the dependent-cast CHECK is never reached.
   */
  lemma NeverAborts(ast: Ast, l: Lattice, e: ExprId, node: ExprNode)
    requires Consistent(ast.types, l) && WellTyped(ast, e, node)
    ensures Transfer(ast, l, e, node).Ok?
  {
    if e !in l {
      match node
      case Cast(k, sub) => CastNeverAborts(ast, l, e, k, sub);
      case Unary(op, sub) => if op == Deref { PointerHasEntry(ast.types(sub)); }
      case Subscript(b) => PointerHasEntry(ast.types(b));
      case New(_) => PointerHasEntry(ast.types(e));
      case This => PointerHasEntry(ast.types(e));
      case _ =>
    }
  }

  // ---------------------------------------------------------------------
  // Unary operators

  /** `&x` of a well-typed `x`: NonNull, then `x`'s vector, stored as computed. */
  lemma AddrOfPrependsNonNull(ast: Ast, l: Lattice, e: ExprId, sub: ExprId)
    requires Consistent(ast.types, l) && e !in l && sub in l
    requires WellSugared(ast.types(e)) && WellSugared(ast.types(sub))
    requires Canon(ast.types(e)) == Pointer(Canon(ast.types(sub)))
    ensures Transfer(ast, l, e, Unary(AddrOf, sub)) == Ok(l[e := Prepend(NonNull, l[sub])])
  {
    CountOfWellSugared(ast.types(e));
    CountOfWellSugared(ast.types(sub));
  }

  /** `*p` of a well-typed `p`: `p`'s vector without its top entry. */
  lemma DerefDropsFront(ast: Ast, l: Lattice, e: ExprId, sub: ExprId)
    requires Consistent(ast.types, l) && e !in l && sub in l
    requires WellSugared(ast.types(e)) && WellSugared(ast.types(sub))
    requires Canon(ast.types(sub)) == Pointer(Canon(ast.types(e)))
    ensures |l[sub]| > 0
    ensures Transfer(ast, l, e, Unary(Deref, sub)) == Ok(l[e := l[sub][1..]])
  {
    CountOfWellSugared(ast.types(e));
    CountOfWellSugared(ast.types(sub));
  }

  /** `*&x` gets exactly `x`'s vector back. */
  lemma DerefAfterAddrOf(ast: Ast, l: Lattice, x: ExprId, a: ExprId, d: ExprId)
    requires Consistent(ast.types, l) && x in l && a !in l && d !in l && a != d
    requires WellSugared(ast.types(x)) && WellSugared(ast.types(a)) && WellSugared(ast.types(d))
    requires Canon(ast.types(a)) == Pointer(Canon(ast.types(x))) && Canon(ast.types(d)) == Canon(ast.types(x))
    ensures Transfer(ast, l, a, Unary(AddrOf, x)).Ok?
    ensures Transfer(ast, Transfer(ast, l, a, Unary(AddrOf, x)).value, d, Unary(Deref, a)).Ok?
    ensures Transfer(ast, Transfer(ast, l, a, Unary(AddrOf, x)).value, d, Unary(Deref, a)).value[d] == l[x]
  {
    AddrOfPrependsNonNull(ast, l, a, x);
    var l1 := l[a := Prepend(NonNull, l[x])];
    DerefDropsFront(ast, l1, d, a);
  }

  /**
   * Arithmetic, bitwise and logical operators copy the operand's vector
   * when it fits the result type.
   */
  lemma CopyingOperatorCopies(ast: Ast, l: Lattice, e: ExprId, op: UnaryOp, sub: ExprId)
    requires op != AddrOf && op != Deref && op != Coawait
    requires e !in l && sub in l && |l[sub]| == CountPointers(ast.types(e))
    ensures Transfer(ast, l, e, Unary(op, sub)) == Ok(l[e := l[sub]])
  {
  }

  /**
   * `!p` copies the pointer's vector, which does not fit the pointer-free
   * result type, so the stored vector is repaired to the empty one.
   */
  lemma LogicalNotIsRepaired(ast: Ast, l: Lattice, e: ExprId, sub: ExprId)
    requires e !in l && sub in l && |l[sub]| > 0 && CountPointers(ast.types(e)) == 0
    ensures Transfer(ast, l, e, Unary(LNot, sub)) == Ok(l[e := []])
  {
  }

  /** `co_await` knows nothing: all Unspecified, and the operand is not looked up. */
  lemma CoawaitIsUnspecified(ast: Ast, l: Lattice, e: ExprId, sub: ExprId)
    requires e !in l
    ensures Transfer(ast, l, e, Unary(Coawait, sub)) == Ok(l[e := AllUnspecified(CountPointers(ast.types(e)))])
  {
    assert UnspecifiedNullability(ast.types(e)) == AllUnspecified(CountPointers(ast.types(e)));
  }

  // ---------------------------------------------------------------------
  // new, this, subscripts, member calls

  /** The top entry of `new T` is Nullable exactly when the allocation is null-checked. */
  lemma NewTopEntry(ast: Ast, l: Lattice, e: ExprId, nullChecked: bool)
    requires e !in l && WellTyped(ast, e, New(nullChecked))
    ensures Transfer(ast, l, e, New(nullChecked)).Ok?
    ensures var v := Transfer(ast, l, e, New(nullChecked)).value[e];
      |v| == CountPointers(ast.types(e)) && |v| > 0
      && (v[0] == Nullable <==> nullChecked) && (v[0] == NonNull <==> !nullChecked)
      && v[1..] == Annotations(ast.types(e), NoSubst())[1..]
  {
    PointerHasEntry(ast.types(e));
  }

  /** `this` is never null; the rest of its vector is its type's annotations. */
  lemma ThisIsNonNull(ast: Ast, l: Lattice, e: ExprId)
    requires e !in l && WellTyped(ast, e, This)
    ensures Transfer(ast, l, e, This).Ok?
    ensures var v := Transfer(ast, l, e, This).value[e];
      |v| > 0 && v[0] == NonNull && v[1..] == Annotations(ast.types(e), NoSubst())[1..]
  {
    PointerHasEntry(ast.types(e));
  }

  /** `p[i]` of a well-typed `p`: `p`'s vector without its top entry. */
  lemma SubscriptDropsFront(ast: Ast, l: Lattice, e: ExprId, base: ExprId)
    requires Consistent(ast.types, l) && e !in l && base in l
    requires WellSugared(ast.types(e)) && WellSugared(ast.types(base))
    requires Canon(ast.types(base)) == Pointer(Canon(ast.types(e)))
    ensures |l[base]| > 0
    ensures Transfer(ast, l, e, Subscript(base)) == Ok(l[e := l[base][1..]])
  {
    CountOfWellSugared(ast.types(e));
    CountOfWellSugared(ast.types(base));
  }

  /** A subscript whose base is not a pointer stops the analysis. */
  lemma SubscriptOfNonPointerAborts(ast: Ast, l: Lattice, e: ExprId, base: ExprId)
    requires e !in l && !Canon(ast.types(base)).Pointer?
    ensures Transfer(ast, l, e, Subscript(base)).Err?
  {
  }

  /**
   * A member call keeps the leading entries of the callee's vector, those
   * of the return type.
   */
  lemma MemberCallTakesReturnEntries(ast: Ast, l: Lattice, e: ExprId, callee: ExprId)
    requires e !in l && callee in l && CountPointers(ast.types(e)) <= |l[callee]|
    ensures Transfer(ast, l, e, MemberCall(callee)) == Ok(l[e := l[callee][..CountPointers(ast.types(e))]])
  {
    var n := CountPointers(ast.types(e));
    assert TakeFront(l[callee], n) == l[callee][..n];
  }

  // ---------------------------------------------------------------------
  // Members of class template specializations

  /**
   * A member whose type is a resugared parameter `P` of the base's
   * template stores the slice of the base's vector that holds `P`'s
   * argument, repaired only if its length disagrees with the member's type.
   */
  lemma MemberOfParameterIsSlice(ast: Ast, l: Lattice, e: ExprId, base: ExprId, st: Ty)
    requires e !in l && e != base
    requires ResugarsParameter(ast, ChildNullability(ast, l, base).v, ast.types(base), st)
    ensures var b := ChildNullability(ast, l, base);
      var args := Canon(ast.types(base)).args;
      var start := CountOpt(Canon(ast.types(base)).enclosing) + CountEach(args[..st.index]);
      var v := b.v[start..start + CountArg(args[st.index])];
      Transfer(ast, l, e, Member(base, st)) == Ok(b.lattice[e := Normalize(v, CountPointers(ast.types(e)))])
  {
  }

  /**
   * A member of type `P *`, with or without a written nullability, for a
   * resugared parameter `P`: the written nullability (Unspecified if none)
   * on top of `P`'s slice of the base's vector.
   */
  lemma MemberPointerToParameter(ast: Ast, l: Lattice, e: ExprId, base: ExprId, nk: Option<NK>, st: Ty)
    requires e !in l && e != base
    requires ResugarsParameter(ast, ChildNullability(ast, l, base).v, ast.types(base), st)
    ensures var b := ChildNullability(ast, l, base);
      var args := Canon(ast.types(base)).args;
      var start := CountOpt(Canon(ast.types(base)).enclosing) + CountEach(args[..st.index]);
      var v := [nk.GetOr(Unspecified)] + b.v[start..start + CountArg(args[st.index])];
      Transfer(ast, l, e, Member(base, Attributed(nk, Pointer(st))))
        == Ok(b.lattice[e := Normalize(v, CountPointers(ast.types(e)))])
  {
    var b := ChildNullability(ast, l, base);
    var cb := ClassTemplateCallback(ast, b.v, ast.types(base));
    assert cb(st) == ClassTemplateSlice(ast, b.v, ast.types(base), st);
    var w := Walk(st, None, NoCtx, cb, ResolutionFuel);
    assert w.reports == ClassTemplateSlice(ast, b.v, ast.types(base), st).value;
    assert Walk(Pointer(st), nk, NoCtx, cb, ResolutionFuel).reports == [nk.GetOr(Unspecified)] + w.reports;
    assert Annotations(Attributed(nk, Pointer(st)), cb) == [nk.GetOr(Unspecified)] + w.reports;
  }

  /** `pair<int *, int * _Nonnull>`, and the member type `S * _Nullable` of the example. */
  const PairOfIntPtrs: Ty := Record(PairDecl, None, true, [TypeArg(IntPtr), TypeArg(Attributed(Some(NonNull), IntPtr))])
  const SecondParam: Ty := Subst(PairDecl, 1, None, Attributed(Some(NonNull), IntPtr))

  /** Canonically both arguments are `int *`, one pointer each. */
  lemma PairOfIntPtrsCounts()
    ensures Canon(PairOfIntPtrs) == Record(PairDecl, None, true, [TypeArg(IntPtr), TypeArg(IntPtr)])
    ensures var args := Canon(PairOfIntPtrs).args;
      CountOpt(None) + CountEach(args[..1]) == 1 && CountArg(args[1]) == 1
  {
    var written := [TypeArg(IntPtr), TypeArg(Attributed(Some(NonNull), IntPtr))];
    assert written[1..] == [TypeArg(Attributed(Some(NonNull), IntPtr))];
    assert written[1..][1..] == [];
    assert CanonArgs(written[1..]) == [TypeArg(IntPtr)];
    assert CanonArgs(written) == [TypeArg(IntPtr)] + CanonArgs(written[1..]);
    var args := [TypeArg(IntPtr), TypeArg(IntPtr)];
    assert CountArg(TypeArg(IntPtr)) == 1;
    assert args[..1] == [TypeArg(IntPtr)] && [TypeArg(IntPtr)][1..] == [];
  }

  lemma NullablePtrToSecondCount()
    ensures CountPointers(Attributed(Some(Nullable), Pointer(SecondParam))) == 2
  {
    assert CountPointers(IntPtr) == 1;
  }

  /**
   * The documented example: for `pair<int *, int * _Nonnull> x`, the
   * member `S * _Nullable getNullablePtrToSecond()` of `x` gets
   * `[_Nullable, _Nonnull]`, the second entry being `S`'s slice of x's
   * vector.
   */
  lemma PairMemberExample(ast: Ast, l: Lattice, e: ExprId, base: ExprId)
    requires e !in l && e != base && base in l && l[base] == [Unspecified, NonNull]
    requires ast.types(base) == PairOfIntPtrs && !ast.partialPattern(PairDecl)
    requires ast.types(e) == Attributed(Some(Nullable), Pointer(SecondParam))
    ensures Transfer(ast, l, e, Member(base, ast.types(e))) == Ok(l[e := [Nullable, NonNull]])
  {
    PairOfIntPtrsCounts();
    NullablePtrToSecondCount();
    var b := ChildNullability(ast, l, base);
    assert b.v == l[base] && b.lattice == l;
    assert ResugarsParameter(ast, b.v, ast.types(base), SecondParam);
    MemberPointerToParameter(ast, l, e, base, Some(Nullable), SecondParam);
    assert [Nullable] + l[base][1..2] == [Nullable, NonNull];
  }

  // ---------------------------------------------------------------------
  // Casts

  /** Casts between equivalent types copy the operand's vector. */
  lemma EquivalentCastCopies(ast: Ast, l: Lattice, e: ExprId, k: CastKind, sub: ExprId)
    requires RuleOf(k) == CopyChild
    requires e !in l && sub in l && |l[sub]| == CountPointers(ast.types(e))
    ensures Transfer(ast, l, e, Cast(k, sub)) == Ok(l[e := l[sub]])
  {
  }

  /** Casts to primitive values store all-Unspecified (empty for a pointer-free result). */
  lemma PrimitiveCastHasNoNullability(ast: Ast, l: Lattice, e: ExprId, k: CastKind, sub: ExprId)
    requires RuleOf(k) == NoPointers && e !in l
    ensures Transfer(ast, l, e, Cast(k, sub)) == Ok(l[e := AllUnspecified(CountPointers(ast.types(e)))])
  {
  }

  /** Array and function decay: NonNull on top of the operand's vector. */
  lemma DecayPrependsNonNull(ast: Ast, l: Lattice, e: ExprId, k: CastKind, sub: ExprId)
    requires RuleOf(k) == DecayRule && e !in l && sub in l
    requires |l[sub]| + 1 == CountPointers(ast.types(e))
    ensures Transfer(ast, l, e, Cast(k, sub)) == Ok(l[e := Prepend(NonNull, l[sub])])
  {
  }

  /** A null constant converted to a pointer is Nullable at the top. */
  lemma NullToPointerIsNullable(ast: Ast, l: Lattice, e: ExprId, sub: ExprId)
    requires e !in l && WellSugared(ast.types(e)) && Canon(ast.types(e)).Pointer?
    ensures Transfer(ast, l, e, Cast(NullToPointer, sub)).Ok?
    ensures var v := Transfer(ast, l, e, Cast(NullToPointer, sub)).value[e];
      |v| > 0 && v[0] == Nullable && v[1..] == Annotations(ast.types(e), NoSubst())[1..]
  {
    PointerHasEntry(ast.types(e));
    assert RuleOf(NullToPointer) == NullRule && !IsNullPtrType(ast.types(e));
    var n := Annotations(ast.types(e), NoSubst());
    assert CastNullability(ast, l, e, NullToPointer, sub) == Ok(Computed([Nullable] + n[1..], l));
  }

  /** A `dynamic_cast` to a pointer is Nullable at the top and Unspecified below. */
  lemma DynamicCastIsNullable(ast: Ast, l: Lattice, e: ExprId, sub: ExprId)
    requires e !in l && WellSugared(ast.types(e)) && Canon(ast.types(e)).Pointer?
    ensures Transfer(ast, l, e, Cast(Dynamic, sub)).Ok?
    ensures var v := Transfer(ast, l, e, Cast(Dynamic, sub)).value[e];
      |v| == CountPointers(ast.types(e)) && |v| > 0 && v[0] == Nullable
      && forall i :: 1 <= i < |v| ==> v[i] == Unspecified
  {
    PointerHasEntry(ast.types(e));
    assert RuleOf(Dynamic) == DynamicRule;
  }

  /**
   * Bit casts and class-hierarchy casts keep the operand's entries for the
   * outer pointer levels both canonical types share, and are Unspecified
   * below them.
   */
  lemma BitCastKeepsSharedLevels(ast: Ast, l: Lattice, e: ExprId, k: CastKind, sub: ExprId)
    requires RuleOf(k) == KeepSharedLevels && Consistent(ast.types, l) && e !in l && sub in l
    requires WellSugared(ast.types(e)) && WellSugared(ast.types(sub))
    ensures Transfer(ast, l, e, Cast(k, sub)).Ok?
    ensures var v := Transfer(ast, l, e, Cast(k, sub)).value[e];
      var shared := SharedPointerLevels(Canon(ast.types(sub)), Canon(ast.types(e)));
      |v| == CountPointers(ast.types(e)) && shared <= |v| && shared <= |l[sub]|
      && (forall i :: 0 <= i < shared ==> v[i] == l[sub][i])
      && (forall i :: shared <= i < |v| ==> v[i] == Unspecified)
  {
    KeepLevelsInRange(ast, l, e, sub);
    CountOfWellSugared(ast.types(e));
    CountOfWellSugared(ast.types(sub));
  }

  /** A dependent cast stops the analysis. */
  lemma DependentCastAborts(ast: Ast, l: Lattice, e: ExprId, sub: ExprId)
    requires e !in l
    ensures Transfer(ast, l, e, Cast(Dependent, sub)) == Err(DependentCastMsg)
  {
    assert RuleOf(Dependent) == DependentRule;
    assert CastNullability(ast, l, e, Dependent, sub) == Err(DependentCastMsg);
  }

  // ---------------------------------------------------------------------
  // Reading the result

  /**
   * After a well-typed `&x` is transferred, the pointer reads as NonNull
   * unless the expression's type carries its own non-Unspecified
   * nullability.
   */
  lemma AddrOfReadsNonNull(ast: Ast, l: Lattice, e: ExprId, sub: ExprId)
    requires Consistent(ast.types, l) && e !in l && sub in l
    requires WellSugared(ast.types(e)) && WellSugared(ast.types(sub))
    requires Canon(ast.types(e)) == Pointer(Canon(ast.types(sub)))
    requires TypeOwnNullability(ast.types(e)).GetOr(Unspecified) == Unspecified
    ensures Transfer(ast, l, e, Unary(AddrOf, sub)).Ok?
    ensures PointerNullability(ast.types(e), Transfer(ast, l, e, Unary(AddrOf, sub)).value, e) == NonNull
  {
    AddrOfPrependsNonNull(ast, l, e, sub);
  }
}
