/**
 * Properties of the older analysis: where its annotation visitor and its
 * pointer count agree and where they do not, what each of its transfer
 * rules stores, the two worked examples its documentation gives, and the
 * unchecked dereferences of its function-template callback.
 */
module NullabilityLegacyProps {
  import opened Wrappers
  import opened NullTypes
  import opened NullabilityLattice
  import opened NullabilityLegacy
  import T = NullabilityTransfer

  // ---------------------------------------------------------------------
  // Annotations against the pointer count

  /**
   * The types whose every pointer the annotation visitor reaches: no
   * typedef, substituted parameter or alias template on the way, no class
   * template specialization other than a written one without defaulted
   * arguments, and a nullability attribute only directly on a pointer.
   */
  predicate Plain(t: Ty)
    decreases t
  {
    match t
    case Builtin(_) => true
    case Reference(_, _) => true
    case Array(_) => true
    case Function(_, _) => true
    case Record(_, _, spec, _) => !spec
    case Pointer(p) => Plain(p)
    case Attributed(Some(_), Pointer(p)) => Plain(p)
    case Attributed(None, m) => Plain(m)
    case Elaborated(_, n) => Plain(n)
    case ClassSpec(_, _, written, defaults) => defaults == [] && PlainArgs(written)
    case _ => false
  }

  predicate PlainArgs(args: seq<TArg>)
    decreases args
  {
    |args| == 0 || (PlainArg(args[0]) && PlainArgs(args[1..]))
  }

  predicate PlainArg(a: TArg)
    decreases a
  {
    a.TypeArg? ==> Plain(a.ty)
  }

  /** On a plain type the visitor yields one entry per counted pointer. */
  lemma {:induction false} AnnotationsMatchCount(t: Ty)
    requires Plain(t)
    ensures |Annotations(t)| == CountPointers(t)
    decreases t
  {
    match t
    case Builtin(_) =>
    case Reference(_, _) =>
    case Array(_) =>
    case Function(_, _) =>
    case Record(_, _, _, _) =>
    case Pointer(p) => AnnotationsMatchCount(p);
    case Attributed(Some(k), Pointer(p)) =>
      assert Annotations(t) == [k] + Annotations(p);
      assert Canon(t) == Pointer(Canon(p));
      AnnotationsMatchCount(p);
    case Attributed(None, m) => AnnotationsMatchCount(m);
    case Elaborated(_, n) => AnnotationsMatchCount(n);
    case ClassSpec(d, e, written, _) =>
      assert CanonArgs(written) + CanonArgs([]) == CanonArgs(written);
      ArgAnnotationsMatchCount(written);
  }

  lemma {:induction false} ArgAnnotationsMatchCount(args: seq<TArg>)
    requires PlainArgs(args)
    ensures |ArgAnnotations(args)| == CountCanonicalArgs(CanonArgs(args))
    decreases args
  {
    if |args| > 0 {
      var c := CanonArgs(args);
      assert c[0] == CanonArg(args[0]) && c[1..] == CanonArgs(args[1..]);
      ArgAnnotationMatchesCount(args[0]);
      ArgAnnotationsMatchCount(args[1..]);
    }
  }

  lemma {:induction false} ArgAnnotationMatchesCount(a: TArg)
    requires PlainArg(a)
    ensures |ArgAnnotation(a)| == CountArg(CanonArg(a))
    decreases a
  {
    if a.TypeArg? {
      AnnotationsMatchCount(a.ty);
    }
  }

  /**
   * A pointer behind a typedef is counted but not annotated: the visitor
   * has no case for typedef sugar.
   */
  lemma TypedefPointerIsNotAnnotated()
    ensures Annotations(Sugar(Pointer(Builtin("int")))) == []
    ensures CountPointers(Sugar(Pointer(Builtin("int")))) == 1
  {
  }

  /**
   * The type arguments of a class template specialization are counted but
   * not annotated once the type is canonical.
   */
  lemma SpecializationRecordIsNotAnnotated(d: nat)
    ensures Annotations(Record(d, None, true, [TypeArg(IntPtr)])) == []
    ensures CountPointers(Record(d, None, true, [TypeArg(IntPtr)])) == 1
  {
    OneIntPtrArg();
  }

  /** The canonical `<int *>` has one pointer. */
  lemma OneIntPtrArg()
    ensures CanonArgs([TypeArg(IntPtr)]) == [TypeArg(IntPtr)]
    ensures CountCanonicalArgs([TypeArg(IntPtr)]) == 1
  {
    var a := [TypeArg(IntPtr)];
    assert a[1..] == [];
    assert CountArg(a[0]) == 1;
  }

  // ---------------------------------------------------------------------
  // The substitution visitor against the annotation visitor

  /**
   * The types on which the substitution visitor has nothing to substitute:
   * no substituted parameter where it would ask the callback, and no
   * function type, whose parameters it skips.
   */
  predicate SubstFree(t: Ty)
    decreases t, 1
  {
    match t
    case Function(_, _) => false
    case Subst(_, _, _, _) => false
    case Pointer(p) => SubstFree(p)
    case Elaborated(_, n) => SubstFree(n)
    case AliasSpec(_, _, args, _) => SubstFreeArgs(args)
    case ClassSpec(_, _, written, _) => SubstFreeArgs(written)
    case Attributed(Some(_), m) => SubstFreePointee(m)
    case Attributed(None, m) => SubstFree(m)
    case _ => true
  }

  predicate SubstFreePointee(m: Ty)
    decreases m, 0
  {
    match m
    case Pointer(p) => SubstFree(p)
    case Attributed(_, inner) => SubstFreePointee(inner)
    case Sugar(u) => SubstFreePointee(u)
    case AliasSpec(_, _, _, a) => SubstFreePointee(a)
    case Elaborated(_, n) => SubstFreePointee(n)
    case Subst(_, _, _, r) => SubstFreePointee(r)
    case _ => true
  }

  predicate SubstFreeArgs(args: seq<TArg>)
    decreases args
  {
    |args| == 0 || (SubstFreeArg(args[0]) && SubstFreeArgs(args[1..]))
  }

  predicate SubstFreeArg(a: TArg)
    decreases a
  {
    a.TypeArg? ==> SubstFree(a.ty)
  }

  /**
   * With nothing to substitute the two visitors agree, whatever the
   * callback would have answered.
   */
  lemma {:induction false} SubstAgreesWithAnnotations(t: Ty, cb: Ty -> Annotated)
    requires SubstFree(t)
    ensures SubstAnnotations(t, cb) == Ok(Annotations(t))
    decreases t, 1
  {
    match t
    case Pointer(p) => SubstAgreesWithAnnotations(p, cb);
    case Elaborated(_, n) => SubstAgreesWithAnnotations(n, cb);
    case AliasSpec(_, _, args, _) => SubstArgsAgree(args, cb);
    case ClassSpec(_, _, written, _) => SubstArgsAgree(written, cb);
    case Attributed(Some(_), m) => SubstPointeeAgrees(m, cb);
    case Attributed(None, m) => SubstAgreesWithAnnotations(m, cb);
    case _ =>
  }

  lemma {:induction false} SubstPointeeAgrees(m: Ty, cb: Ty -> Annotated)
    requires SubstFreePointee(m)
    ensures SubstAnnotatedPointee(m, cb) == Ok(AnnotatedPointee(m))
    decreases m, 0
  {
    match m
    case Pointer(p) => SubstAgreesWithAnnotations(p, cb);
    case Attributed(_, inner) => SubstPointeeAgrees(inner, cb);
    case Sugar(u) => SubstPointeeAgrees(u, cb);
    case AliasSpec(_, _, _, a) => SubstPointeeAgrees(a, cb);
    case Elaborated(_, n) => SubstPointeeAgrees(n, cb);
    case Subst(_, _, _, r) => SubstPointeeAgrees(r, cb);
    case _ =>
  }

  lemma {:induction false} SubstArgsAgree(args: seq<TArg>, cb: Ty -> Annotated)
    requires SubstFreeArgs(args)
    ensures SubstArgAnnotations(args, cb) == Ok(ArgAnnotations(args))
    decreases args
  {
    if |args| > 0 {
      SubstArgAgrees(args[0], cb);
      SubstArgsAgree(args[1..], cb);
    }
  }

  lemma {:induction false} SubstArgAgrees(a: TArg, cb: Ty -> Annotated)
    requires SubstFreeArg(a)
    ensures SubstArgAnnotation(a, cb) == Ok(ArgAnnotation(a))
    decreases a
  {
    if a.TypeArg? {
      SubstAgreesWithAnnotations(a.ty, cb);
    }
  }

  // ---------------------------------------------------------------------
  // Transfer rules

  /** A reference to a declaration stores the annotations of its type. */
  lemma DeclRefStoresAnnotations(ast: Ast, l: Lattice, e: ExprId, calls: CallCallback)
    requires e !in l
    ensures Transfer(ast, l, e, DeclRef, calls) == Ok(l[e := Annotations(ast.types(e))])
  {
  }

  /** Taking an address puts NonNull in front of the operand's vector. */
  lemma AddrOfPrependsNonNull(ast: Ast, l: Lattice, e: ExprId, sub: ExprId, calls: CallCallback)
    requires e !in l && sub in l
    ensures Transfer(ast, l, e, Unary(T.AddrOf, sub), calls) == Ok(l[e := Prepend(NonNull, l[sub])])
  {
  }

  /**
   * A dereference drops the operand's top entry; an operand with an empty
   * vector falls back to one Unspecified per pointer of the result.
   */
  lemma DerefDropsFrontOrFallsBack(ast: Ast, l: Lattice, e: ExprId, sub: ExprId, calls: CallCallback)
    requires e !in l && sub in l
    ensures |l[sub]| > 0 ==> Transfer(ast, l, e, Unary(T.Deref, sub), calls) == Ok(l[e := l[sub][1..]])
    ensures |l[sub]| == 0 ==>
      Transfer(ast, l, e, Unary(T.Deref, sub), calls) == Ok(l[e := UnspecifiedNullability(ast.types(e))])
  {
  }

  /** `*&x` gets back the vector of `x`. */
  lemma DerefAfterAddrOf(ast: Ast, l: Lattice, x: ExprId, a: ExprId, d: ExprId, calls: CallCallback)
    requires x in l && a !in l && d !in l && a != d
    ensures Transfer(ast, l, a, Unary(T.AddrOf, x), calls).Ok?
    ensures var l1 := Transfer(ast, l, a, Unary(T.AddrOf, x), calls).value;
      Transfer(ast, l1, d, Unary(T.Deref, a), calls) == Ok(l1[d := l[x]])
  {
    AddrOfPrependsNonNull(ast, l, a, x, calls);
    var l1 := l[a := Prepend(NonNull, l[x])];
    assert l1[a][1..] == l[x];
  }

  /** The rules that pass their child's vector through store it unchanged. */
  lemma CopyingRulesCopy(ast: Ast, l: Lattice, e: ExprId, node: Node, sub: ExprId, calls: CallCallback)
    requires e !in l && sub in l
    requires node == Cast(sub) || node == MaterializeTemporary(sub) || node == MemberCall(sub)
      || (node.Unary? && node.sub == sub && !(node.op.AddrOf? || node.op.Deref? || node.op.Coawait?))
    ensures Transfer(ast, l, e, node, calls) == Ok(l[e := l[sub]])
  {
  }

  /** A child with no vector yet gets, and passes on, one Unspecified per pointer. */
  lemma MissingChildIsUnspecified(ast: Ast, l: Lattice, e: ExprId, sub: ExprId, calls: CallCallback)
    requires e !in l && sub !in l && e != sub
    ensures var u := UnspecifiedNullability(ast.types(sub));
      Transfer(ast, l, e, Cast(sub), calls) == Ok(l[sub := u][e := u])
  {
  }

  /** `co_await` is Unspecified throughout and does not look at its operand. */
  lemma CoawaitIsUnspecified(ast: Ast, l: Lattice, e: ExprId, sub: ExprId, calls: CallCallback)
    requires e !in l
    ensures Transfer(ast, l, e, Unary(T.Coawait, sub), calls) == Ok(l[e := UnspecifiedNullability(ast.types(e))])
  {
  }

  /**
   * Nothing checks the stored vector's length: a reference to a typedef'd
   * pointer stores no entry although its type has a pointer.
   */
  lemma StoresUncheckedLength(ast: Ast, l: Lattice, e: ExprId, calls: CallCallback)
    requires e !in l && ast.types(e) == Sugar(Pointer(Builtin("int")))
    ensures Transfer(ast, l, e, DeclRef, calls).Ok?
    ensures |Transfer(ast, l, e, DeclRef, calls).value[e]| == 0 != CountPointers(ast.types(e))
  {
    TypedefPointerIsNotAnnotated();
  }

  // ---------------------------------------------------------------------
  // The documented examples

  lemma ConsOne(k: NK, v: seq<NK>)
    ensures Cons(k, Ok(v)) == Ok([k] + v)
  {
    assert Cons(k, Ok(v)).value == [k] + v;
  }

  lemma ConcatOk(u: seq<NK>, w: seq<NK>)
    ensures Concat(Ok(u), Ok(w)) == Ok(u + w)
  {
    assert Concat(Ok(u), Ok(w)).value == u + w;
  }

  /**
   * `pair<int *, int * _Nonnull> x; x.getNullablePtrToSecond()`, where the
   * member returns `S * _Nullable`: the member expression's vector is
   * `[_Nullable, _Nonnull]`, the second entry taken from the base's slice
   * for `S`.
   */
  lemma PairMemberExample(ast: Ast, l: Lattice, e: ExprId, base: ExprId, calls: CallCallback)
    requires e !in l && base in l && l[base] == [Unspecified, NonNull]
    requires ast.types(base) == Record(PairDecl, None, true, [TypeArg(IntPtr), TypeArg(IntPtr)])
    ensures var s := Subst(PairDecl, 1, None, Attributed(Some(NonNull), IntPtr));
      Transfer(ast, l, e, Member(base, Attributed(Some(Nullable), Pointer(s))), calls)
        == Ok(l[e := [Nullable, NonNull]])
  {
    var args := [TypeArg(IntPtr), TypeArg(IntPtr)];
    OneIntPtrArg();
    assert args[1..] == [TypeArg(IntPtr)];
    assert CanonArgs(args) == args;
    assert Canon(ast.types(base)) == Record(PairDecl, None, true, args);
    assert args[..1] == [TypeArg(IntPtr)];
    assert CountBefore(args, 1) == 1 && CountArg(args[1]) == 1;
    var s := Subst(PairDecl, 1, None, Attributed(Some(NonNull), IntPtr));
    assert l[base][1..2] == [NonNull];
    assert ClassSlice(ast, l[base], ast.types(base), s) == Ok(l[base][1..2]);
    var cb := ClassCallback(ast, l[base], ast.types(base));
    var mt := Attributed(Some(Nullable), Pointer(s));
    assert SubstAnnotations(mt, cb) == Cons(Nullable, Ok([NonNull]));
    ConsOne(Nullable, [NonNull]);
    var r := Transfer(ast, l, e, Member(base, mt), calls);
    assert r.Ok? && r.value[e] == [Nullable, NonNull];
    assert r.value == l[e := [Nullable, NonNull]];
  }

  const FlipDecl: nat := 2

  /** `int * _Nonnull` and the like: one entry, the written kind. */
  lemma AnnotatedIntPtr(k: NK)
    ensures Annotations(Attributed(Some(k), IntPtr)) == [k]
  {
    assert AnnotatedPointee(IntPtr) == Annotations(Builtin("int")) == [];
  }

  /**
   * `flip<int * _Nonnull, int * _Nullable>(...)` returning
   * `std::pair<S, F>`: the call's vector is `[_Nullable, _Nonnull]`, each
   * entry the annotation of the explicit argument the parameter stands for,
   * with either callback.
   */
  lemma FlipCallExample(ast: Ast, l: Lattice, e: ExprId, calls: CallCallback)
    requires e !in l && ast.depth(FlipDecl) == 0
    requires ast.types(e) == ClassSpec(PairDecl, None,
      [TypeArg(Subst(FlipDecl, 1, None, IntPtr)), TypeArg(Subst(FlipDecl, 0, None, IntPtr))], [])
    ensures Transfer(ast, l, e, Call(Some(Callee(Some([
        Some(Attributed(Some(NonNull), IntPtr)), Some(Attributed(Some(Nullable), IntPtr))])))), calls)
      == Ok(l[e := [Nullable, NonNull]])
  {
    var target := Some(Callee(Some([Some(Attributed(Some(NonNull), IntPtr)), Some(Attributed(Some(Nullable), IntPtr))])));
    var cb := FunctionCallbackAsWritten(ast, target);
    var written := [TypeArg(Subst(FlipDecl, 1, None, IntPtr)), TypeArg(Subst(FlipDecl, 0, None, IntPtr))];
    AnnotatedIntPtr(Nullable);
    AnnotatedIntPtr(NonNull);
    assert FunctionArgAsWritten(ast, target, Subst(FlipDecl, 1, None, IntPtr)) == Ok([Nullable]);
    assert FunctionArgAsWritten(ast, target, Subst(FlipDecl, 0, None, IntPtr)) == Ok([NonNull]);
    assert written[1..][1..] == [];
    ConcatOk([NonNull], []);
    assert SubstArgAnnotations(written[1..], cb) == Ok([NonNull]);
    assert SubstArgAnnotation(written[0], cb) == Ok([Nullable]);
    ConcatOk([Nullable], [NonNull]);
    assert [Nullable] + [NonNull] == [Nullable, NonNull];
    assert SubstArgAnnotations(written, cb) == Ok([Nullable, NonNull]);
    var r := Transfer(ast, l, e, Call(target), AsWritten);
    assert r.Ok? && r.value[e] == [Nullable, NonNull];
    assert r.value == l[e := [Nullable, NonNull]];
    TransferAgrees(ast, l, e, Call(target));
  }

  // ---------------------------------------------------------------------
  // The function-template callback

  /** Where the callback as written completes, it answers what the checked one does. */
  lemma FunctionArgAgrees(ast: Ast, callee: Option<Callee>, st: Ty)
    ensures FunctionArgAsWritten(ast, callee, st).Ok? ==>
      FunctionArgAsWritten(ast, callee, st).value == FunctionArg(ast, callee, st)
  {
  }

  /** `a` answers like `b` wherever `a` completes. */
  ghost predicate Refines(a: Ty -> Annotated, b: Ty -> Annotated) {
    forall st :: a(st).Ok? ==> a(st) == b(st)
  }

  /** A visit with a refining callback completes only with the other callback's answer. */
  lemma {:induction false} SubstRefines(t: Ty, a: Ty -> Annotated, b: Ty -> Annotated)
    requires Refines(a, b)
    ensures SubstAnnotations(t, a).Ok? ==> SubstAnnotations(t, a) == SubstAnnotations(t, b)
    decreases t, 1
  {
    match t
    case Function(ret, _) => SubstRefines(ret, a, b);
    case Subst(_, _, _, _) =>
    case Pointer(p) => SubstRefines(p, a, b);
    case Elaborated(_, n) => SubstRefines(n, a, b);
    case AliasSpec(_, _, args, _) => SubstArgsRefine(args, a, b);
    case ClassSpec(_, _, written, _) => SubstArgsRefine(written, a, b);
    case Attributed(Some(k), m) => SubstPointeeRefines(m, a, b);
    case Attributed(None, m) => SubstRefines(m, a, b);
    case _ =>
  }

  lemma {:induction false} SubstPointeeRefines(m: Ty, a: Ty -> Annotated, b: Ty -> Annotated)
    requires Refines(a, b)
    ensures SubstAnnotatedPointee(m, a).Ok? ==> SubstAnnotatedPointee(m, a) == SubstAnnotatedPointee(m, b)
    decreases m, 0
  {
    match m
    case Pointer(p) => SubstRefines(p, a, b);
    case Attributed(_, inner) => SubstPointeeRefines(inner, a, b);
    case Sugar(u) => SubstPointeeRefines(u, a, b);
    case AliasSpec(_, _, _, x) => SubstPointeeRefines(x, a, b);
    case Elaborated(_, n) => SubstPointeeRefines(n, a, b);
    case Subst(_, _, _, r) => SubstPointeeRefines(r, a, b);
    case _ =>
  }

  lemma {:induction false} SubstArgsRefine(args: seq<TArg>, a: Ty -> Annotated, b: Ty -> Annotated)
    requires Refines(a, b)
    ensures SubstArgAnnotations(args, a).Ok? ==> SubstArgAnnotations(args, a) == SubstArgAnnotations(args, b)
    decreases args
  {
    if |args| > 0 {
      SubstArgRefines(args[0], a, b);
      SubstArgsRefine(args[1..], a, b);
    }
  }

  lemma {:induction false} SubstArgRefines(x: TArg, a: Ty -> Annotated, b: Ty -> Annotated)
    requires Refines(a, b)
    ensures SubstArgAnnotation(x, a).Ok? ==> SubstArgAnnotation(x, a) == SubstArgAnnotation(x, b)
    decreases x
  {
    if x.TypeArg? {
      SubstRefines(x.ty, a, b);
    }
  }

  /**
   * The transfer as written and with the checked callback differ only
   * where the one as written stops the analysis: wherever it completes,
   * it stores what the checked one does.
   */
  lemma TransferAgrees(ast: Ast, l: Lattice, e: ExprId, node: Node)
    ensures Transfer(ast, l, e, node, AsWritten).Ok? ==>
      Transfer(ast, l, e, node, AsWritten) == Transfer(ast, l, e, node, Checked)
  {
    if node.Call? && e !in l {
      var a := FunctionCallbackAsWritten(ast, node.target);
      var b := FunctionCallback(ast, node.target);
      forall st | a(st).Ok? ensures a(st) == b(st) {
        FunctionArgAgrees(ast, node.target, st);
      }
      SubstRefines(ast.types(e), a, b);
    }
  }

  const FieldStruct: nat := 3

  /**
   * `template <class T> struct S { T *(*fp)(); };` then `s.fp()` on an
   * `S<int>`: the callee is a member expression, not a `DeclRefExpr`, so
   * the transfer as written dereferences null for the depth-0 parameter
   * `T`; with the checked callback the call gets one Unspecified for its
   * pointer.
   */
  lemma CallThroughFieldDereferencesNull(ast: Ast, l: Lattice, e: ExprId)
    requires ast.depth(FieldStruct) == 0 && e !in l
    requires ast.types(e) == Pointer(Subst(FieldStruct, 0, None, Builtin("int")))
    ensures Transfer(ast, l, e, Call(None), AsWritten) == Err(NullDerefMsg)
    ensures Transfer(ast, l, e, Call(None), Checked) == Ok(l[e := [Unspecified]])
  {
    var s := Subst(FieldStruct, 0, None, Builtin("int"));
    var cb := FunctionCallback(ast, None);
    assert FunctionArg(ast, None, s) == [];
    assert cb(s) == Ok([]);
    assert SubstAnnotations(s, cb) == Ok([]);
    assert SubstAnnotations(Pointer(s), cb) == Cons(Unspecified, Ok([]));
    ConsOne(Unspecified, []);
    assert SubstAnnotations(Pointer(s), cb).value == [Unspecified];
  }

  const TwoParamDecl: nat := 4

  /**
   * `template <class T, class U> U *f(T, U); f<int>(0, p)` with `p` an
   * `int *`: `U` is deduced, so its index 1 is past the one explicit
   * argument, which the transfer as written reads anyway. With the checked
   * callback `U` contributes no entries, so the call stores one Unspecified
   * for the outer pointer although `U *` has two pointers: the older
   * analysis never repairs the length.
   */
  lemma DeducedArgumentReadsOutOfRange(ast: Ast, l: Lattice, e: ExprId)
    requires ast.depth(TwoParamDecl) == 0 && e !in l
    requires ast.types(e) == Pointer(Subst(TwoParamDecl, 1, None, IntPtr))
    ensures var callee := Some(Callee(Some([Some(Builtin("int"))])));
      Transfer(ast, l, e, Call(callee), AsWritten) == Err(InvalidIndexMsg)
      && Transfer(ast, l, e, Call(callee), Checked) == Ok(l[e := [Unspecified]])
  {
    var t := Pointer(Subst(TwoParamDecl, 1, None, IntPtr));
    var callee := Some(Callee(Some([Some(Builtin("int"))])));
    assert SubstAnnotations(t, FunctionCallback(ast, callee)) == Cons(Unspecified, Ok([]));
    ConsOne(Unspecified, []);
    assert SubstAnnotations(t, FunctionCallback(ast, callee)).value == [Unspecified];
  }
}
