/**
 * The older pointer-nullability analysis (the `nullability_verification`
 * variant): its own type visitors for annotations and pointer counts, its
 * template substitution with fallbacks, and its non-flow-sensitive
 * transfer rules, which store the computed vector without checking its
 * length.
 *
 * Its visitors dispatch on the exact kind of each type node and ignore
 * every kind they do not handle, so, unlike the newer walker, they do not
 * look through typedefs, references, arrays or function types.
 */
module NullabilityLegacy {
  import opened Wrappers
  import opened NullTypes
  import opened NullabilityLattice
  import T = NullabilityTransfer

  // ---------------------------------------------------------------------
  // Annotations

  /**
   * `GetNullabilityAnnotationsFromTypeVisitor`: Unspecified for a bare
   * pointer, the written kind for a nullability attribute, then the
   * pointee; the written type arguments of a template specialization in
   * order; nothing for any other kind of node.
   */
  function Annotations(t: Ty): (r: seq<NK>)
    decreases t
  {
    match t
    case Elaborated(_, n) => Annotations(n)
    case AliasSpec(_, _, args, _) => ArgAnnotations(args)
    case ClassSpec(_, _, written, _) => ArgAnnotations(written)
    case Attributed(Some(k), m) => [k] + AnnotatedPointee(m)
    case Attributed(None, m) => Annotations(m)
    case Pointer(p) => [Unspecified] + Annotations(p)
    case _ => []
  }

  /**
   * After a nullability attribute: the pointee of the pointer type the
   * modified type desugars to (`getAs<PointerType>`), or nothing when it is
   * not a pointer.
   */
  function AnnotatedPointee(m: Ty): seq<NK>
    decreases m
  {
    match m
    case Pointer(p) => Annotations(p)
    case Attributed(_, inner) => AnnotatedPointee(inner)
    case Sugar(u) => AnnotatedPointee(u)
    case AliasSpec(_, _, _, a) => AnnotatedPointee(a)
    case Elaborated(_, n) => AnnotatedPointee(n)
    case Subst(_, _, _, r) => AnnotatedPointee(r)
    case _ => []
  }

  /** Type arguments only: packs and non-type arguments are skipped. */
  function ArgAnnotations(args: seq<TArg>): seq<NK>
    decreases args
  {
    if |args| == 0 then []
    else ArgAnnotation(args[0]) + ArgAnnotations(args[1..])
  }

  function ArgAnnotation(a: TArg): seq<NK>
    decreases a
  {
    if a.TypeArg? then Annotations(a.ty) else []
  }

  // ---------------------------------------------------------------------
  // Pointer counts

  /**
   * `CountPointersInTypeVisitor` on a canonical type: one per pointer plus
   * its pointee, and the type arguments of a class template
   * specialization; every other node counts nothing.
   */
  function CountCanonical(t: Ty): nat
    decreases t
  {
    match t
    case Pointer(p) => 1 + CountCanonical(p)
    case Record(_, _, true, args) => CountCanonicalArgs(args)
    case _ => 0
  }

  function CountCanonicalArgs(args: seq<TArg>): nat
    decreases args
  {
    if |args| == 0 then 0 else CountArg(args[0]) + CountCanonicalArgs(args[1..])
  }

  /** `countPointersInType(TemplateArgument)`: a type argument's pointers, otherwise 0. */
  function CountArg(a: TArg): nat
    decreases a
  {
    if a.TypeArg? then CountCanonical(a.ty) else 0
  }

  /** `countPointersInType(QualType)`: counted on the canonical type. */
  function CountPointers(t: Ty): nat {
    CountCanonical(Canon(t))
  }

  /** `unspecifiedNullability`: one Unspecified per counted pointer. */
  function UnspecifiedNullability(t: Ty): (r: seq<NK>)
    ensures |r| == CountPointers(t) && forall i :: 0 <= i < |r| ==> r[i] == Unspecified
  {
    AllUnspecified(CountPointers(t))
  }

  // ---------------------------------------------------------------------
  // Template substitution

  /** A vector computation that may stop the analysis (`Err`). */
  type Annotated = Result<seq<NK>>

  /** `k` in front of a computed vector. */
  function Cons(k: NK, r: Annotated): Annotated {
    match r
    case Ok(v) => Ok([k] + v)
    case Err(m) => Err(m)
  }

  /** Two computed vectors one after the other; the first failure wins. */
  function Concat(a: Annotated, b: Annotated): Annotated {
    match a
    case Err(m) => Err(m)
    case Ok(u) => (match b case Err(m) => Err(m) case Ok(w) => Ok(u + w))
  }

  /**
   * `SubstituteNullabilityAnnotationsInTemplateVisitor`: like the
   * annotation visitor, but a function type contributes its return type
   * only, and a substituted template parameter contributes whatever the
   * callback answers (possibly nothing) instead of its replacement. A
   * callback that stops the analysis stops the whole visit.
   */
  function SubstAnnotations(t: Ty, cb: Ty -> Annotated): Annotated
    decreases t
  {
    match t
    case Function(ret, _) => SubstAnnotations(ret, cb)
    case Subst(_, _, _, _) => cb(t)
    case Pointer(p) => Cons(Unspecified, SubstAnnotations(p, cb))
    case Elaborated(_, n) => SubstAnnotations(n, cb)
    case AliasSpec(_, _, args, _) => SubstArgAnnotations(args, cb)
    case ClassSpec(_, _, written, _) => SubstArgAnnotations(written, cb)
    case Attributed(Some(k), m) => Cons(k, SubstAnnotatedPointee(m, cb))
    case Attributed(None, m) => SubstAnnotations(m, cb)
    case _ => Ok([])
  }

  function SubstAnnotatedPointee(m: Ty, cb: Ty -> Annotated): Annotated
    decreases m
  {
    match m
    case Pointer(p) => SubstAnnotations(p, cb)
    case Attributed(_, inner) => SubstAnnotatedPointee(inner, cb)
    case Sugar(u) => SubstAnnotatedPointee(u, cb)
    case AliasSpec(_, _, _, a) => SubstAnnotatedPointee(a, cb)
    case Elaborated(_, n) => SubstAnnotatedPointee(n, cb)
    case Subst(_, _, _, r) => SubstAnnotatedPointee(r, cb)
    case _ => Ok([])
  }

  function SubstArgAnnotations(args: seq<TArg>, cb: Ty -> Annotated): Annotated
    decreases args
  {
    if |args| == 0 then Ok([])
    else Concat(SubstArgAnnotation(args[0], cb), SubstArgAnnotations(args[1..], cb))
  }

  function SubstArgAnnotation(a: TArg, cb: Ty -> Annotated): Annotated
    decreases a
  {
    if a.TypeArg? then SubstAnnotations(a.ty, cb) else Ok([])
  }

  /** A callback that never stops the analysis cannot make the visit stop it. */
  lemma {:induction false} TotalCallbackNeverFails(t: Ty, cb: Ty -> Annotated)
    requires forall st :: cb(st).Ok?
    ensures SubstAnnotations(t, cb).Ok?
    decreases t, 1
  {
    match t
    case Function(ret, _) => TotalCallbackNeverFails(ret, cb);
    case Subst(_, _, _, _) =>
    case Pointer(p) => TotalCallbackNeverFails(p, cb);
    case Elaborated(_, n) => TotalCallbackNeverFails(n, cb);
    case AliasSpec(_, _, args, _) => TotalCallbackArgsNeverFail(args, cb);
    case ClassSpec(_, _, written, _) => TotalCallbackArgsNeverFail(written, cb);
    case Attributed(Some(k), m) => TotalCallbackPointeeNeverFails(m, cb);
    case Attributed(None, m) => TotalCallbackNeverFails(m, cb);
    case _ =>
  }

  lemma {:induction false} TotalCallbackPointeeNeverFails(m: Ty, cb: Ty -> Annotated)
    requires forall st :: cb(st).Ok?
    ensures SubstAnnotatedPointee(m, cb).Ok?
    decreases m, 0
  {
    match m
    case Pointer(p) => TotalCallbackNeverFails(p, cb);
    case Attributed(_, inner) => TotalCallbackPointeeNeverFails(inner, cb);
    case Sugar(u) => TotalCallbackPointeeNeverFails(u, cb);
    case AliasSpec(_, _, _, a) => TotalCallbackPointeeNeverFails(a, cb);
    case Elaborated(_, n) => TotalCallbackPointeeNeverFails(n, cb);
    case Subst(_, _, _, r) => TotalCallbackPointeeNeverFails(r, cb);
    case _ =>
  }

  lemma {:induction false} TotalCallbackArgsNeverFail(args: seq<TArg>, cb: Ty -> Annotated)
    requires forall st :: cb(st).Ok?
    ensures SubstArgAnnotations(args, cb).Ok?
    decreases args
  {
    if |args| > 0 {
      TotalCallbackArgNeverFails(args[0], cb);
      TotalCallbackArgsNeverFail(args[1..], cb);
    }
  }

  lemma {:induction false} TotalCallbackArgNeverFails(a: TArg, cb: Ty -> Annotated)
    requires forall st :: cb(st).Ok?
    ensures SubstArgAnnotation(a, cb).Ok?
    decreases a
  {
    if a.TypeArg? {
      TotalCallbackNeverFails(a.ty, cb);
    }
  }

  /**
   * The facts the legacy rules read: each expression's type and the depth
   * of the template parameters of each template declaration.
   */
  datatype Ast = Ast(types: ExprId -> Ty, depth: nat -> nat)

  const InvalidIndexMsg := "Invalid index!"
  const NullDerefMsg := "null pointer dereference"

  /** The pointers of the arguments before `index`. */
  function CountBefore(args: seq<TArg>, index: nat): nat
    requires index <= |args|
  {
    CountCanonicalArgs(args[..index])
  }

  /**
   * `substituteNullabilityAnnotationsInClassTemplate`'s callback: for a
   * parameter of the class template the base is a specialization of, the
   * slice of the base's vector after the pointers of the preceding
   * arguments, as long as the argument's pointers. It answers nothing when
   * the base is not a specialization, when a depth-0 parameter's index is
   * past the arguments, or when the base's vector is too short; an index
   * past the arguments at any other depth reads `TemplateArgs[ArgIndex]`
   * out of range (`Err`).
   */
  function ClassSlice(ast: Ast, base: seq<NK>, baseType: Ty, st: Ty): (r: Annotated)
    ensures r.Err? <==> (st.Subst? && Canon(baseType).Record? && Canon(baseType).isSpecialization
      && st.index >= |Canon(baseType).args| && ast.depth(st.associated) != 0)
    ensures r.Ok? && r.value != [] ==> (st.Subst? && Canon(baseType).Record?
      && Canon(baseType).isSpecialization && st.index < |Canon(baseType).args|)
    ensures r.Ok? && r.value != [] ==> var args := Canon(baseType).args;
      var start := CountBefore(args, st.index);
      start + CountArg(args[st.index]) <= |base| && r.value == base[start..start + CountArg(args[st.index])]
    // conversely, an in-range parameter whose slice lies in the vector is answered with the slice
    ensures (st.Subst? && Canon(baseType).Record? && Canon(baseType).isSpecialization
      && st.index < |Canon(baseType).args|
      && CountBefore(Canon(baseType).args, st.index) + CountArg(Canon(baseType).args[st.index]) <= |base|)
      ==> var args := Canon(baseType).args;
        var start := CountBefore(args, st.index);
        r == Ok(base[start..start + CountArg(args[st.index])])
  {
    match st
    case Subst(associated, index, _, _) =>
      (match Canon(baseType)
       case Record(_, _, true, args) =>
         if |args| <= index && ast.depth(associated) == 0 then Ok([])
         else if index >= |args| then Err(InvalidIndexMsg)
         else
           var start := CountBefore(args, index);
           var size := CountArg(args[index]);
           if |base| < start + size then Ok([]) else Ok(base[start..start + size])
       case _ => Ok([]))
    case _ => Ok([])
  }

  /** The class-template callback for a member of a base with vector `base`. */
  function ClassCallback(ast: Ast, base: seq<NK>, baseType: Ty): Ty -> Annotated {
    (st: Ty) => ClassSlice(ast, base, baseType, st)
  }

  /**
   * The callee of a call as the function-template callback reads it: a
   * `DeclRefExpr` (once implicit casts are skipped) with, if written, its
   * explicit template arguments, each with its written type if it has one;
   * `None` when the callee is some other expression.
   */
  datatype Callee = Callee(explicitArgs: Option<seq<Option<Ty>>>)

  /**
   * `substituteNullabilityAnnotationsInFunctionTemplate`'s callback AS
   * WRITTEN: for a depth-0 parameter it dereferences the callee as a
   * `DeclRefExpr` (null when it is not one), indexes the explicit arguments
   * without a bound, and dereferences the argument's type information; each
   * of these is `Err` here.
   */
  function FunctionArgAsWritten(ast: Ast, callee: Option<Callee>, st: Ty): (r: Annotated)
    ensures r.Err? <==> (st.Subst? && ast.depth(st.associated) == 0 && (callee.None? ||
      (callee.value.explicitArgs.Some? && (st.index >= |callee.value.explicitArgs.value|
        || callee.value.explicitArgs.value[st.index].None?))))
  {
    match st
    case Subst(associated, index, _, _) =>
      if ast.depth(associated) != 0 then Ok([])
      else
        (match callee
         case None => Err(NullDerefMsg)
         case Some(c) =>
           match c.explicitArgs
           case None => Ok([])
           case Some(args) =>
             if index >= |args| then Err(InvalidIndexMsg)
             else
               match args[index]
               case None => Err(NullDerefMsg)
               case Some(t) => Ok(Annotations(t)))
    case _ => Ok([])
  }

  /**
   * The function-template callback with every dereference checked: the
   * annotations of the explicitly written argument a depth-0 parameter
   * stands for, and nothing when there is no such argument.
   */
  function FunctionArg(ast: Ast, callee: Option<Callee>, st: Ty): (r: seq<NK>)
    ensures (st.Subst? && ast.depth(st.associated) == 0 && callee.Some? && callee.value.explicitArgs.Some?
      && st.index < |callee.value.explicitArgs.value| && callee.value.explicitArgs.value[st.index].Some?)
      ==> r == Annotations(callee.value.explicitArgs.value[st.index].value)
    ensures r != [] ==> (st.Subst? && ast.depth(st.associated) == 0 && callee.Some?
      && callee.value.explicitArgs.Some? && st.index < |callee.value.explicitArgs.value|
      && callee.value.explicitArgs.value[st.index].Some?)
  {
    match st
    case Subst(associated, index, _, _) =>
      if ast.depth(associated) != 0 then []
      else
        (match callee
         case None => []
         case Some(c) =>
           match c.explicitArgs
           case None => []
           case Some(args) =>
             if index >= |args| then []
             else
               match args[index]
               case None => []
               case Some(t) => Annotations(t))
    case _ => []
  }

  function FunctionCallbackAsWritten(ast: Ast, callee: Option<Callee>): Ty -> Annotated {
    (st: Ty) => FunctionArgAsWritten(ast, callee, st)
  }

  /** The function-template callback the transfer rule uses; it never stops the analysis. */
  function FunctionCallback(ast: Ast, callee: Option<Callee>): (cb: Ty -> Annotated)
    ensures forall st :: cb(st) == Ok(FunctionArg(ast, callee, st))
  {
    (st: Ty) => Ok(FunctionArg(ast, callee, st))
  }

  // ---------------------------------------------------------------------
  // Transfer rules

  /**
   * The expression kinds with a legacy non-flow-sensitive rule, in the
   * order the rules are tried (a member call is matched before the general
   * call); `Other` has none.
   */
  datatype Node =
    | DeclRef
    | Member(base: ExprId, memberType: Ty)
    | MemberCall(callee: ExprId)
    | Cast(sub: ExprId)
    | MaterializeTemporary(sub: ExprId)
    | Call(target: Option<Callee>)
    | Unary(op: T.UnaryOp, sub: ExprId)
    | Other

  /** `getNullabilityForChild`, with the legacy count for a missing child. */
  function ChildNullability(ast: Ast, l: Lattice, c: ExprId): (r: T.Computed)
    ensures c in r.lattice && r.lattice[c] == r.v
    ensures Keeps(l, r.lattice) && r.lattice.Keys == l.Keys + {c}
    ensures c in l ==> r.v == l[c] && r.lattice == l
    ensures c !in l ==> r.v == UnspecifiedNullability(ast.types(c))
  {
    var p := LookupOrInsert(l, c, UnspecifiedNullability(ast.types(c)));
    T.Computed(p.0, p.1)
  }

  /** `transferNonFlowSensitiveUnaryOperator`'s computation. */
  function UnaryNullability(ast: Ast, l: Lattice, e: ExprId, op: T.UnaryOp, sub: ExprId): (r: T.Computed)
    ensures Keeps(l, r.lattice)
  {
    match op
    case AddrOf =>
      var c := ChildNullability(ast, l, sub);
      T.Computed(Prepend(NonNull, c.v), c.lattice)
    case Deref =>
      var c := ChildNullability(ast, l, sub);
      if |c.v| > 0 then T.Computed(c.v[1..], c.lattice)
      else T.Computed(UnspecifiedNullability(ast.types(e)), c.lattice)
    case Coawait => T.Computed(UnspecifiedNullability(ast.types(e)), l)
    case _ => ChildNullability(ast, l, sub)
  }

  /**
   * Which function-template callback the call rule hands to the
   * substitution: the one `substituteNullabilityAnnotationsInFunctionTemplate`
   * builds (`AsWritten`), or the one with every dereference checked
   * (`Checked`).
   */
  datatype CallCallback = AsWritten | Checked

  /**
   * The vector of `e` by its rule, with the lattice as the children's
   * lookups left it. A member access stops the analysis when the
   * class-template callback does, and a call when the callback as written
   * does; nothing else stops it.
   */
  function Compute(ast: Ast, l: Lattice, e: ExprId, node: Node, calls: CallCallback): (r: Result<T.Computed>)
    requires !node.Other?
    ensures r.Ok? ==> Keeps(l, r.value.lattice)
    ensures r.Err? ==> node.Member? || (node.Call? && calls == AsWritten)
    ensures node.Call? ==> (r.Err? <==>
      calls == AsWritten && SubstAnnotations(ast.types(e), FunctionCallbackAsWritten(ast, node.target)).Err?)
  {
    var t := ast.types(e);
    match node
    case DeclRef => Ok(T.Computed(Annotations(t), l))
    case Member(base, memberType) =>
      var b := ChildNullability(ast, l, base);
      var v := SubstAnnotations(memberType, ClassCallback(ast, b.v, ast.types(base)));
      if v.Err? then Err(v.error) else Ok(T.Computed(v.value, b.lattice))
    case MemberCall(callee) => Ok(ChildNullability(ast, l, callee))
    case Cast(sub) => Ok(ChildNullability(ast, l, sub))
    case MaterializeTemporary(sub) => Ok(ChildNullability(ast, l, sub))
    case Call(target) =>
      (match calls
       case Checked =>
         TotalCallbackNeverFails(t, FunctionCallback(ast, target));
         Ok(T.Computed(SubstAnnotations(t, FunctionCallback(ast, target)).value, l))
       case AsWritten =>
         var v := SubstAnnotations(t, FunctionCallbackAsWritten(ast, target));
         if v.Err? then Err(v.error) else Ok(T.Computed(v.value, l)))
    case Unary(op, sub) => Ok(UnaryNullability(ast, l, e, op, sub))
  }

  /**
   * `insertExprNullabilityIfAbsent` with the node's rule; the vector is
   * stored as computed, whatever its length. `Err` when the rule stops the
   * analysis.
   */
  function Transfer(ast: Ast, l: Lattice, e: ExprId, node: Node, calls: CallCallback): (r: Result<Lattice>)
    ensures e in l || node.Other? ==> r == Ok(l)
    ensures r.Ok? ==> Keeps(l, r.value)
    ensures r.Ok? && !node.Other? ==> e in r.value
    ensures r.Err? ==> node.Member? || (node.Call? && calls == AsWritten)
    ensures node.Call? && e !in l ==> (r.Err? <==>
      calls == AsWritten && SubstAnnotations(ast.types(e), FunctionCallbackAsWritten(ast, node.target)).Err?)
  {
    if e in l || node.Other? then Ok(l)
    else
      match Compute(ast, l, e, node, calls)
      case Err(m) => Err(m)
      case Ok(c) => Ok(InsertIfAbsent(c.lattice, e, c.v))
  }
}
