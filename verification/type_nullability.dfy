/**
 * The nullability vector of a type: the nullability walker, which reports
 * one nullability per pointer in pre-order and recovers sugar from
 * template arguments; the pointer count and the annotations built on it;
 * and the rebuilder, which writes a vector back into a type.
 */
module TypeNullability {
  import opened Wrappers
  import opened NullTypes

  // ---------------------------------------------------------------------
  // Template contexts

  /**
   * A template context: a declaration that owns a list of (sugared)
   * template arguments, if they could be reconstructed; the next context
   * whose parameters are also visible (`next`, the source's `Extends`);
   * and the context in which the arguments were written (`argContext`).
   */
  datatype TCtx =
    | NoCtx
    | Ctx(associated: nat, args: Option<seq<TArg>>, next: TCtx, argContext: TCtx)

  /**
   * The argument index of a substituted parameter that is an element of a
   * pack: clang's pack index counts from the end, and the unsigned
   * arithmetic `size - 1 - packIndex` wraps around modulo 2^32.
   */
  function PackArgIndex(size: nat, packIndex: u32): (r: nat)
    ensures r < 0x1_0000_0000
  {
    (size - 1 - packIndex as int) % 0x1_0000_0000
  }

  /** The pack index selects an existing argument exactly when it is below the size. */
  lemma PackArgIndexInRange(size: nat, packIndex: u32)
    requires size <= 0x1_0000_0000
    ensures PackArgIndex(size, packIndex) < size <==> (packIndex as int) < size
    ensures (packIndex as int) < size ==> PackArgIndex(size, packIndex) == size - 1 - packIndex as int
  {
    var d := size - 1 - packIndex as int;
    if d < 0 {
      assert d % 0x1_0000_0000 == d + 0x1_0000_0000;
    }
  }

  /** The index of a substituted parameter in an argument list of `size` elements. */
  function ArgIndex(index: nat, packIndex: Option<u32>, size: nat): nat {
    match packIndex
    case None => index
    case Some(p) => PackArgIndex(size, p)
  }

  /**
   * Where a substituted parameter's sugared argument is found: walking the
   * `next` chain from `c`, the first context of the parameter's
   * declaration either has no arguments (give up) or has an argument at the
   * parameter's index (use it); a context whose list is too short is
   * skipped. The argument is walked in the argument context of the CURRENT
   * context `current`, not of the context that matched.
   */
  function Resolve(associated: nat, index: nat, packIndex: Option<u32>, c: TCtx, current: TCtx)
    : (r: Option<(TArg, TCtx)>)
    requires current.Ctx? || c == NoCtx
    ensures r.Some? ==> current.Ctx? && r.value.1 == current.argContext
  {
    match c
    case NoCtx => None
    case Ctx(d, args, ext, _) =>
      if d != associated then Resolve(associated, index, packIndex, ext, current)
      else if args.None? then None
      else
        var i := ArgIndex(index, packIndex, |args.value|);
        if i < |args.value| then Some((args.value[i], current.argContext))
        else Resolve(associated, index, packIndex, ext, current)
  }

  /** The argument that `Resolve` returns is one of a matching context's arguments. */
  lemma {:induction false} ResolveFindsArgument(associated: nat, index: nat, packIndex: Option<u32>, c: TCtx, current: TCtx)
    requires current.Ctx? || c == NoCtx
    requires Resolve(associated, index, packIndex, c, current).Some?
    ensures exists m ::
      && InChain(m, c) && m.associated == associated && m.args.Some?
      && ArgIndex(index, packIndex, |m.args.value|) < |m.args.value|
      && Resolve(associated, index, packIndex, c, current).value.0
         == m.args.value[ArgIndex(index, packIndex, |m.args.value|)]
  {
    var Ctx(d, args, ext, _) := c;
    if d != associated || ArgIndex(index, packIndex, |args.value|) >= |args.value| {
      ResolveFindsArgument(associated, index, packIndex, ext, current);
    } else {
      assert InChain(c, c);
    }
  }

  /** `m` is `c` or one of the contexts `c` extends. */
  predicate InChain(m: TCtx, c: TCtx) {
    m.Ctx? && (m == c || (c.Ctx? && InChain(m, c.next)))
  }

  /**
   * The contexts bound by the template specializations among the
   * qualifiers of an elaborated type: each one extends the context of the
   * qualifier to its left (the leftmost extends `acc`), the rightmost
   * becomes current, and all of them were written in `argCtx`. Arguments
   * of a class instantiated from a partial specialization are dropped.
   */
  function BindQualifiers(qs: seq<Qualifier>, acc: TCtx, argCtx: TCtx): TCtx {
    if |qs| == 0 then acc
    else
      match qs[0]
      case OtherQualifier => BindQualifiers(qs[1..], acc, argCtx)
      case TemplateQualifier(d, partial, args) =>
        BindQualifiers(qs[1..], Ctx(d, if partial then None else Some(args), acc, argCtx), argCtx)
  }

  // ---------------------------------------------------------------------
  // The walker

  /** A replacement for substituted template parameters, consulted first. */
  type SubstCallback = Ty -> Option<seq<NK>>

  function NoSubst(): SubstCallback {
    (t: Ty) => None
  }

  /** The reports of a walk, and the nullability still waiting for a pointer. */
  datatype Walked = Walked(reports: seq<NK>, pending: Option<NK>)

  /** `sawNullability`: the outer (earlier) annotation wins. */
  function Saw(pending: Option<NK>, nk: Option<NK>): (r: Option<NK>)
    ensures pending.Some? ==> r == pending
    ensures pending.None? ==> r == nk
  {
    if pending.Some? then pending else nk
  }

  /**
   * `NullabilityWalker`: visits `t` with `pending` nullability in template
   * context `ctx`. Pointers report the pending nullability (Unspecified if
   * none) and clear it before the pointee; other non-sugar types discard
   * it; sugar passes it on. `fuel` bounds the number of substituted
   * parameters resolved through the template context; when it runs out,
   * the unsugared replacement is walked instead.
   */
  function Walk(t: Ty, pending: Option<NK>, ctx: TCtx, cb: SubstCallback, fuel: nat): (r: Walked)
    decreases fuel, t
  {
    match t
    case Builtin(_) => Walked([], None)
    case Pointer(p) =>
      var w := Walk(p, None, ctx, cb, fuel);
      Walked([pending.GetOr(Unspecified)] + w.reports, w.pending)
    case Reference(_, p) => Walk(p, None, ctx, cb, fuel)
    case Array(e) => Walk(e, None, ctx, cb, fuel)
    case Function(ret, ps) =>
      var w := Walk(ret, None, ctx, cb, fuel);
      var w2 := WalkTys(ps, w.pending, ctx, cb, fuel);
      Walked(w.reports + w2.reports, w2.pending)
    case Record(_, e, spec, args) =>
      var w := WalkOpt(e, None, ctx, cb, fuel);
      if spec then
        var w2 := WalkArgs(args, w.pending, ctx, cb, fuel);
        Walked(w.reports + w2.reports, w2.pending)
      else w
    case Attributed(nk, m) => Walk(m, Saw(pending, nk), ctx, cb, fuel)
    case Sugar(u) => Walk(u, pending, ctx, cb, fuel)
    case AliasSpec(d, ann, args, aliased) =>
      Walk(aliased, Saw(pending, GetAliasNullability(ann)), Ctx(d, Some(args), ctx, ctx), cb, fuel)
    case ClassSpec(_, e, written, defaults) =>
      var w := WalkOpt(e, None, ctx, cb, fuel);
      var w2 := WalkArgs(written, w.pending, ctx, cb, fuel);
      var w3 := WalkArgs(defaults, w2.pending, ctx, cb, fuel);
      Walked(w.reports + w2.reports + w3.reports, w3.pending)
    case Elaborated(qs, named) =>
      Walk(named, pending, BindQualifiers(qs, ctx, ctx), cb, fuel)
    case Subst(d, index, packIndex, replacement) =>
      match cb(t)
      case Some(v) => Walked(v, pending)
      case None =>
        match (if ctx.Ctx? then Resolve(d, index, packIndex, ctx, ctx) else None)
        case Some((arg, argCtx)) =>
          if fuel > 0 then WalkArg(arg, pending, argCtx, cb, fuel - 1)
          else Walk(replacement, pending, ctx, cb, fuel)
        case None => Walk(replacement, pending, ctx, cb, fuel)
  }

  function WalkOpt(e: Option<Ty>, pending: Option<NK>, ctx: TCtx, cb: SubstCallback, fuel: nat): (r: Walked)
    decreases fuel, e
  {
    match e
    case None => Walked([], pending)
    case Some(t) => Walk(t, pending, ctx, cb, fuel)
  }

  function WalkTys(ts: seq<Ty>, pending: Option<NK>, ctx: TCtx, cb: SubstCallback, fuel: nat): (r: Walked)
    decreases fuel, ts
  {
    if |ts| == 0 then Walked([], pending)
    else
      var w := Walk(ts[0], pending, ctx, cb, fuel);
      var w2 := WalkTys(ts[1..], w.pending, ctx, cb, fuel);
      Walked(w.reports + w2.reports, w2.pending)
  }

  /** A type argument is walked as its type, a pack element by element; others are skipped. */
  function WalkArg(a: TArg, pending: Option<NK>, ctx: TCtx, cb: SubstCallback, fuel: nat): (r: Walked)
    decreases fuel, a
  {
    match a
    case TypeArg(t) => Walk(t, pending, ctx, cb, fuel)
    case PackArg(es) => WalkArgs(es, pending, ctx, cb, fuel)
    case ValueArg => Walked([], pending)
  }

  function WalkArgs(args: seq<TArg>, pending: Option<NK>, ctx: TCtx, cb: SubstCallback, fuel: nat): (r: Walked)
    decreases fuel, args
  {
    if |args| == 0 then Walked([], pending)
    else
      var w := WalkArg(args[0], pending, ctx, cb, fuel);
      var w2 := WalkArgs(args[1..], w.pending, ctx, cb, fuel);
      Walked(w.reports + w2.reports, w2.pending)
  }

  /** The bound on context resolutions in one walk (see `Walk`). */
  const ResolutionFuel: nat := 1024

  /** `countPointersInType`: the number of pointers the walker reports. */
  function CountPointers(t: Ty): nat {
    |Walk(t, None, NoCtx, NoSubst(), ResolutionFuel).reports|
  }

  /**
   * `getNullabilityAnnotationsFromType`: the walker's reports, where the
   * callback (if it answers) supplies the nullability of a substituted
   * template parameter.
   */
  function Annotations(t: Ty, cb: SubstCallback): seq<NK> {
    Walk(t, None, NoCtx, cb, ResolutionFuel).reports
  }

  /** `unspecifiedNullability`: one Unspecified per pointer. */
  function UnspecifiedNullability(t: Ty): (r: seq<NK>)
    ensures |r| == CountPointers(t)
    ensures forall i :: 0 <= i < |r| ==> r[i] == Unspecified
  {
    seq(CountPointers(t), _ => Unspecified)
  }

  // ---------------------------------------------------------------------
  // Properties of the walker

  /**
   * The sugar the walker recovers agrees with the canonical type: every
   * substituted parameter it reaches is answered by the callback with as
   * many entries as the parameter's replacement has pointers (the walker's
   * debug check), or resolves to a template argument with as many pointers
   * as the replacement, itself agreeing in its own context, or falls back
   * to the replacement. Clang guarantees this for the types it builds: a
   * sugared argument has the replacement as its canonical type.
   */
  predicate Agrees(t: Ty, ctx: TCtx, cb: SubstCallback, fuel: nat)
    decreases fuel, t
  {
    match t
    case Builtin(_) => true
    case Pointer(p) => Agrees(p, ctx, cb, fuel)
    case Reference(_, p) => Agrees(p, ctx, cb, fuel)
    case Array(e) => Agrees(e, ctx, cb, fuel)
    case Function(r, ps) => Agrees(r, ctx, cb, fuel) && AgreesTys(ps, ctx, cb, fuel)
    case Record(_, e, s, args) => AgreesOpt(e, ctx, cb, fuel) && (s ==> AgreesArgs(args, ctx, cb, fuel))
    case Attributed(_, m) => Agrees(m, ctx, cb, fuel)
    case Sugar(u) => Agrees(u, ctx, cb, fuel)
    case AliasSpec(d, _, args, a) => Agrees(a, Ctx(d, Some(args), ctx, ctx), cb, fuel)
    case ClassSpec(_, e, w, df) =>
      AgreesOpt(e, ctx, cb, fuel) && AgreesArgs(w, ctx, cb, fuel) && AgreesArgs(df, ctx, cb, fuel)
    case Elaborated(qs, n) => Agrees(n, BindQualifiers(qs, ctx, ctx), cb, fuel)
    case Subst(d, index, packIndex, r) =>
      match cb(t)
      case Some(v) => |v| == Pointers(r)
      case None =>
        match (if ctx.Ctx? then Resolve(d, index, packIndex, ctx, ctx) else None)
        case Some((arg, argCtx)) =>
          if fuel > 0 then PointersArg(arg) == Pointers(r) && AgreesArg(arg, argCtx, cb, fuel - 1)
          else Agrees(r, ctx, cb, fuel)
        case None => Agrees(r, ctx, cb, fuel)
  }

  predicate AgreesOpt(e: Option<Ty>, ctx: TCtx, cb: SubstCallback, fuel: nat)
    decreases fuel, e
  {
    match e
    case None => true
    case Some(t) => Agrees(t, ctx, cb, fuel)
  }

  predicate AgreesTys(ts: seq<Ty>, ctx: TCtx, cb: SubstCallback, fuel: nat)
    decreases fuel, ts
  {
    |ts| == 0 || (Agrees(ts[0], ctx, cb, fuel) && AgreesTys(ts[1..], ctx, cb, fuel))
  }

  predicate AgreesArg(a: TArg, ctx: TCtx, cb: SubstCallback, fuel: nat)
    decreases fuel, a
  {
    match a
    case TypeArg(t) => Agrees(t, ctx, cb, fuel)
    case PackArg(es) => AgreesArgs(es, ctx, cb, fuel)
    case ValueArg => true
  }

  predicate AgreesArgs(args: seq<TArg>, ctx: TCtx, cb: SubstCallback, fuel: nat)
    decreases fuel, args
  {
    |args| == 0 || (AgreesArg(args[0], ctx, cb, fuel) && AgreesArgs(args[1..], ctx, cb, fuel))
  }

  /**
   * The walker reports exactly one nullability per pointer of the
   * canonical type, whatever is pending, when the sugar it recovers agrees
   * with the canonical type.
   */
  lemma {:induction false} WalkCountsPointers(t: Ty, pending: Option<NK>, ctx: TCtx, cb: SubstCallback, fuel: nat)
    requires Agrees(t, ctx, cb, fuel)
    ensures |Walk(t, pending, ctx, cb, fuel).reports| == Pointers(t)
    decreases fuel, t
  {
    match t
    case Builtin(_) =>
    case Pointer(p) => WalkCountsPointers(p, None, ctx, cb, fuel);
    case Reference(_, p) => WalkCountsPointers(p, None, ctx, cb, fuel);
    case Array(e) => WalkCountsPointers(e, None, ctx, cb, fuel);
    case Function(r, ps) =>
      WalkCountsPointers(r, None, ctx, cb, fuel);
      WalkTysCountsPointers(ps, Walk(r, None, ctx, cb, fuel).pending, ctx, cb, fuel);
    case Record(_, e, s, args) =>
      WalkOptCountsPointers(e, None, ctx, cb, fuel);
      if s {
        WalkArgsCountsPointers(args, WalkOpt(e, None, ctx, cb, fuel).pending, ctx, cb, fuel);
      }
    case Attributed(nk, m) => WalkCountsPointers(m, Saw(pending, nk), ctx, cb, fuel);
    case Sugar(u) => WalkCountsPointers(u, pending, ctx, cb, fuel);
    case AliasSpec(d, ann, args, a) =>
      WalkCountsPointers(a, Saw(pending, GetAliasNullability(ann)), Ctx(d, Some(args), ctx, ctx), cb, fuel);
    case ClassSpec(_, e, w, df) =>
      WalkOptCountsPointers(e, None, ctx, cb, fuel);
      var p1 := WalkOpt(e, None, ctx, cb, fuel).pending;
      WalkArgsCountsPointers(w, p1, ctx, cb, fuel);
      WalkArgsCountsPointers(df, WalkArgs(w, p1, ctx, cb, fuel).pending, ctx, cb, fuel);
    case Elaborated(qs, n) => WalkCountsPointers(n, pending, BindQualifiers(qs, ctx, ctx), cb, fuel);
    case Subst(d, index, packIndex, r) =>
      if cb(t).None? {
        match (if ctx.Ctx? then Resolve(d, index, packIndex, ctx, ctx) else None)
        case Some((arg, argCtx)) =>
          if fuel > 0 {
            WalkArgCountsPointers(arg, pending, argCtx, cb, fuel - 1);
          } else {
            WalkCountsPointers(r, pending, ctx, cb, fuel);
          }
        case None => WalkCountsPointers(r, pending, ctx, cb, fuel);
      }
  }

  lemma {:induction false} WalkOptCountsPointers(e: Option<Ty>, pending: Option<NK>, ctx: TCtx, cb: SubstCallback, fuel: nat)
    requires AgreesOpt(e, ctx, cb, fuel)
    ensures |WalkOpt(e, pending, ctx, cb, fuel).reports| == PointersOpt(e)
    decreases fuel, e
  {
    if e.Some? { WalkCountsPointers(e.value, pending, ctx, cb, fuel); }
  }

  lemma {:induction false} WalkTysCountsPointers(ts: seq<Ty>, pending: Option<NK>, ctx: TCtx, cb: SubstCallback, fuel: nat)
    requires AgreesTys(ts, ctx, cb, fuel)
    ensures |WalkTys(ts, pending, ctx, cb, fuel).reports| == PointersTys(ts)
    decreases fuel, ts
  {
    if |ts| > 0 {
      WalkCountsPointers(ts[0], pending, ctx, cb, fuel);
      WalkTysCountsPointers(ts[1..], Walk(ts[0], pending, ctx, cb, fuel).pending, ctx, cb, fuel);
    }
  }

  lemma {:induction false} WalkArgCountsPointers(a: TArg, pending: Option<NK>, ctx: TCtx, cb: SubstCallback, fuel: nat)
    requires AgreesArg(a, ctx, cb, fuel)
    ensures |WalkArg(a, pending, ctx, cb, fuel).reports| == PointersArg(a)
    decreases fuel, a
  {
    match a
    case TypeArg(t) => WalkCountsPointers(t, pending, ctx, cb, fuel);
    case PackArg(es) => WalkArgsCountsPointers(es, pending, ctx, cb, fuel);
    case ValueArg =>
  }

  lemma {:induction false} WalkArgsCountsPointers(args: seq<TArg>, pending: Option<NK>, ctx: TCtx, cb: SubstCallback, fuel: nat)
    requires AgreesArgs(args, ctx, cb, fuel)
    ensures |WalkArgs(args, pending, ctx, cb, fuel).reports| == PointersArgs(args)
    decreases fuel, args
  {
    if |args| > 0 {
      WalkArgCountsPointers(args[0], pending, ctx, cb, fuel);
      WalkArgsCountsPointers(args[1..], WalkArg(args[0], pending, ctx, cb, fuel).pending, ctx, cb, fuel);
    }
  }

  /**
   * The debug check of `getNullabilityAnnotationsFromType`, lifted to the
   * whole type: when the sugar agrees with the canonical type both with
   * and without the callback, the annotations have exactly as many entries
   * as `countPointersInType` counts, and both equal the canonical type's
   * pointers.
   */
  lemma AnnotationsMatchCount(t: Ty, cb: SubstCallback)
    requires Agrees(t, NoCtx, cb, ResolutionFuel) && Agrees(t, NoCtx, NoSubst(), ResolutionFuel)
    ensures |Annotations(t, cb)| == CountPointers(t) == Pointers(Canon(t))
  {
    WalkCountsPointers(t, None, NoCtx, cb, ResolutionFuel);
    WalkCountsPointers(t, None, NoCtx, NoSubst(), ResolutionFuel);
    PointersOfCanon(t);
  }

  /**
   * Whatever is pending changes what the first pointer reports, never how
   * many reports there are.
   */
  lemma {:induction false} WalkLengthIgnoresPending(t: Ty, p1: Option<NK>, p2: Option<NK>, ctx: TCtx, cb: SubstCallback, fuel: nat)
    ensures |Walk(t, p1, ctx, cb, fuel).reports| == |Walk(t, p2, ctx, cb, fuel).reports|
    decreases fuel, t
  {
    match t
    case Builtin(_) =>
    case Pointer(p) =>
    case Reference(_, p) =>
    case Array(e) =>
    case Function(r, ps) =>
    case Record(_, e, s, args) =>
    case Attributed(nk, m) => WalkLengthIgnoresPending(m, Saw(p1, nk), Saw(p2, nk), ctx, cb, fuel);
    case Sugar(u) => WalkLengthIgnoresPending(u, p1, p2, ctx, cb, fuel);
    case AliasSpec(d, ann, args, a) =>
      var c := Ctx(d, Some(args), ctx, ctx);
      WalkLengthIgnoresPending(a, Saw(p1, GetAliasNullability(ann)), Saw(p2, GetAliasNullability(ann)), c, cb, fuel);
    case ClassSpec(_, e, w, df) =>
    case Elaborated(qs, n) => WalkLengthIgnoresPending(n, p1, p2, BindQualifiers(qs, ctx, ctx), cb, fuel);
    case Subst(d, index, packIndex, r) =>
      if cb(t).None? {
        match (if ctx.Ctx? then Resolve(d, index, packIndex, ctx, ctx) else None)
        case Some((arg, argCtx)) =>
          if fuel > 0 {
            WalkArgLengthIgnoresPending(arg, p1, p2, argCtx, cb, fuel - 1);
          } else {
            WalkLengthIgnoresPending(r, p1, p2, ctx, cb, fuel);
          }
        case None => WalkLengthIgnoresPending(r, p1, p2, ctx, cb, fuel);
      }
  }

  lemma {:induction false} WalkArgLengthIgnoresPending(a: TArg, p1: Option<NK>, p2: Option<NK>, ctx: TCtx, cb: SubstCallback, fuel: nat)
    ensures |WalkArg(a, p1, ctx, cb, fuel).reports| == |WalkArg(a, p2, ctx, cb, fuel).reports|
    decreases fuel, a
  {
    match a
    case TypeArg(t) => WalkLengthIgnoresPending(t, p1, p2, ctx, cb, fuel);
    case PackArg(es) => WalkArgsLengthIgnoresPending(es, p1, p2, ctx, cb, fuel);
    case ValueArg =>
  }

  lemma {:induction false} WalkArgsLengthIgnoresPending(args: seq<TArg>, p1: Option<NK>, p2: Option<NK>, ctx: TCtx, cb: SubstCallback, fuel: nat)
    ensures |WalkArgs(args, p1, ctx, cb, fuel).reports| == |WalkArgs(args, p2, ctx, cb, fuel).reports|
    decreases fuel, args
  {
    if |args| > 0 {
      WalkArgLengthIgnoresPending(args[0], p1, p2, ctx, cb, fuel);
      WalkArgsLengthIgnoresPending(args[1..], WalkArg(args[0], p1, ctx, cb, fuel).pending,
        WalkArg(args[0], p2, ctx, cb, fuel).pending, ctx, cb, fuel);
    }
  }

  /**
   * A canonical type carries no nullability: every pointer reports
   * Unspecified (the first one reports what was pending), and nothing is
   * left pending afterwards.
   */
  lemma {:induction false} CanonicalReportsUnspecified(t: Ty, ctx: TCtx, cb: SubstCallback, fuel: nat)
    requires IsCanonical(t)
    ensures Walk(t, None, ctx, cb, fuel) == Walked(seq(Pointers(t), _ => Unspecified), None)
    decreases t
  {
    match t
    case Builtin(_) =>
    case Pointer(p) =>
      CanonicalReportsUnspecified(p, ctx, cb, fuel);
      assert [Unspecified] + seq(Pointers(p), _ => Unspecified) == seq(Pointers(t), _ => Unspecified);
    case Reference(_, p) => CanonicalReportsUnspecified(p, ctx, cb, fuel);
    case Array(e) => CanonicalReportsUnspecified(e, ctx, cb, fuel);
    case Function(r, ps) =>
      CanonicalReportsUnspecified(r, ctx, cb, fuel);
      CanonicalTysReportUnspecified(ps, ctx, cb, fuel);
      assert seq(Pointers(r), _ => Unspecified) + seq(PointersTys(ps), _ => Unspecified)
        == seq(Pointers(t), _ => Unspecified);
    case Record(_, e, s, args) =>
      CanonicalOptReportsUnspecified(e, ctx, cb, fuel);
      if s {
        CanonicalArgsReportUnspecified(args, ctx, cb, fuel);
        assert seq(PointersOpt(e), _ => Unspecified) + seq(PointersArgs(args), _ => Unspecified)
          == seq(Pointers(t), _ => Unspecified);
      }
  }

  lemma {:induction false} CanonicalOptReportsUnspecified(e: Option<Ty>, ctx: TCtx, cb: SubstCallback, fuel: nat)
    requires CanonicalOpt(e)
    ensures WalkOpt(e, None, ctx, cb, fuel) == Walked(seq(PointersOpt(e), _ => Unspecified), None)
    decreases e
  {
    if e.Some? { CanonicalReportsUnspecified(e.value, ctx, cb, fuel); }
  }

  lemma {:induction false} CanonicalTysReportUnspecified(ts: seq<Ty>, ctx: TCtx, cb: SubstCallback, fuel: nat)
    requires CanonicalTys(ts)
    ensures WalkTys(ts, None, ctx, cb, fuel) == Walked(seq(PointersTys(ts), _ => Unspecified), None)
    decreases ts
  {
    if |ts| > 0 {
      CanonicalReportsUnspecified(ts[0], ctx, cb, fuel);
      CanonicalTysReportUnspecified(ts[1..], ctx, cb, fuel);
      assert seq(Pointers(ts[0]), _ => Unspecified) + seq(PointersTys(ts[1..]), _ => Unspecified)
        == seq(PointersTys(ts), _ => Unspecified);
    }
  }

  lemma {:induction false} CanonicalArgReportsUnspecified(a: TArg, ctx: TCtx, cb: SubstCallback, fuel: nat)
    requires CanonicalArg(a)
    ensures WalkArg(a, None, ctx, cb, fuel) == Walked(seq(PointersArg(a), _ => Unspecified), None)
    decreases a
  {
    match a
    case TypeArg(t) => CanonicalReportsUnspecified(t, ctx, cb, fuel);
    case PackArg(es) => CanonicalArgsReportUnspecified(es, ctx, cb, fuel);
    case ValueArg =>
  }

  lemma {:induction false} CanonicalArgsReportUnspecified(args: seq<TArg>, ctx: TCtx, cb: SubstCallback, fuel: nat)
    requires CanonicalArgs(args)
    ensures WalkArgs(args, None, ctx, cb, fuel) == Walked(seq(PointersArgs(args), _ => Unspecified), None)
    decreases args
  {
    if |args| > 0 {
      CanonicalArgReportsUnspecified(args[0], ctx, cb, fuel);
      CanonicalArgsReportUnspecified(args[1..], ctx, cb, fuel);
      assert seq(PointersArg(args[0]), _ => Unspecified) + seq(PointersArgs(args[1..]), _ => Unspecified)
        == seq(PointersArgs(args), _ => Unspecified);
    }
  }

  /** When two nullability attributes apply to one pointer, the outer one wins. */
  lemma OuterNullabilityWins(outer: NK, inner: NK, pointee: Ty, pending: Option<NK>, ctx: TCtx, cb: SubstCallback, fuel: nat)
    ensures var w := Walk(Attributed(Some(outer), Attributed(Some(inner), Pointer(pointee))), pending, ctx, cb, fuel);
      |w.reports| > 0 && w.reports[0] == pending.GetOr(outer)
  {
    assert Walk(Pointer(pointee), Some(pending.GetOr(outer)), ctx, cb, fuel).reports[0] == pending.GetOr(outer);
  }

  // ---------------------------------------------------------------------
  // The rebuilder

  /** `a` is what remains of `b` after dropping some entries from its front. */
  predicate SuffixOf(a: seq<NK>, b: seq<NK>) {
    |a| <= |b| && a == b[|b| - |a|..]
  }

  lemma SuffixOfTrans(a: seq<NK>, b: seq<NK>, c: seq<NK>)
    requires SuffixOf(a, b) && SuffixOf(b, c)
    ensures SuffixOf(a, c)
  {
    assert c[|c| - |b|..][|b| - |a|..] == c[|c| - |a|..];
  }

  /** Dropping `a` entries and then `b` more is dropping `a + b`. */
  lemma DropThenDrop(v: seq<NK>, a: nat, b: nat)
    requires a + b <= |v|
    ensures v[a..][b..] == v[a + b..]
  {
  }

  /**
   * Consuming `a` entries and then `b` more leaves a suffix of `v`; when
   * both steps consumed exactly, `a + b` entries are gone.
   */
  lemma JoinRests(v: seq<NK>, rest1: seq<NK>, rest2: seq<NK>, a: nat, b: nat, complete: bool)
    requires SuffixOf(rest1, v) && SuffixOf(rest2, rest1)
    requires complete ==> |v| >= a && rest1 == v[a..] && |rest1| >= b && rest2 == rest1[b..]
    ensures SuffixOf(rest2, v)
    ensures complete ==> rest2 == v[a + b..]
  {
    SuffixOfTrans(rest2, rest1, v);
    if complete {
      DropThenDrop(v, a, b);
    }
  }

  lemma CanonTysCons(x: Ty, xs: seq<Ty>)
    ensures CanonTys([x] + xs) == [Canon(x)] + CanonTys(xs)
  {
    assert ([x] + xs)[0] == x && ([x] + xs)[1..] == xs;
  }

  lemma CanonArgsCons(x: TArg, xs: seq<TArg>)
    ensures CanonArgs([x] + xs) == [CanonArg(x)] + CanonArgs(xs)
  {
    assert ([x] + xs)[0] == x && ([x] + xs)[1..] == xs;
  }

  /** A rebuilt part of a type and the nullability entries not yet consumed. */
  datatype Rebuilt<T> = Rebuilt(value: T, rest: seq<NK>) | TooShort

  /**
   * The `Rebuilder`: writes the entries of `v` into the pointers of the
   * canonical type `t`, in the walker's order. A pointer takes the next
   * entry and is wrapped in a nullability attribute unless the entry is
   * Unspecified; running out of entries is the "too short" failure. A
   * class template specialization becomes a specialization type over its
   * rebuilt arguments.
   *
   * With `complete` false this is the rebuilder as written, which leaves
   * the enclosing class and the elements of argument packs untouched
   * although the walker reports their pointers. With `complete` true it
   * rebuilds them as well, which keeps it in step with the walker.
   */
  function RebuildTy(t: Ty, v: seq<NK>, complete: bool): (r: Rebuilt<Ty>)
    requires IsCanonical(t)
    ensures r.Rebuilt? ==> Canon(r.value) == t && SuffixOf(r.rest, v)
    ensures complete ==> (r.TooShort? <==> |v| < Pointers(t))
    ensures complete && r.Rebuilt? ==> r.rest == v[Pointers(t)..]
    decreases t, 1
  {
    match t
    case Pointer(p) => RebuildPointer(p, v, complete)
    case Reference(rv, p) =>
      var r := RebuildTy(p, v, complete);
      if r.TooShort? then TooShort else Rebuilt(Reference(rv, r.value), r.rest)
    case Array(e) =>
      var r := RebuildTy(e, v, complete);
      if r.TooShort? then TooShort else Rebuilt(Array(r.value), r.rest)
    case Function(ret, ps) => RebuildFunction(ret, ps, v, complete)
    case Record(d, e, spec, args) => RebuildRecord(d, e, spec, args, v, complete)
    case Builtin(_) => Rebuilt(t, v)
  }

  /**
   * A pointer takes the next entry, then its pointee is rebuilt; it is
   * wrapped in a nullability attribute unless the entry is Unspecified.
   */
  function RebuildPointer(p: Ty, v: seq<NK>, complete: bool): (r: Rebuilt<Ty>)
    requires IsCanonical(p)
    ensures r.Rebuilt? ==> Canon(r.value) == Pointer(p) && SuffixOf(r.rest, v)
    ensures complete ==> (r.TooShort? <==> |v| < 1 + Pointers(p))
    ensures complete && r.Rebuilt? ==> r.rest == v[1 + Pointers(p)..]
    decreases Pointer(p), 0
  {
    if |v| == 0 then TooShort
    else
      var r := RebuildTy(p, v[1..], complete);
      if r.TooShort? then TooShort
      else
        JoinRests(v, v[1..], r.rest, 1, Pointers(p), complete);
        var rebuilt := Pointer(r.value);
        Rebuilt(if v[0] == Unspecified then rebuilt else Attributed(Some(v[0]), rebuilt), r.rest)
  }

  /** A function type: the return type, then the parameters. */
  function RebuildFunction(ret: Ty, ps: seq<Ty>, v: seq<NK>, complete: bool): (r: Rebuilt<Ty>)
    requires IsCanonical(ret) && CanonicalTys(ps)
    ensures r.Rebuilt? ==> Canon(r.value) == Function(ret, ps) && SuffixOf(r.rest, v)
    ensures complete ==> (r.TooShort? <==> |v| < Pointers(ret) + PointersTys(ps))
    ensures complete && r.Rebuilt? ==> r.rest == v[Pointers(ret) + PointersTys(ps)..]
    decreases Function(ret, ps), 0
  {
    var r := RebuildTy(ret, v, complete);
    if r.TooShort? then TooShort
    else
      var r2 := RebuildTys(ps, r.rest, complete);
      if r2.TooShort? then TooShort
      else
        JoinRests(v, r.rest, r2.rest, Pointers(ret), PointersTys(ps), complete);
        Rebuilt(Function(r.value, r2.value), r2.rest)
  }

  /**
   * A record: its enclosing class (only when `complete`), then, for a
   * class template specialization, its arguments, which turn the record
   * into a specialization type.
   */
  function RebuildRecord(d: nat, e: Option<Ty>, spec: bool, args: seq<TArg>, v: seq<NK>, complete: bool)
    : (r: Rebuilt<Ty>)
    requires CanonicalOpt(e) && CanonicalArgs(args)
    ensures r.Rebuilt? ==> Canon(r.value) == Record(d, e, spec, args) && SuffixOf(r.rest, v)
    ensures complete ==> (r.TooShort? <==> |v| < PointersOpt(e) + (if spec then PointersArgs(args) else 0))
    ensures complete && r.Rebuilt? ==> r.rest == v[PointersOpt(e) + (if spec then PointersArgs(args) else 0)..]
    decreases Record(d, e, spec, args), 0
  {
    var r := RebuildEnclosing(e, v, complete);
    if r.TooShort? then TooShort
    else if !spec then
      CanonArgsCanonical(args);
      Rebuilt(Record(d, r.value, false, args), r.rest)
    else
      var r2 := RebuildArgs(args, r.rest, complete);
      if r2.TooShort? then TooShort
      else
        JoinRests(v, r.rest, r2.rest, PointersOpt(e), PointersArgs(args), complete);
        ClassSpecCanon(d, r.value, r2.value);
        Rebuilt(ClassSpec(d, r.value, r2.value, []), r2.rest)
  }

  lemma ClassSpecCanon(d: nat, e: Option<Ty>, args: seq<TArg>)
    ensures Canon(ClassSpec(d, e, args, [])) == Record(d, CanonOpt(e), true, CanonArgs(args))
  {
    assert CanonArgs(args) + CanonArgs([]) == CanonArgs(args);
  }

  /** The enclosing class is rebuilt only when `complete`. */
  function RebuildEnclosing(e: Option<Ty>, v: seq<NK>, complete: bool): (r: Rebuilt<Option<Ty>>)
    requires CanonicalOpt(e)
    ensures r.Rebuilt? ==> CanonOpt(r.value) == e && SuffixOf(r.rest, v)
    ensures complete ==> (r.TooShort? <==> |v| < PointersOpt(e))
    ensures complete && r.Rebuilt? ==> r.rest == v[PointersOpt(e)..]
    decreases e, 2
  {
    if complete then RebuildOpt(e, v, complete)
    else
      CanonOptCanonical(e);
      Rebuilt(e, v)
  }

  function RebuildOpt(e: Option<Ty>, v: seq<NK>, complete: bool): (r: Rebuilt<Option<Ty>>)
    requires CanonicalOpt(e)
    ensures r.Rebuilt? ==> CanonOpt(r.value) == e && SuffixOf(r.rest, v)
    ensures complete ==> (r.TooShort? <==> |v| < PointersOpt(e))
    ensures complete && r.Rebuilt? ==> r.rest == v[PointersOpt(e)..]
    decreases e, 1
  {
    match e
    case None => Rebuilt(None, v)
    case Some(t) =>
      var r := RebuildTy(t, v, complete);
      if r.TooShort? then TooShort else Rebuilt(Some(r.value), r.rest)
  }

  lemma CanonTysOfCons(ts: seq<Ty>, x: Ty, xs: seq<Ty>)
    requires |ts| > 0 && Canon(x) == ts[0] && CanonTys(xs) == ts[1..]
    ensures CanonTys([x] + xs) == ts
  {
    CanonTysCons(x, xs);
    assert [ts[0]] + ts[1..] == ts;
  }

  /** Putting together the rebuilt head and tail of a sequence. */
  lemma RebuildTysConsRebuilt(ts: seq<Ty>, v: seq<NK>, complete: bool, x: Ty, rest1: seq<NK>, xs: seq<Ty>, rest2: seq<NK>)
    requires |ts| > 0
    requires Canon(x) == ts[0] && SuffixOf(rest1, v) && (complete ==> |v| >= Pointers(ts[0]) && rest1 == v[Pointers(ts[0])..])
    requires CanonTys(xs) == ts[1..] && SuffixOf(rest2, rest1) && (complete ==> |rest1| >= PointersTys(ts[1..]) && rest2 == rest1[PointersTys(ts[1..])..])
    ensures CanonTys([x] + xs) == ts && SuffixOf(rest2, v)
    ensures complete ==> rest2 == v[PointersTys(ts)..]
  {
    CanonTysOfCons(ts, x, xs);
    SuffixOfTrans(rest2, rest1, v);
    if complete {
      assert PointersTys(ts) == Pointers(ts[0]) + PointersTys(ts[1..]);
      DropThenDrop(v, Pointers(ts[0]), PointersTys(ts[1..]));
    }
  }

  function RebuildTys(ts: seq<Ty>, v: seq<NK>, complete: bool): (r: Rebuilt<seq<Ty>>)
    requires CanonicalTys(ts)
    ensures r.Rebuilt? ==> CanonTys(r.value) == ts && SuffixOf(r.rest, v)
    ensures complete ==> (r.TooShort? <==> |v| < PointersTys(ts))
    ensures complete && r.Rebuilt? ==> r.rest == v[PointersTys(ts)..]
    decreases ts, 1
  {
    if |ts| == 0 then Rebuilt([], v)
    else
      assert PointersTys(ts) == Pointers(ts[0]) + PointersTys(ts[1..]);
      var r := RebuildTy(ts[0], v, complete);
      if r.TooShort? then TooShort
      else
        var r2 := RebuildTys(ts[1..], r.rest, complete);
        if r2.TooShort? then TooShort
        else
          RebuildTysConsRebuilt(ts, v, complete, r.value, r.rest, r2.value, r2.rest);
          Rebuilt([r.value] + r2.value, r2.rest)
  }

  /** Only type arguments are rebuilt as written; packs too when `complete`. */
  function RebuildArg(a: TArg, v: seq<NK>, complete: bool): (r: Rebuilt<TArg>)
    requires CanonicalArg(a)
    ensures r.Rebuilt? ==> CanonArg(r.value) == a && SuffixOf(r.rest, v)
    ensures complete ==> (r.TooShort? <==> |v| < PointersArg(a))
    ensures complete && r.Rebuilt? ==> r.rest == v[PointersArg(a)..]
    decreases a, 1
  {
    match a
    case TypeArg(t) =>
      var r := RebuildTy(t, v, complete);
      if r.TooShort? then TooShort else Rebuilt(TypeArg(r.value), r.rest)
    case PackArg(es) =>
      if complete then
        var r := RebuildArgs(es, v, complete);
        if r.TooShort? then TooShort else Rebuilt(PackArg(r.value), r.rest)
      else
        CanonArgCanonical(a);
        Rebuilt(a, v)
    case ValueArg => Rebuilt(a, v)
  }

  lemma CanonArgsOfCons(args: seq<TArg>, x: TArg, xs: seq<TArg>)
    requires |args| > 0 && CanonArg(x) == args[0] && CanonArgs(xs) == args[1..]
    ensures CanonArgs([x] + xs) == args
  {
    CanonArgsCons(x, xs);
    assert [args[0]] + args[1..] == args;
  }

  /** Putting together the rebuilt head and tail of a sequence. */
  lemma RebuildArgsConsRebuilt(args: seq<TArg>, v: seq<NK>, complete: bool, x: TArg, rest1: seq<NK>, xs: seq<TArg>, rest2: seq<NK>)
    requires |args| > 0
    requires CanonArg(x) == args[0] && SuffixOf(rest1, v) && (complete ==> |v| >= PointersArg(args[0]) && rest1 == v[PointersArg(args[0])..])
    requires CanonArgs(xs) == args[1..] && SuffixOf(rest2, rest1) && (complete ==> |rest1| >= PointersArgs(args[1..]) && rest2 == rest1[PointersArgs(args[1..])..])
    ensures CanonArgs([x] + xs) == args && SuffixOf(rest2, v)
    ensures complete ==> rest2 == v[PointersArgs(args)..]
  {
    CanonArgsOfCons(args, x, xs);
    SuffixOfTrans(rest2, rest1, v);
    if complete {
      assert PointersArgs(args) == PointersArg(args[0]) + PointersArgs(args[1..]);
      DropThenDrop(v, PointersArg(args[0]), PointersArgs(args[1..]));
    }
  }

  function RebuildArgs(args: seq<TArg>, v: seq<NK>, complete: bool): (r: Rebuilt<seq<TArg>>)
    requires CanonicalArgs(args)
    ensures r.Rebuilt? ==> CanonArgs(r.value) == args && SuffixOf(r.rest, v)
    ensures complete ==> (r.TooShort? <==> |v| < PointersArgs(args))
    ensures complete && r.Rebuilt? ==> r.rest == v[PointersArgs(args)..]
    decreases args, 1
  {
    if |args| == 0 then Rebuilt([], v)
    else
      assert PointersArgs(args) == PointersArg(args[0]) + PointersArgs(args[1..]);
      var r := RebuildArg(args[0], v, complete);
      if r.TooShort? then TooShort
      else
        var r2 := RebuildArgs(args[1..], r.rest, complete);
        if r2.TooShort? then TooShort
        else
          RebuildArgsConsRebuilt(args, v, complete, r.value, r.rest, r2.value, r2.rest);
          Rebuilt([r.value] + r2.value, r2.rest)
  }

  /**
   * `rebuildWithNullability`: rebuilds the canonical type of `t` with the
   * nullability vector `v`; a vector that runs out is "too short", one
   * with entries left over is "too long". The messages stop before the
   * printed type the source appends (" at " the pointer type, " for " the
   * whole type), since the type tree here has no printed form.
   */
  function Rebuild(t: Ty, v: seq<NK>, complete: bool): (r: Result<Ty>)
    ensures r.Ok? ==> Canon(r.value) == Canon(t)
    ensures complete ==> (r.Ok? <==> |v| == Pointers(t))
  {
    CanonIsCanonical(t);
    PointersOfCanon(t);
    var b := RebuildTy(Canon(t), v, complete);
    if b.TooShort? then Err("Nullability vector too short")
    else if |b.rest| > 0 then Err("Nullability vector[" + NatToString(|v|) + "] too long")
    else Ok(b.value)
  }

  /**
   * A canonical type in which the rebuilder as written reaches every
   * pointer: no argument pack and no enclosing class anywhere in it.
   */
  predicate Flat(t: Ty) {
    match t
    case Builtin(_) => true
    case Pointer(p) => Flat(p)
    case Reference(_, p) => Flat(p)
    case Array(e) => Flat(e)
    case Function(r, ps) => Flat(r) && FlatTys(ps)
    case Record(_, e, _, args) => e.None? && FlatArgs(args)
    case _ => false
  }

  predicate FlatTys(ts: seq<Ty>) {
    |ts| == 0 || (Flat(ts[0]) && FlatTys(ts[1..]))
  }

  predicate FlatArg(a: TArg) {
    match a
    case TypeArg(t) => Flat(t)
    case PackArg(_) => false
    case ValueArg => true
  }

  predicate FlatArgs(args: seq<TArg>) {
    |args| == 0 || (FlatArg(args[0]) && FlatArgs(args[1..]))
  }

  /** On a flat type the two rebuilders take the same steps. */
  lemma {:induction false} SameRebuildTy(t: Ty, v: seq<NK>)
    requires IsCanonical(t) && Flat(t)
    ensures RebuildTy(t, v, false) == RebuildTy(t, v, true)
    decreases t
  {
    match t
    case Pointer(p) =>
      if |v| > 0 {
        SameRebuildTy(p, v[1..]);
      }
    case Reference(_, p) => SameRebuildTy(p, v);
    case Array(e) => SameRebuildTy(e, v);
    case Function(ret, ps) =>
      SameRebuildTy(ret, v);
      var r := RebuildTy(ret, v, true);
      if r.Rebuilt? {
        SameRebuildTys(ps, r.rest);
      }
    case Record(d, e, spec, args) =>
      assert RebuildEnclosing(e, v, false) == RebuildEnclosing(e, v, true);
      if spec {
        SameRebuildArgs(args, v);
      }
    case Builtin(_) =>
  }

  lemma {:induction false} SameRebuildTys(ts: seq<Ty>, v: seq<NK>)
    requires CanonicalTys(ts) && FlatTys(ts)
    ensures RebuildTys(ts, v, false) == RebuildTys(ts, v, true)
    decreases ts
  {
    if |ts| > 0 {
      SameRebuildTy(ts[0], v);
      var r := RebuildTy(ts[0], v, true);
      if r.Rebuilt? {
        SameRebuildTys(ts[1..], r.rest);
      }
    }
  }

  lemma {:induction false} SameRebuildArg(a: TArg, v: seq<NK>)
    requires CanonicalArg(a) && FlatArg(a)
    ensures RebuildArg(a, v, false) == RebuildArg(a, v, true)
    decreases a
  {
    if a.TypeArg? {
      SameRebuildTy(a.ty, v);
    }
  }

  lemma {:induction false} SameRebuildArgs(args: seq<TArg>, v: seq<NK>)
    requires CanonicalArgs(args) && FlatArgs(args)
    ensures RebuildArgs(args, v, false) == RebuildArgs(args, v, true)
    decreases args
  {
    if |args| > 0 {
      SameRebuildArg(args[0], v);
      var r := RebuildArg(args[0], v, true);
      if r.Rebuilt? {
        SameRebuildArgs(args[1..], r.rest);
      }
    }
  }

  /**
   * The rebuilder kept in step with the walker changes nothing on types
   * without argument packs and enclosing classes: there both rebuilders
   * give the same result or the same error.
   */
  lemma AsWrittenAgreesOnFlat(t: Ty, v: seq<NK>)
    requires Flat(Canon(t))
    ensures Rebuild(t, v, false) == Rebuild(t, v, true)
  {
    CanonIsCanonical(t);
    SameRebuildTy(Canon(t), v);
  }

  /**
   * The rebuilder as written: packs and enclosing classes are left alone.
   * Everywhere else it agrees with the corrected rebuilder, so it succeeds
   * exactly on vectors with one entry per pointer.
   */
  function RebuildWithNullabilityAsWritten(t: Ty, v: seq<NK>): (r: Result<Ty>)
    ensures r.Ok? ==> Canon(r.value) == Canon(t)
    ensures Flat(Canon(t)) ==> r == Rebuild(t, v, true)
    ensures Flat(Canon(t)) ==> (r.Ok? <==> |v| == Pointers(t))
  {
    if Flat(Canon(t)) then
      AsWrittenAgreesOnFlat(t, v);
      Rebuild(t, v, false)
    else
      Rebuild(t, v, false)
  }

  /**
   * The rebuilder kept in step with the walker: it succeeds exactly on
   * vectors with one entry per pointer, keeps the canonical type, and the
   * walker reads the vector back from the result (`RebuildRoundTrip`).
   */
  function RebuildWithNullability(t: Ty, v: seq<NK>): (r: Result<Ty>)
    ensures r.Ok? <==> |v| == Pointers(t)
    ensures r.Ok? ==> Canon(r.value) == Canon(t)
  {
    Rebuild(t, v, true)
  }

  /** Taking `a` entries and then `b` more is taking `a + b`. */
  lemma TakeThenTake(v: seq<NK>, a: nat, b: nat)
    requires a + b <= |v|
    ensures v[..a] + v[a..][..b] == v[..a + b]
  {
  }

  lemma WalkTysCons(x: Ty, xs: seq<Ty>, a: seq<NK>, b: seq<NK>, ctx: TCtx, cb: SubstCallback, fuel: nat)
    requires Walk(x, None, ctx, cb, fuel) == Walked(a, None)
    requires WalkTys(xs, None, ctx, cb, fuel) == Walked(b, None)
    ensures WalkTys([x] + xs, None, ctx, cb, fuel) == Walked(a + b, None)
  {
    assert ([x] + xs)[0] == x && ([x] + xs)[1..] == xs;
  }

  lemma WalkArgsCons(x: TArg, xs: seq<TArg>, a: seq<NK>, b: seq<NK>, ctx: TCtx, cb: SubstCallback, fuel: nat)
    requires WalkArg(x, None, ctx, cb, fuel) == Walked(a, None)
    requires WalkArgs(xs, None, ctx, cb, fuel) == Walked(b, None)
    ensures WalkArgs([x] + xs, None, ctx, cb, fuel) == Walked(a + b, None)
  {
    assert ([x] + xs)[0] == x && ([x] + xs)[1..] == xs;
  }

  /** The walker reads back from a rebuilt canonical type the entries it consumed. */
  lemma {:induction false} RebuildTyWalksBack(t: Ty, v: seq<NK>, ctx: TCtx, cb: SubstCallback, fuel: nat)
    requires IsCanonical(t) && Pointers(t) <= |v|
    ensures Walk(RebuildTy(t, v, true).value, None, ctx, cb, fuel) == Walked(v[..Pointers(t)], None)
    decreases t, 1
  {
    match t
    case Builtin(_) =>
      assert RebuildTy(t, v, true).value == t;
      assert v[..0] == [];
    case Pointer(p) =>
      assert RebuildTy(t, v, true) == RebuildPointer(p, v, true);
      assert Pointers(t) == 1 + Pointers(p);
      RebuildPointerWalksBack(p, v, ctx, cb, fuel);
    case Reference(rv, p) =>
      var r := RebuildTy(p, v, true);
      assert RebuildTy(t, v, true).value == Reference(rv, r.value);
      assert Walk(Reference(rv, r.value), None, ctx, cb, fuel) == Walk(r.value, None, ctx, cb, fuel);
      RebuildTyWalksBack(p, v, ctx, cb, fuel);
    case Array(e) =>
      var r := RebuildTy(e, v, true);
      assert RebuildTy(t, v, true).value == Array(r.value);
      assert Walk(Array(r.value), None, ctx, cb, fuel) == Walk(r.value, None, ctx, cb, fuel);
      RebuildTyWalksBack(e, v, ctx, cb, fuel);
    case Function(ret, ps) =>
      assert RebuildTy(t, v, true) == RebuildFunction(ret, ps, v, true);
      assert Pointers(t) == Pointers(ret) + PointersTys(ps);
      RebuildFunctionWalksBack(ret, ps, v, ctx, cb, fuel);
    case Record(d, e, spec, args) =>
      assert RebuildTy(t, v, true) == RebuildRecord(d, e, spec, args, v, true);
      assert Pointers(t) == PointersOpt(e) + (if spec then PointersArgs(args) else 0);
      RebuildRecordWalksBack(d, e, spec, args, v, ctx, cb, fuel);
  }

  lemma {:induction false} RebuildPointerWalksBack(p: Ty, v: seq<NK>, ctx: TCtx, cb: SubstCallback, fuel: nat)
    requires IsCanonical(p) && 1 + Pointers(p) <= |v|
    ensures Walk(RebuildPointer(p, v, true).value, None, ctx, cb, fuel) == Walked(v[..1 + Pointers(p)], None)
    decreases Pointer(p), 0
  {
    var r := RebuildTy(p, v[1..], true);
    RebuildTyWalksBack(p, v[1..], ctx, cb, fuel);
    WalkPointer(r.value, v[0], v[1..][..Pointers(p)], ctx, cb, fuel);
    if v[0] == Unspecified {
      assert RebuildPointer(p, v, true).value == Pointer(r.value);
    } else {
      assert RebuildPointer(p, v, true).value == Attributed(Some(v[0]), Pointer(r.value));
    }
    TakeThenTake(v, 1, Pointers(p));
    assert v[..1] == [v[0]];
  }

  lemma {:induction false} RebuildFunctionWalksBack(ret: Ty, ps: seq<Ty>, v: seq<NK>, ctx: TCtx, cb: SubstCallback, fuel: nat)
    requires IsCanonical(ret) && CanonicalTys(ps) && Pointers(ret) + PointersTys(ps) <= |v|
    ensures Walk(RebuildFunction(ret, ps, v, true).value, None, ctx, cb, fuel)
      == Walked(v[..Pointers(ret) + PointersTys(ps)], None)
    decreases Function(ret, ps), 0
  {
    var r := RebuildTy(ret, v, true);
    RebuildTyWalksBack(ret, v, ctx, cb, fuel);
    var r2 := RebuildTys(ps, r.rest, true);
    RebuildTysWalksBack(ps, r.rest, ctx, cb, fuel);
    assert r.rest == v[Pointers(ret)..];
    var a, b := v[..Pointers(ret)], r.rest[..PointersTys(ps)];
    WalkFunction(r.value, r2.value, a, b, ctx, cb, fuel);
    TakeThenTake(v, Pointers(ret), PointersTys(ps));
    assert a + b == v[..Pointers(ret) + PointersTys(ps)];
    assert RebuildFunction(ret, ps, v, true).value == Function(r.value, r2.value);
  }

  lemma {:induction false} RebuildRecordWalksBack(d: nat, e: Option<Ty>, spec: bool, args: seq<TArg>, v: seq<NK>,
                                                  ctx: TCtx, cb: SubstCallback, fuel: nat)
    requires CanonicalOpt(e) && CanonicalArgs(args)
    requires PointersOpt(e) + (if spec then PointersArgs(args) else 0) <= |v|
    ensures Walk(RebuildRecord(d, e, spec, args, v, true).value, None, ctx, cb, fuel)
      == Walked(v[..PointersOpt(e) + (if spec then PointersArgs(args) else 0)], None)
    decreases Record(d, e, spec, args), 0
  {
    var r := RebuildOpt(e, v, true);
    assert RebuildEnclosing(e, v, true) == r;
    RebuildOptWalksBack(e, v, ctx, cb, fuel);
    if spec {
      var r2 := RebuildArgs(args, r.rest, true);
      RebuildArgsWalksBack(args, r.rest, ctx, cb, fuel);
      assert RebuildRecord(d, e, spec, args, v, true).value == ClassSpec(d, r.value, r2.value, []);
      WalkClassSpec(d, r.value, r2.value, v[..PointersOpt(e)], r.rest[..PointersArgs(args)], ctx, cb, fuel);
      TakeThenTake(v, PointersOpt(e), PointersArgs(args));
    } else {
      assert RebuildRecord(d, e, spec, args, v, true).value == Record(d, r.value, false, args);
    }
  }

  /** A pointer rebuilt with entry `k` reports `k`, then its pointee. */
  lemma WalkPointer(p: Ty, k: NK, a: seq<NK>, ctx: TCtx, cb: SubstCallback, fuel: nat)
    requires Walk(p, None, ctx, cb, fuel) == Walked(a, None)
    ensures Walk(Pointer(p), None, ctx, cb, fuel) == Walked([Unspecified] + a, None)
    ensures Walk(Attributed(Some(k), Pointer(p)), None, ctx, cb, fuel) == Walked([k] + a, None)
  {
    assert Walk(Attributed(Some(k), Pointer(p)), None, ctx, cb, fuel) == Walk(Pointer(p), Some(k), ctx, cb, fuel);
  }

  lemma WalkFunction(ret: Ty, ps: seq<Ty>, a: seq<NK>, b: seq<NK>, ctx: TCtx, cb: SubstCallback, fuel: nat)
    requires Walk(ret, None, ctx, cb, fuel) == Walked(a, None)
    requires WalkTys(ps, None, ctx, cb, fuel) == Walked(b, None)
    ensures Walk(Function(ret, ps), None, ctx, cb, fuel) == Walked(a + b, None)
  {
  }

  lemma WalkClassSpec(d: nat, e: Option<Ty>, args: seq<TArg>, a: seq<NK>, b: seq<NK>, ctx: TCtx, cb: SubstCallback, fuel: nat)
    requires WalkOpt(e, None, ctx, cb, fuel) == Walked(a, None)
    requires WalkArgs(args, None, ctx, cb, fuel) == Walked(b, None)
    ensures Walk(ClassSpec(d, e, args, []), None, ctx, cb, fuel) == Walked(a + b, None)
  {
    assert WalkArgs([], None, ctx, cb, fuel) == Walked([], None);
    assert a + b + [] == a + b;
  }

  lemma {:induction false} RebuildOptWalksBack(e: Option<Ty>, v: seq<NK>, ctx: TCtx, cb: SubstCallback, fuel: nat)
    requires CanonicalOpt(e) && PointersOpt(e) <= |v|
    ensures WalkOpt(RebuildOpt(e, v, true).value, None, ctx, cb, fuel) == Walked(v[..PointersOpt(e)], None)
    decreases e, 1
  {
    if e.Some? { RebuildTyWalksBack(e.value, v, ctx, cb, fuel); }
  }

  lemma {:induction false} RebuildTysWalksBack(ts: seq<Ty>, v: seq<NK>, ctx: TCtx, cb: SubstCallback, fuel: nat)
    requires CanonicalTys(ts) && PointersTys(ts) <= |v|
    ensures WalkTys(RebuildTys(ts, v, true).value, None, ctx, cb, fuel) == Walked(v[..PointersTys(ts)], None)
    decreases ts, 1
  {
    if |ts| > 0 {
      var r := RebuildTy(ts[0], v, true);
      var r2 := RebuildTys(ts[1..], r.rest, true);
      assert RebuildTys(ts, v, true).value == [r.value] + r2.value;
      RebuildTyWalksBack(ts[0], v, ctx, cb, fuel);
      RebuildTysWalksBack(ts[1..], r.rest, ctx, cb, fuel);
      WalkTysCons(r.value, r2.value, v[..Pointers(ts[0])], r.rest[..PointersTys(ts[1..])], ctx, cb, fuel);
      TakeThenTake(v, Pointers(ts[0]), PointersTys(ts[1..]));
    }
  }

  lemma {:induction false} RebuildArgWalksBack(a: TArg, v: seq<NK>, ctx: TCtx, cb: SubstCallback, fuel: nat)
    requires CanonicalArg(a) && PointersArg(a) <= |v|
    ensures WalkArg(RebuildArg(a, v, true).value, None, ctx, cb, fuel) == Walked(v[..PointersArg(a)], None)
    decreases a, 1
  {
    match a
    case TypeArg(t) => RebuildTyWalksBack(t, v, ctx, cb, fuel);
    case PackArg(es) => RebuildArgsWalksBack(es, v, ctx, cb, fuel);
    case ValueArg =>
  }

  lemma {:induction false} RebuildArgsWalksBack(args: seq<TArg>, v: seq<NK>, ctx: TCtx, cb: SubstCallback, fuel: nat)
    requires CanonicalArgs(args) && PointersArgs(args) <= |v|
    ensures WalkArgs(RebuildArgs(args, v, true).value, None, ctx, cb, fuel) == Walked(v[..PointersArgs(args)], None)
    decreases args, 1
  {
    if |args| > 0 {
      var r := RebuildArg(args[0], v, true);
      var r2 := RebuildArgs(args[1..], r.rest, true);
      assert RebuildArgs(args, v, true).value == [r.value] + r2.value;
      RebuildArgWalksBack(args[0], v, ctx, cb, fuel);
      RebuildArgsWalksBack(args[1..], r.rest, ctx, cb, fuel);
      WalkArgsCons(r.value, r2.value, v[..PointersArg(args[0])], r.rest[..PointersArgs(args[1..])], ctx, cb, fuel);
      TakeThenTake(v, PointersArg(args[0]), PointersArgs(args[1..]));
    }
  }

  /**
   * Rebuilding a type with a vector of the right length and reading the
   * annotations back gives the vector again; the pointer count agrees.
   */
  lemma RebuildRoundTrip(t: Ty, v: seq<NK>, cb: SubstCallback)
    requires |v| == Pointers(t)
    ensures RebuildWithNullability(t, v).Ok?
    ensures Annotations(RebuildWithNullability(t, v).value, cb) == v
    ensures CountPointers(RebuildWithNullability(t, v).value) == |v|
  {
    CanonIsCanonical(t);
    PointersOfCanon(t);
    var b := RebuildTy(Canon(t), v, true);
    assert b.Rebuilt? && b.rest == [];
    assert RebuildWithNullability(t, v) == Ok(b.value);
    assert v[..Pointers(Canon(t))] == v;
    RebuildTyWalksBack(Canon(t), v, NoCtx, cb, ResolutionFuel);
    RebuildTyWalksBack(Canon(t), v, NoCtx, NoSubst(), ResolutionFuel);
  }

  /**
   * The rebuilder as written rejects the annotations of a class template
   * specialization whose argument is a pack holding a pointer: the walker
   * reports one entry, the rebuilder consumes none.
   */
  lemma PackArgumentRejectedAsWritten()
    ensures var t := Record(0, None, true, [PackArg([TypeArg(Pointer(Builtin("int")))])]);
      && CountPointers(t) == 1
      && RebuildWithNullabilityAsWritten(t, [Nullable]).Err?
      && RebuildWithNullability(t, [Nullable]).Ok?
  {
    var b := Builtin("int");
    var pack := PackArg([TypeArg(Pointer(b))]);
    var t := Record(0, None, true, [pack]);
    assert IsCanonical(t) by {
      assert [TypeArg(Pointer(b))][1..] == [] && [pack][1..] == [];
      assert IsCanonical(Pointer(b)) && CanonicalArg(TypeArg(Pointer(b))) && CanonicalArgs([]);
      assert CanonicalArgs([TypeArg(Pointer(b))]);
      assert CanonicalArgs([pack]);
    }
    CanonIsCanonical(t);
    assert Pointers(t) == 1 by {
      assert PointersArgs([TypeArg(Pointer(b))]) == 1;
      assert PointersArgs([pack]) == 1;
    }
    var v := [Nullable];
    assert RebuildEnclosing(None, v, false) == Rebuilt(None, v);
    assert RebuildArg(pack, v, false) == Rebuilt(pack, v);
    assert RebuildArgs([pack], v, false) == Rebuilt([pack], v) by {
      assert [pack][1..] == [];
    }
    assert RebuildTy(t, v, false) == Rebuilt(ClassSpec(0, None, [pack], []), v);
    assert Agrees(t, NoCtx, NoSubst(), ResolutionFuel) by {
      assert AgreesArgs([TypeArg(Pointer(b))], NoCtx, NoSubst(), ResolutionFuel);
      assert AgreesArgs([pack], NoCtx, NoSubst(), ResolutionFuel);
    }
    WalkCountsPointers(t, None, NoCtx, NoSubst(), ResolutionFuel);
  }

  /**
   * Likewise for a class nested in a class template specialization whose
   * argument is a pointer: the walker reports the enclosing class's
   * pointer, the rebuilder as written does not visit it.
   */
  lemma EnclosingClassRejectedAsWritten()
    ensures var t := Record(1, Some(Record(0, None, true, [TypeArg(Pointer(Builtin("int")))])), false, []);
      && CountPointers(t) == 1
      && RebuildWithNullabilityAsWritten(t, [Nullable]).Err?
      && RebuildWithNullability(t, [Nullable]).Ok?
  {
    var t := Record(1, Some(Record(0, None, true, [TypeArg(Pointer(Builtin("int")))])), false, []);
    assert IsCanonical(t);
    CanonIsCanonical(t);
  }
}
