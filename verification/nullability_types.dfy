/**
 * The vocabulary of the nullability checker: nullability kinds and their
 * printed form, and an abstract C++ type tree with just the nodes the
 * nullability walker, the pointer counter and the rebuilder look at.
 */
module NullTypes {
  import opened Wrappers

  /** Clang's `NullabilityKind`. */
  datatype NK = NonNull | Nullable | Unspecified | NullableResult

  /** `getNullabilitySpelling`: the keyword that writes the kind in C++. */
  function Spelling(k: NK): (r: string)
    ensures |r| >= 8 && r[0] == '_'
  {
    match k
    case NonNull => "_Nonnull"
    case Nullable => "_Nullable"
    case Unspecified => "_Null_unspecified"
    case NullableResult => "_Nullable_result"
  }

  function JoinSpellings(v: seq<NK>): string {
    if |v| == 0 then ""
    else if |v| == 1 then Spelling(v[0])
    else Spelling(v[0]) + (", " + JoinSpellings(v[1..]))
  }

  /** `nullabilityToString`: the spellings, comma separated, in brackets. */
  function NullabilityToString(v: seq<NK>): (r: string)
    ensures |v| == 0 <==> r == "[]"
    ensures |r| >= 2 && r[0] == '[' && r[|r| - 1] == ']'
  {
    "[" + JoinSpellings(v) + "]"
  }

  /** Where the first comma of `s` is, or `|s|` when there is none. */
  function CommaIndex(s: string): (i: nat)
    ensures i <= |s|
    ensures forall j :: 0 <= j < i ==> s[j] != ','
    ensures i < |s| ==> s[i] == ','
  {
    if |s| == 0 || s[0] == ',' then 0 else 1 + CommaIndex(s[1..])
  }

  /** The kind a whole token spells, if any. */
  function KindOf(tok: string): (r: Option<NK>)
    ensures r.Some? ==> Spelling(r.value) == tok
  {
    if tok == Spelling(NonNull) then Some(NonNull)
    else if tok == Spelling(Nullable) then Some(Nullable)
    else if tok == Spelling(Unspecified) then Some(Unspecified)
    else if tok == Spelling(NullableResult) then Some(NullableResult)
    else None
  }

  /** Reads a list of spellings separated by ", " back; the inverse of `JoinSpellings`. */
  function ParseSpellings(s: string): Option<seq<NK>>
    decreases |s|
  {
    var i := CommaIndex(s);
    match KindOf(s[..i])
    case None => None
    case Some(k) =>
      if i == |s| then Some([k])
      else if i + 1 < |s| && s[i + 1] == ' ' then
        match ParseSpellings(s[i + 2..])
        case None => None
        case Some(rest) => Some([k] + rest)
      else None
  }

  /** Reads a printed nullability vector back. */
  function ParseNullability(s: string): Option<seq<NK>> {
    if s == "[]" then Some([])
    else if |s| >= 2 && s[0] == '[' && s[|s| - 1] == ']' then ParseSpellings(s[1..|s| - 1])
    else None
  }

  /** Every spelling is read back as its own kind. */
  lemma KindOfSpelling(k: NK)
    ensures KindOf(Spelling(k)) == Some(k)
  {
    match k
    case NonNull =>
    case Nullable =>
    case Unspecified =>
    case NullableResult =>
  }

  /** No spelling contains a comma. */
  lemma SpellingHasNoComma(k: NK)
    ensures forall j :: 0 <= j < |Spelling(k)| ==> Spelling(k)[j] != ','
  {
    match k
    case NonNull =>
    case Nullable =>
    case Unspecified =>
    case NullableResult =>
  }

  /** The first comma after a comma-free prefix is where the prefix ends. */
  lemma CommaIndexAfter(a: string, b: string)
    requires forall j :: 0 <= j < |a| ==> a[j] != ','
    requires |b| == 0 || b[0] == ','
    ensures CommaIndex(a + b) == |a|
  {
    if |b| > 0 {
      assert (a + b)[|a|] == b[0];
    }
  }

  /** A single spelling reads as the one kind it spells. */
  lemma ParseOne(k: NK)
    ensures ParseSpellings(Spelling(k)) == Some([k])
  {
    SpellingHasNoComma(k);
    CommaIndexAfter(Spelling(k), []);
    assert Spelling(k) + [] == Spelling(k);
    assert Spelling(k)[..|Spelling(k)|] == Spelling(k);
    KindOfSpelling(k);
  }

  /** A spelling, a comma and more: the kind, then whatever the rest reads as. */
  lemma ParseFirst(k: NK, rest: string)
    ensures ParseSpellings(Spelling(k) + (", " + rest)) == match ParseSpellings(rest)
      case None => None
      case Some(v) => Some([k] + v)
  {
    var tail := ", " + rest;
    var s := Spelling(k) + tail;
    SpellingHasNoComma(k);
    CommaIndexAfter(Spelling(k), tail);
    SliceAfterPrefix(Spelling(k), tail, 2);
    SliceAfterPrefix(", ", rest, 0);
    KindOfSpelling(k);
    assert s[|Spelling(k)| + 1] == ' ';
  }

  lemma SliceAfterPrefix(a: string, b: string, m: nat)
    requires m <= |b|
    ensures (a + b)[|a|..|a| + m] == b[..m]
    ensures (a + b)[|a| + m..] == b[m..]
    ensures (a + b)[..|a|] == a
  {
  }

  /** Printing a nullability vector loses nothing: it can be read back. */
  lemma {:induction false} NullabilityToStringRoundTrip(v: seq<NK>)
    ensures ParseNullability(NullabilityToString(v)) == Some(v)
  {
    var s := NullabilityToString(v);
    assert s[1..|s| - 1] == JoinSpellings(v);
    if |v| > 0 {
      JoinRoundTrip(v);
      assert |Spelling(v[0])| > 0;
      assert s != "[]" by {
        if |v| == 1 { assert |s| > 2; } else { assert |s| > 2; }
      }
    }
  }

  lemma {:induction false} JoinRoundTrip(v: seq<NK>)
    requires |v| > 0
    ensures ParseSpellings(JoinSpellings(v)) == Some(v)
    ensures |JoinSpellings(v)| > 0
  {
    if |v| == 1 {
      ParseOne(v[0]);
      assert v == [v[0]];
    } else {
      JoinRoundTrip(v[1..]);
      ParseFirst(v[0], JoinSpellings(v[1..]));
      assert [v[0]] + v[1..] == v;
    }
  }

  // ---------------------------------------------------------------------
  // Alias templates annotated with their nullability

  /**
   * `getAliasNullability`: an alias template annotated with
   * `[[clang::annotate("Nullable")]]` (or "Nonnull", or
   * "Nullability_Unspecified") applies that nullability; any other
   * template, including one with no templated declaration, applies none.
   */
  function GetAliasNullability(annotation: Option<string>): (r: Option<NK>)
    ensures r == Some(Nullable) <==> annotation == Some("Nullable")
    ensures r == Some(NonNull) <==> annotation == Some("Nonnull")
    ensures r == Some(Unspecified) <==> annotation == Some("Nullability_Unspecified")
    ensures r != Some(NullableResult)
  {
    match annotation
    case None => None
    case Some(a) =>
      if a == "Nullable" then Some(Nullable)
      else if a == "Nonnull" then Some(NonNull)
      else if a == "Nullability_Unspecified" then Some(Unspecified)
      else None
  }

  // ---------------------------------------------------------------------
  // Types

  /** An unsigned 32-bit value, such as clang's template pack index. */
  newtype u32 = x: int | 0 <= x < 0x1_0000_0000

  /**
   * A C++ type. The canonical nodes are `Builtin` (every type without
   * pointers inside: int, enums, nullptr_t, ...), `Pointer`, `Reference`,
   * `Array`, `Function` and `Record` (with the record type of its enclosing
   * class, and its template arguments when it is a class template
   * specialization). The other nodes are sugar:
   *  - `Attributed`: a type attribute, possibly a nullability;
   *  - `Sugar`: any other single-step sugar (typedefs, parentheses, ...);
   *  - `AliasSpec`: a use of an alias template, with the template's
   *    annotation, the written arguments and the aliased type;
   *  - `ClassSpec`: a use of a class template specialization, with the
   *    written arguments and the defaulted ones;
   *  - `Elaborated`: a qualified name `q1::q2::named`;
   *  - `Subst`: where a template parameter was replaced by its argument.
   */
  datatype Ty =
    | Builtin(name: string)
    | Pointer(pointee: Ty)
    | Reference(rvalue: bool, referee: Ty)
    | Array(element: Ty)
    | Function(ret: Ty, params: seq<Ty>)
    | Record(decl: nat, enclosing: Option<Ty>, isSpecialization: bool, args: seq<TArg>)
    | Attributed(nullability: Option<NK>, modified: Ty)
    | Sugar(underlying: Ty)
    | AliasSpec(template: nat, annotation: Option<string>, aliasArgs: seq<TArg>, aliased: Ty)
    | ClassSpec(specDecl: nat, specEnclosing: Option<Ty>, written: seq<TArg>, defaults: seq<TArg>)
    | Elaborated(qualifiers: seq<Qualifier>, named: Ty)
    | Subst(associated: nat, index: nat, packIndex: Option<u32>, replacement: Ty)

  /** A template argument: a type, a pack of arguments, or a non-type argument. */
  datatype TArg = TypeArg(ty: Ty) | PackArg(elements: seq<TArg>) | ValueArg

  /**
   * One component of a nested-name qualifier: a template specialization
   * (`partial` when its class was instantiated from a partial
   * specialization) or anything else.
   */
  datatype Qualifier = TemplateQualifier(qdecl: nat, partial: bool, qargs: seq<TArg>) | OtherQualifier

  /** The canonical type: all sugar removed. */
  function Canon(t: Ty): Ty {
    match t
    case Builtin(_) => t
    case Pointer(p) => Pointer(Canon(p))
    case Reference(rv, p) => Reference(rv, Canon(p))
    case Array(e) => Array(Canon(e))
    case Function(r, ps) => Function(Canon(r), CanonTys(ps))
    case Record(d, e, s, args) => Record(d, CanonOpt(e), s, CanonArgs(args))
    case Attributed(_, m) => Canon(m)
    case Sugar(u) => Canon(u)
    case AliasSpec(_, _, _, a) => Canon(a)
    case ClassSpec(d, e, w, df) => Record(d, CanonOpt(e), true, CanonArgs(w) + CanonArgs(df))
    case Elaborated(_, n) => Canon(n)
    case Subst(_, _, _, r) => Canon(r)
  }

  function CanonOpt(e: Option<Ty>): Option<Ty> {
    match e
    case None => None
    case Some(t) => Some(Canon(t))
  }

  function CanonTys(ts: seq<Ty>): (r: seq<Ty>)
    ensures |r| == |ts|
  {
    if |ts| == 0 then [] else [Canon(ts[0])] + CanonTys(ts[1..])
  }

  function CanonArg(a: TArg): TArg {
    match a
    case TypeArg(t) => TypeArg(Canon(t))
    case PackArg(es) => PackArg(CanonArgs(es))
    case ValueArg => ValueArg
  }

  function CanonArgs(args: seq<TArg>): (r: seq<TArg>)
    ensures |r| == |args|
  {
    if |args| == 0 then [] else [CanonArg(args[0])] + CanonArgs(args[1..])
  }

  /** A type built from canonical nodes only. */
  predicate IsCanonical(t: Ty) {
    match t
    case Builtin(_) => true
    case Pointer(p) => IsCanonical(p)
    case Reference(_, p) => IsCanonical(p)
    case Array(e) => IsCanonical(e)
    case Function(r, ps) => IsCanonical(r) && CanonicalTys(ps)
    case Record(_, e, _, args) => CanonicalOpt(e) && CanonicalArgs(args)
    case _ => false
  }

  predicate CanonicalOpt(e: Option<Ty>) {
    match e
    case None => true
    case Some(t) => IsCanonical(t)
  }

  predicate CanonicalTys(ts: seq<Ty>) {
    |ts| == 0 || (IsCanonical(ts[0]) && CanonicalTys(ts[1..]))
  }

  predicate CanonicalArg(a: TArg) {
    match a
    case TypeArg(t) => IsCanonical(t)
    case PackArg(es) => CanonicalArgs(es)
    case ValueArg => true
  }

  predicate CanonicalArgs(args: seq<TArg>) {
    |args| == 0 || (CanonicalArg(args[0]) && CanonicalArgs(args[1..]))
  }

  lemma {:induction false} CanonicalArgsAppend(a: seq<TArg>, b: seq<TArg>)
    ensures CanonicalArgs(a + b) <==> CanonicalArgs(a) && CanonicalArgs(b)
  {
    if |a| > 0 {
      assert (a + b)[1..] == a[1..] + b;
      CanonicalArgsAppend(a[1..], b);
    } else {
      assert a + b == b;
    }
  }

  /** Removing sugar yields a canonical type, and canonical types have no sugar to remove. */
  lemma {:induction false} CanonIsCanonical(t: Ty)
    ensures IsCanonical(Canon(t))
    ensures IsCanonical(t) ==> Canon(t) == t
  {
    match t
    case Builtin(_) =>
    case Pointer(p) => CanonIsCanonical(p);
    case Reference(_, p) => CanonIsCanonical(p);
    case Array(e) => CanonIsCanonical(e);
    case Function(r, ps) => CanonIsCanonical(r); CanonTysCanonical(ps);
    case Record(_, e, _, args) => CanonOptCanonical(e); CanonArgsCanonical(args);
    case Attributed(_, m) => CanonIsCanonical(m);
    case Sugar(u) => CanonIsCanonical(u);
    case AliasSpec(_, _, _, a) => CanonIsCanonical(a);
    case ClassSpec(_, e, w, df) =>
      CanonOptCanonical(e); CanonArgsCanonical(w); CanonArgsCanonical(df);
      CanonicalArgsAppend(CanonArgs(w), CanonArgs(df));
    case Elaborated(_, n) => CanonIsCanonical(n);
    case Subst(_, _, _, r) => CanonIsCanonical(r);
  }

  lemma {:induction false} CanonOptCanonical(e: Option<Ty>)
    ensures CanonicalOpt(CanonOpt(e))
    ensures CanonicalOpt(e) ==> CanonOpt(e) == e
  {
    if e.Some? { CanonIsCanonical(e.value); }
  }

  lemma {:induction false} CanonTysCanonical(ts: seq<Ty>)
    ensures CanonicalTys(CanonTys(ts))
    ensures CanonicalTys(ts) ==> CanonTys(ts) == ts
  {
    if |ts| > 0 {
      CanonIsCanonical(ts[0]);
      CanonTysCanonical(ts[1..]);
      assert CanonTys(ts)[1..] == CanonTys(ts[1..]);
      if CanonicalTys(ts) { assert ts == [ts[0]] + ts[1..]; }
    }
  }

  lemma {:induction false} CanonArgCanonical(a: TArg)
    ensures CanonicalArg(CanonArg(a))
    ensures CanonicalArg(a) ==> CanonArg(a) == a
  {
    match a
    case TypeArg(t) => CanonIsCanonical(t);
    case PackArg(es) => CanonArgsCanonical(es);
    case ValueArg =>
  }

  lemma {:induction false} CanonArgsCanonical(args: seq<TArg>)
    ensures CanonicalArgs(CanonArgs(args))
    ensures CanonicalArgs(args) ==> CanonArgs(args) == args
  {
    if |args| > 0 {
      CanonArgCanonical(args[0]);
      CanonArgsCanonical(args[1..]);
      assert CanonArgs(args)[1..] == CanonArgs(args[1..]);
      if CanonicalArgs(args) { assert args == [args[0]] + args[1..]; }
    }
  }

  /** `int *`, and the `pair` class template of the analyses' documented example. */
  const IntPtr: Ty := Pointer(Builtin("int"))
  const PairDecl: nat := 1

  // ---------------------------------------------------------------------
  // Pointer count of the canonical type

  /**
   * The number of pointers in the canonical type, counted structurally:
   * one per `Pointer`, through references, arrays, function signatures,
   * enclosing classes and the arguments of class template specializations
   * (non-type arguments contribute none). This is the reference definition
   * the walker's count is compared with.
   */
  function Pointers(t: Ty): nat {
    match t
    case Builtin(_) => 0
    case Pointer(p) => 1 + Pointers(p)
    case Reference(_, p) => Pointers(p)
    case Array(e) => Pointers(e)
    case Function(r, ps) => Pointers(r) + PointersTys(ps)
    case Record(_, e, s, args) => PointersOpt(e) + (if s then PointersArgs(args) else 0)
    case Attributed(_, m) => Pointers(m)
    case Sugar(u) => Pointers(u)
    case AliasSpec(_, _, _, a) => Pointers(a)
    case ClassSpec(_, e, w, df) => PointersOpt(e) + PointersArgs(w) + PointersArgs(df)
    case Elaborated(_, n) => Pointers(n)
    case Subst(_, _, _, r) => Pointers(r)
  }

  function PointersOpt(e: Option<Ty>): nat {
    match e
    case None => 0
    case Some(t) => Pointers(t)
  }

  function PointersTys(ts: seq<Ty>): nat {
    if |ts| == 0 then 0 else Pointers(ts[0]) + PointersTys(ts[1..])
  }

  function PointersArg(a: TArg): nat {
    match a
    case TypeArg(t) => Pointers(t)
    case PackArg(es) => PointersArgs(es)
    case ValueArg => 0
  }

  function PointersArgs(args: seq<TArg>): nat {
    if |args| == 0 then 0 else PointersArg(args[0]) + PointersArgs(args[1..])
  }

  lemma {:induction false} PointersArgsAppend(a: seq<TArg>, b: seq<TArg>)
    ensures PointersArgs(a + b) == PointersArgs(a) + PointersArgs(b)
  {
    if |a| > 0 {
      assert (a + b)[1..] == a[1..] + b;
      PointersArgsAppend(a[1..], b);
    } else {
      assert a + b == b;
    }
  }

  /** Sugar never adds or removes pointers: a type has as many as its canonical type. */
  lemma {:induction false} PointersOfCanon(t: Ty)
    ensures Pointers(Canon(t)) == Pointers(t)
  {
    match t
    case Builtin(_) =>
    case Pointer(p) => PointersOfCanon(p);
    case Reference(_, p) => PointersOfCanon(p);
    case Array(e) => PointersOfCanon(e);
    case Function(r, ps) => PointersOfCanon(r); PointersOfCanonTys(ps);
    case Record(_, e, _, args) => PointersOfCanonOpt(e); PointersOfCanonArgs(args);
    case Attributed(_, m) => PointersOfCanon(m);
    case Sugar(u) => PointersOfCanon(u);
    case AliasSpec(_, _, _, a) => PointersOfCanon(a);
    case ClassSpec(_, e, w, df) =>
      PointersOfCanonOpt(e);
      PointersOfCanonArgs(w);
      PointersOfCanonArgs(df);
      PointersArgsAppend(CanonArgs(w), CanonArgs(df));
    case Elaborated(_, n) => PointersOfCanon(n);
    case Subst(_, _, _, r) => PointersOfCanon(r);
  }

  lemma {:induction false} PointersOfCanonOpt(e: Option<Ty>)
    ensures PointersOpt(CanonOpt(e)) == PointersOpt(e)
  {
    if e.Some? { PointersOfCanon(e.value); }
  }

  lemma {:induction false} PointersOfCanonTys(ts: seq<Ty>)
    ensures PointersTys(CanonTys(ts)) == PointersTys(ts)
  {
    if |ts| > 0 {
      PointersOfCanon(ts[0]);
      PointersOfCanonTys(ts[1..]);
      assert CanonTys(ts)[1..] == CanonTys(ts[1..]);
    }
  }

  lemma {:induction false} PointersOfCanonArg(a: TArg)
    ensures PointersArg(CanonArg(a)) == PointersArg(a)
  {
    match a
    case TypeArg(t) => PointersOfCanon(t);
    case PackArg(es) => PointersOfCanonArgs(es);
    case ValueArg =>
  }

  lemma {:induction false} PointersOfCanonArgs(args: seq<TArg>)
    ensures PointersArgs(CanonArgs(args)) == PointersArgs(args)
  {
    if |args| > 0 {
      PointersOfCanonArg(args[0]);
      PointersOfCanonArgs(args[1..]);
      assert CanonArgs(args)[1..] == CanonArgs(args[1..]);
    }
  }
}
