/**
 * How the bindings generator spells a Rust type in C++ and in Rust: the
 * prerequisites a C++ snippet carries (`#include`s and local definitions
 * that must come first), the fully qualified names of items, and the
 * "core" of a struct, enum or union binding whose success decides whether
 * the type can be named at all.
 */
module CcTypes {
  import opened Wrappers
  import opened RustcFacts

  datatype CcInclude = Cstdint | Utility

  /** What a C++ snippet depends on. Forward declarations are not tracked. */
  datatype CcPrerequisites = CcPrerequisites(includes: set<CcInclude>, defs: set<nat>) {
    predicate IsEmpty() { includes == {} && defs == {} }
  }

  const NoPrereqs := CcPrerequisites({}, {})

  /** `CcPrerequisites += rhs`: both sets are merged. */
  function Add(a: CcPrerequisites, b: CcPrerequisites): (r: CcPrerequisites)
    ensures r.includes == a.includes + b.includes && r.defs == a.defs + b.defs
  {
    CcPrerequisites(a.includes + b.includes, a.defs + b.defs)
  }

  /**
   * Merging prerequisites is order-insensitive and idempotent, with the
   * empty prerequisites as identity: the accumulated prerequisites of a
   * sequence of snippets do not depend on the order they are consumed in.
   */
  lemma AddIsUnion(a: CcPrerequisites, b: CcPrerequisites, c: CcPrerequisites)
    ensures Add(a, b) == Add(b, a)
    ensures Add(Add(a, b), c) == Add(a, Add(b, c))
    ensures Add(a, a) == a && Add(a, NoPrereqs) == a
  {
  }

  /** A C++ token sequence and what it depends on. */
  datatype CcSnippet = CcSnippet(tokens: seq<string>, prereqs: CcPrerequisites)

  /** `CcSnippet::new`: no prerequisites. */
  function Keyword(tokens: seq<string>): CcSnippet {
    CcSnippet(tokens, NoPrereqs)
  }

  /** `CcSnippet::with_include`. */
  function WithInclude(tokens: seq<string>, inc: CcInclude): CcSnippet {
    CcSnippet(tokens, CcPrerequisites({inc}, {}))
  }

  // ---------------------------------------------------------------------
  // Fully qualified names

  /** Each namespace component as a C++ identifier followed by `::`. */
  function NamespaceForCc(tcx: Tcx, mods: seq<string>): (r: Result<seq<string>>)
    ensures r.Ok? <==> forall i :: 0 <= i < |mods| ==> tcx.ccIdent(mods[i]).Ok?
    ensures r.Ok? ==> |r.value| == 2 * |mods|
  {
    if |mods| == 0 then Ok([])
    else
      match tcx.ccIdent(mods[0])
      case Err(e) => Err(e)
      case Ok(id) =>
        match NamespaceForCc(tcx, mods[1..])
        case Err(e) => Err(e)
        case Ok(rest) =>
          assert forall i :: 1 <= i < |mods| ==> mods[i] == mods[1..][i - 1];
          Ok([id, "::"] + rest)
  }

  function NamespaceForRs(tcx: Tcx, mods: seq<string>): (r: seq<string>)
    ensures |r| == 2 * |mods|
  {
    if |mods| == 0 then [] else [tcx.rsIdent(mods[0]), "::"] + NamespaceForRs(tcx, mods[1..])
  }

  /** `FullyQualifiedName::format_for_cc`: `:: crate :: mods name`. */
  function FqnForCc(tcx: Tcx, n: FullyQualifiedName): (r: Result<seq<string>>)
    ensures r.Ok? <==>
      tcx.ccIdent(n.krate).Ok? && NamespaceForCc(tcx, n.modPath).Ok? && tcx.ccIdent(n.name).Ok?
    ensures r.Ok? ==>
      |r.value| == 4 + 2 * |n.modPath| && r.value[0] == "::" && r.value[2] == "::"
      && r.value[1] == tcx.ccIdent(n.krate).value && r.value[|r.value| - 1] == tcx.ccIdent(n.name).value
    ensures tcx.ccIdent(n.krate).Err? ==> r == Err(tcx.ccIdent(n.krate).error)
  {
    match tcx.ccIdent(n.krate)
    case Err(e) => Err(e)
    case Ok(top) =>
      match NamespaceForCc(tcx, n.modPath)
      case Err(e) => Err(e)
      case Ok(ns) =>
        match tcx.ccIdent(n.name)
        case Err(e) => Err(e)
        case Ok(name) => Ok(["::", top, "::"] + ns + [name])
  }

  /** `FullyQualifiedName::format_for_rs`: infallible. */
  function FqnForRs(tcx: Tcx, n: FullyQualifiedName): (r: seq<string>)
    ensures |r| == 4 + 2 * |n.modPath| && r[0] == "::" && r[1] == tcx.rsIdent(n.krate)
    ensures r[|r| - 1] == tcx.rsIdent(n.name)
  {
    ["::", tcx.rsIdent(n.krate), "::"] + NamespaceForRs(tcx, n.modPath) + [tcx.rsIdent(n.name)]
  }

  // ---------------------------------------------------------------------
  // Error messages

  const NeverMsg := "The never type `!` is only supported as a return type (b/254507801)"
  const UnitMsg := "`()` / `void` is only supported as a return type (b/254507801)"
  const GenericTypesMsg := "Generic types are not supported yet (b/259749095)"
  const CrossCrateMsg := "Cross-crate dependencies are not supported yet (b/258261328)"
  const DropMsg := "`Drop` trait and \"drop glue\" are not supported yet (b/258251148)"
  const ZstMsg := "Zero-sized types (ZSTs) are not supported (b/258259459)"

  function TuplesMsg(tcx: Tcx, ty: RustTy): string {
    "Tuples are not supported yet: " + Display(tcx, ty) + " (b/254099023)"
  }

  function NoStdEquivalentMsg(tcx: Tcx, ty: RustTy): string {
    "C++ doesn't have a standard equivalent of `" + Display(tcx, ty) + "` (b/254094650)"
  }

  function UnsupportedMsg(spelling: string): string {
    "The following Rust type is not supported yet: " + spelling
  }

  function PointeeContext(tcx: Tcx, pointee: RustTy): string {
    "Failed to format the pointee of the pointer type `" + Display(tcx, pointee) + "`"
  }

  // ---------------------------------------------------------------------
  // The core of an ADT binding

  /**
   * What `format_adt_core` produces: the C++ name, the ABI alignment and
   * size used by `alignas`, the `static_assert`s and the opaque blob, and
   * the Rust spelling of the type used by the Rust-side layout asserts.
   */
  datatype AdtCore = AdtCore(ccName: string, align: nat, size: nat, rsType: seq<string>)

  /** `get_adt_layout`: the layout query, with the item name in the error. */
  function GetAdtLayout(tcx: Tcx, d: nat): (r: Result<Layout>)
    ensures r.Ok? <==> tcx.adt(d).layout.Ok?
    ensures r.Ok? ==> r.value == tcx.adt(d).layout.value
  {
    match tcx.adt(d).layout
    case Ok(l) => Ok(l)
    case Err(e) => Err("Error computing the layout of #" + tcx.adt(d).itemName + ": " + e)
  }

  /** Whether `format_adt_core` succeeds for definition `d`. */
  predicate AdtCoreSucceeds(tcx: Tcx, d: nat) {
    var f := tcx.adt(d);
    tcx.ccIdent(f.itemName).Ok? && !f.needsDrop && f.layout.Ok? && f.layout.value.size != 0
  }

  /**
   * `format_adt_core`: fails when the name is not a C++ identifier, when
   * the type needs drop glue, when its layout is unknown, or when it is
   * zero-sized, checked in that order. On success, C++ and Rust assert the
   * layout the compiler computed.
   */
  function FormatAdtCore(tcx: Tcx, d: nat): (r: Result<AdtCore>)
    ensures r.Ok? <==> AdtCoreSucceeds(tcx, d)
    ensures r.Ok? ==>
      r.value.ccName == tcx.ccIdent(tcx.adt(d).itemName).value
      && r.value.size == tcx.adt(d).layout.value.size
      && r.value.align == tcx.adt(d).layout.value.align
      && r.value.rsType == FqnForRs(tcx, tcx.adt(d).path)
    ensures tcx.ccIdent(tcx.adt(d).itemName).Ok? && tcx.adt(d).needsDrop ==> r == Err(DropMsg)
  {
    var f := tcx.adt(d);
    match tcx.ccIdent(f.itemName).Context("Error formatting item name")
    case Err(e) => Err(e)
    case Ok(ccName) =>
      if f.needsDrop then Err(DropMsg)
      else
        match GetAdtLayout(tcx, d)
        case Err(e) => Err(e)
        case Ok(layout) =>
          if layout.size == 0 then Err(ZstMsg)
          else
            match FormatTyForRs(tcx, Adt(d, false))
            case Err(e) => Err(e)
            case Ok(rsType) => Ok(AdtCore(ccName, layout.align, layout.size, rsType))
  }

  // ---------------------------------------------------------------------
  // Rust spelling of a type

  /** The types the Rust side can spell: `i128`, `!` and `()` included. */
  predicate RsSupported(ty: RustTy) {
    match ty
    case Bool => true
    case Char => true
    case Never => true
    case Int(_) => true
    case Uint(_) => true
    case Float(_) => true
    case Tuple(es) => |es| == 0
    case Adt(_, generic) => !generic
    case RawPtr(_, p) => RsSupported(p)
    case Unsupported(_) => false
  }

  /**
   * `format_ty_for_rs`: scalars as rustc prints them, `()` for the unit
   * type, crate-qualified paths for ADTs (also from other crates), and
   * `* mut|const pointee` for raw pointers.
   */
  function FormatTyForRs(tcx: Tcx, ty: RustTy): (r: Result<seq<string>>)
    ensures r.Ok? <==> RsSupported(ty)
    ensures r.Ok? ==> |r.value| > 0 && r.value[0] != "mut" && r.value[0] != "const"
    ensures r.Ok? && ty.RawPtr? ==> r.value[0] == "*"
    ensures r.Ok? && !ty.RawPtr? && ty.Adt? ==> r.value == FqnForRs(tcx, tcx.adt(ty.def).path)
    ensures r.Ok? && !ty.RawPtr? && !ty.Adt? ==> r.value == [if ty.Tuple? then "()" else Display(tcx, ty)]
    ensures ty.Adt? && ty.hasGenericArgs ==> r == Err(GenericTypesMsg)
    ensures ty.Tuple? && |ty.elements| > 0 ==> r == Err(TuplesMsg(tcx, ty))
  {
    match ty
    case Bool => Ok([Display(tcx, ty)])
    case Char => Ok([Display(tcx, ty)])
    case Never => Ok([Display(tcx, ty)])
    case Int(_) => Ok([Display(tcx, ty)])
    case Uint(_) => Ok([Display(tcx, ty)])
    case Float(_) => Ok([Display(tcx, ty)])
    case Tuple(es) => if |es| == 0 then Ok(["()"]) else Err(TuplesMsg(tcx, ty))
    case Adt(d, generic) =>
      if generic then Err(GenericTypesMsg) else Ok(FqnForRs(tcx, tcx.adt(d).path))
    case RawPtr(m, p) =>
      (match FormatTyForRs(tcx, p).Context(PointeeContext(tcx, p))
       case Err(e) => Err(e)
       case Ok(pt) => Ok(["*", if m == Mut then "mut" else "const"] + pt))
    case Unsupported(s) => Err(UnsupportedMsg(s))
  }

  /** Strip raw pointers: the type a chain of pointers finally points at. */
  function Innermost(ty: RustTy): (r: RustTy)
    ensures !r.RawPtr?
    ensures RsSupported(ty) ==> RsSupported(r)
  {
    if ty.RawPtr? then Innermost(ty.pointee) else ty
  }

  /** The mutabilities of the pointer levels, outermost first. */
  function PointerMutabilities(ty: RustTy): seq<Mutability> {
    if ty.RawPtr? then [ty.mutbl] + PointerMutabilities(ty.pointee) else []
  }

  /**
   * Reads the Rust spelling back: leading `* mut` / `* const` pairs give
   * the pointer levels, the rest spells the pointee.
   */
  function ReadRsPointers(ts: seq<string>): (seq<Mutability>, seq<string>) {
    if |ts| >= 2 && ts[0] == "*" && (ts[1] == "mut" || ts[1] == "const") then
      var (ms, rest) := ReadRsPointers(ts[2..]);
      ([if ts[1] == "mut" then Mut else Not] + ms, rest)
    else ([], ts)
  }

  /**
   * The Rust spelling of a pointer type reads back as its pointer levels
   * (with their mutability) around the spelling of the innermost type.
   */
  lemma {:induction false} RsPointerRoundTrip(tcx: Tcx, ty: RustTy)
    requires RsSupported(ty)
    ensures ReadRsPointers(FormatTyForRs(tcx, ty).value)
         == (PointerMutabilities(ty), FormatTyForRs(tcx, Innermost(ty)).value)
  {
    if ty.RawPtr? {
      RsPointerRoundTrip(tcx, ty.pointee);
      var ts := FormatTyForRs(tcx, ty).value;
      assert ts[2..] == FormatTyForRs(tcx, ty.pointee).value;
    }
  }

  // ---------------------------------------------------------------------
  // C++ spelling of a type

  function IntCcName(i: IntTy): string
    requires i != I128
  {
    match i
    case I8 => "std::int8_t" case I16 => "std::int16_t" case I32 => "std::int32_t"
    case I64 => "std::int64_t" case Isize => "std::intptr_t"
  }

  function UintCcName(u: UintTy): string
    requires u != U128
  {
    match u
    case U8 => "std::uint8_t" case U16 => "std::uint16_t" case U32 => "std::uint32_t"
    case U64 => "std::uint64_t" case Usize => "std::uintptr_t"
  }

  /**
   * The fixed-width integer names of `<cstdint>`: `std::intN_t` for a
   * signed and `std::uintN_t` for an unsigned type of width N, where the
   * pointer-sized types have width `ptr`.
   */
  function CIntName(signed: bool, width: string): string {
    "std::" + (if signed then "" else "u") + "int" + width + "_t"
  }

  function IntWidth(i: IntTy): string
    requires i != I128
  {
    match i
    case I8 => "8" case I16 => "16" case I32 => "32" case I64 => "64" case Isize => "ptr"
  }

  function UintWidth(u: UintTy): string
    requires u != U128
  {
    match u
    case U8 => "8" case U16 => "16" case U32 => "32" case U64 => "64" case Usize => "ptr"
  }

  /**
   * The C++ name a supported non-pointer type should be spelled with:
   * `bool`, `float` and `double` for the same-sized C types, the
   * `<cstdint>` integer of the same width and signedness (a `char` is a
   * 32-bit unsigned scalar value), and the fully qualified C++ name of a
   * struct, enum or union.
   */
  function CcBaseName(tcx: Tcx, ty: RustTy): seq<string>
    requires CcSupported(tcx, ty) && !ty.RawPtr?
  {
    match ty
    case Bool => ["bool"]
    case Float(f) => [if f == F32 then "float" else "double"]
    case Char => [CIntName(false, "32")]
    case Int(i) => [CIntName(true, IntWidth(i))]
    case Uint(u) => [CIntName(false, UintWidth(u))]
    case Adt(d, _) => FqnForCc(tcx, tcx.adt(d).path).value
    case _ => []
  }

  /** `n` copies of the token `t`. */
  function Repeat(t: string, n: nat): (r: seq<string>)
    ensures |r| == n
  {
    if n == 0 then [] else [t] + Repeat(t, n - 1)
  }

  /** A copy added at the back is a copy more. */
  lemma {:induction false} RepeatSnoc(t: string, n: nat)
    ensures Repeat(t, n) + [t] == Repeat(t, n + 1)
  {
    if n > 0 {
      RepeatSnoc(t, n - 1);
      assert Repeat(t, n) + [t] == [t] + (Repeat(t, n - 1) + [t]);
    }
  }

  /** The number of `*const` levels of a pointer type. */
  function ConstLevels(ty: RustTy): nat {
    if ty.RawPtr? then (if ty.mutbl == Not then 1 else 0) + ConstLevels(ty.pointee) else 0
  }

  /** The number of pointer levels of a type. */
  function PointerDepth(ty: RustTy): nat {
    if ty.RawPtr? then 1 + PointerDepth(ty.pointee) else 0
  }

  /**
   * The spelling bindings.rs gives a supported type: one `const` for each
   * `*const` level, all of them in front, then the innermost type's name,
   * then one `*` per pointer level.
   */
  function AsWrittenTokens(tcx: Tcx, ty: RustTy): seq<string>
    requires CcSupported(tcx, ty)
  {
    InnermostCcSupported(tcx, ty);
    Repeat("const", ConstLevels(ty)) + CcBaseName(tcx, Innermost(ty)) + Repeat("*", PointerDepth(ty))
  }

  lemma InnermostCcSupported(tcx: Tcx, ty: RustTy)
    requires CcSupported(tcx, ty)
    ensures CcSupported(tcx, Innermost(ty))
  {
    if ty.RawPtr? {
      InnermostCcSupported(tcx, ty.pointee);
    }
  }

  /** The table of integer names follows the `<cstdint>` naming scheme. */
  lemma IntNamesAgree(i: IntTy)
    requires i != I128
    ensures IntCcName(i) == CIntName(true, IntWidth(i))
  {
  }

  lemma UintNamesAgree(u: UintTy)
    requires u != U128
    ensures UintCcName(u) == CIntName(false, UintWidth(u))
  {
  }

  /** Types whose C++ spelling comes from `<cstdint>`. */
  predicate NeedsCstdint(ty: RustTy) {
    ty.Char? || ty.Int? || ty.Uint?
  }

  /** The types the C++ side can name (as a parameter or field type). */
  predicate CcSupported(tcx: Tcx, ty: RustTy) {
    match ty
    case Bool => true
    case Char => true
    case Float(_) => true
    case Int(i) => i != I128
    case Uint(u) => u != U128
    case Adt(d, generic) =>
      !generic && AdtCoreSucceeds(tcx, d) && tcx.adt(d).isLocal
      && FqnForCc(tcx, tcx.adt(d).path).Ok?
    case RawPtr(_, p) => CcSupported(tcx, p)
    case _ => false
  }

  /**
   * The prerequisites a supported type's C++ spelling must carry: pointers
   * pass their pointee's prerequisites through unchanged, so only the
   * innermost type contributes `<cstdint>` or a local definition.
   */
  function ExpectedPrereqs(ty: RustTy): CcPrerequisites {
    var inner := Innermost(ty);
    CcPrerequisites(
      if NeedsCstdint(inner) then {Cstdint} else {},
      if inner.Adt? then {inner.def} else {})
  }

  /** Where the `const` of `*const T` goes in the C++ spelling. */
  datatype ConstPlacement =
    | /** Always in front of the pointee's spelling, as bindings.rs does. */
      ConstBeforePointee
    | /** In front of a non-pointer pointee, else right after the pointee. */
      ConstOnPointee

  function PointerTokens(place: ConstPlacement, m: Mutability, pointee: RustTy, pt: seq<string>): seq<string> {
    if m == Mut then pt + ["*"]
    else if place == ConstBeforePointee || !pointee.RawPtr? then ["const"] + pt + ["*"]
    else pt + ["const", "*"]
  }

  /**
   * `format_ty_for_cc`, with the placement of `const` as a parameter.
   * `!`, `()`, tuples, 128-bit integers, generic ADTs, ADTs whose core
   * binding fails, ADTs of other crates and the unsupported kinds are
   * errors; a pointer's error is its pointee's, with context.
   */
  function FormatTyForCcWith(tcx: Tcx, ty: RustTy, place: ConstPlacement): (r: Result<CcSnippet>)
    ensures r.Ok? <==> CcSupported(tcx, ty)
    ensures r.Ok? ==> r.value.prereqs == ExpectedPrereqs(ty)
    ensures r.Ok? && !ty.RawPtr? ==> r.value.tokens == CcBaseName(tcx, ty)
  {
    match ty
    case Never => Err(NeverMsg)
    case Tuple(es) => if |es| == 0 then Err(UnitMsg) else Err(TuplesMsg(tcx, ty))
    case Bool => Ok(Keyword(["bool"]))
    case Float(f) => Ok(Keyword([if f == F32 then "float" else "double"]))
    case Char => FormatIntegerTyForCc(tcx, ty)
    case Int(_) => FormatIntegerTyForCc(tcx, ty)
    case Uint(_) => FormatIntegerTyForCc(tcx, ty)
    case Adt(d, generic) => FormatAdtTyForCc(tcx, d, generic)
    case RawPtr(m, p) =>
      (match FormatTyForCcWith(tcx, p, place).Context(PointeeContext(tcx, p))
       case Err(e) => Err(e)
       case Ok(s) =>
         ExpectedPrereqsOfPointer(m, p);
         Ok(CcSnippet(PointerTokens(place, m, p, s.tokens), s.prereqs)))
    case Unsupported(s) => Err(UnsupportedMsg(s))
  }

  /** The `<cstdint>` spelling of `char` and the integer types other than 128-bit. */
  function FormatIntegerTyForCc(tcx: Tcx, ty: RustTy): (r: Result<CcSnippet>)
    requires NeedsCstdint(ty)
    ensures r.Ok? <==> CcSupported(tcx, ty)
    ensures r.Ok? ==> r.value.prereqs == CcPrerequisites({Cstdint}, {})
    ensures r.Ok? ==> r.value.tokens == CcBaseName(tcx, ty)
  {
    match ty
    case Int(i) =>
      if i == I128 then Err(NoStdEquivalentMsg(tcx, ty))
      else
        IntNamesAgree(i);
        Ok(WithInclude([IntCcName(i)], Cstdint))
    case Uint(u) =>
      if u == U128 then Err(NoStdEquivalentMsg(tcx, ty))
      else
        UintNamesAgree(u);
        Ok(WithInclude([UintCcName(u)], Cstdint))
    case Char =>
      assert CIntName(false, "32") == "std::uint32_t";
      Ok(WithInclude(["std::uint32_t"], Cstdint))
  }

  /** The fully qualified C++ name of a local, non-generic ADT whose core binding succeeds. */
  function FormatAdtTyForCc(tcx: Tcx, d: nat, generic: bool): (r: Result<CcSnippet>)
    ensures r.Ok? <==> CcSupported(tcx, Adt(d, generic))
    ensures r.Ok? ==> r.value.prereqs == CcPrerequisites({}, {d})
    ensures r.Ok? ==> r.value.tokens == CcBaseName(tcx, Adt(d, generic))
  {
    if generic then Err(GenericTypesMsg)
    else
      match FormatAdtCore(tcx, d)
      case Err(e) => Err("Failed to generate bindings for the definition of `" + Display(tcx, Adt(d, generic)) + "`: " + e)
      case Ok(_) =>
        if !tcx.adt(d).isLocal then Err(CrossCrateMsg)
        else
          match FqnForCc(tcx, tcx.adt(d).path)
          case Err(e) => Err(e)
          case Ok(tokens) => Ok(CcSnippet(tokens, CcPrerequisites({}, {d})))
  }

  /** A pointer needs what its pointee needs. */
  lemma ExpectedPrereqsOfPointer(m: Mutability, p: RustTy)
    ensures ExpectedPrereqs(RawPtr(m, p)) == ExpectedPrereqs(p)
  {
    assert Innermost(RawPtr(m, p)) == Innermost(p);
  }

  /** `!`, `()` and tuples have no C++ spelling, each with its own error. */
  lemma FormatTyForCcErrors(tcx: Tcx, ty: RustTy, place: ConstPlacement)
    ensures var r := FormatTyForCcWith(tcx, ty, place);
      && (ty == Never ==> r == Err(NeverMsg))
      && (ty == Tuple([]) ==> r == Err(UnitMsg))
      && (ty.Tuple? && |ty.elements| > 0 ==> r == Err(TuplesMsg(tcx, ty)))
  {
  }

  /** 128-bit integers and the unsupported kinds have no C++ spelling either. */
  lemma FormatTyForCcScalarErrors(tcx: Tcx, ty: RustTy, place: ConstPlacement)
    ensures var r := FormatTyForCcWith(tcx, ty, place);
      && (ty == Int(I128) || ty == Uint(U128) ==> r == Err(NoStdEquivalentMsg(tcx, ty)))
      && (ty.Unsupported? ==> r == Err(UnsupportedMsg(ty.spelling)))
  {
  }

  /**
   * A generic ADT is rejected before anything else is looked at; a
   * non-generic one whose core binding succeeds is rejected when it comes
   * from another crate.
   */
  lemma FormatAdtTyErrors(tcx: Tcx, d: nat, generic: bool, place: ConstPlacement)
    ensures var r := FormatTyForCcWith(tcx, Adt(d, generic), place);
      && (generic ==> r == Err(GenericTypesMsg))
      && (!generic && AdtCoreSucceeds(tcx, d) && !tcx.adt(d).isLocal ==> r == Err(CrossCrateMsg))
  {
  }

  /** A pointer reports its pointee's error under a context naming the pointee. */
  lemma PointerErrorNamesPointee(tcx: Tcx, m: Mutability, p: RustTy, place: ConstPlacement)
    ensures var r := FormatTyForCcWith(tcx, RawPtr(m, p), place);
      r.Err? <==> FormatTyForCcWith(tcx, p, place).Err?
    ensures var r := FormatTyForCcWith(tcx, RawPtr(m, p), place);
      r.Err? ==> r.error == PointeeContext(tcx, p) + ": " + FormatTyForCcWith(tcx, p, place).error
  {
  }

  /**
   * `format_ty_for_cc` exactly as bindings.rs spells pointers; the
   * formatter the function bindings use.
   */
  function FormatTyForCcAsWritten(tcx: Tcx, ty: RustTy): (r: Result<CcSnippet>)
    ensures r.Ok? <==> CcSupported(tcx, ty)
    ensures r.Ok? ==> r.value.prereqs == ExpectedPrereqs(ty)
    ensures r.Ok? && !ty.RawPtr? ==> r.value.tokens == CcBaseName(tcx, ty)
  {
    FormatTyForCcWith(tcx, ty, ConstBeforePointee)
  }

  /**
   * Every `const` bindings.rs emits for a pointer type comes before the
   * innermost name, and every `*` after it.
   */
  lemma {:induction false} AsWrittenSpelling(tcx: Tcx, ty: RustTy)
    requires CcSupported(tcx, ty)
    ensures FormatTyForCcAsWritten(tcx, ty).Ok?
    ensures FormatTyForCcAsWritten(tcx, ty).value.tokens == AsWrittenTokens(tcx, ty)
  {
    if ty.RawPtr? {
      var p := ty.pointee;
      AsWrittenSpelling(tcx, p);
      InnermostCcSupported(tcx, p);
      var pt := FormatTyForCcWith(tcx, p, ConstBeforePointee).value.tokens;
      assert FormatTyForCcWith(tcx, ty, ConstBeforePointee).value.tokens
          == PointerTokens(ConstBeforePointee, ty.mutbl, p, pt);
      AddPointerLevel(pt, CcBaseName(tcx, Innermost(p)), ConstLevels(p), PointerDepth(p), ty.mutbl);
    }
  }

  /** One more pointer level adds a `*` at the back, and a `const` at the front when immutable. */
  lemma AddPointerLevel(pt: seq<string>, base: seq<string>, c: nat, k: nat, m: Mutability)
    requires pt == Repeat("const", c) + base + Repeat("*", k)
    ensures m == Not ==> ["const"] + pt + ["*"] == Repeat("const", c + 1) + base + Repeat("*", k + 1)
    ensures m == Mut ==> pt + ["*"] == Repeat("const", c) + base + Repeat("*", k + 1)
  {
    RepeatSnoc("*", k);
  }

  /** `format_ty_for_cc` with `const` qualifying the right pointer level. */
  function FormatTyForCc(tcx: Tcx, ty: RustTy): (r: Result<CcSnippet>)
    ensures r.Ok? <==> CcSupported(tcx, ty)
    ensures r.Ok? ==> r.value.prereqs == ExpectedPrereqs(ty)
    ensures r.Ok? && !ty.RawPtr? ==> r.value.tokens == CcBaseName(tcx, ty)
  {
    FormatTyForCcWith(tcx, ty, ConstOnPointee)
  }

  /** Every type C++ can name, Rust can spell. */
  lemma {:induction false} CcSupportedIsRsSupported(tcx: Tcx, ty: RustTy)
    requires CcSupported(tcx, ty)
    ensures RsSupported(ty)
  {
    if ty.RawPtr? {
      CcSupportedIsRsSupported(tcx, ty.pointee);
    }
  }

  /** `format_ret_ty_for_cc`: `!` and `()` become `void`. */
  function FormatRetTyForCc(tcx: Tcx, ty: RustTy): (r: Result<CcSnippet>)
    ensures r.Ok? <==> ty == Never || ty == Tuple([]) || CcSupported(tcx, ty)
    ensures ty == Never || ty == Tuple([]) ==> r == Ok(Keyword(["void"]))
    ensures r.Ok? ==> (ty == Never || ty == Tuple([]) || r.value.prereqs == ExpectedPrereqs(ty))
    ensures ty != Never && ty != Tuple([]) ==> r == FormatTyForCcAsWritten(tcx, ty)
  {
    if ty == Never || ty == Tuple([]) then Ok(Keyword(["void"]))
    else FormatTyForCcAsWritten(tcx, ty)
  }

  /**
   * `format_cc_thunk_arg`: a `Copy` value is passed as is; anything else is
   * moved with `std::move`, which needs `<utility>`.
   */
  function FormatCcThunkArg(tcx: Tcx, ty: RustTy, value: seq<string>): (r: CcSnippet)
    ensures r.prereqs.defs == {}
    ensures r.prereqs.includes == if tcx.isCopy(ty) then {} else {Utility}
    ensures tcx.isCopy(ty) <==> r.tokens == value
    ensures !tcx.isCopy(ty) ==>
      |r.tokens| == |value| + 3 && r.tokens[..2] == ["std::move", "("] && r.tokens[2..|r.tokens| - 1] == value
  {
    if tcx.isCopy(ty) then Keyword(value)
    else WithInclude(["std::move", "("] + value + [")"], Utility)
  }

  // ---------------------------------------------------------------------
  // Reading a C++ declarator back

  /**
   * The meaning of a C++ type spelling built from a type name, `const` and
   * `*`: `const` in front of the name or right after it qualifies the
   * name; `const` after a `*` qualifies that pointer; a second `const` on
   * the same level is ill-formed.
   */
  datatype CcDecl = CcBase(name: seq<string>, isConst: bool) | CcPtr(pointee: CcDecl, isConst: bool)

  predicate PlainName(ts: seq<string>) {
    |ts| > 0 && forall i :: 0 <= i < |ts| ==> ts[i] != "const" && ts[i] != "*"
  }

  function ReadCcDecl(ts: seq<string>): Option<CcDecl>
    decreases |ts|
  {
    if |ts| == 0 then None
    else if ts[|ts| - 1] == "*" then
      match ReadCcDecl(ts[..|ts| - 1])
      case None => None
      case Some(d) => Some(CcPtr(d, false))
    else if ts[|ts| - 1] == "const" then
      match ReadCcDecl(ts[..|ts| - 1])
      case None => None
      case Some(d) => if d.isConst then None else Some(d.(isConst := true))
    else if ts[0] == "const" then
      if PlainName(ts[1..]) then Some(CcBase(ts[1..], true)) else None
    else if PlainName(ts) then Some(CcBase(ts, false))
    else None
  }

  /** The C++ type a supported Rust type should denote. */
  function ExpectedCcDecl(tcx: Tcx, ty: RustTy): CcDecl
    requires CcSupported(tcx, ty)
  {
    match ty
    case RawPtr(m, p) =>
      var inner := ExpectedCcDecl(tcx, p);
      CcPtr(if m == Not then inner.(isConst := true) else inner, false)
    case _ => CcBase(CcBaseName(tcx, ty), false)
  }

  /** The identifier formatter never yields the tokens `const` or `*`. */
  ghost predicate IdentsArePlain(tcx: Tcx) {
    forall s :: tcx.ccIdent(s).Ok? ==> tcx.ccIdent(s).value != "const" && tcx.ccIdent(s).value != "*"
  }

  lemma NamespaceTokensPlain(tcx: Tcx, mods: seq<string>)
    requires IdentsArePlain(tcx) && NamespaceForCc(tcx, mods).Ok?
    ensures forall i :: 0 <= i < |NamespaceForCc(tcx, mods).value| ==>
      NamespaceForCc(tcx, mods).value[i] != "const" && NamespaceForCc(tcx, mods).value[i] != "*"
  {
    if |mods| > 0 {
      NamespaceTokensPlain(tcx, mods[1..]);
    }
  }

  lemma BaseSpellingPlain(tcx: Tcx, ty: RustTy)
    requires IdentsArePlain(tcx) && CcSupported(tcx, ty) && !ty.RawPtr?
    ensures PlainName(CcBaseName(tcx, ty))
  {
    if ty.Adt? {
      NamespaceTokensPlain(tcx, tcx.adt(ty.def).path.modPath);
    }
  }

  /**
   * With `const` placed on the pointee, the C++ spelling of every
   * supported type denotes the type it should: each `*const` level of the
   * Rust type is a pointer to a `const` pointee in C++.
   */
  lemma {:induction false} CcSpellingMeansRustType(tcx: Tcx, ty: RustTy)
    requires IdentsArePlain(tcx) && CcSupported(tcx, ty)
    ensures ReadCcDecl(FormatTyForCc(tcx, ty).value.tokens) == Some(ExpectedCcDecl(tcx, ty))
  {
    if ty.RawPtr? {
      var p := ty.pointee;
      var pt := FormatTyForCc(tcx, p).value.tokens;
      CcSpellingMeansRustType(tcx, p);
      assert FormatTyForCc(tcx, ty).value.tokens == PointerTokens(ConstOnPointee, ty.mutbl, p, pt);
      if ty.mutbl == Mut {
        ReadAfterStar(pt);
      } else if !p.RawPtr? {
        BaseSpellingPlain(tcx, p);
        ReadConstName(pt);
      } else {
        ReadConstAfterPointer(pt);
      }
    } else {
      BaseSpellingPlain(tcx, ty);
    }
  }

  /** A trailing `*` makes a mutable pointer to what the rest declares. */
  lemma ReadAfterStar(pt: seq<string>)
    requires ReadCcDecl(pt).Some?
    ensures ReadCcDecl(pt + ["*"]) == Some(CcPtr(ReadCcDecl(pt).value, false))
  {
    assert (pt + ["*"])[..|pt|] == pt;
  }

  /** `const N *` is a mutable pointer to a `const` named type. */
  lemma ReadConstName(pt: seq<string>)
    requires PlainName(pt)
    ensures ReadCcDecl(["const"] + pt + ["*"]) == Some(CcPtr(CcBase(pt, true), false))
  {
    var ts := ["const"] + pt + ["*"];
    assert ts[..|ts| - 1] == ["const"] + pt;
    assert (["const"] + pt)[1..] == pt;
  }

  /** `P const *` is a mutable pointer to the pointer `P` made `const`. */
  lemma ReadConstAfterPointer(pt: seq<string>)
    requires ReadCcDecl(pt).Some? && !ReadCcDecl(pt).value.isConst
    ensures ReadCcDecl(pt + ["const", "*"]) == Some(CcPtr(ReadCcDecl(pt).value.(isConst := true), false))
  {
    var ts := pt + ["const", "*"];
    assert ts[..|ts| - 1] == pt + ["const"];
    assert (pt + ["const"])[..|pt|] == pt;
  }

  /**
   * The spelling bindings.rs emits puts the `const` of `*const *mut i32`
   * on the `int32_t` instead of on the inner pointer.
   */
  lemma ConstOnWrongLevelAsWritten(tcx: Tcx)
    ensures var ty := RawPtr(Not, RawPtr(Mut, Int(I32)));
      FormatTyForCcAsWritten(tcx, ty).Ok?
      && FormatTyForCcAsWritten(tcx, ty).value.tokens == ["const", "std::int32_t", "*", "*"]
      && ReadCcDecl(FormatTyForCcAsWritten(tcx, ty).value.tokens)
         == Some(CcPtr(CcPtr(CcBase(["std::int32_t"], true), false), false))
      && ExpectedCcDecl(tcx, ty) == CcPtr(CcPtr(CcBase(["std::int32_t"], false), true), false)
  {
    ConstMutI32Tokens(tcx);
    ReadConstBeforeTwoStars();
    Int32BaseName(tcx);
    assert ExpectedCcDecl(tcx, Int(I32)) == CcBase(["std::int32_t"], false);
  }

  lemma ConstMutI32Tokens(tcx: Tcx)
    ensures var ty := RawPtr(Not, RawPtr(Mut, Int(I32)));
      FormatTyForCcAsWritten(tcx, ty).Ok?
      && FormatTyForCcAsWritten(tcx, ty).value.tokens == ["const", "std::int32_t", "*", "*"]
  {
    var ty := RawPtr(Not, RawPtr(Mut, Int(I32)));
    assert CcSupported(tcx, RawPtr(Mut, Int(I32))) && CcSupported(tcx, ty);
    Int32BaseName(tcx);
    assert ConstLevels(RawPtr(Mut, Int(I32))) == 0 && ConstLevels(ty) == 1;
    assert PointerDepth(RawPtr(Mut, Int(I32))) == 1 && PointerDepth(ty) == 2;
    assert Innermost(ty) == Int(I32);
    AsWrittenSpelling(tcx, ty);
    assert AsWrittenTokens(tcx, ty) == Repeat("const", 1) + ["std::int32_t"] + Repeat("*", 2);
  }

  lemma Int32BaseName(tcx: Tcx)
    ensures CcSupported(tcx, Int(I32)) && CcBaseName(tcx, Int(I32)) == ["std::int32_t"]
  {
    IntNamesAgree(I32);
  }

  lemma ReadConstBeforeTwoStars()
    ensures ReadCcDecl(["const", "std::int32_t", "*", "*"])
         == Some(CcPtr(CcPtr(CcBase(["std::int32_t"], true), false), false))
  {
    var ts := ["const", "std::int32_t", "*", "*"];
    assert ts[..3] == ["const", "std::int32_t", "*"];
    assert ts[..3][..2] == ["const", "std::int32_t"];
    assert ts[..3][..2][1..] == ["std::int32_t"];
  }

  /** ... and spells `*const *const i32` with a repeated `const`. */
  lemma DuplicateConstAsWritten(tcx: Tcx)
    ensures var ty := RawPtr(Not, RawPtr(Not, Int(I32)));
      FormatTyForCcAsWritten(tcx, ty).Ok?
      && FormatTyForCcAsWritten(tcx, ty).value.tokens == ["const", "const", "std::int32_t", "*", "*"]
      && ReadCcDecl(FormatTyForCcAsWritten(tcx, ty).value.tokens) == None
  {
    ConstConstI32Tokens(tcx);
    ReadDoubleConst();
  }

  lemma ConstConstI32Tokens(tcx: Tcx)
    ensures var ty := RawPtr(Not, RawPtr(Not, Int(I32)));
      FormatTyForCcAsWritten(tcx, ty).Ok?
      && FormatTyForCcAsWritten(tcx, ty).value.tokens == ["const", "const", "std::int32_t", "*", "*"]
  {
    var ty := RawPtr(Not, RawPtr(Not, Int(I32)));
    assert CcSupported(tcx, RawPtr(Not, Int(I32))) && CcSupported(tcx, ty);
    Int32BaseName(tcx);
    assert ConstLevels(RawPtr(Not, Int(I32))) == 1 && ConstLevels(ty) == 2;
    assert PointerDepth(RawPtr(Not, Int(I32))) == 1 && PointerDepth(ty) == 2;
    assert Innermost(ty) == Int(I32);
    AsWrittenSpelling(tcx, ty);
    assert AsWrittenTokens(tcx, ty) == Repeat("const", 2) + ["std::int32_t"] + Repeat("*", 2);
  }

  lemma ReadDoubleConst()
    ensures ReadCcDecl(["const", "const", "std::int32_t", "*", "*"]) == None
  {
    var ts := ["const", "const", "std::int32_t", "*", "*"];
    assert ts[..4][..3] == ["const", "const", "std::int32_t"];
    assert ts[..4][..3][1..][0] == "const";
  }

  /** For a single pointer level both placements spell the same tokens. */
  lemma PlacementsAgreeOnSingleLevel(tcx: Tcx, m: Mutability, p: RustTy)
    requires !p.RawPtr?
    ensures FormatTyForCc(tcx, RawPtr(m, p)) == FormatTyForCcAsWritten(tcx, RawPtr(m, p))
  {
    assert FormatTyForCcWith(tcx, p, ConstOnPointee) == FormatTyForCcWith(tcx, p, ConstBeforePointee);
  }
}
