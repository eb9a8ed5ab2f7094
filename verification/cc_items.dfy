/**
 * Bindings for one definition: a function becomes a C++ declaration (and,
 * unless it already has the C ABI, a Rust thunk with a C ABI); a struct,
 * enum or union becomes an opaque C++ struct with the Rust layout; any
 * other public item is an error that the caller turns into a comment.
 */
module CcItems {
  import opened Wrappers
  import opened RustcFacts
  import opened CcTypes

  datatype CcParam = CcParam(ty: seq<string>, name: string)

  /** The C++ side of one definition's bindings. */
  datatype CcItem =
    | /** `extern "C" ret name(params);` */
      ExternFn(doc: string, ret: seq<string>, name: string, params: seq<CcParam>)
    | /**
       * `namespace __crubit_internal { extern "C" ret exported(params); }`
       * followed by `inline ret name(params) { return
       * __crubit_internal::exported(thunkArgs); }`
       */
      InlineWrapper(doc: string, ret: seq<string>, name: string, exported: string,
                    params: seq<CcParam>, thunkArgs: seq<seq<string>>)
    | /**
       * `struct alignas(align) name final { ... unsigned char
       * opaque_blob_of_bytes[blobSize]; };` plus `static_assert`s on
       * `sizeof` and `alignof`
       */
      OpaqueStruct(doc: string, core: AdtCore, blobSize: nat)
    | ErrorComment(message: string)

  /** The Rust side of one definition's bindings. */
  datatype RsItem =
    | NoRs
    | /** `#[no_mangle] extern "C" fn exported(params) -> ret { ::callee(args) }` */
      RsThunk(exported: string, params: seq<(string, seq<string>)>, ret: seq<string>,
              callee: seq<string>, args: seq<string>)
    | /** `const _: () = assert!(size_of::<T>() == size)` and the same for alignment */
      LayoutAsserts(rsType: seq<string>, size: nat, align: nat)

  datatype MixedSnippet = MixedSnippet(cc: CcItem, prereqs: CcPrerequisites, rs: RsItem)

  const VariadicMsg := "C variadic functions are not supported (b/254097223)"
  const UnsafeMsg := "Bindings for `unsafe` functions are not fully designed yet (b/254095482)"
  const GenericsMsg := "Generics are not supported yet (b/259749023 and b/259749095)"
  const UnsupportedNodeMsg := "Unsupported rustc_hir::hir::Node"
  const CycleMsg := "Definition dependency cycle"

  function ParamName(index: nat): string {
    "__param_" + NatToString(index)
  }

  /** A function keeps its symbol only under the C (or C-unwind) ABI. */
  function ExportedSymbol(f: FnFacts): string {
    if f.sig.abi.C? then f.symbol else "__crubit_thunk_" + f.symbol
  }

  /** The C++ name of parameter `index`: its Rust name if that is a C++ identifier, else `__param_i`. */
  function CcArgName(tcx: Tcx, p: FnParam, index: nat): string {
    if tcx.ccIdent(p.name).Ok? then tcx.ccIdent(p.name).value else ParamName(index)
  }

  /** The Rust name of parameter `index`: `__param_i` when it has none. */
  function RsArgName(tcx: Tcx, p: FnParam, index: nat): string {
    if p.name == "" then ParamName(index) else tcx.rsIdent(p.name)
  }

  /** The C++ parameter names, numbered from `start`. */
  function CcArgNames(tcx: Tcx, ps: seq<FnParam>, start: nat): (r: seq<string>)
    ensures |r| == |ps|
    ensures forall i :: 0 <= i < |ps| ==> r[i] == CcArgName(tcx, ps[i], start + i)
  {
    if |ps| == 0 then []
    else
      var rest := CcArgNames(tcx, ps[1..], start + 1);
      assert forall i :: 1 <= i < |ps| ==> ps[i] == ps[1..][i - 1];
      [CcArgName(tcx, ps[0], start)] + rest
  }

  /** The Rust parameter names, numbered from `start`. */
  function RsArgNames(tcx: Tcx, ps: seq<FnParam>, start: nat): (r: seq<string>)
    ensures |r| == |ps|
    ensures forall i :: 0 <= i < |ps| ==> r[i] == RsArgName(tcx, ps[i], start + i)
  {
    if |ps| == 0 then []
    else
      var rest := RsArgNames(tcx, ps[1..], start + 1);
      assert forall i :: 1 <= i < |ps| ==> ps[i] == ps[1..][i - 1];
      [RsArgName(tcx, ps[0], start)] + rest
  }

  /** Every parameter type can be named in C++. */
  predicate ParamsCcSupported(tcx: Tcx, ps: seq<FnParam>) {
    forall i :: 0 <= i < |ps| ==> CcSupported(tcx, ps[i].ty)
  }

  /** The union of the prerequisites of the parameter types. */
  function ParamsPrereqs(ps: seq<FnParam>): CcPrerequisites {
    if |ps| == 0 then NoPrereqs else Add(ExpectedPrereqs(ps[0].ty), ParamsPrereqs(ps[1..]))
  }

  /**
   * The C++ parameter types, formatted in order; the first failure is
   * reported as "Error formatting the type of parameter #i".
   */
  function FormatCcParamTypes(tcx: Tcx, ps: seq<FnParam>, start: nat): (r: Result<(seq<seq<string>>, CcPrerequisites)>)
    ensures r.Ok? <==> ParamsCcSupported(tcx, ps)
    ensures r.Ok? ==> |r.value.0| == |ps| && r.value.1 == ParamsPrereqs(ps)
    ensures r.Ok? ==> forall i :: 0 <= i < |ps| ==> r.value.0[i] == FormatTyForCcAsWritten(tcx, ps[i].ty).value.tokens
  {
    if |ps| == 0 then Ok(([], NoPrereqs))
    else
      ParamsCcSupportedCons(tcx, ps);
      match FormatTyForCcAsWritten(tcx, ps[0].ty).Context(ParamTypeContext(start))
      case Err(e) => Err(e)
      case Ok(s) =>
        match FormatCcParamTypes(tcx, ps[1..], start + 1)
        case Err(e) => Err(e)
        case Ok(rest) =>
          ParamTypesCons(tcx, ps, s.tokens, rest.0);
          Ok(([s.tokens] + rest.0, Add(s.prereqs, rest.1)))
  }

  /** The spellings of the first parameter and of the rest make up the spellings of all. */
  lemma ParamTypesCons(tcx: Tcx, ps: seq<FnParam>, first: seq<string>, rest: seq<seq<string>>)
    requires |ps| > 0 && ParamsCcSupported(tcx, ps) && |rest| == |ps| - 1
    requires first == FormatTyForCcAsWritten(tcx, ps[0].ty).value.tokens
    requires forall i :: 0 <= i < |rest| ==> rest[i] == FormatTyForCcAsWritten(tcx, ps[1..][i].ty).value.tokens
    ensures forall i :: 0 <= i < |ps| ==> ([first] + rest)[i] == FormatTyForCcAsWritten(tcx, ps[i].ty).value.tokens
  {
    forall i | 0 <= i < |ps|
      ensures ([first] + rest)[i] == FormatTyForCcAsWritten(tcx, ps[i].ty).value.tokens
    {
      if i > 0 {
        assert ps[i] == ps[1..][i - 1];
      }
    }
  }

  function ParamTypeContext(index: nat): string {
    "Error formatting the type of parameter #" + NatToString(index)
  }

  lemma ParamsCcSupportedCons(tcx: Tcx, ps: seq<FnParam>)
    requires |ps| > 0
    ensures ParamsCcSupported(tcx, ps) <==> CcSupported(tcx, ps[0].ty) && ParamsCcSupported(tcx, ps[1..])
  {
    if CcSupported(tcx, ps[0].ty) && ParamsCcSupported(tcx, ps[1..]) {
      forall i | 0 <= i < |ps|
        ensures CcSupported(tcx, ps[i].ty)
      {
        if i > 0 { assert ps[i] == ps[1..][i - 1]; }
      }
    }
  }

  /** Whether some parameter is not `Copy` (and so is passed with `std::move`). */
  predicate SomeParamMoved(tcx: Tcx, ps: seq<FnParam>) {
    exists i :: 0 <= i < |ps| && !tcx.isCopy(ps[i].ty)
  }

  /** The arguments the inline wrapper passes to the exported function. */
  function ThunkArgs(tcx: Tcx, names: seq<string>, ps: seq<FnParam>): (r: (seq<seq<string>>, CcPrerequisites))
    requires |names| == |ps|
    ensures |r.0| == |ps|
    ensures r.1.defs == {}
    ensures r.1.includes == if SomeParamMoved(tcx, ps) then {Utility} else {}
    ensures forall i :: 0 <= i < |ps| ==> r.0[i] == FormatCcThunkArg(tcx, ps[i].ty, [names[i]]).tokens
  {
    if |ps| == 0 then ([], NoPrereqs)
    else
      var a := FormatCcThunkArg(tcx, ps[0].ty, [names[0]]);
      var rest := ThunkArgs(tcx, names[1..], ps[1..]);
      SomeParamMovedCons(tcx, ps);
      ThunkIncludesCons(a.prereqs.includes, rest.1.includes, !tcx.isCopy(ps[0].ty), SomeParamMoved(tcx, ps[1..]));
      assert forall i :: 1 <= i < |ps| ==> ps[i] == ps[1..][i - 1];
      ([a.tokens] + rest.0, Add(a.prereqs, rest.1))
  }

  lemma SomeParamMovedCons(tcx: Tcx, ps: seq<FnParam>)
    requires |ps| > 0
    ensures SomeParamMoved(tcx, ps) <==> !tcx.isCopy(ps[0].ty) || SomeParamMoved(tcx, ps[1..])
  {
    if SomeParamMoved(tcx, ps[1..]) {
      var i :| 0 <= i < |ps[1..]| && !tcx.isCopy(ps[1..][i].ty);
      assert ps[1..][i] == ps[i + 1];
    }
  }

  lemma ThunkIncludesCons(a: set<CcInclude>, b: set<CcInclude>, moved: bool, restMoved: bool)
    requires a == if moved then {Utility} else {}
    requires b == if restMoved then {Utility} else {}
    ensures a + b == if moved || restMoved then {Utility} else {}
  {
  }

  /** The Rust parameter types of a thunk; the first failure is the error. */
  function FormatRsParamTypes(tcx: Tcx, ps: seq<FnParam>): (r: Result<seq<seq<string>>>)
    ensures r.Ok? <==> forall i :: 0 <= i < |ps| ==> RsSupported(ps[i].ty)
    ensures r.Ok? ==> |r.value| == |ps|
    ensures r.Ok? ==> forall i :: 0 <= i < |ps| ==> r.value[i] == FormatTyForRs(tcx, ps[i].ty).value
  {
    if |ps| == 0 then Ok([])
    else
      match FormatTyForRs(tcx, ps[0].ty)
      case Err(e) => Err(e)
      case Ok(t) =>
        match FormatRsParamTypes(tcx, ps[1..])
        case Err(e) =>
          assert exists i :: 0 <= i < |ps[1..]| && !RsSupported(ps[1..][i].ty);
          Err(e)
        case Ok(rest) =>
          assert forall i :: 1 <= i < |ps| ==> ps[i] == ps[1..][i - 1];
          Ok([t] + rest)
  }

  function Zip(a: seq<string>, b: seq<seq<string>>): (r: seq<(string, seq<string>)>)
    requires |a| == |b|
    ensures |r| == |a| && forall i :: 0 <= i < |a| ==> r[i] == (a[i], b[i])
  {
    if |a| == 0 then [] else [(a[0], b[0])] + Zip(a[1..], b[1..])
  }

  function ZipParams(types: seq<seq<string>>, names: seq<string>): (r: seq<CcParam>)
    requires |types| == |names|
    ensures |r| == |types| && forall i :: 0 <= i < |types| ==> r[i] == CcParam(types[i], names[i])
  {
    if |types| == 0 then [] else [CcParam(types[0], names[0])] + ZipParams(types[1..], names[1..])
  }

  /** Whether the C++ return type of `output` can be spelled. */
  predicate RetCcSupported(tcx: Tcx, output: RustTy) {
    output == Never || output == Tuple([]) || CcSupported(tcx, output)
  }

  /** The prerequisites of a return type (`void` has none). */
  function RetPrereqs(output: RustTy): CcPrerequisites {
    if output == Never || output == Tuple([]) then NoPrereqs else ExpectedPrereqs(output)
  }

  /** Everything `format_fn` needs from the compiler for the C++ side to succeed. */
  predicate FnBindable(tcx: Tcx, f: FnFacts) {
    !f.sig.cVariadic && !f.sig.isUnsafe
    && RetCcSupported(tcx, f.sig.output)
    && tcx.ccIdent(f.path.name).Ok?
    && ParamsCcSupported(tcx, f.sig.params)
    && (f.path.name == ExportedSymbol(f) || tcx.ccIdent(ExportedSymbol(f)).Ok?)
  }

  /** The C++ part of `format_fn`. */
  function FormatFnCc(tcx: Tcx, f: FnFacts, doc: string): (r: Result<(CcItem, CcPrerequisites)>)
    requires !f.sig.cVariadic && !f.sig.isUnsafe
    ensures r.Ok? <==> FnBindable(tcx, f)
    ensures r.Ok? ==> (r.value.0.ExternFn? <==> f.path.name == ExportedSymbol(f))
    ensures r.Ok? ==> r.value.0.ExternFn? || r.value.0.InlineWrapper?
    ensures r.Ok? && r.value.0.InlineWrapper? ==>
      r.value.0.exported == tcx.ccIdent(ExportedSymbol(f)).value
      && |r.value.0.thunkArgs| == |f.sig.params|
    ensures r.Ok? ==>
      |r.value.0.params| == |f.sig.params| && r.value.0.name == tcx.ccIdent(f.path.name).value
    ensures r.Ok? ==> r.value.0.doc == doc && r.value.0.ret == FormatRetTyForCc(tcx, f.sig.output).value.tokens
    // parameter i is declared with its as-written C++ type under its C++ name
    ensures r.Ok? ==> forall i :: 0 <= i < |f.sig.params| ==>
      r.value.0.params[i]
        == CcParam(FormatTyForCcAsWritten(tcx, f.sig.params[i].ty).value.tokens, CcArgName(tcx, f.sig.params[i], i))
    // the wrapper passes parameter i on by name, moved unless it is `Copy`
    ensures r.Ok? && r.value.0.InlineWrapper? ==> forall i :: 0 <= i < |f.sig.params| ==>
      r.value.0.thunkArgs[i] == FormatCcThunkArg(tcx, f.sig.params[i].ty, [CcArgName(tcx, f.sig.params[i], i)]).tokens
    ensures r.Ok? ==> r.value.1.defs == RetPrereqs(f.sig.output).defs + ParamsPrereqs(f.sig.params).defs
    ensures r.Ok? ==>
      r.value.1.includes ==
        RetPrereqs(f.sig.output).includes + ParamsPrereqs(f.sig.params).includes
        + (if r.value.0.InlineWrapper? && SomeParamMoved(tcx, f.sig.params) then {Utility} else {})
  {
    match FormatRetTyForCc(tcx, f.sig.output).Context("Error formatting function return type")
    case Err(e) => Err(e)
    case Ok(ret) =>
      match tcx.ccIdent(f.path.name).Context("Error formatting function name")
      case Err(e) => Err(e)
      case Ok(fnName) =>
        match FormatCcParamTypes(tcx, f.sig.params, 0)
        case Err(e) => Err(e)
        case Ok((argTypes, argPrereqs)) => FnCcItem(tcx, f, doc, ret, fnName, argTypes, argPrereqs)
  }

  /**
   * The declaration `format_fn` emits once the return type, the name and
   * the parameter types are formatted: the function itself when it is
   * exported under its own name, otherwise an inline wrapper around the
   * exported thunk.
   */
  function FnCcItem(tcx: Tcx, f: FnFacts, doc: string, ret: CcSnippet, fnName: string,
                    argTypes: seq<seq<string>>, argPrereqs: CcPrerequisites): (r: Result<(CcItem, CcPrerequisites)>)
    requires |argTypes| == |f.sig.params|
    ensures r.Ok? <==> f.path.name == ExportedSymbol(f) || tcx.ccIdent(ExportedSymbol(f)).Ok?
    ensures r.Ok? ==> (r.value.0.ExternFn? <==> f.path.name == ExportedSymbol(f))
    ensures r.Ok? ==> r.value.0.ExternFn? || r.value.0.InlineWrapper?
    ensures r.Ok? && r.value.0.InlineWrapper? ==>
      r.value.0.exported == tcx.ccIdent(ExportedSymbol(f)).value
      && |r.value.0.thunkArgs| == |f.sig.params|
    ensures r.Ok? ==> |r.value.0.params| == |f.sig.params| && r.value.0.name == fnName
    ensures r.Ok? ==> r.value.0.doc == doc && r.value.0.ret == ret.tokens
    // parameter i is declared with its formatted type under its C++ name
    ensures r.Ok? ==> forall i :: 0 <= i < |f.sig.params| ==>
      r.value.0.params[i] == CcParam(argTypes[i], CcArgName(tcx, f.sig.params[i], i))
    // the wrapper passes parameter i on by name, moved unless it is `Copy`
    ensures r.Ok? && r.value.0.InlineWrapper? ==> forall i :: 0 <= i < |f.sig.params| ==>
      r.value.0.thunkArgs[i] == FormatCcThunkArg(tcx, f.sig.params[i].ty, [CcArgName(tcx, f.sig.params[i], i)]).tokens
    ensures r.Ok? ==> r.value.1.defs == ret.prereqs.defs + argPrereqs.defs
    ensures r.Ok? ==>
      r.value.1.includes ==
        ret.prereqs.includes + argPrereqs.includes
        + (if r.value.0.InlineWrapper? && SomeParamMoved(tcx, f.sig.params) then {Utility} else {})
  {
    var argNames := CcArgNames(tcx, f.sig.params, 0);
    var prereqs := Add(ret.prereqs, argPrereqs);
    var params := ZipParams(argTypes, argNames);
    var symbol := ExportedSymbol(f);
    if f.path.name == symbol then
      Ok((ExternFn(doc, ret.tokens, fnName, params), prereqs))
    else
      match tcx.ccIdent(symbol).Context("Error formatting exported name")
      case Err(e) => Err(e)
      case Ok(exported) =>
        var (thunkArgs, thunkPrereqs) := ThunkArgs(tcx, argNames, f.sig.params);
        Ok((InlineWrapper(doc, ret.tokens, fnName, exported, params, thunkArgs),
            Add(prereqs, thunkPrereqs)))
  }

  /** The Rust part of `format_fn`: a thunk only when the ABI is not C. */
  function FormatFnRs(tcx: Tcx, f: FnFacts): (r: Result<RsItem>)
    ensures f.sig.abi.C? ==> r == Ok(NoRs)
    ensures !f.sig.abi.C? && r.Ok? ==>
      r.value.RsThunk? && r.value.exported == tcx.rsIdent(ExportedSymbol(f))
      && |r.value.params| == |f.sig.params| && |r.value.args| == |f.sig.params|
      && r.value.callee == FqnForRs(tcx, f.path)
    ensures r.Err? <==>
      !f.sig.abi.C? && (!RsSupported(f.sig.output) || exists i :: 0 <= i < |f.sig.params| && !RsSupported(f.sig.params[i].ty))
    // the thunk's signature and call mirror the C++ declaration: the Rust
    // return type, then each parameter's Rust name and type, passed on by name
    ensures !f.sig.abi.C? && r.Ok? ==>
      r.value.ret == FormatTyForRs(tcx, f.sig.output).value
      && r.value.args == RsArgNames(tcx, f.sig.params, 0)
      && forall i :: 0 <= i < |f.sig.params| ==>
        r.value.params[i] == (RsArgName(tcx, f.sig.params[i], i), FormatTyForRs(tcx, f.sig.params[i].ty).value)
  {
    if f.sig.abi.C? then Ok(NoRs)
    else
      match FormatTyForRs(tcx, f.sig.output)
      case Err(e) => Err(e)
      case Ok(ret) =>
        var names := RsArgNames(tcx, f.sig.params, 0);
        match FormatRsParamTypes(tcx, f.sig.params)
        case Err(e) => Err(e)
        case Ok(types) =>
          Ok(RsThunk(tcx.rsIdent(ExportedSymbol(f)), Zip(names, types), ret, FqnForRs(tcx, f.path), names))
  }

  /**
   * `format_fn`: variadic and `unsafe` functions are rejected first; then
   * the C++ declaration is formatted, then the Rust thunk.
   */
  function FormatFn(tcx: Tcx, f: FnFacts, doc: string): (r: Result<MixedSnippet>)
    ensures f.sig.cVariadic ==> r == Err(VariadicMsg)
    ensures !f.sig.cVariadic && f.sig.isUnsafe ==> r == Err(UnsafeMsg)
    ensures r.Ok? ==> FnBindable(tcx, f)
    ensures r.Ok? ==> (r.value.rs.NoRs? <==> f.sig.abi.C?)
    ensures r.Ok? ==> (r.value.cc.ExternFn? <==> f.path.name == ExportedSymbol(f))
    ensures r.Ok? ==> r.value.prereqs.defs == RetPrereqs(f.sig.output).defs + ParamsPrereqs(f.sig.params).defs
    ensures r.Ok? ==>
      r.value.prereqs.includes ==
        RetPrereqs(f.sig.output).includes + ParamsPrereqs(f.sig.params).includes
        + (if r.value.cc.InlineWrapper? && SomeParamMoved(tcx, f.sig.params) then {Utility} else {})
    ensures r.Ok? && !f.sig.abi.C? ==> r.value.rs.RsThunk?
    // the snippet is the C++ declaration and the Rust thunk formatted separately
    ensures r.Ok? ==>
      FormatFnCc(tcx, f, doc).Ok? && FormatFnRs(tcx, f).Ok?
      && r.value == MixedSnippet(FormatFnCc(tcx, f, doc).value.0, FormatFnCc(tcx, f, doc).value.1, FormatFnRs(tcx, f).value)
    // the C++ side's error comes first, then the Rust side's
    ensures !f.sig.cVariadic && !f.sig.isUnsafe && FormatFnCc(tcx, f, doc).Err? ==>
      r == Err(FormatFnCc(tcx, f, doc).error)
    ensures !f.sig.cVariadic && !f.sig.isUnsafe && FormatFnCc(tcx, f, doc).Ok? && FormatFnRs(tcx, f).Err? ==>
      r == Err(FormatFnRs(tcx, f).error)
  {
    if f.sig.cVariadic then Err(VariadicMsg)
    else if f.sig.isUnsafe then Err(UnsafeMsg)
    else
      match FormatFnCc(tcx, f, doc)
      case Err(e) => Err(e)
      case Ok((cc, prereqs)) =>
        match FormatFnRs(tcx, f)
        case Err(e) => Err(e)
        case Ok(rs) => Ok(MixedSnippet(cc, prereqs, rs))
  }

  /**
   * `format_fn` fails only for the reasons of its C++ side: when the C++
   * declaration can be formatted, every type in the signature also has a
   * Rust spelling, so the thunk can be formatted too. When both sides
   * export a thunk, they name the same symbol.
   */
  lemma FormatFnFailsOnlyOnCcSide(tcx: Tcx, f: FnFacts, doc: string)
    ensures FormatFn(tcx, f, doc).Ok? <==> FnBindable(tcx, f)
    ensures FormatFn(tcx, f, doc).Ok? && FormatFn(tcx, f, doc).value.cc.InlineWrapper? ==>
      FormatFn(tcx, f, doc).value.cc.exported == tcx.ccIdent(ExportedSymbol(f)).value
    ensures FormatFn(tcx, f, doc).Ok? && FormatFn(tcx, f, doc).value.rs.RsThunk? ==>
      FormatFn(tcx, f, doc).value.rs.exported == tcx.rsIdent(ExportedSymbol(f))
  {
    if FnBindable(tcx, f) {
      if f.sig.output != Never && f.sig.output != Tuple([]) {
        CcSupportedIsRsSupported(tcx, f.sig.output);
      }
      forall i | 0 <= i < |f.sig.params|
        ensures RsSupported(f.sig.params[i].ty)
      {
        CcSupportedIsRsSupported(tcx, f.sig.params[i].ty);
      }
    }
  }

  // ---------------------------------------------------------------------
  // ADTs

  /**
   * `format_adt_data`: the fields are an opaque blob as large as the type;
   * only called once the core binding succeeded, so the layout is known.
   */
  function FormatAdtData(tcx: Tcx, d: nat): (size: nat)
    requires tcx.adt(d).layout.Ok?
    ensures size == tcx.adt(d).layout.value.size
  {
    GetAdtLayout(tcx, d).value.size
  }

  /**
   * `format_adt`: the opaque struct has no C++ prerequisites; its blob,
   * its `static_assert`s and the Rust-side asserts all state the size and
   * alignment the compiler computed.
   */
  function FormatAdt(tcx: Tcx, d: nat, doc: string): (r: Result<MixedSnippet>)
    ensures r.Ok? <==> AdtCoreSucceeds(tcx, d)
    ensures r.Err? ==> r.error == FormatAdtCore(tcx, d).error
    ensures r.Ok? ==>
      r.value.prereqs.IsEmpty()
      && r.value.cc.OpaqueStruct?
      && r.value.cc.blobSize == tcx.adt(d).layout.value.size == r.value.cc.core.size
      && r.value.cc.core.align == tcx.adt(d).layout.value.align
      && r.value.rs == LayoutAsserts(FqnForRs(tcx, tcx.adt(d).path), r.value.cc.blobSize, r.value.cc.core.align)
  {
    match FormatAdtCore(tcx, d)
    case Err(e) => Err(e)
    case Ok(core) =>
      var data := FormatAdtData(tcx, d);
      Ok(MixedSnippet(OpaqueStruct(doc, core, data), NoPrereqs, LayoutAsserts(core.rsType, core.size, core.align)))
  }

  // ---------------------------------------------------------------------
  // Definitions

  function UnsupportedItemKindMsg(descr: string): string {
    "Unsupported rustc_hir::hir::ItemKind: " + descr
  }

  /**
   * `format_unsupported_def`: a C++ comment naming the definition, where
   * it is, and why it has no bindings; no Rust code.
   */
  function FormatUnsupportedDef(tcx: Tcx, d: nat, err: string): (r: MixedSnippet)
    ensures r.prereqs.IsEmpty() && r.rs == NoRs && r.cc.ErrorComment?
    ensures r.cc.message == "Error generating bindings for `" + tcx.def(d).pathStr
      + "` defined at " + tcx.def(d).spanStr + ": " + err
  {
    MixedSnippet(
      ErrorComment("Error generating bindings for `" + tcx.def(d).pathStr + "` defined at "
        + tcx.def(d).spanStr + ": " + err),
      NoPrereqs, NoRs)
  }

  predicate IsFnOrAdt(k: ItemKind) {
    k.FnItem? || k.StructItem? || k.EnumItem? || k.UnionItem?
  }

  /** A directly public item node with (or without) generic parameters. */
  predicate PublicItem(tcx: Tcx, d: nat, generic: bool) {
    tcx.def(d).directlyPublic && tcx.def(d).node.ItemNode? && tcx.def(d).node.hasGenericParams == generic
  }

  /** `.map(Some)`: a snippet is kept, an error passes through. */
  function MapSome(s: Result<MixedSnippet>): (r: Result<Option<MixedSnippet>>)
    ensures r.Ok? <==> s.Ok?
    ensures s.Ok? ==> r.value == Some(s.value)
    ensures s.Err? ==> r.error == s.error
  {
    match s
    case Ok(v) => Ok(Some(v))
    case Err(e) => Err(e)
  }

  /**
   * `format_def`: a definition that is not directly public, or a module,
   * produces nothing; generic functions and ADTs, other item kinds and
   * non-item nodes are errors; functions and ADTs are formatted.
   */
  function FormatDef(tcx: Tcx, d: nat): (r: Result<Option<MixedSnippet>>)
    ensures !tcx.def(d).directlyPublic ==> r == Ok(None)
    ensures r == Ok(None) <==>
      !tcx.def(d).directlyPublic || (tcx.def(d).node.ItemNode? && tcx.def(d).node.kind == ModItem)
    ensures r.Ok? && r.value.Some? ==>
      tcx.def(d).node.ItemNode? && IsFnOrAdt(tcx.def(d).node.kind) && !tcx.def(d).node.hasGenericParams
    ensures
      (tcx.def(d).directlyPublic && tcx.def(d).node.ItemNode? && IsFnOrAdt(tcx.def(d).node.kind)
       && tcx.def(d).node.hasGenericParams) ==> r == Err(GenericsMsg)
    ensures tcx.def(d).directlyPublic && tcx.def(d).node == OtherNode ==> r == Err(UnsupportedNodeMsg)
    ensures r.Ok? && r.value.Some? && tcx.def(d).node.kind == FnItem ==>
      (r.value.value.rs.NoRs? <==> tcx.fnFacts(d).sig.abi.C?)
    // a public non-generic function is `format_fn`'s snippet or error
    ensures PublicItem(tcx, d, false) && tcx.def(d).node.kind.FnItem? ==>
      r == MapSome(FormatFn(tcx, tcx.fnFacts(d), tcx.def(d).docComment))
    // a public non-generic struct, enum or union is `format_adt`'s snippet or error
    ensures PublicItem(tcx, d, false) && IsFnOrAdt(tcx.def(d).node.kind) && !tcx.def(d).node.kind.FnItem? ==>
      r == MapSome(FormatAdt(tcx, d, tcx.def(d).docComment))
    // any other public item kind but a module is reported by its description
    ensures tcx.def(d).node.ItemNode? && PublicItem(tcx, d, tcx.def(d).node.hasGenericParams) && tcx.def(d).node.kind.OtherItem? ==>
      r == Err(UnsupportedItemKindMsg(tcx.def(d).node.kind.descr))
  {
    var facts := tcx.def(d);
    if !facts.directlyPublic then Ok(None)
    else
      match facts.node
      case OtherNode => Err(UnsupportedNodeMsg)
      case ItemNode(kind, generic) =>
        if IsFnOrAdt(kind) && generic then Err(GenericsMsg)
        else if kind.FnItem? then MapSome(FormatFn(tcx, tcx.fnFacts(d), facts.docComment))
        else if IsFnOrAdt(kind) then MapSome(FormatAdt(tcx, d, facts.docComment))
        else if kind.ModItem? then Ok(None)
        else Err(UnsupportedItemKindMsg(kind.descr))
  }
}
