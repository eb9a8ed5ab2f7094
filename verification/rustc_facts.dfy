/**
 * What the bindings generator asks the Rust compiler. The generator runs
 * inside rustc and queries its type context; here every query it makes is
 * an input: a `Tcx` value whose fields answer the queries for one crate.
 */
module RustcFacts {
  import opened Wrappers

  datatype IntTy = I8 | I16 | I32 | I64 | I128 | Isize
  datatype UintTy = U8 | U16 | U32 | U64 | U128 | Usize
  datatype FloatTy = F32 | F64
  datatype Mutability = Mut | Not

  /**
   * The kinds of `rustc_middle::ty::TyKind` the generator distinguishes.
   * `Adt` carries whether the type has generic arguments (`substs`);
   * every kind the generator rejects as "not supported yet" (arrays,
   * slices, references, `str`, function pointers, trait objects, ...) is an
   * `Unsupported` value with its printed form.
   */
  datatype RustTy =
    | Bool
    | Char
    | Never
    | Int(i: IntTy)
    | Uint(u: UintTy)
    | Float(f: FloatTy)
    | Tuple(elements: seq<RustTy>)
    | Adt(def: nat, hasGenericArgs: bool)
    | RawPtr(mutbl: Mutability, pointee: RustTy)
    | Unsupported(spelling: string)

  /** `crate::mod_path::name` of an item. */
  datatype FullyQualifiedName = FullyQualifiedName(krate: string, modPath: seq<string>, name: string)

  datatype Layout = Layout(size: nat, align: nat)

  /** Compiler facts about one struct, enum or union. */
  datatype AdtFacts = AdtFacts(
    itemName: string,
    display: string,
    path: FullyQualifiedName,
    isLocal: bool,
    needsDrop: bool,
    layout: Result<Layout>)

  datatype Abi = C(unwind: bool) | RustAbi | OtherAbi(name: string)

  /** One input of a function: the name `fn_arg_names` reports and its type. */
  datatype FnParam = FnParam(name: string, ty: RustTy)

  datatype FnSig = FnSig(params: seq<FnParam>, output: RustTy, cVariadic: bool, isUnsafe: bool, abi: Abi)

  /** Compiler facts about one non-generic function: path, symbol, signature. */
  datatype FnFacts = FnFacts(path: FullyQualifiedName, symbol: string, sig: FnSig)

  datatype ItemKind =
    | FnItem
    | StructItem
    | EnumItem
    | UnionItem
    | ModItem
    | OtherItem(descr: string)

  datatype HirNode = ItemNode(kind: ItemKind, hasGenericParams: bool) | OtherNode

  /**
   * Compiler facts about one local definition of the crate: its HIR node,
   * visibility, module path inside the crate, printed path, printed span,
   * source position (used to keep source order) and doc comment.
   */
  datatype DefFacts = DefFacts(
    node: HirNode,
    directlyPublic: bool,
    modPath: seq<string>,
    pathStr: string,
    spanStr: string,
    span: nat,
    docComment: string)

  /**
   * The type context: the name of the local crate, the C++ and Rust
   * identifier formatters of the shared code-generation helpers
   * (`format_cc_ident` can fail, `make_rs_ident` cannot), the `Copy`
   * query, and the per-definition facts above.
   */
  datatype Tcx = Tcx(
    crateName: string,
    ccIdent: string -> Result<string>,
    rsIdent: string -> string,
    isCopy: RustTy -> bool,
    adt: nat -> AdtFacts,
    fnFacts: nat -> FnFacts,
    def: nat -> DefFacts)

  function IntName(i: IntTy): string {
    match i
    case I8 => "i8" case I16 => "i16" case I32 => "i32"
    case I64 => "i64" case I128 => "i128" case Isize => "isize"
  }

  function UintName(u: UintTy): string {
    match u
    case U8 => "u8" case U16 => "u16" case U32 => "u32"
    case U64 => "u64" case U128 => "u128" case Usize => "usize"
  }

  /** `Display` of a type, as rustc prints it in messages. */
  function Display(tcx: Tcx, ty: RustTy): string {
    match ty
    case Bool => "bool"
    case Char => "char"
    case Never => "!"
    case Int(i) => IntName(i)
    case Uint(u) => UintName(u)
    case Float(f) => if f == F32 then "f32" else "f64"
    case Tuple(es) =>
      if |es| == 1 then "(" + Display(tcx, es[0]) + ",)"
      else "(" + JoinComma(seq(|es|, k requires 0 <= k < |es| => Display(tcx, es[k]))) + ")"
    case Adt(d, _) => tcx.adt(d).display
    case RawPtr(m, p) => (if m == Mut then "*mut " else "*const ") + Display(tcx, p)
    case Unsupported(s) => s
  }

  function JoinComma(parts: seq<string>): string {
    if |parts| == 0 then ""
    else if |parts| == 1 then parts[0]
    else parts[0] + ", " + JoinComma(parts[1..])
  }
}
