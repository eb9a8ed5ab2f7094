# crubit core, modelled in Dafny

This project models two pure, sequential parts of crubit. It also proves properties of that model.

**`cc_bindings_from_rs`** is the Rust-to-C++ bindings generator.
- Rust types map to C++ spellings (`format_ty_for_cc`) and Rust spellings (`format_ty_for_rs`). Each C++ spelling carries prerequisites: `#include`s plus local definitions that must come first.
- Functions become `extern "C"` declarations or inline wrappers around an exported thunk (`format_fn`).
- ADTs become opaque blobs with layout assertions (`format_adt_core`, `format_adt_data`, `format_adt`).
- Every public definition is classified (`format_def`). Failures become per-item comments (`format_unsupported_def`).
- The snippets are ordered so that every definition comes before its users (`format_crate`).
- The whole run is gated on the panic strategy (`GeneratedBindings::generate`).
- Two pieces of its command line are modelled: the `CRATE=PATH` parser of `--bindings-from-dependency`, and the executable name prepended to the forwarded compiler arguments.

**The pointer-nullability checker** works on *nullability vectors*: one nullability kind per pointer in a type, in pre-order.
- `type_nullability.cc` has the nullability walker, with pending nullability and template contexts. On top of it sit the pointer count, the annotations and `unspecifiedNullability`, and also the rebuilder that writes a vector back into a type, and the printer.
- The non-flow-sensitive transfer rules of the analysis (`nullability/pointer_nullability_analysis.cc`) come next. They fill a map from expressions to vectors bottom-up, using `computeNullability`, `getNullabilityForChild`, `prepend`, the class- and function-template substitutions and `getPointerNullability`.
- The older analysis (`nullability_verification/pointer_nullability_analysis.cc`) has the same rules. Its annotation visitor, pointer counter and substitution visitor are separate and simpler.

Modules:

| file | module | contents |
|---|---|---|
| `wrappers.dfy` | `Wrappers` | `Option`, `Result` with `Context` (the `anyhow` error context), decimal printing |
| `rustc_facts.dfy` | `RustcFacts` | `RustTy` and the compiler facts, passed in as a `Tcx` value |
| `cmdline.dfy` | `Cmdline` | the `KEY=VALUE` parser and `Cmdline::new` |
| `cc_types.dfy` | `CcTypes` | prerequisites, fully qualified names, type spellings, the ADT core |
| `cc_items.dfy` | `CcItems` | functions, ADTs, definitions |
| `cc_crate.dfy` | `CcCrate` | the topological sort, `format_crate`, `generate` |
| `nullability_types.dfy` | `NullTypes` | nullability kinds and their spelling, the C++ type tree, canonical types, the canonical pointer count |
| `type_nullability.dfy` | `TypeNullability` | walker, count, annotations, rebuilder |
| `nullability_lattice.dfy` | `NullabilityLattice` | the expression-to-vector map and the vector operations both analyses share |
| `nullability_transfer.dfy` | `NullabilityTransfer` | the non-flow-sensitive rules of the newer analysis |
| `nullability_transfer_props.dfy` | `NullabilityTransferProps` | what those rules guarantee |
| `nullability_legacy.dfy` | `NullabilityLegacy` | the older analysis |
| `nullability_legacy_props.dfy` | `NullabilityLegacyProps` | what the older rules guarantee, and where they go wrong |

Modelling conventions:
- **Compiler queries are inputs.** `Tcx` is a datatype of functions and records: layout, `Copy`, needs-drop, visibility, ABI, symbol name, argument names, definition paths, and `format_cc_ident` / `make_rs_ident`. The same holds for the facts the C++ analyses read from Clang's AST. Examples are whether a template parameter belongs to a partial specialization (`partialPattern`) and the depth of a replaced parameter (`depth`).
- **Token streams** are sequences of token strings. A C++ type tree is a `Ty`: sugar nodes (attributes, typedefs, alias and class template specializations, elaborated names, substituted template parameters) sit over the canonical nodes.
- **Aborts are error values.** A `CHECK` that fails, an `ArrayRef` assertion and undefined behaviour such as `front()` of an empty vector all become an `Err` result. Every property states when the result is `Ok`.

## Model

| member | source | states |
|---|---|---|
| Cmdline.Find | cc_bindings_from_rs/cmdline.rs:93-95 | `str::find`: the position of the first `=`, and none exactly when the input has no `=` |
| Cmdline.ParseBindingsFromDependency | cc_bindings_from_rs/cmdline.rs:92-104 | Input without `=` gives the "Expected KEY=VALUE" error quoting the input. A leading `=` gives the empty-crate-name error, and any other failure is the empty-include-path error. On success the crate name holds no `=`, both parts are non-empty, and `crate + "=" + path` is the input |
| Cmdline.ParseRoundTrip | cc_bindings_from_rs/cmdline.rs:92-104 | every well-formed `CRATE=PATH` (no `=` in the crate, both parts non-empty) parses back to exactly that pair, so the parser and the spelling are inverse |
| Cmdline.ParseDependencies | cc_bindings_from_rs/cmdline.rs:36-41 | repeated `--bindings-from-dependency` values parse to one pair per value, each respelling its value; the list fails exactly when some value is malformed |
| Cmdline.New | cc_bindings_from_rs/cmdline.rs:60-85 | fails exactly when the argument parser fails, with its error; on success the compiler arguments are `args[0]` followed by the parsed ones and no other field changes |
| CcTypes.Add | cc_bindings_from_rs/bindings.rs:125-138 | `+=` on prerequisites leaves the union of both include sets and the union of both def sets |
| CcTypes.AddIsUnion | cc_bindings_from_rs/bindings.rs:125-138 | accumulating prerequisites is commutative, associative and idempotent, and the empty prerequisites are neutral, so the order in which snippets are added does not matter |
| CcTypes.FqnForCc | cc_bindings_from_rs/bindings.rs:208-213 | the C++ name succeeds exactly when the crate, every module and the item name are C++ identifiers; the crate's own error is reported first |
| CcTypes.FqnForRs | cc_bindings_from_rs/bindings.rs:215-220 | the Rust path is `::crate::` then each module with `::`, ending in the item name |
| CcTypes.GetAdtLayout | cc_bindings_from_rs/bindings.rs:653-671 | the layout is the compiler's exactly when it has one |
| CcTypes.FormatAdtCore | cc_bindings_from_rs/bindings.rs:728-828 | Succeeds exactly when the name is a C++ identifier, no drop glue is needed, and the layout is known and non-zero; drop glue is reported before layout problems. On success the assertions use the compiler's size and ABI alignment, and the Rust side names the type by its full path |
| CcTypes.FormatTyForRs | cc_bindings_from_rs/bindings.rs:417-473 | Generic ADTs and non-empty tuples are rejected; every other kind has a Rust spelling, `i128`, `!` and `()` included. A raw pointer starts with `*`, an ADT is its full path, and the rest is the type's display name |
| CcTypes.Innermost | cc_bindings_from_rs/bindings.rs:440-449 | stripping pointer levels ends at a non-pointer and keeps Rust support |
| CcTypes.RsPointerRoundTrip | cc_bindings_from_rs/bindings.rs:440-449 | The Rust spelling of a pointer type can be read back: `*mut` / `*const` prefixes, one per level and in order, followed by the spelling of the innermost type |
| CcTypes.FormatTyForCcWith | cc_bindings_from_rs/bindings.rs:251-408 | A C++ spelling exists exactly for `bool`, `char`, floats, integers other than 128-bit, local non-generic ADTs whose core binding succeeds, and raw pointers to those. Its prerequisites are exactly `<cstdint>` for the integer kinds and `char`, the ADT's own id for an ADT, and the pointee's prerequisites unchanged for a pointer. A non-pointer is spelled by `CcBaseName`: `bool`, `float`/`double`, the `<cstdint>` integer `std::intN_t`/`std::uintN_t` of the same width and signedness (`std::intptr_t`/`std::uintptr_t` for `isize`/`usize`, `std::uint32_t` for `char`), and the ADT's fully qualified C++ name |
| CcTypes.FormatTyForCcErrors | cc_bindings_from_rs/bindings.rs:259-271 | `!`, `()` and non-empty tuples are errors as C++ parameter or field types, each with its own message |
| CcTypes.FormatTyForCcScalarErrors | cc_bindings_from_rs/bindings.rs:273-390 | `i128`/`u128` are rejected as having no standard C++ equivalent; unsupported kinds are rejected naming the type |
| CcTypes.FormatAdtTyErrors | cc_bindings_from_rs/bindings.rs:333-354 | a generic ADT is rejected before anything else; a non-local one whose core binding succeeds is a cross-crate error |
| CcTypes.PointerErrorNamesPointee | cc_bindings_from_rs/bindings.rs:356-369 | a pointer fails exactly when its pointee does, with the pointee's error under a context naming the pointee |
| CcTypes.CcSupportedIsRsSupported | cc_bindings_from_rs/bindings.rs:251-473 | every type with a C++ spelling also has a Rust spelling, so a thunk can always be written for a C++-bindable signature |
| CcTypes.FormatTyForCc | cc_bindings_from_rs/bindings.rs:251-408 | `format_ty_for_cc` with `const` on the level it qualifies. Its support and prerequisites are those of `FormatTyForCcWith`, and a non-pointer is spelled with its `CcBaseName` |
| CcTypes.CcSpellingMeansRustType | cc_bindings_from_rs/bindings.rs:356-369 | Read as a C++ declarator, the spelling of every supported type denotes that type. Each pointer level is const exactly when the Rust pointer at that level is `*const`, the innermost name is never const, and that name is the innermost type's `CcBaseName` (the scalar table or the ADT's qualified name), defined apart from the formatter |
| CcTypes.FormatIntegerTyForCc | cc_bindings_from_rs/bindings.rs:284-329 | `char` and every integer type except the 128-bit ones are spelled, needing only `<cstdint>`, with the `<cstdint>` name of the same width and signedness (`CcBaseName`); the 128-bit ones are errors |
| CcTypes.FormatAdtTyForCc | cc_bindings_from_rs/bindings.rs:331-354 | an ADT is spelled exactly when it is non-generic, its core binding succeeds, it is local and its fully qualified C++ name can be formatted; the spelling is that name and needs exactly the ADT's own definition |
| CcTypes.FormatTyForCcAsWritten | cc_bindings_from_rs/bindings.rs:251-408 | the spelling as bindings.rs builds it, the one the function bindings use. It succeeds on the same types and needs the same prerequisites as the corrected spelling, and a non-pointer is spelled with its `CcBaseName`; the shape of a pointer spelling is stated for every type by `CcTypes.AsWrittenSpelling` |
| CcTypes.AsWrittenSpelling | cc_bindings_from_rs/bindings.rs:356-369 | for every supported type, `FormatTyForCcAsWritten` succeeds and the `const` prefix the pointer case puts before its pointee accumulates in front, once per `*const` level, and the trailing `*` once per level, around the innermost type's name |
| CcTypes.ConstOnWrongLevelAsWritten | cc_bindings_from_rs/bindings.rs:356-369 | `*const *mut i32` is spelled `const std::int32_t**`, a pointer to a pointer to const int, not a pointer to a const pointer |
| CcTypes.DuplicateConstAsWritten | cc_bindings_from_rs/bindings.rs:356-369 | `*const *const i32` is spelled `const const std::int32_t**`, which is not a well-formed declarator |
| CcTypes.PlacementsAgreeOnSingleLevel | cc_bindings_from_rs/bindings.rs:356-369 | for a single pointer level the corrected and the original spellings coincide |
| CcTypes.FormatRetTyForCc | cc_bindings_from_rs/bindings.rs:223-230 | `!` and `()` become `void` as return types; any other return type is spelled, and fails, exactly as `format_ty_for_cc` spells it as written, with the same prerequisites |
| CcTypes.FormatCcThunkArg | cc_bindings_from_rs/bindings.rs:239-245 | a `Copy` argument passes through unchanged with no prerequisites; any other is wrapped in `std::move(...)` and needs `<utility>` |
| CcItems.CcArgNames | cc_bindings_from_rs/bindings.rs:565-573 | one C++ parameter name per parameter: its own name when that is a C++ identifier, else `__param_i` |
| CcItems.RsArgNames | cc_bindings_from_rs/bindings.rs:624-633 | one Rust parameter name per parameter: `__param_i` for an unnamed one |
| CcItems.FormatCcParamTypes | cc_bindings_from_rs/bindings.rs:574-583 | Every parameter type is formatted in order with the spelling as written. It fails exactly when some parameter type has no C++ spelling, and the prerequisites are the union of the parameters' |
| CcItems.ThunkArgs | cc_bindings_from_rs/bindings.rs:594-599 | one thunk argument per parameter; `<utility>` is needed exactly when some parameter is not `Copy`; never a def prerequisite |
| CcItems.FormatRsParamTypes | cc_bindings_from_rs/bindings.rs:634-638 | Entry i is the Rust spelling of parameter i's type. It fails exactly when one has no Rust spelling |
| CcItems.FnCcItem | cc_bindings_from_rs/bindings.rs:584-612 | A direct `extern "C"` declaration is emitted exactly when the item name equals the symbol name; otherwise an inline wrapper calls the exported symbol, which must be a C++ identifier. The declaration keeps the doc comment and the formatted return type, and declares parameter i with its formatted type under `CcArgName` (its C++ name, or `__param_i`). The wrapper passes parameter i on by that name, through `format_cc_thunk_arg` (`std::move` unless `Copy`), and `<utility>` is added only for moved arguments |
| CcItems.FormatFnCc | cc_bindings_from_rs/bindings.rs:559-613 | The C++ side succeeds exactly when the return type, the name and every parameter type can be spelled and a wrapper's exported name is an identifier. The declaration returns `format_ret_ty_for_cc`'s spelling and declares parameter i with its as-written C++ type under `CcArgName`; a wrapper passes parameter i through `format_cc_thunk_arg`. Its def prerequisites are those of the signature's types, and its includes add `<utility>` exactly when a wrapper moves an argument |
| CcItems.FormatFnRs | cc_bindings_from_rs/bindings.rs:518-647 | The C and C-unwind ABIs need no Rust thunk. Any other ABI gets a `#[no_mangle]` thunk named `__crubit_thunk_` + symbol that calls the function by its full path. The thunk returns the Rust spelling of the return type, takes each parameter under its Rust name with its Rust type, and passes the names on in order, matching the C++ declaration. It fails exactly when a signature type has no Rust spelling |
| CcItems.FormatFn | cc_bindings_from_rs/bindings.rs:490-649 | Variadic functions are rejected first and `unsafe` ones second. A result has a Rust thunk exactly when the ABI is not C, and an `extern "C"` declaration exactly when the name is the symbol. The result is exactly the C++ side of `FormatFnCc` and the Rust side of `FormatFnRs`, with their includes; the C++ side's error is reported before the Rust side's |
| CcItems.FormatFnFailsOnlyOnCcSide | cc_bindings_from_rs/bindings.rs:490-649 | `format_fn` fails only for C++-side reasons; when both sides use a thunk they name the same exported symbol |
| CcItems.FormatAdtData | cc_bindings_from_rs/bindings.rs:835-847 | the opaque blob is exactly as large as the type |
| CcItems.FormatAdt | cc_bindings_from_rs/bindings.rs:855-871 | Succeeds exactly when the core binding does, with its error otherwise. The blob, the C++ `static_assert`s and the Rust asserts all state the compiler's size and alignment, and no prerequisites are added |
| CcItems.FormatUnsupportedDef | cc_bindings_from_rs/bindings.rs:928-942 | a failure becomes a C++ comment naming the definition, its location and the error, with no Rust code and no prerequisites |
| CcItems.FormatDef | cc_bindings_from_rs/bindings.rs:896-924 | Definitions that are not directly public, and modules, produce nothing. Generic functions and ADTs, other item kinds and non-item nodes are errors. A public non-generic function gives `format_fn`'s snippet and a struct, enum or union `format_adt`'s, and their errors pass through unchanged; any other item kind is reported by its description. A formatted function has a Rust thunk exactly when its ABI is not C |
| CcCrate.PickReady | cc_bindings_from_rs/bindings.rs:960-969 | the next node is ready, with the smallest source span among the ready ones; no node is picked exactly when none is ready |
| CcCrate.TopoSort | cc_bindings_from_rs/bindings.rs:960-969 | Ordered and failed ids together are exactly the nodes. The ordered list puts every predecessor first and prefers the smallest span among ready nodes. Every failed node is blocked |
| CcCrate.PlaceKeepsOrder | cc_bindings_from_rs/bindings.rs:960-969 | appending the preferred ready node keeps both the dependency order and the span preference |
| CcCrate.SnippetOf | cc_bindings_from_rs/bindings.rs:946-958 | a definition's snippet is its formatted bindings, or its error comment when formatting fails; definitions with nothing to emit have none |
| CcCrate.Nodes | cc_bindings_from_rs/bindings.rs:946-958 | the sort's nodes are exactly the items that have a snippet, without duplicates |
| CcCrate.Deps | cc_bindings_from_rs/bindings.rs:960-966 | there is one dependency from each def prerequisite to the snippet that needs it, and no others |
| CcCrate.Includes | cc_bindings_from_rs/bindings.rs:973-991 | the header's includes are exactly those of the emitted snippets |
| CcCrate.RespectsDepsPutsPrereqsFirst | cc_bindings_from_rs/bindings.rs:960-991 | an order that respects the dependencies emits every def prerequisite of a snippet before it |
| CcCrate.NotReadyIsBlocked | cc_bindings_from_rs/bindings.rs:1002-1005 | a node the sort cannot place needs a definition that was not emitted before it |
| CcCrate.Assemble | cc_bindings_from_rs/bindings.rs:970-1015 | The header carries each ordered snippet in its definition's module, in the sort's order, with exactly their includes. The cycle comments follow directly in the crate namespace, with no module path |
| CcCrate.FormatCrate | cc_bindings_from_rs/bindings.rs:945-1016 | Fails exactly when the crate name is not a C++ identifier, with that error. Every definition with output appears once, either in dependency order (each prerequisite first, includes exactly those needed) or as a "Definition dependency cycle" comment, placed directly in the crate namespace, for a definition that is genuinely blocked. Among the definitions ready at each point, the one earliest in the source is emitted |
| CcCrate.ErrorItemIsEmitted | cc_bindings_from_rs/bindings.rs:946-1005 | a public definition that fails to format still appears in the output, as its error comment, so one failure never hides the other items |
| CcCrate.Generate | cc_bindings_from_rs/bindings.rs:33-91 | `panic=unwind` is rejected. Under `panic=abort` there is always output. The whole crate is replaced by a single failure comment exactly when `format_crate` fails. Otherwise the output is the crate's bindings with every guarantee of `FormatCrate`: the namespace, each definition once, prerequisites first, faithful entries, exactly the needed includes, cycle comments only for blocked definitions, and source order among ready definitions |
| NullTypes.NullabilityToString | nullability/type_nullability.cc:24-34 | the printed vector is bracketed and is `[]` exactly for the empty vector |
| NullTypes.NullabilityToStringRoundTrip | nullability/type_nullability.cc:24-34 | the printed vector (`[`, the spellings joined by `, `, `]`) determines the vector: reading it back gives the vector |
| NullTypes.GetAliasNullability | nullability/type_nullability.cc:42-53 | an alias template annotated "Nullable", "Nonnull" or "Nullability_Unspecified" means that nullability, and any other alias means none |
| NullTypes.PointersOfCanon | nullability/type_nullability.cc:56-65 | sugar never adds or removes pointers: a type and its canonical type have the same pointer count |
| TypeNullability.PackArgIndexInRange | nullability/type_nullability.cc:300-307 | The pack index counts from the end and the unsigned index wraps modulo 2^32. The wrapped index is in range exactly when the pack index is below the argument count, and then it is `size - 1 - packIndex` |
| TypeNullability.Resolve | nullability/type_nullability.cc:289-324 | a substituted parameter resolves only inside a template context, and its sugared argument is walked in the argument context of the current context |
| TypeNullability.ResolveFindsArgument | nullability/type_nullability.cc:289-324 | a resolved argument is the argument at the parameter's (pack-adjusted) index of a context of the parameter's own template on the chain |
| TypeNullability.Saw | nullability/type_nullability.cc:76-79 | a pending nullability is never replaced: the first (outer) one seen stays |
| TypeNullability.WalkCountsPointers | nullability/type_nullability.cc:398-410 | wherever the recovered sugar agrees with the canonical type, the walker reports exactly one entry per pointer of the type |
| TypeNullability.AnnotationsMatchCount | nullability/type_nullability.cc:427-455 | The annotations of a type have exactly as many entries as it has pointers. This holds for any substitution callback that answers each parameter with its canonical pointer count (the walker's debug check), and the count is that of the canonical type |
| TypeNullability.CanonicalReportsUnspecified | nullability/type_nullability.cc:380-385 | a canonical type carries no nullability: every report is Unspecified, one per pointer, and nothing is left pending |
| TypeNullability.OuterNullabilityWins | nullability/type_nullability.cc:76-79 | when two nullability attributes apply to one pointer, it is reported with the outer one (or an earlier pending one) |
| TypeNullability.UnspecifiedNullability | nullability/type_nullability.cc:457-459 | one Unspecified entry per pointer of the type |
| TypeNullability.RebuildTy | nullability/type_nullability.cc:475-556 | The rebuilt type has the original canonical type and consumes a prefix of the vector. When every pointer is visited, it consumes exactly one entry per pointer and runs out exactly when the vector is shorter than that |
| TypeNullability.Rebuild | nullability/type_nullability.cc:558-565 | The result keeps the canonical type. When every pointer is visited, it succeeds exactly when the vector has one entry per pointer: too short and too long are both errors |
| TypeNullability.RebuildWithNullabilityAsWritten | nullability/type_nullability.cc:475-565 | the rebuilder as written keeps the canonical type. On a type with no argument pack and no enclosing class (`Flat`) it gives exactly the corrected rebuilder's result or error, so there it succeeds exactly on vectors with one entry per pointer; `PackArgumentRejectedAsWritten` and `EnclosingClassRejectedAsWritten` show where it departs |
| TypeNullability.AsWrittenAgreesOnFlat | nullability/type_nullability.cc:470-473 | the rebuilder stays in step with the walker on every type without argument packs or enclosing classes: the as-written and the corrected rebuilder agree there on every vector |
| TypeNullability.SameRebuildTy | nullability/type_nullability.cc:475-556 | on a flat canonical type, the as-written and corrected rebuilders take the same step at every pointer, reference, array, function and record, consuming the same entries |
| TypeNullability.RebuildWithNullability | nullability/type_nullability.cc:558-565 | the rebuilder kept in step with the walker succeeds exactly on vectors with one entry per pointer and keeps the canonical type |
| TypeNullability.RebuildTyWalksBack | nullability/type_nullability.cc:496-506 | walking a rebuilt type reports exactly the consumed prefix: Unspecified entries as bare pointers, the others as attributes |
| TypeNullability.RebuildRoundTrip | nullability/type_nullability.cc:558-565 | rebuilding a type with a vector of the right length and reading its annotations back gives the vector, and the pointer count of the result is the vector's length |
| TypeNullability.PackArgumentRejectedAsWritten | nullability/type_nullability.cc:487-491 | a class specialization whose pack argument holds one pointer has one entry, but the rebuilder as written rejects that vector as too long; the corrected one accepts it |
| TypeNullability.EnclosingClassRejectedAsWritten | nullability/type_nullability.cc:508-519 | a class nested in a specialization with a pointer argument has one entry, but the rebuilder as written rejects that vector; the corrected one accepts it |
| NullabilityLattice.InsertIfAbsent | nullability/pointer_nullability_analysis.cc:49-53 | a vector already stored is kept; otherwise the computed one is stored; nothing else changes |
| NullabilityLattice.LookupOrInsert | nullability/pointer_nullability_analysis.cc:79-91 | the result is what is stored for the expression afterwards; a stored vector is returned as is, a missing one is replaced by the default; nothing else changes |
| NullabilityLattice.Prepend | nullability/pointer_nullability_analysis.cc:43-47 | `prepend(h, t)` is `[h] + t`: one longer, `h` first, then `t` |
| NullabilityLattice.DropFront | nullability/pointer_nullability_analysis.cc:616-619 | `drop_front` succeeds exactly on a non-empty vector and undoes `prepend` |
| NullabilityLattice.TakeFront | nullability/pointer_nullability_analysis.cc:440-443 | `take_front(n)` is the first `min(n, size)` entries |
| NullabilityLattice.SetFront | nullability/pointer_nullability_analysis.cc:493-499 | overwriting the front is defined exactly on a non-empty vector and changes only the first entry |
| NullabilityLattice.Normalize | nullability/pointer_nullability_analysis.cc:54-70 | the stored vector always has one entry per pointer: a right-length vector is kept, any other becomes all Unspecified |
| NullabilityLattice.TypeOwnNullability | nullability/pointer_nullability_analysis.cc:235-240 | `getNullability` of the expression's type: an outermost nullability attribute is the answer, and a canonical type has none |
| NullabilityLattice.PointerNullability | nullability/pointer_nullability_analysis.cc:235-253 | The type's own nullability wins unless it is missing or Unspecified. Then the top entry of the stored vector is used if there is one, else Unspecified |
| NullabilityTransfer.GrowsPreservesConsistent | nullability/pointer_nullability_analysis.cc:49-75 | once every stored vector has one entry per pointer, storing only such vectors keeps it so |
| NullabilityTransfer.ChildNullability | nullability/pointer_nullability_analysis.cc:77-91 | A child's stored vector is returned. A missing child gets one Unspecified per pointer, which is stored. On a consistent map the vector has the child's pointer count |
| NullabilityTransfer.SharedPointerLevels | nullability/pointer_nullability_analysis.cc:453-466 | the number of outer pointer levels both canonical types share is at most either type's count, and positive exactly when both are pointers |
| NullabilityTransfer.ClassTemplateSlice | nullability/pointer_nullability_analysis.cc:125-165 | A parameter is answered only when the base is a specialization of the parameter's own template, the parameter is neither from a partial specialization nor a pack element, and its index is in range. The answer is the base's slice that starts after the enclosing class's pointers and the preceding arguments' pointers, as long as the argument's pointers. Conversely, every such parameter whose slice lies within the base's vector is answered with that slice |
| NullabilityTransfer.FunctionTemplateArg | nullability/pointer_nullability_analysis.cc:195-233 | A parameter is answered exactly when the call names a specialization of the parameter's own template and has an explicit argument at its index. The answer is that argument's annotations |
| NullabilityTransfer.KeepLevels | nullability/pointer_nullability_analysis.cc:453-466 | The leading shared entries come from the argument and the rest are unchanged. This is defined exactly when neither vector is shorter than the shared levels |
| NullabilityTransfer.CastNullability | nullability/pointer_nullability_analysis.cc:446-584 | A cast aborts exactly in four cases: a dependent cast; a level-preserving cast that would write past a vector; a `dynamic_cast` to a pointer type whose vector is empty; or a null conversion to a non-`nullptr_t` type whose vector is empty |
| NullabilityTransfer.UnaryNullability | nullability/pointer_nullability_analysis.cc:608-639 | a unary operator aborts exactly when `*` drops the front of an empty operand vector |
| NullabilityTransfer.SubscriptNullability | nullability/pointer_nullability_analysis.cc:652-660 | a subscript aborts exactly when its base is not a pointer or its vector is empty |
| NullabilityTransfer.Transfer | nullability/pointer_nullability_analysis.cc:49-75 | An expression that already has a vector is left alone. Otherwise its vector is stored and every earlier vector is kept. A consistent map (one entry per pointer everywhere) stays consistent |
| NullabilityTransferProps.CountOfWellSugared | nullability/type_nullability.cc:398-425 | when the sugar agrees with the canonical type, the count is the canonical type's number of pointers |
| NullabilityTransferProps.NeverAborts | nullability/pointer_nullability_analysis.cc:446-670 | On a consistent map no rule aborts for a well-typed expression. Every `drop_front`, `front()` and vector index is in range, and the dependent-cast `CHECK` is never reached |
| NullabilityTransferProps.AddrOfPrependsNonNull | nullability/pointer_nullability_analysis.cc:613-615 | `&x` stores NonNull followed by `x`'s vector |
| NullabilityTransferProps.DerefDropsFront | nullability/pointer_nullability_analysis.cc:616-619 | `*p` stores `p`'s vector without its top entry |
| NullabilityTransferProps.DerefAfterAddrOf | nullability/pointer_nullability_analysis.cc:608-639 | `*&x` gets exactly `x`'s vector |
| NullabilityTransferProps.CopyingOperatorCopies | nullability/pointer_nullability_analysis.cc:621-632 | arithmetic, bitwise and logical operators store the operand's vector when it fits |
| NullabilityTransferProps.LogicalNotIsRepaired | nullability/pointer_nullability_analysis.cc:621-632 | `!p` copies a pointer's vector, which cannot fit the pointer-free result, so the empty vector is stored instead |
| NullabilityTransferProps.CoawaitIsUnspecified | nullability/pointer_nullability_analysis.cc:634-636 | `co_await` stores all Unspecified without looking at its operand |
| NullabilityTransferProps.NewTopEntry | nullability/pointer_nullability_analysis.cc:641-649 | `new` is Nullable at the top exactly when the allocation is null-checked, NonNull otherwise, and keeps its type's annotations below |
| NullabilityTransferProps.ThisIsNonNull | nullability/pointer_nullability_analysis.cc:662-670 | `this` is NonNull at the top with its type's annotations below |
| NullabilityTransferProps.SubscriptDropsFront | nullability/pointer_nullability_analysis.cc:652-660 | `p[i]` stores `p`'s vector without its top entry |
| NullabilityTransferProps.SubscriptOfNonPointerAborts | nullability/pointer_nullability_analysis.cc:652-660 | the pointer `CHECK` stops the analysis for a subscript whose base is not a pointer |
| NullabilityTransferProps.MemberCallTakesReturnEntries | nullability/pointer_nullability_analysis.cc:436-444 | a member call stores the leading entries of the callee's vector, as many as the call's type has pointers |
| NullabilityTransferProps.MemberOfParameterIsSlice | nullability/pointer_nullability_analysis.cc:415-434 | a member whose type is a resugared template parameter of the base's class stores that parameter's slice of the base's vector, repaired only if its length disagrees |
| NullabilityTransferProps.MemberPointerToParameter | nullability/pointer_nullability_analysis.cc:415-434 | a member of type `P *` stores its written nullability (Unspecified if none) on top of `P`'s slice of the base's vector |
| NullabilityTransferProps.PairMemberExample | nullability/pointer_nullability_analysis.cc:97-124 | for `pair<int *, int * _Nonnull> x`, the member `S * _Nullable` gets `[Nullable, NonNull]`: its own attribute, then the slice of `x`'s vector for `S` |
| NullabilityTransferProps.EquivalentCastCopies | nullability/pointer_nullability_analysis.cc:475-481 | no-op, lvalue-to-rvalue, atomic and address-space casts store the operand's vector |
| NullabilityTransferProps.PrimitiveCastHasNoNullability | nullability/pointer_nullability_analysis.cc:501-529 | casts to primitive values store all Unspecified, which is the empty vector for a pointer-free result |
| NullabilityTransferProps.DecayPrependsNonNull | nullability/pointer_nullability_analysis.cc:545-549 | array and function decay store NonNull followed by the operand's vector |
| NullabilityTransferProps.NullToPointerIsNullable | nullability/pointer_nullability_analysis.cc:531-539 | a null conversion to a pointer type is Nullable at the top and keeps the type's annotations below |
| NullabilityTransferProps.DynamicCastIsNullable | nullability/pointer_nullability_analysis.cc:493-499 | a `dynamic_cast` to a pointer is Nullable at the top and Unspecified below |
| NullabilityTransferProps.BitCastKeepsSharedLevels | nullability/pointer_nullability_analysis.cc:453-473 | Bit casts and class-hierarchy casts keep the operand's entries for the outer pointer levels both types share. Every entry below those levels is Unspecified |
| NullabilityTransferProps.DependentCastAborts | nullability/pointer_nullability_analysis.cc:580-581 | a dependent cast stops the analysis |
| NullabilityTransferProps.AddrOfReadsNonNull | nullability/pointer_nullability_analysis.cc:235-253 | after `&x` is transferred, its pointer reads as NonNull unless its type carries its own non-Unspecified nullability |
| NullabilityTransferProps.OwnNullabilityIsTopReport | nullability/pointer_nullability_analysis.cc:235-253 | Above a pointer wrapped only in attributes, typedefs and elaborated names, `getNullability` and the walker agree. The walker's first report is the nullability pending from outside, else the type's own nullability, else Unspecified |
| NullabilityLegacy.UnspecifiedNullability | nullability_verification/pointer_nullability_analysis.cc:165-168 | one Unspecified entry per pointer of the canonical type |
| NullabilityLegacy.TotalCallbackNeverFails | nullability_verification/pointer_nullability_analysis.cc:196-263 | the substitution visitor cannot fail when its callback never does |
| NullabilityLegacy.ClassSlice | nullability_verification/pointer_nullability_analysis.cc:296-336 | The class-template callback fails only on an out-of-range argument index of a parameter of nonzero depth. A non-empty answer is the in-range slice of the base's vector after the preceding arguments' pointers, as long as the argument's pointers. Conversely, an in-range parameter whose slice lies within the base's vector is answered with that slice |
| NullabilityLegacy.FunctionArgAsWritten | nullability_verification/pointer_nullability_analysis.cc:364-383 | The function-template callback as written fails for a depth-0 parameter in two cases. Either the callee is not a declaration reference, or it has explicit arguments but none (or no written type) at the parameter's index |
| NullabilityLegacy.FunctionArg | nullability_verification/pointer_nullability_analysis.cc:364-383 | The corrected callback returns the annotations of the explicit argument exactly when the parameter has depth 0 and the call names one at its index. Otherwise it returns the empty vector |
| NullabilityLegacy.FunctionCallback | nullability_verification/pointer_nullability_analysis.cc:364-383 | the corrected callback answers every parameter, never failing |
| NullabilityLegacy.ChildNullability | nullability_verification/pointer_nullability_analysis.cc:177-192 | a child's stored vector is returned; a missing child gets one Unspecified per pointer, which is stored; nothing else changes |
| NullabilityLegacy.UnaryNullability | nullability_verification/pointer_nullability_analysis.cc:585-622 | unary operators only add to the map |
| NullabilityLegacy.Compute | nullability_verification/pointer_nullability_analysis.cc:519-622 | A member access can fail through the class-template callback. A call fails exactly when the function-template callback as written does, and never with the checked callback. Every other rule succeeds and only adds to the map |
| NullabilityLegacy.Transfer | nullability_verification/pointer_nullability_analysis.cc:519-642 | An expression that has a vector, or that no rule matches, is left alone. Otherwise its vector is stored, with no length repair, and every earlier vector is kept. Only a member access, or a call whose callback as written fails, stops the analysis |
| NullabilityLegacyProps.AnnotationsMatchCount | nullability_verification/pointer_nullability_analysis.cc:42-147 | for types whose nullability attributes sit directly on pointers and whose specializations are written with all their arguments, the annotation visitor reports one entry per pointer the counter counts |
| NullabilityLegacyProps.TypedefPointerIsNotAnnotated | nullability_verification/pointer_nullability_analysis.cc:42-147 | a pointer behind a typedef gets no annotation but is counted, so the two visitors disagree |
| NullabilityLegacyProps.SpecializationRecordIsNotAnnotated | nullability_verification/pointer_nullability_analysis.cc:102-133 | a class specialization reached as a record type (not as a written specialization) has its argument's pointer counted but not annotated |
| NullabilityLegacyProps.SubstAgreesWithAnnotations | nullability_verification/pointer_nullability_analysis.cc:196-263 | without substituted parameters, the substitution visitor computes exactly the annotations, whatever the callback |
| NullabilityLegacyProps.DeclRefStoresAnnotations | nullability_verification/pointer_nullability_analysis.cc:519-524 | a declaration reference stores its type's annotations |
| NullabilityLegacyProps.AddrOfPrependsNonNull | nullability_verification/pointer_nullability_analysis.cc:591-593 | `&x` stores NonNull followed by `x`'s vector |
| NullabilityLegacyProps.DerefDropsFrontOrFallsBack | nullability_verification/pointer_nullability_analysis.cc:594-602 | `*p` stores `p`'s vector without its top entry, or all Unspecified when that vector is empty |
| NullabilityLegacyProps.DerefAfterAddrOf | nullability_verification/pointer_nullability_analysis.cc:585-622 | `*&x` gets exactly `x`'s vector |
| NullabilityLegacyProps.CopyingRulesCopy | nullability_verification/pointer_nullability_analysis.cc:547-572 | casts, materialized temporaries, member calls and the copying unary operators store the child's vector unchanged |
| NullabilityLegacyProps.MissingChildIsUnspecified | nullability_verification/pointer_nullability_analysis.cc:177-192 | a rule whose child has no vector stores, for the child and the expression, one Unspecified per child pointer |
| NullabilityLegacyProps.CoawaitIsUnspecified | nullability_verification/pointer_nullability_analysis.cc:617-619 | `co_await` stores all Unspecified |
| NullabilityLegacyProps.StoresUncheckedLength | nullability_verification/pointer_nullability_analysis.cc:519-524 | The older analysis stores vectors without repairing their length. A typedef'd pointer is stored with no entries although it has one pointer |
| NullabilityLegacyProps.PairMemberExample | nullability_verification/pointer_nullability_analysis.cc:265-295 | for `pair<int*, int* _Nonnull> x`, the member `S* _Nullable` gets `[Nullable, NonNull]`: its own attribute, then the slice of `x`'s vector for `S` |
| NullabilityLegacyProps.FlipCallExample | nullability_verification/pointer_nullability_analysis.cc:338-363 | `flip<int* _Nonnull, int* _Nullable>(...)` returning `pair<S, F>` gets `[Nullable, NonNull]` from the explicit arguments, with the callback as written and with the checked one |
| NullabilityLegacyProps.FunctionArgAgrees | nullability_verification/pointer_nullability_analysis.cc:364-383 | wherever the callback as written succeeds, the corrected one gives the same answer |
| NullabilityLegacyProps.SubstRefines | nullability_verification/pointer_nullability_analysis.cc:196-263 | a substitution with a callback that answers like another wherever it completes itself completes only with the other's answer |
| NullabilityLegacyProps.TransferAgrees | nullability_verification/pointer_nullability_analysis.cc:519-642 | wherever the transfer as written completes, it stores exactly what the transfer with the checked callback stores |
| NullabilityLegacyProps.CallThroughFieldDereferencesNull | nullability_verification/pointer_nullability_analysis.cc:364-383 | the transfer of a call through a function-pointer field of a class template stops on a null dereference as written, because the callee is not a declaration reference; with the checked callback it stores one Unspecified |
| NullabilityLegacyProps.DeducedArgumentReadsOutOfRange | nullability_verification/pointer_nullability_analysis.cc:364-383 | the transfer of a call with fewer explicit arguments than the function template has parameters stops on an out-of-range read as written; with the checked callback it stores one Unspecified |

## Left out

- The `clap` derive parser and the `@file` expansion of `Cmdline::new` (file I/O) are not modelled. They are the `parse` parameter of `Cmdline.New`.
- Cmdline.New: the contract states the prepend in terms of `parse(args)`, which stands for parsing the expanded arguments; the expansion itself is not modelled.
- Panics are not modelled: the `expect`/`panic!` on unexpected definition paths, on generic signatures and on an unexpected type kind. The model's inputs cannot express those cases.
- Doc comments are a string input: `format_doc_comment` reads source attributes.
- The `toposort` crate is not part of this model. Its contract is implemented by Kahn's algorithm, taking the ready node with the smallest source span (`CcCrate.TopoSort`). A dependency whose predecessor has no snippet is never satisfied, so its successor is reported in a cycle.
- Namespace-bound formatting of the header (`format_namespace_bound_cc_tokens`), `format_cc_includes` and the token pretty-printing are not modelled. The output keeps each snippet's module path and the include set instead.
- Identifier formatting (`format_cc_ident`, `make_rs_ident`) is a `Tcx` input. It is assumed never to produce the tokens `const` or `*` (`IdentsArePlain`).
- A non-C ABI function whose name equals `__crubit_thunk_` followed by its symbol gets both an `extern "C"` declaration and a Rust thunk. This follows from comparing the name with the renamed symbol; the model reproduces the comparison but no lemma names the case.
- `CHECK`s inside the walker (the pending-nullability check after an attribute, and the class-specialization check) are not modelled. Types reaching them do not come from Clang.
- `TypeNullability.Walk`: clang bounds template-context resolution by construction. The model's `Tcx` contexts could loop, so the walker carries fuel, 1024 resolutions, and falls back to the unsugared replacement when it runs out. Longer resolution chains are not modelled.
- The flow-sensitive transfer functions, `merge`, `mergeBoolValues` and `assignNullabilityVariable` are not modelled: they need Clang's dataflow environment and a SAT solver.
- `PointerNullabilityLattice` is not part of this model. `insertExprNullabilityIfAbsent` is modelled from how both analyses use it (`NullabilityLattice.InsertIfAbsent`). `Type::getNullability` is Clang's; it is modelled by `NullabilityLattice.TypeOwnNullability`, and its agreement with the walker is proved only above plain sugar, not through alias templates or substituted parameters.
- NullabilityTransfer.ClassTemplateSlice: an argument index past the specialization's arguments, or a slice past the base's vector, fails an `ArrayRef` assertion in the code (`operator[]`, `slice`). Here it gives no answer, and the member's own annotations are used. The newer walker's substitution callback returns an optional answer, and that callback is shared with the count, the annotations and the rebuilder.
- The `BoundMember` placeholder of member calls is folded into the member type, which is an input of the member rule.
- The C-only, Objective-C, OpenCL, matrix and member-pointer casts are modelled by their rule (all Unspecified), not by name.
- The older analysis's debug print for a nullability attribute on a non-pointer is not modelled; the visitor simply stops there.
- The older class-template callback reads `TemplateArgs[ArgIndex]` out of range when the parameter's depth is nonzero. This is modelled as an error, not as a finding, because the depth of a member-template parameter is an input here and no valid input is known to reach it.
- `nullptr_t` is recognised by the builtin name `nullptr_t`.
- CcItems.CcArgName: the `__param_i` fallback name is not passed through the C++ identifier formatter, which is an abstract parameter of the model with no stated behaviour on such names; the name is used as is.
- TypeNullability.Rebuild: the "too short" and "too long" messages stop before the printed type the source appends, because the type tree has no printed form.

## Findings

| source | as written | input that shows it | evidently intended | confidence | as-written member | corrected member |
|---|---|---|---|---|---|---|
| cc_bindings_from_rs/bindings.rs:356-369 | `const` is placed before the pointee's whole spelling | `*const *mut i32` gives `const std::int32_t**`; `*const *const i32` gives `const const std::int32_t**` | `std::int32_t* const*` and `const std::int32_t* const*`: `const` on the level it qualifies | high (not executed) | CcTypes.ConstOnWrongLevelAsWritten | CcTypes.CcSpellingMeansRustType |
| nullability/type_nullability.cc:487-491 | the rebuilder transforms only type arguments, not packs | `S<Ts...>` with `Ts = {int*}` and vector `[Nullable]`: the walker reports one entry, the rebuilder consumes none and reports "too long" | packs are rebuilt element by element, like the walker visits them | medium (not executed) | TypeNullability.PackArgumentRejectedAsWritten | TypeNullability.RebuildRoundTrip |
| nullability/type_nullability.cc:508-519 | the rebuilder does not visit the enclosing class of a record | `Outer<int*>::Inner` with vector `[Nullable]`: the walker reports the enclosing argument's pointer, the rebuilder consumes nothing | the enclosing class is rebuilt first, as the walker visits it | medium (not executed) | TypeNullability.EnclosingClassRejectedAsWritten | TypeNullability.RebuildWithNullability |
| nullability_verification/pointer_nullability_analysis.cc:364-383 | the callee is assumed to be a declaration reference, and the explicit argument list is indexed without a bound | `s.fp()` through a field `T* (*fp)()` of a class template, and `f<int>(0, p)` for `template <class T, class U> U* f(T, U)` | no answer when the callee is not a declaration reference or the argument was deduced, as the newer analysis does | high (not executed) | NullabilityLegacyProps.DeducedArgumentReadsOutOfRange | NullabilityLegacy.FunctionArg |

The function-template row has a second as-written lemma, `NullabilityLegacyProps.CallThroughFieldDereferencesNull`, for the null callee. `NullabilityLegacy.Transfer` models the call rule with either callback; the older analysis itself is the `AsWritten` choice. `NullabilityLegacyProps.TransferAgrees` shows that the checked callback changes only the transfers that stop the analysis.

The function bindings spell types as bindings.rs does (`CcTypes.FormatTyForCcAsWritten`), so the misplaced `const` reaches their signatures. The corrected spelling `CcTypes.FormatTyForCc` stands beside it with its meaning proved (`CcTypes.CcSpellingMeansRustType`).

Where the design description and the code differ, the model follows the code:
- The description orders items by a depth-first sort and treats a dependency cycle as a fatal error. The code uses a sort that prefers source order by span, and reports each definition in a cycle as a comment while the other items are still emitted.
- The description says a failed run produces no output. `generate` replaces the bindings of a failed crate with a single comment and still succeeds.
