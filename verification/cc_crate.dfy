/**
 * The crate level of the bindings generator: every HIR item is formatted
 * (a failure becomes a comment), the snippets are ordered so that each
 * definition a snippet needs comes first, and the pieces are assembled
 * into the C++ header and the Rust implementation file.
 */
module CcCrate {
  import opened Wrappers
  import opened RustcFacts
  import opened CcTypes
  import opened CcItems

  // ---------------------------------------------------------------------
  // Topological sort

  /** `predecessor` must be emitted before `successor`. */
  datatype Dependency = Dependency(predecessor: nat, successor: nat)

  predicate Distinct(s: seq<nat>) {
    forall i, j :: 0 <= i < j < |s| ==> s[i] != s[j]
  }

  /** Every predecessor of `n` has already been placed. */
  predicate Ready(n: nat, deps: set<Dependency>, placed: seq<nat>) {
    forall d :: d in deps && d.successor == n ==> d.predecessor in placed
  }

  /** Each element of `order` comes after all of its predecessors. */
  predicate RespectsDeps(order: seq<nat>, deps: set<Dependency>) {
    forall i :: 0 <= i < |order| ==> Ready(order[i], deps, order[..i])
  }

  /**
   * Each element of `order` was the preferred one (smallest span) among the
   * nodes that were ready when it was placed.
   */
  predicate Preferred(order: seq<nat>, nodes: seq<nat>, deps: set<Dependency>, span: nat -> nat) {
    forall i, m :: 0 <= i < |order| && m in nodes && m !in order[..i] && Ready(m, deps, order[..i])
      ==> span(order[i]) <= span(m)
  }

  /**
   * The ready element of `remaining` with the smallest span (the first one
   * on a tie), or -1 when none is ready.
   */
  method PickReady(remaining: seq<nat>, deps: set<Dependency>, placed: seq<nat>, span: nat -> nat)
    returns (idx: int)
    ensures -1 <= idx < |remaining|
    ensures idx == -1 <==> forall j :: 0 <= j < |remaining| ==> !Ready(remaining[j], deps, placed)
    ensures idx >= 0 ==> Ready(remaining[idx], deps, placed)
    ensures idx >= 0 ==>
      forall j :: 0 <= j < |remaining| && Ready(remaining[j], deps, placed) ==> span(remaining[idx]) <= span(remaining[j])
  {
    idx := -1;
    var k := 0;
    while k < |remaining|
      invariant 0 <= k <= |remaining|
      invariant -1 <= idx < k
      invariant idx == -1 <==> forall j :: 0 <= j < k ==> !Ready(remaining[j], deps, placed)
      invariant idx >= 0 ==> Ready(remaining[idx], deps, placed)
      invariant idx >= 0 ==>
        forall j :: 0 <= j < k && Ready(remaining[j], deps, placed) ==> span(remaining[idx]) <= span(remaining[j])
    {
      if Ready(remaining[k], deps, placed) && (idx == -1 || span(remaining[k]) < span(remaining[idx])) {
        idx := k;
      }
      k := k + 1;
    }
  }

  /**
   * Kahn's algorithm with a preferred order: repeatedly place the ready
   * node with the smallest span. Nodes never ready (a cycle, or a
   * predecessor that is not a node at all) are returned as `failed`.
   */
  method TopoSort(nodes: seq<nat>, deps: set<Dependency>, span: nat -> nat)
    returns (ordered: seq<nat>, failed: seq<nat>)
    ensures multiset(ordered) + multiset(failed) == multiset(nodes)
    ensures RespectsDeps(ordered, deps)
    ensures forall j :: 0 <= j < |failed| ==> !Ready(failed[j], deps, ordered)
    ensures Preferred(ordered, nodes, deps, span)
  {
    ordered := [];
    var remaining := nodes;
    while true
      invariant multiset(ordered) + multiset(remaining) == multiset(nodes)
      invariant RespectsDeps(ordered, deps)
      invariant Preferred(ordered, nodes, deps, span)
      decreases |remaining|
    {
      var idx := PickReady(remaining, deps, ordered, span);
      if idx < 0 {
        break;
      }
      var n := remaining[idx];
      assert remaining == remaining[..idx] + [n] + remaining[idx + 1..];
      forall m | m in nodes && m !in ordered
        ensures m in remaining
      {
        assert multiset(nodes)[m] > 0;
      }
      PlaceKeepsOrder(ordered, n, nodes, deps, span, remaining, idx);
      ordered := ordered + [n];
      remaining := remaining[..idx] + remaining[idx + 1..];
    }
    failed := remaining;
  }

  /** Appending the preferred ready node keeps both ordering properties. */
  lemma PlaceKeepsOrder(ordered: seq<nat>, n: nat, nodes: seq<nat>, deps: set<Dependency>,
                        span: nat -> nat, remaining: seq<nat>, idx: nat)
    requires idx < |remaining| && remaining[idx] == n
    requires RespectsDeps(ordered, deps) && Preferred(ordered, nodes, deps, span)
    requires Ready(n, deps, ordered)
    requires forall m :: m in nodes && m !in ordered ==> m in remaining
    requires forall j :: 0 <= j < |remaining| && Ready(remaining[j], deps, ordered) ==> span(n) <= span(remaining[j])
    ensures RespectsDeps(ordered + [n], deps)
    ensures Preferred(ordered + [n], nodes, deps, span)
  {
    var o := ordered + [n];
    assert o[..|ordered|] == ordered;
    assert forall i :: 0 <= i < |ordered| ==> o[..i] == ordered[..i];
    forall i, m | 0 <= i < |o| && m in nodes && m !in o[..i] && Ready(m, deps, o[..i])
      ensures span(o[i]) <= span(m)
    {
      if i == |ordered| {
        var j :| 0 <= j < |remaining| && remaining[j] == m;
      }
    }
  }

  // ---------------------------------------------------------------------
  // Formatting the crate

  /**
   * The snippet kept for one HIR item: nothing when `format_def` skips it,
   * its bindings when they could be formatted, and an error comment
   * otherwise.
   */
  function SnippetOf(tcx: Tcx, d: nat): (r: Option<MixedSnippet>)
    ensures r.None? <==> FormatDef(tcx, d) == Ok(None)
    ensures FormatDef(tcx, d).Err? ==> r == Some(FormatUnsupportedDef(tcx, d, FormatDef(tcx, d).error))
    ensures FormatDef(tcx, d).Ok? && FormatDef(tcx, d).value.Some? ==> r == FormatDef(tcx, d).value
  {
    match FormatDef(tcx, d)
    case Err(e) => Some(FormatUnsupportedDef(tcx, d, e))
    case Ok(s) => s
  }

  /** The items that have a snippet, in their original order. */
  function Nodes(tcx: Tcx, items: seq<nat>): (r: seq<nat>)
    ensures forall d :: d in r <==> d in items && SnippetOf(tcx, d).Some?
    ensures Distinct(items) ==> Distinct(r)
  {
    if |items| == 0 then []
    else
      var rest := Nodes(tcx, items[1..]);
      assert forall d :: d in items[1..] ==> d in items;
      if SnippetOf(tcx, items[0]).Some? then
        assert Distinct(items) ==> items[0] !in items[1..];
        [items[0]] + rest
      else rest
  }

  /** A dependency for each def prerequisite of each snippet. */
  function Deps(tcx: Tcx, nodes: seq<nat>): (r: set<Dependency>)
    requires forall d :: d in nodes ==> SnippetOf(tcx, d).Some?
    ensures forall dep :: dep in r <==>
      dep.successor in nodes && dep.predecessor in SnippetOf(tcx, dep.successor).value.prereqs.defs
  {
    set d, p | d in nodes && p in SnippetOf(tcx, d).value.prereqs.defs :: Dependency(p, d)
  }

  /** The includes of the given snippets. */
  function Includes(tcx: Tcx, ids: seq<nat>): (r: set<CcInclude>)
    requires forall d :: d in ids ==> SnippetOf(tcx, d).Some?
    ensures forall x :: x in r <==> exists i :: 0 <= i < |ids| && x in SnippetOf(tcx, ids[i]).value.prereqs.includes
  {
    if |ids| == 0 then {}
    else
      var rest := Includes(tcx, ids[1..]);
      assert forall i :: 1 <= i < |ids| ==> ids[i] == ids[1..][i - 1];
      SnippetOf(tcx, ids[0]).value.prereqs.includes + rest
  }

  /** One C++ snippet of the header, with the module path it belongs in. */
  datatype CcEntry = CcEntry(id: nat, modPath: seq<string>, item: CcItem)

  /**
   * The generated files: the `#include`s, the crate's top-level namespace,
   * the ordered C++ snippets followed by the comments for the definitions
   * caught in a dependency cycle, and the Rust snippets in the same order.
   */
  datatype GeneratedBindings = GeneratedBindings(
    includes: set<CcInclude>,
    namespace: string,
    ordered: seq<CcEntry>,
    failed: seq<CcEntry>,
    rs: seq<RsItem>)

  /** The ids of the ordered C++ snippets. */
  function Ids(es: seq<CcEntry>): (r: seq<nat>)
    ensures |r| == |es| && forall i :: 0 <= i < |es| ==> r[i] == es[i].id
  {
    seq(|es|, i requires 0 <= i < |es| => es[i].id)
  }

  /** Every def prerequisite of a snippet in `ids` occurs earlier in `ids`. */
  predicate PrereqsFirst(tcx: Tcx, ids: seq<nat>) {
    forall i, p :: 0 <= i < |ids| && SnippetOf(tcx, ids[i]).Some? && p in SnippetOf(tcx, ids[i]).value.prereqs.defs
      ==> p in ids[..i]
  }

  /** An order that respects the dependencies puts every prerequisite first. */
  lemma RespectsDepsPutsPrereqsFirst(tcx: Tcx, nodes: seq<nat>, ordered: seq<nat>)
    requires forall d :: d in nodes ==> SnippetOf(tcx, d).Some?
    requires forall d :: d in ordered ==> d in nodes
    requires RespectsDeps(ordered, Deps(tcx, nodes))
    ensures PrereqsFirst(tcx, ordered)
  {
    forall i, p | 0 <= i < |ordered| && SnippetOf(tcx, ordered[i]).Some? && p in SnippetOf(tcx, ordered[i]).value.prereqs.defs
      ensures p in ordered[..i]
    {
      assert Dependency(p, ordered[i]) in Deps(tcx, nodes);
      assert Ready(ordered[i], Deps(tcx, nodes), ordered[..i]);
    }
  }

  /**
   * Each ordered C++ snippet, and the Rust snippet at the same position, is
   * the snippet of its definition, in its definition's module; each cycle
   * comment names its definition and sits directly in the crate's
   * namespace, after the ordered snippets.
   */
  predicate EntriesFaithful(tcx: Tcx, g: GeneratedBindings) {
    |g.rs| == |g.ordered|
    && (forall i :: 0 <= i < |g.ordered| ==>
          SnippetOf(tcx, g.ordered[i].id).Some?
          && g.ordered[i].item == SnippetOf(tcx, g.ordered[i].id).value.cc
          && g.ordered[i].modPath == tcx.def(g.ordered[i].id).modPath
          && g.rs[i] == SnippetOf(tcx, g.ordered[i].id).value.rs)
    && (forall j :: 0 <= j < |g.failed| ==>
          g.failed[j].item == FormatUnsupportedDef(tcx, g.failed[j].id, CycleMsg).cc
          && g.failed[j].modPath == [])
  }

  /** The header includes exactly what the ordered snippets need. */
  predicate IncludesOfOrdered(tcx: Tcx, g: GeneratedBindings) {
    forall x :: x in g.includes <==>
      exists i :: 0 <= i < |g.ordered| && SnippetOf(tcx, g.ordered[i].id).Some?
        && x in SnippetOf(tcx, g.ordered[i].id).value.prereqs.includes
  }

  /** Each definition reported in a cycle needs a definition that was not emitted in order. */
  predicate FailedAreBlocked(tcx: Tcx, g: GeneratedBindings) {
    forall j :: 0 <= j < |g.failed| ==>
      SnippetOf(tcx, g.failed[j].id).Some?
      && exists p :: p in SnippetOf(tcx, g.failed[j].id).value.prereqs.defs && p !in Ids(g.ordered)
  }

  /** A node that is not ready is blocked by one of its own def prerequisites. */
  lemma NotReadyIsBlocked(tcx: Tcx, nodes: seq<nat>, ordered: seq<nat>, n: nat)
    requires forall d :: d in nodes ==> SnippetOf(tcx, d).Some?
    requires n in nodes && !Ready(n, Deps(tcx, nodes), ordered)
    ensures exists p :: p in SnippetOf(tcx, n).value.prereqs.defs && p !in ordered
  {
    var dep :| dep in Deps(tcx, nodes) && dep.successor == n && dep.predecessor !in ordered;
    assert dep.predecessor in SnippetOf(tcx, n).value.prereqs.defs;
  }

  /**
   * What the sort guarantees, read in terms of the snippets: every placed
   * definition has its prerequisites placed before it, and every definition
   * left over is blocked by a prerequisite that was never placed.
   */
  lemma SortedSnippetsSound(tcx: Tcx, nodes: seq<nat>, ordered: seq<nat>, failed: seq<nat>)
    requires forall d :: d in nodes ==> SnippetOf(tcx, d).Some?
    requires multiset(ordered) + multiset(failed) == multiset(nodes)
    requires RespectsDeps(ordered, Deps(tcx, nodes))
    requires forall j :: 0 <= j < |failed| ==> !Ready(failed[j], Deps(tcx, nodes), ordered)
    ensures forall d :: d in ordered ==> SnippetOf(tcx, d).Some?
    ensures PrereqsFirst(tcx, ordered)
    ensures forall j :: 0 <= j < |failed| ==>
      SnippetOf(tcx, failed[j]).Some?
      && exists p :: p in SnippetOf(tcx, failed[j]).value.prereqs.defs && p !in ordered
  {
    assert forall d :: d in ordered ==> d in multiset(nodes);
    RespectsDepsPutsPrereqsFirst(tcx, nodes, ordered);
    forall j | 0 <= j < |failed|
      ensures SnippetOf(tcx, failed[j]).Some?
      ensures exists p :: p in SnippetOf(tcx, failed[j]).value.prereqs.defs && p !in ordered
    {
      assert failed[j] in multiset(nodes);
      NotReadyIsBlocked(tcx, nodes, ordered, failed[j]);
    }
  }

  /** Assembles the generated files from the result of the sort. */
  function Assemble(tcx: Tcx, ns: string, ordered: seq<nat>, failed: seq<nat>): (r: GeneratedBindings)
    requires forall d :: d in ordered ==> SnippetOf(tcx, d).Some?
    ensures Ids(r.ordered) == ordered && Ids(r.failed) == failed && r.namespace == ns
    ensures EntriesFaithful(tcx, r)
    ensures IncludesOfOrdered(tcx, r)
  {
    GeneratedBindings(
      Includes(tcx, ordered),
      ns,
      seq(|ordered|, i requires 0 <= i < |ordered| =>
        CcEntry(ordered[i], tcx.def(ordered[i]).modPath, SnippetOf(tcx, ordered[i]).value.cc)),
      seq(|failed|, j requires 0 <= j < |failed| =>
        CcEntry(failed[j], [], FormatUnsupportedDef(tcx, failed[j], CycleMsg).cc)),
      seq(|ordered|, i requires 0 <= i < |ordered| => SnippetOf(tcx, ordered[i]).value.rs))
  }

  /** The source position of each definition, the sort's preference. */
  function SpanOf(tcx: Tcx): nat -> nat {
    d => tcx.def(d).span
  }

  /**
   * `format_crate`: items are formatted one by one, a failing item becomes
   * an error comment, the snippets are sorted by their def prerequisites
   * (source order where there is a choice), and only a crate name that is
   * not a C++ identifier fails the whole crate.
   */
  method FormatCrate(tcx: Tcx, items: seq<nat>) returns (r: Result<GeneratedBindings>)
    requires Distinct(items)
    ensures r.Err? <==> tcx.ccIdent(tcx.crateName).Err?
    ensures r.Err? ==> r.error == tcx.ccIdent(tcx.crateName).error
    ensures r.Ok? ==> r.value.namespace == tcx.ccIdent(tcx.crateName).value
    // every item with a snippet is emitted exactly once, in order or as a cycle comment
    ensures r.Ok? ==> multiset(Ids(r.value.ordered)) + multiset(Ids(r.value.failed)) == multiset(Nodes(tcx, items))
    // each definition a snippet needs comes earlier in the header
    ensures r.Ok? ==> PrereqsFirst(tcx, Ids(r.value.ordered))
    ensures r.Ok? ==> EntriesFaithful(tcx, r.value)
    // only the emitted snippets contribute includes
    ensures r.Ok? ==> IncludesOfOrdered(tcx, r.value)
    // a definition is reported in a cycle only when one of its prerequisites is missing
    ensures r.Ok? ==> FailedAreBlocked(tcx, r.value)
    // among the definitions ready at each point, the earliest in the source is emitted
    ensures r.Ok? ==> Preferred(Ids(r.value.ordered), Nodes(tcx, items), Deps(tcx, Nodes(tcx, items)), SpanOf(tcx))
  {
    var nodes := Nodes(tcx, items);
    var deps := Deps(tcx, nodes);
    var ordered, failed := TopoSort(nodes, deps, SpanOf(tcx));
    SortedSnippetsSound(tcx, nodes, ordered, failed);
    match tcx.ccIdent(tcx.crateName)
    case Err(e) =>
      r := Err(e);
    case Ok(ns) =>
      r := Ok(Assemble(tcx, ns, ordered, failed));
  }

  /**
   * Error isolation: a definition whose bindings could not be formatted
   * has no prerequisites, so it is never caught in a cycle; its error
   * comment is emitted in order like any other snippet.
   */
  lemma ErrorItemIsEmitted(tcx: Tcx, items: seq<nat>, g: GeneratedBindings, d: nat)
    requires multiset(Ids(g.ordered)) + multiset(Ids(g.failed)) == multiset(Nodes(tcx, items))
    requires EntriesFaithful(tcx, g) && FailedAreBlocked(tcx, g)
    requires d in items && FormatDef(tcx, d).Err?
    ensures exists i ::
      && 0 <= i < |g.ordered| && g.ordered[i].id == d
      && g.ordered[i].item == ErrorComment("Error generating bindings for `" + tcx.def(d).pathStr
           + "` defined at " + tcx.def(d).spanStr + ": " + FormatDef(tcx, d).error)
  {
    assert d in Nodes(tcx, items);
    assert d in multiset(Ids(g.ordered)) + multiset(Ids(g.failed));
    var i :| 0 <= i < |g.ordered| && Ids(g.ordered)[i] == d;
  }

  datatype PanicStrategy = Unwind | Abort

  /**
   * The contents of the two generated files: the crate's bindings, or the
   * same error comment in both files when the crate could not be formatted.
   */
  datatype Output = Generated(bindings: GeneratedBindings) | CrateFailed(comment: string)

  const UnwindMsg := "No support for panic=unwind strategy (b/254049425)"

  /**
   * `GeneratedBindings::generate`: the unwinding panic strategy is refused;
   * otherwise a failure of `format_crate` is reported as a comment rather
   * than as an error.
   */
  method Generate(tcx: Tcx, items: seq<nat>, panic: PanicStrategy) returns (r: Result<Output>)
    requires Distinct(items)
    ensures panic == Unwind <==> r == Err(UnwindMsg)
    ensures panic == Abort ==> r.Ok?
    ensures r.Ok? && r.value.CrateFailed? <==> panic == Abort && tcx.ccIdent(tcx.crateName).Err?
    ensures r.Ok? && r.value.CrateFailed? ==>
      r.value.comment == "Failed to generate bindings for the crate: " + tcx.ccIdent(tcx.crateName).error
    ensures r.Ok? && r.value.Generated? ==> var g := r.value.bindings;
      && g.namespace == tcx.ccIdent(tcx.crateName).value
      && multiset(Ids(g.ordered)) + multiset(Ids(g.failed)) == multiset(Nodes(tcx, items))
      && PrereqsFirst(tcx, Ids(g.ordered))
      && EntriesFaithful(tcx, g)
      && IncludesOfOrdered(tcx, g)
      && FailedAreBlocked(tcx, g)
      && Preferred(Ids(g.ordered), Nodes(tcx, items), Deps(tcx, Nodes(tcx, items)), SpanOf(tcx))
  {
    if panic == Unwind {
      return Err(UnwindMsg);
    }
    var b := FormatCrate(tcx, items);
    match b
    case Err(e) =>
      r := Ok(CrateFailed("Failed to generate bindings for the crate: " + e));
    case Ok(g) =>
      r := Ok(Generated(g));
  }
}
