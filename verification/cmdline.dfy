/**
 * The command line of the bindings generator: the `CRATE_NAME=INCLUDE_PATH`
 * parser behind `--bindings-from-dependency` and the construction of the
 * parsed command line, which puts the executable name in front of the
 * arguments forwarded to the Rust compiler.
 */
module Cmdline {
  import opened Wrappers

  /** The parsed flags; argument-parser plumbing is not modelled. */
  datatype Cmdline = Cmdline(
    hOut: string,
    rsOut: string,
    crubitSupportPath: string,
    clangFormatExePath: string,
    bindingsFromDependencies: seq<(string, string)>,
    rustfmtExePath: string,
    rustfmtConfigPath: Option<string>,
    rustcArgs: seq<string>)

  /** `str::find`: the position of the first occurrence of `c`, if any. */
  function Find(s: string, c: char): (r: Option<nat>)
    ensures r.Some? ==> r.value < |s| && s[r.value] == c
    ensures r.Some? ==> forall j :: 0 <= j < r.value ==> s[j] != c
    ensures r.None? <==> c !in s
  {
    if |s| == 0 then None
    else if s[0] == c then Some(0)
    else match Find(s[1..], c)
      case None => None
      case Some(i) => Some(i + 1)
  }

  const MissingEqualsPrefix := "Expected KEY=VALUE syntax but no `=` found in `"
  const EmptyCrateName := "Empty crate names are invalid"
  const EmptyIncludePath := "Empty include paths are invalid"

  /**
   * `parse_bindings_from_dependency`: split at the FIRST `=`; both halves
   * must be non-empty. The three failures are checked in this order.
   */
  function ParseBindingsFromDependency(s: string): (r: Result<(string, string)>)
    ensures '=' !in s <==> r == Err(MissingEqualsPrefix + s + "`")
    ensures r.Ok? ==>
      var (crate, path) := r.value;
      crate + "=" + path == s && '=' !in crate && crate != [] && path != []
    ensures r.Err? && '=' in s ==>
      r == Err(EmptyCrateName) || r == Err(EmptyIncludePath)
    ensures |s| > 0 && s[0] == '=' <==> r == Err(EmptyCrateName)
  {
    match Find(s, '=')
    case None => Err(MissingEqualsPrefix + s + "`")
    case Some(pos) =>
      var crate := s[..pos];
      var path := s[pos + 1..];
      assert s == crate + "=" + path;
      if crate == [] then Err(EmptyCrateName)
      else if path == [] then Err(EmptyIncludePath)
      else Ok((crate, path))
  }

  /**
   * Every well-formed `CRATE=PATH` pair (no `=` in the crate name, both
   * parts non-empty) is recovered exactly from its spelling; together with
   * the ensures of `ParseBindingsFromDependency` the two are inverse.
   */
  lemma ParseRoundTrip(crate: string, path: string)
    requires '=' !in crate && crate != [] && path != []
    ensures ParseBindingsFromDependency(crate + "=" + path) == Ok((crate, path))
  {
    var s := crate + "=" + path;
    FindAfterPrefix(crate, path);
    assert s[..|crate|] == crate;
    assert s[|crate| + 1..] == path;
  }

  lemma {:induction false} FindAfterPrefix(crate: string, path: string)
    requires '=' !in crate
    ensures Find(crate + "=" + path, '=') == Some(|crate|)
    decreases |crate|
  {
    if |crate| > 0 {
      assert (crate + "=" + path)[1..] == crate[1..] + "=" + path;
      FindAfterPrefix(crate[1..], path);
    }
  }

  /**
   * Values of repeated `--bindings-from-dependency` flags, parsed in order;
   * the first malformed value is the error.
   */
  function ParseDependencies(values: seq<string>): (r: Result<seq<(string, string)>>)
    ensures r.Ok? ==> |r.value| == |values|
    ensures r.Ok? ==> forall i :: 0 <= i < |values| ==>
      r.value[i].0 + "=" + r.value[i].1 == values[i]
    ensures r.Err? <==> exists i :: 0 <= i < |values| && ParseBindingsFromDependency(values[i]).Err?
  {
    if |values| == 0 then Ok([])
    else
      match ParseBindingsFromDependency(values[0])
      case Err(e) => Err(e)
      case Ok(p) =>
        match ParseDependencies(values[1..])
        case Err(e) =>
          Err(e)
        case Ok(ps) =>
          assert forall i :: 1 <= i < |values| ==> values[i] == values[1..][i - 1];
          Ok([p] + ps)
  }

  /**
   * `Cmdline::new`: `args[0]` must be present (the source panics
   * otherwise). `parse` stands for the derived argument parser applied to
   * the `@file`-expanded arguments; on success the executable name is
   * inserted in front of the forwarded compiler arguments and nothing else
   * changes.
   */
  function New(args: seq<string>, parse: seq<string> -> Result<Cmdline>): (r: Result<Cmdline>)
    requires |args| > 0
    ensures parse(args).Err? <==> r.Err?
    ensures r.Err? ==> r.error == parse(args).error
    ensures r.Ok? ==>
      |r.value.rustcArgs| == |parse(args).value.rustcArgs| + 1
      && r.value.rustcArgs[0] == args[0]
      && r.value.rustcArgs[1..] == parse(args).value.rustcArgs
      && r.value.(rustcArgs := []) == parse(args).value.(rustcArgs := [])
  {
    var exeName := args[0];
    match parse(args)
    case Err(e) => Err(e)
    case Ok(c) => Ok(c.(rustcArgs := [exeName] + c.rustcArgs))
  }
}
