/** The command-line decorators: the job-name check of `jobs_command` and
    `parse_context_vars`, which turns `--context a.b=value` options into a
    nested dictionary of context overrides. */
module Decorators {
  import opened Wrappers
  import opened Strings
  import opened Utils

  // ----- jobs_command -----------------------------------------------------

  /** The job names a command works on: all the defined jobs (in the order
      of the definitions' keys) when none are named, else the named ones,
      unchanged. The error carries the names that are not defined; the
      command then exits with status 1. */
  function ResolveJobsNames(requested: seq<string>, defined: seq<string>): (r: Result<seq<string>, set<string>>)
    ensures r.Ok? <==> forall n :: n in requested ==> n in defined
    ensures r.Ok? && |requested| > 0 ==> r.value == requested
    ensures r.Ok? && |requested| == 0 ==> r.value == defined
    ensures r.Ok? ==> forall n :: n in r.value ==> n in defined
    ensures r.Err? ==> r.error != {} && forall n :: n in r.error <==> n in requested && n !in defined
  {
    var names := if |requested| == 0 then defined else requested;
    if forall n :: n in names ==> n in defined then Ok(names)
    else
      var unknown := set n | n in names && n !in defined;
      var n :| n in names && n !in defined;
      assert n in unknown;
      Err(unknown)
  }

  // ----- parse_context_vars -----------------------------------------------

  datatype ContextVarError =
      /** A spec without `=` (`MalformedContextVar`). */
      MalformedContextVar(spec: string)
      /** A spec whose dotted name goes through a value set by an earlier
          spec that is not a dictionary (`set_path_in_dict` fails). */
    | PathConflict(spec: string)

  /** `s.partition(sep)` when `sep` occurs: the part before its first
      occurrence and the whole remainder after it. */
  function Partition(s: string, sep: char): (r: Option<(string, string)>)
    ensures r.None? <==> sep !in s
    ensures r.Some? ==> sep !in r.value.0 && s == r.value.0 + [sep] + r.value.1
  {
    if |s| == 0 then None
    else if s[0] == sep then Some(([], s[1..]))
    else match Partition(s[1..], sep)
      case None => None
      case Some((before, after)) => Some(([s[0]] + before, after))
  }

  /** A string cut at the first separator is cut where the separator-free
      prefix ends, whatever the remainder holds. */
  lemma {:induction false} PartitionAtFirst(before: string, sep: char, after: string)
    requires sep !in before
    ensures Partition(before + [sep] + after, sep) == Some((before, after))
  {
    var s := before + [sep] + after;
    if |before| > 0 {
      assert s[1..] == before[1..] + [sep] + after;
      PartitionAtFirst(before[1..], sep, after);
      assert [before[0]] + before[1..] == before;
    } else {
      assert s[1..] == after;
    }
  }

  /** One `VAR=VALUE` spec: the dotted name split on `.` into a path, and
      the value, a string. */
  function ParseSpec(spec: string): (r: Result<(KeyPath, string), ContextVarError>)
    ensures r.Err? <==> '=' !in spec
    ensures r.Err? ==> r.error == MalformedContextVar(spec)
    ensures r.Ok? ==> |r.value.0| >= 1
  {
    match Partition(spec, '=')
    case None => Err(MalformedContextVar(spec))
    case Some((name, value)) => Ok((Split(name, '.'), value))
  }

  /** The spec is cut at its first `=`: the value is the whole remainder,
      `=` signs included, and the name is split on dots. */
  lemma ParseSpecSplitsAtFirstEquals(name: string, value: string)
    requires '=' !in name
    ensures ParseSpec(name + "=" + value) == Ok((Split(name, '.'), value))
  {
    assert name + "=" + value == name + ['='] + value;
    PartitionAtFirst(name, '=', value);
  }

  /** Setting one parsed spec into the overrides gathered so far. */
  function AddSpec(ret: Dict, spec: string): Result<Dict, ContextVarError>
  {
    match ParseSpec(spec)
    case Err(e) => Err(e)
    case Ok((path, value)) =>
      match SetPath(ret, path, Leaf(value))
      case Err(_) => Err(PathConflict(spec))
      case Ok(d) => Ok(d)
  }

  /** The overrides for `specs`, taken in order from an empty dictionary;
      the first spec that fails stops the parse. */
  function ParseAll(specs: seq<string>): Result<Dict, ContextVarError>
  {
    if |specs| == 0 then Ok(map[])
    else match ParseAll(specs[..|specs| - 1])
      case Err(e) => Err(e)
      case Ok(ret) => AddSpec(ret, specs[|specs| - 1])
  }

  /** Once a prefix of the specs fails, the whole parse fails the same
      way. */
  lemma {:induction false} ParseAllStops(specs: seq<string>, i: nat)
    requires i <= |specs| && ParseAll(specs[..i]).Err?
    ensures ParseAll(specs) == ParseAll(specs[..i])
    decreases |specs|
  {
    if i < |specs| {
      var init := specs[..|specs| - 1];
      assert init[..i] == specs[..i];
      ParseAllStops(init, i);
    } else {
      assert specs[..i] == specs;
    }
  }

  /** `parse_context_vars`: a loop over the specs, setting each into `ret` in
      place. */
  method ParseContextVars(contextVars: seq<string>) returns (r: Result<Dict, ContextVarError>)
    ensures r == ParseAll(contextVars)
  {
    var ret: Dict := map[];
    for i := 0 to |contextVars|
      invariant ParseAll(contextVars[..i]) == Ok(ret)
    {
      var spec := contextVars[i];
      assert contextVars[..i + 1][..i] == contextVars[..i];
      var parts := Partition(spec, '=');
      if parts.None? {
        ParseAllStops(contextVars, i + 1);
        return Err(MalformedContextVar(spec));
      }
      var (name, value) := parts.value;
      var path := Split(name, '.');
      var res := SetPathInDict(ret, path, Leaf(value));
      if res.Err? {
        ParseAllStops(contextVars, i + 1);
        return Err(PathConflict(spec));
      }
      ret := res.value;
    }
    assert contextVars[..|contextVars|] == contextVars;
    return Ok(ret);
  }

  /** A successful parse had `=` in every spec; a spec without one makes
      the parse fail, with the first such spec when no earlier spec
      failed. */
  lemma {:induction false} ParseAllMalformed(specs: seq<string>)
    ensures ParseAll(specs).Ok? ==> forall i :: 0 <= i < |specs| ==> '=' in specs[i]
    ensures ParseAll(specs).Err? && ParseAll(specs).error.MalformedContextVar? ==>
      exists i :: 0 <= i < |specs| && specs[i] == ParseAll(specs).error.spec && '=' !in specs[i]
  {
    if |specs| > 0 {
      var init := specs[..|specs| - 1];
      var last := specs[|specs| - 1];
      var prev, r := ParseAll(init), ParseAll(specs);
      ParseAllMalformed(init);
      if prev.Ok? {
        AddSpecMalformed(prev.value, last, r);
        assert forall i :: 0 <= i < |init| ==> specs[i] == init[i];
      } else {
        assert r == prev;
        if r.error.MalformedContextVar? {
          var i :| 0 <= i < |init| && init[i] == r.error.spec && '=' !in init[i];
          assert specs[i] == init[i];
        }
      }
    }
  }

  /** Adding a spec succeeds only when it has `=`, and fails as malformed
      only naming it. */
  lemma AddSpecMalformed(ret: Dict, spec: string, r: Result<Dict, ContextVarError>)
    requires r == AddSpec(ret, spec)
    ensures r.Ok? ==> '=' in spec
    ensures r.Err? && r.error.MalformedContextVar? ==> r.error.spec == spec && '=' !in spec
  {
  }

  /** A spec sets its value at its path unless a later spec sets a path that
      leads through or to it: later specs override earlier ones, and specs
      for unrelated paths accumulate. */
  lemma {:induction false} LastSpecWins(specs: seq<string>, i: nat, path: KeyPath, value: string)
    requires i < |specs| && ParseSpec(specs[i]) == Ok((path, value))
    requires ParseAll(specs).Ok?
    requires forall j :: i < j < |specs| ==> ParseSpec(specs[j]).Ok? && !Comparable(ParseSpec(specs[j]).value.0, path)
    ensures Lookup(ParseAll(specs).value, path) == Some(Leaf(value))
  {
    var init := specs[..|specs| - 1];
    var last := specs[|specs| - 1];
    var prev := ParseAll(init);
    ParseAllLast(specs, prev);
    if i == |specs| - 1 {
      AddSpecSets(prev.value, last, path, value);
    } else {
      assert init[i] == specs[i];
      forall j | i < j < |init|
        ensures ParseSpec(init[j]).Ok? && !Comparable(ParseSpec(init[j]).value.0, path)
      {
        assert init[j] == specs[j];
      }
      LastSpecWins(init, i, path, value);
      AddSpecKeeps(prev.value, last, path);
    }
  }

  /** A successful parse is the last spec added to the parse of the ones
      before it. */
  lemma ParseAllLast(specs: seq<string>, prev: Result<Dict, ContextVarError>)
    requires |specs| > 0 && ParseAll(specs).Ok? && prev == ParseAll(specs[..|specs| - 1])
    ensures prev.Ok? && ParseAll(specs) == AddSpec(prev.value, specs[|specs| - 1])
  {
  }

  /** A spec that is set holds its value at its path. */
  lemma AddSpecSets(d: Dict, spec: string, path: KeyPath, value: string)
    requires ParseSpec(spec) == Ok((path, value)) && AddSpec(d, spec).Ok?
    ensures Lookup(AddSpec(d, spec).value, path) == Some(Leaf(value))
  {
    SetPathThenLookup(d, path, Leaf(value));
  }

  /** A spec that is set keeps what lies at a path its own does not
      overlap. */
  lemma AddSpecKeeps(d: Dict, spec: string, path: KeyPath)
    requires ParseSpec(spec).Ok? && !Comparable(ParseSpec(spec).value.0, path) && AddSpec(d, spec).Ok?
    ensures Lookup(AddSpec(d, spec).value, path) == Lookup(d, path)
  {
    var (q, v) := ParseSpec(spec).value;
    SetPathKeepsOthers(d, q, Leaf(v), path);
  }

  /** `a.b=c` gives `{'a': {'b': 'c'}}`. */
  lemma DottedNameExample()
    ensures ParseAll(["a.b=c"]) == Ok(map["a" := Node(map["b" := Leaf("c")])])
  {
    ParseSpecSplitsAtFirstEquals("a.b", "c");
    assert "a.b" == "a" + ['.'] + "b";
    SplitAfterFirstSep("a", "b", '.');
    SplitWithoutSep("a", '.');
    SplitWithoutSep("b", '.');
    assert ["a.b=c"][..0] == [];
  }
}
