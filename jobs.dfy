/** Jobs: the pipeline bits of a job's configuration (a
    `ReverseBuildTrigger` element naming the upstream jobs and the result
    they must reach), the normalisation of job definitions and the default
    jobs file written on import. Parsing and serialising XML are the
    identity here: a configuration is its element tree. */
module Jobs {
  import opened Wrappers
  import opened Xml
  import Strings
  import Utils

  const ReverseBuildTrigger := "jenkins.triggers.ReverseBuildTrigger"

  /** `LINK_ELTS`: for each link type, the elements that follow `name` in
      the trigger's `threshold`. */
  const LinkElts: map<string, seq<(string, string)>> := map[
    "SUCCESS" := [("ordinal", "0"), ("color", "BLUE"), ("completeBuild", "true")],
    "UNSTABLE" := [("ordinal", "1"), ("color", "YELLOW"), ("completeBuild", "true")],
    "FAILURE" := [("ordinal", "2"), ("color", "RED"), ("completeBuild", "true")]
  ]

  /** The link types from the weakest requirement on the upstream result to
      the strongest failure. */
  const LinkTypes: seq<string> := ["SUCCESS", "UNSTABLE", "FAILURE"]

  /** Exactly the three link types have threshold elements; the ordinal of
      each is its position, and a build is always required to be complete. */
  lemma LinkEltsTable()
    ensures LinkElts.Keys == set t | t in LinkTypes
    ensures forall i :: 0 <= i < |LinkTypes| ==>
      var elts := LinkElts[LinkTypes[i]];
      |elts| == 3 && elts[0] == ("ordinal", Strings.NatToString(i))
      && elts[1].0 == "color" && elts[2] == ("completeBuild", "true")
  {
    assert Strings.NatToString(0) == "0";
    assert Strings.NatToString(1) == "1";
    assert Strings.NatToString(2) == "2";
  }

  /** `_create_elt(tag, text)`: an element without attributes or children. */
  function CreateElt(tag: string, text: Option<string>): (e: Element)
    ensures e.tag == tag && e.text == text && e.attrs == map[] && e.children == []
  {
    Element(tag, map[], text, [])
  }

  /** The parsed pipeline bits: the upstream job names and the link type
      (`None` when the trigger has no `threshold/name`). */
  datatype Pipeline = Pipeline(parents: seq<string>, linkType: Option<string>)

  /** The trigger has no `upstreamProjects` child: `findtext` gives `None`
      and `.split` raises. */
  datatype ExtractError = NoUpstreamProjects

  /** The non-blank entries, in order and unstripped. */
  function KeepNonBlank(parts: seq<string>): (r: seq<string>)
    ensures forall x :: x in r <==> x in parts && !Strings.Blank(x)
    ensures |r| <= |parts|
  {
    if |parts| == 0 then []
    else (if Strings.Blank(parts[0]) then [] else [parts[0]]) + KeepNonBlank(parts[1..])
  }

  /** Filtering commutes with concatenation: the kept entries keep their
      order. */
  lemma {:induction false} KeepNonBlankAppend(a: seq<string>, b: seq<string>)
    ensures KeepNonBlank(a + b) == KeepNonBlank(a) + KeepNonBlank(b)
  {
    if |a| > 0 {
      assert (a + b)[0] == a[0] && (a + b)[1..] == a[1..] + b;
      KeepNonBlankAppend(a[1..], b);
      var head := if Strings.Blank(a[0]) then [] else [a[0]];
      calc {
        KeepNonBlank(a + b);
        head + KeepNonBlank(a[1..] + b);
        head + (KeepNonBlank(a[1..]) + KeepNonBlank(b));
        (head + KeepNonBlank(a[1..])) + KeepNonBlank(b);
        KeepNonBlank(a) + KeepNonBlank(b);
      }
    } else {
      assert a + b == b;
    }
  }

  lemma {:induction false} KeepNonBlankAll(parts: seq<string>)
    requires forall i :: 0 <= i < |parts| ==> !Strings.Blank(parts[i])
    ensures KeepNonBlank(parts) == parts
  {
    if |parts| > 0 {
      KeepNonBlankAll(parts[1..]);
    }
  }

  /** `extract_pipeline_conf`: the first `ReverseBuildTrigger` below the
      root is parsed and removed from its parent. */
  function ExtractPipelineConf(doc: Element): (r: Result<(Option<Pipeline>, Element), ExtractError>)
    ensures FindFirst(doc, ReverseBuildTrigger).None? ==> r == Ok((None, doc))
    ensures FindFirst(doc, ReverseBuildTrigger).Some? ==>
      var p := FindFirst(doc, ReverseBuildTrigger).value;
      (r.Err? <==> ChildText(At(doc, p).children, "upstreamProjects").None?)
      && (r.Ok? ==>
            r.value.0.Some?
            && ValidPath(r.value.1, p[..|p| - 1]) && p[|p| - 1] <= |At(r.value.1, p[..|p| - 1]).children|
            && InsertAt(r.value.1, p, At(doc, p)) == doc)
    ensures FindFirst(doc, ReverseBuildTrigger).Some? && r.Ok? ==>
      var p := FindFirst(doc, ReverseBuildTrigger).value;
      var parent := p[..|p| - 1]; var k := p[|p| - 1];
      ValidPath(doc, parent) && k < |At(doc, parent).children|
      && ValidPath(r.value.1, parent)
      && At(r.value.1, parent).children == At(doc, parent).children[..k] + At(doc, parent).children[k + 1..]
    ensures FindFirst(doc, ReverseBuildTrigger).Some? && r.Ok? ==>
      var rbt := At(doc, FindFirst(doc, ReverseBuildTrigger).value);
      var text := ChildText(rbt.children, "upstreamProjects").value;
      r.value.0 == Some(Pipeline(KeepNonBlank(Strings.Split(text, ',')), GrandchildText(rbt.children, "threshold", "name")))
  {
    match FindFirst(doc, ReverseBuildTrigger)
    case None => Ok((None, doc))
    case Some(p) =>
      var rbt := At(doc, p);
      match ChildText(rbt.children, "upstreamProjects")
      case None => Err(NoUpstreamProjects)
      case Some(text) =>
        var parents := KeepNonBlank(Strings.Split(text, ','));
        var linkType := GrandchildText(rbt.children, "threshold", "name");
        RemoveThenInsert(doc, p);
        RemoveAtParent(doc, p);
        Ok((Some(Pipeline(parents, linkType)), RemoveAt(doc, p)))
  }

  /** The `ReverseBuildTrigger` element `merge_pipeline_conf` builds:
      `spec`, the parents joined by `", "`, and the threshold (`name`, then
      the link type's entries of `LINK_ELTS`). What extraction reads back
      from it is the joined parents and the link type. */
  function TriggerElt(parents: seq<string>, linkType: string): (e: Element)
    requires linkType in LinkElts
    ensures e.tag == ReverseBuildTrigger
    ensures |e.children| == 3 && e.children[0] == CreateElt("spec", None)
    ensures e.children[1] == CreateElt("upstreamProjects", Some(Strings.Join(parents, ", ")))
    ensures e.children[2].tag == "threshold"
    ensures var th := e.children[2].children;
      |th| == 1 + |LinkElts[linkType]| && th[0] == CreateElt("name", Some(linkType))
      && forall i :: 0 <= i < |LinkElts[linkType]| ==>
        th[i + 1] == CreateElt(LinkElts[linkType][i].0, Some(LinkElts[linkType][i].1))
  {
    var elts := LinkElts[linkType];
    var threshold := CreateElt("threshold", None).(children :=
      [CreateElt("name", Some(linkType))]
      + seq(|elts|, i requires 0 <= i < |elts| => CreateElt(elts[i].0, Some(elts[i].1))));
    CreateElt(ReverseBuildTrigger, None).(children :=
      [CreateElt("spec", None), CreateElt("upstreamProjects", Some(Strings.Join(parents, ", "))), threshold])
  }

  /** What extraction reads from the built trigger: `upstreamProjects` is
      the parents joined by `", "`, and `threshold/name` the link type. */
  lemma TriggerEltTexts(parents: seq<string>, linkType: string)
    requires linkType in LinkElts
    ensures var e := TriggerElt(parents, linkType);
      ChildText(e.children, "upstreamProjects") == Some(Strings.Join(parents, ", "))
      && GrandchildText(e.children, "threshold", "name") == Some(linkType)
  {
    var e := TriggerElt(parents, linkType);
    assert ChildText(e.children[2].children, "name") == Some(linkType);
    assert GrandchildText(e.children[2..], "threshold", "name") == Some(linkType);
    assert e.children[1..][1..] == e.children[2..];
    assert ChildText(e.children[1..], "upstreamProjects") == Some(Strings.Join(parents, ", "));
  }

  /** The link type is not a key of `LINK_ELTS` (a `KeyError`), or the
      document has no `triggers` element to append to. */
  datatype MergeError = UnknownLinkType | NoTriggers

  /** `merge_pipeline_conf`: a new trigger element becomes the last child of
      the first `triggers` element below the root. An unknown link type is
      reported before a missing `triggers` element, as the table lookup
      comes first. */
  function MergePipelineConf(doc: Element, parents: seq<string>, linkType: Option<string>): (r: Result<Element, MergeError>)
    ensures r == Err(UnknownLinkType) <==> linkType.None? || linkType.value !in LinkElts
    ensures r == Err(NoTriggers) <==>
      linkType.Some? && linkType.value in LinkElts && FindFirst(doc, "triggers").None?
    ensures r.Ok? ==>
      var p := FindFirst(doc, "triggers").value; var n := |At(doc, p).children|;
      ValidPath(r.value, p) && At(r.value, p).children == At(doc, p).children + [TriggerElt(parents, linkType.value)]
      && ValidPath(r.value, p + [n]) && RemoveAt(r.value, p + [n]) == doc
  {
    if linkType.None? || linkType.value !in LinkElts then Err(UnknownLinkType)
    else
      var trigger := TriggerElt(parents, linkType.value);
      match FindFirst(doc, "triggers")
      case None => Err(NoTriggers)
      case Some(p) =>
        AppendAtAdds(doc, p, trigger);
        AppendThenRemove(doc, p, trigger);
        Ok(AppendAt(doc, p, trigger))
  }

  /** The entries extraction reads back from `", ".join(parents)`: splitting
      on `,` leaves the space after each comma at the head of the next name. */
  function ReadBackParents(parents: seq<string>): (r: seq<string>)
    ensures |r| == |parents|
  {
    if |parents| == 0 then []
    else [parents[0]] + seq(|parents| - 1, i requires 0 <= i < |parents| - 1 => " " + parents[i + 1])
  }

  lemma JoinCons(x: string, rest: seq<string>, sep: string)
    requires |rest| >= 1
    ensures Strings.Join([x] + rest, sep) == x + sep + Strings.Join(rest, sep)
  {
    assert ([x] + rest)[1..] == rest;
  }

  /** Joining with `", "` is joining with `","` after putting a space before
      every name but the first. */
  lemma {:induction false} JoinCommaSpace(parents: seq<string>)
    ensures Strings.Join(parents, ", ") == Strings.Join(ReadBackParents(parents), ",")
  {
    if |parents| >= 2 {
      var t := parents[1..];
      JoinCommaSpace(t);
      var vt := ReadBackParents(t);
      var v := ReadBackParents(parents);
      assert parents == [parents[0]] + t;
      JoinCons(parents[0], t, ", ");
      assert v == [parents[0]] + ([" " + t[0]] + vt[1..]);
      JoinCons(parents[0], [" " + t[0]] + vt[1..], ",");
      assert vt == [t[0]] + vt[1..];
      if |t| >= 2 {
        JoinCons(" " + t[0], vt[1..], ",");
        JoinCons(t[0], vt[1..], ",");
      }
    }
  }

  /** Merging parents (each non-blank and without a comma) with a known link
      type into a document without pipeline bits, then extracting, gives the
      document back with the link type and the parents as the comma split
      reads them: a single parent comes back as it was, later ones with the
      space of the `", "` separator in front. */
  lemma MergeThenExtract(doc: Element, parents: seq<string>, t: string)
    requires FindFirst(doc, ReverseBuildTrigger).None?
    requires FindFirst(doc, "triggers").Some?
    requires t in LinkElts
    requires forall i :: 0 <= i < |parents| ==> ',' !in parents[i] && !Strings.Blank(parents[i])
    ensures MergePipelineConf(doc, parents, Some(t)).Ok?
    ensures ExtractPipelineConf(MergePipelineConf(doc, parents, Some(t)).value)
      == Ok((Some(Pipeline(ReadBackParents(parents), Some(t))), doc))
  {
    MergeThenExtractTree(doc, parents, t);
    ParentsReadBack(parents);
  }

  /** Extraction finds the appended trigger, reads back the joined parents
      and leaves the document as it was before the merge. */
  lemma MergeThenExtractTree(doc: Element, parents: seq<string>, t: string)
    requires FindFirst(doc, ReverseBuildTrigger).None?
    requires FindFirst(doc, "triggers").Some?
    requires t in LinkElts
    ensures MergePipelineConf(doc, parents, Some(t)).Ok?
    ensures ExtractPipelineConf(MergePipelineConf(doc, parents, Some(t)).value)
      == Ok((Some(Pipeline(KeepNonBlank(Strings.Split(Strings.Join(parents, ", "), ',')), Some(t))), doc))
  {
    var p := FindFirst(doc, "triggers").value;
    var trigger := TriggerElt(parents, t);
    TriggerEltTexts(parents, t);
    FindAfterAppend(doc, p, trigger, ReverseBuildTrigger);
    AppendAtAdds(doc, p, trigger);
    AppendThenRemove(doc, p, trigger);
  }

  /** The comma split of the parents joined by `", "` keeps every parent,
      the later ones with the separator's space in front. */
  lemma ParentsReadBack(parents: seq<string>)
    requires forall i :: 0 <= i < |parents| ==> ',' !in parents[i] && !Strings.Blank(parents[i])
    ensures KeepNonBlank(Strings.Split(Strings.Join(parents, ", "), ',')) == ReadBackParents(parents)
  {
    var back := ReadBackParents(parents);
    JoinCommaSpace(parents);
    if |parents| == 0 {
      assert Strings.Split("", ',') == [""];
      assert Strings.Blank("");
    } else {
      ReadBackPartsPlain(parents);
      Strings.SplitJoin(back, ',');
      KeepNonBlankAll(back);
    }
  }

  /** The parents as read back hold no comma and are not blank. */
  lemma ReadBackPartsPlain(parents: seq<string>)
    requires forall i :: 0 <= i < |parents| ==> ',' !in parents[i] && !Strings.Blank(parents[i])
    ensures var back := ReadBackParents(parents);
      forall i :: 0 <= i < |back| ==> ',' !in back[i] && !Strings.Blank(back[i])
  {
    var back := ReadBackParents(parents);
    forall i | 0 <= i < |back|
      ensures ',' !in back[i] && !Strings.Blank(back[i])
    {
      if i > 0 {
        assert back[i] == " " + parents[i];
        assert !Strings.Blank(back[i]) by {
          var j :| 0 <= j < |parents[i]| && !Strings.IsSpace(parents[i][j]);
          assert back[i][j + 1] == parents[i][j];
        }
      }
    }
  }

  /** The tests' round trip: one parent and a known link type come back
      exactly, with the original document. */
  lemma MergeThenExtractOneParent(doc: Element, parent: string, t: string)
    requires FindFirst(doc, ReverseBuildTrigger).None?
    requires FindFirst(doc, "triggers").Some?
    requires t in LinkElts
    requires ',' !in parent && !Strings.Blank(parent)
    ensures MergePipelineConf(doc, [parent], Some(t)).Ok?
    ensures ExtractPipelineConf(MergePipelineConf(doc, [parent], Some(t)).value)
      == Ok((Some(Pipeline([parent], Some(t))), doc))
  {
    assert ReadBackParents([parent]) == [parent];
    MergeThenExtract(doc, [parent], t);
  }

  // ----- job definitions --------------------------------------------------

  /** A normalised job definition: its template and its full context. */
  datatype JobDef = JobDef(template: Utils.Value, context: Utils.Dict)

  /** The job's `context` is a non-empty string, which `dict.update`
      rejects, or the definition has no `template` (a `KeyError`). */
  datatype NormalizeError = BadContext | MissingTemplate

  /** The entries `dict.update` takes from the job's `context` value: a
      mapping's entries; an empty string has none. */
  function ContextEntries(v: Utils.Value): Option<Utils.Dict>
  {
    match v
    case Node(m) => Some(m)
    case Leaf(s) => if s == "" then Some(map[]) else None
  }

  /** `_normalize_job_def`: the default context, overridden key by key by
      the job's own `context`. The default context itself is a value and so
      is never changed. */
  function NormalizeJobDef(jobDef: Utils.Dict, defaultContext: Utils.Dict): (r: Result<JobDef, NormalizeError>)
    ensures r == Err(BadContext) <==> "context" in jobDef && ContextEntries(jobDef["context"]).None?
    ensures r == Err(MissingTemplate) <==>
      ("context" !in jobDef || ContextEntries(jobDef["context"]).Some?) && "template" !in jobDef
    ensures r.Ok? ==> r.value.template == jobDef["template"]
    ensures r.Ok? && "context" !in jobDef ==> r.value.context == defaultContext
    ensures r.Ok? && "context" in jobDef ==>
      var own := ContextEntries(jobDef["context"]).value;
      (forall k :: k in r.value.context <==> k in defaultContext || k in own)
      && (forall k :: k in own ==> r.value.context[k] == own[k])
      && (forall k :: k in defaultContext && k !in own ==> r.value.context[k] == defaultContext[k])
  {
    var own := if "context" in jobDef then ContextEntries(jobDef["context"]) else Some(map[]);
    if own.None? then Err(BadContext)
    else if "template" !in jobDef then Err(MissingTemplate)
    else Ok(JobDef(jobDef["template"], defaultContext + own.value))
  }

  // ----- file names -------------------------------------------------------

  predicate IsAbsolute(path: string)
  {
    |path| > 0 && path[0] == '/'
  }

  /** `os.path.join(a, b)` on POSIX: an absolute `b` replaces `a`; otherwise
      `b` is appended, after a `/` unless `a` is empty or already ends in
      one. */
  function PathJoin(a: string, b: string): (r: string)
    ensures IsAbsolute(b) ==> r == b
    ensures !IsAbsolute(b) ==> |r| >= |a| + |b| && r[|r| - |b|..] == b && r[..|a|] == a
  {
    if IsAbsolute(b) then b
    else if |a| == 0 || a[|a| - 1] == '/' then a + b
    else a + "/" + b
  }

  /** The part of a joined path after a directory and its separator: the
      slice `path[len(dir) + 1:]`. */
  function RelativePart(path: string, dir: string): string
  {
    if |dir| + 1 <= |path| then path[|dir| + 1..] else ""
  }

  /** Joining a relative name to a directory that does not end in `/` and
      taking the relative part gives the name back. */
  lemma JoinThenRelative(dir: string, name: string)
    requires !IsAbsolute(name) && |dir| > 0 && dir[|dir| - 1] != '/'
    ensures RelativePart(PathJoin(dir, name), dir) == name
  {
  }

  function GetTemplatesDir(baseDir: string): string
  {
    PathJoin(baseDir, "templates")
  }

  function GetDefaultTemplateFname(baseDir: string, jobName: string): string
  {
    PathJoin(PathJoin(GetTemplatesDir(baseDir), jobName), "config.xml")
  }

  function GetJobsDefsFname(baseDir: string): string
  {
    PathJoin(baseDir, "jobs.yaml")
  }

  function GetDefaultContextFname(baseDir: string): string
  {
    PathJoin(baseDir, "default_context.yaml")
  }

  /** The repository's files sit directly in the base directory: the part
      of each path after the base directory is the file's fixed name. So
      the three files never collide, whatever the base directory. */
  lemma RepositoryFilesRelative(baseDir: string)
    requires |baseDir| > 0 && baseDir[|baseDir| - 1] != '/'
    ensures RelativePart(GetTemplatesDir(baseDir), baseDir) == "templates"
    ensures RelativePart(GetJobsDefsFname(baseDir), baseDir) == "jobs.yaml"
    ensures RelativePart(GetDefaultContextFname(baseDir), baseDir) == "default_context.yaml"
    ensures GetJobsDefsFname(baseDir) != GetDefaultContextFname(baseDir)
    ensures GetTemplatesDir(baseDir) != GetJobsDefsFname(baseDir)
    ensures GetTemplatesDir(baseDir) != GetDefaultContextFname(baseDir)
  {
    JoinThenRelative(baseDir, "templates");
    JoinThenRelative(baseDir, "jobs.yaml");
    JoinThenRelative(baseDir, "default_context.yaml");
  }

  /** The template of a job, relative to the templates directory, is the
      job's directory and `config.xml`. */
  lemma DefaultTemplateRelative(baseDir: string, jobName: string)
    requires |jobName| > 0 && !IsAbsolute(jobName) && jobName[|jobName| - 1] != '/'
    ensures RelativePart(GetDefaultTemplateFname(baseDir, jobName), GetTemplatesDir(baseDir)) == jobName + "/config.xml"
  {
    var t := GetTemplatesDir(baseDir);
    assert t[|t| - |"templates"|..] == "templates";
    assert |t| > 0 && t[|t| - 1] == 's';
    var j := PathJoin(t, jobName);
    assert j == t + "/" + jobName;
    assert j[|j| - 1] == jobName[|jobName| - 1];
    var rest := jobName + "/config.xml";
    assert PathJoin(j, "config.xml") == j + "/" + "config.xml";
    assert j + "/" + "config.xml" == (t + "/") + rest;
    DropPrefix(t + "/", rest);
  }

  lemma DropPrefix(a: string, b: string)
    ensures (a + b)[|a|..] == b
  {
  }

  // ----- default jobs file ------------------------------------------------

  /** The three lines of one job in the default jobs file. */
  function JobLines(jobName: string, templateFname: string, templatesDir: string): (lines: seq<string>)
    ensures |lines| == 3
  {
    [jobName + ":", "  template: " + RelativePart(templateFname, templatesDir), ""]
  }

  /** The lines of the default jobs file for the jobs `names`, in that order. */
  function JobsDefsLines(names: seq<string>, templates: map<string, string>, templatesDir: string): (lines: seq<string>)
    requires forall i :: 0 <= i < |names| ==> names[i] in templates
    ensures |lines| == 3 * |names|
  {
    if |names| == 0 then []
    else JobLines(names[0], templates[names[0]], templatesDir) + JobsDefsLines(names[1..], templates, templatesDir)
  }

  /** Job `i` of the list has lines `3i` to `3i + 2`. */
  lemma {:induction false} JobsDefsLinesAt(names: seq<string>, templates: map<string, string>, templatesDir: string, i: nat)
    requires forall i :: 0 <= i < |names| ==> names[i] in templates
    requires i < |names|
    ensures JobsDefsLines(names, templates, templatesDir)[3 * i..3 * i + 3]
      == JobLines(names[i], templates[names[i]], templatesDir)
  {
    if i > 0 {
      JobsDefsLinesAt(names[1..], templates, templatesDir, i - 1);
    }
  }

  /** `format_default_jobs_defs`: for each job, in sorted order, its name,
      its template relative to the templates directory and an empty line. */
  method FormatDefaultJobsDefs(jobsTemplates: map<string, string>, baseDir: string) returns (text: string)
    ensures text == Strings.Join(
      JobsDefsLines(Strings.SortedSeq(jobsTemplates.Keys), jobsTemplates, GetTemplatesDir(baseDir)), "\n")
  {
    var templatesDir := GetTemplatesDir(baseDir);
    var names := Strings.SortNames(jobsTemplates.Keys);
    var lines := AppendJobsLines(names, jobsTemplates, templatesDir);
    text := Strings.Join(lines, "\n");
  }

  /** The loop of `format_default_jobs_defs` over the sorted job names. */
  method AppendJobsLines(names: seq<string>, jobsTemplates: map<string, string>, templatesDir: string) returns (lines: seq<string>)
    requires forall j :: 0 <= j < |names| ==> names[j] in jobsTemplates
    ensures lines == JobsDefsLines(names, jobsTemplates, templatesDir)
  {
    lines := [];
    for i := 0 to |names|
      invariant lines == JobsDefsLines(names[..i], jobsTemplates, templatesDir)
    {
      var templateFname := jobsTemplates[names[i]];
      var relTemplateFname := RelativePart(templateFname, templatesDir);
      lines := lines + [names[i] + ":"];
      lines := lines + ["  template: " + relTemplateFname];
      lines := lines + [""];
      assert names[..i + 1] == names[..i] + [names[i]];
      JobsDefsLinesAppend(names[..i], names[i], jobsTemplates, templatesDir);
    }
    assert names[..|names|] == names;
  }

  lemma {:induction false} JobsDefsLinesAppend(names: seq<string>, name: string, templates: map<string, string>, templatesDir: string)
    requires forall i :: 0 <= i < |names| ==> names[i] in templates
    requires name in templates
    ensures JobsDefsLines(names + [name], templates, templatesDir)
      == JobsDefsLines(names, templates, templatesDir) + JobLines(name, templates[name], templatesDir)
  {
    if |names| > 0 {
      assert (names + [name])[1..] == names[1..] + [name];
      JobsDefsLinesAppend(names[1..], name, templates, templatesDir);
    }
  }

  /** The default jobs file names every job once, in sorted order, each
      with its template relative to the templates directory. */
  lemma DefaultJobsFileLists(jobsTemplates: map<string, string>, baseDir: string)
    ensures var names := Strings.SortedSeq(jobsTemplates.Keys);
      Strings.StrictlySorted(names) && |names| == |jobsTemplates|
      && (forall x :: x in names <==> x in jobsTemplates)
      && forall i :: 0 <= i < |names| ==>
        JobsDefsLines(names, jobsTemplates, GetTemplatesDir(baseDir))[3 * i]
          == names[i] + ":"
  {
    var names := Strings.SortedSeq(jobsTemplates.Keys);
    Strings.SortedSeqIsSortedPermutation(jobsTemplates.Keys);
    var lines := JobsDefsLines(names, jobsTemplates, GetTemplatesDir(baseDir));
    forall i | 0 <= i < |names|
      ensures lines[3 * i] == names[i] + ":"
    {
      JobsDefsLinesAt(names, jobsTemplates, GetTemplatesDir(baseDir), i);
      assert lines[3 * i..3 * i + 3][0] == lines[3 * i];
    }
  }
}
