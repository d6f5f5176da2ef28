# jenskipper core, modelled in Dafny

jenskipper keeps Jenkins job definitions in a local repository (Jinja
templates plus `jobs.yaml`) and pushes them to a Jenkins server. This
project models the sequential logic at the heart of it and proves what that
logic promises.

- **Pipeline codec** (`Jobs`, `Xml`). `extract_pipeline_conf` finds the first
  `jenkins.triggers.ReverseBuildTrigger` element of a job's XML tree, reads
  its upstream projects and threshold name, and removes it. It leaves the
  rest of the tree untouched. `merge_pipeline_conf` builds that element from
  `LINK_ELTS` and appends it to the first `<triggers>`. A document is its
  element tree, and ElementTree's `find`, `remove` and `append` are tree
  functions.
- **Job definitions and repository files** (`Jobs`). This covers
  `_normalize_job_def`, the `os.path.join` path helpers and
  `format_default_jobs_defs`. That last one sorts the job names and appends
  three lines per job in a loop; it is a method.
- **Nested dictionaries** (`Utils`). This covers `set_path_in_dict` (a
  method walking the keys), `flatten_dict`, `deep_merge` (a method looping
  over the flattened leaves) and `_get_hostport`.
- **XML syntax-error report** (`XmlErrors`). `format_lxml_syntax_error` is
  modelled as written (`XmlErrors.FormatLxmlSyntaxError`), with styling as
  the identity and Python's slice and index rules written out. Its line
  window has two defects (see Findings). A second version with the window
  corrected (`XmlErrors.FormatLxmlSyntaxErrorCorrected`) carries the
  lemmas about the window, the numbered gutter and the caret; the
  as-written lemmas show where the two differ.
- **Command-line decorators** (`Decorators`). This covers the job-name
  check of `jobs_command` and `parse_context_vars`, a method that folds the
  `VAR=VALUE` specs into a nested dictionary.
- **Push** (`Push`). The Jenkins server is a class whose `jobs` map is
  changed by `push_job_config` and `delete_job`. The model covers:
  - the push-permission gate;
  - the GUI-modification check;
  - `_push_jobs`, which pushes from the front of `remaining_jobs` and stops
    at the first job type mismatch;
  - the outer loop, which deletes the mismatching job and retries, or stops
    when the replacement is declined.
- **Build** (`Build`). This covers `trigger_builds` and the two polling
  loops, `_get_builds_urls` (queue item to build URL) and `_poll_builds`
  (build URL to result). Each sweep is a method over a snapshot of the
  working set, and the server's answers are an oracle indexed by sweep.
  It also covers `_get_runs_urls` and the decisions of
  `print_build_result`, returned as the list of things shown.
- **Python behaviour** (`Strings`, `Wrappers`). These are the pieces of
  Python's behaviour used above: `split`, `join`, `strip`, `%i`/`%Ni`
  formatting, string ordering and `sorted`. `Wrappers` holds `Option` and
  `Result`. An exception a caller sees becomes an `Err`.

Two behaviours of the code worth knowing:

- **Parent names after a round trip.** Upstream project names are not
  stripped after the comma split. So a merge/extract round trip returns a
  single parent exactly, and every later parent with a leading space (the
  space of the `", "` separator), as `Jobs.MergeThenExtract` states. The
  one-parent round trip of `tests/test_jobs.py:6-17` is
  `Jobs.MergeThenExtractOneParent`.
- **Gutter width in the error report.** The gutter is as wide as the
  number one past the last line shown, as `len(xml_lines) + start_line + 1`
  computes it. It is not the width of the largest number shown.

## Model

| member | source | states |
|---|---|---|
| Jobs.LinkEltsTable | jenskipper/jobs.py:8-24 | `LINK_ELTS` has exactly the keys SUCCESS, UNSTABLE and FAILURE. Each holds `ordinal` equal to its position (0, 1, 2), then `color`, then `completeBuild` = `true`. |
| Jobs.KeepNonBlank | jenskipper/jobs.py:35-36 | An entry is kept iff it is not blank after stripping. Kept entries are not stripped. |
| Jobs.KeepNonBlankAppend | jenskipper/jobs.py:35-36 | Filtering a concatenation is concatenating the filtered parts, so kept entries stay in their order. |
| Jobs.KeepNonBlankAll | jenskipper/jobs.py:35-36 | When no entry is blank, all entries are kept, in order. |
| Jobs.ExtractPipelineConf | jenskipper/jobs.py:27-44 | With no `ReverseBuildTrigger` descendant, the result is `None` and the same tree. Otherwise, for the first trigger in document order, it fails iff the trigger has no `upstreamProjects` child. On success: the parents are the non-blank comma-split entries; the link type is `threshold/name`; the new tree is the old one with exactly that element removed from its parent; siblings keep their order, and putting the element back restores the document. |
| Jobs.TriggerElt | jenskipper/jobs.py:59-77 | The built trigger has exactly three children, each made by `_create_elt` (no attributes, no children of its own): `spec`, `upstreamProjects` holding the parents joined by `", "`, and `threshold`. The threshold holds `name` = link type, then the link type's `LINK_ELTS` entries in order. |
| Jobs.TriggerEltTexts | jenskipper/jobs.py:34-37 | What extraction reads from the built trigger: `findtext('./upstreamProjects')` is the joined parents and `findtext('./threshold/name')` is the link type. |
| Jobs.MergePipelineConf | jenskipper/jobs.py:51-71 | Fails iff the link type is not a `LINK_ELTS` key (a missing link type included). Otherwise fails iff there is no `<triggers>`. On success: the first `<triggers>` gains exactly one new last child, the trigger; removing that child gives the input document back. |
| Jobs.ReadBackParents | jenskipper/jobs.py:61 | The names read back from the joined parents are as many as the parents. |
| Jobs.JoinCommaSpace | jenskipper/jobs.py:61 | `", ".join(parents)` is the `","` join of the parents, with a space before every name but the first. |
| Jobs.MergeThenExtractTree | jenskipper/jobs.py:27-71 | Merging into a document without pipeline bits and with `<triggers>`, then extracting, gives: the link type; the non-blank comma split of the joined parents; the original document. |
| Jobs.ParentsReadBack | jenskipper/jobs.py:34-36 | For parents that are non-blank and have no comma, the comma split of their `", "` join, filtered, is the parents with a space before all but the first. |
| Jobs.MergeThenExtract | jenskipper/jobs.py:27-71 | Merge then extract is a round trip on the document and the link type. The parents come back as the first name, then the others each preceded by a space. |
| Jobs.MergeThenExtractOneParent | tests/test_jobs.py:6-17 | Merging one parent `p` (non-blank, no comma) with link type `t`, then extracting, gives `([p], t)` and the original document. |
| Jobs.NormalizeJobDef | jenskipper/jobs.py:123-130 | The template is the job's own. The context is the default context overridden key by key by the job's `context` (defaults alone when it is absent). Errors: a non-mapping context, or a missing template. |
| Jobs.PathJoin | jenskipper/jobs.py:86 | `os.path.join`: an absolute second part replaces the first. Otherwise the result starts with the first part and ends with the second. |
| Jobs.JoinThenRelative | jenskipper/jobs.py:110 | Cutting `len(dir) + 1` characters off a name joined to `dir` (with no trailing `/`) gives the name back. |
| Jobs.RepositoryFilesRelative | jenskipper/jobs.py:85-99 | For a base directory not ending in `/`, the part of each repository path after the base directory and its separator is the fixed name: `templates`, `jobs.yaml`, `default_context.yaml`. The three paths are distinct. |
| Jobs.DefaultTemplateRelative | jenskipper/jobs.py:89-91 | A job's default template, relative to the templates directory, is `<job>/config.xml`. |
| Jobs.JobLines | jenskipper/jobs.py:111-113 | Each job contributes three lines. |
| Jobs.JobsDefsLines | jenskipper/jobs.py:108-113 | The jobs file has three lines per job. |
| Jobs.JobsDefsLinesAt | jenskipper/jobs.py:108-113 | Lines `3i..3i+3` are job `i`'s lines. |
| Jobs.JobsDefsLinesAppend | jenskipper/jobs.py:108-113 | One more job appends its three lines at the end. |
| Jobs.AppendJobsLines | jenskipper/jobs.py:106-113 | The loop appending each job's lines yields the lines of all jobs in order. |
| Jobs.FormatDefaultJobsDefs | jenskipper/jobs.py:102-114 | The file is the newline join of the lines of the jobs in sorted order. |
| Jobs.DefaultJobsFileLists | jenskipper/jobs.py:102-114 | The listed names are strictly sorted, are exactly the jobs given, and line `3i` is `name:` for the `i`-th name. |
| Xml.PrecedesTotal | jenskipper/jobs.py:32 | Document order is total on distinct paths. |
| Xml.PrecedesAsymmetric | jenskipper/jobs.py:32 | Document order is asymmetric. |
| Xml.DescendantDoesNotPrecede | jenskipper/jobs.py:32 | No descendant precedes its ancestor. |
| Xml.FindFromSpec | jenskipper/jobs.py:32 | The search from child `i` on finds a descendant with the tag that no other match from there precedes, or proves there is no match from there. |
| Xml.FindFirst | jenskipper/jobs.py:32 | `find('.//tag')` gives the first descendant with that tag in document order, and `None` iff there is none. |
| Xml.FindFirstIs | jenskipper/jobs.py:69 | Any match that no other match precedes is the one `find` returns. |
| Xml.RemoveThenInsert | jenskipper/jobs.py:39-40 | Removing a node and inserting it back at its place restores the tree. |
| Xml.RemoveAtParent | jenskipper/jobs.py:39-40 | Removal takes exactly that child out of its parent's children, the others keeping their order. |
| Xml.AppendAtAdds | jenskipper/jobs.py:69-70 | Appending adds exactly one last child, the given element. |
| Xml.AppendThenRemove | jenskipper/jobs.py:69-70 | Removing the appended child gives the tree back. |
| Xml.AppendAtKeepsTags | jenskipper/jobs.py:69-70 | Outside the appended subtree, every node keeps its tag. |
| Xml.FindAfterAppend | jenskipper/jobs.py:32 | After appending a trigger to a document without one, the first trigger found is the appended one. |
| Xml.ChildText | jenskipper/jobs.py:34 | `findtext('./tag')` is `None` iff no child has the tag. Otherwise it is the text (`""` when it has none) of a child with the tag that no earlier child shares. |
| Xml.GrandchildText | jenskipper/jobs.py:37 | `findtext('./outer/inner')` is `None` iff no `outer` child has an `inner` child. Otherwise it is the `inner` text of the first `outer` child that has one. |
| Utils.GetThroughNodes | jenskipper/utils.py:101-106 | Every proper prefix of a path that leads to a value leads to a dictionary. |
| Utils.Put | jenskipper/utils.py:100-107 | The key-by-key walk fails on a non-mapping value. On success the top level gains the first key, and every other key keeps its value. |
| Utils.SetPath | jenskipper/utils.py:96-107 | An empty path leaves the dictionary as it is. On success the top level gains the path's first key, and every other key keeps its value. |
| Utils.PutThenGet | jenskipper/utils.py:100-107 | After setting a value at a path, following the path yields the value. |
| Utils.PutKeepsOthers | jenskipper/utils.py:100-107 | Setting at a path keeps what lies at every path that does not overlap it. |
| Utils.PutFailsIffBlocked | jenskipper/utils.py:101-106 | The walk fails iff a non-mapping value sits at a proper prefix of the path. |
| Utils.PutCreatesIntermediates | jenskipper/utils.py:103-104 | A missing intermediate key is created as a dictionary holding only the next key. |
| Utils.SetPathThenLookup | jenskipper/utils.py:86-107 | `set_path_in_dict`: lookup after set yields the value set. |
| Utils.SetPathKeepsOthers | jenskipper/utils.py:86-107 | No value at a non-overlapping path changes. |
| Utils.SetPathFailsIffBlocked | jenskipper/utils.py:86-107 | Fails iff a leaf blocks the way. |
| Utils.SetPathInDict | jenskipper/utils.py:86-107 | The key-popping loop, with the nested updates written back, computes `SetPath`. |
| Utils.FlattenNodeEntry | jenskipper/utils.py:224-232 | A flattened path below a dictionary is a key of it followed by a flattened path of that key's value. |
| Utils.FlattenFromSpec | jenskipper/utils.py:224-232 | The flattened entries are exactly the leaves below a value, each under the path leading to it. |
| Utils.FlattenDict | jenskipper/utils.py:127-135 | Every entry is a non-empty path to a leaf holding its value, and every leaf path is an entry. |
| Utils.FlattenKeysIndependent | jenskipper/utils.py:224-232 | Distinct flattened paths never overlap. |
| Utils.FlattenByLeaves | jenskipper/utils.py:127-135 | The flattening depends only on the leaves. |
| Utils.FlattenIgnoresEmptyDicts | jenskipper/utils.py:226-231 | An empty nested dictionary contributes no entry. |
| Utils.MergeKeepsWay | jenskipper/utils.py:122-123 | During the merge, for a path not overlapping any leaf already set, the result has a leaf at a proper prefix of it iff `a` has. |
| Utils.MergeStepBlocked | jenskipper/utils.py:122-123 | Setting the next leaf of `b` fails iff a leaf of `a` blocks its path. |
| Utils.MergeStepOk | jenskipper/utils.py:122-123 | A successful set adds that leaf to those merged, keeping the merge invariant. |
| Utils.MergeSucceeds | jenskipper/utils.py:121-124 | Once every leaf of `b` is set: none was blocked; each holds `b`'s value; paths independent of `b` keep `a`'s value; an empty `b` leaves `a`. |
| Utils.DeepMerge | jenskipper/utils.py:110-124 | `deep_merge` succeeds iff no leaf of `b` is blocked by a leaf of `a`. The result holds `b`'s value at every leaf path of `b`, and `a`'s at every path overlapping none of them. An empty `b` gives `a`. |
| Utils.HostportRoundTrip | jenskipper/utils.py:79-83 | For a host name without a colon, host and port can be read back from `host[:port]`. |
| Utils.GetHostport | jenskipper/utils.py:79-83 | The result starts with the host name and is exactly it without a port. For a host name without a colon, the result has a colon iff a port is given. |
| XmlErrors.SliceBound | jenskipper/utils.py:184 | A slice bound is clamped to the list, with negative bounds counting from the end. |
| XmlErrors.SliceRange | jenskipper/utils.py:184-186 | A slice covers a range inside the list. |
| XmlErrors.PyIndex | jenskipper/utils.py:185 | Indexing succeeds inside the list, with negative indices counting from the end. |
| XmlErrors.NumberLines | jenskipper/utils.py:209-214 | Every shown line gets a number. |
| XmlErrors.Render | jenskipper/utils.py:184-221 | For a given window, the report raises `IndexError` iff `lines[err_line]` or `error_line[err_offset]` is out of range (negative indices counting from the end). Otherwise it is the four header lines, then at least the error line and the caret line. |
| XmlErrors.FormatLinesAsWritten | jenskipper/utils.py:176-221 | The report with the window as written raises `IndexError` iff the 1-based error position is outside the document, and otherwise opens with the header. |
| XmlErrors.FormatLines | jenskipper/utils.py:176-221 | Corrected window (Findings): the same error condition and header as the code. |
| XmlErrors.JoinedHeader | jenskipper/utils.py:187-192 | A report joined by newlines starts with `XML syntax error in <context>:`, a blank line, the message and a blank line. |
| XmlErrors.FormatLxmlSyntaxError | jenskipper/utils.py:161-221 | `format_lxml_syntax_error` as written: `IndexError` iff the error position is outside the document; otherwise the text starts with the header text. |
| XmlErrors.FormatLxmlSyntaxErrorCorrected | jenskipper/utils.py:161-221 | Corrected window (Findings): the same error condition and header text. |
| XmlErrors.MarkedLineIsLine | jenskipper/utils.py:197-201 | The styled pieces of the error line join back into the line. |
| XmlErrors.RenderOk | jenskipper/utils.py:184-221 | For an error inside the document, the report is the header, the numbered window and the caret line. |
| XmlErrors.RenderWindow | jenskipper/utils.py:184-221 | The report for a window `s..e` around the error uses the gutter width of `e + 1`. |
| XmlErrors.ReportShape | jenskipper/utils.py:187-220 | The report is 4 header lines, the shown lines and one caret line, with the caret line right after the error line. |
| XmlErrors.ReportNumbering | jenskipper/utils.py:206-214 | The `i`-th shown line is numbered `start + 1 + i`, before or after the caret. |
| XmlErrors.FormatLinesRender | jenskipper/utils.py:178-186 | Corrected window (Findings): the window starts at `max(0, err - context_lines)` (0 with `full_xml`, as in the code) and stops `context_lines` after the error line, where the code starts at `err - context_lines` and stops one line earlier. |
| XmlErrors.AfterContext | jenskipper/utils.py:183-186 | Corrected window (Findings): the after-context slice is the lines after the error line up to the window end. |
| XmlErrors.WindowBounds | jenskipper/utils.py:178-186 | Corrected window (Findings): the window shows at most `context_lines` lines on each side of the error line, fewer only at the document's ends, and everything with `full_xml`. |
| XmlErrors.FormatLinesWindow | jenskipper/utils.py:161-221 | Corrected window (Findings): the report is the numbered window around the error with the caret after the error line. |
| XmlErrors.WindowLayout | jenskipper/utils.py:202-220 | Corrected window (Findings): line `k` of the document appears as line `k`, and the caret line comes right after the error line. |
| XmlErrors.NumberedColumns | jenskipper/utils.py:207-214 | A numbered line is gutter, margin, then the text: text column `j` sits at `gutter + margin + j`. |
| XmlErrors.CaretColumn | jenskipper/utils.py:217-218 | The caret line is `indent` spaces then `^`. |
| XmlErrors.GutterAligned | jenskipper/utils.py:206-214 | Corrected window (Findings): every shown number fits the gutter, so all texts start in the same column. |
| XmlErrors.CaretUnderError | jenskipper/utils.py:206-218 | Corrected window (Findings): the caret sits in the column of the offending character of the error line. |
| XmlErrors.FullXmlUnaffected | jenskipper/utils.py:178-180 | With `full_xml` the corrected window and the window as written agree. |
| XmlErrors.AsWrittenMisnumbersEarlyErrors | jenskipper/utils.py:182-212 | As written, an error on line `lineno <= context_lines` is shown numbered `lineno - context_lines`. |
| XmlErrors.AsWrittenEarlyWindow | jenskipper/utils.py:182-212 | As written, such an error shows no line before it. The window is numbered from `lineno - context_lines`, with a gutter sized for `m + 1 - context_lines`, where `m` is the window's end. |
| XmlErrors.AsWrittenFirstLineExample | jenskipper/utils.py:182-218 | As written, an error on line 1 with 5 context lines numbers the lines -4..0. |
| XmlErrors.AsWrittenFirstLineShown | jenskipper/utils.py:206-218 | In that example, "-4" overflows the one-character gutter, so the caret is one column left of the error. |
| XmlErrors.AsWrittenShortAfterContext | jenskipper/utils.py:183-186 | As written, `context_lines - 1` lines follow the error line where the corrected window shows `context_lines`. |
| XmlErrors.AsWrittenAfterContextExample | jenskipper/utils.py:183-186 | As written, with one context line no line follows the error; corrected, one does. |
| Decorators.ResolveJobsNames | jenskipper/cli/decorators.py:38-45 | No names means all defined jobs. Otherwise the names pass unchanged iff all are defined; else the error holds exactly the unknown names. |
| Decorators.Partition | jenskipper/cli/decorators.py:97 | `partition('=')` finds a separator iff there is one, and cuts at its first occurrence. |
| Decorators.PartitionAtFirst | jenskipper/cli/decorators.py:97 | The cut is at the first separator, whatever the rest holds. |
| Decorators.ParseSpec | jenskipper/cli/decorators.py:97-100 | A spec fails with `MalformedContextVar` iff it has no `=`. The path is non-empty. |
| Decorators.ParseSpecSplitsAtFirstEquals | jenskipper/cli/decorators.py:97-100 | The value is the whole remainder after the first `=`, and the name is split on dots. |
| Decorators.ParseAllStops | jenskipper/cli/decorators.py:96-99 | The first failing spec decides the result. |
| Decorators.ParseContextVars | jenskipper/cli/decorators.py:94-102 | The loop setting each spec in place computes the in-order fold of the specs. |
| Decorators.ParseAllMalformed | jenskipper/cli/decorators.py:96-99 | Success means every spec has `=`. A malformed error names a spec without one. |
| Decorators.LastSpecWins | jenskipper/cli/decorators.py:95-102 | A spec's value holds at its path unless a later spec's path overlaps it: later specs override, unrelated ones accumulate. |
| Decorators.AddSpecSets | jenskipper/cli/decorators.py:100-101 | A spec sets its value at its path. |
| Decorators.AddSpecKeeps | jenskipper/cli/decorators.py:100-101 | A spec leaves non-overlapping paths alone. |
| Decorators.DottedNameExample | jenskipper/cli/decorators.py:100-101 | `a.b=c` gives `{'a': {'b': 'c'}}`. |
| Push.Server.GetJobConfig | jenskipper/cli/push.py:79-81 | The server's configuration of the job, or `None` (`JobNotFound`). |
| Push.PushOne | jenskipper/cli/push.py:119-127 | The server refuses a push iff it holds the job with another type, and the refusal carries the name, the server's type and the pushed type. An accepted push stores the configuration under the name and changes nothing else. |
| Push.Server.PushJobConfig | jenskipper/cli/push.py:119-127 | A job of another type on the server is refused with its name, expected and pushed types, changing nothing. Otherwise the configuration is stored. |
| Push.Server.DeleteJob | jenskipper/cli/push.py:58-61 | The job is removed and nothing else changes. |
| Push.GuiModifiedJobs | jenskipper/cli/push.py:76-91 | A job is reported iff it is on the server with a saved hash differing from its recomputed hash. |
| Push.CheckForGuiModifications | jenskipper/cli/push.py:72-96 | Skipped with `allow_overwrite`. Otherwise every job is checked, the modified ones are reported in order, and the command exits iff there is one. |
| Push.PushBatch | jenskipper/cli/push.py:99-129 | The jobs left are never more than those given. |
| Push.PushJobs | jenskipper/cli/push.py:99-129 | The push loop's mismatch, remaining jobs and new server state are those of the batch function. |
| Push.PushBatchSpec | jenskipper/cli/push.py:102-129 | The jobs left are a suffix of the list. No mismatch iff none are left. On a mismatch, the head of the remaining jobs is the refused job, and the mismatch carries its name, the server's type and the pushed type, which differ. |
| Push.StoredAt | jenskipper/cli/push.py:104-128 | After a run of accepted pushes, each pushed job holds its pushed configuration; every other job is unchanged. |
| Push.StoredIsPushedFrom | jenskipper/cli/push.py:104-128 | The stored state is the state "pushed from" the start. |
| Push.StoredThenPush | jenskipper/cli/push.py:111-128 | One more accepted push extends the stored state, with the disabled flag taken from the starting server. |
| Push.PushBatchFrom | jenskipper/cli/push.py:104-128 | A batch stores exactly the jobs before the remaining ones. |
| Push.PushBatchPushes | jenskipper/cli/push.py:104-128 | The jobs before the remaining ones were pushed, and all others are as they were. |
| Push.DisabledFlagKept | jenskipper/cli/push.py:111-118 | A pushed job holds its rendered configuration. Its disabled flag is the server's iff `disable_jobs_from_gui` is set and the job was on the server. |
| Push.FinalConf | jenskipper/cli/push.py:111-118 | The pushed configuration is the rendered one except possibly its disabled flag. That flag is the server's when `disable_jobs_from_gui` is set and the job is on the server; otherwise nothing changes. |
| Push.BatchStep | jenskipper/cli/push.py:46-51 | A batch keeps the push invariant and extends the pushed prefix (by at least one after a deletion). The job it stops at was never pushed. |
| Push.ComposeStep | jenskipper/cli/push.py:46-51 | Pushes after earlier pushes compose. |
| Push.RefusedNotPushed | jenskipper/cli/push.py:119-127 | A job whose type mismatches was not among the pushed. |
| Push.DeleteStep | jenskipper/cli/push.py:52-61 | Deleting the refused job keeps the invariant. |
| Push.PushAll | jenskipper/cli/push.py:45-63 | The jobs left are a suffix of the list; everything before was pushed; nothing else changed. When some are left, the head mismatches on the server and its replacement was declined (confirmation is automatic without `confirm_replace`). |
| Push.Push | jenskipper/cli/push.py:31-66 | Forbidden iff `forbid_push` and not `force`. Otherwise the GUI check exits iff a job was modified and overwrite is not allowed. Either exit changes nothing on the server. Else, the pushed list is `sorted(set(requested) - remaining)` and the push state holds. |
| Push.PushedPartition | jenskipper/cli/push.py:64-66 | The pushed list is strictly sorted, and a requested job is pushed iff it is not left. |
| Push.ConfirmOverwrite | jenskipper/cli/push.py:132-148 | Without `confirm_replace` the replacement is approved; with it, approval is the user's answer. |
| Build.TriggerBuilds | jenskipper/cli/build.py:44-61 | The loop triggers each job in order, threading the Jenkins URL, and records each queue URL under its job name. |
| Build.TriggerAll | jenskipper/cli/build.py:51-61 | The queue URLs are keyed by exactly the requested job names, one per name. |
| Build.SweepQueue | jenskipper/cli/build.py:145-161 | A sweep fails iff some queue item answers an HTTP error other than 404. Otherwise: started builds move to the result with their `executable` URL; 404s are dropped as unknown status; the rest stay queued. |
| Build.QueueSweepStep | jenskipper/cli/build.py:146-161 | Handling one queue item keeps the sweep invariant. |
| Build.SweptQueue | jenskipper/cli/build.py:144-161 | With every item of the snapshot handled, the sweep's state is exactly the queued, started and gone jobs. |
| Build.GetBuildsUrls | jenskipper/cli/build.py:140-163 | The polling loop on a copy of the queue URLs computes the sweep-by-sweep function. |
| Build.QueueSweepProgress | jenskipper/cli/build.py:143-161 | A sweep keeps the partition of the jobs into working, started and unknown, each with a witness answer. |
| Build.BuildsUrlsFromSpec | jenskipper/cli/build.py:144-163 | From any sweep on, the loop ends with an empty working set, or fails only on a non-404 error. |
| Build.GetBuildsUrlsSpec | jenskipper/cli/build.py:140-163 | On completion, the result and the unknown jobs partition the requested jobs. Each build URL is the `executable` URL the server answered, and each unknown job got a 404. Failure means some answer was a non-404 error. |
| Build.GetRunsUrls | jenskipper/cli/build.py:181-185 | The runs' URLs in order, or `[]` without `runs`. |
| Build.SweepBuilds | jenskipper/cli/build.py:170-176 | A job leaves the working set iff its result is non-null, and is then recorded with its build URL, result and runs' URLs. |
| Build.BuildsSweepStep | jenskipper/cli/build.py:171-176 | Polling one build keeps the sweep invariant. |
| Build.SweptBuilds | jenskipper/cli/build.py:169-176 | With every build of the snapshot polled, the sweep's state is exactly the running and completed builds. |
| Build.PollBuilds | jenskipper/cli/build.py:166-178 | The polling loop on a copy of the build URLs computes the sweep-by-sweep function. |
| Build.PollFromSpec | jenskipper/cli/build.py:169-178 | From any sweep on, a completed loop has an empty working set and keeps the progress invariant. |
| Build.PollBuildsSpec | jenskipper/cli/build.py:166-178 | On completion every job is in the result with its own build URL, a non-null result the server answered, and that answer's runs' URLs. |
| Build.SubRunIsLeaf | jenskipper/cli/build.py:125-136 | A sub-run (empty run list, prefix of four spaces) shows one of: in progress; its result; its result then its log. It never shows runs. |
| Build.RunsAtSubRunPrefix | jenskipper/cli/build.py:125-136 | Every line shown for the runs is at the sub-run prefix or is a log. The first is a result line. |
| Build.RunsFailOnUnknownResult | jenskipper/cli/build.py:107-136 | The runs' report fails iff some run has a result outside SUCCESS/UNSTABLE/FAILURE, and the error carries the first such result. |
| Build.PrintBuildResultDecisions | jenskipper/cli/build.py:81-137 | A null result shows only "in progress". An unknown result is an error. A success with `only_log_failures` shows only the result. Otherwise: with no runs, the result then the log; with runs, the result, then the runs at the sub-run prefix, never the build's own log. |
| Build.PrintBuildResult | jenskipper/cli/build.py:81-137 | A report that does not fail opens with the job's progress or result, at the given prefix and under the job's name, never with a log. |
| Build.PrintRuns | jenskipper/cli/build.py:125-136 | A report of the sub-runs that does not fail shows at least one line per sub-run. |
| Strings.Split | jenskipper/jobs.py:35 | `split(sep)` gives at least one part, none containing the separator, and joining them back gives the string. |
| Strings.SplitWithoutSep | jenskipper/cli/decorators.py:100 | Without the separator, the split is the whole string. |
| Strings.SplitAfterFirstSep | jenskipper/cli/decorators.py:100 | Splitting cuts at the first separator, then splits the rest. |
| Strings.SplitJoin | jenskipper/jobs.py:35 | Splitting a join of separator-free parts gives the parts back. |
| Strings.NatToString | jenskipper/utils.py:82 | `'%s' % n` is non-empty decimal digits, without a leading zero. |
| Strings.NatToStringRoundTrip | jenskipper/utils.py:82 | The digits read back as the number. |
| Strings.DigitCountIsLength | jenskipper/utils.py:206 | The number of digits is the length of the decimal form. |
| Strings.DigitCountMonotone | jenskipper/utils.py:206 | Larger numbers need no fewer digits. |
| Strings.IntWidthIsLength | jenskipper/utils.py:206 | `len('%s' % i)` counts the sign of a negative number. |
| Strings.Spaces | jenskipper/utils.py:212 | `' ' * n` is `n` spaces. |
| Strings.PadLeftShape | jenskipper/utils.py:207-210 | `'%Ni'` right-justifies in `N` columns and never truncates. |
| Strings.BelowIrreflexive | jenskipper/jobs.py:108 | String order is irreflexive. |
| Strings.BelowTransitive | jenskipper/jobs.py:108 | String order is transitive. |
| Strings.BelowTotal | jenskipper/jobs.py:108 | String order is total on distinct strings. |
| Strings.BelowAsymmetric | jenskipper/jobs.py:108 | String order is asymmetric. |
| Strings.LeastExists | jenskipper/jobs.py:108 | A non-empty set of names has a least element. |
| Strings.LeastUnique | jenskipper/jobs.py:108 | The least element is unique. |
| Strings.Least | jenskipper/jobs.py:108 | It is below every other name of the set. |
| Strings.SortedSeq | jenskipper/jobs.py:108 | `sorted` lists exactly the set's names. |
| Strings.SortedSeqIsSortedPermutation | jenskipper/jobs.py:108 | `sorted` is strictly increasing, and each name is listed once. |
| Strings.SortNames | jenskipper/cli/push.py:64 | The selection loop computes `sorted`. |

## Left out

- The Jenkins server and network are outside the model: `jenkins_api`, `requests`, `auth` and `handle_auth`.
  - `push` works on a `Server` object holding a map of jobs.
  - The polling loops receive an oracle from sweep number and URL to answer.
  - `print_build_result` receives the build and run information as functions.
- `handle_auth`'s re-authentication is only the Jenkins URL it hands back (`Build.TriggerBuilds` threads it). Inside `print_build_result` the URL is not threaded, because the report does not depend on it.
- `time.sleep(1)` between sweeps is not modelled: time plays no part in what a sweep computes.
- Build.GetBuildsUrls: the loop has no bound in the code. The model runs at most `fuel` sweeps, then reports `StillPolling`. It claims nothing about termination.
- Build.PollBuilds: as above, bounded by `fuel`, with no termination claim.
- `get_object` errors inside `_poll_builds` and `print_build_result` are not modelled; they propagate unchanged in the code.
- The build command's exit status (`jenskipper/cli/build.py:41`) and the `wait_for_builds` composition are not modelled.
- The log text of `print_build_result` is not modelled. Printing, colours, `sechowrap`, progress bars and `print_jobs_list` become lists of shown items or are dropped.
- `click.confirm` is the `approve` function, so only the decision it returns is kept.
- The diff printed by `_check_for_gui_modifications` is not modelled.
  - `jenskipper/cli/diff.py` is not part of this model.
  - `extract_hash_from_description` and `get_conf_hash` become the saved-hash field and a `confHash` function.
- `jobs.render_job` and `transfuse_disabled_flag` are not modelled. The rendered configurations are an input, and the disabled-flag transfer is `Push.FinalConf`.
- `trigger_builds` after `push` (`do_build`) is not modelled: it is the build command's own logic.
- XML parsing and serialisation are the identity on trees (`clean_xml`, `parse_xml`, `render_xml`, `unescape_xml`, `_format_xml_tree`). Byte-exact output belongs to ElementTree.
- Templates (`create_templates_env`), `yaml.safe_load` in `parse_jobs`, and the `repository` and `conf` lookups are file I/O. Their results are parameters.
- `render_jobs` (`jenskipper/jobs.py:133-141`) is not modelled: it calls `merge_pipeline_conf` with two arguments and returns the last rendered job.
- `utils.cd`, `dirty_flag` and `tests/cli/test_dirty.py` change directories and run git, which is OS work.
- Utils.SetPathInDict: with `inplace=False` Python deep-copies the dictionary first, with `inplace=True` it updates it in place. Dictionaries are values here, so copying, aliasing and the identity of the returned object are not modelled.
- Utils.DeepMerge: as above, the in-place and copying variants coincide on values.
- Context values are strings or mappings. YAML numbers, lists and `null` are not modelled (a `null` job context would make `dict.update` raise).
- `format_lxml_syntax_error` takes the document already split into lines, so `splitlines` is not modelled.
- Python 2's dictionary iteration order is arbitrary. The sweeps choose the next job with `:|`, and their results do not depend on that order.
- Jobs.MergeThenExtract: equality of documents is equality of trees, not of serialised text.

## Findings

| source | as written | input that shows it | evidently intended | confidence | as-written member | corrected member |
|---|---|---|---|---|---|---|
| jenskipper/utils.py:182-212 | The window starts at `err_line - context_lines` even when that is negative. The slice then starts from the end, lines are numbered from a negative start, and the caret is misplaced. | An error on line 1 of a 6-line document with `context_lines = 5`: the error line is numbered -4 in a one-column gutter, and the caret lands one column left of the offending character. | The window starts at the first line, and line `k` is numbered `k`. | not executed | XmlErrors.AsWrittenMisnumbersEarlyErrors | XmlErrors.WindowLayout |
| jenskipper/utils.py:183-186 | The after-context slice stops at `err_line + context_lines`, exclusive, so only `context_lines - 1` lines follow the error line. | An error on line 3 of a 5-line document with `context_lines = 1` shows line 2 before the error and no line after it. | As many lines after the error line as before it, up to `context_lines`. | not executed | XmlErrors.AsWrittenShortAfterContext | XmlErrors.WindowBounds |
