/** The `push` command: the push-permission gate, the check for jobs changed
    in the Jenkins GUI since the last push, and the push of the rendered jobs
    with its retry after a job type mismatch. The Jenkins server is a class
    whose jobs the push and delete calls change. */
module Push {
  import opened Wrappers
  import opened Strings

  /** A job configuration as the push sees it: the job type (the root tag of
      its XML document), the disabled flag, the hash saved in its
      description, and the rest of the document. */
  datatype JobConf = JobConf(jobType: string, disabled: bool, savedHash: Option<string>, body: string)

  /** `JobTypeMismatch`: the server holds `jobName` with another job type
      than the one pushed. */
  datatype Mismatch = Mismatch(jobName: string, expectedType: string, pushedType: string)

  /** The jobs on the server, by name. */
  type Jobs = map<string, JobConf>

  /** The server's answer to `push_job_config`: a job of another type is
      refused, anything else is stored under the job's name. */
  function PushOne(jobs: Jobs, name: string, conf: JobConf): (r: Result<Jobs, Mismatch>)
    ensures r.Err? <==> name in jobs && jobs[name].jobType != conf.jobType
    ensures r.Err? ==> r.error == Mismatch(name, jobs[name].jobType, conf.jobType)
    ensures r.Ok? ==> r.value == jobs[name := conf]
  {
    if name in jobs && jobs[name].jobType != conf.jobType then Err(Mismatch(name, jobs[name].jobType, conf.jobType))
    else Ok(jobs[name := conf])
  }

  /** The Jenkins server, seen through `get_job_config`, `push_job_config`
      and `delete_job`. */
  class Server {
    var jobs: Jobs

    constructor (jobs: Jobs)
      ensures this.jobs == jobs
    {
      this.jobs := jobs;
    }

    /** `get_job_config`: `None` stands for `JobNotFound`. */
    method GetJobConfig(name: string) returns (r: Option<JobConf>)
      ensures r == if name in jobs then Some(jobs[name]) else None
    {
      r := if name in jobs then Some(jobs[name]) else None;
    }

    method PushJobConfig(name: string, conf: JobConf) returns (r: Option<Mismatch>)
      modifies this
      ensures match PushOne(old(jobs), name, conf)
        case Ok(next) => r.None? && jobs == next
        case Err(m) => r == Some(m) && jobs == old(jobs)
    {
      match PushOne(jobs, name, conf)
      case Ok(next) =>
        jobs := next;
        r := None;
      case Err(m) =>
        r := Some(m);
    }

    method DeleteJob(name: string)
      modifies this
      ensures jobs == old(jobs) - {name}
    {
      jobs := jobs - {name};
    }
  }


  // ----- _check_for_gui_modifications -------------------------------------

  /** `extract_hash_from_description` then `get_conf_hash`: a job on the
      server was changed in the GUI when its description holds a saved hash
      that differs from the hash of its configuration with that hash taken
      out. */
  predicate ModifiedInGui(jobs: Jobs, name: string, confHash: JobConf -> string)
  {
    name in jobs && jobs[name].savedHash.Some?
    && jobs[name].savedHash.value != confHash(jobs[name].(savedHash := None))
  }

  /** The jobs of `names`, in order, that were changed in the GUI. */
  function GuiModifiedJobs(jobs: Jobs, names: seq<string>, confHash: JobConf -> string): (r: seq<string>)
    ensures forall n :: n in r <==> n in names && ModifiedInGui(jobs, n, confHash)
  {
    if |names| == 0 then []
    else
      var init := names[..|names| - 1];
      var last := names[|names| - 1];
      assert names == init + [last];
      GuiModifiedJobs(jobs, init, confHash) + (if ModifiedInGui(jobs, last, confHash) then [last] else [])
  }

  /** `_check_for_gui_modifications`: skipped with `allow_overwrite`;
      otherwise every job is checked, those changed in the GUI are
      reported, and the command exits when there was one. */
  method CheckForGuiModifications(server: Server, jobsNames: seq<string>, allowOverwrite: bool,
                                  confHash: JobConf -> string)
    returns (exit: bool, reported: seq<string>)
    ensures reported == if allowOverwrite then [] else GuiModifiedJobs(server.jobs, jobsNames, confHash)
    ensures exit <==> !allowOverwrite && exists n :: n in jobsNames && ModifiedInGui(server.jobs, n, confHash)
  {
    if allowOverwrite {
      return false, [];
    }
    var guiWasModified := false;
    reported := [];
    for i := 0 to |jobsNames|
      invariant reported == GuiModifiedJobs(server.jobs, jobsNames[..i], confHash)
      invariant guiWasModified <==> reported != []
    {
      var jobName := jobsNames[i];
      assert jobsNames[..i + 1][..i] == jobsNames[..i];
      var conf := server.GetJobConfig(jobName);
      if conf.Some? {
        var savedHash := conf.value.savedHash;
        var actualHash := confHash(conf.value.(savedHash := None));
        if savedHash.Some? && savedHash.value != actualHash {
          reported := reported + [jobName];
          guiWasModified := true;
        }
      }
    }
    assert jobsNames[..|jobsNames|] == jobsNames;
    if guiWasModified {
      assert reported[0] in reported;
    }
    exit := guiWasModified;
  }

  // ----- _push_jobs -------------------------------------------------------

  /** The configuration pushed for a job: the rendered one, carrying the
      server's disabled flag when `disable_jobs_from_gui` is set and the job
      is on the server (`transfuse_disabled_flag`). */
  function FinalConf(jobs: Jobs, name: string, rendered: JobConf, disableFromGui: bool): (r: JobConf)
    ensures r.jobType == rendered.jobType && r.savedHash == rendered.savedHash && r.body == rendered.body
    ensures disableFromGui && name in jobs ==> r.disabled == jobs[name].disabled
    ensures !(disableFromGui && name in jobs) ==> r == rendered
  {
    if disableFromGui && name in jobs then rendered.(disabled := jobs[name].disabled) else rendered
  }

  /** What `_push_jobs` returns, with the server's jobs afterwards. */
  datatype BatchResult = BatchResult(mismatch: Option<Mismatch>, remaining: seq<string>, jobs: Jobs)

  /** Pushing `names` in order until the server refuses one. */
  function PushBatch(jobs: Jobs, names: seq<string>, rendered: map<string, JobConf>, disableFromGui: bool): (r: BatchResult)
    requires forall n :: n in names ==> n in rendered
    ensures |r.remaining| <= |names|
    decreases |names|
  {
    if |names| == 0 then BatchResult(None, [], jobs)
    else
      var conf := FinalConf(jobs, names[0], rendered[names[0]], disableFromGui);
      match PushOne(jobs, names[0], conf)
      case Err(m) => BatchResult(Some(m), names, jobs)
      case Ok(next) => PushBatch(next, names[1..], rendered, disableFromGui)
  }

  /** `_push_jobs`: goes through the jobs, pushing each one and dropping it
      from the front of `remaining_jobs`, and stops at the first type
      mismatch. */
  method PushJobs(server: Server, jobsNames: seq<string>, rendered: map<string, JobConf>, disableFromGui: bool)
    returns (mismatch: Option<Mismatch>, remaining: seq<string>)
    requires forall n :: n in jobsNames ==> n in rendered
    modifies server
    ensures PushBatch(old(server.jobs), jobsNames, rendered, disableFromGui) == BatchResult(mismatch, remaining, server.jobs)
  {
    remaining := jobsNames;
    mismatch := None;
    for i := 0 to |jobsNames|
      invariant remaining == jobsNames[i..]
      invariant PushBatch(old(server.jobs), jobsNames, rendered, disableFromGui)
        == PushBatch(server.jobs, remaining, rendered, disableFromGui)
    {
      var jobName := jobsNames[i];
      var finalConf := rendered[jobName];
      if disableFromGui {
        var serverConf := server.GetJobConfig(jobName);
        if serverConf.Some? {
          finalConf := finalConf.(disabled := serverConf.value.disabled);
        }
      }
      assert finalConf == FinalConf(server.jobs, jobName, rendered[jobName], disableFromGui);
      var res := server.PushJobConfig(jobName, finalConf);
      if res.Some? {
        mismatch := res;
        return;
      }
      remaining := remaining[1..];
    }
  }

  /** After pushing the jobs `pushed` from the state `before`, the job `n`:
      if pushed, it holds the configuration pushed for it; otherwise it is
      as it was; it is on the server if it was or was pushed. */
  predicate JobPushedFrom(before: Jobs, after: Jobs, pushed: seq<string>, rendered: map<string, JobConf>,
                          disableFromGui: bool, n: string)
  {
    && (n in after <==> n in before || n in pushed)
    && (n in before && n !in pushed ==> after[n] == before[n])
    && (n in pushed ==> n in rendered && after[n] == FinalConf(before, n, rendered[n], disableFromGui))
  }

  ghost predicate PushedFrom(before: Jobs, after: Jobs, pushed: seq<string>, rendered: map<string, JobConf>,
                             disableFromGui: bool)
  {
    forall n :: JobPushedFrom(before, after, pushed, rendered, disableFromGui, n)
  }

  /** The jobs after the server accepted the pushes of `pushed`, in order,
      starting from `before`. */
  function Stored(before: Jobs, pushed: seq<string>, rendered: map<string, JobConf>, disableFromGui: bool): Jobs
    requires forall n :: n in pushed ==> n in rendered
    decreases |pushed|
  {
    if |pushed| == 0 then before
    else
      var last := pushed[|pushed| - 1];
      Stored(before, pushed[..|pushed| - 1], rendered, disableFromGui)[last := FinalConf(before, last, rendered[last], disableFromGui)]
  }

  lemma {:induction false} StoredAt(before: Jobs, pushed: seq<string>, rendered: map<string, JobConf>,
                                    disableFromGui: bool, n: string)
    requires forall n :: n in pushed ==> n in rendered
    ensures var s := Stored(before, pushed, rendered, disableFromGui);
      (n in s <==> n in before || n in pushed)
      && (n in before && n !in pushed ==> s[n] == before[n])
      && (n in pushed ==> s[n] == FinalConf(before, n, rendered[n], disableFromGui))
    decreases |pushed|
  {
    if |pushed| > 0 {
      var init := pushed[..|pushed| - 1];
      assert pushed == init + [pushed[|pushed| - 1]];
      StoredAt(before, init, rendered, disableFromGui, n);
    }
  }

  lemma StoredIsPushedFrom(before: Jobs, pushed: seq<string>, rendered: map<string, JobConf>, disableFromGui: bool)
    requires forall n :: n in pushed ==> n in rendered
    ensures PushedFrom(before, Stored(before, pushed, rendered, disableFromGui), pushed, rendered, disableFromGui)
  {
    forall n {
      StoredAt(before, pushed, rendered, disableFromGui, n);
    }
  }

  /** Pushing once more from the stored state pushes what the job would
      have got from the state `before`: the disabled flag it carries on the
      server is the one it had before, or the rendered one. */
  lemma StoredThenPush(before: Jobs, pushed: seq<string>, n: string, rendered: map<string, JobConf>,
                       disableFromGui: bool)
    requires forall n :: n in pushed ==> n in rendered
    requires n in rendered
    ensures var jobs := Stored(before, pushed, rendered, disableFromGui);
      FinalConf(jobs, n, rendered[n], disableFromGui) == FinalConf(before, n, rendered[n], disableFromGui)
      && jobs[n := FinalConf(before, n, rendered[n], disableFromGui)] == Stored(before, pushed + [n], rendered, disableFromGui)
  {
    StoredAt(before, pushed, rendered, disableFromGui, n);
    assert (pushed + [n])[..|pushed|] == pushed;
  }

  lemma ConsPrefix(pushed: seq<string>, names: seq<string>, k: nat)
    requires 1 <= k <= |names|
    ensures pushed + [names[0]] + names[1..][..k - 1] == pushed + names[..k]
  {
    assert names[..k] == [names[0]] + names[1..][..k - 1];
  }

  /** The first step of a batch: a refused job stops it with nothing
      changed, an accepted one stores its configuration and goes on. */
  lemma PushBatchCons(jobs: Jobs, names: seq<string>, rendered: map<string, JobConf>, disableFromGui: bool,
                      conf: JobConf)
    requires |names| > 0 && forall n :: n in names ==> n in rendered
    requires conf == FinalConf(jobs, names[0], rendered[names[0]], disableFromGui)
    ensures names[0] in jobs && jobs[names[0]].jobType != conf.jobType ==>
      PushBatch(jobs, names, rendered, disableFromGui).remaining == names
      && PushBatch(jobs, names, rendered, disableFromGui).jobs == jobs
    ensures !(names[0] in jobs && jobs[names[0]].jobType != conf.jobType) ==>
      PushBatch(jobs, names, rendered, disableFromGui)
      == PushBatch(jobs[names[0] := conf], names[1..], rendered, disableFromGui)
  {
  }

  lemma {:induction false} PushBatchFrom(before: Jobs, pushed: seq<string>, names: seq<string>,
                                         rendered: map<string, JobConf>, disableFromGui: bool)
    requires forall n :: n in names ==> n in rendered
    requires forall n :: n in pushed ==> n in rendered
    ensures var r := PushBatch(Stored(before, pushed, rendered, disableFromGui), names, rendered, disableFromGui);
      r.jobs == Stored(before, pushed + names[..|names| - |r.remaining|], rendered, disableFromGui)
    decreases |names|
  {
    var jobs := Stored(before, pushed, rendered, disableFromGui);
    if |names| == 0 {
      assert pushed + names[..0] == pushed;
    } else {
      var n := names[0];
      StoredThenPush(before, pushed, n, rendered, disableFromGui);
      var conf := FinalConf(jobs, n, rendered[n], disableFromGui);
      PushBatchCons(jobs, names, rendered, disableFromGui, conf);
      if !(n in jobs && jobs[n].jobType != conf.jobType) {
        PushBatchFrom(before, pushed + [n], names[1..], rendered, disableFromGui);
        var r := PushBatch(jobs, names, rendered, disableFromGui);
        var k := |names| - |r.remaining|;
        ConsPrefix(pushed, names, k);
      } else {
        assert pushed + names[..0] == pushed;
      }
    }
  }

  /** `_push_jobs` leaves a suffix of the list unpushed: nothing without a
      mismatch; otherwise the refused job and those after it, with the
      server's job type and the pushed one, which differ. Every job before
      it holds the configuration pushed for it; nothing else changed. */
  lemma {:induction false} PushBatchSpec(jobs: Jobs, names: seq<string>, rendered: map<string, JobConf>,
                                         disableFromGui: bool)
    requires forall n :: n in names ==> n in rendered
    ensures var r := PushBatch(jobs, names, rendered, disableFromGui);
      var k := |names| - |r.remaining|;
      0 <= k <= |names| && r.remaining == names[k..]
      && (r.mismatch.None? <==> r.remaining == [])
      && (r.mismatch.Some? ==>
            var n := r.remaining[0];
            n in r.jobs && r.mismatch.value == Mismatch(n, r.jobs[n].jobType, rendered[n].jobType)
            && r.jobs[n].jobType != rendered[n].jobType)
    decreases |names|
  {
    if |names| > 0 {
      var n := names[0];
      var conf := FinalConf(jobs, n, rendered[n], disableFromGui);
      match PushOne(jobs, n, conf)
      case Err(m) =>
      case Ok(next) =>
        PushBatchSpec(next, names[1..], rendered, disableFromGui);
    }
  }

  /** The pushed jobs of a batch, stated from the state before it. */
  lemma PushBatchPushes(jobs: Jobs, names: seq<string>, rendered: map<string, JobConf>, disableFromGui: bool)
    requires forall n :: n in names ==> n in rendered
    ensures var r := PushBatch(jobs, names, rendered, disableFromGui);
      PushedFrom(jobs, r.jobs, names[..|names| - |r.remaining|], rendered, disableFromGui)
  {
    PushBatchFrom(jobs, [], names, rendered, disableFromGui);
    var r := PushBatch(jobs, names, rendered, disableFromGui);
    assert [] + names[..|names| - |r.remaining|] == names[..|names| - |r.remaining|];
    StoredIsPushedFrom(jobs, names[..|names| - |r.remaining|], rendered, disableFromGui);
  }

  /** With `disable_jobs_from_gui`, a job already on the server keeps the
      server's disabled flag; without it, or for a new job, the pushed
      configuration is the rendered one. */
  lemma DisabledFlagKept(jobs: Jobs, names: seq<string>, rendered: map<string, JobConf>, disableFromGui: bool,
                         n: string)
    requires forall n :: n in names ==> n in rendered
    requires var r := PushBatch(jobs, names, rendered, disableFromGui);
      n in names[..|names| - |r.remaining|]
    ensures var r := PushBatch(jobs, names, rendered, disableFromGui);
      n in r.jobs
      && r.jobs[n] == rendered[n].(disabled := r.jobs[n].disabled)
      && r.jobs[n].disabled == if disableFromGui && n in jobs then jobs[n].disabled else rendered[n].disabled
  {
    PushBatchPushes(jobs, names, rendered, disableFromGui);
    var r := PushBatch(jobs, names, rendered, disableFromGui);
    assert JobPushedFrom(jobs, r.jobs, names[..|names| - |r.remaining|], rendered, disableFromGui, n);
  }

  // ----- push ---------------------------------------------------------------

  /** `_confirm_mismatching_job_type_overwrite`: the user's answer, or yes
      without asking when `confirm_replace` is off. */
  function ConfirmOverwrite(m: Mismatch, confirmReplace: bool, approve: Mismatch -> bool): (r: bool)
    ensures !confirmReplace ==> r
    ensures confirmReplace ==> (r <==> approve(m))
  {
    !confirmReplace || approve(m)
  }

  datatype PushOutcome =
      /** `_check_push_flag` exits: pushes are forbidden and not forced. */
      PushForbidden
      /** `_check_for_gui_modifications` exits, reporting these jobs. */
    | GuiModified(jobNames: seq<string>)
      /** The jobs listed as pushed and as not pushed. */
    | Pushed(pushed: seq<string>, notPushed: seq<string>)

  /** The server while the push goes on, against the server `before` it:
      every job pushed so far holds its rendered configuration, up to the
      disabled flag (exactly, without `disable_jobs_from_gui`); every job
      that was not pushed, and was not just deleted, is as it was; no other
      job appeared. */
  predicate JobPushState(before: Jobs, now: Jobs, done: seq<string>, deleted: Option<string>,
                         rendered: map<string, JobConf>, disableFromGui: bool, n: string)
  {
    && (n in now ==> n in before || n in done)
    && (n in before && n !in done && deleted != Some(n) ==> n in now && now[n] == before[n])
    && (n in done ==> n in rendered && n in now && now[n] == rendered[n].(disabled := now[n].disabled))
    && (n in done && !disableFromGui ==> now[n] == rendered[n])
  }

  ghost predicate PushState(before: Jobs, now: Jobs, done: seq<string>, deleted: Option<string>,
                            rendered: map<string, JobConf>, disableFromGui: bool)
  {
    forall n :: JobPushState(before, now, done, deleted, rendered, disableFromGui, n)
  }

  /** One batch keeps the push state, adding the jobs it pushed; a batch
      started on a job just deleted pushes that job at least. The job it
      stops at, if any, was never pushed. */
  lemma BatchStep(before: Jobs, now: Jobs, names: seq<string>, i: nat, cleared: bool,
                  rendered: map<string, JobConf>, disableFromGui: bool,
                  mismatch: Option<Mismatch>, rest: seq<string>, after: Jobs)
    requires i <= |names|
    requires forall n :: n in names ==> n in rendered
    requires cleared ==> i < |names| && names[i] !in now
    requires PushState(before, now, names[..i], if cleared then Some(names[i]) else None, rendered, disableFromGui)
    requires PushBatch(now, names[i..], rendered, disableFromGui) == BatchResult(mismatch, rest, after)
    ensures i <= |names| - |rest| && rest == names[|names| - |rest|..]
    ensures cleared ==> |names| - |rest| > i
    ensures PushState(before, after, names[..|names| - |rest|], None, rendered, disableFromGui)
    ensures mismatch.None? <==> rest == []
    ensures mismatch.Some? ==>
      rest != [] && rest[0] in after && rest[0] !in names[..|names| - |rest|]
      && mismatch.value == Mismatch(rest[0], after[rest[0]].jobType, rendered[rest[0]].jobType)
      && after[rest[0]].jobType != rendered[rest[0]].jobType
  {
    var remaining := names[i..];
    var k := |remaining| - |rest|;
    PushBatchSpec(now, remaining, rendered, disableFromGui);
    PushBatchPushes(now, remaining, rendered, disableFromGui);
    PrefixGrows(names, i, k);
    assert remaining[k..] == names[i + k..];
    if cleared {
      assert remaining[0] in remaining[..k];
    }
    ComposeStep(before, now, after, names[..i], remaining[..k], if cleared then Some(remaining[0]) else None,
                rendered, disableFromGui);
    if mismatch.Some? {
      RefusedNotPushed(before, after, names[..i + k], rest[0], rendered, disableFromGui);
    }
  }

  /** A batch pushed on top of the push state extends it. */
  lemma ComposeStep(before: Jobs, now: Jobs, after: Jobs, done: seq<string>, batch: seq<string>,
                    deleted: Option<string>, rendered: map<string, JobConf>, disableFromGui: bool)
    requires PushState(before, now, done, deleted, rendered, disableFromGui)
    requires PushedFrom(now, after, batch, rendered, disableFromGui)
    requires deleted.Some? ==> deleted.value in batch
    ensures PushState(before, after, done + batch, None, rendered, disableFromGui)
  {
    forall n
      ensures JobPushState(before, after, done + batch, None, rendered, disableFromGui, n)
    {
      assert JobPushState(before, now, done, deleted, rendered, disableFromGui, n);
      assert JobPushedFrom(now, after, batch, rendered, disableFromGui, n);
    }
  }

  /** A job the server refuses for its type was not pushed. */
  lemma RefusedNotPushed(before: Jobs, jobs: Jobs, done: seq<string>, n: string, rendered: map<string, JobConf>,
                         disableFromGui: bool)
    requires PushState(before, jobs, done, None, rendered, disableFromGui)
    requires n in jobs && n in rendered && jobs[n].jobType != rendered[n].jobType
    ensures n !in done
  {
    assert JobPushState(before, jobs, done, None, rendered, disableFromGui, n);
  }

  /** Deleting a job that was not pushed keeps the push state, with that job
      as the one just deleted. */
  lemma DeleteStep(before: Jobs, now: Jobs, done: seq<string>, n: string, rendered: map<string, JobConf>,
                   disableFromGui: bool)
    requires PushState(before, now, done, None, rendered, disableFromGui) && n !in done
    ensures PushState(before, now - {n}, done, Some(n), rendered, disableFromGui)
  {
    forall m
      ensures JobPushState(before, now - {n}, done, Some(n), rendered, disableFromGui, m)
    {
      assert JobPushState(before, now, done, None, rendered, disableFromGui, m);
    }
  }

  lemma PrefixGrows(names: seq<string>, i: nat, k: nat)
    requires i + k <= |names|
    ensures names[..i + k] == names[..i] + names[i..][..k]
  {
  }

  /** The job `n` heads the jobs not pushed: the server holds it with
      another job type than the rendered one, and its replacement was not
      confirmed. */
  predicate Declined(jobs: Jobs, n: string, rendered: map<string, JobConf>, confirmReplace: bool,
                     approve: Mismatch -> bool)
  {
    n in jobs && n in rendered && jobs[n].jobType != rendered[n].jobType
    && !ConfirmOverwrite(Mismatch(n, jobs[n].jobType, rendered[n].jobType), confirmReplace, approve)
  }

  /** The `while remaining_jobs` loop of `push`: batches of pushes; a batch
      that stops at a job type mismatch is followed, once the replacement is
      confirmed, by the deletion of that job on the server and a new batch
      from it, and a refusal ends the loop. The jobs left are a suffix of
      the list, empty or headed by the refused job; every job before them
      was pushed. */
  method PushAll(server: Server, jobsNames: seq<string>, rendered: map<string, JobConf>, confirmReplace: bool,
                 disableFromGui: bool, approve: Mismatch -> bool)
    returns (remaining: seq<string>)
    requires forall n :: n in jobsNames ==> n in rendered
    modifies server
    ensures |remaining| <= |jobsNames| && remaining == jobsNames[|jobsNames| - |remaining|..]
    ensures PushState(old(server.jobs), server.jobs, jobsNames[..|jobsNames| - |remaining|], None, rendered, disableFromGui)
    ensures remaining != [] ==> Declined(server.jobs, remaining[0], rendered, confirmReplace, approve)
  {
    remaining := jobsNames;
    var stop := false;
    ghost var i: nat := 0;
    ghost var cleared := false;
    while remaining != [] && !stop
      invariant i <= |jobsNames| && remaining == jobsNames[i..]
      invariant cleared ==> i < |jobsNames| && jobsNames[i] !in server.jobs && !stop
      invariant PushState(old(server.jobs), server.jobs, jobsNames[..i], if cleared then Some(jobsNames[i]) else None,
                          rendered, disableFromGui)
      invariant stop ==> i < |jobsNames| && Declined(server.jobs, jobsNames[i], rendered, confirmReplace, approve)
      decreases 2 * |remaining| + (if stop then 0 else 1) - (if cleared then 1 else 0)
    {
      ghost var now := server.jobs;
      var mismatch, rest := PushJobs(server, remaining, rendered, disableFromGui);
      BatchStep(old(server.jobs), now, jobsNames, i, cleared, rendered, disableFromGui, mismatch, rest, server.jobs);
      i := |jobsNames| - |rest|;
      cleared := false;
      remaining := rest;
      if mismatch.Some? {
        var m := mismatch.value;
        if ConfirmOverwrite(m, confirmReplace, approve) {
          DeleteStep(old(server.jobs), server.jobs, jobsNames[..i], m.jobName, rendered, disableFromGui);
          server.DeleteJob(m.jobName);
          cleared := true;
        } else {
          stop := true;
        }
      }
    }
  }

  /** `push`: the permission gate, the GUI check, then the pushes. The jobs
      listed as pushed are the requested names not left unpushed, sorted. */
  method Push(server: Server, jobsNames: seq<string>, rendered: map<string, JobConf>, force: bool,
              forbidPush: bool, allowOverwrite: bool, confirmReplace: bool, disableFromGui: bool,
              approve: Mismatch -> bool, confHash: JobConf -> string)
    returns (outcome: PushOutcome)
    requires forall n :: n in jobsNames ==> n in rendered
    modifies server
    ensures outcome.PushForbidden? <==> !force && forbidPush
    ensures outcome.GuiModified? <==>
      (force || !forbidPush) && !allowOverwrite
      && exists n :: n in jobsNames && ModifiedInGui(old(server.jobs), n, confHash)
    ensures outcome.GuiModified? ==> outcome.jobNames == GuiModifiedJobs(old(server.jobs), jobsNames, confHash)
    ensures !outcome.Pushed? ==> server.jobs == old(server.jobs)
    ensures outcome.Pushed? ==>
      var rest := outcome.notPushed;
      var k := |jobsNames| - |rest|;
      0 <= k <= |jobsNames| && rest == jobsNames[k..]
      && outcome.pushed == SortedSeq(Elements(jobsNames) - Elements(rest))
      && PushState(old(server.jobs), server.jobs, jobsNames[..k], None, rendered, disableFromGui)
      && (rest != [] ==> Declined(server.jobs, rest[0], rendered, confirmReplace, approve))
  {
    if !force && forbidPush {
      return PushForbidden;
    }
    var exit, reported := CheckForGuiModifications(server, jobsNames, allowOverwrite, confHash);
    if exit {
      return GuiModified(reported);
    }
    var remaining := PushAll(server, jobsNames, rendered, confirmReplace, disableFromGui, approve);
    var pushed := SortNames(Elements(jobsNames) - Elements(remaining));
    return Pushed(pushed, remaining);
  }

  /** The pushed and the not pushed lists split the requested names: each
      requested name is in exactly one of them, and the pushed list is
      sorted without repetition. */
  lemma PushedPartition(jobsNames: seq<string>, notPushed: seq<string>)
    ensures var pushed := SortedSeq(Elements(jobsNames) - Elements(notPushed));
      StrictlySorted(pushed)
      && forall n :: n in jobsNames ==> (n in pushed <==> n !in notPushed)
  {
    SortedSeqIsSortedPermutation(Elements(jobsNames) - Elements(notPushed));
  }
}
