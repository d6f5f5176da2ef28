/** The `build` command: triggering builds, waiting for the queued builds to
    start and then to finish, and the report of a finished build and its
    sub-runs. The Jenkins server's answers are oracles indexed by the sweep
    in which they are asked. */
module Build {
  import opened Wrappers
  import Strings

  // ----- trigger_builds -----------------------------------------------------

  /** Triggering the builds of `names` in order: `build_job` (through
      `handle_auth`) answers a queue URL and the Jenkins URL to use from then
      on. */
  function TriggerAll(names: seq<string>, jenkinsUrl: string, buildJob: (string, string) -> (string, string))
    : (r: (map<string, string>, string))
    ensures r.0.Keys == Strings.Elements(names)
  {
    if |names| == 0 then (map[], jenkinsUrl)
    else
      var init := names[..|names| - 1];
      var (queueUrls, url) := TriggerAll(init, jenkinsUrl, buildJob);
      var name := names[|names| - 1];
      var (queueUrl, nextUrl) := buildJob(url, name);
      assert names == init + [name];
      assert Strings.Elements(names) == Strings.Elements(init) + {name};
      (queueUrls[name := queueUrl], nextUrl)
  }

  /** `trigger_builds`: one build per job name, its queue URL recorded under
      the name. */
  method TriggerBuilds(jobsNames: seq<string>, jenkinsUrl: string, buildJob: (string, string) -> (string, string))
    returns (queueUrls: map<string, string>, url: string)
    ensures (queueUrls, url) == TriggerAll(jobsNames, jenkinsUrl, buildJob)
  {
    queueUrls := map[];
    url := jenkinsUrl;
    for i := 0 to |jobsNames|
      invariant (queueUrls, url) == TriggerAll(jobsNames[..i], jenkinsUrl, buildJob)
    {
      assert jobsNames[..i + 1][..i] == jobsNames[..i];
      var name := jobsNames[i];
      var (queueUrl, nextUrl) := buildJob(url, name);
      queueUrls := queueUrls[name := queueUrl];
      url := nextUrl;
    }
    assert jobsNames[..|jobsNames|] == jobsNames;
  }

  /** The outcome of a polling loop: its result once the working set is
      empty, an HTTP error that ended it, or still polling after the
      number of sweeps the model allows. */
  datatype Poll<T> = Done(value: T) | Failed | StillPolling

  // ----- _get_builds_urls ---------------------------------------------------

  /** `get_object` on a queue item: an HTTP error status, or the item, which
      holds the build URL once the build started (`executable.url`). */
  datatype QueueAnswer = QueueHttpError(status: int) | QueueItem(executable: Option<string>)

  /** An HTTP error other than 404, which `_get_builds_urls` re-raises. */
  predicate Fatal(a: QueueAnswer)
  {
    a.QueueHttpError? && a.status != 404
  }

  /** A queue item whose build started. */
  predicate HasStarted(a: QueueAnswer)
  {
    a.QueueItem? && a.executable.Some?
  }

  /** The jobs whose build started in sweep `s`, with their build URLs. */
  function Started(working: map<string, string>, oracle: (nat, string) -> QueueAnswer, s: nat): map<string, string>
  {
    map n | n in working && HasStarted(oracle(s, working[n])) :: oracle(s, working[n]).executable.value
  }

  /** The jobs still queued after sweep `s`. */
  function StillQueued(working: map<string, string>, oracle: (nat, string) -> QueueAnswer, s: nat): map<string, string>
  {
    map n | n in working && oracle(s, working[n]) == QueueItem(None) :: working[n]
  }

  /** The jobs whose queue item is gone (404) in sweep `s`: unknown status. */
  function Gone(working: map<string, string>, oracle: (nat, string) -> QueueAnswer, s: nat): set<string>
  {
    set n | n in working && oracle(s, working[n]) == QueueHttpError(404)
  }

  datatype QueueSweep = QueueSweep(working: map<string, string>, ret: map<string, string>, unknown: set<string>)

  /** One sweep of `_get_builds_urls` over a snapshot of the working set:
      started builds move to the result, gone items are dropped as unknown
      status, other items stay; any other HTTP error ends the sweep. */
  method SweepQueue(working: map<string, string>, ret: map<string, string>, oracle: (nat, string) -> QueueAnswer,
                    s: nat)
    returns (r: Option<QueueSweep>)
    ensures r.None? <==> exists n :: n in working && Fatal(oracle(s, working[n]))
    ensures r.Some? ==> r.value == QueueSweep(StillQueued(working, oracle, s), ret + Started(working, oracle, s),
                                              Gone(working, oracle, s))
  {
    var w := working;
    var rt := ret;
    var unknown: set<string> := {};
    var todo := working.Keys;
    while todo != {}
      invariant todo <= working.Keys
      invariant QueueSwept(working, ret, oracle, s, todo, w, rt, unknown)
      decreases todo
    {
      var name :| name in todo;
      var answer := oracle(s, working[name]);
      if !Fatal(answer) {
        QueueSweepStep(working, ret, oracle, s, todo, w, rt, unknown, name);
      }
      match answer {
        case QueueHttpError(status) =>
          if status == 404 {
            unknown := unknown + {name};
            w := w - {name};
          } else {
            return None;
          }
        case QueueItem(executable) =>
          if executable.Some? {
            rt := rt[name := executable.value];
            w := w - {name};
          }
      }
      todo := todo - {name};
    }
    SweptQueue(working, ret, oracle, s, w, rt, unknown);
    return Some(QueueSweep(w, rt, unknown));
  }

  /** Where a sweep of the queue stands for job `n` while the jobs of `todo`
      are still to be asked about: a job already asked about had no fatal
      answer, stays in `w` only while still queued, is in `rt` with its
      build URL once started and in `unknown` once gone; a job still to be
      asked about stays where it was. */
  predicate QueueKeySwept(working: map<string, string>, ret: map<string, string>, oracle: (nat, string) -> QueueAnswer,
                          s: nat, todo: set<string>, w: map<string, string>, rt: map<string, string>,
                          unknown: set<string>, n: string)
  {
    var swept := n in working && n !in todo;
    && (swept ==> !Fatal(oracle(s, working[n])))
    && (n in w <==> n in working && (n in todo || oracle(s, working[n]) == QueueItem(None)))
    && (n in w ==> w[n] == working[n])
    && (n in rt <==> n in ret || (swept && HasStarted(oracle(s, working[n]))))
    && (n in rt ==>
          rt[n] == (if swept && HasStarted(oracle(s, working[n])) then oracle(s, working[n]).executable.value else ret[n]))
    && (n in unknown <==> swept && oracle(s, working[n]) == QueueHttpError(404))
  }

  ghost predicate QueueSwept(working: map<string, string>, ret: map<string, string>, oracle: (nat, string) -> QueueAnswer,
                             s: nat, todo: set<string>, w: map<string, string>, rt: map<string, string>,
                             unknown: set<string>)
  {
    forall n :: QueueKeySwept(working, ret, oracle, s, todo, w, rt, unknown, n)
  }

  /** Asking about one more job keeps the sweep's bookkeeping. */
  lemma QueueSweepStep(working: map<string, string>, ret: map<string, string>, oracle: (nat, string) -> QueueAnswer,
                       s: nat, todo: set<string>, w: map<string, string>, rt: map<string, string>,
                       unknown: set<string>, name: string)
    requires QueueSwept(working, ret, oracle, s, todo, w, rt, unknown)
    requires name in todo && todo <= working.Keys && !Fatal(oracle(s, working[name]))
    ensures var a := oracle(s, working[name]);
      QueueSwept(working, ret, oracle, s, todo - {name},
                 if a == QueueItem(None) then w else w - {name},
                 if HasStarted(a) then rt[name := a.executable.value] else rt,
                 if a == QueueHttpError(404) then unknown + {name} else unknown)
  {
    var a := oracle(s, working[name]);
    var w' := if a == QueueItem(None) then w else w - {name};
    var rt' := if HasStarted(a) then rt[name := a.executable.value] else rt;
    var unknown' := if a == QueueHttpError(404) then unknown + {name} else unknown;
    forall n
      ensures QueueKeySwept(working, ret, oracle, s, todo - {name}, w', rt', unknown', n)
    {
      assert QueueKeySwept(working, ret, oracle, s, todo, w, rt, unknown, n);
    }
  }

  /** A sweep that asked about every job built the sweep's maps and set,
      and met no fatal answer. */
  lemma SweptQueue(working: map<string, string>, ret: map<string, string>, oracle: (nat, string) -> QueueAnswer, s: nat,
                   w: map<string, string>, rt: map<string, string>, unknown: set<string>)
    requires QueueSwept(working, ret, oracle, s, {}, w, rt, unknown)
    ensures forall n :: n in working ==> !Fatal(oracle(s, working[n]))
    ensures w == StillQueued(working, oracle, s)
    ensures rt == ret + Started(working, oracle, s)
    ensures unknown == Gone(working, oracle, s)
  {
    var started := Started(working, oracle, s);
    forall n
      ensures n in working ==> !Fatal(oracle(s, working[n]))
      ensures n in w <==> n in StillQueued(working, oracle, s)
      ensures n in w ==> w[n] == StillQueued(working, oracle, s)[n]
      ensures n in rt <==> n in ret + started
      ensures n in rt ==> rt[n] == (ret + started)[n]
      ensures n in unknown <==> n in Gone(working, oracle, s)
    {
      assert QueueKeySwept(working, ret, oracle, s, {}, w, rt, unknown, n);
    }
  }

  /** The polling of `_get_builds_urls` from sweep `s` on, with at most
      `fuel` sweeps in all. */
  function BuildsUrlsFrom(working: map<string, string>, ret: map<string, string>, unknown: set<string>,
                          oracle: (nat, string) -> QueueAnswer, s: nat, fuel: nat): (Poll<map<string, string>>, set<string>)
    decreases fuel - s
  {
    if working == map[] then (Done(ret), unknown)
    else if s >= fuel then (StillPolling, unknown)
    else if exists n :: n in working && Fatal(oracle(s, working[n])) then (Failed, unknown)
    else BuildsUrlsFrom(StillQueued(working, oracle, s), ret + Started(working, oracle, s),
                        unknown + Gone(working, oracle, s), oracle, s + 1, fuel)
  }

  /** `_get_builds_urls`: sweeps over a copy of the queue URLs until every
      job has started or is gone; `fuel` bounds the number of sweeps, which
      the source does not bound. The second result lists the jobs reported
      with unknown status. */
  method GetBuildsUrls(queueUrls: map<string, string>, oracle: (nat, string) -> QueueAnswer, fuel: nat)
    returns (r: Poll<map<string, string>>, unknown: set<string>)
    ensures (r, unknown) == BuildsUrlsFrom(queueUrls, map[], {}, oracle, 0, fuel)
  {
    var ret: map<string, string> := map[];
    var working := queueUrls;
    unknown := {};
    var s := 0;
    while working != map[] && s < fuel
      invariant s <= fuel || working == map[]
      invariant BuildsUrlsFrom(working, ret, unknown, oracle, s, fuel) == BuildsUrlsFrom(queueUrls, map[], {}, oracle, 0, fuel)
      decreases fuel - s
    {
      var sweep := SweepQueue(working, ret, oracle, s);
      if sweep.None? {
        return Failed, unknown;
      }
      working, ret, unknown := sweep.value.working, sweep.value.ret, unknown + sweep.value.unknown;
      s := s + 1;
    }
    if working == map[] {
      return Done(ret), unknown;
    }
    return StillPolling, unknown;
  }

  /** What the polling of queue items keeps true: every job is in exactly
      one of the working set, the result and the unknown ones; a job in the
      working set keeps its queue URL; a job in the result got its build URL
      from its queue item in an earlier sweep, and an unknown one had its
      item gone. */
  ghost predicate QueueProgress(queueUrls: map<string, string>, working: map<string, string>, ret: map<string, string>,
                                unknown: set<string>, oracle: (nat, string) -> QueueAnswer, s: nat)
  {
    && (forall n :: n in queueUrls <==> n in working || n in ret || n in unknown)
    && (forall n :: n in working ==> n !in ret && n !in unknown && working[n] == queueUrls[n])
    && (forall n :: n in ret ==> n !in unknown)
    && (forall n :: n in ret ==> exists t :: 0 <= t < s && oracle(t, queueUrls[n]) == QueueItem(Some(ret[n])))
    && (forall n :: n in unknown ==> exists t :: 0 <= t < s && oracle(t, queueUrls[n]) == QueueHttpError(404))
  }

  lemma QueueSweepProgress(queueUrls: map<string, string>, working: map<string, string>, ret: map<string, string>,
                           unknown: set<string>, oracle: (nat, string) -> QueueAnswer, s: nat)
    requires QueueProgress(queueUrls, working, ret, unknown, oracle, s)
    requires forall n :: n in working ==> !Fatal(oracle(s, working[n]))
    ensures QueueProgress(queueUrls, StillQueued(working, oracle, s), ret + Started(working, oracle, s),
                          unknown + Gone(working, oracle, s), oracle, s + 1)
  {
    var started := Started(working, oracle, s);
    forall n | n in ret + started
      ensures exists t :: 0 <= t < s + 1 && oracle(t, queueUrls[n]) == QueueItem(Some((ret + started)[n]))
    {
      if n in started {
        assert oracle(s, queueUrls[n]) == QueueItem(Some(started[n]));
      }
    }
    forall n | n in unknown + Gone(working, oracle, s)
      ensures exists t :: 0 <= t < s + 1 && oracle(t, queueUrls[n]) == QueueHttpError(404)
    {
      if n !in unknown {
        assert oracle(s, queueUrls[n]) == QueueHttpError(404);
      }
    }
  }

  lemma {:induction false} BuildsUrlsFromSpec(queueUrls: map<string, string>, working: map<string, string>,
                                              ret: map<string, string>, unknown: set<string>,
                                              oracle: (nat, string) -> QueueAnswer, s: nat, fuel: nat)
    requires s <= fuel && QueueProgress(queueUrls, working, ret, unknown, oracle, s)
    ensures var (r, u) := BuildsUrlsFrom(working, ret, unknown, oracle, s, fuel);
      (r.Done? ==> QueueProgress(queueUrls, map[], r.value, u, oracle, fuel))
      && (r.Failed? ==> exists t, n :: s <= t < fuel && n in queueUrls && Fatal(oracle(t, queueUrls[n])))
    decreases fuel - s
  {
    if working != map[] && s < fuel {
      if exists n :: n in working && Fatal(oracle(s, working[n])) {
        var n :| n in working && Fatal(oracle(s, working[n]));
        assert Fatal(oracle(s, queueUrls[n]));
      } else {
        QueueSweepProgress(queueUrls, working, ret, unknown, oracle, s);
        BuildsUrlsFromSpec(queueUrls, StillQueued(working, oracle, s), ret + Started(working, oracle, s),
                           unknown + Gone(working, oracle, s), oracle, s + 1, fuel);
      }
    }
  }

  /** When `_get_builds_urls` returns, every job either has its build URL,
      the `executable.url` of its queue item, or was reported with unknown
      status after a 404, and not both; the loop stops with an error only on
      an HTTP error other than 404. */
  lemma GetBuildsUrlsSpec(queueUrls: map<string, string>, oracle: (nat, string) -> QueueAnswer, fuel: nat)
    ensures var (r, unknown) := BuildsUrlsFrom(queueUrls, map[], {}, oracle, 0, fuel);
      (r.Done? ==>
         r.value.Keys !! unknown && r.value.Keys + unknown == queueUrls.Keys
         && (forall n :: n in r.value ==> exists t :: 0 <= t < fuel && oracle(t, queueUrls[n]) == QueueItem(Some(r.value[n])))
         && (forall n :: n in unknown ==> exists t :: 0 <= t < fuel && oracle(t, queueUrls[n]) == QueueHttpError(404)))
      && (r.Failed? ==> exists t, n :: 0 <= t < fuel && n in queueUrls && Fatal(oracle(t, queueUrls[n])))
  {
    BuildsUrlsFromSpec(queueUrls, queueUrls, map[], {}, oracle, 0, fuel);
    var (r, unknown) := BuildsUrlsFrom(queueUrls, map[], {}, oracle, 0, fuel);
    if r.Done? {
      assert QueueProgress(queueUrls, map[], r.value, unknown, oracle, fuel);
      assert r.value.Keys + unknown == queueUrls.Keys;
    }
  }

  // ----- _poll_builds and _get_runs_urls ------------------------------------

  /** A sub-run of a multi-configuration build, as listed in `runs`. */
  datatype RunRef = RunRef(url: string)

  /** `get_object` on a build: its result (`None` while it runs) and its
      sub-runs when it has a `runs` entry. */
  datatype BuildInfo = BuildInfo(result: Option<string>, runs: Option<seq<RunRef>>)

  /** `_get_runs_urls`: the runs' URLs in order, none without `runs`. */
  function GetRunsUrls(info: BuildInfo): (r: seq<string>)
    ensures info.runs.None? ==> r == []
    ensures info.runs.Some? ==> |r| == |info.runs.value| && forall i :: 0 <= i < |r| ==> r[i] == info.runs.value[i].url
  {
    match info.runs
    case None => []
    case Some(runs) => seq(|runs|, i requires 0 <= i < |runs| => runs[i].url)
  }

  /** A finished build: its URL, its result and its sub-runs' URLs. */
  datatype Finished = Finished(buildUrl: string, result: string, runsUrls: seq<string>)

  /** The jobs whose build has a result in sweep `s`. */
  function Completed(working: map<string, string>, oracle: (nat, string) -> BuildInfo, s: nat): map<string, Finished>
  {
    map n | n in working && oracle(s, working[n]).result.Some? :: FinishedFrom(working[n], oracle(s, working[n]))
  }

  /** The jobs whose build is still running after sweep `s`. */
  function Running(working: map<string, string>, oracle: (nat, string) -> BuildInfo, s: nat): map<string, string>
  {
    map n | n in working && oracle(s, working[n]).result.None? :: working[n]
  }

  /** One sweep of `_poll_builds` over a snapshot of the working set: a
      build with a result moves to the result, the others stay. */
  method SweepBuilds(working: map<string, string>, ret: map<string, Finished>, oracle: (nat, string) -> BuildInfo,
                     s: nat)
    returns (nextWorking: map<string, string>, nextRet: map<string, Finished>)
    ensures nextWorking == Running(working, oracle, s)
    ensures nextRet == ret + Completed(working, oracle, s)
  {
    nextWorking := working;
    nextRet := ret;
    var todo := working.Keys;
    while todo != {}
      invariant todo <= working.Keys
      invariant BuildsSwept(working, ret, oracle, s, todo, nextWorking, nextRet)
      decreases todo
    {
      var name :| name in todo;
      BuildsSweepStep(working, ret, oracle, s, todo, nextWorking, nextRet, name);
      var buildUrl := working[name];
      var buildInfos := oracle(s, buildUrl);
      var result := buildInfos.result;
      if result.Some? {
        var runsUrls := GetRunsUrls(buildInfos);
        nextRet := nextRet[name := Finished(buildUrl, result.value, runsUrls)];
        nextWorking := nextWorking - {name};
      }
      todo := todo - {name};
    }
    SweptBuilds(working, ret, oracle, s, nextWorking, nextRet);
  }

  /** The record of a finished build as the sweep makes it. */
  function FinishedFrom(buildUrl: string, info: BuildInfo): Finished
    requires info.result.Some?
  {
    Finished(buildUrl, info.result.value, GetRunsUrls(info))
  }

  /** Where a sweep of the builds stands for job `n` while the jobs of
      `todo` are still to be asked about: a job already asked about stays in
      `w` only while running and is in `rt` with its result once finished;
      a job still to be asked about stays where it was. */
  predicate BuildKeySwept(working: map<string, string>, ret: map<string, Finished>, oracle: (nat, string) -> BuildInfo,
                          s: nat, todo: set<string>, w: map<string, string>, rt: map<string, Finished>, n: string)
  {
    var done := n in working && n !in todo && oracle(s, working[n]).result.Some?;
    && (n in w <==> n in working && (n in todo || oracle(s, working[n]).result.None?))
    && (n in w ==> w[n] == working[n])
    && (n in rt <==> n in ret || done)
    && (n in rt ==> rt[n] == if done then FinishedFrom(working[n], oracle(s, working[n])) else ret[n])
  }

  ghost predicate BuildsSwept(working: map<string, string>, ret: map<string, Finished>, oracle: (nat, string) -> BuildInfo,
                              s: nat, todo: set<string>, w: map<string, string>, rt: map<string, Finished>)
  {
    forall n :: BuildKeySwept(working, ret, oracle, s, todo, w, rt, n)
  }

  /** Asking about one more build keeps the sweep's bookkeeping. */
  lemma BuildsSweepStep(working: map<string, string>, ret: map<string, Finished>, oracle: (nat, string) -> BuildInfo,
                        s: nat, todo: set<string>, w: map<string, string>, rt: map<string, Finished>, name: string)
    requires BuildsSwept(working, ret, oracle, s, todo, w, rt)
    requires name in todo && todo <= working.Keys
    ensures var info := oracle(s, working[name]);
      BuildsSwept(working, ret, oracle, s, todo - {name},
                  if info.result.Some? then w - {name} else w,
                  if info.result.Some? then rt[name := FinishedFrom(working[name], info)] else rt)
  {
    var info := oracle(s, working[name]);
    var w' := if info.result.Some? then w - {name} else w;
    var rt' := if info.result.Some? then rt[name := FinishedFrom(working[name], info)] else rt;
    forall n
      ensures BuildKeySwept(working, ret, oracle, s, todo - {name}, w', rt', n)
    {
      assert BuildKeySwept(working, ret, oracle, s, todo, w, rt, n);
    }
  }

  /** A sweep that asked about every build built the sweep's maps. */
  lemma SweptBuilds(working: map<string, string>, ret: map<string, Finished>, oracle: (nat, string) -> BuildInfo, s: nat,
                    w: map<string, string>, rt: map<string, Finished>)
    requires BuildsSwept(working, ret, oracle, s, {}, w, rt)
    ensures w == Running(working, oracle, s)
    ensures rt == ret + Completed(working, oracle, s)
  {
    var running := Running(working, oracle, s);
    var completed := Completed(working, oracle, s);
    forall n
      ensures n in w <==> n in running
      ensures n in w ==> w[n] == running[n]
      ensures n in rt <==> n in ret + completed
      ensures n in rt ==> rt[n] == (ret + completed)[n]
    {
      assert BuildKeySwept(working, ret, oracle, s, {}, w, rt, n);
    }
  }

  /** The polling of `_poll_builds` from sweep `s` on, with at most `fuel`
      sweeps in all. */
  function PollFrom(working: map<string, string>, ret: map<string, Finished>, oracle: (nat, string) -> BuildInfo,
                    s: nat, fuel: nat): Poll<map<string, Finished>>
    decreases fuel - s
  {
    if working == map[] then Done(ret)
    else if s >= fuel then StillPolling
    else PollFrom(Running(working, oracle, s), ret + Completed(working, oracle, s), oracle, s + 1, fuel)
  }

  /** `_poll_builds`: sweeps over a copy of the build URLs until every build
      has a result; `fuel` bounds the number of sweeps, which the source
      does not bound. */
  method PollBuilds(buildsUrls: map<string, string>, oracle: (nat, string) -> BuildInfo, fuel: nat)
    returns (r: Poll<map<string, Finished>>)
    ensures r == PollFrom(buildsUrls, map[], oracle, 0, fuel)
  {
    var ret: map<string, Finished> := map[];
    var working := buildsUrls;
    var s := 0;
    while working != map[] && s < fuel
      invariant s <= fuel || working == map[]
      invariant PollFrom(working, ret, oracle, s, fuel) == PollFrom(buildsUrls, map[], oracle, 0, fuel)
      decreases fuel - s
    {
      working, ret := SweepBuilds(working, ret, oracle, s);
      s := s + 1;
    }
    if working == map[] {
      return Done(ret);
    }
    return StillPolling;
  }

  /** What the polling of builds keeps true: every job is either still
      running, with its build URL, or finished, with the result and runs its
      build had in an earlier sweep. */
  ghost predicate PollProgress(buildsUrls: map<string, string>, working: map<string, string>, ret: map<string, Finished>,
                               oracle: (nat, string) -> BuildInfo, s: nat)
  {
    && (forall n :: n in buildsUrls <==> n in working || n in ret)
    && (forall n :: n in working ==> n !in ret && working[n] == buildsUrls[n])
    && (forall n :: n in ret ==>
          (ret[n].buildUrl == buildsUrls[n]
           && exists t :: 0 <= t < s && oracle(t, buildsUrls[n]).result == Some(ret[n].result)
                          && ret[n].runsUrls == GetRunsUrls(oracle(t, buildsUrls[n]))))
  }

  lemma {:induction false} PollFromSpec(buildsUrls: map<string, string>, working: map<string, string>,
                                        ret: map<string, Finished>, oracle: (nat, string) -> BuildInfo, s: nat, fuel: nat)
    requires PollProgress(buildsUrls, working, ret, oracle, s)
    ensures var r := PollFrom(working, ret, oracle, s, fuel);
      r.Done? ==> PollProgress(buildsUrls, map[], r.value, oracle, if s < fuel then fuel else s)
    decreases fuel - s
  {
    if working != map[] && s < fuel {
      var done := Completed(working, oracle, s);
      forall n | n in ret + done
        ensures exists t :: 0 <= t < s + 1 && oracle(t, buildsUrls[n]).result == Some((ret + done)[n].result)
                           && (ret + done)[n].runsUrls == GetRunsUrls(oracle(t, buildsUrls[n]))
      {
        if n in done {
          assert oracle(s, buildsUrls[n]).result == Some(done[n].result);
        }
      }
      PollFromSpec(buildsUrls, Running(working, oracle, s), ret + done, oracle, s + 1, fuel);
    }
  }

  /** When `_poll_builds` returns, every job has a result, recorded with its
      build URL and the runs' URLs of the build answer that carried the
      result; a build is never recorded while its result is null. */
  lemma PollBuildsSpec(buildsUrls: map<string, string>, oracle: (nat, string) -> BuildInfo, fuel: nat)
    ensures var r := PollFrom(buildsUrls, map[], oracle, 0, fuel);
      r.Done? ==>
        r.value.Keys == buildsUrls.Keys
        && forall n :: n in r.value ==>
             r.value[n].buildUrl == buildsUrls[n]
             && exists t :: 0 <= t < fuel && oracle(t, buildsUrls[n]).result == Some(r.value[n].result)
                            && r.value[n].runsUrls == GetRunsUrls(oracle(t, buildsUrls[n]))
  {
    PollFromSpec(buildsUrls, buildsUrls, map[], oracle, 0, fuel);
  }

  // ----- print_build_result ---------------------------------------------------

  /** `RESULT_COLORS`: the results a finished build may have. */
  predicate KnownResult(result: string)
  {
    result == "SUCCESS" || result == "UNSTABLE" || result == "FAILURE"
  }

  /** `get_object` on a sub-run: its display name and result. */
  datatype RunInfo = RunInfo(fullDisplayName: string, result: Option<string>)

  /** What the report shows: a build in progress, a build's result, or a
      build's log. */
  datatype Shown =
      InProgress(prefix: string, jobName: string)
    | ResultOf(prefix: string, jobName: string, result: string)
    | LogOf(jobName: string, buildUrl: string)

  /** A result outside `RESULT_COLORS` (a `KeyError`). */
  datatype ReportError = UnknownResult(result: string)

  const SubRunPrefix: string := "    "

  /** `print_build_result`: the result and runs not given are read from the
      build's information; a null result shows the build in progress and
      nothing else; otherwise the result is shown, and unless
      `only_log_failures` is set and the build succeeded, the log when the
      build has no sub-runs, then each sub-run, with its own result and an
      empty run list, under the prefix `'    '`. */
  function PrintBuildResult(jobName: string, buildUrl: string, result: Option<string>, runsUrls: Option<seq<string>>,
                            prefix: string, onlyLogFailures: bool,
                            getBuild: string -> BuildInfo, getRun: string -> RunInfo): (r: Result<seq<Shown>, ReportError>)
    ensures r.Ok? ==> |r.value| > 0 && !r.value[0].LogOf? && r.value[0].prefix == prefix && r.value[0].jobName == jobName
    decreases if runsUrls == Some([]) then 0 else 1, 0
  {
    var result := if result.None? then getBuild(buildUrl).result else result;
    var runs := if runsUrls.None? then GetRunsUrls(getBuild(buildUrl)) else runsUrls.value;
    if result.None? then Ok([InProgress(prefix, jobName)])
    else if !KnownResult(result.value) then Err(UnknownResult(result.value))
    else
      var head := [ResultOf(prefix, jobName, result.value)];
      if onlyLogFailures && result.value == "SUCCESS" then Ok(head)
      else if |runs| == 0 then Ok(head + [LogOf(jobName, buildUrl)])
      else match PrintRuns(runs, onlyLogFailures, getBuild, getRun)
        case Err(e) => Err(e)
        case Ok(shown) => Ok(head + shown)
  }

  /** The sub-runs of a build, reported in order. */
  function PrintRuns(runs: seq<string>, onlyLogFailures: bool, getBuild: string -> BuildInfo,
                     getRun: string -> RunInfo): (r: Result<seq<Shown>, ReportError>)
    ensures r.Ok? ==> |r.value| >= |runs|
    decreases 0, |runs| + 1
  {
    if |runs| == 0 then Ok([])
    else
      var info := getRun(runs[0]);
      match PrintBuildResult(info.fullDisplayName, runs[0], info.result, Some([]), SubRunPrefix, onlyLogFailures,
                             getBuild, getRun)
      case Err(e) => Err(e)
      case Ok(first) =>
        match PrintRuns(runs[1..], onlyLogFailures, getBuild, getRun)
        case Err(e) => Err(e)
        case Ok(rest) => Ok(first + rest)
  }

  /** A sub-run shows only its own progress or result and, unless it
      succeeded with `only_log_failures`, its log: never runs of its own. */
  lemma SubRunIsLeaf(jobName: string, buildUrl: string, result: Option<string>, onlyLogFailures: bool,
                     getBuild: string -> BuildInfo, getRun: string -> RunInfo)
    ensures var r := PrintBuildResult(jobName, buildUrl, result, Some([]), SubRunPrefix, onlyLogFailures, getBuild, getRun);
      var res := if result.None? then getBuild(buildUrl).result else result;
      match r
      case Err(e) => res.Some? && !KnownResult(res.value) && e == UnknownResult(res.value)
      case Ok(shown) =>
        if res.None? then shown == [InProgress(SubRunPrefix, jobName)]
        else if onlyLogFailures && res.value == "SUCCESS" then shown == [ResultOf(SubRunPrefix, jobName, res.value)]
        else shown == [ResultOf(SubRunPrefix, jobName, res.value), LogOf(jobName, buildUrl)]
  {
  }

  /** Every line shown for the sub-runs is at the sub-run prefix, so the
      nesting is one level deep, and each sub-run's lines open with its
      progress or its result, never with a log. */
  lemma {:induction false} RunsAtSubRunPrefix(runs: seq<string>, onlyLogFailures: bool,
                                              getBuild: string -> BuildInfo, getRun: string -> RunInfo)
    ensures var r := PrintRuns(runs, onlyLogFailures, getBuild, getRun);
      r.Ok? ==> (forall i :: 0 <= i < |r.value| ==> r.value[i].LogOf? || r.value[i].prefix == SubRunPrefix)
                && (|runs| > 0 ==> |r.value| > 0 && !r.value[0].LogOf?)
    decreases |runs|
  {
    if |runs| > 0 {
      var info := getRun(runs[0]);
      SubRunIsLeaf(info.fullDisplayName, runs[0], info.result, onlyLogFailures, getBuild, getRun);
      RunsAtSubRunPrefix(runs[1..], onlyLogFailures, getBuild, getRun);
    }
  }

  /** The result a sub-run is reported with: its own, or its build's when
      it has none. */
  function RunResult(run: string, getBuild: string -> BuildInfo, getRun: string -> RunInfo): Option<string>
  {
    var info := getRun(run);
    if info.result.None? then getBuild(run).result else info.result
  }

  /** The report of the sub-runs fails exactly when one of them has a result
      outside `RESULT_COLORS`, and then with the first such result. */
  lemma {:induction false} RunsFailOnUnknownResult(runs: seq<string>, onlyLogFailures: bool,
                                                   getBuild: string -> BuildInfo, getRun: string -> RunInfo)
    ensures var r := PrintRuns(runs, onlyLogFailures, getBuild, getRun);
      (r.Err? <==> exists i :: 0 <= i < |runs| && RunResult(runs[i], getBuild, getRun).Some?
                               && !KnownResult(RunResult(runs[i], getBuild, getRun).value))
      && (r.Err? ==>
            exists i :: 0 <= i < |runs| && RunResult(runs[i], getBuild, getRun) == Some(r.error.result)
                        && (forall j :: 0 <= j < i ==>
                              (RunResult(runs[j], getBuild, getRun).None?
                               || KnownResult(RunResult(runs[j], getBuild, getRun).value))))
    decreases |runs|
  {
    if |runs| > 0 {
      var info := getRun(runs[0]);
      SubRunIsLeaf(info.fullDisplayName, runs[0], info.result, onlyLogFailures, getBuild, getRun);
      RunsFailOnUnknownResult(runs[1..], onlyLogFailures, getBuild, getRun);
      var r := PrintRuns(runs, onlyLogFailures, getBuild, getRun);
      var first := RunResult(runs[0], getBuild, getRun);
      if first.None? || KnownResult(first.value) {
        if r.Err? {
          var i :| 0 <= i < |runs[1..]| && RunResult(runs[1..][i], getBuild, getRun) == Some(r.error.result)
                   && (forall j :: 0 <= j < i ==>
                         (RunResult(runs[1..][j], getBuild, getRun).None?
                          || KnownResult(RunResult(runs[1..][j], getBuild, getRun).value)));
          assert RunResult(runs[i + 1], getBuild, getRun) == Some(r.error.result);
        } else {
          forall i | 1 <= i < |runs|
            ensures RunResult(runs[i], getBuild, getRun).None? || KnownResult(RunResult(runs[i], getBuild, getRun).value)
          {
            assert runs[i] == runs[1..][i - 1];
          }
        }
      }
    }
  }

  /** The top-level decisions: a null result shows only the build in
      progress; a result outside `RESULT_COLORS` is an error; a success with
      `only_log_failures` shows only the result; otherwise the log follows
      the result when the build has no sub-runs, and the sub-runs follow it,
      each at the sub-run prefix, when it has some. */
  lemma PrintBuildResultDecisions(jobName: string, buildUrl: string, result: Option<string>,
                                  runsUrls: Option<seq<string>>, prefix: string, onlyLogFailures: bool,
                                  getBuild: string -> BuildInfo, getRun: string -> RunInfo)
    ensures var r := PrintBuildResult(jobName, buildUrl, result, runsUrls, prefix, onlyLogFailures, getBuild, getRun);
      var res := if result.None? then getBuild(buildUrl).result else result;
      var runs := if runsUrls.None? then GetRunsUrls(getBuild(buildUrl)) else runsUrls.value;
      var shownInFull := res.Some? && KnownResult(res.value) && !(onlyLogFailures && res.value == "SUCCESS");
      && (res.None? ==> r == Ok([InProgress(prefix, jobName)]))
      && (res.Some? && !KnownResult(res.value) ==> r == Err(UnknownResult(res.value)))
      && (res.Some? && onlyLogFailures && res.value == "SUCCESS" ==> r == Ok([ResultOf(prefix, jobName, res.value)]))
      && (shownInFull && |runs| == 0 ==> r == Ok([ResultOf(prefix, jobName, res.value), LogOf(jobName, buildUrl)]))
      && (shownInFull && |runs| > 0 ==>
            (r.Err? <==> exists i :: 0 <= i < |runs| && RunResult(runs[i], getBuild, getRun).Some?
                                     && !KnownResult(RunResult(runs[i], getBuild, getRun).value))
            && (r.Ok? ==> |r.value| >= 2 && r.value[0] == ResultOf(prefix, jobName, res.value) && !r.value[1].LogOf?
                          && forall i :: 1 <= i < |r.value| ==> r.value[i].LogOf? || r.value[i].prefix == SubRunPrefix))
  {
    var res := if result.None? then getBuild(buildUrl).result else result;
    var runs := if runsUrls.None? then GetRunsUrls(getBuild(buildUrl)) else runsUrls.value;
    var shownInFull := res.Some? && KnownResult(res.value) && !(onlyLogFailures && res.value == "SUCCESS");
    if shownInFull && |runs| == 0 {
      assert [ResultOf(prefix, jobName, res.value)] + [LogOf(jobName, buildUrl)]
          == [ResultOf(prefix, jobName, res.value), LogOf(jobName, buildUrl)];
    }
    if shownInFull && |runs| > 0 {
      RunsAtSubRunPrefix(runs, onlyLogFailures, getBuild, getRun);
      RunsFailOnUnknownResult(runs, onlyLogFailures, getBuild, getRun);
    }
  }
}
