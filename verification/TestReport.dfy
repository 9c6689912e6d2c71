/** The collecting loop of run_tests, and what its counters and exit code mean
    over every schedule of the dispatcher. */
module TestReport {
  import opened Options
  import opened TestDispatch
  import opened TestInterrupt

  datatype Status = PASS | FAIL | VALGR | CRASH | SKIP

  function StatusOf(job: Job): Status {
    if job.isSkip then SKIP
    else if job.code == 0 then PASS
    else if job.code == 1 then FAIL
    else if job.code == 2 then VALGR
    else CRASH
  }

  /** The result is counted: its job was really processed, and had this status. */
  predicate Shows(jobs: seq<Job>, r: Result, st: Status) {
    !r.interrupted && r.id < |jobs| && StatusOf(jobs[r.id]) == st
  }

  function CountOf(jobs: seq<Job>, rs: seq<Result>, st: Status): nat {
    if rs == [] then 0
    else CountOf(jobs, rs[..|rs| - 1], st) + if Shows(jobs, rs[|rs| - 1], st) then 1 else 0
  }

  function NamesOf(jobs: seq<Job>, rs: seq<Result>, st: Status): seq<string> {
    if rs == [] then []
    else
      var r := rs[|rs| - 1];
      NamesOf(jobs, rs[..|rs| - 1], st) + if Shows(jobs, r, st) then [jobs[r.id].name] else []
  }

  datatype Summary = Summary(
    passed: nat,
    failed: nat,
    failedNames: seq<string>,
    crashed: nat,
    crashedNames: seq<string>,
    valgrind: nat,
    valgrindNames: seq<string>,
    skipped: nat,
    skippedNames: seq<string>,
    exitCode: int
  )

  /** The counters and name lists that a list of results calls for. */
  predicate Tallied(jobs: seq<Job>, rs: seq<Result>, t: Summary) {
    && t.passed == CountOf(jobs, rs, PASS)
    && t.failed == CountOf(jobs, rs, FAIL) && t.failedNames == NamesOf(jobs, rs, FAIL)
    && t.crashed == CountOf(jobs, rs, CRASH) && t.crashedNames == NamesOf(jobs, rs, CRASH)
    && t.valgrind == CountOf(jobs, rs, VALGR) && t.valgrindNames == NamesOf(jobs, rs, VALGR)
    && t.skipped == CountOf(jobs, rs, SKIP) && t.skippedNames == NamesOf(jobs, rs, SKIP)
  }

  predicate Succeeds(jobs: seq<Job>, r: Result) {
    !r.interrupted && r.id < |jobs| && (jobs[r.id].isSkip || jobs[r.id].code == 0)
  }

  lemma {:induction false} SuccessCount(jobs: seq<Job>, rs: seq<Result>)
    ensures CountOf(jobs, rs, PASS) + CountOf(jobs, rs, SKIP) <= |rs|
    ensures CountOf(jobs, rs, PASS) + CountOf(jobs, rs, SKIP) == |rs| <==>
            forall k :: 0 <= k < |rs| ==> Succeeds(jobs, rs[k])
  {
    if rs != [] {
      SuccessCount(jobs, rs[..|rs| - 1]);
      assert forall k :: 0 <= k < |rs| - 1 ==> rs[..|rs| - 1][k] == rs[k];
    }
  }

  // ----- What the counters and lists are, in the job's own terms -------------------------------

  /** The positions of the results that are counted under a status. */
  ghost function Chosen(jobs: seq<Job>, rs: seq<Result>, st: Status): set<nat> {
    set k: nat | k < |rs| && Shows(jobs, rs[k], st)
  }

  /** The names of the jobs of some results, in the order of the results. */
  ghost predicate Lists(jobs: seq<Job>, rs: seq<Result>, names: seq<string>, chosen: set<nat>) {
    exists ks: seq<nat> :: Picks(jobs, rs, names, chosen, ks)
  }

  ghost predicate Picks(jobs: seq<Job>, rs: seq<Result>, names: seq<string>, chosen: set<nat>, ks: seq<nat>) {
    && |ks| == |names| && (forall i, j :: 0 <= i < j < |ks| ==> ks[i] < ks[j])
    && (forall k :: k in chosen <==> k in ks)
    && forall i :: 0 <= i < |ks| ==> ks[i] < |rs| && rs[ks[i]].id < |jobs| && names[i] == jobs[rs[ks[i]].id].name
  }

  lemma ChosenLast(jobs: seq<Job>, rs: seq<Result>, st: Status)
    requires rs != []
    ensures var n := |rs| - 1;
            Chosen(jobs, rs, st) == Chosen(jobs, rs[..n], st) + if Shows(jobs, rs[n], st) then {n} else {}
  {
  }

  lemma {:induction false} CountIsSize(jobs: seq<Job>, rs: seq<Result>, st: Status)
    ensures CountOf(jobs, rs, st) == |Chosen(jobs, rs, st)|
  {
    if rs != [] {
      CountIsSize(jobs, rs[..|rs| - 1], st);
      ChosenLast(jobs, rs, st);
    }
  }

  lemma OneMorePick(jobs: seq<Job>, rs: seq<Result>, names: seq<string>, chosen: set<nat>, ks: seq<nat>)
    requires rs != [] && Picks(jobs, rs[..|rs| - 1], names, chosen, ks)
    ensures Picks(jobs, rs, names, chosen, ks)
    ensures var n := |rs| - 1;
            rs[n].id < |jobs| ==> Picks(jobs, rs, names + [jobs[rs[n].id].name], chosen + {n}, ks + [n])
  {
    var n := |rs| - 1;
    if rs[n].id < |jobs| {
      forall k
        ensures k in chosen + {n} <==> k in ks + [n]
      {
        assert k in chosen <==> k in ks;
      }
    }
  }

  lemma {:induction false} NamesListed(jobs: seq<Job>, rs: seq<Result>, st: Status) returns (ks: seq<nat>)
    ensures Picks(jobs, rs, NamesOf(jobs, rs, st), Chosen(jobs, rs, st), ks)
  {
    if rs == [] {
      ks := [];
    } else {
      var n := |rs| - 1;
      var names, chosen := NamesOf(jobs, rs[..n], st), Chosen(jobs, rs[..n], st);
      ks := NamesListed(jobs, rs[..n], st);
      OneMorePick(jobs, rs, names, chosen, ks);
      ChosenLast(jobs, rs, st);
      if Shows(jobs, rs[n], st) {
        ks := ks + [n];
      }
    }
  }

  /** The results of jobs that ran and came back with this exit status. */
  ghost function Ended(jobs: seq<Job>, rs: seq<Result>, code: int): set<nat> {
    set k: nat | k < |rs| && !rs[k].interrupted && rs[k].id < |jobs|
                 && !jobs[rs[k].id].isSkip && jobs[rs[k].id].code == code
  }

  /** The results of jobs that came back with any other exit status. */
  ghost function Crashed(jobs: seq<Job>, rs: seq<Result>): set<nat> {
    set k: nat | k < |rs| && !rs[k].interrupted && rs[k].id < |jobs|
                 && !jobs[rs[k].id].isSkip && jobs[rs[k].id].code !in {0, 1, 2}
  }

  ghost function Skipped(jobs: seq<Job>, rs: seq<Result>): set<nat> {
    set k: nat | k < |rs| && !rs[k].interrupted && rs[k].id < |jobs| && jobs[rs[k].id].isSkip
  }

  /** Counters and name lists by what became of each job: passed with 0, failed with 1, valgrind errors
      with 2, and crashed with anything else. */
  ghost predicate Counted(jobs: seq<Job>, rs: seq<Result>, t: Summary) {
    && t.passed == |Ended(jobs, rs, 0)|
    && t.failed == |Ended(jobs, rs, 1)| && Lists(jobs, rs, t.failedNames, Ended(jobs, rs, 1))
    && t.valgrind == |Ended(jobs, rs, 2)| && Lists(jobs, rs, t.valgrindNames, Ended(jobs, rs, 2))
    && t.crashed == |Crashed(jobs, rs)| && Lists(jobs, rs, t.crashedNames, Crashed(jobs, rs))
    && t.skipped == |Skipped(jobs, rs)| && Lists(jobs, rs, t.skippedNames, Skipped(jobs, rs))
  }

  lemma Kinds(jobs: seq<Job>, rs: seq<Result>)
    ensures Chosen(jobs, rs, PASS) == Ended(jobs, rs, 0)
    ensures Chosen(jobs, rs, FAIL) == Ended(jobs, rs, 1)
    ensures Chosen(jobs, rs, VALGR) == Ended(jobs, rs, 2)
    ensures Chosen(jobs, rs, CRASH) == Crashed(jobs, rs)
    ensures Chosen(jobs, rs, SKIP) == Skipped(jobs, rs)
  {
  }

  lemma StatusCounted(jobs: seq<Job>, rs: seq<Result>, st: Status)
    ensures CountOf(jobs, rs, st) == |Chosen(jobs, rs, st)| && Lists(jobs, rs, NamesOf(jobs, rs, st), Chosen(jobs, rs, st))
  {
    CountIsSize(jobs, rs, st);
    var ks := NamesListed(jobs, rs, st);
  }

  lemma TallyIsCount(jobs: seq<Job>, rs: seq<Result>, t: Summary)
    requires Tallied(jobs, rs, t)
    ensures Counted(jobs, rs, t)
  {
    StatusCounted(jobs, rs, PASS);
    StatusCounted(jobs, rs, FAIL);
    StatusCounted(jobs, rs, VALGR);
    StatusCounted(jobs, rs, CRASH);
    StatusCounted(jobs, rs, SKIP);
    Kinds(jobs, rs);
  }

  /** The loop over the results of all jobs, and the exit code: 0 when no result is an interruption and
      every job is to be skipped or came back with status 0. */
  method Summarize(jobs: seq<Job>, results: seq<Result>) returns (t: Summary)
    requires |results| == |jobs| && forall k :: 0 <= k < |results| ==> results[k].id < |jobs|
    ensures Tallied(jobs, results, t) && Counted(jobs, results, t)
    ensures t.exitCode == 0 <==> forall k :: 0 <= k < |results| ==>
              !results[k].interrupted && (jobs[results[k].id].isSkip || jobs[results[k].id].code == 0)
    ensures t.exitCode == 0 || t.exitCode == 1
  {
    t := Summary(0, 0, [], 0, [], 0, [], 0, [], 0);
    for i := 0 to |jobs|
      invariant Tallied(jobs, results[..i], t)
    {
      var r := results[i];
      assert results[..i + 1][..i] == results[..i];
      if r.interrupted {
        continue;
      }
      var job := jobs[r.id];
      if job.isSkip {
        t := t.(skipped := t.skipped + 1, skippedNames := t.skippedNames + [job.name]);
      } else if job.code == 0 {
        t := t.(passed := t.passed + 1);
      } else if job.code == 1 {
        t := t.(failed := t.failed + 1, failedNames := t.failedNames + [job.name]);
      } else if job.code == 2 {
        t := t.(valgrind := t.valgrind + 1, valgrindNames := t.valgrindNames + [job.name]);
      } else {
        t := t.(crashed := t.crashed + 1, crashedNames := t.crashedNames + [job.name]);
      }
    }
    assert results[..|jobs|] == results;
    SuccessCount(jobs, results);
    t := t.(exitCode := if t.passed + t.skipped == |jobs| then 0 else 1);
    TallyIsCount(jobs, results, t);
  }

  // ----- Every schedule ------------------------------------------------------------------

  /** The results in the order in which the jobs were put. */
  function InOrder(n: nat): seq<Result> {
    if n == 0 then [] else InOrder(n - 1) + [Result(n - 1, false)]
  }

  lemma {:induction false} UninterruptedReports(rs: seq<Result>, id: nat)
    requires forall r :: r in rs ==> !r.interrupted
    ensures multiset(rs)[Result(id, false)] == Reports(rs, id)
  {
    if rs != [] {
      var init, last := rs[..|rs| - 1], rs[|rs| - 1];
      UninterruptedReports(init, id);
      assert rs == init + [last];
    }
  }

  lemma {:induction false} InOrderReports(n: nat)
    ensures forall r :: r in InOrder(n) ==> !r.interrupted
    ensures forall id: nat :: Reports(InOrder(n), id) == if id < n then 1 else 0
  {
    if n > 0 {
      InOrderReports(n - 1);
      forall id: nat
        ensures Reports(InOrder(n), id) == if id < n then 1 else 0
      {
        ReportsSnoc(InOrder(n - 1), Result(n - 1, false), id);
      }
    }
  }

  /** Without an interrupt, the collected results are those of all jobs, in some order. */
  lemma ResultsAreAllJobs(cfg: Config, run: seq<Action>, s: State)
    requires Exec(cfg, run) == Some(s) && Final(cfg, s) && !s.threadExit
    ensures multiset(s.collected) == multiset(InOrder(|cfg.jobs|))
  {
    FinalState(cfg, run, s);
    InOrderReports(|cfg.jobs|);
    forall r: Result
      ensures multiset(s.collected)[r] == multiset(InOrder(|cfg.jobs|))[r]
    {
      if r.interrupted {
        assert r !in s.collected && r !in InOrder(|cfg.jobs|);
      } else {
        UninterruptedReports(s.collected, r.id);
        UninterruptedReports(InOrder(|cfg.jobs|), r.id);
        assert r == Result(r.id, false);
      }
    }
  }

  lemma {:induction false} TallyConcat(jobs: seq<Job>, rs: seq<Result>, ts: seq<Result>, st: Status)
    ensures CountOf(jobs, rs + ts, st) == CountOf(jobs, rs, st) + CountOf(jobs, ts, st)
    ensures NamesOf(jobs, rs + ts, st) == NamesOf(jobs, rs, st) + NamesOf(jobs, ts, st)
  {
    if ts == [] {
      assert rs + ts == rs;
    } else {
      var init, last := ts[..|ts| - 1], ts[|ts| - 1];
      TallyConcat(jobs, rs, init, st);
      assert rs + ts == (rs + init) + [last];
      assert (rs + ts)[..|rs + ts| - 1] == rs + init;
    }
  }

  lemma WithoutLast<T>(s: seq<T>, a: seq<T>, b: seq<T>)
    requires s != [] && multiset(s) == multiset(a + [s[|s| - 1]] + b)
    ensures multiset(s[..|s| - 1]) == multiset(a + b)
  {
    var x := s[|s| - 1];
    assert s == s[..|s| - 1] + [x];
    assert multiset(s[..|s| - 1]) == multiset(s) - multiset{x};
    assert multiset(a + b) == multiset(a + [x] + b) - multiset{x};
  }

  lemma LocateLast<T>(s: seq<T>, t: seq<T>) returns (a: seq<T>, b: seq<T>)
    requires s != [] && multiset(s) == multiset(t)
    ensures t == a + [s[|s| - 1]] + b
    ensures multiset(s[..|s| - 1]) == multiset(a + b)
  {
    var x := s[|s| - 1];
    assert x in multiset(t);
    var i :| 0 <= i < |t| && t[i] == x;
    a, b := t[..i], t[i + 1..];
    assert t == a + [x] + b;
    WithoutLast(s, a, b);
  }

  lemma TallyInsert(jobs: seq<Job>, a: seq<Result>, r: Result, b: seq<Result>, st: Status)
    ensures CountOf(jobs, a + [r] + b, st) == CountOf(jobs, a + b, st) + CountOf(jobs, [r], st)
    ensures multiset(NamesOf(jobs, a + [r] + b, st)) == multiset(NamesOf(jobs, a + b, st)) + multiset(NamesOf(jobs, [r], st))
  {
    TallyConcat(jobs, a, b, st);
    TallyConcat(jobs, a, [r], st);
    TallyConcat(jobs, a + [r], b, st);
  }

  /** Counters and name lists do not depend on the order of the results. */
  lemma {:induction false} TallyPermute(jobs: seq<Job>, rs: seq<Result>, ts: seq<Result>, st: Status)
    requires multiset(rs) == multiset(ts)
    ensures CountOf(jobs, rs, st) == CountOf(jobs, ts, st)
    ensures multiset(NamesOf(jobs, rs, st)) == multiset(NamesOf(jobs, ts, st))
    decreases |rs|
  {
    if rs == [] {
      assert |multiset(ts)| == |ts|;
    } else {
      var init, last := rs[..|rs| - 1], rs[|rs| - 1];
      var a, b := LocateLast(rs, ts);
      assert rs == init + [last] + [] && init + [] == init;
      TallyPermute(jobs, init, a + b, st);
      TallyInsert(jobs, a, last, b, st);
      TallyInsert(jobs, init, last, [], st);
    }
  }

  /** The sum of the five counters is the number of results that were not interrupted. */
  lemma {:induction false} CountersSum(jobs: seq<Job>, rs: seq<Result>)
    requires forall r :: r in rs ==> !r.interrupted && r.id < |jobs|
    ensures CountOf(jobs, rs, PASS) + CountOf(jobs, rs, FAIL) + CountOf(jobs, rs, VALGR)
          + CountOf(jobs, rs, CRASH) + CountOf(jobs, rs, SKIP) == |rs|
  {
    if rs != [] {
      CountersSum(jobs, rs[..|rs| - 1]);
      assert rs[|rs| - 1] in rs;
    }
  }

  /** Without an interrupt every schedule reports, for each status, the jobs of that status. */
  lemma ReportIsScheduleIndependent(cfg: Config, run: seq<Action>, s: State, st: Status)
    requires Exec(cfg, run) == Some(s) && Final(cfg, s) && !s.threadExit
    ensures CountOf(cfg.jobs, s.collected, st) == CountOf(cfg.jobs, InOrder(|cfg.jobs|), st)
    ensures multiset(NamesOf(cfg.jobs, s.collected, st)) == multiset(NamesOf(cfg.jobs, InOrder(|cfg.jobs|), st))
  {
    ResultsAreAllJobs(cfg, run, s);
    TallyPermute(cfg.jobs, s.collected, InOrder(|cfg.jobs|), st);
  }

  lemma CountersSumToTotal(cfg: Config, run: seq<Action>, s: State, t: Summary)
    requires Exec(cfg, run) == Some(s) && Final(cfg, s) && !s.threadExit
    requires Tallied(cfg.jobs, s.collected, t)
    ensures t.passed + t.failed + t.valgrind + t.crashed + t.skipped == |cfg.jobs|
  {
    FinalState(cfg, run, s);
    CountersSum(cfg.jobs, s.collected);
  }

  /** Job id was reported, and is to be skipped or came back with status 0. */
  ghost predicate ReportedGood(cfg: Config, s: State, id: nat)
    requires id < |cfg.jobs|
  {
    Result(id, false) in s.collected && (cfg.jobs[id].isSkip || cfg.jobs[id].code == 0)
  }

  /** Every job was reported, and is to be skipped or came back with status 0. */
  ghost predicate AllGood(cfg: Config, s: State) {
    forall id: nat :: id < |cfg.jobs| ==> ReportedGood(cfg, s, id)
  }

  /** In every run, interrupted or not: all collected results succeed, which is what exit
      code 0 says, exactly when every dispatched job was reported, and skipped or passed. */
  lemma ExitCodeMeaning(cfg: Config, run: seq<Action>, s: State)
    requires Exec(cfg, run) == Some(s) && Final(cfg, s)
    ensures (forall k :: 0 <= k < |s.collected| ==> Succeeds(cfg.jobs, s.collected[k])) <==> AllGood(cfg, s)
  {
    FinalState(cfg, run, s);
    if forall k :: 0 <= k < |s.collected| ==> Succeeds(cfg.jobs, s.collected[k]) {
      forall id: nat | id < |cfg.jobs|
        ensures ReportedGood(cfg, s, id)
      {
        var k := ReportExists(s.collected, id);
        assert s.collected[k] == Result(id, false);
      }
    }
    if AllGood(cfg, s) {
      forall k | 0 <= k < |s.collected|
        ensures Succeeds(cfg.jobs, s.collected[k])
      {
        var r := s.collected[k];
        assert r in s.collected;
        assert ReportedGood(cfg, s, r.id);
        OnlyOneReport(s.collected, k, Result(r.id, false));
      }
    }
  }

  /** A job that had not been started when there had been an interrupt is not among the results. */
  lemma InterruptedMissing(cfg: Config, run: seq<Action>, s: State, k: nat, id: nat)
    requires Exec(cfg, run) == Some(s) && Final(cfg, s) && id < |cfg.jobs|
    requires k <= |run| && Interrupt in run[..k]
    ensures Exec(cfg, run[..k]).Some?
    ensures !Started(Exec(cfg, run[..k]).value, id) ==> Result(id, false) !in s.collected
  {
    PrefixRuns(cfg, run, k);
    assert run[..k] + run[k..] == run;
    InterruptedIffNotStarted(cfg, run[..k], run[k..], id);
  }

  /** At some point of the run there had been an interrupt and the job had not been started. */
  ghost predicate CutOff(cfg: Config, run: seq<Action>, id: nat) {
    exists k: nat :: k <= |run| && Interrupt in run[..k]
                     && Exec(cfg, run[..k]).Some? && !Started(Exec(cfg, run[..k]).value, id)
  }

  lemma CutOffFails(cfg: Config, run: seq<Action>, s: State, id: nat)
    requires Exec(cfg, run) == Some(s) && Final(cfg, s) && id < |cfg.jobs| && CutOff(cfg, run, id)
    ensures !AllGood(cfg, s)
  {
    var k: nat :| k <= |run| && Interrupt in run[..k]
                  && Exec(cfg, run[..k]).Some? && !Started(Exec(cfg, run[..k]).value, id);
    InterruptedMissing(cfg, run, s, k, id);
    assert !ReportedGood(cfg, s, id);
  }

  /** The end of run_tests. Whatever the schedule, interrupted or not, the exit code is 0 exactly when
      every job was reported, and is to be skipped or came back with status 0; and it is 1 if a job had
      not been started when there had been an interrupt. */
  method SummarizeRun(cfg: Config, ghost run: seq<Action>, s: State) returns (t: Summary)
    requires Exec(cfg, run) == Some(s) && Final(cfg, s)
    ensures Counted(cfg.jobs, s.collected, t)
    ensures t.exitCode == 0 <==>
            forall id: nat :: id < |cfg.jobs| ==>
              Result(id, false) in s.collected && (cfg.jobs[id].isSkip || cfg.jobs[id].code == 0)
    ensures (exists id: nat :: id < |cfg.jobs| && CutOff(cfg, run, id)) ==> t.exitCode == 1
    ensures t.exitCode == 0 || t.exitCode == 1
  {
    FinalState(cfg, run, s);
    ExitCodeMeaning(cfg, run, s);
    forall k | 0 <= k < |s.collected|
      ensures s.collected[k].id < |cfg.jobs|
    {
      assert s.collected[k] in s.collected;
    }
    t := Summarize(cfg.jobs, s.collected);
    ExitCodeOf(cfg, s, t.exitCode);
    AllGoodMeans(cfg, s);
    if id: nat :| id < |cfg.jobs| && CutOff(cfg, run, id) {
      CutOffFails(cfg, run, s, id);
    }
  }

  lemma AllGoodMeans(cfg: Config, s: State)
    ensures AllGood(cfg, s) <==>
            forall id: nat :: id < |cfg.jobs| ==>
              Result(id, false) in s.collected && (cfg.jobs[id].isSkip || cfg.jobs[id].code == 0)
  {
    if AllGood(cfg, s) {
      forall id: nat | id < |cfg.jobs|
        ensures Result(id, false) in s.collected && (cfg.jobs[id].isSkip || cfg.jobs[id].code == 0)
      {
        assert ReportedGood(cfg, s, id);
      }
    }
  }

  lemma ExitCodeOf(cfg: Config, s: State, code: int)
    requires forall k :: 0 <= k < |s.collected| ==> s.collected[k].id < |cfg.jobs|
    requires (forall k :: 0 <= k < |s.collected| ==> Succeeds(cfg.jobs, s.collected[k])) <==> AllGood(cfg, s)
    requires code == 0 <==> forall k :: 0 <= k < |s.collected| ==>
               !s.collected[k].interrupted && (cfg.jobs[s.collected[k].id].isSkip || cfg.jobs[s.collected[k].id].code == 0)
    ensures code == 0 <==> AllGood(cfg, s)
  {
    if code == 0 {
      assert forall k :: 0 <= k < |s.collected| ==> Succeeds(cfg.jobs, s.collected[k]);
    }
    if AllGood(cfg, s) {
      assert forall k :: 0 <= k < |s.collected| ==> Succeeds(cfg.jobs, s.collected[k]);
    }
  }
}
