/** What an interrupt does to a run of the dispatcher, and which jobs are really run. */
module TestInterrupt {
  import opened Options
  import opened TestDispatch

  // ----- Longer schedules ----------------------------------------------------------------------

  lemma {:induction false} PrefixRuns(cfg: Config, run: seq<Action>, k: nat)
    requires k <= |run| && Exec(cfg, run).Some?
    ensures Exec(cfg, run[..k]).Some?
    decreases |run|
  {
    if k == |run| {
      assert run[..k] == run;
    } else {
      PrefixRuns(cfg, run[..|run| - 1], k);
      assert run[..|run| - 1][..k] == run[..k];
    }
  }

  /** The last step of a schedule. */
  lemma LastStep(cfg: Config, run: seq<Action>) returns (s: State, a: Action)
    requires run != [] && Exec(cfg, run).Some?
    ensures Exec(cfg, run[..|run| - 1]) == Some(s) && Enabled(cfg, s, a) && Exec(cfg, run) == Some(Apply(cfg, s, a))
    ensures a == run[|run| - 1]
  {
    s, a := Exec(cfg, run[..|run| - 1]).value, run[|run| - 1];
  }

  lemma MoreLast(cfg: Config, run: seq<Action>, more: seq<Action>) returns (s: State, a: Action)
    requires more != [] && Exec(cfg, run + more).Some?
    ensures Exec(cfg, run + more[..|more| - 1]) == Some(s) && Enabled(cfg, s, a)
    ensures Exec(cfg, run + more) == Some(Apply(cfg, s, a))
  {
    assert (run + more)[..|run + more| - 1] == run + more[..|more| - 1];
    s, a := LastStep(cfg, run + more);
  }

  // ----- Nothing starts after an interrupt ---------------------------------------------------

  lemma InterruptedStep(cfg: Config, s: State, a: Action)
    requires Enabled(cfg, s, a) && s.threadExit
    ensures var t := Apply(cfg, s, a);
            && t.threadExit && |t.workers| == |s.workers|
            && forall w, id :: 0 <= w < |t.workers| && t.workers[w] == Running(id) ==> s.workers[w] == Running(id)
  {
  }

  lemma {:induction false} ExitStays(cfg: Config, run: seq<Action>)
    requires Exec(cfg, run).Some?
    ensures Exec(cfg, run).value.threadExit <==> Interrupt in run
    ensures |Exec(cfg, run).value.workers| == cfg.processors
  {
    if run != [] {
      var s, a := LastStep(cfg, run);
      ExitStays(cfg, run[..|run| - 1]);
      assert run == run[..|run| - 1] + [a];
    }
  }

  /** Once there has been an interrupt no worker starts a job: what is running then was running before. */
  lemma {:induction false} NoneStarts(cfg: Config, run: seq<Action>, more: seq<Action>, w: nat, id: nat)
    requires Exec(cfg, run).Some? && Exec(cfg, run + more).Some? && Interrupt in run
    requires w < cfg.processors
    ensures w < |Exec(cfg, run).value.workers| && w < |Exec(cfg, run + more).value.workers|
    ensures Exec(cfg, run + more).value.workers[w] == Running(id) ==> Exec(cfg, run).value.workers[w] == Running(id)
    decreases more
  {
    ExitStays(cfg, run);
    ExitStays(cfg, run + more);
    if more == [] {
      assert run + more == run;
    } else {
      var before := more[..|more| - 1];
      var s, a := MoreLast(cfg, run, more);
      ExitStays(cfg, run + before);
      NoneStarts(cfg, run, before, w, id);
      InterruptedStep(cfg, s, a);
    }
  }

  // ----- Which jobs are run -----------------------------------------------------------------------

  /** Some worker is running the job. */
  ghost predicate BeingRun(s: State, id: nat) {
    exists w :: 0 <= w < |s.workers| && s.workers[w] == Running(id)
  }

  /** The job is running or was reported, and not as interrupted. */
  ghost predicate Started(s: State, id: nat) {
    BeingRun(s, id) || Result(id, false) in s.output || Result(id, false) in s.collected
  }

  lemma BeingRunAfter(s: State, w: nat, x: Worker, id: nat)
    requires w < |s.workers|
    ensures BeingRun(s.(workers := s.workers[w := x]), id) <==>
            x == Running(id) || exists v :: 0 <= v < |s.workers| && v != w && s.workers[v] == Running(id)
  {
    var t := s.(workers := s.workers[w := x]);
    if x == Running(id) {
      assert t.workers[w] == Running(id);
    }
    if v :| 0 <= v < |s.workers| && v != w && s.workers[v] == Running(id) {
      assert t.workers[v] == Running(id);
    }
  }

  lemma QueueStep(s: State, a: Action, cfg: Config, id: nat)
    requires Enabled(cfg, s, a) && (a.PutJob? || a.PutBreak? || a.Collect? || a.Join? || a.Interrupt?)
    ensures Started(Apply(cfg, s, a), id) <==> Started(s, id)
  {
    assert Apply(cfg, s, a).workers == s.workers;
    if a.Collect? {
      assert s.output == [s.output[0]] + s.output[1..];
    }
  }

  /** What a worker does to one job. */
  lemma WorkerStep(s: State, a: Action, cfg: Config, id: nat)
    requires Enabled(cfg, s, a) && (a.Take? || a.Decide? || a.Finish?)
    ensures Started(s, id) ==> Started(Apply(cfg, s, a), id)
    ensures Started(Apply(cfg, s, a), id) ==>
              Started(s, id) || (!s.threadExit && a.Decide? && s.workers[a.w] == Holding(id))
    ensures BeingRun(Apply(cfg, s, a), id) ==> BeingRun(s, id) || (!s.threadExit && id < |cfg.jobs| && !cfg.jobs[id].isSkip)
  {
    var t := Apply(cfg, s, a);
    BeingRunAfter(s, a.w, t.workers[a.w], id);
    BeingRunAfter(s, a.w, s.workers[a.w], id);
    assert s.(workers := s.workers[a.w := s.workers[a.w]]) == s;
    assert BeingRun(t, id) <==> BeingRun(s.(workers := t.workers), id);
  }

  /** No worker ever runs a job that is to be skipped. */
  lemma {:induction false} SkippedNeverRun(cfg: Config, run: seq<Action>, s: State, id: nat)
    requires Exec(cfg, run) == Some(s) && BeingRun(s, id)
    ensures id < |cfg.jobs| && !cfg.jobs[id].isSkip
  {
    if run != [] {
      var before, a := LastStep(cfg, run);
      if a.Take? || a.Decide? || a.Finish? {
        WorkerStep(before, a, cfg, id);
      } else {
        assert s.workers == before.workers;
      }
      if BeingRun(before, id) {
        SkippedNeverRun(cfg, run[..|run| - 1], before, id);
      }
    }
  }

  /** At some point of the run a worker was running the job. */
  ghost predicate WasRun(cfg: Config, run: seq<Action>, id: nat) {
    exists k: nat :: k <= |run| && Exec(cfg, run[..k]).Some? && BeingRun(Exec(cfg, run[..k]).value, id)
  }

  lemma StillWasRun(cfg: Config, run: seq<Action>, id: nat)
    requires run != [] && WasRun(cfg, run[..|run| - 1], id)
    ensures WasRun(cfg, run, id)
  {
    var init := run[..|run| - 1];
    var k: nat :| k <= |init| && Exec(cfg, init[..k]).Some? && BeingRun(Exec(cfg, init[..k]).value, id);
    assert init[..k] == run[..k];
  }

  /** A result that is not an interruption is that of a job that was run, or that is to be skipped. */
  lemma {:induction false} ResultsWereRun(cfg: Config, run: seq<Action>, s: State, id: nat)
    requires Exec(cfg, run) == Some(s) && Started(s, id)
    ensures id < |cfg.jobs| && (cfg.jobs[id].isSkip || WasRun(cfg, run, id))
  {
    if BeingRun(s, id) {
      SkippedNeverRun(cfg, run, s, id);
      assert run[..|run|] == run;
    } else if run != [] {
      var before, a := LastStep(cfg, run);
      if Started(before, id) {
        ResultsWereRun(cfg, run[..|run| - 1], before, id);
        if !cfg.jobs[id].isSkip {
          StillWasRun(cfg, run, id);
        }
      } else if a.Take? || a.Decide? || a.Finish? {
        WorkerStep(before, a, cfg, id);
      } else {
        QueueStep(before, a, cfg, id);
      }
    }
  }

  // ----- What is collected in the end -------------------------------------------------------------

  lemma {:induction false} StartedStays(cfg: Config, run: seq<Action>, more: seq<Action>, id: nat)
    requires Exec(cfg, run).Some? && Exec(cfg, run + more).Some?
    ensures Started(Exec(cfg, run).value, id) ==> Started(Exec(cfg, run + more).value, id)
    ensures Interrupt in run ==> (Started(Exec(cfg, run).value, id) <==> Started(Exec(cfg, run + more).value, id))
    decreases more
  {
    if more == [] {
      assert run + more == run;
    } else {
      var before := more[..|more| - 1];
      var s, a := MoreLast(cfg, run, more);
      StartedStays(cfg, run, before, id);
      ExitStays(cfg, run + before);
      if a.Take? || a.Decide? || a.Finish? {
        WorkerStep(s, a, cfg, id);
      } else {
        QueueStep(s, a, cfg, id);
      }
    }
  }

  /** In the end each job has been collected once: as started, or as interrupted. */
  lemma CollectedOnce(cfg: Config, run: seq<Action>, s: State, id: nat)
    requires Exec(cfg, run) == Some(s) && Final(cfg, s) && id < |cfg.jobs|
    ensures Result(id, false) in s.collected <==> Started(s, id)
    ensures Result(id, true) in s.collected <==> !Started(s, id)
  {
    FinalState(cfg, run, s);
    var k := ReportExists(s.collected, id);
    var r := s.collected[k];
    assert r in s.collected && (r == Result(id, true) || r == Result(id, false));
    if Result(id, true) in s.collected {
      OnlyOneReport(s.collected, k, Result(id, true));
    }
    if Result(id, false) in s.collected {
      OnlyOneReport(s.collected, k, Result(id, false));
    }
  }

  /** After an interrupt exactly the jobs that had not been started by then come back as interrupted,
      and exactly the others as done. */
  lemma InterruptedIffNotStarted(cfg: Config, run: seq<Action>, more: seq<Action>, id: nat)
    requires Exec(cfg, run).Some? && Exec(cfg, run + more).Some? && Interrupt in run
    requires Final(cfg, Exec(cfg, run + more).value) && id < |cfg.jobs|
    ensures var s, t := Exec(cfg, run).value, Exec(cfg, run + more).value;
            && (Result(id, true) in t.collected <==> !Started(s, id))
            && (Result(id, false) in t.collected <==> Started(s, id))
  {
    StartedStays(cfg, run, more, id);
    CollectedOnce(cfg, run + more, Exec(cfg, run + more).value, id);
  }

  /** Without an interrupt every job is done, and every one that is not to be skipped was run. */
  lemma UninterruptedAllRun(cfg: Config, run: seq<Action>, s: State, id: nat)
    requires Exec(cfg, run) == Some(s) && Final(cfg, s) && Interrupt !in run && id < |cfg.jobs|
    ensures Result(id, false) in s.collected && (cfg.jobs[id].isSkip || WasRun(cfg, run, id))
  {
    ExitStays(cfg, run);
    FinalState(cfg, run, s);
    CollectedOnce(cfg, run, s, id);
    assert Result(id, true) in s.collected ==> Reported(cfg, s, Result(id, true));
    ResultsWereRun(cfg, run, s, id);
  }

  /** Results are collected in the order in which the workers hand them in. */
  lemma {:induction false} HandedInOrder(cfg: Config, run: seq<Action>, more: seq<Action>)
    requires Exec(cfg, run).Some? && Exec(cfg, run + more).Some?
    ensures var s, t := Exec(cfg, run).value, Exec(cfg, run + more).value;
            s.collected + s.output <= t.collected + t.output
    decreases more
  {
    if more == [] {
      assert run + more == run;
    } else {
      var before := more[..|more| - 1];
      var s, a := MoreLast(cfg, run, more);
      HandedInOrder(cfg, run, before);
      HandedStep(cfg, s, a);
    }
  }

  lemma HandedStep(cfg: Config, s: State, a: Action)
    requires Enabled(cfg, s, a)
    ensures s.collected + s.output <= Apply(cfg, s, a).collected + Apply(cfg, s, a).output
  {
    if a.Collect? {
      assert s.output == [s.output[0]] + s.output[1..];
    }
  }
}
