/** Segments under duplicate, late and lost jobs, and what still goes wrong. */
module AudiobookSegments {
  import opened Common
  import opened AudiobookRun
  import opened AudiobookSystem
  import opened AudiobookSafety
  import opened AudiobookRuns

  // ------------------------------------------------------------------
  // A plan belongs to its generation
  // ------------------------------------------------------------------

  /** Between two starts only a job of the run's own generation changes the
      segments, and of them only its own. */
  lemma SegmentsChangeBy(s: System, step: Step)
    requires Enabled(s, step)
    ensures var u := Apply(s, step);
      u.run.generation == s.run.generation && u.run.segs != s.run.segs ==>
        && step.Act? && (step.task.Begun? || step.task.Claimed?)
        && Addresses(s.run, step.task.seg, step.task.gen)
        && u.run.segs == s.run.segs[step.task.seg := u.run.segs[step.task.seg]]
  {
    hide CoverageOf, NextForRun, NextForRecovery, Unfinished, AllDone;
  }

  ghost predicate SegmentTask(t: Task) {
    t.Job? || t.Begun? || t.Claimed?
  }

  /** Once a newer run is started, the jobs of an older one change nothing and
      answer nothing, for ever. */
  lemma StaleJobsDoNothing(s: System, steps: seq<Step>, t: Task, o: Outcome)
    requires Inv(s) && Valid(s, steps) && SegmentTask(t) && t.gen < s.run.generation
    ensures var r := Final(s, steps).run;
      After(r, t, o).0 == r && forall x :: x in After(r, t, o).1 ==> x.Begun? && x.gen == t.gen
  {
    hide Inv, Apply, CoverageOf, NextForRun;
    RunKeepsInv(s, steps);
  }

  /** Audio once landed is lost to its run exactly when a second claim on the
      same segment, still in flight, is recorded as anything else. */
  lemma DoneLostWhen(s: System, step: Step, i: nat)
    requires Enabled(s, step) && i < |s.run.segs| && s.run.segs[i] == SegmentDone
    requires Apply(s, step).run.generation == s.run.generation
    ensures i < |Apply(s, step).run.segs|
    ensures Apply(s, step).run.segs[i] != SegmentDone <==>
      step.Act? && step.task == Claimed(i, s.run.generation) && step.outcome != Succeeds
  {
    hide After;
    if step.Act? {
      DoneAfter(s.run, step.task, step.outcome, i);
    }
  }

  lemma DoneAfter(r: Run, t: Task, o: Outcome, i: nat)
    requires i < |r.segs| && r.segs[i] == SegmentDone
    ensures |After(r, t, o).0.segs| == |r.segs| && After(r, t, o).0.generation == r.generation
    ensures After(r, t, o).0.segs[i] != SegmentDone <==> t == Claimed(i, r.generation) && o != Succeeds
  {
    hide CoverageOf, NextForRun, NextForRecovery, Unfinished, AllDone;
  }

  /** The segment landed and nobody else holds a claim on it. */
  ghost predicate Kept(s: System, gen: nat, i: nat) {
    && s.run.generation == gen && i < |s.run.segs| && s.run.segs[i] == SegmentDone
    && Claimed(i, gen) !in s.tasks
  }

  lemma KeptAfter(r: Run, t: Task, o: Outcome, i: nat)
    requires i < |r.segs| && r.segs[i] == SegmentDone && t != Claimed(i, r.generation)
    ensures |After(r, t, o).0.segs| == |r.segs| && After(r, t, o).0.segs[i] == SegmentDone
    ensures After(r, t, o).0.generation == r.generation && Claimed(i, r.generation) !in After(r, t, o).1
  {
    hide CoverageOf, NextForRun, NextForRecovery, Unfinished, AllDone;
  }

  lemma KeptStep(s: System, step: Step, gen: nat, i: nat)
    requires Kept(s, gen, i) && Enabled(s, step)
    ensures Apply(s, step).run.generation > gen || Kept(Apply(s, step), gen, i)
  {
    hide After;
    if step.Act? {
      KeptAfter(s.run, step.task, step.outcome, i);
    }
  }

  /** Then it stays landed and is never claimed again until a new run starts:
      no job can buy it twice. */
  lemma {:induction false} BoughtOnce(s: System, steps: seq<Step>, gen: nat, i: nat)
    requires Inv(s) && Valid(s, steps) && Kept(s, gen, i)
    ensures Final(s, steps).run.generation > gen || Kept(Final(s, steps), gen, i)
    decreases |steps|
  {
    hide Inv, Apply, Kept;
    if steps != [] {
      StepKeeps(s, steps[0]);
      KeptStep(s, steps[0], gen, i);
      if Kept(Apply(s, steps[0]), gen, i) {
        BoughtOnce(Apply(s, steps[0]), steps[1..], gen, i);
      } else {
        RunKeepsInv(Apply(s, steps[0]), steps[1..]);
      }
    }
  }

  // ------------------------------------------------------------------
  // Counterexamples
  // ------------------------------------------------------------------

  /** The steps lead from `s` to `u`. */
  ghost predicate Leads(s: System, steps: seq<Step>, u: System) {
    Valid(s, steps) && Final(s, steps) == u
  }

  lemma {:induction false} Then(s: System, steps: seq<Step>, u: System, step: Step)
    requires Leads(s, steps, u) && Enabled(u, step)
    ensures Leads(s, steps + [step], Apply(u, step))
    decreases |steps|
  {
    hide Enabled, Apply;
    var all := steps + [step];
    var next := Apply(u, step);
    if steps == [] {
      assert all[0] == step && all[1..] == [];
      assert Valid(next, []) && Final(next, []) == next;
    } else {
      Then(Apply(s, steps[0]), steps[1..], u, step);
      assert all[0] == steps[0] && all[1..] == steps[1..] + [step];
    }
  }

  /** Somebody acts, and the system after it is `v`. */
  lemma ThenAct(s: System, steps: seq<Step>, u: System, t: Task, o: Outcome, v: System)
    requires Leads(s, steps, u) && t in u.tasks && Acted(u, t, o) == v
    ensures Leads(s, steps + [Act(t, o)], v)
  {
    hide Acted, Leads;
    Then(s, steps, u, Act(t, o));
  }

  /** A first run of one segment. */
  function One(state: RunState, seg: SegmentState, tasks: multiset<Task>): System {
    System(Run(state, 1, [seg]), tasks, map[1 := 1],
           if seg == SegmentDone then {(1, 0)} else {}, if seg == SegmentFailed then {(1, 0)} else {})
  }

  const Rest: Task := Dispatching([], 1)

  lemma OneBegins()
    ensures Leads(Init(1), [], One(Pending, SegmentPending, multiset{Promoting([Pending], [0], 1)}))
  {
    assert Upto(1) == [0] && Plan(1) == [SegmentPending];
  }

  lemma OnePromotes()
    ensures Acted(One(Pending, SegmentPending, multiset{Promoting([Pending], [0], 1)}), Promoting([Pending], [0], 1), Succeeds)
      == One(Running, SegmentPending, multiset{Dispatching([0], 1)})
  {
    hide CoverageOf, NextForRun, NextForRecovery, Unfinished, AllDone;
  }

  lemma OneDispatches()
    ensures Acted(One(Running, SegmentPending, multiset{Dispatching([0], 1)}), Dispatching([0], 1), Succeeds)
      == One(Running, SegmentPending, multiset{Rest} + multiset{Job(0, 1)})
  {
    hide CoverageOf, NextForRun, NextForRecovery, Unfinished, AllDone;
    assert [0][1..] == [];
  }

  lemma JobBegins(seg: SegmentState)
    ensures After(Run(Running, 1, [seg]), Job(0, 1), Succeeds) == (Run(Running, 1, [seg]), [Begun(0, 1)])
    ensures seg != SegmentDone ==>
      After(Run(Running, 1, [seg]), Begun(0, 1), Succeeds) == (Run(Running, 1, [SegmentRunning]), [Claimed(0, 1)])
  {
    hide CoverageOf, NextForRun, NextForRecovery, Unfinished, AllDone;
    assert [seg][0 := SegmentRunning] == [SegmentRunning];
  }

  lemma OneClaims(x: multiset<Task>)
    ensures Acted(One(Running, SegmentPending, x + multiset{Begun(0, 1)}), Begun(0, 1), Succeeds)
      == One(Running, SegmentRunning, x + multiset{Claimed(0, 1)})
  {
    hide After;
    JobBegins(SegmentPending);
    assert x + multiset{Begun(0, 1)} - multiset{Begun(0, 1)} == x;
    assert multiset([Claimed(0, 1)]) == multiset{Claimed(0, 1)};
  }

  lemma RecordedAfter(o: Outcome)
    requires o != WillRetry
    ensures After(Run(Running, 1, [SegmentRunning]), Claimed(0, 1), o)
      == (Run(Running, 1, [Recorded(o)]), [VerdictOf(Recorded(o))])
  {
    hide CoverageOf, NextForRun;
    assert [SegmentRunning][0 := Recorded(o)] == [Recorded(o)];
    VerdictWhen(Running, [Recorded(o)]);
    assert [Recorded(o)][0] == Recorded(o);
  }

  lemma OneRecords(x: multiset<Task>, o: Outcome)
    requires o != WillRetry
    ensures Acted(One(Running, SegmentRunning, x + multiset{Claimed(0, 1)}), Claimed(0, 1), o)
      == One(Running, Recorded(o), x + multiset{VerdictOf(Recorded(o))})
  {
    hide After;
    RecordedAfter(o);
    assert x + multiset{Claimed(0, 1)} - multiset{Claimed(0, 1)} == x;
    assert multiset([VerdictOf(Recorded(o))]) == multiset{VerdictOf(Recorded(o))};
  }

  /** The steps of that run up to its only segment's job. */
  lemma Dispatched() returns (steps: seq<Step>)
    ensures Leads(Init(1), steps, One(Running, SegmentPending, multiset{Rest} + multiset{Job(0, 1)}))
  {
    hide Leads, One, Acted;
    OneTasks();
    OneBegins();
    OnePromotes();
    ThenAct(Init(1), [], One(Pending, SegmentPending, multiset{Promoting([Pending], [0], 1)}),
            Promoting([Pending], [0], 1), Succeeds, One(Running, SegmentPending, multiset{Dispatching([0], 1)}));
    OneDispatches();
    steps := [] + [Act(Promoting([Pending], [0], 1), Succeeds)];
    ThenAct(Init(1), steps, One(Running, SegmentPending, multiset{Dispatching([0], 1)}),
            Dispatching([0], 1), Succeeds, One(Running, SegmentPending, multiset{Rest} + multiset{Job(0, 1)}));
    steps := steps + [Act(Dispatching([0], 1), Succeeds)];
  }

  /** A job in flight begins, whoever else is under way. */
  lemma Begins(steps: seq<Step>, x: multiset<Task>)
    requires Leads(Init(1), steps, One(Running, SegmentPending, x + multiset{Job(0, 1)}))
    ensures Leads(Init(1), steps + [Act(Job(0, 1), Succeeds)], One(Running, SegmentPending, x + multiset{Begun(0, 1)}))
  {
    hide Leads, One, Acted, After;
    OneTasks();
    JobBegins(SegmentPending);
    OneBecomes(SegmentPending, x, Job(0, 1), Succeeds, Begun(0, 1));
    ThenAct(Init(1), steps, One(Running, SegmentPending, x + multiset{Job(0, 1)}),
            Job(0, 1), Succeeds, One(Running, SegmentPending, x + multiset{Begun(0, 1)}));
  }

  lemma Claims(steps: seq<Step>, x: multiset<Task>)
    requires Leads(Init(1), steps, One(Running, SegmentPending, x + multiset{Begun(0, 1)}))
    ensures Leads(Init(1), steps + [Act(Begun(0, 1), Succeeds)], One(Running, SegmentRunning, x + multiset{Claimed(0, 1)}))
  {
    hide Leads, One, Acted;
    OneTasks();
    OneClaims(x);
    ThenAct(Init(1), steps, One(Running, SegmentPending, x + multiset{Begun(0, 1)}),
            Begun(0, 1), Succeeds, One(Running, SegmentRunning, x + multiset{Claimed(0, 1)}));
  }

  lemma Records(steps: seq<Step>, x: multiset<Task>, o: Outcome)
    requires o != WillRetry
    requires Leads(Init(1), steps, One(Running, SegmentRunning, x + multiset{Claimed(0, 1)}))
    ensures Leads(Init(1), steps + [Act(Claimed(0, 1), o)], One(Running, Recorded(o), x + multiset{VerdictOf(Recorded(o))}))
  {
    hide Leads, One, Acted;
    OneTasks();
    OneRecords(x, o);
    ThenAct(Init(1), steps, One(Running, SegmentRunning, x + multiset{Claimed(0, 1)}), Claimed(0, 1), o,
            One(Running, Recorded(o), x + multiset{VerdictOf(Recorded(o))}));
  }

  /** The steps of that run up to its only segment's verdict. */
  lemma Opening(o: Outcome) returns (steps: seq<Step>)
    requires o != WillRetry
    ensures Leads(Init(1), steps, One(Running, Recorded(o), multiset{Rest} + multiset{VerdictOf(Recorded(o))}))
  {
    hide Leads, One;
    steps := Dispatched();
    Begins(steps, multiset{Rest});
    steps := steps + [Act(Job(0, 1), Succeeds)];
    Claims(steps, multiset{Rest});
    steps := steps + [Act(Begun(0, 1), Succeeds)];
    Records(steps, multiset{Rest}, o);
    steps := steps + [Act(Claimed(0, 1), o)];
  }

  lemma OneTasks()
    ensures forall state, seg, tasks :: One(state, seg, tasks).tasks == tasks
  {
  }

  function VerdictOf(seg: SegmentState): Task {
    Verdict(if seg == SegmentDone then Finalize else Fail, 1)
  }

  lemma OneBecomes(seg: SegmentState, x: multiset<Task>, t: Task, o: Outcome, becomes: Task)
    requires After(Run(Running, 1, [seg]), t, o) == (Run(Running, 1, [seg]), [becomes]) && !t.Claimed?
    ensures t in One(Running, seg, x + multiset{t}).tasks
    ensures Acted(One(Running, seg, x + multiset{t}), t, o) == One(Running, seg, x + multiset{becomes})
  {
    hide After;
    assert x + multiset{t} - multiset{t} == x;
    assert multiset([becomes]) == multiset{becomes};
  }

  lemma FinalizeSteps()
    ensures After(Run(Running, 1, [SegmentDone]), Verdict(Finalize, 1), Succeeds) == (Run(Running, 1, [SegmentDone]), [FinalizeJob])
    ensures After(Run(Running, 1, [SegmentDone]), FinalizeJob, Succeeds) == (Run(Running, 1, [SegmentDone]), [FinalizeBegun])
    ensures After(Run(Running, 1, [SegmentDone]), FinalizeBegun, Succeeds) == (Run(Running, 1, [SegmentDone]), [Assembling(1)])
  {
  }

  /** From a finalize verdict to an assembly. */
  lemma Assembles(steps: seq<Step>, x: multiset<Task>) returns (more: seq<Step>)
    requires Leads(Init(1), steps, One(Running, SegmentDone, x + multiset{Verdict(Finalize, 1)}))
    ensures Leads(Init(1), more, One(Running, SegmentDone, x + multiset{Assembling(1)}))
  {
    hide Leads, One, Acted, After;
    FinalizeSteps();
    OneBecomes(SegmentDone, x, Verdict(Finalize, 1), Succeeds, FinalizeJob);
    OneBecomes(SegmentDone, x, FinalizeJob, Succeeds, FinalizeBegun);
    OneBecomes(SegmentDone, x, FinalizeBegun, Succeeds, Assembling(1));
    ThenAct(Init(1), steps, One(Running, SegmentDone, x + multiset{Verdict(Finalize, 1)}), Verdict(Finalize, 1), Succeeds,
            One(Running, SegmentDone, x + multiset{FinalizeJob}));
    more := steps + [Act(Verdict(Finalize, 1), Succeeds)];
    ThenAct(Init(1), more, One(Running, SegmentDone, x + multiset{FinalizeJob}), FinalizeJob, Succeeds,
            One(Running, SegmentDone, x + multiset{FinalizeBegun}));
    more := more + [Act(FinalizeJob, Succeeds)];
    ThenAct(Init(1), more, One(Running, SegmentDone, x + multiset{FinalizeBegun}), FinalizeBegun, Succeeds,
            One(Running, SegmentDone, x + multiset{Assembling(1)}));
    more := more + [Act(FinalizeBegun, Succeeds)];
  }

  /** A status read finds the same verdict again. */
  lemma Rereads(steps: seq<Step>, seg: SegmentState, x: multiset<Task>) returns (more: seq<Step>)
    requires seg == SegmentDone || seg == SegmentFailed
    requires Leads(Init(1), steps, One(Running, seg, x))
    ensures Leads(Init(1), more, One(Running, seg, x + multiset{VerdictOf(seg)}))
  {
    hide Leads, Acted, After, CoverageOf, NextForRun;
    Then(Init(1), steps, One(Running, seg, x), StatusRead);
    assert Apply(One(Running, seg, x), StatusRead) == One(Running, seg, x + multiset{Seen(Running)});
    SeenBecomes(seg);
    OneBecomes(seg, x, Seen(Running), Succeeds, VerdictOf(seg));
    ThenAct(Init(1), steps + [StatusRead], One(Running, seg, x + multiset{Seen(Running)}), Seen(Running), Succeeds,
            One(Running, seg, x + multiset{VerdictOf(seg)}));
    more := steps + [StatusRead] + [Act(Seen(Running), Succeeds)];
  }

  lemma SeenBecomes(seg: SegmentState)
    requires seg == SegmentDone || seg == SegmentFailed
    ensures After(Run(Running, 1, [seg]), Seen(Running), Succeeds) == (Run(Running, 1, [seg]), [VerdictOf(seg)])
  {
    hide CoverageOf, NextForRun;
    VerdictWhen(Running, [seg]);
    assert [seg][0] == seg;
  }

  lemma MoreSteps(steps: seq<Step>, s: System, a: Step, b: Step)
    requires Leads(Init(1), steps, s) && Enabled(s, a) && Enabled(Apply(s, a), b)
    ensures Leads(Init(1), steps + [a] + [b], Apply(Apply(s, a), b))
  {
    hide Leads, Apply, Enabled;
    Then(Init(1), steps, s, a);
    Then(Init(1), steps + [a], Apply(s, a), b);
  }

  lemma CancelDuring(s: System)
    requires s.run.state == Running && Assembling(1) in s.tasks
    ensures Enabled(s, PressCancel) && Enabled(Apply(s, PressCancel), Act(Canceling, Succeeds))
    ensures var u := Apply(Apply(s, PressCancel), Act(Canceling, Succeeds));
      u.run.state == Canceled && Assembling(1) in u.tasks
  {
  }

  lemma FailsCanceled(s: System)
    requires s.run.state == Canceled && Assembling(1) in s.tasks
    ensures Apply(s, Act(Assembling(1), Fails)).run.state == Failed
  {
  }

  /** The user cancels while the file is being assembled, which sweeps the
      staged segments; the assembly fails on them and its report undoes the
      cancel. */
  lemma CancelIsUndone() returns (steps: seq<Step>, s: System)
    ensures Leads(Init(1), steps, s) && s.run.state == Canceled
    ensures Enabled(s, Act(Assembling(1), Fails)) && Apply(s, Act(Assembling(1), Fails)).run.state == Failed
  {
    hide Leads, Apply;
    steps := Opening(Succeeds);
    steps := Assembles(steps, multiset{Rest});
    s := One(Running, SegmentDone, multiset{Rest} + multiset{Assembling(1)});
    CancelDuring(s);
    MoreSteps(steps, s, PressCancel, Act(Canceling, Succeeds));
    steps := steps + [PressCancel] + [Act(Canceling, Succeeds)];
    s := Apply(Apply(s, PressCancel), Act(Canceling, Succeeds));
    FailsCanceled(s);
  }

  lemma FailsAndRestarts(s: System, t: Task)
    requires s.run.state == Running && s.run.generation == 1 && s.tasks[t] >= 2
    requires t == Verdict(Fail, 1) || t == Assembling(1)
    ensures Enabled(s, Act(t, Fails)) && Enabled(Apply(s, Act(t, Fails)), Start(1))
    ensures var u := Apply(Apply(s, Act(t, Fails)), Start(1));
      u.run == Run(Pending, 2, [SegmentPending]) && t in u.tasks
  {
    hide After;
    FailsAfter(s.run, t);
    assert Plan(1) == [SegmentPending];
  }

  lemma FailsAfter(r: Run, t: Task)
    requires r.state == Running && (t == Verdict(Fail, 1) || t == Assembling(1))
    ensures After(r, t, Fails) == (r.(state := Failed), [])
  {
  }

  lemma StaleMoves(s: System, t: Task)
    requires s.run.state == Pending && t in s.tasks
    ensures t == Verdict(Fail, 1) ==> Apply(s, Act(t, Succeeds)).run == s.run.(state := Failed)
    ensures t == Assembling(1) ==> Apply(s, Act(t, Succeeds)).run == s.run.(state := Ready)
  {
    hide CoverageOf, NextForRun, NextForRecovery, Unfinished, AllDone;
  }

  /** A failure, a new start, and the same report once more. */
  lemma StaleTask(before: seq<Step>, u: System, t: Task) returns (steps: seq<Step>, s: System)
    requires Leads(Init(1), before, u)
    requires u.run.state == Running && u.run.generation == 1 && u.tasks[t] >= 2
    requires t == Verdict(Fail, 1) || t == Assembling(1)
    ensures Leads(Init(1), steps, s)
    ensures s.run == Run(if t.Assembling? then Ready else Failed, 2, [SegmentPending])
  {
    hide Leads, Apply;
    FailsAndRestarts(u, t);
    MoreSteps(before, u, Act(t, Fails), Start(1));
    var v := Apply(Apply(u, Act(t, Fails)), Start(1));
    StaleMoves(v, t);
    Then(Init(1), before + [Act(t, Fails)] + [Start(1)], v, Act(t, Succeeds));
    steps := before + [Act(t, Fails)] + [Start(1)] + [Act(t, Succeeds)];
    s := Apply(v, Act(t, Succeeds));
  }

  /** Two actors find the same failure; the run is started anew between their
      reports, and the second one fails the new run before any of its segments
      was tried. */
  lemma StaleVerdictFailsNewRun() returns (steps: seq<Step>, s: System)
    ensures Leads(Init(1), steps, s)
    ensures s.run == Run(Failed, 2, [SegmentPending])
  {
    hide Leads;
    steps := Opening(Fails);
    var x := multiset{Rest} + multiset{Verdict(Fail, 1)};
    steps := Rereads(steps, SegmentFailed, x);
    steps, s := StaleTask(steps, One(Running, SegmentFailed, x + multiset{Verdict(Fail, 1)}), Verdict(Fail, 1));
  }

  /** Two assemblies of one run: the first fails it, the run is started anew,
      and the second makes the new run ready with the old run's file. */
  lemma StaleFileMakesReady() returns (steps: seq<Step>, s: System)
    ensures Leads(Init(1), steps, s)
    ensures s.run == Run(Ready, 2, [SegmentPending])
  {
    hide Leads;
    steps := Opening(Succeeds);
    steps := Assembles(steps, multiset{Rest});
    var x := multiset{Rest} + multiset{Assembling(1)};
    steps := Rereads(steps, SegmentDone, x);
    steps := Assembles(steps, x);
    steps, s := StaleTask(steps, One(Running, SegmentDone, x + multiset{Assembling(1)}), Assembling(1));
  }

  /** The queue delivers a segment's job twice and both deliveries claim it: the
      first records the audio and the second, failing, loses it. */
  lemma LandedIsLost() returns (steps: seq<Step>, s: System)
    ensures Leads(Init(1), steps, s) && s.run == Run(Running, 1, [SegmentDone])
    ensures Enabled(s, Act(Claimed(0, 1), Fails))
    ensures Apply(s, Act(Claimed(0, 1), Fails)).run == Run(Running, 1, [SegmentFailed])
  {
    hide Leads, Apply;
    var c := multiset{Claimed(0, 1)};
    steps := Dispatched();
    steps := Redelivered(steps, multiset{Rest});
    Begins(steps, multiset{Rest} + multiset{Job(0, 1)});
    steps := steps + [Act(Job(0, 1), Succeeds)];
    assert multiset{Rest} + multiset{Job(0, 1)} + multiset{Begun(0, 1)} == multiset{Rest} + multiset{Begun(0, 1)} + multiset{Job(0, 1)};
    Begins(steps, multiset{Rest} + multiset{Begun(0, 1)});
    steps := steps + [Act(Job(0, 1), Succeeds)];
    Claims(steps, multiset{Rest} + multiset{Begun(0, 1)});
    steps := steps + [Act(Begun(0, 1), Succeeds)];
    assert multiset{Rest} + multiset{Begun(0, 1)} + c == multiset{Rest} + c + multiset{Begun(0, 1)};
    ClaimsAgain(steps, multiset{Rest} + c);
    steps := steps + [Act(Begun(0, 1), Succeeds)];
    Records(steps, multiset{Rest} + c, Succeeds);
    steps := steps + [Act(Claimed(0, 1), Succeeds)];
    s := One(Running, SegmentDone, multiset{Rest} + c + multiset{Verdict(Finalize, 1)});
    Loses(s);
  }

  lemma Redelivered(steps: seq<Step>, x: multiset<Task>) returns (more: seq<Step>)
    requires Leads(Init(1), steps, One(Running, SegmentPending, x + multiset{Job(0, 1)}))
    ensures Leads(Init(1), more, One(Running, SegmentPending, x + multiset{Job(0, 1)} + multiset{Job(0, 1)}))
  {
    hide Leads;
    var u := One(Running, SegmentPending, x + multiset{Job(0, 1)});
    Then(Init(1), steps, u, Redeliver(0, 1));
    more := steps + [Redeliver(0, 1)];
    assert Apply(u, Redeliver(0, 1)) == One(Running, SegmentPending, x + multiset{Job(0, 1)} + multiset{Job(0, 1)});
  }

  lemma ClaimsAgain(steps: seq<Step>, x: multiset<Task>)
    requires Leads(Init(1), steps, One(Running, SegmentRunning, x + multiset{Begun(0, 1)}))
    ensures Leads(Init(1), steps + [Act(Begun(0, 1), Succeeds)], One(Running, SegmentRunning, x + multiset{Claimed(0, 1)}))
  {
    hide Leads, One, Acted, After;
    OneTasks();
    JobBegins(SegmentRunning);
    OneBecomes(SegmentRunning, x, Begun(0, 1), Succeeds, Claimed(0, 1));
    ThenAct(Init(1), steps, One(Running, SegmentRunning, x + multiset{Begun(0, 1)}),
            Begun(0, 1), Succeeds, One(Running, SegmentRunning, x + multiset{Claimed(0, 1)}));
  }

  lemma Loses(s: System)
    requires s.run == Run(Running, 1, [SegmentDone]) && Claimed(0, 1) in s.tasks
    ensures Apply(s, Act(Claimed(0, 1), Fails)).run == Run(Running, 1, [SegmentFailed])
  {
    hide CoverageOf, NextForRun;
    assert [SegmentDone][0 := SegmentFailed] == [SegmentFailed];
  }
}
