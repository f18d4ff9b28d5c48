/** What the user's buttons do to a run: cancel and start. */
module AudiobookUser {
  import opened Common
  import opened AudiobookRun
  import opened AudiobookSystem
  import opened AudiobookSafety
  import opened AudiobookRuns
  import opened AudiobookSegments
  import opened AudiobookProgress

  // ------------------------------------------------------------------
  // Cancel
  // ------------------------------------------------------------------

  /** Every press on a run that has not concluded puts a cancel under way; on any
      other it is refused. */
  lemma CancelPressed(s: System)
    ensures s.run.state == Pending || s.run.state == Running ==>
      Apply(s, PressCancel) == s.(tasks := s.tasks + multiset{Canceling})
    ensures s.run.state == Ready || s.run.state == Failed || s.run.state == Canceled ==> Apply(s, PressCancel) == s
  {
  }

  /** The cancel stops a pending and a running run, and leaves alone one that
      concluded meanwhile. */
  lemma CancelMoves(s: System, o: Outcome)
    requires Canceling in s.tasks
    ensures Acted(s, Canceling, o) == s.(
      run := if s.run.state == Pending || s.run.state == Running then s.run.(state := Canceled) else s.run,
      tasks := s.tasks - multiset{Canceling})
  {
  }

  /** A segment's job turns away exactly from a run that is ready or canceled. */
  lemma JobTurnsAwayWhen(r: Run, seg: nat, gen: nat, o: Outcome)
    ensures After(r, Job(seg, gen), o) ==
      (r, if r.state == Ready || r.state == Canceled then [] else [Begun(seg, gen)])
  {
  }

  /** Nobody starts the run anew and no failure is reported to it. */
  ghost predicate Undisturbed(s: System, steps: seq<Step>)
    requires Valid(s, steps)
    decreases |steps|
  {
    steps == [] ||
    (!steps[0].Start? && !ReportsFailure(s, steps[0]) && Undisturbed(Apply(s, steps[0]), steps[1..]))
  }

  lemma OnlyJobsBegin(r: Run, t: Task, o: Outcome, seg: nat, gen: nat)
    ensures Begun(seg, gen) in After(r, t, o).1 ==> t == Job(seg, gen) && r.state != Canceled
  {
    hide CoverageOf, NextForRun, NextForRecovery, Unfinished, AllDone;
  }

  lemma NoMoreBegin(s: System, step: Step, seg: nat, gen: nat)
    requires Enabled(s, step) && s.run.state == Canceled
    ensures Apply(s, step).tasks[Begun(seg, gen)] <= s.tasks[Begun(seg, gen)]
  {
    hide After;
    if step.Act? {
      OnlyJobsBegin(s.run, step.task, step.outcome, seg, gen);
    }
  }

  lemma {:induction false} StaysCanceled(s: System, steps: seq<Step>, seg: nat, gen: nat)
    requires Inv(s) && s.run.state == Canceled && Valid(s, steps) && Undisturbed(s, steps)
    ensures Final(s, steps).run.state == Canceled
    ensures Final(s, steps).tasks[Begun(seg, gen)] <= s.tasks[Begun(seg, gen)]
    decreases |steps|
  {
    hide Inv, Apply, ReportsFailure;
    if steps != [] {
      StepKeeps(s, steps[0]);
      SealedMovesWhen(s, steps[0]);
      NoMoreBegin(s, steps[0], seg, gen);
      StaysCanceled(Apply(s, steps[0]), steps[1..], seg, gen);
    }
  }

  /** From a cancel on, until a new start or a reported failure, the run stays
      canceled: every segment job that is read turns away, so no call comes to a
      claim but those that were past that point before. */
  lemma CancelHolds(s: System, o: Outcome, steps: seq<Step>, seg: nat, gen: nat)
    requires Inv(s) && Canceling in s.tasks && (s.run.state == Pending || s.run.state == Running)
    requires Valid(Acted(s, Canceling, o), steps) && Undisturbed(Acted(s, Canceling, o), steps)
    ensures var u := Final(Acted(s, Canceling, o), steps);
      && u.run.state == Canceled
      && u.tasks[Begun(seg, gen)] <= s.tasks[Begun(seg, gen)]
      && forall p :: After(u.run, Job(seg, gen), p) == (u.run, [])
  {
    hide Inv, Valid, Final;
    CancelMoves(s, o);
    ActKeeps(s, Canceling, o);
    StaysCanceled(Acted(s, Canceling, o), steps, seg, gen);
    var u := Final(Acted(s, Canceling, o), steps);
    forall p ensures After(u.run, Job(seg, gen), p) == (u.run, []) {
      JobTurnsAwayWhen(u.run, seg, gen, p);
    }
  }

  // ------------------------------------------------------------------
  // Start
  // ------------------------------------------------------------------

  /** A start is refused over a run that has not concluded. Over any other it
      plans the run anew: pending, the next generation, no segment tried; and
      what had happened before stays known. */
  lemma StartPlans(s: System, size: nat)
    ensures s.run.state == Pending || s.run.state == Running ==> Apply(s, Start(size)) == s
    ensures s.run.state == Ready || s.run.state == Failed || s.run.state == Canceled ==>
      var u := Apply(s, Start(size));
      && u.run.state == Pending && u.run.generation == s.run.generation + 1
      && |u.run.segs| == size && All(u.run.segs, SegmentPending)
      && u.plans == s.plans[u.run.generation := size] && u.landed == s.landed && u.gaveUp == s.gaveUp
      && s.tasks <= u.tasks && |u.tasks| == |s.tasks| + 1
  {
  }

  /** A start, and after it only reads and what follows by itself. */
  ghost predicate OneStart(steps: seq<Step>, size: nat) {
    && steps != [] && steps[0] == Start(size)
    && forall i :: 1 <= i < |steps| ==> steps[i].StatusRead? || (steps[i].Act? && !steps[i].task.Canceling?)
  }

  lemma OneStartStays(before: seq<Step>, steps: seq<Step>, size: nat)
    requires OneStart(before, size)
    ensures Continues(before, steps) ==> OneStart(steps, size)
    ensures OneStart(before + [StatusRead], size)
  {
    forall i | 1 <= i < |before| && before <= steps ensures steps[i] == before[i] {
    }
  }

  lemma StartPromotes(s: System, size: nat)
    requires Terminal(s.run.state)
    ensures var u, p := Apply(s, Start(size)), Promoting([Pending], Upto(size), s.run.generation + 1);
      && p in u.tasks
      && Acted(u, p, Succeeds).run == u.run.(state := Running)
      && Dispatching(Upto(size), u.run.generation) in Acted(u, p, Succeeds).tasks
  {
  }

  /** A concluded run that is started anew with a plan can reach its file with no
      other press, every segment of the new plan landed. */
  lemma StartFinishes(s: System, size: nat) returns (steps: seq<Step>, v: System)
    requires Terminal(s.run.state) && size > 0
    ensures Leads(s, steps, v) && OneStart(steps, size)
    ensures v.run == Run(Ready, s.run.generation + 1, v.run.segs) && |v.run.segs| == size && All(v.run.segs, SegmentDone)
  {
    hide Leads, Acted, All, Continues, OneStart;
    var u, p := Apply(s, Start(size)), Promoting([Pending], Upto(size), s.run.generation + 1);
    Standing(s);
    Then(s, [], s, Start(size));
    StartPromotes(s, size);
    Then(s, [] + [Start(size)], u, Act(p, Succeeds));
    steps, v := [Start(size)] + [Act(p, Succeeds)], Acted(u, p, Succeeds);
    assert [] + [Start(size)] + [Act(p, Succeeds)] == steps;
    assert OneStart(steps, size) by { StartedAt(steps, size, p); }
    forall i: nat | i < size ensures i in Upto(size) {
      assert Upto(size)[i] == i;
    }
    var started := steps;
    steps, v := JobsLand(s, steps, v, Upto(size));
    OneStartStays(started, steps, size);
    DoneSettles(v.run.segs);
    var landed := steps;
    steps, v := ReadConcludes(s, steps, v);
    OneStartStays(landed, [], size);
    OneStartStays(landed + [StatusRead], steps, size);
  }

  lemma StartedAt(steps: seq<Step>, size: nat, p: Task)
    requires steps == [Start(size)] + [Act(p, Succeeds)] && !p.Canceling?
    ensures OneStart(steps, size)
  {
  }
}
