/** Whole runs of the protocol: what concludes a run, what undoes a conclusion,
    and what a conclusion says about the plan it concludes. */
module AudiobookRuns {
  import opened Common
  import opened AudiobookRun
  import opened AudiobookSystem
  import opened AudiobookSafety

  // ------------------------------------------------------------------
  // Conclusions
  // ------------------------------------------------------------------

  /** What only a user's press does to a run: plan it anew, stop it, resume it. */
  ghost predicate UserMove(step: Step) {
    step.Start? || (step.Act? && (step.task.Canceling? || step.task.Promoting?))
  }

  /** The step reports a failure of the run. */
  ghost predicate ReportsFailure(s: System, step: Step) {
    step.Act? && FailureAfter(s.run, step.task, step.outcome)
  }

  ghost predicate FailureAfter(r: Run, t: Task, o: Outcome) {
    match t
    case Verdict(next, _) => next == Fail
    case FinalizeBegun => r.segs == [] && o != WillRetry
    case Assembling(_) => o == Fails
    case Dispatching(left, _) => left != [] && o != Succeeds
    case _ => false
  }

  ghost function Rank(s: RunState): nat {
    match s
    case Pending => 0
    case Running => 0
    case Ready => 1
    case Canceled => 1
    case Failed => 2
  }

  lemma SealedAfter(r: Run, t: Task, o: Outcome)
    requires Sealed(r.state) && (t.Promoting? ==> t.from <= [Pending, Failed])
    ensures After(r, t, o).0.state == r.state || After(r, t, o).0.state == Failed
    ensures After(r, t, o).0.state == Failed <==> FailureAfter(r, t, o)
  {
    hide CoverageOf, NextForRun, NextForRecovery, Unfinished, AllDone;
  }

  /** A sealed run moves exactly when it is started anew or a failure is
      reported, however late. */
  lemma SealedMovesWhen(s: System, step: Step)
    requires Inv(s) && Enabled(s, step) && Sealed(s.run.state)
    ensures Apply(s, step).run.state != s.run.state <==> step.Start? || ReportsFailure(s, step)
  {
    hide After, FailureAfter, Planned, RowsTell;
    if step.Act? {
      assert Earned(s, step.task);
      SealedAfter(s.run, step.task, step.outcome);
    }
  }

  /** A run that has not failed fails exactly when a failure is reported, by a
      verdict, by a finalize with nothing to join or that broke, or by a refused
      dispatch, in whatever state it is. */
  lemma FailsWhen(s: System, step: Step)
    requires Enabled(s, step) && s.run.state != Failed
    ensures Apply(s, step).run.state == Failed <==> ReportsFailure(s, step)
  {
    hide After, FailureAfter;
    if step.Act? {
      FailedAfterWhen(s.run, step.task, step.outcome);
    }
  }

  lemma FailedAfterWhen(r: Run, t: Task, o: Outcome)
    requires r.state != Failed
    ensures After(r, t, o).0.state == Failed <==> FailureAfter(r, t, o)
  {
    hide CoverageOf, NextForRun, NextForRecovery, Unfinished, AllDone;
  }

  lemma AutomaticAfter(r: Run, t: Task, o: Outcome)
    requires !t.Canceling? && !t.Promoting?
    ensures After(r, t, o).0.state != r.state ==> Rank(r.state) < Rank(After(r, t, o).0.state)
    ensures var u := After(r, t, o).0;
      u.state == r.state || u.state == Failed || (u.state == Ready && r.state in LiveStates && t.Assembling? && o == Succeeds)
  {
    hide CoverageOf, NextForRun, NextForRecovery, Unfinished, AllDone;
  }

  /** Without a user's move a run only gets further: live, then sealed, then
      failed. */
  lemma AutomaticMove(s: System, step: Step)
    requires Enabled(s, step) && !UserMove(step)
    ensures Apply(s, step).run.state != s.run.state ==> Rank(s.run.state) < Rank(Apply(s, step).run.state)
    ensures Apply(s, step).run.state != s.run.state ==>
      if Apply(s, step).run.state == Failed then ReportsFailure(s, step)
      else Apply(s, step).run.state == Ready && s.run.state in LiveStates
           && step.Act? && step.task.Assembling? && step.outcome == Succeeds
    ensures Sealed(s.run.state) && ReportsFailure(s, step) ==> Apply(s, step).run.state == Failed
  {
    hide After, FailureAfter;
    if step.Act? {
      AutomaticAfter(s.run, step.task, step.outcome);
      if s.run.state != Failed {
        FailedAfterWhen(s.run, step.task, step.outcome);
      }
    }
  }

  ghost predicate Automatic(steps: seq<Step>) {
    forall i :: 0 <= i < |steps| ==> !UserMove(steps[i])
  }

  /** How often the run's state changes. */
  ghost function Moves(s: System, steps: seq<Step>): nat
    requires Valid(s, steps)
    decreases |steps|
  {
    if steps == [] then 0
    else (if Apply(s, steps[0]).run.state != s.run.state then 1 else 0) + Moves(Apply(s, steps[0]), steps[1..])
  }

  /** No failure is reported on a run that is already sealed. */
  ghost predicate Timely(s: System, steps: seq<Step>)
    requires Valid(s, steps)
    decreases |steps|
  {
    steps == [] ||
    (!(Sealed(s.run.state) && ReportsFailure(s, steps[0])) && Timely(Apply(s, steps[0]), steps[1..]))
  }

  /** Between two user moves a run concludes at most twice, and the second time
      only into failure; a failed run stays failed. It concludes at most once,
      and not again when it has, exactly when no failure comes late. */
  lemma {:induction false} ConclusionsBounded(s: System, steps: seq<Step>)
    requires Valid(s, steps) && Automatic(steps)
    ensures Rank(s.run.state) + Moves(s, steps) <= Rank(Final(s, steps).run.state)
    ensures Timely(s, steps) <==> Moves(s, steps) <= (if Terminal(s.run.state) then 0 else 1)
    decreases |steps|
  {
    hide Apply, UserMove, ReportsFailure;
    if steps != [] {
      assert !UserMove(steps[0]);
      AutomaticMove(s, steps[0]);
      ConclusionsBounded(Apply(s, steps[0]), steps[1..]);
    }
  }

  /** An assembly in flight read a plan that landed in full, and a failing
      verdict in flight a plan with a segment that gave up: this run's plan or
      that of a run before it. */
  lemma ConclusionEarned(s: System, step: Step)
    requires Inv(s) && Enabled(s, step) && step.Act?
    ensures step.task.Assembling? ==> AllLanded(s, step.task.gen) && step.task.gen <= s.run.generation
    ensures step.task == Verdict(Fail, s.run.generation) ==> SomeGaveUp(s, s.run.generation)
  {
    assert Earned(s, step.task);
  }

  // ------------------------------------------------------------------
  // What a ready and what a failed run say about their plan
  // ------------------------------------------------------------------

  /** An assembly of another generation's plan reports its file to a live run. */
  ghost predicate StaleFile(s: System, step: Step) {
    && step.Act? && step.task.Assembling? && step.outcome == Succeeds
    && step.task.gen != s.run.generation && s.run.state in LiveStates
  }

  ghost predicate NoStaleFile(s: System, steps: seq<Step>)
    requires Valid(s, steps)
    decreases |steps|
  {
    steps == [] || (!StaleFile(s, steps[0]) && NoStaleFile(Apply(s, steps[0]), steps[1..]))
  }

  ghost predicate Landed(s: System) {
    s.run.state == Ready ==> AllLanded(s, s.run.generation)
  }

  ghost predicate AlwaysLanded(s: System, steps: seq<Step>)
    requires Valid(s, steps)
    decreases |steps|
  {
    Landed(s) && (steps == [] || AlwaysLanded(Apply(s, steps[0]), steps[1..]))
  }

  /** No such file comes before the run's own plan has landed. */
  ghost predicate NoEarlyFile(s: System, steps: seq<Step>)
    requires Valid(s, steps)
    decreases |steps|
  {
    steps == [] ||
    (!(StaleFile(s, steps[0]) && !AllLanded(s, s.run.generation)) && NoEarlyFile(Apply(s, steps[0]), steps[1..]))
  }

  lemma ReadyAfter(r: Run, t: Task, o: Outcome)
    requires t.Promoting? ==> t.from <= [Pending, Failed]
    ensures After(r, t, o).0.state == Ready <==>
      (r.state == Ready && !FailureAfter(r, t, o)) || (r.state in LiveStates && t.Assembling? && o == Succeeds)
    ensures After(r, t, o).0.generation == r.generation
  {
    hide CoverageOf, NextForRun, NextForRecovery, Unfinished, AllDone;
  }

  lemma AllLandedStays(s: System, u: System, gen: nat)
    requires Extends(s, u) && AllLanded(s, gen)
    ensures AllLanded(u, gen)
  {
  }

  lemma LandedStep(s: System, step: Step)
    requires Inv(s) && Enabled(s, step) && Landed(s)
    ensures Landed(Apply(s, step)) <==> !(StaleFile(s, step) && !AllLanded(s, s.run.generation))
  {
    hide After, Planned, RowsTell, Extends, AllLanded, FailureAfter;
    StepKeeps(s, step);
    var u := Apply(s, step);
    if AllLanded(s, s.run.generation) {
      AllLandedStays(s, u, s.run.generation);
    }
    if step.Act? {
      assert Earned(s, step.task);
      ReadyAfter(s.run, step.task, step.outcome);
      if step.task.Assembling? {
        SameBooks(s, step.task, step.outcome);
      }
    }
  }

  lemma SameBooks(s: System, t: Task, o: Outcome)
    requires t in s.tasks && !t.Claimed?
    ensures var u := Acted(s, t, o); u.landed == s.landed && u.gaveUp == s.gaveUp && u.plans == s.plans
    ensures AllLanded(Acted(s, t, o), s.run.generation) <==> AllLanded(s, s.run.generation)
    ensures SomeGaveUp(Acted(s, t, o), s.run.generation) <==> SomeGaveUp(s, s.run.generation)
  {
    hide After;
  }

  /** In every run, however often started anew: at every moment a ready run is
      one whose every segment landed, exactly when no file of another plan is
      reported to it before its own plan has landed. */
  lemma {:induction false} ReadyIsEarnedWhen(s: System, steps: seq<Step>)
    requires Inv(s) && Landed(s) && Valid(s, steps)
    ensures AlwaysLanded(s, steps) <==> NoEarlyFile(s, steps)
    decreases |steps|
  {
    hide Inv, Apply, Landed, StaleFile, AllLanded;
    if steps != [] {
      var u := Apply(s, steps[0]);
      StepKeeps(s, steps[0]);
      LandedStep(s, steps[0]);
      if Landed(u) {
        ReadyIsEarnedWhen(u, steps[1..]);
      } else {
        assert !AlwaysLanded(u, steps[1..]);
      }
    }
  }

  lemma {:induction false} LandedAtTheEnd(s: System, steps: seq<Step>)
    requires Valid(s, steps)
    ensures AlwaysLanded(s, steps) ==> Landed(Final(s, steps))
    ensures NoStaleFile(s, steps) ==> NoEarlyFile(s, steps)
    decreases |steps|
  {
    hide Apply, Landed, StaleFile, AllLanded;
    if steps != [] {
      LandedAtTheEnd(Apply(s, steps[0]), steps[1..]);
    }
  }

  /** A ready run is one whose every segment landed, as long as no assembly of
      another generation succeeds while the run is live. */
  lemma ReadyMeansLanded(size: nat, steps: seq<Step>)
    requires Valid(Init(size), steps) && NoStaleFile(Init(size), steps)
    ensures var s := Final(Init(size), steps); s.run.state == Ready ==> AllLanded(s, s.run.generation)
  {
    InitInv(size);
    ReadyIsEarnedWhen(Init(size), steps);
    LandedAtTheEnd(Init(size), steps);
  }

  // ------------------------------------------------------------------

  /** A failing verdict on another generation's plan reaches a run that is not
      failed. */
  ghost predicate StaleVerdict(s: System, step: Step) {
    && step.Act? && step.task.Verdict? && step.task.next == Fail
    && step.task.gen != s.run.generation && s.run.state != Failed
  }

  ghost predicate NoStaleVerdict(s: System, steps: seq<Step>)
    requires Valid(s, steps)
    decreases |steps|
  {
    steps == [] || (!StaleVerdict(s, steps[0]) && NoStaleVerdict(Apply(s, steps[0]), steps[1..]))
  }

  /** The step that failed the run, if this one did, or else the one before. */
  ghost function Culprit(s: System, step: Step, last: Option<Step>): Option<Step>
    requires Enabled(s, step)
  {
    if s.run.state != Failed && Apply(s, step).run.state == Failed then Some(step) else last
  }

  /** The step of the run that last failed it. */
  ghost function FailedBy(s: System, steps: seq<Step>, last: Option<Step>): Option<Step>
    requires Valid(s, steps)
    decreases |steps|
  {
    if steps == [] then last else FailedBy(Apply(s, steps[0]), steps[1..], Culprit(s, steps[0], last))
  }

  ghost predicate ByVerdict(last: Option<Step>) {
    last.Some? && last.value.Act? && last.value.task.Verdict?
  }

  ghost predicate GivenUp(s: System, last: Option<Step>) {
    s.run.state == Failed && ByVerdict(last) ==> SomeGaveUp(s, s.run.generation)
  }

  ghost predicate AlwaysGivenUp(s: System, steps: seq<Step>, last: Option<Step>)
    requires Valid(s, steps)
    decreases |steps|
  {
    GivenUp(s, last) && (steps == [] || AlwaysGivenUp(Apply(s, steps[0]), steps[1..], Culprit(s, steps[0], last)))
  }

  /** No such verdict comes before a segment of the run's own plan gave up. */
  ghost predicate NoEarlyVerdict(s: System, steps: seq<Step>)
    requires Valid(s, steps)
    decreases |steps|
  {
    steps == [] ||
    (!(StaleVerdict(s, steps[0]) && !SomeGaveUp(s, s.run.generation)) && NoEarlyVerdict(Apply(s, steps[0]), steps[1..]))
  }

  lemma VerdictAfter(r: Run, t: Task, o: Outcome)
    ensures t.Verdict? && r.state != Failed ==> (After(r, t, o).0.state == Failed <==> t.next == Fail)
    ensures After(r, t, o).0.generation == r.generation
  {
    hide CoverageOf, NextForRun, NextForRecovery, Unfinished, AllDone;
  }

  lemma SomeGaveUpStays(s: System, u: System, gen: nat)
    requires Extends(s, u) && SomeGaveUp(s, gen)
    ensures SomeGaveUp(u, gen)
  {
  }

  lemma GivenUpStep(s: System, step: Step, last: Option<Step>)
    requires Inv(s) && Enabled(s, step) && GivenUp(s, last)
    ensures GivenUp(Apply(s, step), Culprit(s, step, last)) <==>
      !(StaleVerdict(s, step) && !SomeGaveUp(s, s.run.generation))
  {
    hide After, Planned, RowsTell, Extends, SomeGaveUp;
    StepKeeps(s, step);
    var u := Apply(s, step);
    if SomeGaveUp(s, s.run.generation) {
      SomeGaveUpStays(s, u, s.run.generation);
    }
    if step.Act? {
      assert Earned(s, step.task);
      VerdictAfter(s.run, step.task, step.outcome);
      if step.task.Verdict? {
        SameBooks(s, step.task, step.outcome);
      }
    }
  }

  /** In every run: at every moment a run that a verdict failed is one of whose
      segments one gave up, exactly when no failing verdict on another plan
      reaches it before a segment of its own plan gave up. */
  lemma {:induction false} FailureIsEarnedWhen(s: System, steps: seq<Step>, last: Option<Step>)
    requires Inv(s) && GivenUp(s, last) && Valid(s, steps)
    ensures AlwaysGivenUp(s, steps, last) <==> NoEarlyVerdict(s, steps)
    decreases |steps|
  {
    hide Inv, Apply, GivenUp, StaleVerdict, SomeGaveUp, Culprit;
    if steps != [] {
      var u, last' := Apply(s, steps[0]), Culprit(s, steps[0], last);
      StepKeeps(s, steps[0]);
      GivenUpStep(s, steps[0], last);
      if GivenUp(u, last') {
        FailureIsEarnedWhen(u, steps[1..], last');
      } else {
        assert !AlwaysGivenUp(u, steps[1..], last');
      }
    }
  }

  lemma {:induction false} GivenUpAtTheEnd(s: System, steps: seq<Step>, last: Option<Step>)
    requires Valid(s, steps)
    ensures AlwaysGivenUp(s, steps, last) ==> GivenUp(Final(s, steps), FailedBy(s, steps, last))
    ensures NoStaleVerdict(s, steps) ==> NoEarlyVerdict(s, steps)
    ensures (s.run.state == Failed ==> last.Some?) ==> (Final(s, steps).run.state == Failed ==> FailedBy(s, steps, last).Some?)
    decreases |steps|
  {
    hide Apply, GivenUp, StaleVerdict, SomeGaveUp;
    if steps != [] {
      GivenUpAtTheEnd(Apply(s, steps[0]), steps[1..], Culprit(s, steps[0], last));
    }
  }

  /** Every failed run was failed by some step, and if by a verdict then a
      segment of its own plan gave up, as long as no failing verdict of another
      generation reaches the run while it is not failed. */
  lemma FailedMeansGivenUp(size: nat, steps: seq<Step>)
    requires Valid(Init(size), steps) && Final(Init(size), steps).run.state == Failed
    ensures FailedBy(Init(size), steps, None).Some?
    ensures var s := Final(Init(size), steps);
      NoStaleVerdict(Init(size), steps) && ByVerdict(FailedBy(Init(size), steps, None)) ==>
        SomeGaveUp(s, s.run.generation)
  {
    InitInv(size);
    FailureIsEarnedWhen(Init(size), steps, None);
    GivenUpAtTheEnd(Init(size), steps, None);
  }
}
