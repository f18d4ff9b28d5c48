/** How a run comes to its end. */
module AudiobookProgress {
  import opened Common
  import opened AudiobookRun
  import opened AudiobookSystem
  import opened AudiobookSafety
  import opened AudiobookRuns
  import opened AudiobookSegments

  // ------------------------------------------------------------------
  // A settled run
  // ------------------------------------------------------------------

  /** The last outstanding segment of a live run settles: its record answers
      with a conclusion. */
  lemma RecordConcludes(r: Run, seg: nat, o: Outcome)
    requires Addresses(r, seg, r.generation) && r.state in LiveStates
    ensures var u := After(r, Claimed(seg, r.generation), o);
      SettledSegments(u.0.segs) <==> u.1 != [Verdict(Nothing, r.generation)]
  {
    hide CoverageOf, NextForRun;
    VerdictWhen(r.state, r.segs[seg := Recorded(o)]);
  }

  /** A finalize that breaks for a while is queued again and changes nothing. */
  lemma FinalizeTriesAgain(s: System, t: Task)
    requires t in s.tasks && (t.FinalizeBegun? || t.Assembling?)
    ensures Acted(s, t, WillRetry) == s.(tasks := s.tasks - multiset{t} + multiset{FinalizeJob})
  {
  }

  /** What a record leaves of its segment: landed, given up, or to be tried again,
      by how the engine call went, and no other segment changes. */
  lemma RecordSays(r: Run, seg: nat, o: Outcome)
    requires Addresses(r, seg, r.generation)
    ensures var segs := After(r, Claimed(seg, r.generation), o).0.segs;
      && |segs| == |r.segs|
      && (segs[seg] == SegmentDone <==> o == Succeeds) && (segs[seg] == SegmentFailed <==> o == Fails)
      && (segs[seg] == SegmentRetrying <==> o == WillRetry)
      && forall i: nat :: i < |segs| && i != seg ==> segs[i] == r.segs[i]
  {
    hide CoverageOf, NextForRun;
  }

  /** After `before`, only workers, reads under way and the finalize job act. */
  ghost predicate Continues(before: seq<Step>, steps: seq<Step>) {
    && before <= steps
    && forall i :: |before| <= i < |steps| ==> steps[i].Act? && !UserMove(steps[i])
  }

  lemma ContinuesThrough(a: seq<Step>, b: seq<Step>, c: seq<Step>)
    requires Continues(a, b) && Continues(b, c)
    ensures Continues(a, c)
  {
    hide UserMove;
    forall i | |a| <= i < |c| ensures c[i].Act? && !UserMove(c[i]) {
      assert i < |b| ==> c[i] == b[i];
    }
  }

  /** One more step that leaves the run alone. */
  lemma ActMore(s: System, steps: seq<Step>, u: System, t: Task, o: Outcome, becomes: Task)
    requires Leads(s, steps, u) && t in u.tasks && !t.Claimed?
    requires After(u.run, t, o) == (u.run, [becomes])
    ensures Leads(s, steps + [Act(t, o)], Acted(u, t, o))
    ensures Acted(u, t, o).run == u.run && becomes in Acted(u, t, o).tasks
  {
    hide After, Leads;
    Then(s, steps, u, Act(t, o));
  }

  lemma FinalizeAfter(r: Run)
    requires r.state in LiveStates + [Failed] && r.segs != [] && All(r.segs, SegmentDone)
    ensures After(r, Verdict(Finalize, r.generation), Succeeds) == (r, [FinalizeJob])
    ensures After(r, FinalizeJob, Succeeds) == (r, [FinalizeBegun])
    ensures After(r, FinalizeBegun, Succeeds) == (r, [Assembling(r.generation)])
  {
  }

  lemma ReadyMove(s: System, steps: seq<Step>, u: System)
    requires Leads(s, steps, u) && Assembling(u.run.generation) in u.tasks && u.run.state in LiveStates
    ensures Leads(s, steps + [Act(Assembling(u.run.generation), Succeeds)], Acted(u, Assembling(u.run.generation), Succeeds))
    ensures Acted(u, Assembling(u.run.generation), Succeeds).run == u.run.(state := Ready)
  {
    hide Leads;
    Then(s, steps, u, Act(Assembling(u.run.generation), Succeeds));
  }

  lemma FailMove(s: System, steps: seq<Step>, u: System)
    requires Leads(s, steps, u) && Verdict(Fail, u.run.generation) in u.tasks && u.run.state in LiveStates
    ensures Leads(s, steps + [Act(Verdict(Fail, u.run.generation), Succeeds)],
                  Acted(u, Verdict(Fail, u.run.generation), Succeeds))
    ensures Acted(u, Verdict(Fail, u.run.generation), Succeeds).run == u.run.(state := Failed)
  {
    hide Leads;
    Then(s, steps, u, Act(Verdict(Fail, u.run.generation), Succeeds));
  }

  /** From a finalize job to a ready run. */
  lemma JobFinalizes(s: System, before: seq<Step>, u: System) returns (steps: seq<Step>, v: System)
    requires Leads(s, before, u) && FinalizeJob in u.tasks
    requires u.run.state in LiveStates && u.run.segs != [] && All(u.run.segs, SegmentDone)
    ensures Leads(s, steps, v) && v.run == u.run.(state := Ready) && Continues(before, steps)
  {
    hide Leads, After, Acted, All;
    FinalizeAfter(u.run);
    ActMore(s, before, u, FinalizeJob, Succeeds, FinalizeBegun);
    steps, v := before + [Act(FinalizeJob, Succeeds)], Acted(u, FinalizeJob, Succeeds);
    ActMore(s, steps, v, FinalizeBegun, Succeeds, Assembling(u.run.generation));
    steps, v := steps + [Act(FinalizeBegun, Succeeds)], Acted(v, FinalizeBegun, Succeeds);
    ReadyMove(s, steps, v);
    steps := steps + [Act(Assembling(u.run.generation), Succeeds)];
    v := Acted(v, Assembling(u.run.generation), Succeeds);
  }

  lemma StatusReads(s: System, before: seq<Step>, u: System) returns (steps: seq<Step>, v: System)
    requires Leads(s, before, u)
    ensures Leads(s, steps, v) && v.run == u.run && Continues(before + [StatusRead], steps)
    ensures Verdict(NextForRun(u.run.state, CoverageOf(u.run.segs)), u.run.generation) in v.tasks
  {
    hide Leads, CoverageOf, NextForRun;
    Then(s, before, u, StatusRead);
    steps, v := before + [StatusRead], Apply(u, StatusRead);
    var seen := Seen(u.run.state);
    ActMore(s, steps, v, seen, Succeeds, Verdict(NextForRun(u.run.state, CoverageOf(u.run.segs)), u.run.generation));
    steps, v := steps + [Act(seen, Succeeds)], Acted(v, seen, Succeeds);
  }

  /** Whatever crashed before, one status read and what follows from it by
      itself conclude a live run whose segments are all settled: ready when all
      landed, failed when one gave up. */
  lemma ReadConcludes(s: System, before: seq<Step>, u: System) returns (steps: seq<Step>, v: System)
    requires Leads(s, before, u)
    requires u.run.state in LiveStates && u.run.segs != [] && SettledSegments(u.run.segs)
    ensures Leads(s, steps, v) && Continues(before + [StatusRead], steps)
    ensures v.run == u.run.(state := if All(u.run.segs, SegmentDone) then Ready else Failed)
  {
    hide Leads, CoverageOf, NextForRun, After, Acted, All, SettledSegments;
    VerdictWhen(u.run.state, u.run.segs);
    steps, v := StatusReads(s, before, u);
    if All(u.run.segs, SegmentDone) {
      FinalizeAfter(u.run);
      ActMore(s, steps, v, Verdict(Finalize, u.run.generation), Succeeds, FinalizeJob);
      steps := steps + [Act(Verdict(Finalize, u.run.generation), Succeeds)];
      v := Acted(v, Verdict(Finalize, u.run.generation), Succeeds);
      var verdict := steps;
      steps, v := JobFinalizes(s, steps, v);
      ContinuesThrough(before + [StatusRead], verdict, steps);
    } else {
      FailMove(s, steps, v);
      steps := steps + [Act(Verdict(Fail, u.run.generation), Succeeds)];
      v := Acted(v, Verdict(Fail, u.run.generation), Succeeds);
    }
  }

  // ------------------------------------------------------------------
  // Retry
  // ------------------------------------------------------------------

  /** All segments not in `left` landed. */
  ghost predicate DoneBut(segs: seq<SegmentState>, left: seq<nat>) {
    && (forall i :: i in left ==> i < |segs|)
    && forall i: nat :: i < |segs| && i !in left ==> segs[i] == SegmentDone
  }

  /** One segment's job runs from dispatch to its record. */
  lemma JobLands(s: System, before: seq<Step>, u: System, left: seq<nat>) returns (steps: seq<Step>, v: System)
    requires Leads(s, before, u) && u.run.state == Running && left != [] && left[0] < |u.run.segs|
    requires Dispatching(left, u.run.generation) in u.tasks
    ensures Leads(s, steps, v) && Dispatching(left[1..], u.run.generation) in v.tasks && Continues(before, steps)
    ensures v.run == u.run.(segs := u.run.segs[left[0] := SegmentDone])
  {
    hide Leads, CoverageOf, NextForRun;
    var gen, seg := u.run.generation, left[0];
    Then(s, before, u, Act(Dispatching(left, gen), Succeeds));
    steps, v := before + [Act(Dispatching(left, gen), Succeeds)], Acted(u, Dispatching(left, gen), Succeeds);
    assert Job(seg, gen) in v.tasks && Dispatching(left[1..], gen) in v.tasks;
    var dispatched := steps;
    steps, v := ClaimAndLand(s, steps, v, seg, Dispatching(left[1..], gen));
    ContinuesThrough(before, dispatched, steps);
  }

  lemma JobTaken(u: System, seg: nat, other: Task)
    requires u.run.state == Running && Job(seg, u.run.generation) in u.tasks
    requires other in u.tasks && other.Dispatching?
    ensures var v := Acted(u, Job(seg, u.run.generation), Succeeds);
      v.run == u.run && Begun(seg, u.run.generation) in v.tasks && other in v.tasks
  {
    hide CoverageOf, NextForRun, NextForRecovery, Unfinished, AllDone;
  }

  lemma ClaimAndLand(s: System, before: seq<Step>, u: System, seg: nat, other: Task)
    returns (steps: seq<Step>, v: System)
    requires Leads(s, before, u) && u.run.state == Running && seg < |u.run.segs|
    requires Job(seg, u.run.generation) in u.tasks && other in u.tasks && other.Dispatching?
    ensures Leads(s, steps, v) && other in v.tasks && Continues(before, steps)
    ensures v.run == u.run.(segs := u.run.segs[seg := SegmentDone])
  {
    hide Leads, Acted;
    var gen := u.run.generation;
    if u.run.segs[seg] == SegmentDone {
      assert u.run.segs[seg := SegmentDone] == u.run.segs;
      steps, v := before, u;
    } else {
      JobTaken(u, seg, other);
      Then(s, before, u, Act(Job(seg, gen), Succeeds));
      steps, v := before + [Act(Job(seg, gen), Succeeds)], Acted(u, Job(seg, gen), Succeeds);
      BegunLands(s, steps, v, seg, other);
      steps := steps + [Act(Begun(seg, gen), Succeeds)] + [Act(Claimed(seg, gen), Succeeds)];
      v := Acted(Acted(v, Begun(seg, gen), Succeeds), Claimed(seg, gen), Succeeds);
    }
  }

  lemma BegunLands(s: System, before: seq<Step>, u: System, seg: nat, other: Task)
    requires Leads(s, before, u) && seg < |u.run.segs| && u.run.segs[seg] != SegmentDone
    requires Begun(seg, u.run.generation) in u.tasks && other in u.tasks && other.Dispatching?
    ensures var b, c := Begun(seg, u.run.generation), Claimed(seg, u.run.generation);
      c in Acted(u, b, Succeeds).tasks &&
      var v := Acted(Acted(u, b, Succeeds), c, Succeeds);
      && Leads(s, before + [Act(b, Succeeds)] + [Act(c, Succeeds)], v) && other in v.tasks
      && v.run == u.run.(segs := u.run.segs[seg := SegmentDone])
  {
    hide Leads, CoverageOf, NextForRun;
    var b, c := Begun(seg, u.run.generation), Claimed(seg, u.run.generation);
    Then(s, before, u, Act(b, Succeeds));
    var w := Acted(u, b, Succeeds);
    assert w.run == u.run.(segs := u.run.segs[seg := SegmentRunning]);
    Then(s, before + [Act(b, Succeeds)], w, Act(c, Succeeds));
    assert u.run.segs[seg := SegmentRunning][seg := SegmentDone] == u.run.segs[seg := SegmentDone];
  }

  /** All outstanding jobs run. */
  lemma {:induction false} JobsLand(s: System, before: seq<Step>, u: System, left: seq<nat>)
    returns (steps: seq<Step>, v: System)
    requires Leads(s, before, u) && u.run.state == Running && DoneBut(u.run.segs, left)
    requires Dispatching(left, u.run.generation) in u.tasks
    ensures Leads(s, steps, v) && v.run.state == Running && v.run.generation == u.run.generation
    ensures |v.run.segs| == |u.run.segs| && All(v.run.segs, SegmentDone) && Continues(before, steps)
    decreases |left|
  {
    hide Leads;
    if left == [] {
      steps, v := before, u;
    } else {
      assert left[0] in left;
      steps, v := JobLands(s, before, u, left);
      assert forall i :: i in left[1..] ==> i in left;
      forall i: nat | i < |v.run.segs| && i !in left[1..] ensures v.run.segs[i] == SegmentDone {
        assert i in left ==> i == left[0];
      }
      var one := steps;
      steps, v := JobsLand(s, steps, v, left[1..]);
      ContinuesThrough(before, one, steps);
    }
  }

  lemma CompletePressed(s: System)
    requires s.run.state in LiveStates && s.run.segs != [] && All(s.run.segs, SegmentDone)
    ensures var state, gen := s.run.state, s.run.generation;
      && Enabled(s, PressRetry) && Apply(s, PressRetry).run == s.run && RetrySeen(state, gen) in Apply(s, PressRetry).tasks
      && After(s.run, RetrySeen(state, gen), Succeeds) == (s.run, [FinalizeJob])
  {
    hide CoverageOf, NextForRecovery, All;
    RecoveryWhen(s.run.state, s.run.segs);
  }

  /** One Retry brings a live run whose segments all landed, and whose finalize
      was lost, to its file: it is asked about that before it is refused as
      running or as having nothing outstanding. */
  lemma RetryFinalizes(s: System) returns (steps: seq<Step>, v: System)
    requires s.run.state in LiveStates && s.run.segs != [] && All(s.run.segs, SegmentDone)
    ensures Leads(s, steps, v) && v.run == s.run.(state := Ready) && Continues([PressRetry], steps)
  {
    hide Leads, After, All, Acted, Continues;
    var t := RetrySeen(s.run.state, s.run.generation);
    CompletePressed(s);
    Standing(s);
    Then(s, [], s, PressRetry);
    steps, v := [] + [PressRetry], Apply(s, PressRetry);
    ActMore(s, steps, v, t, Succeeds, FinalizeJob);
    steps, v := steps + [Act(t, Succeeds)], Acted(v, t, Succeeds);
    var asked := steps;
    assert Continues([PressRetry], asked) by { OneAct(t); }
    steps, v := JobFinalizes(s, steps, v);
    ContinuesThrough([PressRetry], asked, steps);
  }

  lemma OneAct(t: Task)
    requires t.RetrySeen?
    ensures Continues([PressRetry], [] + [PressRetry] + [Act(t, Succeeds)])
  {
  }

  lemma RetryPressed(s: System)
    requires s.run.state in [Pending, Failed] && Unfinished(s.run.segs) != []
    requires NextForRecovery(s.run.state, CoverageOf(s.run.segs)) != Finalize
    ensures var state, gen, left := s.run.state, s.run.generation, Unfinished(s.run.segs);
      && Enabled(s, PressRetry)
      && After(s.run, RetrySeen(state, gen), Succeeds) == (s.run, [RetryListing(gen)])
      && After(s.run, RetryListing(gen), Succeeds) == (s.run, [Promoting([Pending, Failed], left, gen)])
      && After(s.run, Promoting([Pending, Failed], left, gen), Succeeds) ==
           (s.run.(state := Running), [Dispatching(left, gen)])
      && RetrySeen(state, gen) in Apply(s, PressRetry).tasks && Apply(s, PressRetry).run == s.run
  {
    hide CoverageOf, NextForRecovery, Unfinished;
  }

  /** The user presses Retry and nothing else, and the queue repeats nothing. */
  ghost predicate OneRetry(steps: seq<Step>) {
    && steps != [] && steps[0] == PressRetry
    && forall i :: 1 <= i < |steps| ==> steps[i].StatusRead? || (steps[i].Act? && !steps[i].task.Canceling?)
  }

  lemma OneRetryStays(before: seq<Step>, steps: seq<Step>)
    requires OneRetry(before)
    ensures Continues(before, steps) ==> OneRetry(steps)
    ensures OneRetry(before + [StatusRead])
  {
    forall i | 1 <= i < |before| && before <= steps ensures steps[i] == before[i] {
    }
  }

  /** A pending or failed run that misses a segment can be brought to its file by
      pressing Retry once and reading its status, whatever was lost: the plan and
      the generation stay. */
  lemma RetryRecovers(s: System) returns (steps: seq<Step>, v: System)
    requires s.run.state in [Pending, Failed] && s.run.segs != [] && !All(s.run.segs, SegmentDone)
    ensures Leads(s, steps, v) && OneRetry(steps) && v.run == Run(Ready, s.run.generation, v.run.segs)
    ensures |v.run.segs| == |s.run.segs| && All(v.run.segs, SegmentDone)
  {
    hide Leads, CoverageOf, NextForRun, NextForRecovery, Unfinished, After, All, Acted, Continues;
    var state, gen, left := s.run.state, s.run.generation, Unfinished(s.run.segs);
    SomeLeft(s.run.segs);
    RecoveryWhen(state, s.run.segs);
    RetryPressed(s);
    assert Leads(s, [], s) by { Standing(s); }
    Then(s, [], s, PressRetry);
    steps, v := [] + [PressRetry], Apply(s, PressRetry);
    ActMore(s, steps, v, RetrySeen(state, gen), Succeeds, RetryListing(gen));
    steps, v := steps + [Act(RetrySeen(state, gen), Succeeds)], Acted(v, RetrySeen(state, gen), Succeeds);
    ActMore(s, steps, v, RetryListing(gen), Succeeds, Promoting([Pending, Failed], left, gen));
    steps, v := steps + [Act(RetryListing(gen), Succeeds)], Acted(v, RetryListing(gen), Succeeds);
    steps, v := Resumed(s, steps, v, left);
    assert OneRetry(steps);
    var resumed := steps;
    steps, v := JobsLand(s, steps, v, left);
    OneRetryStays(resumed, steps);
    DoneSettles(v.run.segs);
    var landed := steps;
    steps, v := ReadConcludes(s, steps, v);
    OneRetryStays(landed, []);
    OneRetryStays(landed + [StatusRead], steps);
  }

  lemma Standing(s: System)
    ensures Leads(s, [], s)
  {
  }

  lemma DoneSettles(segs: seq<SegmentState>)
    requires All(segs, SegmentDone)
    ensures SettledSegments(segs)
  {
  }

  lemma SomeLeft(segs: seq<SegmentState>)
    ensures Unfinished(segs) == [] <==> All(segs, SegmentDone)
    ensures DoneBut(segs, Unfinished(segs))
  {
    var left := Unfinished(segs);
    if left != [] {
      assert left[0] in left;
    }
  }

  lemma Resumed(s: System, before: seq<Step>, u: System, left: seq<nat>) returns (steps: seq<Step>, v: System)
    requires Leads(s, before, u) && u.run.state in [Pending, Failed]
    requires Promoting([Pending, Failed], left, u.run.generation) in u.tasks
    ensures Leads(s, steps, v) && v.run == u.run.(state := Running) && Dispatching(left, u.run.generation) in v.tasks
    ensures steps == before + [Act(Promoting([Pending, Failed], left, u.run.generation), Succeeds)]
  {
    hide Leads;
    var p := Promoting([Pending, Failed], left, u.run.generation);
    Then(s, before, u, Act(p, Succeeds));
    steps, v := before + [Act(p, Succeeds)], Acted(u, p, Succeeds);
  }

  // ------------------------------------------------------------------
  // Dead ends
  // ------------------------------------------------------------------

  /** Failed with every segment landed, no claim out and no resumption under
      way. */
  ghost predicate FinalizeFailed(s: System) {
    && s.run.state == Failed && s.run.segs != [] && All(s.run.segs, SegmentDone)
    && forall t :: t in s.tasks ==> !t.Promoting? && !(t.Claimed? && t.gen == s.run.generation)
  }

  lemma FailedAfter(r: Run, t: Task, o: Outcome)
    requires r.state == Failed && r.segs != [] && All(r.segs, SegmentDone)
    requires !t.Promoting? && !(t.Claimed? && t.gen == r.generation)
    ensures After(r, t, o).0 == r
    ensures forall x :: x in After(r, t, o).1 ==> !x.Promoting? && !(x.Claimed? && x.gen == r.generation)
  {
    hide CoverageOf, NextForRun, NextForRecovery;
    SomeLeft(r.segs);
  }

  lemma FailedStep(s: System, step: Step)
    requires FinalizeFailed(s) && Enabled(s, step)
    ensures Apply(s, step).run.generation > s.run.generation
      || (FinalizeFailed(Apply(s, step)) && Apply(s, step).run == s.run)
  {
    hide After, All;
    if step.Act? {
      FailedAfter(s.run, step.task, step.outcome);
    }
  }

  lemma AfterGeneration(r: Run, t: Task, o: Outcome)
    ensures After(r, t, o).0.generation == r.generation
  {
    hide CoverageOf, NextForRun, NextForRecovery, Unfinished, AllDone;
  }

  lemma {:induction false} GenerationGrows(s: System, steps: seq<Step>)
    requires Valid(s, steps)
    ensures Final(s, steps).run.generation >= s.run.generation
    decreases |steps|
  {
    hide After;
    if steps != [] {
      if steps[0].Act? {
        AfterGeneration(s.run, steps[0].task, steps[0].outcome);
      }
      GenerationGrows(Apply(s, steps[0]), steps[1..]);
    }
  }

  /** A run whose segments all landed and which its finalize failed stays
      failed whatever anybody does, pressing Retry included, until it is
      narrated anew: the file Retry assembles is reported to a run that is not
      live. */
  lemma {:induction false} FinalizeFailureIsFinal(s: System, steps: seq<Step>)
    requires FinalizeFailed(s) && Valid(s, steps)
    ensures Final(s, steps).run == s.run || Final(s, steps).run.generation > s.run.generation
    decreases |steps|
  {
    hide FinalizeFailed, Apply;
    if steps != [] {
      FailedStep(s, steps[0]);
      GenerationGrows(Apply(s, steps[0]), steps[1..]);
      if FinalizeFailed(Apply(s, steps[0])) {
        FinalizeFailureIsFinal(Apply(s, steps[0]), steps[1..]);
      }
    }
  }

  /** A running run that nobody works on: its jobs are lost and it is not
      settled. */
  ghost predicate Stranded(s: System) {
    && s.run.state == Running && s.run.segs != [] && !SettledSegments(s.run.segs)
    && forall t :: t in s.tasks ==> Idle(t)
  }

  ghost predicate Idle(t: Task) {
    t.Seen? || (t.RetrySeen? && t.state == Running) || (t.Verdict? && t.next == Nothing)
  }

  lemma IdleAfter(r: Run, t: Task, o: Outcome)
    requires Idle(t) && r.state == Running && r.segs != [] && !SettledSegments(r.segs)
    ensures After(r, t, o).0 == r && forall x :: x in After(r, t, o).1 ==> Idle(x)
  {
    hide CoverageOf, NextForRun, NextForRecovery;
    if t.Seen? {
      VerdictWhen(t.state, r.segs);
    } else if t.RetrySeen? {
      RecoveryWhen(t.state, r.segs);
      if All(r.segs, SegmentDone) {
        DoneSettles(r.segs);
      }
    }
  }

  lemma StrandedStep(s: System, step: Step)
    requires Stranded(s) && Enabled(s, step) && !step.PressCancel? && !step.Redeliver?
    ensures Stranded(Apply(s, step)) && Apply(s, step).run == s.run
  {
    hide After, SettledSegments;
    if step.Act? {
      IdleAfter(s.run, step.task, step.outcome);
    }
  }

  /** Such a run stays as it is under every read, every start and every Retry:
      unless the queue delivers a job after all, only a cancel moves it. */
  lemma {:induction false} StrandedStays(s: System, steps: seq<Step>)
    requires Stranded(s) && Valid(s, steps)
    requires forall i :: 0 <= i < |steps| ==> !steps[i].PressCancel? && !steps[i].Redeliver?
    ensures Final(s, steps).run == s.run
    decreases |steps|
  {
    hide Stranded, Apply;
    if steps != [] {
      StrandedStep(s, steps[0]);
      StrandedStays(Apply(s, steps[0]), steps[1..]);
    }
  }

  /** A canceled run that only reads, Retries and idle jobs act on. */
  ghost predicate Shelved(s: System) {
    s.run.state == Canceled && forall t :: t in s.tasks ==> Powerless(t)
  }

  /** What moves no canceled run, as long as dispatching succeeds. */
  ghost predicate Powerless(t: Task) {
    || (t.Seen? && t.state == Canceled) || (t.RetrySeen? && t.state == Canceled) || (t.Verdict? && t.next == Nothing)
    || t.RetryListing? || (t.Promoting? && t.from == [Pending, Failed]) || t.Dispatching? || t.Job? || t.Canceling?
  }

  ghost predicate Refused(step: Step) {
    step.Act? && step.task.Dispatching? && step.task.left != [] && step.outcome != Succeeds
  }

  lemma PowerlessAfter(r: Run, t: Task, o: Outcome)
    requires r.state == Canceled && Powerless(t)
    ensures After(r, t, o).0 != r <==> t.Dispatching? && t.left != [] && o != Succeeds
    ensures After(r, t, o).0 != r ==> After(r, t, o).0 == r.(state := Failed)
    ensures forall x :: x in After(r, t, o).1 ==> Powerless(x)
  {
    hide CoverageOf, Unfinished;
    VerdictWhen(Canceled, r.segs);
    RecoveryWhen(Canceled, r.segs);
  }

  lemma ShelvedStep(s: System, step: Step)
    requires Shelved(s) && Enabled(s, step) && !step.Start?
    ensures Refused(step) ==> Apply(s, step).run == s.run.(state := Failed)
    ensures !Refused(step) ==> Shelved(Apply(s, step)) && Apply(s, step).run == s.run
  {
    hide After;
    if step.Act? {
      PowerlessAfter(s.run, step.task, step.outcome);
    }
  }

  /** Retry on a canceled run promotes nothing and its jobs turn away, so the run
      stays as it is unless a dispatch is refused: that failure is reported past
      the cancel. */
  lemma {:induction false} CanceledStays(s: System, steps: seq<Step>)
    requires Shelved(s) && Valid(s, steps)
    requires forall i :: 0 <= i < |steps| ==> !steps[i].Start? && !Refused(steps[i])
    ensures Final(s, steps).run == s.run
    decreases |steps|
  {
    hide Shelved, Apply, Refused;
    if steps != [] {
      ShelvedStep(s, steps[0]);
      CanceledStays(Apply(s, steps[0]), steps[1..]);
    }
  }

  /** Nothing that may be under way can move the run: no read of it, no Retry and
      no verdict. */
  ghost predicate DeadEnd(s: System) {
    s.run.state != Ready && Hopeless(s.run) && forall t :: t in s.tasks ==> Futile(t, s.run.state)
  }

  /** A plan without segments, or a canceled run whose segments all landed. */
  ghost predicate Hopeless(r: Run) {
    r.segs == [] || (r.state == Canceled && All(r.segs, SegmentDone))
  }

  ghost predicate Futile(t: Task, state: RunState) {
    (t.Seen? && t.state == state) || (t.RetrySeen? && t.state == state) || (t.Verdict? && t.next == Nothing) || t.RetryListing?
  }

  lemma FutileAfter(r: Run, t: Task, o: Outcome)
    requires Hopeless(r) && Futile(t, r.state)
    ensures After(r, t, o).0 == r && forall x :: x in After(r, t, o).1 ==> Futile(x, r.state)
  {
    hide CoverageOf, NextForRun, NextForRecovery;
    VerdictWhen(r.state, r.segs);
    RecoveryWhen(r.state, r.segs);
    SomeLeft(r.segs);
  }

  /** Nobody starts the run anew or cancels it, and the queue repeats nothing. */
  ghost predicate Unaided(steps: seq<Step>) {
    forall i :: 0 <= i < |steps| ==> !steps[i].Start? && !steps[i].PressCancel? && !steps[i].Redeliver?
  }

  lemma DeadEndStep(s: System, step: Step)
    requires DeadEnd(s) && Enabled(s, step) && !step.Start? && !step.PressCancel? && !step.Redeliver?
    ensures DeadEnd(Apply(s, step)) && Apply(s, step).run == s.run
  {
    hide After, Hopeless;
    if step.Act? {
      FutileAfter(s.run, step.task, step.outcome);
    }
  }

  lemma {:induction false} DeadEndStays(s: System, steps: seq<Step>)
    requires DeadEnd(s) && Valid(s, steps) && Unaided(steps)
    ensures Final(s, steps).run == s.run
    decreases |steps|
  {
    hide DeadEnd, Apply;
    if steps != [] {
      DeadEndStep(s, steps[0]);
      DeadEndStays(Apply(s, steps[0]), steps[1..]);
    }
  }

  // ------------------------------------------------------------------
  // The route back
  // ------------------------------------------------------------------

  /** The steps bring the run to its file without starting it anew. */
  ghost predicate MakesReady(s: System, steps: seq<Step>) {
    Valid(s, steps) && Final(s, steps).run.state == Ready && Final(s, steps).run.generation == s.run.generation
  }

  /** Reads and Retries alone bring the run to its file. */
  ghost predicate Recoverable(s: System) {
    exists steps :: Unaided(steps) && MakesReady(s, steps)
  }

  lemma {:induction false} LeadsOn(s: System, a: seq<Step>, u: System, b: seq<Step>, v: System)
    requires Leads(s, a, u) && Leads(u, b, v)
    ensures Leads(s, a + b, v)
    decreases |a|
  {
    hide Enabled, Apply;
    if a == [] {
      assert a + b == b;
    } else {
      LeadsOn(Apply(s, a[0]), a[1..], u, b, v);
      assert (a + b)[0] == a[0] && (a + b)[1..] == a[1..] + b;
    }
  }

  /** Reaching a recoverable state of the same generation is recovering. */
  lemma RecoverableFrom(s: System, a: seq<Step>, u: System)
    requires Leads(s, a, u) && Unaided(a) && u.run.generation == s.run.generation && Recoverable(u)
    ensures Recoverable(s)
  {
    hide Valid, Final;
    var b :| Unaided(b) && MakesReady(u, b);
    LeadsOn(s, a, u, b, Final(u, b));
    assert Unaided(a + b) && MakesReady(s, a + b);
  }

  lemma ReadyIsRecoverable(s: System)
    requires s.run.state == Ready
    ensures Recoverable(s)
  {
    assert Unaided([]) && MakesReady(s, []);
  }

  /** By one Retry. */
  lemma MissingIsRecoverable(s: System)
    requires s.run.state in [Pending, Failed] && s.run.segs != [] && !All(s.run.segs, SegmentDone)
    ensures Recoverable(s)
  {
    hide Valid, Final;
    var steps, v := RetryRecovers(s);
    assert Unaided(steps) && MakesReady(s, steps);
  }

  /** By one status read, and by a Retry after it when a segment gave up. */
  lemma SettledIsRecoverable(s: System)
    requires s.run.state in LiveStates && s.run.segs != [] && SettledSegments(s.run.segs)
    ensures Recoverable(s)
  {
    hide Leads, Recoverable, SettledSegments;
    assert Leads(s, [], s) by { Standing(s); }
    var steps, v := ReadConcludes(s, [], s);
    assert [] + [StatusRead] == [StatusRead];
    assert forall i :: 1 <= i < |steps| ==> steps[i].Act?;
    assert steps[0] == StatusRead;
    if v.run.state == Ready {
      ReadyIsRecoverable(v);
    } else {
      MissingIsRecoverable(v);
    }
    RecoverableFrom(s, steps, v);
  }

  lemma CanceledRetried(s: System)
    requires s.run.state == Canceled && Unfinished(s.run.segs) != []
    ensures var gen, left := s.run.generation, Unfinished(s.run.segs);
      && After(s.run, RetrySeen(Canceled, gen), Succeeds) == (s.run, [RetryListing(gen)])
      && After(s.run, RetryListing(gen), Succeeds) == (s.run, [Promoting([Pending, Failed], left, gen)])
      && After(s.run, Promoting([Pending, Failed], left, gen), Succeeds) == (s.run, [Dispatching(left, gen)])
      && After(s.run, Dispatching(left, gen), Fails) == (s.run.(state := Failed), [])
      && Enabled(s, PressRetry)
      && RetrySeen(Canceled, gen) in Apply(s, PressRetry).tasks && Apply(s, PressRetry).run == s.run
  {
    hide CoverageOf, Unfinished;
    RecoveryWhen(Canceled, s.run.segs);
  }

  /** A Retry whose dispatch is refused fails a canceled run. */
  lemma RetryUncancels(s: System) returns (steps: seq<Step>, v: System)
    requires s.run.state == Canceled && !All(s.run.segs, SegmentDone)
    ensures Leads(s, steps, v) && OneRetry(steps) && v.run == s.run.(state := Failed)
  {
    hide Leads, Unfinished, After, All, Acted;
    var gen, left := s.run.generation, Unfinished(s.run.segs);
    SomeLeft(s.run.segs);
    CanceledRetried(s);
    assert Leads(s, [], s) by { Standing(s); }
    Then(s, [], s, PressRetry);
    steps, v := [] + [PressRetry], Apply(s, PressRetry);
    ActMore(s, steps, v, RetrySeen(Canceled, gen), Succeeds, RetryListing(gen));
    steps, v := steps + [Act(RetrySeen(Canceled, gen), Succeeds)], Acted(v, RetrySeen(Canceled, gen), Succeeds);
    var p, d := Promoting([Pending, Failed], left, gen), Dispatching(left, gen);
    ActMore(s, steps, v, RetryListing(gen), Succeeds, p);
    steps, v := steps + [Act(RetryListing(gen), Succeeds)], Acted(v, RetryListing(gen), Succeeds);
    ActMore(s, steps, v, p, Succeeds, d);
    steps, v := steps + [Act(p, Succeeds)], Acted(v, p, Succeeds);
    Then(s, steps, v, Act(d, Fails));
    assert Acted(v, d, Fails).run == After(v.run, d, Fails).0 by { ActedRun(v, d, Fails); }
    steps, v := steps + [Act(d, Fails)], Acted(v, d, Fails);
  }

  lemma ActedRun(s: System, t: Task, o: Outcome)
    requires t in s.tasks
    ensures Acted(s, t, o).run == After(s.run, t, o).0
  {
    hide After;
  }

  /** By two Retries, the first of them refused. */
  lemma CanceledIsRecoverable(s: System)
    requires s.run.state == Canceled && s.run.segs != [] && !All(s.run.segs, SegmentDone)
    ensures Recoverable(s)
  {
    hide Leads, Recoverable, All;
    var steps, v := RetryUncancels(s);
    MissingIsRecoverable(v);
    RecoverableFrom(s, steps, v);
  }

  lemma StuckIsNotRecoverable(s: System)
    requires s.tasks == multiset{} && s.run.state != Ready
    requires Hopeless(s.run) || (s.run.segs != [] && s.run.state == Running && !SettledSegments(s.run.segs))
      || (s.run.segs != [] && s.run.state == Failed && All(s.run.segs, SegmentDone))
    ensures !Recoverable(s)
  {
    hide Valid, Final, Hopeless, SettledSegments, All;
    forall steps | Unaided(steps) && Valid(s, steps) ensures !MakesReady(s, steps) {
      if Hopeless(s.run) {
        DeadEndStays(s, steps);
      } else if s.run.state == Running {
        StrandedStays(s, steps);
      } else {
        FinalizeFailureIsFinal(s, steps);
      }
    }
  }

  /** Of the runs that nothing is acting on, with whatever plan, reads and
      Retries can bring exactly these to a file: those that have one, and with a
      plan those that are neither running with a segment outstanding nor failed
      or canceled with every segment landed. */
  lemma RetryWorksWhen(s: System)
    requires s.tasks == multiset{}
    ensures Recoverable(s) <==>
      s.run.state == Ready ||
      (s.run.segs != []
        && !(s.run.state == Running && !SettledSegments(s.run.segs))
        && !(s.run.state in [Failed, Canceled] && All(s.run.segs, SegmentDone)))
    ensures s.run.state == Failed && s.run.segs != [] && All(s.run.segs, SegmentDone) ==>
      forall steps :: !MakesReady(s, steps)
  {
    hide Recoverable, SettledSegments, All, MakesReady;
    if s.run.state == Failed && s.run.segs != [] && All(s.run.segs, SegmentDone) {
      FinalizeFailedNeverReady(s);
    }
    if s.run.state == Ready {
      ReadyIsRecoverable(s);
    } else if s.run.segs == [] {
      StuckIsNotRecoverable(s);
    } else if All(s.run.segs, SegmentDone) {
      DoneSettles(s.run.segs);
      if s.run.state in LiveStates {
        SettledIsRecoverable(s);
      } else {
        StuckIsNotRecoverable(s);
      }
    } else if s.run.state in [Pending, Failed] {
      MissingIsRecoverable(s);
    } else if s.run.state == Canceled {
      CanceledIsRecoverable(s);
    } else if SettledSegments(s.run.segs) {
      SettledIsRecoverable(s);
    } else {
      StuckIsNotRecoverable(s);
    }
  }

  lemma FinalizeFailedNeverReady(s: System)
    requires s.tasks == multiset{} && s.run.state == Failed && s.run.segs != [] && All(s.run.segs, SegmentDone)
    ensures forall steps :: !MakesReady(s, steps)
  {
    hide Valid, Final, All;
    forall steps | Valid(s, steps) ensures !MakesReady(s, steps) {
      FinalizeFailureIsFinal(s, steps);
    }
  }

  /** Retry is the route back for a segment whose job was lost, exactly unless
      the run is running and not settled. */
  lemma RetryIsTheRouteBackWhen(s: System)
    requires s.tasks == multiset{} && !All(s.run.segs, SegmentDone)
    ensures Recoverable(s) <==> !(s.run.state == Running && !SettledSegments(s.run.segs))
  {
    hide Recoverable, SettledSegments;
    RetryWorksWhen(s);
  }

  /** A run from the start that its finalize fails with everything landed. */
  lemma FinalizeFails() returns (steps: seq<Step>, s: System)
    ensures Leads(Init(1), steps, s) && FinalizeFailed(s)
  {
    hide Leads, Acted;
    steps := Opening(Succeeds);
    steps := Assembles(steps, multiset{Rest});
    var u := One(Running, SegmentDone, multiset{Rest} + multiset{Assembling(1)});
    AssemblyFails();
    s := One(Failed, SegmentDone, multiset{Rest});
    ThenAct(Init(1), steps, u, Assembling(1), Fails, s);
    steps := steps + [Act(Assembling(1), Fails)];
    assert s.run.segs == [SegmentDone];
  }

  lemma AssemblyFails()
    ensures var u := One(Running, SegmentDone, multiset{Rest} + multiset{Assembling(1)});
      Assembling(1) in u.tasks && Acted(u, Assembling(1), Fails) == One(Failed, SegmentDone, multiset{Rest})
  {
    hide CoverageOf, NextForRun, NextForRecovery, Unfinished, AllDone;
    assert multiset{Rest} + multiset{Assembling(1)} - multiset{Assembling(1)} == multiset{Rest};
  }

  /** A run from the start whose only job is lost. */
  lemma Strands() returns (steps: seq<Step>, s: System)
    ensures Leads(Init(1), steps, s) && Stranded(s)
  {
    hide Leads;
    steps := Dispatched();
    var u := One(Running, SegmentPending, multiset{Rest} + multiset{Job(0, 1)});
    MoreSteps(steps, u, Lose(Job(0, 1)), Lose(Rest));
    steps := steps + [Lose(Job(0, 1))] + [Lose(Rest)];
    s := Apply(Apply(u, Lose(Job(0, 1))), Lose(Rest));
    assert s.tasks == multiset{};
    assert s.run.segs[0] == SegmentPending;
  }

  /** A run from the start whose planning call was lost before it moved the run
      to running: pending, nothing under way, and Retry is the route back. */
  lemma LeavesPending(size: nat) returns (steps: seq<Step>, s: System)
    requires size > 0
    ensures Leads(Init(size), steps, s) && s.run == Init(size).run && s.tasks == multiset{} && Recoverable(s)
  {
    hide Recoverable, Leads;
    var lost := Promoting([Pending], Upto(size), 1);
    Standing(Init(size));
    Then(Init(size), [], Init(size), Lose(lost));
    steps, s := [] + [Lose(lost)], Apply(Init(size), Lose(lost));
    assert s.tasks == multiset{};
    assert s.run.segs[0] == SegmentPending;
    MissingIsRecoverable(s);
  }
}
