/** What no interleaving of workers, reads, crashes and user actions breaks. */
module AudiobookSafety {
  import opened Common
  import opened AudiobookRun
  import opened AudiobookSystem

  // ------------------------------------------------------------------
  // Every conclusion in flight was earned by the plan it was read from
  // ------------------------------------------------------------------

  /** Every segment of a generation landed at some time. */
  ghost predicate AllLanded(s: System, gen: nat) {
    gen in s.plans && s.plans[gen] > 0 && forall i: nat :: i < s.plans[gen] ==> (gen, i) in s.landed
  }

  ghost predicate SomeGaveUp(s: System, gen: nat) {
    gen in s.plans && exists i: nat :: i < s.plans[gen] && (gen, i) in s.gaveUp
  }

  /** What somebody under way may rely on. */
  ghost predicate Earned(s: System, t: Task) {
    match t
    case Job(_, gen) => gen <= s.run.generation
    case Begun(_, gen) => gen <= s.run.generation
    case Claimed(_, gen) => gen <= s.run.generation
    case Verdict(next, gen) =>
      gen <= s.run.generation && (next == Finalize ==> AllLanded(s, gen)) && (next == Fail ==> SomeGaveUp(s, gen))
    case Assembling(gen) => gen <= s.run.generation && AllLanded(s, gen)
    case Promoting(from, _, gen) => gen <= s.run.generation && from <= [Pending, Failed]
    case Dispatching(_, gen) => gen <= s.run.generation
    case RetrySeen(_, gen) => gen <= s.run.generation
    case RetryListing(gen) => gen <= s.run.generation
    case _ => true
  }

  ghost predicate Planned(s: System) {
    && s.run.generation in s.plans && s.plans[s.run.generation] == |s.run.segs|
    && forall g :: g in s.plans ==> g <= s.run.generation
  }

  /** A segment row says what happened to the segment. */
  ghost predicate RowsTell(s: System) {
    forall i: nat :: i < |s.run.segs| ==>
      && (s.run.segs[i] == SegmentDone ==> (s.run.generation, i) in s.landed)
      && (s.run.segs[i] == SegmentFailed ==> (s.run.generation, i) in s.gaveUp)
  }

  ghost predicate Tasks(s: System) {
    forall t :: t in s.tasks ==> Earned(s, t)
  }

  ghost predicate Inv(s: System) {
    Planned(s) && RowsTell(s) && Tasks(s)
  }

  /** Later systems know at least as much. */
  ghost predicate Extends(s: System, u: System) {
    && s.run.generation <= u.run.generation && s.landed <= u.landed && s.gaveUp <= u.gaveUp
    && forall g :: g in s.plans ==> g in u.plans && u.plans[g] == s.plans[g]
  }

  lemma EarnedStays(s: System, u: System, t: Task)
    requires Extends(s, u) && Earned(s, t)
    ensures Earned(u, t)
  {
  }

  /** The segments of the plan justify a verdict read from them. */
  lemma VerdictEarned(u: System, state: RunState)
    requires Planned(u) && RowsTell(u)
    ensures Earned(u, Verdict(NextForRun(state, CoverageOf(u.run.segs)), u.run.generation))
  {
    var segs, gen := u.run.segs, u.run.generation;
    VerdictWhen(state, segs);
    if NextForRun(state, CoverageOf(segs)) == Fail {
      var i :| 0 <= i < |segs| && segs[i] == SegmentFailed;
      assert (gen, i) in u.gaveUp;
    }
  }

  lemma InitInv(size: nat)
    ensures Inv(Init(size))
  {
  }

  lemma ActExtends(s: System, t: Task, o: Outcome)
    requires t in s.tasks
    ensures Extends(s, Acted(s, t, o))
    ensures Acted(s, t, o).run.generation == s.run.generation && Acted(s, t, o).plans == s.plans
    ensures |Acted(s, t, o).run.segs| == |s.run.segs|
  {
    hide Coverage.Complete, Coverage.Settled, CoverageOf, NextForRun, NextForRecovery, Unfinished, AllDone;
  }

  lemma ActRecorded(s: System, t: Task, o: Outcome)
    requires t in s.tasks && Planned(s) && RowsTell(s)
    ensures Planned(Acted(s, t, o)) && RowsTell(Acted(s, t, o))
  {
    hide CoverageOf, NextForRun, NextForRecovery, Unfinished, AllDone;
    ActExtends(s, t, o);
  }

  lemma ActEarns(s: System, t: Task, o: Outcome, more: Task)
    requires t in s.tasks && Inv(s) && more in After(s.run, t, o).1
    ensures Earned(Acted(s, t, o), more)
  {
    hide CoverageOf, NextForRun, NextForRecovery, Unfinished;
    var u := Acted(s, t, o);
    ActExtends(s, t, o);
    ActRecorded(s, t, o);
    assert Earned(s, t);
    if t.Claimed? || t.Seen? {
      VerdictEarned(u, if t.Claimed? then s.run.state else t.state);
    }
  }

  lemma ActKeeps(s: System, t: Task, o: Outcome)
    requires t in s.tasks && Inv(s)
    ensures Inv(Acted(s, t, o))
  {
    hide After, Earned, Extends, RowsTell, Planned;
    var u := Acted(s, t, o);
    ActExtends(s, t, o);
    ActRecorded(s, t, o);
    forall x | x in u.tasks ensures Earned(u, x) {
      if x in After(s.run, t, o).1 {
        ActEarns(s, t, o, x);
      } else {
        assert x in s.tasks;
        EarnedStays(s, u, x);
      }
    }
  }

  lemma StartKeeps(s: System, size: nat)
    requires Inv(s)
    ensures Inv(Started(s, size)) && Extends(s, Started(s, size))
  {
    var u := Started(s, size);
    forall x | x in u.tasks ensures Earned(u, x) {
      if x in s.tasks {
        EarnedStays(s, u, x);
      }
    }
  }

  lemma JoinKeeps(s: System, tasks: multiset<Task>)
    requires Inv(s) && forall t :: t in tasks ==> t in s.tasks || Earned(s, t)
    ensures Inv(s.(tasks := tasks)) && Extends(s, s.(tasks := tasks))
  {
    var u := s.(tasks := tasks);
    forall t | t in tasks ensures Earned(u, t) {
      assert Earned(s, t);
      EarnedStays(s, u, t);
    }
  }

  /** Every step keeps the books, and forgets nothing. */
  lemma StepKeeps(s: System, step: Step)
    requires Inv(s) && Enabled(s, step)
    ensures Inv(Apply(s, step)) && Extends(s, Apply(s, step))
  {
    hide Acted, Started, RowsTell, Extends, Tasks;
    match step
    case Act(t, o) =>
      ActKeeps(s, t, o);
      ActExtends(s, t, o);
    case Start(size) =>
      StartKeeps(s, size);
      JoinKeeps(s, s.tasks);
    case _ =>
      JoinKeeps(s, s.tasks);
      JoinKeeps(s, Apply(s, step).tasks);
  }

  lemma {:induction false} RunKeepsInv(s: System, steps: seq<Step>)
    requires Inv(s) && Valid(s, steps)
    ensures Inv(Final(s, steps)) && Extends(s, Final(s, steps))
    decreases |steps|
  {
    hide Inv, Apply;
    if steps != [] {
      StepKeeps(s, steps[0]);
      RunKeepsInv(Apply(s, steps[0]), steps[1..]);
    }
  }
}
