/** The states of a narration run, and the two rules that decide what follows
    from its segments. */
module AudiobookRun {
  import opened Common

  datatype RunState = Pending | Running | Ready | Failed | Canceled

  datatype SegmentState = SegmentPending | SegmentRunning | SegmentRetrying | SegmentDone | SegmentFailed

  const LiveStates: seq<RunState> := [Pending, Running]
  const TerminalStates: seq<RunState> := [Ready, Failed, Canceled]
  const SealedStates: seq<RunState> := [Ready, Canceled]

  predicate Terminal(s: RunState) {
    s in TerminalStates
  }

  predicate Sealed(s: RunState) {
    s in SealedStates
  }

  datatype Coverage = Coverage(total: nat, done: nat, failed: nat) {
    predicate Complete() {
      total > 0 && done == total
    }

    predicate Settled() {
      total > 0 && done + failed == total
    }
  }

  function Count(segs: seq<SegmentState>, s: SegmentState): nat {
    if segs == [] then 0 else (if segs[0] == s then 1 else 0) + Count(segs[1..], s)
  }

  function CoverageOf(segs: seq<SegmentState>): Coverage {
    Coverage(|segs|, Count(segs, SegmentDone), Count(segs, SegmentFailed))
  }

  datatype Transition = Transition(to: RunState, from: seq<RunState>) {
    predicate Admits(s: RunState) {
      s in from
    }
  }

  datatype Next = Nothing | Finalize | Fail

  function NextForRun(s: RunState, c: Coverage): Next {
    if Terminal(s) then Nothing
    else if c.Complete() then Finalize
    else if c.Settled() && c.failed > 0 then Fail
    else Nothing
  }

  function NextForRecovery(s: RunState, c: Coverage): Next {
    if Sealed(s) then Nothing else if c.Complete() then Finalize else Nothing
  }

  // ------------------------------------------------------------------
  // What the counts say about the segments
  // ------------------------------------------------------------------

  ghost predicate All(segs: seq<SegmentState>, s: SegmentState) {
    forall i :: 0 <= i < |segs| ==> segs[i] == s
  }

  ghost predicate SettledSegments(segs: seq<SegmentState>) {
    forall i :: 0 <= i < |segs| ==> segs[i] == SegmentDone || segs[i] == SegmentFailed
  }

  lemma {:induction false} CountAll(segs: seq<SegmentState>, s: SegmentState)
    ensures Count(segs, s) <= |segs|
    ensures Count(segs, s) == |segs| <==> All(segs, s)
    ensures Count(segs, s) > 0 <==> s in segs
  {
    if segs != [] {
      CountAll(segs[1..], s);
      if All(segs[1..], s) && segs[0] == s {
        assert forall i :: 0 < i < |segs| ==> segs[i] == segs[1..][i - 1];
      }
      if All(segs, s) {
        assert forall i :: 0 <= i < |segs| - 1 ==> segs[1..][i] == segs[i + 1];
      }
    }
  }

  lemma {:induction false} CountSettled(segs: seq<SegmentState>)
    ensures Count(segs, SegmentDone) + Count(segs, SegmentFailed) <= |segs|
    ensures Count(segs, SegmentDone) + Count(segs, SegmentFailed) == |segs| <==> SettledSegments(segs)
  {
    if segs != [] {
      CountSettled(segs[1..]);
      if SettledSegments(segs[1..]) && segs[0] in [SegmentDone, SegmentFailed] {
        assert forall i :: 0 < i < |segs| ==> segs[i] == segs[1..][i - 1];
      }
      if SettledSegments(segs) {
        assert forall i :: 0 <= i < |segs| - 1 ==> segs[1..][i] == segs[i + 1];
      }
    }
  }

  /** A run concludes by itself exactly when it is live and no segment is
      pending, running or retrying: into a file when all landed, into a failure
      when one gave up. */
  lemma VerdictWhen(s: RunState, segs: seq<SegmentState>)
    ensures NextForRun(s, CoverageOf(segs)) == Finalize <==>
      s in LiveStates && segs != [] && All(segs, SegmentDone)
    ensures NextForRun(s, CoverageOf(segs)) == Fail <==>
      s in LiveStates && SettledSegments(segs) && SegmentFailed in segs
    ensures NextForRun(s, CoverageOf(segs)) != Nothing <==>
      s in LiveStates && segs != [] && SettledSegments(segs)
  {
    CountAll(segs, SegmentDone);
    CountAll(segs, SegmentFailed);
    CountSettled(segs);
  }

  /** An asked-for recovery finalizes exactly the runs that are not sealed and
      whose segments all landed; it differs from the automatic rule only on a
      failed run, and in never failing one. */
  lemma RecoveryWhen(s: RunState, segs: seq<SegmentState>)
    ensures NextForRecovery(s, CoverageOf(segs)) == Finalize <==>
      s !in SealedStates && segs != [] && All(segs, SegmentDone)
    ensures NextForRecovery(s, CoverageOf(segs)) != NextForRun(s, CoverageOf(segs)) <==>
      (s == Failed && segs != [] && All(segs, SegmentDone))
      || (s in LiveStates && SettledSegments(segs) && SegmentFailed in segs)
  {
    VerdictWhen(s, segs);
    CountAll(segs, SegmentDone);
  }
}
