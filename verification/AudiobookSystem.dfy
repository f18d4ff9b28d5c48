/** Everything that acts on one book's narration: workers, status reads, the
    finalize job and the user, each as the steps between two of its reads or
    writes of the run. Jobs may be lost, delivered late or delivered twice. */
module AudiobookSystem {
  import opened Common
  import opened AudiobookRun

  /** The run row and its segment rows. */
  datatype Run = Run(state: RunState, generation: nat, segs: seq<SegmentState>)

  /** Somebody part way through an operation, with what they remember. The
      generation of a verdict or an assembly says which plan it was read from;
      the source does not carry it. */
  datatype Task =
    | Job(seg: nat, gen: nat)
    | Begun(seg: nat, gen: nat)
    | Claimed(seg: nat, gen: nat)
    | Verdict(next: Next, gen: nat)
    | Seen(state: RunState)
    | FinalizeJob
    | FinalizeBegun
    | Assembling(gen: nat)
    | Canceling
    | RetrySeen(state: RunState, gen: nat)
    | RetryListing(gen: nat)
    | Promoting(from: seq<RunState>, left: seq<nat>, gen: nat)
    | Dispatching(left: seq<nat>, gen: nat)

  /** How the part of a step that the run does not decide turned out. */
  datatype Outcome = Succeeds | Fails | WillRetry

  const MarkFailed := Transition(Failed, [Pending, Running, Ready, Canceled])
  const MarkReady := Transition(Ready, LiveStates)
  const MarkCanceled := Transition(Canceled, LiveStates)

  /** The guarded write that moves a run. */
  function Move(r: Run, t: Transition): Run {
    if t.Admits(r.state) then r.(state := t.to) else r
  }

  /** A claim addresses a segment of this generation's plan. */
  predicate Addresses(r: Run, seg: nat, gen: nat) {
    gen == r.generation && seg < |r.segs|
  }

  function Recorded(o: Outcome): SegmentState {
    match o
    case Succeeds => SegmentDone
    case Fails => SegmentFailed
    case WillRetry => SegmentRetrying
  }

  function Unfinished(segs: seq<SegmentState>): (left: seq<nat>)
    ensures forall i :: i in left ==> i < |segs| && segs[i] != SegmentDone
    ensures forall i :: 0 <= i < |segs| && segs[i] != SegmentDone ==> i in left
  {
    if segs == [] then []
    else
      var n := |segs| - 1;
      Unfinished(segs[..n]) + (if segs[n] != SegmentDone then [n] else [])
  }

  predicate AllDone(segs: seq<SegmentState>) {
    forall i :: 0 <= i < |segs| ==> segs[i] == SegmentDone
  }

  /** One step of somebody under way: the run after it, and who is then under way
      instead. */
  function After(r: Run, t: Task, o: Outcome): (Run, seq<Task>) {
    match t
    case Job(seg, gen) => (r, if Sealed(r.state) then [] else [Begun(seg, gen)])
    case Begun(seg, gen) =>
      if Addresses(r, seg, gen) && r.segs[seg] != SegmentDone then
        (r.(segs := r.segs[seg := SegmentRunning]), [Claimed(seg, gen)])
      else (r, [])
    case Claimed(seg, gen) =>
      if Addresses(r, seg, gen) then
        var segs := r.segs[seg := Recorded(o)];
        (r.(segs := segs), [Verdict(NextForRun(r.state, CoverageOf(segs)), gen)])
      else (r, [])
    case Verdict(next, _) =>
      (match next
       case Finalize => (r, if o == Succeeds then [FinalizeJob] else [])
       case Fail => (Move(r, MarkFailed), [])
       case Nothing => (r, []))
    case Seen(state) => (r, [Verdict(NextForRun(state, CoverageOf(r.segs)), r.generation)])
    case FinalizeJob => (r, if Sealed(r.state) then [] else [FinalizeBegun])
    case FinalizeBegun =>
      if o == WillRetry then (r, [FinalizeJob])
      else if r.segs == [] then (Move(r, MarkFailed), [])
      else if AllDone(r.segs) then (r, [Assembling(r.generation)])
      else (r, [])
    case Assembling(_) =>
      if o == WillRetry then (r, [FinalizeJob])
      else (Move(r, if o == Succeeds then MarkReady else MarkFailed), [])
    case Canceling => (Move(r, MarkCanceled), [])
    case RetrySeen(state, gen) =>
      if NextForRecovery(state, CoverageOf(r.segs)) == Finalize then
        (r, if o == Succeeds then [FinalizeJob] else [])
      else if state == Running then (r, [])
      else (r, [RetryListing(gen)])
    case RetryListing(gen) =>
      var left := Unfinished(r.segs);
      (r, if left == [] then [] else [Promoting([Pending, Failed], left, gen)])
    case Promoting(from, left, gen) => (Move(r, Transition(Running, from)), [Dispatching(left, gen)])
    case Dispatching(left, gen) =>
      if left == [] then (r, [])
      else if o == Succeeds then (r, [Job(left[0], gen), Dispatching(left[1..], gen)])
      else (Move(r, MarkFailed), [])
  }

  /** The run, who is acting on it, and what has happened so far: the size of
      each generation's plan, and the segments that ever landed or gave up. */
  datatype System = System(run: Run, tasks: multiset<Task>,
                           plans: map<nat, nat>, landed: set<(nat, nat)>, gaveUp: set<(nat, nat)>)

  datatype Step =
    | Start(size: nat)
    | PressCancel
    | PressRetry
    | StatusRead
    | Redeliver(seg: nat, gen: nat)
    | Lose(task: Task)
    | Act(task: Task, outcome: Outcome)

  predicate Enabled(s: System, step: Step) {
    match step
    case Lose(t) => t in s.tasks
    case Act(t, _) => t in s.tasks
    case Redeliver(seg, gen) => gen in s.plans && seg < s.plans[gen]
    case _ => true
  }

  function Plan(n: nat): (segs: seq<SegmentState>)
    ensures |segs| == n && forall i :: 0 <= i < n ==> segs[i] == SegmentPending
  {
    seq(n, i => SegmentPending)
  }

  function Upto(n: nat): (left: seq<nat>)
    ensures |left| == n && forall i :: 0 <= i < n ==> left[i] == i
  {
    seq(n, i => i)
  }

  function Started(s: System, size: nat): System {
    var gen := s.run.generation + 1;
    s.(run := Run(Pending, gen, Plan(size)),
       tasks := s.tasks + multiset{Promoting([Pending], Upto(size), gen)},
       plans := s.plans[gen := size])
  }

  function Acted(s: System, t: Task, o: Outcome): System
    requires t in s.tasks
  {
    var (run, more) := After(s.run, t, o);
    var records := t.Claimed? && Addresses(s.run, t.seg, t.gen);
    s.(run := run,
       tasks := s.tasks - multiset{t} + multiset(more),
       landed := if records && o == Succeeds then s.landed + {(t.gen, t.seg)} else s.landed,
       gaveUp := if records && o == Fails then s.gaveUp + {(t.gen, t.seg)} else s.gaveUp)
  }

  function Apply(s: System, step: Step): System
    requires Enabled(s, step)
  {
    match step
    case Start(size) => if Terminal(s.run.state) then Started(s, size) else s
    case PressCancel => if Terminal(s.run.state) then s else s.(tasks := s.tasks + multiset{Canceling})
    case PressRetry => s.(tasks := s.tasks + multiset{RetrySeen(s.run.state, s.run.generation)})
    case StatusRead => s.(tasks := s.tasks + multiset{Seen(s.run.state)})
    case Redeliver(seg, gen) => s.(tasks := s.tasks + multiset{Job(seg, gen)})
    case Lose(t) => s.(tasks := s.tasks - multiset{t})
    case Act(t, o) => Acted(s, t, o)
  }

  /** A book's first run has just been planned. */
  function Init(size: nat): System {
    System(Run(Pending, 1, Plan(size)), multiset{Promoting([Pending], Upto(size), 1)}, map[1 := size], {}, {})
  }

  /** The steps can be taken one after another. */
  ghost predicate Valid(s: System, steps: seq<Step>)
    decreases |steps|
  {
    steps == [] || (Enabled(s, steps[0]) && Valid(Apply(s, steps[0]), steps[1..]))
  }

  ghost function Final(s: System, steps: seq<Step>): System
    requires Valid(s, steps)
    decreases |steps|
  {
    if steps == [] then s else Final(Apply(s, steps[0]), steps[1..])
  }
}
