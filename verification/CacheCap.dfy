/** The cap on the byte count, given fills that respect their budget, and what
    each directory outside the trash is charged. */
module CacheCap {
  import opened Common
  import opened Occupancy
  import opened CacheState
  import opened CacheLaws
  import opened CacheSystem
  import opened CacheSafety
  import opened CacheReachable
  import opened CacheRuns

  /** What the cache asks of an extractor: it never has more than the archive
      budget and the byte that shows it was passed on disk, and a fill that
      succeeds reports what it wrote, which is within the budget. */
  ghost predicate WithinBudget(s: System, step: Step)
    requires Enabled(s, step)
  {
    match step
    case Write(t, content) => Occupied(content) <= s.cache.archiveBudget + 1
    case FillReturns(t, size) => size == Occupied(s.cache.disk[s.threads[t].pc.tmp]) <= s.cache.archiveBudget
    case _ => true
  }

  ghost predicate Bounded(pc: Pc, disk: map<Dir, Content>, budget: int) {
    && (TmpOf(pc).Some? && pc.tmp in disk ==> Occupied(disk[pc.tmp]) <= budget + 1)
    && (pc.Filled? || pc.Cleared? || (pc.Settling? && pc.err == None) ==> pc.size == Occupied(pc.pages) <= budget)
  }

  /** A settled entry is charged what its pages take, and none more than the
      budget. */
  ghost predicate Charged(r: Entry, budget: int) {
    0 <= r.size <= budget && (r.done && !r.dead ==> r.size == Occupied(r.pages))
  }

  ghost predicate Capped(s: System) {
    && s.cache.archiveBudget >= 0
    && s.cache.bytes <= s.cache.maxBytes
    && (forall e :: e in s.cache.table ==> Charged(s.cache.table[e], s.cache.archiveBudget))
    && (forall t :: t in s.threads ==> Bounded(s.threads[t].pc, s.cache.disk, s.cache.archiveBudget))
  }

  lemma OwnBound(s: System, step: Step)
    requires Inv(s) && Capped(s) && Local(step) && Enabled(s, step) && WithinBudget(s, step)
    ensures Bounded(Apply(s, step).threads[step.t].pc, Apply(s, step).cache.disk, s.cache.archiveBudget)
  {
    hide Inv;
    InUseIsReady(s, step.t);
    OwnsWellAt(s, step.t);
    assert Bounded(s.threads[step.t].pc, s.cache.disk, s.cache.archiveBudget);
    assert Occupied(map[]) == 0;
  }

  lemma LocalKeepsCap(s: System, step: Step)
    requires Inv(s) && Capped(s) && Local(step) && Enabled(s, step) && WithinBudget(s, step)
    ensures Capped(Apply(s, step))
  {
    hide Inv;
    var s' := Apply(s, step);
    InUseIsReady(s, step.t);
    OwnsWellAt(s, step.t);
    OwnBound(s, step);
    forall u | u in s'.threads ensures Bounded(s'.threads[u].pc, s'.cache.disk, s'.cache.archiveBudget) {
      if u != step.t && TmpOf(s.threads[u].pc).Some? {
        OwnsWellAt(s, u);
        OthersTmp(s, step.t, u);
      }
    }
  }

  lemma OthersTmp(s: System, t: Tid, u: Tid)
    requires Inv(s) && t in s.threads && u in s.threads && t != u
    requires TmpOf(s.threads[u].pc).Some?
    ensures TmpOf(s.threads[t].pc).Some? ==> s.threads[t].pc.tmp != s.threads[u].pc.tmp
  {
    if TmpOf(s.threads[t].pc).Some? {
      assert OwnedBy(s.threads, s.threads[t].pc.tmp, t) && OwnedBy(s.threads, s.threads[u].pc.tmp, u);
    }
  }

  lemma BoundedFrame(pc: Pc, disk: map<Dir, Content>, disk': map<Dir, Content>, budget: int)
    requires Bounded(pc, disk, budget)
    requires TmpOf(pc).Some? && pc.tmp in disk' ==> pc.tmp in disk && disk'[pc.tmp] == disk[pc.tmp]
    ensures Bounded(pc, disk', budget)
  {
  }

  lemma HitKeepsCap(s: System, t: Tid, key: Key)
    requires Capped(s) && t !in s.threads && key in s.cache.index && s.cache.index[key] in s.cache.table
    ensures Capped(System(Hold(s.cache, s.cache.index[key]), s.threads[t := Thread([], Waiting(s.cache.index[key]))]))
  {
  }

  lemma IndexedIsReady(s: System, key: Key)
    requires Inv(s) && key in s.cache.index
    ensures s.cache.ready
  {
  }

  lemma LetKeepsCap(s: System, t: Tid)
    requires Capped(s) && Enabled(s, Let(t))
    ensures Capped(Apply(s, Let(t)))
  {
  }

  lemma FillCharged(s: System, t: Tid, key: Key, id: Id)
    requires Inv(s) && s.cache.ready && Capped(s) && Enabled(s, AcquireFill(t, key, id))
    ensures var s' := Apply(s, AcquireFill(t, key, id));
      forall e :: e in s'.cache.table ==> Charged(s'.cache.table[e], s'.cache.archiveBudget)
  {
    hide CacheInv, SingleFlight, Counted, Owned, Admit, AllEvictable, Victims, DropAll;
    var c := s.cache;
    UnsettledAreHeld(s);
    AdmissionSuccess(c, c.archiveBudget);
    var vs, s' := Admitted(c, c.archiveBudget), Apply(s, AcquireFill(t, key, id));
    forall e | e in s'.cache.table ensures Charged(s'.cache.table[e], s'.cache.archiveBudget) {
      if e in c.table {
        assert Charged(c.table[e], c.archiveBudget);
        assert e in vs || e !in vs;
      }
    }
  }

  /** Room was found for the whole reservation, so charging it stays within the
      cap. */
  lemma FillKeepsCap(s: System, t: Tid, key: Key, id: Id)
    requires Inv(s) && s.cache.ready && Capped(s) && Enabled(s, AcquireFill(t, key, id))
    ensures Capped(Apply(s, AcquireFill(t, key, id)))
  {
    hide CacheInv, SingleFlight, Counted, Owned, Admit, AllEvictable, Victims, DropAll;
    var c := s.cache;
    UnsettledAreHeld(s);
    AdmissionSuccess(c, c.archiveBudget);
    var c' := Admit(c, c.archiveBudget).0;
    var s' := Apply(s, AcquireFill(t, key, id));
    FillCharged(s, t, key, id);
    forall u | u in s'.threads ensures Bounded(s'.threads[u].pc, s'.cache.disk, s'.cache.archiveBudget) {
      if u != t {
        OwnsWellAt(s, u);
        assert Bounded(s.threads[u].pc, c.disk, c.archiveBudget);
        BoundedFrame(s.threads[u].pc, c.disk, c'.disk, c.archiveBudget);
      }
    }
  }

  /** The reservation can only shrink, so settling has nothing to evict. */
  lemma SettleSuccessKeepsCap(s: System, t: Tid)
    requires Inv(s) && s.cache.ready && Capped(s) && Settleable(s, t) && Known(s.cache.lru, s.cache.table)
    requires s.threads[t].pc.err == None
    ensures AfterSettle(s, t) == Recorded(s, t) && Capped(Recorded(s, t))
  {
    hide Inv, FilledBy, Owned, Served, OwnsWell, Victims, DropAll;
    var pc := s.threads[t].pc;
    FillerFacts(s, t);
    assert Bounded(pc, s.cache.disk, s.cache.archiveBudget);
    assert Record(s.cache, pc.e, pc.dir, pc.pages, pc.size, pc.err).bytes <= s.cache.maxBytes;
  }

  lemma SettleFailureKeepsCap(s: System, t: Tid)
    requires Inv(s) && s.cache.ready && Capped(s) && Settleable(s, t) && Known(s.cache.lru, s.cache.table)
    requires s.threads[t].pc.err.Some?
    ensures Capped(AfterSettle(s, t))
  {
    hide Inv, FilledBy, Owned, Served, CacheInv, Settle;
    var pc := s.threads[t].pc;
    FillerFacts(s, t);
    OwnsWellAt(s, t);
    CacheIsSound(s);
    FailedFillLeavesNothing(s.cache, pc.e, pc.err.value);
  }

  lemma CacheIsSound(s: System)
    requires Inv(s) && s.cache.ready
    ensures CacheInv(s.cache)
  {
  }

  lemma StepKeepsCap(s: System, step: Step)
    requires Inv(s) && Capped(s) && Enabled(s, step) && WithinBudget(s, step)
    ensures Capped(Apply(s, step))
  {
    hide Inv, Capped, Admit, Settle;
    if Local(step) {
      LocalKeepsCap(s, step);
    } else {
      match step
      case Touch => TouchKeepsCap(s);
      case TryHit(t, key) => IndexedIsReady(s, key); HitKeepsCap(s, t, key);
      case AcquireHit(t, key) => IndexedIsReady(s, key); HitKeepsCap(s, t, key);
      case AcquireFill(t, key, id) =>
        TouchKeepsCap(s);
        InitKeeps(s);
        FillKeepsCap(s.(cache := Init(s.cache)), t, key, id);
      case Settled(t) =>
        InUseIsReady(s, t);
        if s.threads[t].pc.err == None {
          SettleSuccessKeepsCap(s, t);
        } else {
          SettleFailureKeepsCap(s, t);
        }
      case Let(t) => LetKeepsCap(s, t);
    }
  }

  lemma TouchKeepsCap(s: System)
    requires Inv(s) && Capped(s)
    ensures Capped(s.(cache := Init(s.cache)))
  {
  }

  /** A run whose fills respect their budget. */
  ghost predicate BudgetedRun(trace: seq<System>, steps: seq<Step>) {
    Run(trace, steps) && forall i :: 0 <= i < |steps| ==> WithinBudget(trace[i], steps[i])
  }

  lemma {:induction false} RunKeepsCap(trace: seq<System>, steps: seq<Step>, i: nat)
    requires BudgetedRun(trace, steps) && i <= |steps|
    ensures Capped(trace[i])
  {
    if i > 0 {
      RunKeepsCap(trace, steps, i - 1);
      RunKeepsInv(trace, steps, i - 1);
      StepKeepsCap(trace[i - 1], steps[i - 1]);
    }
  }
}
