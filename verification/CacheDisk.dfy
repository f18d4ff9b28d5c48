/** Everything under the cache's root, trash on its way out included, against
    the byte count and the cap. */
module CacheDisk {
  import opened Common
  import opened Occupancy
  import opened CacheState
  import opened CacheLaws
  import opened CacheSystem
  import opened CacheSafety
  import opened CacheReachable
  import opened CacheRuns
  import opened CacheCap

  // ------------------------------------------------------------------
  // Trash on its way out
  // ------------------------------------------------------------------

  function Members(ds: seq<Dir>): set<Dir> {
    set d | d in ds
  }

  /** Only a call that has just reserved room has trash to unlink, and less
      than two archive budgets of it. */
  ghost predicate Light(th: Thread, disk: map<Dir, Content>, budget: int) {
    th.trash != [] ==> th.pc.Staging? && Weight(Members(th.trash), disk) < 2 * budget
  }

  ghost predicate Lean(s: System) {
    forall t :: t in s.threads ==> Light(s.threads[t], s.cache.disk, s.cache.archiveBudget)
  }

  /** A call keeps its place and some of its trash, and that trash is where it
      was. */
  ghost predicate Lighter(th: Thread, disk: map<Dir, Content>, th': Thread, disk': map<Dir, Content>) {
    th'.trash != [] ==>
      && th'.pc == th.pc && Members(th'.trash) <= Members(th.trash)
      && forall d :: d in th'.trash ==> d in disk && d in disk' && disk'[d] == disk[d]
  }

  lemma LightFrame(th: Thread, disk: map<Dir, Content>, th': Thread, disk': map<Dir, Content>, budget: int)
    requires Light(th, disk, budget) && Lighter(th, disk, th', disk')
    ensures Light(th', disk', budget)
  {
    if th'.trash != [] {
      assert th'.trash[0] in Members(th.trash);
      WeightFrame(Members(th'.trash), disk, disk');
      WeightWithin(Members(th'.trash), Members(th.trash), disk);
    }
  }

  /** One call's trash is no directory another call may touch. */
  lemma TrashApart(s: System, t: Tid, u: Tid)
    requires Inv(s) && s.cache.ready && t in s.threads && u in s.threads && t != u
    ensures forall d :: d in s.threads[u].trash ==> d.Trash? && d in s.cache.disk && d !in s.threads[t].trash
    ensures TmpOf(s.threads[t].pc).Some? ==> s.threads[t].pc.tmp.Staged?
  {
    hide CacheInv, Counted, SingleFlight;
    OwnsWellAt(s, u);
    OwnsWellAt(s, t);
    forall d | d in s.threads[u].trash ensures d !in s.threads[t].trash {
      assert OwnedBy(s.threads, d, u);
      assert d in s.threads[t].trash ==> OwnedBy(s.threads, d, t);
    }
  }

  lemma OthersStayLight(s: System, step: Step, u: Tid)
    requires Inv(s) && s.cache.ready && Local(step) && Enabled(s, step)
    requires u in s.threads && u != step.t
    ensures Lighter(s.threads[u], s.cache.disk, s.threads[u], Apply(s, step).cache.disk)
  {
    hide Inv;
    TrashApart(s, step.t, u);
  }

  lemma OwnStaysLight(s: System, step: Step)
    requires Inv(s) && s.cache.ready && Local(step) && Enabled(s, step)
    ensures step.t in s.threads && step.t in Apply(s, step).threads
    ensures Lighter(s.threads[step.t], s.cache.disk, Apply(s, step).threads[step.t], Apply(s, step).cache.disk)
  {
    hide Inv;
    OwnsWellAt(s, step.t);
    var trash := s.threads[step.t].trash;
    if step.Unlink? {
      assert trash == [trash[0]] + trash[1..];
      assert trash[0] !in trash[1..];
    }
  }

  lemma LocalStaysLean(s: System, step: Step)
    requires Inv(s) && s.cache.ready && Lean(s) && Local(step) && Enabled(s, step)
    ensures Lean(Apply(s, step))
  {
    hide Inv, Light, Lighter;
    var s' := Apply(s, step);
    OwnStaysLight(s, step);
    forall u | u in s'.threads ensures Light(s'.threads[u], s'.cache.disk, s'.cache.archiveBudget) {
      if u != step.t {
        OthersStayLight(s, step, u);
      }
      LightFrame(s.threads[u], s.cache.disk, s'.threads[u], s'.cache.disk, s.cache.archiveBudget);
    }
  }

  // ------------------------------------------------------------------
  // What an admission throws out
  // ------------------------------------------------------------------

  ghost predicate AllCharged(c: Cache<Id>) {
    c.archiveBudget >= 0 && forall e :: e in c.table ==> Charged(c.table[e], c.archiveBudget)
  }

  /** An evicted directory weighs what its entry was charged. */
  lemma {:induction false} DropAllWeighs(c: Cache<Id>, vs: seq<Id>)
    requires CacheInv(c) && AllEvictable(c, vs) && AllCharged(c)
    ensures Weight(TrashSet(c.trashSeq, |vs|), DropAll(c, vs).0.disk) == SizeSum(vs, c.table)
    decreases |vs|
  {
    hide Books, Weight, Drop;
    if vs == [] {
      assert TrashSet(c.trashSeq, 0) == {};
      NothingWeighs(DropAll(c, vs).0.disk);
    } else {
      var v, rest, d := vs[0], vs[1..], Trash(c.trashSeq + 1);
      var c1, disk' := Drop(c, v).0, DropAll(c, vs).0.disk;
      DropAllStep(c, vs);
      DropMovesDirectory(c, v);
      assert Evictable(c, v) && Homed(c.table[v], c.disk, c.archiveBudget);
      assert v !in rest;
      SumFrame(rest, c.table, c1.table);
      DropAllWeighs(c1, rest);
      DropAllMoves(c1, rest);
      assert d in disk' && disk'[d] == c.table[v].pages;
      TrashSetStep(c.trashSeq, |vs|);
      WeightAdd(TrashSet(c1.trashSeq, |rest|), disk', d);
      assert TrashSet(c.trashSeq, |vs|) == TrashSet(c1.trashSeq, |rest|) + {d};
    }
  }

  lemma NothingWeighs(disk: map<Dir, Content>)
    ensures Weight({}, disk) == 0
  {
  }

  lemma VictimsAreLight(c: Cache<Id>)
    requires CacheInv(c) && FillsHeld(c) && AllCharged(c) && c.bytes <= c.maxBytes
    ensures var vs := Admitted(c, c.archiveBudget);
      vs != [] ==> SizeSum(vs, c.table) < 2 * c.archiveBudget
  {
    hide CacheInv, FillsHeld;
    assert Known(c.lru, c.table) by { ListIsKnown(c); }
    var vs := Admitted(c, c.archiveBudget);
    VictimsCover(c.lru, c.table, c.bytes + c.archiveBudget - c.maxBytes);
    if vs != [] {
      var n := |vs| - 1;
      assert vs == vs[..n] + [vs[n]];
      SumConcat(vs[..n], [vs[n]], c.table);
      assert Charged(c.table[vs[n]], c.archiveBudget);
    }
  }

  lemma ListIsKnown(c: Cache<Id>)
    requires CacheInv(c)
    ensures Known(c.lru, c.table)
  {
  }

  lemma CappedMeans(s: System)
    requires Capped(s)
    ensures AllCharged(s.cache) && s.cache.bytes <= s.cache.maxBytes
  {
  }

  /** What a call that reserves room has to unlink. */
  lemma FillerIsLight(s: System, t: Tid, key: Key, id: Id)
    requires Inv(s) && s.cache.ready && Capped(s) && Enabled(s, AcquireFill(t, key, id))
    ensures var s' := Apply(s, AcquireFill(t, key, id));
      t in s'.threads && Light(s'.threads[t], s'.cache.disk, s.cache.archiveBudget)
  {
    hide CacheInv, SingleFlight, Counted, Owned, Capped, Admit, AllEvictable, Victims, DropAll, IndexEvicted;
    var c := s.cache;
    var vs := Admitted(c, c.archiveBudget);
    CappedMeans(s);
    UnsettledAreHeld(s);
    VictimsAreEvictable(c, c.bytes + c.archiveBudget - c.maxBytes);
    AdmitDrops(c, c.archiveBudget);
    EvictionEffect(c, vs);
    DropAllWeighs(c, vs);
    VictimsAreLight(c);
    TrashFromSet(c.trashSeq, |vs|);
    assert Members(TrashFrom(c.trashSeq, |vs|)) == TrashSet(c.trashSeq, |vs|);
    assert vs == [] ==> TrashFrom(c.trashSeq, |vs|) == [];
  }

  lemma FillStaysLean(s: System, t: Tid, key: Key, id: Id)
    requires Inv(s) && s.cache.ready && Capped(s) && Lean(s) && Enabled(s, AcquireFill(t, key, id))
    ensures Lean(Apply(s, AcquireFill(t, key, id)))
  {
    hide Inv, Admit, Light, Capped, DropAll, IndexEvicted;
    var s' := Apply(s, AcquireFill(t, key, id));
    FillerIsLight(s, t, key, id);
    CappedMeans(s);
    AcquiredDisk(s);
    forall u | u in s'.threads ensures Light(s'.threads[u], s'.cache.disk, s'.cache.archiveBudget) {
      if u != t {
        OwnsWellAt(s, u);
        LightFrame(s.threads[u], s.cache.disk, s.threads[u], s'.cache.disk, s.cache.archiveBudget);
      }
    }
  }

  /** Trash that was on disk before an admission is there after it. */
  lemma AcquiredDisk(s: System)
    requires Inv(s) && s.cache.ready && Known(s.cache.lru, s.cache.table)
    requires Admit(s.cache, s.cache.archiveBudget).2 && s.cache.archiveBudget >= 0
    ensures var c, c' := s.cache, Admit(s.cache, s.cache.archiveBudget).0;
      && c'.archiveBudget == c.archiveBudget
      && forall d :: d in c.disk && d.Trash? ==> d in c'.disk && c'.disk[d] == c.disk[d]
  {
    hide CacheInv, SingleFlight, Counted, Owned, Admit;
    UnsettledAreHeld(s);
    AdmissionSuccess(s.cache, s.cache.archiveBudget);
  }

  // ------------------------------------------------------------------
  // Every step
  // ------------------------------------------------------------------

  lemma QuietStepStaysLean(s: System, s': System)
    requires Lean(s) && s'.cache.disk == s.cache.disk && s'.cache.archiveBudget == s.cache.archiveBudget
    requires forall t :: t in s'.threads ==> s'.threads[t].trash == [] || (t in s.threads && s'.threads[t] == s.threads[t])
    ensures Lean(s')
  {
  }

  /** Neither outcome of a fill moves anything on disk. */
  lemma SettledDisk(s: System, t: Tid)
    requires Inv(s) && s.cache.ready && Capped(s) && Enabled(s, Settled(t))
    ensures var s' := Apply(s, Settled(t));
      && s'.cache.disk == s.cache.disk && s'.cache.archiveBudget == s.cache.archiveBudget
      && s'.threads.Keys == s.threads.Keys && s'.threads[t].trash == []
      && forall u :: u in s.threads && u != t ==> s'.threads[u] == s.threads[u]
  {
    hide Inv, Capped, Settle;
    var pc := s.threads[t].pc;
    if pc.err == None {
      SettleSuccessKeepsCap(s, t);
    } else {
      FillerFacts(s, t);
      OwnsWellAt(s, t);
      CacheIsSound(s);
      FailedFillLeavesNothing(s.cache, pc.e, pc.err.value);
    }
  }

  lemma SettledStaysLean(s: System, t: Tid)
    requires Inv(s) && s.cache.ready && Capped(s) && Lean(s) && Enabled(s, Settled(t))
    ensures Lean(Apply(s, Settled(t)))
  {
    hide Inv, Capped, Settle, Light, Apply, Lean;
    SettledDisk(s, t);
    QuietStepStaysLean(s, Apply(s, Settled(t)));
  }

  lemma StepStaysLean(s: System, step: Step)
    requires Inv(s) && s.cache.ready && Capped(s) && Lean(s) && Enabled(s, step)
    ensures Lean(Apply(s, step))
  {
    hide Inv, Capped, Lean, Admit, Settle, Light;
    if Local(step) {
      LocalStaysLean(s, step);
    } else if step.AcquireFill? {
      FillStaysLean(s, step.t, step.key, step.id);
    } else if step.Settled? {
      SettledStaysLean(s, step.t);
    } else {
      QuietStepStaysLean(s, Apply(s, step));
    }
  }

  /** A cold cache may as well have made its root already. */
  lemma WarmStep(s: System, step: Step)
    requires Inv(s) && Enabled(s, step)
    ensures var w := s.(cache := Init(s.cache)); Enabled(w, step) && Apply(w, step) == Apply(s, step)
  {
    hide Admit, Settle;
  }

  lemma {:induction false} RunStaysLean(trace: seq<System>, steps: seq<Step>, i: nat)
    requires BudgetedRun(trace, steps) && i <= |steps|
    ensures Lean(trace[i])
  {
    if i > 0 {
      hide Inv, Capped, Enabled, Apply;
      var s := trace[i - 1];
      RunStaysLean(trace, steps, i - 1);
      RunKeepsInv(trace, steps, i - 1);
      RunKeepsCap(trace, steps, i - 1);
      WarmLean(s, steps[i - 1]);
    }
  }

  lemma WarmLean(s: System, step: Step)
    requires Inv(s) && Capped(s) && Lean(s) && Enabled(s, step)
    ensures Lean(Apply(s, step))
  {
    hide Capped, Admit, Settle, Enabled, Apply;
    var w := s.(cache := Init(s.cache));
    InitKeeps(s);
    TouchKeepsCap(s);
    if s.cache.ready {
      assert w == s;
    } else {
      WarmStep(s, step);
    }
    StepStaysLean(w, step);
  }

  // ------------------------------------------------------------------
  // What each listed entry is charged for
  // ------------------------------------------------------------------

  ghost predicate Listed(s: System, e: Id) {
    Inv(s) && s.cache.ready && e in s.cache.lru && e in s.cache.table
  }

  /** The call that fills an entry. */
  ghost function Filler(s: System, e: Id): (t: Tid)
    requires Listed(s, e) && !s.cache.table[e].done
    ensures FilledBy(s.threads, e, t)
  {
    var t :| FilledBy(s.threads, e, t); t
  }

  /** Where an entry's pages are or are coming to be. */
  ghost function Home(s: System, e: Id): set<Dir>
    requires Listed(s, e)
  {
    if s.cache.table[e].done then {Published(s.cache.table[e].key)}
    else
      var pc := s.threads[Filler(s, e)].pc;
      if pc.Settling? then (if pc.dir.Some? then {pc.dir.value} else {})
      else if TmpOf(pc).Some? then {pc.tmp} else {}
  }

  /** What its filler has yet to unlink. */
  ghost function Debris(s: System, e: Id): set<Dir>
    requires Listed(s, e)
  {
    if s.cache.table[e].done then {} else Members(s.threads[Filler(s, e)].trash)
  }

  /** By how much the disk may hold more on an entry's account than the entry
      is charged: a byte for a running fill, or, before it begins, what it threw
      out beyond its own reservation. */
  ghost function Slack(s: System, e: Id): int
    requires Listed(s, e)
  {
    if s.cache.table[e].done then 0 else if Debris(s, e) == {} then 1 else s.cache.archiveBudget - 1
  }

  /** Every directory is the home of a listed entry or its filler's debris, and
      only trash is debris. */
  lemma EveryDirectoryHasAHome(s: System, d: Dir) returns (e: Id)
    requires Inv(s) && s.cache.ready && Lean(s) && d in s.cache.disk
    ensures Listed(s, e) && d in (if d.Trash? then Debris(s, e) else Home(s, e))
  {
    hide CacheInv, Counted, OwnsWell, Weight;
    if Served(s.cache, d) {
      e := s.cache.index[d.key];
      IndexedIsListed(s, d.key);
      ServedKey(s, d);
    } else {
      var t :| OwnedBy(s.threads, d, t);
      OwnerFills(s, t, d);
      FillerFacts(s, t);
      e := s.threads[t].pc.e;
      IndexedIsListed(s, s.cache.table[e].key);
      assert FilledBy(s.threads, e, t);
      assert Filler(s, e) == t;
      OwnsByKind(s, t, d);
    }
  }

  lemma ServedKey(s: System, d: Dir)
    requires Inv(s) && s.cache.ready && Served(s.cache, d)
    ensures s.cache.table[s.cache.index[d.key]].key == d.key
  {
    assert s.cache.index[d.key] in s.cache.lru;
  }

  lemma OwnerFills(s: System, t: Tid, d: Dir)
    requires Lean(s) && OwnedBy(s.threads, d, t)
    ensures IsFill(s.threads[t].pc)
  {
    assert Light(s.threads[t], s.cache.disk, s.cache.archiveBudget);
  }

  lemma OwnsByKind(s: System, t: Tid, d: Dir)
    requires Inv(s) && s.cache.ready && OwnedBy(s.threads, d, t)
    ensures d.Trash? <==> d in s.threads[t].trash
  {
    OwnsWellAt(s, t);
  }

  /** Per entry: pages and debris together. */
  lemma AccountHolds(s: System, e: Id)
    requires Listed(s, e) && Capped(s) && Lean(s)
    ensures Weight(Home(s, e), s.cache.disk) <= s.cache.table[e].size + (if s.cache.table[e].done then 0 else 1)
    ensures Weight(Home(s, e) + Debris(s, e), s.cache.disk) <= s.cache.table[e].size + Slack(s, e)
  {
    hide CacheInv, Counted, Owned, Weight, Occupied;
    NothingWeighs(s.cache.disk);
    EntryFacts(s, e);
    if s.cache.table[e].done {
      WeightOne(Published(s.cache.table[e].key), s.cache.disk);
      assert Home(s, e) + Debris(s, e) == Home(s, e);
    } else {
      var t := Filler(s, e);
      var th := s.threads[t];
      OwnsWellAt(s, t);
      assert Bounded(th.pc, s.cache.disk, s.cache.archiveBudget);
      assert Light(th, s.cache.disk, s.cache.archiveBudget);
      if th.trash == [] {
        assert Home(s, e) + Debris(s, e) == Home(s, e);
        if TmpOf(th.pc).Some? {
          WeightOne(th.pc.tmp, s.cache.disk);
        } else if th.pc.Settling? && th.pc.dir.Some? {
          WeightOne(th.pc.dir.value, s.cache.disk);
        }
      } else {
        assert th.trash[0] in Debris(s, e);
        assert Home(s, e) + Debris(s, e) == Members(th.trash);
      }
    }
  }

  lemma EntryFacts(s: System, e: Id)
    requires Listed(s, e) && Capped(s)
    ensures var r := s.cache.table[e];
      if r.done then OccupiedBy(Published(r.key), s.cache.disk) == r.size else r.size == s.cache.archiveBudget
  {
    hide SingleFlight, Owned, Counted, Occupied;
    assert Homed(s.cache.table[e], s.cache.disk, s.cache.archiveBudget);
    assert Charged(s.cache.table[e], s.cache.archiveBudget);
  }

  // ------------------------------------------------------------------
  // The whole disk
  // ------------------------------------------------------------------

  ghost predicate AllListed(s: System, es: seq<Id>) {
    forall e :: e in es ==> Listed(s, e)
  }

  /** The entries being filled. */
  ghost function Unsettled(s: System, es: seq<Id>): nat
    requires AllListed(s, es)
  {
    if es == [] then 0
    else
      assert Listed(s, es[0]);
      (if s.cache.table[es[0]].done then 0 else 1) + Unsettled(s, es[1..])
  }

  ghost function Slacks(s: System, es: seq<Id>): int
    requires AllListed(s, es)
  {
    if es == [] then 0 else Slack(s, es[0]) + Slacks(s, es[1..])
  }

  function Trashed(ds: set<Dir>): set<Dir> {
    set d | d in ds && d.Trash?
  }

  lemma {:induction false} HomesAreCharged(s: System, es: seq<Id>, ds: set<Dir>)
    requires AllListed(s, es) && Known(es, s.cache.table) && Capped(s) && Lean(s)
    requires forall d :: d in ds ==> exists e :: e in es && d in Home(s, e)
    ensures Weight(ds, s.cache.disk) <= SizeSum(es, s.cache.table) + Unsettled(s, es)
  {
    hide Listed, Home, Capped, Lean, Weight;
    if es == [] {
      assert ds == {};
      NothingWeighs(s.cache.disk);
    } else {
      var here := set d | d in ds && d in Home(s, es[0]);
      AccountHolds(s, es[0]);
      WeightWithin(here, Home(s, es[0]), s.cache.disk);
      HomesAreCharged(s, es[1..], ds - here);
      WeightSplit(here, ds - here, s.cache.disk);
      assert here + (ds - here) == ds;
    }
  }

  lemma {:induction false} AccountsHold(s: System, es: seq<Id>, ds: set<Dir>)
    requires AllListed(s, es) && Known(es, s.cache.table) && Capped(s) && Lean(s)
    requires forall d :: d in ds ==> exists e :: e in es && d in Home(s, e) + Debris(s, e)
    ensures Weight(ds, s.cache.disk) <= SizeSum(es, s.cache.table) + Slacks(s, es)
  {
    hide Listed, Home, Debris, Slack, Capped, Lean, Weight;
    if es == [] {
      assert ds == {};
      NothingWeighs(s.cache.disk);
    } else {
      var all := Home(s, es[0]) + Debris(s, es[0]);
      var here := set d | d in ds && d in all;
      AccountHolds(s, es[0]);
      WeightWithin(here, all, s.cache.disk);
      AccountsHold(s, es[1..], ds - here);
      WeightSplit(here, ds - here, s.cache.disk);
      assert here + (ds - here) == ds;
    }
  }

  /** Everything under the root. */
  ghost function OnRoot(s: System): nat {
    Weight(s.cache.disk.Keys, s.cache.disk)
  }

  /** In every run whose fills respect their budget the byte count stays within
      the cap. Everything under the root takes no more than the byte count, one
      byte for each running fill, and the trash not yet unlinked. A call that
      has trash to unlink has less than two archive budgets of it, so what the
      disk holds beyond the byte count is at most the sum of the slacks: one
      byte for a running fill, less than a budget for one still unlinking. */
  lemma CapIsPhysical(trace: seq<System>, steps: seq<Step>, i: nat)
    requires BudgetedRun(trace, steps) && i <= |steps| && trace[i].cache.ready
    ensures var s := trace[i];
      && AllListed(s, s.cache.lru)
      && s.cache.bytes <= s.cache.maxBytes
      && OnRoot(s) <= s.cache.bytes + Unsettled(s, s.cache.lru) + Weight(Trashed(s.cache.disk.Keys), s.cache.disk)
      && OnRoot(s) <= s.cache.bytes + Slacks(s, s.cache.lru)
      && forall t :: t in s.threads && s.threads[t].trash != [] ==>
           Weight(Members(s.threads[t].trash), s.cache.disk) < 2 * s.cache.archiveBudget
  {
    hide Enabled, Apply;
    var s := trace[i];
    RunKeepsInv(trace, steps, i);
    RunKeepsCap(trace, steps, i);
    RunStaysLean(trace, steps, i);
    DiskIsAccounted(s);
  }

  lemma DiskIsAccounted(s: System)
    requires Inv(s) && s.cache.ready && Capped(s) && Lean(s)
    ensures AllListed(s, s.cache.lru) && s.cache.bytes <= s.cache.maxBytes
    ensures OnRoot(s) <= s.cache.bytes + Unsettled(s, s.cache.lru) + Weight(Trashed(s.cache.disk.Keys), s.cache.disk)
    ensures OnRoot(s) <= s.cache.bytes + Slacks(s, s.cache.lru)
  {
    hide CacheInv, SingleFlight, Counted, Owned, Home, Debris, Lean, Weight, Slack;
    ListIsSummed(s);
    var all, c := s.cache.disk.Keys, s.cache;
    forall d | d in all ensures exists e :: e in c.lru && d in Home(s, e) + Debris(s, e) {
      var e := EveryDirectoryHasAHome(s, d);
    }
    forall d | d in all - Trashed(all) ensures exists e :: e in c.lru && d in Home(s, e) {
      var e := EveryDirectoryHasAHome(s, d);
    }
    AccountsHold(s, c.lru, all);
    HomesAreCharged(s, c.lru, all - Trashed(all));
    WeightSplit(all - Trashed(all), Trashed(all), c.disk);
    assert all - Trashed(all) + Trashed(all) == all;
  }

  lemma ListIsSummed(s: System)
    requires Inv(s) && s.cache.ready
    ensures AllListed(s, s.cache.lru) && Known(s.cache.lru, s.cache.table)
    ensures s.cache.bytes == SizeSum(s.cache.lru, s.cache.table)
  {
  }
}
