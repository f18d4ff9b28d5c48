/** Every step of `CacheSystem` keeps its invariant. */
module CacheSafety {
  import opened Common
  import opened CacheState
  import opened CacheLaws
  import opened CacheSystem

  // ------------------------------------------------------------------
  // Reference counts
  // ------------------------------------------------------------------

  lemma HoldersMove(ts: map<Tid, Thread>, t: Tid, th: Thread)
    requires t in ts && ts[t].pc.e == th.pc.e
    ensures forall e :: Holders(ts[t := th], e) == Holders(ts, e)
  {
  }

  lemma HoldersArrive(ts: map<Tid, Thread>, t: Tid, th: Thread)
    requires t !in ts
    ensures forall e :: e != th.pc.e ==> Holders(ts[t := th], e) == Holders(ts, e)
    ensures |Holders(ts[t := th], th.pc.e)| == |Holders(ts, th.pc.e)| + 1
  {
    assert Holders(ts[t := th], th.pc.e) == Holders(ts, th.pc.e) + {t};
  }

  lemma HoldersLeave(ts: map<Tid, Thread>, t: Tid)
    requires t in ts
    ensures forall e :: e != ts[t].pc.e ==> Holders(ts - {t}, e) == Holders(ts, e)
    ensures |Holders(ts - {t}, ts[t].pc.e)| == |Holders(ts, ts[t].pc.e)| - 1
  {
    assert Holders(ts, ts[t].pc.e) == Holders(ts - {t}, ts[t].pc.e) + {t};
  }

  lemma HolderCounts(s: System, t: Tid)
    requires Counted(s) && t in s.threads
    ensures s.cache.table[s.threads[t].pc.e].refs > 0
  {
    assert t in Holders(s.threads, s.threads[t].pc.e);
  }

  lemma UnsettledAreHeld(s: System)
    requires Counted(s) && SingleFlight(s)
    ensures FillsHeld(s.cache)
  {
    forall e | e in s.cache.table && !s.cache.table[e].done ensures s.cache.table[e].refs > 0 {
      var t :| FilledBy(s.threads, e, t);
      HolderCounts(s, t);
    }
  }

  // ------------------------------------------------------------------
  // Steps of one call that leave the cache's books alone
  // ------------------------------------------------------------------

  /** The state after call `t` moves to `th` and the disk becomes `disk`. */
  function Moved(s: System, t: Tid, th: Thread, disk: map<Dir, Content>): System {
    System(s.cache.(disk := disk), s.threads[t := th])
  }

  /** Only directories the call owns, before or after, are touched. */
  ghost predicate OwnDirsOnly(th: Thread, th': Thread, disk: map<Dir, Content>, disk': map<Dir, Content>) {
    && (forall d :: d in disk && !Owns(th, d) ==> d in disk' && disk'[d] == disk[d] && !Owns(th', d))
    && (forall d :: d in disk' && (d !in disk || Owns(th, d)) ==> Owns(th', d))
    && (forall d :: Owns(th', d) ==> d in disk')
    && (forall d :: d in disk' && d !in disk ==> !d.Trash?)
  }

  lemma MoveCounts(s: System, t: Tid, th: Thread, disk: map<Dir, Content>)
    requires Counted(s) && t in s.threads && th.pc.e == s.threads[t].pc.e
    ensures Counted(Moved(s, t, th, disk))
  {
    HoldersMove(s.threads, t, th);
  }

  lemma MoveFlights(s: System, t: Tid, th: Thread, disk: map<Dir, Content>)
    requires Counted(s) && SingleFlight(s) && Counted(Moved(s, t, th, disk))
    requires t in s.threads && th.pc.e == s.threads[t].pc.e
    requires IsFill(th.pc) == IsFill(s.threads[t].pc)
    requires th.pc.Reading? ==> s.cache.table[th.pc.e].done && s.cache.table[th.pc.e].err == None
    ensures SingleFlight(Moved(s, t, th, disk))
  {
    var s' := Moved(s, t, th, disk);
    assert forall e, u :: FilledBy(s'.threads, e, u) <==> FilledBy(s.threads, e, u);
  }

  /** The published name of a settled entry is nobody's to touch. */
  lemma OwnedIsUnserved(s: System, t: Tid, d: Dir)
    requires Inv(s) && s.cache.ready && OwnedBy(s.threads, d, t)
    ensures d.Published? ==> d.key in s.cache.index && s.cache.index[d.key] == s.threads[t].pc.e && !Served(s.cache, d)
  {
    var th := s.threads[t];
    assert OwnsWell(th, s.cache.table, s.cache.disk);
    if d.Published? {
      var e := th.pc.e;
      assert FilledBy(s.threads, e, t);
      assert Homed(s.cache.table[e], s.cache.disk, s.cache.archiveBudget);
      assert e in s.cache.lru;
    }
  }

  lemma MoveOwned(s: System, t: Tid, th: Thread, disk: map<Dir, Content>)
    requires Inv(s) && s.cache.ready && t in s.threads
    requires OwnDirsOnly(s.threads[t], th, s.cache.disk, disk)
    requires OwnsWell(th, s.cache.table, disk)
    ensures Owned(Moved(s, t, th, disk))
  {
    hide CacheInv, Counted, SingleFlight, Owns;
    var s' := Moved(s, t, th, disk);
    forall u | u in s'.threads ensures OwnsWell(s'.threads[u], s'.cache.table, s'.cache.disk) {
      if u != t {
        OthersStayWell(s, t, th, disk, u);
      }
    }
    forall u, v, d | OwnedBy(s'.threads, d, u) && OwnedBy(s'.threads, d, v) ensures u == v {
      if u != t {
        OthersKeepTheirs(s, t, th, disk, u, d);
      }
      if v != t {
        OthersKeepTheirs(s, t, th, disk, v, d);
      }
    }
    forall d | d in disk ensures Served(s'.cache, d) || exists u :: OwnedBy(s'.threads, d, u) {
      if Owns(th, d) {
        assert OwnedBy(s'.threads, d, t);
      } else if !Served(s.cache, d) {
        var u :| OwnedBy(s.threads, d, u);
        assert OwnedBy(s'.threads, d, u);
      }
    }
  }

  lemma OwnedIsOnDisk(s: System, t: Tid, d: Dir)
    requires t in s.threads && OwnsWell(s.threads[t], s.cache.table, s.cache.disk) && Owns(s.threads[t], d)
    ensures d in s.cache.disk
  {
  }

  lemma OthersKeepTheirs(s: System, t: Tid, th: Thread, disk: map<Dir, Content>, u: Tid, d: Dir)
    requires Owned(s) && t in s.threads && u != t
    requires OwnDirsOnly(s.threads[t], th, s.cache.disk, disk)
    requires OwnedBy(s.threads, d, u) || OwnedBy(s.threads[t := th], d, u)
    ensures OwnedBy(s.threads, d, u) && !Owns(th, d)
  {
    assert OwnedBy(s.threads, d, u);
    OwnedIsOnDisk(s, u, d);
    assert !OwnedBy(s.threads, d, t);
  }

  lemma OthersStayWell(s: System, t: Tid, th: Thread, disk: map<Dir, Content>, u: Tid)
    requires Owned(s) && t in s.threads && u in s.threads && u != t
    requires OwnDirsOnly(s.threads[t], th, s.cache.disk, disk)
    ensures OwnsWell(s.threads[u], s.cache.table, disk)
  {
    forall d | Owns(s.threads[u], d) ensures d in disk && disk[d] == s.cache.disk[d] {
      assert OwnedBy(s.threads, d, u);
      assert !OwnedBy(s.threads, d, t);
      OwnedIsOnDisk(s, u, d);
    }
  }

  lemma MoveHomed(s: System, t: Tid, th: Thread, disk: map<Dir, Content>)
    requires Inv(s) && s.cache.ready && t in s.threads
    requires OwnDirsOnly(s.threads[t], th, s.cache.disk, disk)
    ensures CacheInv(s.cache.(disk := disk))
  {
    forall e | e in s.cache.table ensures Homed(s.cache.table[e], disk, s.cache.archiveBudget) {
      var r := s.cache.table[e];
      assert Homed(r, s.cache.disk, s.cache.archiveBudget);
      if !r.dead && r.done {
        assert e in s.cache.lru && s.cache.index[r.key] == e;
        if Owns(s.threads[t], Published(r.key)) {
          OwnedIsUnserved(s, t, Published(r.key));
        }
      }
    }
  }

  lemma MoveKeepsInv(s: System, t: Tid, th: Thread, disk: map<Dir, Content>)
    requires Inv(s) && s.cache.ready && t in s.threads
    requires th.pc.e == s.threads[t].pc.e && IsFill(th.pc) == IsFill(s.threads[t].pc)
    requires th.pc.Reading? ==> s.cache.table[th.pc.e].done && s.cache.table[th.pc.e].err == None
    requires OwnDirsOnly(s.threads[t], th, s.cache.disk, disk)
    requires OwnsWell(th, s.cache.table, disk)
    ensures Inv(Moved(s, t, th, disk))
  {
    hide CacheInv, Owned, OwnsWell, OwnDirsOnly;
    MoveCounts(s, t, th, disk);
    MoveFlights(s, t, th, disk);
    MoveHomed(s, t, th, disk);
    MoveOwned(s, t, th, disk);
  }

  /** The steps of a call in flight that change neither the index nor who
      holds what. */
  predicate Local(step: Step) {
    step.Unlink? || step.Stage? || step.StageFails? || step.Write? || step.FillReturns? || step.FillFails?
    || step.Clear? || step.Publish? || step.PublishFails? || step.Clean? || step.Observe? || step.GiveUp?
  }

  lemma UnlinkKeeps(s: System, t: Tid)
    requires Inv(s) && s.cache.ready && Enabled(s, Unlink(t))
    ensures Inv(Apply(s, Unlink(t)))
  {
    hide Inv;
    OwnsWellAt(s, t);
    var th := s.threads[t];
    var gone, th' := th.trash[0], th.(trash := th.trash[1..]);
    assert th.trash == [gone] + th'.trash;
    MoveKeepsInv(s, t, th', s.cache.disk - {gone});
  }

  lemma FillerStepKeeps(s: System, t: Tid, pc: Pc, disk: map<Dir, Content>)
    requires Inv(s) && s.cache.ready && Running(s, t)
    requires pc.e == s.threads[t].pc.e && IsFill(pc) && IsFill(s.threads[t].pc)
    requires OwnDirsOnly(s.threads[t], Thread([], pc), s.cache.disk, disk)
    requires OwnsWell(Thread([], pc), s.cache.table, disk)
    ensures Inv(OnDisk(At(s, t, pc), disk))
  {
    MoveKeepsInv(s, t, Thread([], pc), disk);
    assert OnDisk(At(s, t, pc), disk) == Moved(s, t, Thread([], pc), disk);
  }

  lemma OwnsWellAt(s: System, t: Tid)
    requires Inv(s) && s.cache.ready && t in s.threads
    ensures OwnsWell(s.threads[t], s.cache.table, s.cache.disk)
    ensures s.threads[t].pc.e in s.cache.table
    ensures s.threads[t].pc.Reading? ==>
      s.cache.table[s.threads[t].pc.e].done && s.cache.table[s.threads[t].pc.e].err == None
  {
  }

  lemma StageKeeps(s: System, t: Tid, n: nat)
    requires Inv(s) && s.cache.ready && Enabled(s, Stage(t, n))
    ensures Inv(Apply(s, Stage(t, n)))
  {
    hide Inv;
    FillerStepKeeps(s, t, Filling(s.threads[t].pc.e, Staged(n)), s.cache.disk[Staged(n) := map[]]);
  }

  lemma StageFailsKeeps(s: System, t: Tid, why: string)
    requires Inv(s) && s.cache.ready && Enabled(s, StageFails(t, why))
    ensures Inv(Apply(s, StageFails(t, why)))
  {
    hide Inv;
    FillerStepKeeps(s, t, Settling(s.threads[t].pc.e, None, map[], 0, Some(why)), s.cache.disk);
  }

  lemma WriteKeeps(s: System, t: Tid, content: Content)
    requires Inv(s) && s.cache.ready && Enabled(s, Write(t, content))
    ensures Inv(Apply(s, Write(t, content)))
  {
    hide Inv;
    OwnsWellAt(s, t);
    FillerStepKeeps(s, t, s.threads[t].pc, s.cache.disk[s.threads[t].pc.tmp := content]);
    assert At(s, t, s.threads[t].pc) == s;
  }

  lemma FillReturnsKeeps(s: System, t: Tid, size: int)
    requires Inv(s) && s.cache.ready && Enabled(s, FillReturns(t, size))
    ensures Inv(Apply(s, FillReturns(t, size)))
  {
    hide Inv;
    OwnsWellAt(s, t);
    var pc := s.threads[t].pc;
    FillerStepKeeps(s, t, Filled(pc.e, pc.tmp, s.cache.disk[pc.tmp], size), s.cache.disk);
  }

  lemma FillFailsKeeps(s: System, t: Tid, why: string)
    requires Inv(s) && s.cache.ready && Enabled(s, FillFails(t, why))
    ensures Inv(Apply(s, FillFails(t, why)))
  {
    hide Inv;
    OwnsWellAt(s, t);
    FillerStepKeeps(s, t, Cleaning(s.threads[t].pc.e, s.threads[t].pc.tmp, why), s.cache.disk);
  }

  lemma PublishFailsKeeps(s: System, t: Tid, why: string)
    requires Inv(s) && s.cache.ready && Enabled(s, PublishFails(t, why))
    ensures Inv(Apply(s, PublishFails(t, why)))
  {
    hide Inv;
    OwnsWellAt(s, t);
    FillerStepKeeps(s, t, Cleaning(s.threads[t].pc.e, s.threads[t].pc.tmp, why), s.cache.disk);
  }

  lemma CleanKeeps(s: System, t: Tid)
    requires Inv(s) && s.cache.ready && Enabled(s, Clean(t))
    ensures Inv(Apply(s, Clean(t)))
  {
    hide Inv;
    OwnsWellAt(s, t);
    var pc := s.threads[t].pc;
    FillerStepKeeps(s, t, Settling(pc.e, None, map[], 0, Some(pc.why)), s.cache.disk - {pc.tmp});
  }

  /** The destination of a publish is free: the clearing before the rename has
      nothing to remove, in any interleaving. */
  lemma DestinationIsFree(s: System, t: Tid)
    requires Inv(s) && s.cache.ready && t in s.threads
    requires IsFill(s.threads[t].pc) && !s.threads[t].pc.Settling?
    ensures Published(s.cache.table[s.threads[t].pc.e].key) !in s.cache.disk
  {
    var e := s.threads[t].pc.e;
    var d := Published(s.cache.table[e].key);
    assert FilledBy(s.threads, e, t);
    assert Homed(s.cache.table[e], s.cache.disk, s.cache.archiveBudget);
    assert e in s.cache.lru && s.cache.index[d.key] == e;
    if d in s.cache.disk {
      var u :| OwnedBy(s.threads, d, u);
      OwnedIsUnserved(s, u, d);
      assert FilledBy(s.threads, e, u);
      assert false;
    }
  }

  lemma ClearKeeps(s: System, t: Tid)
    requires Inv(s) && s.cache.ready && Enabled(s, Clear(t))
    ensures Inv(Apply(s, Clear(t)))
  {
    hide Inv;
    OwnsWellAt(s, t);
    DestinationIsFree(s, t);
    var pc := s.threads[t].pc;
    FillerStepKeeps(s, t, Cleared(pc.e, pc.tmp, pc.pages, pc.size), s.cache.disk);
    assert s.cache.disk - {Published(s.cache.table[pc.e].key)} == s.cache.disk;
  }

  lemma PublishKeeps(s: System, t: Tid)
    requires Inv(s) && s.cache.ready && Enabled(s, Publish(t))
    ensures Inv(Apply(s, Publish(t)))
  {
    hide Inv;
    OwnsWellAt(s, t);
    DestinationIsFree(s, t);
    var pc := s.threads[t].pc;
    var final := Published(s.cache.table[pc.e].key);
    FillerStepKeeps(s, t, Settling(pc.e, Some(final), pc.pages, pc.size, None),
                    (s.cache.disk - {pc.tmp})[final := s.cache.disk[pc.tmp]]);
  }

  lemma ObserveKeeps(s: System, t: Tid)
    requires Inv(s) && s.cache.ready && Enabled(s, Observe(t))
    ensures Inv(Apply(s, Observe(t)))
  {
    hide Inv;
    OwnsWellAt(s, t);
    var e := s.threads[t].pc.e;
    MoveKeepsInv(s, t, Thread([], if s.cache.table[e].err.Some? then Releasing(e) else Reading(e)), s.cache.disk);
  }

  lemma GiveUpKeeps(s: System, t: Tid)
    requires Inv(s) && s.cache.ready && Enabled(s, GiveUp(t))
    ensures Inv(Apply(s, GiveUp(t)))
  {
    hide Inv;
    OwnsWellAt(s, t);
    MoveKeepsInv(s, t, Thread([], Releasing(s.threads[t].pc.e)), s.cache.disk);
  }

  lemma LocalKeeps(s: System, step: Step)
    requires Inv(s) && s.cache.ready && Local(step) && Enabled(s, step)
    ensures Inv(Apply(s, step))
  {
    hide Inv, Apply;
    match step
    case Unlink(t) => UnlinkKeeps(s, t);
    case Stage(t, n) => StageKeeps(s, t, n);
    case StageFails(t, why) => StageFailsKeeps(s, t, why);
    case Write(t, content) => WriteKeeps(s, t, content);
    case FillReturns(t, size) => FillReturnsKeeps(s, t, size);
    case FillFails(t, why) => FillFailsKeeps(s, t, why);
    case Clear(t) => ClearKeeps(s, t);
    case Publish(t) => PublishKeeps(s, t);
    case PublishFails(t, why) => PublishFailsKeeps(s, t, why);
    case Clean(t) => CleanKeeps(s, t);
    case Observe(t) => ObserveKeeps(s, t);
    case GiveUp(t) => GiveUpKeeps(s, t);
  }
}
