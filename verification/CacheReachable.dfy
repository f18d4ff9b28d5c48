/** The steps that change the index or the holders, and with them the whole
    invariant over every run. */
module CacheReachable {
  import opened Common
  import opened CacheState
  import opened CacheLaws
  import opened CacheSystem
  import opened CacheSafety

  /** As `Owned`, with `extra` trash on disk that no call owns yet. */
  ghost predicate OwnedExcept(s: System, extra: set<Dir>) {
    && (forall t :: t in s.threads ==> OwnsWell(s.threads[t], s.cache.table, s.cache.disk))
    && (forall t, u, d :: OwnedBy(s.threads, d, t) && OwnedBy(s.threads, d, u) ==> t == u)
    && (forall d :: d in s.cache.disk ==> Served(s.cache, d) || d in extra || exists t :: OwnedBy(s.threads, d, t))
    && (forall d, t :: OwnedBy(s.threads, d, t) ==> d !in extra)
    && (forall d :: d in extra ==> d.Trash? && d in s.cache.disk)
  }

  ghost predicate InvExcept(s: System, extra: set<Dir>) {
    CacheInv(s.cache) && Counted(s) && SingleFlight(s) && OwnedExcept(s, extra)
  }

  lemma NothingExtra(s: System)
    requires s.cache.ready
    ensures InvExcept(s, {}) <==> Inv(s)
  {
  }

  // ------------------------------------------------------------------
  // Eviction among calls in flight
  // ------------------------------------------------------------------

  ghost function Evict(s: System, vs: seq<Id>): System
    requires Known(vs, s.cache.table)
  {
    s.(cache := DropAll(s.cache, vs).0)
  }

  /** A victim is not the entry of any call. */
  lemma VictimsAreFree(s: System, vs: seq<Id>, t: Tid)
    requires Counted(s) && AllEvictable(s.cache, vs) && t in s.threads
    ensures s.threads[t].pc.e !in vs
  {
    HolderCounts(s, t);
    forall v | v in vs ensures v != s.threads[t].pc.e {
      assert Evictable(s.cache, v);
    }
  }

  lemma EvictKeepsCounts(s: System, vs: seq<Id>)
    requires Counted(s) && SingleFlight(s) && AllEvictable(s.cache, vs)
    requires IndexEvicted(s.cache, vs, DropAll(s.cache, vs).0)
    ensures Counted(Evict(s, vs)) && SingleFlight(Evict(s, vs))
  {
    var s' := Evict(s, vs);
    forall e | e in s'.cache.table ensures s'.cache.table[e].refs == |Holders(s'.threads, e)|
      && s'.cache.table[e].done == s.cache.table[e].done && s'.cache.table[e].err == s.cache.table[e].err {
      assert e in vs || e !in vs;
    }
    forall e | e in s'.cache.table && !s'.cache.table[e].done ensures exists t :: FilledBy(s'.threads, e, t) {
      assert !s.cache.table[e].done;
    }
  }

  lemma EvictKeepsOwners(s: System, vs: seq<Id>)
    requires Inv(s) && s.cache.ready && AllEvictable(s.cache, vs)
    requires CacheInv(DropAll(s.cache, vs).0)
    requires IndexEvicted(s.cache, vs, DropAll(s.cache, vs).0)
    requires DiskEvicted(s.cache, vs, DropAll(s.cache, vs).0, DropAll(s.cache, vs).1)
    ensures OwnedExcept(Evict(s, vs), TrashSet(s.cache.trashSeq, |vs|))
  {
    hide CacheInv, SingleFlight, IndexEvicted, Owns, OwnsWell, Evictable, Counted, Served;
    var s' := Evict(s, vs);
    var extra := TrashSet(s.cache.trashSeq, |vs|);
    forall t, d | OwnedBy(s.threads, d, t)
      ensures d in s.cache.disk && d !in KeysOf(vs, s.cache.table) && d !in extra
    {
      OwnedIsOnDisk(s, t, d);
      OwnedKeepsKey(s, vs, t, d);
      TrashIsNew(s, d, |vs|);
    }
    forall t | t in s'.threads ensures OwnsWell(s'.threads[t], s'.cache.table, s'.cache.disk) {
      VictimsAreFree(s, vs, t);
      forall d | Owns(s.threads[t], d) ensures d in s.cache.disk && d !in KeysOf(vs, s.cache.table) {
        assert OwnedBy(s.threads, d, t);
      }
      EvictKeepsWell(s, vs, t);
    }
    forall d | d in s'.cache.disk
      ensures Served(s'.cache, d) || d in extra || exists t :: OwnedBy(s'.threads, d, t)
    {
      if d !in extra {
        assert d in s.cache.disk && d !in KeysOf(vs, s.cache.table);
        if Served(s.cache, d) {
          EvictKeepsServed(s, vs, d);
        }
      }
    }
  }

  lemma TrashIsNew(s: System, d: Dir, n: nat)
    requires CacheInv(s.cache) && d in s.cache.disk
    ensures d !in TrashSet(s.cache.trashSeq, n)
  {
  }

  lemma OwnedKeepsKey(s: System, vs: seq<Id>, t: Tid, d: Dir)
    requires Inv(s) && s.cache.ready && AllEvictable(s.cache, vs) && OwnedBy(s.threads, d, t)
    ensures d !in KeysOf(vs, s.cache.table)
  {
    OwnedIsUnserved(s, t, d);
    forall v | v in vs ensures d != Published(s.cache.table[v].key) {
      assert Evictable(s.cache, v);
      assert s.cache.index[s.cache.table[v].key] == v;
    }
  }

  lemma EvictKeepsWell(s: System, vs: seq<Id>, t: Tid)
    requires t in s.threads && OwnsWell(s.threads[t], s.cache.table, s.cache.disk)
    requires Known(vs, s.cache.table) && s.threads[t].pc.e !in vs
    requires IndexEvicted(s.cache, vs, DropAll(s.cache, vs).0)
    requires DiskEvicted(s.cache, vs, DropAll(s.cache, vs).0, DropAll(s.cache, vs).1)
    requires forall d :: Owns(s.threads[t], d) ==> d in s.cache.disk && d !in KeysOf(vs, s.cache.table)
    ensures OwnsWell(s.threads[t], Evict(s, vs).cache.table, Evict(s, vs).cache.disk)
  {
    hide IndexEvicted;
    assert IndexEvictedFrame(s.cache, vs, DropAll(s.cache, vs).0) by {
      IndexFrame(s.cache, vs, DropAll(s.cache, vs).0);
    }
    var disk' := DropAll(s.cache, vs).0.disk;
    forall d | Owns(s.threads[t], d) ensures d in disk' && disk'[d] == s.cache.disk[d] {
    }
  }

  ghost predicate IndexEvictedFrame(c: Cache<Id>, vs: seq<Id>, c': Cache<Id>) {
    c'.table.Keys == c.table.Keys && forall e :: e in c.table && e !in vs ==> c'.table[e] == c.table[e]
  }

  lemma IndexFrame(c: Cache<Id>, vs: seq<Id>, c': Cache<Id>)
    requires Known(vs, c.table) && IndexEvicted(c, vs, c')
    ensures IndexEvictedFrame(c, vs, c')
  {
  }

  lemma EvictKeepsServed(s: System, vs: seq<Id>, d: Dir)
    requires CacheInv(s.cache) && Known(vs, s.cache.table)
    requires CacheInv(DropAll(s.cache, vs).0)
    requires IndexEvicted(s.cache, vs, DropAll(s.cache, vs).0)
    requires Served(s.cache, d) && d !in KeysOf(vs, s.cache.table)
    ensures Served(DropAll(s.cache, vs).0, d)
  {
    var e := s.cache.index[d.key];
    assert e !in vs;
    assert e in DropAll(s.cache, vs).0.lru;
  }

  lemma EvictKeepsInv(s: System, vs: seq<Id>)
    requires Inv(s) && s.cache.ready && AllEvictable(s.cache, vs)
    ensures InvExcept(Evict(s, vs), TrashSet(s.cache.trashSeq, |vs|))
    ensures DropAll(s.cache, vs).1 == TrashFrom(s.cache.trashSeq, |vs|)
    ensures Evict(s, vs).cache.table.Keys == s.cache.table.Keys
    ensures Evict(s, vs).cache.ready
  {
    hide CacheInv, OwnedExcept, Counted, SingleFlight, AllEvictable;
    EvictionEffect(s.cache, vs);
    EvictKeepsCounts(s, vs);
    EvictKeepsOwners(s, vs);
  }

  lemma {:induction false} TrashFromSet(from: nat, n: nat)
    ensures NoDup(TrashFrom(from, n))
    ensures forall d :: d in TrashFrom(from, n) <==> d in TrashSet(from, n)
    decreases n
  {
    if n > 0 {
      TrashFromSet(from + 1, n - 1);
      TrashSetStep(from, n);
    }
  }

  /** A call takes over the trash of an eviction it caused. */
  lemma TakeTrash(s: System, t: Tid, trash: seq<Dir>, extra: set<Dir>)
    requires InvExcept(s, extra) && s.cache.ready && t in s.threads && s.threads[t].trash == []
    requires NoDup(trash) && forall d :: d in trash <==> d in extra
    ensures Inv(s.(threads := s.threads[t := Thread(trash, s.threads[t].pc)]))
  {
    var s' := s.(threads := s.threads[t := Thread(trash, s.threads[t].pc)]);
    HoldersMove(s.threads, t, Thread(trash, s.threads[t].pc));
    MoveFlights(s, t, Thread(trash, s.threads[t].pc), s.cache.disk);
    assert s' == Moved(s, t, Thread(trash, s.threads[t].pc), s.cache.disk);
    TrashOwned(s, t, trash, extra);
  }

  lemma TrashOwned(s: System, t: Tid, trash: seq<Dir>, extra: set<Dir>)
    requires OwnedExcept(s, extra) && t in s.threads && s.threads[t].trash == []
    requires NoDup(trash) && forall d :: d in trash <==> d in extra
    ensures Owned(s.(threads := s.threads[t := Thread(trash, s.threads[t].pc)]))
  {
    var s' := s.(threads := s.threads[t := Thread(trash, s.threads[t].pc)]);
    forall d, u ensures OwnedBy(s'.threads, d, u) <==> OwnedBy(s.threads, d, u) || (u == t && d in extra) {
    }
    forall u | u in s'.threads ensures OwnsWell(s'.threads[u], s'.cache.table, s'.cache.disk) {
      assert OwnsWell(s.threads[u], s.cache.table, s.cache.disk);
    }
    forall d | d in s'.cache.disk ensures Served(s'.cache, d) || exists u :: OwnedBy(s'.threads, d, u) {
      if d in extra {
        assert OwnedBy(s'.threads, d, t);
      }
    }
  }

  // ------------------------------------------------------------------
  // Calls arriving
  // ------------------------------------------------------------------

  lemma InitKeeps(s: System)
    requires Inv(s)
    ensures Inv(s.(cache := Init(s.cache))) && Init(s.cache).ready
  {
  }

  lemma WellFrame(th: Thread, table: map<Id, Entry>, table': map<Id, Entry>, disk: map<Dir, Content>)
    requires OwnsWell(th, table, disk)
    requires forall e :: e in table ==> e in table' && table'[e].key == table[e].key
    ensures OwnsWell(th, table', disk)
  {
  }

  /** Ownership only shrinks, and what is no longer owned is served. */
  lemma OwnersShrink(s: System, c': Cache<Id>, ts: map<Tid, Thread>)
    requires Owned(s) && c'.disk == s.cache.disk
    requires forall t :: t in ts ==> OwnsWell(ts[t], c'.table, c'.disk)
    requires forall d, t :: OwnedBy(ts, d, t) ==> OwnedBy(s.threads, d, t)
    requires forall d, t :: OwnedBy(s.threads, d, t) ==> OwnedBy(ts, d, t) || Served(c', d)
    requires forall d :: Served(s.cache, d) ==> Served(c', d)
    ensures Owned(System(c', ts))
  {
    hide Owns, OwnsWell, Served;
    forall d | d in c'.disk ensures Served(c', d) || exists t :: OwnedBy(ts, d, t) {
      if !Served(s.cache, d) {
        var t :| OwnedBy(s.threads, d, t);
      }
    }
  }

  /** A call arrives that owns `trash` and holds an entry of the new cache. */
  lemma ArriveOwned(s: System, t: Tid, th: Thread, c': Cache<Id>, extra: set<Dir>)
    requires OwnedExcept(s, extra) && t !in s.threads
    requires NoDup(th.trash) && (forall d :: d in th.trash <==> d in extra)
    requires th.pc.Waiting? || th.pc.Staging?
    requires c'.disk == s.cache.disk
    requires forall e :: e in s.cache.table ==> e in c'.table && c'.table[e].key == s.cache.table[e].key
    requires forall d :: Served(s.cache, d) ==> Served(c', d)
    ensures Owned(System(c', s.threads[t := th]))
  {
    var s' := System(c', s.threads[t := th]);
    forall d, u ensures OwnedBy(s'.threads, d, u) <==> OwnedBy(s.threads, d, u) || (u == t && d in extra) {
    }
    forall u | u in s'.threads ensures OwnsWell(s'.threads[u], s'.cache.table, s'.cache.disk) {
      if u != t {
        assert OwnsWell(s.threads[u], s.cache.table, s.cache.disk);
      }
    }
    forall d | d in s'.cache.disk ensures Served(s'.cache, d) || exists u :: OwnedBy(s'.threads, d, u) {
      if d in extra {
        assert OwnedBy(s'.threads, d, t);
      } else if !Served(s.cache, d) {
        var u :| OwnedBy(s.threads, d, u);
        assert OwnedBy(s'.threads, d, u);
      }
    }
  }

  lemma HitCounts(s: System, t: Tid, e: Id)
    requires Counted(s) && SingleFlight(s) && t !in s.threads && e in s.cache.table
    ensures var s' := System(Hold(s.cache, e), s.threads[t := Thread([], Waiting(e))]); Counted(s') && SingleFlight(s')
  {
    var s' := System(Hold(s.cache, e), s.threads[t := Thread([], Waiting(e))]);
    HoldersArrive(s.threads, t, Thread([], Waiting(e)));
    assert forall d, u :: FilledBy(s'.threads, d, u) <==> FilledBy(s.threads, d, u);
  }

  lemma HitKeeps(s: System, t: Tid, key: Key)
    requires Inv(s) && s.cache.ready && t !in s.threads && key in s.cache.index
    ensures s.cache.index[key] in s.cache.table
    ensures InvExcept(System(Hold(s.cache, s.cache.index[key]), s.threads[t := Thread([], Waiting(s.cache.index[key]))]), {})
  {
    hide Inv, InvExcept, CacheInv, Counted, SingleFlight, OwnsWell, Owns;
    NothingExtra(s);
    IndexedIsListed(s, key);
    var e := s.cache.index[key];
    HitCounts(s, t, e);
    HoldKeepsInv(s.cache, e);
    ArriveOwned(s, t, Thread([], Waiting(e)), Hold(s.cache, e), {});
    HitExcept(s, t, e);
  }

  lemma IndexedIsListed(s: System, key: Key)
    requires Inv(s) && s.cache.ready && key in s.cache.index
    ensures s.cache.index[key] in s.cache.table && s.cache.index[key] in s.cache.lru
    ensures CacheInv(s.cache) && Counted(s) && SingleFlight(s) && OwnedExcept(s, {})
  {
    NothingExtra(s);
    assert s.cache.index[key] in s.cache.lru;
  }

  lemma HitExcept(s: System, t: Tid, e: Id)
    requires e in s.cache.table
    requires var s' := System(Hold(s.cache, e), s.threads[t := Thread([], Waiting(e))]);
      CacheInv(s'.cache) && Counted(s') && SingleFlight(s') && Owned(s')
    ensures InvExcept(System(Hold(s.cache, e), s.threads[t := Thread([], Waiting(e))]), {})
  {
  }

  lemma InsertCounts(s: System, t: Tid, key: Key, id: Id, trash: seq<Dir>)
    requires Counted(s) && SingleFlight(s) && t !in s.threads && id !in s.cache.table
    ensures var s' := System(Insert(s.cache, key, id), s.threads[t := Thread(trash, Staging(id))]);
      Counted(s') && SingleFlight(s')
  {
    var s' := System(Insert(s.cache, key, id), s.threads[t := Thread(trash, Staging(id))]);
    HoldersArrive(s.threads, t, Thread(trash, Staging(id)));
    assert Holders(s.threads, id) == {};
    forall e | e in s'.cache.table ensures s'.cache.table[e].refs == |Holders(s'.threads, e)| {
      assert e != id ==> Holders(s'.threads, e) == Holders(s.threads, e);
    }
    assert forall e, u :: FilledBy(s'.threads, e, u) <==> FilledBy(s.threads, e, u) || (e == id && u == t);
    assert FilledBy(s'.threads, id, t);
  }

  lemma InsertKeeps(s: System, t: Tid, key: Key, id: Id, trash: seq<Dir>, extra: set<Dir>)
    requires InvExcept(s, extra) && t !in s.threads && key !in s.cache.index && id !in s.cache.table
    requires s.cache.ready
    requires NoDup(trash) && forall d :: d in trash <==> d in extra
    ensures Inv(System(Insert(s.cache, key, id), s.threads[t := Thread(trash, Staging(id))]))
  {
    hide Books, Directories, Owned, OwnedExcept;
    InsertCounts(s, t, key, id, trash);
    InsertKeepsInv(s.cache, key, id);
    ArriveOwned(s, t, Thread(trash, Staging(id)), Insert(s.cache, key, id), extra);
  }

  lemma FillKeeps(s: System, t: Tid, key: Key, id: Id)
    requires Inv(s) && s.cache.ready && Enabled(s, AcquireFill(t, key, id))
    ensures Inv(Apply(s, AcquireFill(t, key, id)))
  {
    hide CacheInv, SingleFlight, Owned, Admit, Victims, AllEvictable, InvExcept, DropAll;
    var c := s.cache;
    var vs := Admitted(c, c.archiveBudget);
    UnsettledAreHeld(s);
    VictimsAreEvictable(c, c.bytes + c.archiveBudget - c.maxBytes);
    AdmitDrops(c, c.archiveBudget);
    EvictKeepsInv(s, vs);
    TrashFromSet(c.trashSeq, |vs|);
    EvictKeepsAbsence(s, vs, key);
    InsertKeeps(Evict(s, vs), t, key, id, DropAll(c, vs).1, TrashSet(c.trashSeq, |vs|));
  }

  lemma EvictKeepsAbsence(s: System, vs: seq<Id>, key: Key)
    requires CacheInv(s.cache) && AllEvictable(s.cache, vs) && key !in s.cache.index
    ensures key !in Evict(s, vs).cache.index
  {
    EvictionEffect(s.cache, vs);
    var c, c' := s.cache, Evict(s, vs).cache;
    forall k | k in c'.index ensures k in c.index {
      assert c'.index[k] in c'.lru && c'.index[k] in c.lru;
      assert c'.table[c'.index[k]].key == c.table[c'.index[k]].key;
    }
  }

  // ------------------------------------------------------------------
  // Settling and leaving
  // ------------------------------------------------------------------

  /** The state between recording a successful fill and trimming. */
  ghost function Recorded(s: System, t: Tid): System
    requires Settleable(s, t)
  {
    var pc := s.threads[t].pc;
    System(Record(s.cache, pc.e, pc.dir, pc.pages, pc.size, pc.err), s.threads[t := Thread([], Reading(pc.e))])
  }

  lemma SettleCounts(s: System, t: Tid, c': Cache<Id>, next: Pc)
    requires Counted(s) && SingleFlight(s) && t in s.threads && s.threads[t].pc.Settling?
    requires next.e == s.threads[t].pc.e
    requires c'.table.Keys == s.cache.table.Keys
    requires forall e :: e in s.cache.table && e != next.e ==> c'.table[e] == s.cache.table[e]
    requires c'.table[next.e].refs == s.cache.table[next.e].refs && c'.table[next.e].done
    requires next == (if c'.table[next.e].err.Some? then Releasing(next.e) else Reading(next.e))
    ensures var s' := System(c', s.threads[t := Thread([], next)]); Counted(s') && SingleFlight(s')
  {
    var s' := System(c', s.threads[t := Thread([], next)]);
    HoldersMove(s.threads, t, Thread([], next));
    assert FilledBy(s.threads, next.e, t);
    forall e, u | FilledBy(s'.threads, e, u) ensures FilledBy(s.threads, e, u) && e != next.e {
      assert FilledBy(s.threads, e, u);
    }
    forall e, u | FilledBy(s.threads, e, u) && e != next.e ensures FilledBy(s'.threads, e, u) {
    }
  }

  lemma RecordKeeps(s: System, t: Tid)
    requires Inv(s) && s.cache.ready && Settleable(s, t) && s.threads[t].pc.err == None
    ensures Inv(Recorded(s, t))
  {
    hide Books, Directories, Homed, Owned;
    var pc := s.threads[t].pc;
    OwnsWellAt(s, t);
    assert FilledBy(s.threads, pc.e, t);
    RecordKeepsInv(s.cache, pc.e, pc.pages, pc.size);
    SettleCounts(s, t, Recorded(s, t).cache, Reading(pc.e));
    RecordKeepsOwners(s, t);
  }

  lemma FillerFacts(s: System, t: Tid)
    requires Inv(s) && s.cache.ready && t in s.threads && IsFill(s.threads[t].pc)
    ensures Owned(s) && s.threads[t].pc.e in s.cache.table
    ensures var e := s.threads[t].pc.e;
      && !s.cache.table[e].done && s.cache.table[e].size == s.cache.archiveBudget
      && s.cache.table[e].key in s.cache.index && s.cache.index[s.cache.table[e].key] == e
      && !Served(s.cache, Published(s.cache.table[e].key))
  {
    var e := s.threads[t].pc.e;
    assert FilledBy(s.threads, e, t);
    assert Homed(s.cache.table[e], s.cache.disk, s.cache.archiveBudget);
    assert e in s.cache.lru;
  }

  lemma RecordKeepsOwners(s: System, t: Tid)
    requires Inv(s) && s.cache.ready && Settleable(s, t) && s.threads[t].pc.err == None
    ensures Owned(Recorded(s, t))
  {
    hide Inv, Owned;
    var s', e := Recorded(s, t), s.threads[t].pc.e;
    OwnsWellAt(s, t);
    FillerFacts(s, t);
    forall u | u in s'.threads ensures OwnsWell(s'.threads[u], s'.cache.table, s'.cache.disk) {
      if u != t {
        OwnsWellAt(s, u);
        WellFrame(s.threads[u], s.cache.table, s'.cache.table, s.cache.disk);
      }
    }
    OwnersShrink(s, s'.cache, s'.threads);
  }

  lemma SettleSuccessKeeps(s: System, t: Tid)
    requires Inv(s) && s.cache.ready && Settleable(s, t) && Known(s.cache.lru, s.cache.table)
    requires s.threads[t].pc.err == None
    ensures Inv(AfterSettle(s, t))
  {
    hide CacheInv, Counted, SingleFlight, Owned, InvExcept, Victims, DropAll, AllEvictable;
    RecordKeeps(s, t);
    assert s.threads[t].trash == [];
    var s1 := Recorded(s, t);
    var c := s1.cache;
    if c.bytes > c.maxBytes {
      var vs := Victims(c.lru, c.table, c.bytes - c.maxBytes);
      UnsettledAreHeld(s1);
      VictimsAreEvictable(c, c.bytes - c.maxBytes);
      EvictKeepsInv(s1, vs);
      TrashFromSet(c.trashSeq, |vs|);
      TakeTrash(Evict(s1, vs), t, DropAll(c, vs).1, TrashSet(c.trashSeq, |vs|));
      assert s1.threads[t := Thread(DropAll(c, vs).1, s1.threads[t].pc)] == AfterSettle(s, t).threads;
    }
  }

  lemma SettleFailureKeeps(s: System, t: Tid)
    requires Inv(s) && s.cache.ready && Settleable(s, t) && Known(s.cache.lru, s.cache.table)
    requires s.threads[t].pc.err.Some?
    ensures Inv(AfterSettle(s, t))
  {
    hide Books, Directories, Homed, Owned, Settle;
    var pc := s.threads[t].pc;
    OwnsWellAt(s, t);
    assert FilledBy(s.threads, pc.e, t);
    FailedFillLeavesNothing(s.cache, pc.e, pc.err.value);
    var c' := Forgotten(s.cache, pc.e, pc.err.value);
    SettleCounts(s, t, c', Releasing(pc.e));
    ForgetKeepsOwners(s, t, c');
  }

  lemma ForgetKeepsOwners(s: System, t: Tid, c': Cache<Id>)
    requires Inv(s) && s.cache.ready && Settleable(s, t) && s.threads[t].pc.err.Some?
    requires c' == Forgotten(s.cache, s.threads[t].pc.e, s.threads[t].pc.err.value)
    ensures Owned(System(c', s.threads[t := Thread([], Releasing(s.threads[t].pc.e))]))
  {
    hide Inv, Owned;
    var e := s.threads[t].pc.e;
    OwnsWellAt(s, t);
    FillerFacts(s, t);
    var s' := System(c', s.threads[t := Thread([], Releasing(e))]);
    forall u | u in s'.threads ensures OwnsWell(s'.threads[u], s'.cache.table, s'.cache.disk) {
      OwnsWellAt(s, u);
      if u != t {
        WellFrame(s.threads[u], s.cache.table, s'.cache.table, s.cache.disk);
      }
    }
    OwnersShrink(s, s'.cache, s'.threads);
  }

  lemma LetCounts(s: System, t: Tid)
    requires Counted(s) && SingleFlight(s) && t in s.threads && !IsFill(s.threads[t].pc)
    ensures var s' := System(Release(s.cache, s.threads[t].pc.e), s.threads - {t}); Counted(s') && SingleFlight(s')
  {
    var s' := System(Release(s.cache, s.threads[t].pc.e), s.threads - {t});
    HoldersLeave(s.threads, t);
    assert forall e, u :: FilledBy(s'.threads, e, u) <==> FilledBy(s.threads, e, u);
  }

  lemma LetKeeps(s: System, t: Tid)
    requires Inv(s) && s.cache.ready && Enabled(s, Let(t))
    ensures Inv(Apply(s, Let(t)))
  {
    hide Books, Directories;
    LetCounts(s, t);
    ReleaseKeepsInv(s.cache, s.threads[t].pc.e);
    LetKeepsOwners(s, t);
  }

  lemma LetKeepsOwners(s: System, t: Tid)
    requires Owned(s) && Running(s, t) && (s.threads[t].pc.Reading? || s.threads[t].pc.Releasing?)
    requires s.threads[t].pc.e in s.cache.table
    ensures Owned(System(Release(s.cache, s.threads[t].pc.e), s.threads - {t}))
  {
    var s' := System(Release(s.cache, s.threads[t].pc.e), s.threads - {t});
    forall u | u in s'.threads ensures OwnsWell(s'.threads[u], s'.cache.table, s'.cache.disk) {
      WellFrame(s.threads[u], s.cache.table, s'.cache.table, s.cache.disk);
    }
    OwnersShrink(s, s'.cache, s'.threads);
  }

  // ------------------------------------------------------------------
  // Every step, every run
  // ------------------------------------------------------------------

  lemma ReadyStepKeeps(s: System, step: Step)
    requires Inv(s) && s.cache.ready && Enabled(s, step)
    ensures Inv(Apply(s, step))
  {
    hide Inv;
    if Local(step) {
      LocalKeeps(s, step);
    } else {
      match step
      case Touch =>
      case TryHit(t, key) => HitKeeps(s, t, key); NothingExtra(Apply(s, step));
      case AcquireHit(t, key) => HitKeeps(s, t, key); NothingExtra(Apply(s, step));
      case AcquireFill(t, key, id) => FillKeeps(s, t, key, id);
      case Settled(t) =>
        if s.threads[t].pc.err.Some? {
          SettleFailureKeeps(s, t);
        } else {
          SettleSuccessKeeps(s, t);
        }
      case Let(t) => LetKeeps(s, t);
    }
  }

  /** On a cold cache only a first acquire can do anything, and it does the
      same thing to the cache as one made after the root was created. */
  lemma ColdStepKeeps(s: System, step: Step)
    requires Inv(s) && !s.cache.ready && Enabled(s, step)
    ensures Inv(Apply(s, step))
  {
    var s1 := s.(cache := Init(s.cache));
    InitKeeps(s);
    match step
    case Touch =>
    case AcquireFill(t, key, id) =>
      FillKeeps(s1, t, key, id);
    case _ =>
  }

  lemma StepKeeps(s: System, step: Step)
    requires Inv(s) && Enabled(s, step)
    ensures Inv(Apply(s, step))
  {
    if s.cache.ready {
      ReadyStepKeeps(s, step);
    } else {
      ColdStepKeeps(s, step);
    }
  }
}
