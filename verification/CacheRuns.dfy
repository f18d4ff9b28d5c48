/** What holds in every run of the page cache, whatever the interleaving. */
module CacheRuns {
  import opened Common
  import opened CacheState
  import opened CacheLaws
  import opened CacheSystem
  import opened CacheSafety
  import opened CacheReachable

  /** A cache nobody has used, over a root that may hold anything. */
  function New(maxBytes: int, leftovers: map<Dir, Content>): System {
    var cap := if maxBytes <= 0 then DefaultPageCacheBytes else maxBytes;
    System(Cache(cap, cap / 4, false, map[], map[], [], 0, 0, leftovers), map[])
  }

  ghost predicate Run(trace: seq<System>, steps: seq<Step>) {
    && |trace| == |steps| + 1
    && (exists maxBytes, leftovers :: trace[0] == New(maxBytes, leftovers))
    && forall i :: 0 <= i < |steps| ==> Enabled(trace[i], steps[i]) && trace[i + 1] == Apply(trace[i], steps[i])
  }

  lemma {:induction false} RunKeepsInv(trace: seq<System>, steps: seq<Step>, i: nat)
    requires Run(trace, steps) && i <= |steps|
    ensures Inv(trace[i])
  {
    if i > 0 {
      RunKeepsInv(trace, steps, i - 1);
      StepKeeps(trace[i - 1], steps[i - 1]);
    }
  }

  // ------------------------------------------------------------------
  // An entry's outcome is final
  // ------------------------------------------------------------------

  /** Entries are never forgotten or renamed, and once settled keep their
      outcome. */
  ghost predicate Final(t: map<Id, Entry>, t': map<Id, Entry>) {
    forall e :: e in t ==>
      && e in t' && t'[e].key == t[e].key
      && (t[e].done ==> t'[e].done && t'[e].err == t[e].err && t'[e].pages == t[e].pages)
  }

  lemma RetireFinal(c: Cache<Id>, e: Id)
    requires e in c.table
    ensures Final(c.table, Retire(c, e).table)
  {
    hide Without;
  }

  lemma DiscardKeepsTable(c: Cache<Id>, dir: Option<Dir>)
    ensures Discard(c, dir).0.table == c.table
  {
  }

  lemma DropFinal(c: Cache<Id>, e: Id)
    requires e in c.table
    ensures Final(c.table, Drop(c, e).0.table)
  {
    hide Retire, Discard;
    if c.table[e].dead {
      FinalReflexive(c.table);
    } else {
      RetireFinal(c, e);
      DiscardKeepsTable(Retire(c, e), c.table[e].dir);
    }
  }

  lemma {:induction false} DropAllFinal(c: Cache<Id>, vs: seq<Id>)
    requires Known(vs, c.table)
    ensures Final(c.table, DropAll(c, vs).0.table)
    decreases |vs|
  {
    hide Final;
    if vs != [] {
      var c1 := Drop(c, vs[0]).0;
      DropFinal(c, vs[0]);
      DropAllFinal(c1, vs[1..]);
      FinalTransitive(c.table, c1.table, DropAll(c1, vs[1..]).0.table);
    } else {
      FinalReflexive(c.table);
    }
  }

  lemma FinalReflexive(t: map<Id, Entry>)
    ensures Final(t, t)
  {
  }

  lemma AdmitFinal(c: Cache<Id>, want: int)
    requires Known(c.lru, c.table)
    ensures Final(c.table, Admit(c, want).0.table)
    ensures Admit(c, want).0.table.Keys == c.table.Keys
  {
    hide Victims, DropAll;
    var vs := Victims(c.lru, c.table, c.bytes + want - c.maxBytes);
    DropAllFinal(c, vs);
    DropAllKeepsDone(c, vs);
  }

  lemma FinalTransitive(t0: map<Id, Entry>, t1: map<Id, Entry>, t2: map<Id, Entry>)
    requires Final(t0, t1) && Final(t1, t2)
    ensures Final(t0, t2)
  {
  }

  lemma RecordFinal(c: Cache<Id>, e: Id, dir: Option<Dir>, pages: Content, size: int, err: Option<string>)
    requires e in c.table && !c.table[e].done
    ensures Final(c.table, Record(c, e, dir, pages, size, err).table)
  {
  }

  lemma SettleFinal(c: Cache<Id>, e: Id, dir: Option<Dir>, pages: Content, size: int, err: Option<string>)
    requires e in c.table && !c.table[e].done && Known(c.lru, c.table)
    ensures Final(c.table, Settle(c, e, dir, pages, size, err).0.table)
    ensures e in Settle(c, e, dir, pages, size, err).0.table
    ensures var r := Settle(c, e, dir, pages, size, err).0.table[e]; r.done && r.err == err && r.pages == pages
  {
    hide Victims, DropAll;
    var c1 := Record(c, e, dir, pages, size, err);
    var vs := if err.Some? then [e] else Victims(c1.lru, c1.table, c1.bytes - c1.maxBytes);
    RecordFinal(c, e, dir, pages, size, err);
    DropAllFinal(c1, vs);
    FinalTransitive(c.table, c1.table, DropAll(c1, vs).0.table);
    DropAllOne(c1, e);
  }

  lemma DropAllOne(c: Cache<Id>, e: Id)
    requires e in c.table
    ensures DropAll(c, [e]).0 == Drop(c, e).0
  {
    assert DropAll(Drop(c, e).0, []) == (Drop(c, e).0, []);
  }

  lemma StepFinal(s: System, step: Step)
    requires Inv(s) && Enabled(s, step)
    ensures Final(s.cache.table, Apply(s, step).cache.table)
  {
    hide Inv, Admit, Settle;
    match step
    case AcquireFill(t, key, id) =>
      AdmitFinal(Init(s.cache), s.cache.archiveBudget);
    case Settled(t) =>
      SettleMarksDone(s, t);
    case _ =>
  }

  lemma SettleMarksDone(s: System, t: Tid)
    requires Inv(s) && Settleable(s, t) && Known(s.cache.lru, s.cache.table)
    ensures !s.cache.table[s.threads[t].pc.e].done
    ensures s.threads[t].pc.e in AfterSettle(s, t).cache.table
    ensures var r := AfterSettle(s, t).cache.table[s.threads[t].pc.e];
      r.done && r.err == s.threads[t].pc.err && r.pages == s.threads[t].pc.pages
    ensures Final(s.cache.table, AfterSettle(s, t).cache.table)
  {
    hide Inv, Settle;
    InUseIsReady(s, t);
    FillerFacts(s, t);
    var pc := s.threads[t].pc;
    SettleFinal(s.cache, pc.e, pc.dir, pc.pages, pc.size, pc.err);
  }

  lemma InUseIsReady(s: System, t: Tid)
    requires Inv(s) && t in s.threads
    ensures s.cache.ready
  {
  }

  lemma {:induction false} RunFinal(trace: seq<System>, steps: seq<Step>, i: nat, j: nat)
    requires Run(trace, steps) && i <= j <= |steps|
    ensures Final(trace[i].cache.table, trace[j].cache.table)
    decreases j
  {
    hide Final, Inv, Apply;
    if i < j {
      RunFinal(trace, steps, i, j - 1);
      RunKeepsInv(trace, steps, j - 1);
      StepFinal(trace[j - 1], steps[j - 1]);
      FinalTransitive(trace[i].cache.table, trace[j - 1].cache.table, trace[j].cache.table);
    } else {
      FinalReflexive(trace[i].cache.table);
    }
  }

  // ------------------------------------------------------------------
  // What a reader relies on
  // ------------------------------------------------------------------

  /** The pages of entry `e` are on disk where the entry says. */
  ghost predicate Displays(s: System, e: Id, pages: Content) {
    && e in s.cache.table && s.cache.table[e].dir == Some(Published(s.cache.table[e].key))
    && s.cache.table[e].dir.value in s.cache.disk
    && s.cache.disk[s.cache.table[e].dir.value] == pages
  }

  lemma HeldIsServed(s: System, e: Id)
    requires Inv(s) && e in s.cache.table
    requires s.cache.table[e].done && s.cache.table[e].err == None && s.cache.table[e].refs > 0
    ensures Displays(s, e, s.cache.table[e].pages)
  {
    assert Homed(s.cache.table[e], s.cache.disk, s.cache.archiveBudget);
  }

  /** From the moment an acquire hands an entry out until that call releases
      it, the entry's directory holds exactly the pages it held then: no
      eviction, no later fill of the same key and no delayed unlink renames,
      removes or overwrites it. */
  lemma ReadersKeepTheirPages(trace: seq<System>, steps: seq<Step>, i: nat, j: nat, t: Tid)
    requires Run(trace, steps) && i <= j <= |steps|
    requires t in trace[i].threads && trace[i].threads[t].pc.Reading?
    requires forall k :: i <= k <= j ==> t in trace[k].threads && trace[k].threads[t].pc == trace[i].threads[t].pc
    ensures var e := trace[i].threads[t].pc.e;
      e in trace[i].cache.table && Displays(trace[j], e, trace[i].cache.table[e].pages)
  {
    var e := trace[i].threads[t].pc.e;
    RunKeepsInv(trace, steps, i);
    RunKeepsInv(trace, steps, j);
    RunFinal(trace, steps, i, j);
    ReaderHolds(trace[i], t);
    ReaderHolds(trace[j], t);
    HeldIsServed(trace[j], e);
  }

  lemma ReaderHolds(s: System, t: Tid)
    requires Inv(s) && t in s.threads && s.threads[t].pc.Reading?
    ensures var e := s.threads[t].pc.e;
      e in s.cache.table && s.cache.table[e].done && s.cache.table[e].err == None && s.cache.table[e].refs > 0
  {
    HolderCounts(s, t);
  }

  // ------------------------------------------------------------------
  // Single flight
  // ------------------------------------------------------------------

  /** Two fills of one key never overlap. */
  lemma OneFillPerKey(trace: seq<System>, steps: seq<Step>, i: nat, t: Tid, u: Tid)
    requires Run(trace, steps) && i <= |steps|
    requires t in trace[i].threads && IsFill(trace[i].threads[t].pc)
    requires u in trace[i].threads && IsFill(trace[i].threads[u].pc)
    requires trace[i].threads[t].pc.e in trace[i].cache.table && trace[i].threads[u].pc.e in trace[i].cache.table
    requires trace[i].cache.table[trace[i].threads[t].pc.e].key == trace[i].cache.table[trace[i].threads[u].pc.e].key
    ensures t == u
  {
    var s := trace[i];
    RunKeepsInv(trace, steps, i);
    var d, e := s.threads[t].pc.e, s.threads[u].pc.e;
    assert FilledBy(s.threads, d, t) && FilledBy(s.threads, e, u);
    assert Homed(s.cache.table[d], s.cache.disk, s.cache.archiveBudget);
    assert Homed(s.cache.table[e], s.cache.disk, s.cache.archiveBudget);
    assert s.cache.index[s.cache.table[d].key] == d && s.cache.index[s.cache.table[e].key] == e;
  }

  /** An entry is settled at most once, and what every later caller observes is
      the outcome of that one settle. */
  lemma SettledOnce(trace: seq<System>, steps: seq<Step>, i: nat, j: nat)
    requires Run(trace, steps) && i < j < |steps|
    requires steps[i].Settled? && Enabled(trace[i], steps[i])
    ensures var pc := trace[i].threads[steps[i].t].pc;
      && pc.e in trace[j].cache.table
      && trace[j].cache.table[pc.e].done
      && trace[j].cache.table[pc.e].err == pc.err
      && trace[j].cache.table[pc.e].pages == pc.pages
      && (steps[j].Settled? ==> trace[j].threads[steps[j].t].pc.e != pc.e)
  {
    hide Inv;
    RunKeepsInv(trace, steps, i);
    RunKeepsInv(trace, steps, j);
    SettleMarksDone(trace[i], steps[i].t);
    RunFinal(trace, steps, i + 1, j);
    if steps[j].Settled? {
      SettleMarksDone(trace[j], steps[j].t);
    }
  }

  /** `k` is the step that settled `e`. */
  ghost predicate SettledAt(trace: seq<System>, steps: seq<Step>, k: nat, e: Id)
    requires Run(trace, steps) && k < |steps|
  {
    steps[k].Settled? && trace[k].threads[steps[k].t].pc.e == e
  }

  lemma RetireKeepsDone(c: Cache<Id>, e: Id)
    requires e in c.table
    ensures Retire(c, e).table.Keys == c.table.Keys
    ensures forall d :: d in c.table ==> Retire(c, e).table[d].done == c.table[d].done
  {
    hide Without;
  }

  lemma {:induction false} DropAllKeepsDone(c: Cache<Id>, vs: seq<Id>)
    requires Known(vs, c.table)
    ensures DropAll(c, vs).0.table.Keys == c.table.Keys
    ensures forall d :: d in c.table ==> DropAll(c, vs).0.table[d].done == c.table[d].done
    decreases |vs|
  {
    if vs != [] {
      RetireKeepsDone(c, vs[0]);
      DiscardKeepsTable(Retire(c, vs[0]), c.table[vs[0]].dir);
      hide Retire, Discard;
      DropAllKeepsDone(Drop(c, vs[0]).0, vs[1..]);
    }
  }

  lemma AdmitKeepsDone(c: Cache<Id>, want: int)
    requires Known(c.lru, c.table)
    ensures Admit(c, want).0.table.Keys == c.table.Keys
    ensures forall d :: d in c.table ==> Admit(c, want).0.table[d].done == c.table[d].done
  {
    hide Victims, DropAll;
    DropAllKeepsDone(c, Victims(c.lru, c.table, c.bytes + want - c.maxBytes));
  }

  lemma SettleKeepsOthers(c: Cache<Id>, e: Id, dir: Option<Dir>, pages: Content, size: int, err: Option<string>)
    requires e in c.table && Known(c.lru, c.table)
    ensures Settle(c, e, dir, pages, size, err).0.table.Keys == c.table.Keys
    ensures forall d :: d in c.table && d != e ==> Settle(c, e, dir, pages, size, err).0.table[d].done == c.table[d].done
  {
    hide Victims, DropAll, Drop;
    var c1 := Record(c, e, dir, pages, size, err);
    DropAllKeepsDone(c1, if err.Some? then [e] else Victims(c1.lru, c1.table, c1.bytes - c1.maxBytes));
    DropAllOne(c1, e);
  }

  /** Only settling marks an entry done, and only its own. */
  lemma DoneBySettling(s: System, step: Step, e: Id)
    requires Inv(s) && Enabled(s, step)
    requires e in Apply(s, step).cache.table && Apply(s, step).cache.table[e].done
    requires e in s.cache.table ==> !s.cache.table[e].done
    ensures step.Settled? && s.threads[step.t].pc.e == e
  {
    hide Inv, Admit, Settle;
    match step
    case AcquireFill(t, key, id) =>
      AdmitKeepsDone(Init(s.cache), s.cache.archiveBudget);
    case Settled(t) =>
      var pc := s.threads[t].pc;
      SettleKeepsOthers(s.cache, pc.e, pc.dir, pc.pages, pc.size, pc.err);
    case _ =>
  }

  /** Whatever is done was settled by an earlier step. */
  lemma {:induction false} SettledBefore(trace: seq<System>, steps: seq<Step>, j: nat, e: Id) returns (k: nat)
    requires Run(trace, steps) && j <= |steps|
    requires e in trace[j].cache.table && trace[j].cache.table[e].done
    ensures k < j && SettledAt(trace, steps, k, e)
    decreases j
  {
    hide Inv, Enabled, Apply;
    assert j > 0;
    if e in trace[j - 1].cache.table && trace[j - 1].cache.table[e].done {
      k := SettledBefore(trace, steps, j - 1, e);
    } else {
      RunKeepsInv(trace, steps, j - 1);
      DoneBySettling(trace[j - 1], steps[j - 1], e);
      k := j - 1;
    }
  }

  /** The outcome of the fill: exactly one step settled the entry, and the call
      is reading when that fill succeeded and on its way out when it failed. */
  ghost predicate Outcome(trace: seq<System>, steps: seq<Step>, j: nat, t: Tid, e: Id)
    requires Run(trace, steps) && j < |steps|
  {
    exists k: nat :: k < j && SettledAt(trace, steps, k, e)
      && (forall l: nat :: l < |steps| && SettledAt(trace, steps, l, e) ==> l == k)
      && t in trace[j + 1].threads
      && trace[j + 1].threads[t].pc
           == (if trace[k].threads[steps[k].t].pc.err == None then Reading(e) else Releasing(e))
  }

  lemma SettledUniquely(trace: seq<System>, steps: seq<Step>, k: nat, l: nat, e: Id)
    requires Run(trace, steps) && k < |steps| && l < |steps|
    requires SettledAt(trace, steps, k, e) && SettledAt(trace, steps, l, e)
    ensures k == l
  {
    hide Enabled, Apply;
    if k < l {
      SettledOnce(trace, steps, k, l);
    } else if l < k {
      SettledOnce(trace, steps, l, k);
    }
  }

  /** Every waiter gets the outcome of the one fill of its entry. */
  lemma WaitersGetTheOutcome(trace: seq<System>, steps: seq<Step>, j: nat)
    requires Run(trace, steps) && j < |steps| && steps[j].Observe?
    requires steps[j].t in trace[j].threads
    ensures Outcome(trace, steps, j, steps[j].t, trace[j].threads[steps[j].t].pc.e)
  {
    var t := steps[j].t;
    var e := trace[j].threads[t].pc.e;
    assert Enabled(trace[j], steps[j]) && trace[j + 1] == Apply(trace[j], steps[j]);
    var k := SettledBefore(trace, steps, j, e);
    assert Enabled(trace[k], steps[k]);
    SettledOnce(trace, steps, k, j);
    hide Enabled, Apply;
    forall l: nat | l < |steps| && SettledAt(trace, steps, l, e) ensures l == k {
      SettledUniquely(trace, steps, k, l, e);
    }
  }

  /** How far a filler is from settling, counting the trash it unlinks first. */
  function Rank(th: Thread): nat {
    |th.trash| +
    match th.pc
    case Staging(_) => 5
    case Filling(_, _) => 4
    case Filled(_, _, _, _) => 3
    case Cleared(_, _, _, _) => 2
    case Cleaning(_, _, _) => 1
    case _ => 0
  }

  function Onward(s: System, t: Tid): Step
    requires t in s.threads && IsFill(s.threads[t].pc)
  {
    if s.threads[t].trash != [] then Unlink(t)
    else
      match s.threads[t].pc
      case Staging(_) => StageFails(t, "no staging directory")
      case Filling(_, _) => FillReturns(t, 0)
      case Filled(_, _, _, _) => Clear(t)
      case Cleared(_, _, _, _) => Publish(t)
      case Cleaning(_, _, _) => Clean(t)
      case Settling(_, _, _, _, _) => Settled(t)
  }

  /** A filler is never stuck, whatever the others do, and one that is about to
      make its staging directory always finds a free name. */
  lemma FillersAreEnabled(s: System, t: Tid)
    requires Inv(s) && t in s.threads && IsFill(s.threads[t].pc)
    ensures Onward(s, t).t == t && !Onward(s, t).Write? && Enabled(s, Onward(s, t))
    ensures Onward(s, t).StageFails? ==> exists n: nat :: Enabled(s, Stage(t, n))
  {
    hide Inv;
    InUseIsReady(s, t);
    OwnsWellAt(s, t);
    TableKnowsList(s);
    if Onward(s, t).StageFails? {
      var n := FreeName(s.cache.disk.Keys);
      assert Enabled(s, Stage(t, n));
    }
  }

  /** Finitely many directories leave a staging name free. */
  lemma {:induction false} FreeName(ds: set<Dir>) returns (n: nat)
    ensures forall m: nat :: m >= n ==> Staged(m) !in ds
  {
    if ds == {} {
      n := 0;
    } else {
      var d :| d in ds;
      n := FreeName(ds - {d});
      if d.Staged? && n <= d.n {
        n := d.n + 1;
      }
    }
  }

  lemma TableKnowsList(s: System)
    requires Inv(s) && s.cache.ready
    ensures Known(s.cache.lru, s.cache.table)
  {
  }

  /** Every step a filler can take, other than writing a page, brings it closer
      to settling, and settling is the only way out of filling. */
  lemma FillersGetThere(s: System, step: Step)
    requires Inv(s) && Enabled(s, step) && !step.Touch? && step.t in s.threads && IsFill(s.threads[step.t].pc)
    requires !step.Write?
    ensures step.t in Apply(s, step).threads
    ensures var th, th' := s.threads[step.t], Apply(s, step).threads[step.t];
      if step.Settled? then !IsFill(th'.pc) else IsFill(th'.pc) && Rank(th') < Rank(th)
  {
    hide Inv, Settle;
  }

  // ------------------------------------------------------------------
  // Nothing is left behind
  // ------------------------------------------------------------------

  ghost predicate Quiet(s: System) {
    forall t :: t in s.threads ==> s.threads[t].trash == [] && s.threads[t].pc.Reading?
  }

  lemma UnsettledHasFiller(s: System, e: Id)
    requires Inv(s) && s.cache.ready && e in s.cache.table && !s.cache.table[e].done
    ensures exists t :: t in s.threads && IsFill(s.threads[t].pc)
  {
    var t :| FilledBy(s.threads, e, t);
  }

  lemma DebrisHasOwner(s: System, d: Dir)
    requires Inv(s) && s.cache.ready && d in s.cache.disk && !Served(s.cache, d)
    ensures exists t :: t in s.threads && Owns(s.threads[t], d)
  {
    var t :| OwnedBy(s.threads, d, t);
  }

  /** When every call has either returned or is reading, every entry is settled
      and the root holds exactly the published directories of the index. */
  lemma QuietLeavesNoDebris(s: System)
    requires Inv(s) && s.cache.ready && Quiet(s)
    ensures forall e :: e in s.cache.table ==> s.cache.table[e].done
    ensures s.cache.disk.Keys == set k | k in s.cache.index :: Published(k)
  {
    forall e | e in s.cache.table ensures s.cache.table[e].done {
      if !s.cache.table[e].done {
        UnsettledHasFiller(s, e);
      }
    }
    forall d | d in s.cache.disk ensures d.Published? && d.key in s.cache.index {
      if !Served(s.cache, d) {
        DebrisHasOwner(s, d);
      }
    }
    forall k | k in s.cache.index ensures Published(k) in s.cache.disk {
      var e := s.cache.index[k];
      assert e in s.cache.lru;
      assert Homed(s.cache.table[e], s.cache.disk, s.cache.archiveBudget);
    }
  }
}
