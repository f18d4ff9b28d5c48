/** Least recently used means what it says: the order of the list is the order
    of the last acquires, and evictions go by it. */
module CacheRecency {
  import opened Common
  import opened CacheState
  import opened CacheLaws
  import opened CacheSystem
  import opened CacheSafety
  import opened CacheReachable
  import opened CacheRuns

  /** The step hands entry `e` to a caller. */
  ghost predicate Acquires(s: System, step: Step, e: Id) {
    match step
    case AcquireFill(_, _, id) => id == e
    case AcquireHit(_, key) => key in s.cache.index && s.cache.index[key] == e
    case TryHit(_, key) => key in s.cache.index && s.cache.index[key] == e
    case _ => false
  }

  /** Of the first `i` steps, `k` is the last that acquired `e`. */
  ghost predicate LastAcquired(trace: seq<System>, steps: seq<Step>, i: nat, e: Id, k: nat)
    requires i <= |steps| <= |trace|
  {
    k < i && Acquires(trace[k], steps[k], e) && forall l :: k < l < i ==> !Acquires(trace[l], steps[l], e)
  }

  /** One past the last acquire among the first `i` steps, or 0. */
  ghost function Stamp(trace: seq<System>, steps: seq<Step>, i: nat, e: Id): (n: nat)
    requires i <= |steps| <= |trace|
    ensures n <= i && (n > 0 ==> LastAcquired(trace, steps, i, e, n - 1))
  {
    if i == 0 then 0
    else if Acquires(trace[i - 1], steps[i - 1], e) then i
    else Stamp(trace, steps, i - 1, e)
  }

  /** Every entry has a stamp, later ones first. */
  ghost predicate Ordered(es: seq<Id>, f: Id -> nat) {
    (forall p :: 0 <= p < |es| ==> f(es[p]) > 0) && forall p, q :: 0 <= p < q < |es| ==> f(es[p]) > f(es[q])
  }

  ghost function Stamps(trace: seq<System>, steps: seq<Step>, i: nat): Id -> nat
    requires i <= |steps| <= |trace|
  {
    (e: Id) => Stamp(trace, steps, i, e)
  }

  lemma OrderedTail(es: seq<Id>, f: Id -> nat)
    requires Ordered(es, f) && es != []
    ensures Ordered(es[1..], f) && forall e :: e in es[1..] ==> f(es[0]) > f(e)
  {
    assert forall p :: 0 <= p < |es| - 1 ==> es[1..][p] == es[p + 1];
  }

  lemma OrderedCons(e: Id, es: seq<Id>, f: Id -> nat, g: Id -> nat)
    requires Ordered(es, f) && g(e) > 0
    requires forall d :: d in es ==> g(d) == f(d) && g(e) > f(d)
    ensures Ordered([e] + es, g)
  {
    assert forall p :: 0 < p < |es| + 1 ==> ([e] + es)[p] == es[p - 1] && es[p - 1] in es;
  }

  lemma {:induction false} SurvivorsOrdered(es: seq<Id>, vs: seq<Id>, f: Id -> nat)
    requires Ordered(es, f)
    ensures Ordered(Survivors(es, vs), f)
  {
    if es != [] {
      OrderedTail(es, f);
      SurvivorsOrdered(es[1..], vs, f);
      if es[0] !in vs {
        OrderedCons(es[0], Survivors(es[1..], vs), f, f);
      }
    }
  }

  lemma WithoutSurvives(es: seq<Id>, e: Id)
    ensures Without(es, e) == Survivors(es, [e])
  {
    SurvivorsStep(es, e, []);
    SurvivorsOfNone(Without(es, e));
  }

  // ------------------------------------------------------------------
  // What a step does to the list
  // ------------------------------------------------------------------

  /** The entries a step puts out of the list to make room. */
  ghost function Evicted(s: System, step: Step): seq<Id>
    requires Enabled(s, step)
  {
    match step
    case AcquireFill(t, key, id) => if s.cache.ready then Admitted(s.cache, s.cache.archiveBudget) else []
    case Settled(t) =>
      var pc := s.threads[t].pc;
      if pc.err.Some? then [pc.e] else OverCap(s, t)
    case _ => []
  }

  /** What settling a fill gives up for the bytes over the cap. */
  ghost function OverCap(s: System, t: Tid): seq<Id>
    requires Settleable(s, t) && Known(s.cache.lru, s.cache.table)
  {
    var c := Recorded(s, t).cache;
    Victims(c.lru, c.table, c.bytes - c.maxBytes)
  }

  lemma FillList(s: System, t: Tid, key: Key, id: Id)
    requires Inv(s) && s.cache.ready && Enabled(s, AcquireFill(t, key, id))
    ensures Apply(s, AcquireFill(t, key, id)).cache.lru == [id] + Survivors(s.cache.lru, Admitted(s.cache, s.cache.archiveBudget))
    ensures id !in s.cache.lru
  {
    hide CacheInv, SingleFlight, Owned, Admit, Victims, AllEvictable, DropAll;
    var c := s.cache;
    UnsettledAreHeld(s);
    VictimsAreEvictable(c, c.bytes + c.archiveBudget - c.maxBytes);
    AdmitDrops(c, c.archiveBudget);
    EvictionEffect(c, Admitted(c, c.archiveBudget));
    TableKnowsList(s);
  }

  lemma FailureList(s: System, t: Tid)
    requires Inv(s) && s.cache.ready && Settleable(s, t) && Known(s.cache.lru, s.cache.table)
    requires s.threads[t].pc.err.Some?
    ensures AfterSettle(s, t).cache.lru == Survivors(s.cache.lru, [s.threads[t].pc.e])
  {
    hide Inv, Settle, FilledBy, Owned, Served, CacheInv, Forgotten;
    var pc := s.threads[t].pc;
    FillerFacts(s, t);
    OwnsWellAt(s, t);
    SoundCache(s);
    FailedFillLeavesNothing(s.cache, pc.e, pc.err.value);
    ForgottenList(s.cache, pc.e, pc.err.value);
    WithoutSurvives(s.cache.lru, pc.e);
  }

  lemma ForgottenList(c: Cache<Id>, e: Id, why: string)
    requires e in c.table
    ensures Forgotten(c, e, why).lru == Without(c.lru, e)
  {
  }

  lemma SoundCache(s: System)
    requires Inv(s) && s.cache.ready
    ensures CacheInv(s.cache)
  {
  }

  lemma SuccessList(s: System, t: Tid)
    requires Inv(s) && s.cache.ready && Settleable(s, t) && Known(s.cache.lru, s.cache.table)
    requires s.threads[t].pc.err == None
    ensures AfterSettle(s, t).cache.lru == Survivors(s.cache.lru, OverCap(s, t))
  {
    hide CacheInv, Counted, SingleFlight, Owned, Victims, DropAll, AllEvictable;
    RecordKeeps(s, t);
    var s1 := Recorded(s, t);
    var c := s1.cache;
    if c.bytes > c.maxBytes {
      UnsettledAreHeld(s1);
      VictimsAreEvictable(c, c.bytes - c.maxBytes);
      EvictionEffect(c, OverCap(s, t));
    } else {
      SurvivorsOfNone(c.lru);
      NoVictims(c.lru, c.table, c.bytes - c.maxBytes);
    }
  }

  lemma NoVictims(lru: seq<Id>, table: map<Id, Entry>, need: int)
    requires Known(lru, table) && need <= 0
    ensures Victims(lru, table, need) == []
  {
  }

  lemma HitList(s: System, t: Tid, key: Key)
    requires Inv(s) && key in s.cache.index && s.cache.index[key] in s.cache.table
    ensures var e := s.cache.index[key];
      e in s.cache.lru && Hold(s.cache, e).lru == [e] + Survivors(s.cache.lru, [e])
  {
    WithoutSurvives(s.cache.lru, s.cache.index[key]);
  }

  /** The list after a step: whoever was acquired in front of the survivors. */
  lemma NextList(s: System, step: Step)
    requires Inv(s) && Enabled(s, step)
    ensures var lru, lru' := s.cache.lru, Apply(s, step).cache.lru;
      if step.AcquireFill? then lru' == [step.id] + Survivors(lru, Evicted(s, step)) && step.id !in lru
      else if step.AcquireHit? || step.TryHit? then
        step.key in s.cache.index && s.cache.index[step.key] in lru
        && lru' == [s.cache.index[step.key]] + Survivors(lru, [s.cache.index[step.key]])
      else lru' == Survivors(lru, Evicted(s, step))
  {
    hide Inv, Admit, Settle, CacheInv;
    match step
    case AcquireFill(t, key, id) => FillListAnyway(s, t, key, id);
    case AcquireHit(t, key) => HitList(s, t, key);
    case TryHit(t, key) => HitList(s, t, key);
    case Settled(t) =>
      InUseIsReady(s, t);
      if s.threads[t].pc.err.Some? {
        FailureList(s, t);
      } else {
        SuccessList(s, t);
      }
    case _ => SurvivorsOfNone(s.cache.lru);
  }

  lemma FillListAnyway(s: System, t: Tid, key: Key, id: Id)
    requires Inv(s) && Enabled(s, AcquireFill(t, key, id))
    ensures var step := AcquireFill(t, key, id);
      Apply(s, step).cache.lru == [id] + Survivors(s.cache.lru, Evicted(s, step)) && id !in s.cache.lru
  {
    hide CacheInv, Counted, SingleFlight, Owned, Victims, DropAll;
    if s.cache.ready {
      FillList(s, t, key, id);
    } else {
      InitKeeps(s);
      FillList(s.(cache := Init(s.cache)), t, key, id);
      SurvivorsOfNone(s.cache.lru);
    }
  }

  // ------------------------------------------------------------------
  // Every run
  // ------------------------------------------------------------------

  lemma StampStep(trace: seq<System>, steps: seq<Step>, i: nat, e: Id)
    requires 0 < i <= |steps| <= |trace|
    ensures Stamp(trace, steps, i, e) ==
      if Acquires(trace[i - 1], steps[i - 1], e) then i else Stamp(trace, steps, i - 1, e)
  {
  }

  lemma {:induction false} ListIsOrdered(trace: seq<System>, steps: seq<Step>, i: nat)
    requires Run(trace, steps) && i <= |steps|
    ensures Ordered(trace[i].cache.lru, Stamps(trace, steps, i))
  {
    hide Inv, Enabled, Apply, Ordered, Stamp;
    if i == 0 {
      ColdIsOrdered(trace[0].cache.lru, Stamps(trace, steps, 0)) by { NewIsCold(trace, steps); }
    } else {
      var s, step, f, g := trace[i - 1], steps[i - 1], Stamps(trace, steps, i - 1), Stamps(trace, steps, i);
      ListIsOrdered(trace, steps, i - 1);
      RunKeepsInv(trace, steps, i - 1);
      NextList(s, step);
      forall e ensures g(e) == (if Acquires(s, step, e) then i else f(e)) && f(e) < i {
        StampStep(trace, steps, i, e);
        assert f(e) == Stamp(trace, steps, i - 1, e);
      }
      ReorderedIsOrdered(s, step, f, g, i);
    }
  }

  lemma NewIsCold(trace: seq<System>, steps: seq<Step>)
    requires Run(trace, steps)
    ensures trace[0].cache.lru == []
  {
  }

  lemma ColdIsOrdered(es: seq<Id>, f: Id -> nat)
    requires es == []
    ensures Ordered(es, f)
  {
  }

  lemma ReorderedIsOrdered(s: System, step: Step, f: Id -> nat, g: Id -> nat, i: nat)
    requires Inv(s) && Enabled(s, step) && Ordered(s.cache.lru, f) && i > 0
    requires forall e :: g(e) == (if Acquires(s, step, e) then i else f(e)) && f(e) < i
    ensures Ordered(Apply(s, step).cache.lru, g)
  {
    hide Inv, Apply, Ordered;
    NextList(s, step);
    if step.AcquireFill? || step.AcquireHit? || step.TryHit? {
      var e: Id := if step.AcquireFill? then step.id else s.cache.index[step.key];
      var vs: seq<Id> := if step.AcquireFill? then Evicted(s, step) else [e];
      SurvivorsOrdered(s.cache.lru, vs, f);
      OrderedCons(e, Survivors(s.cache.lru, vs), f, g);
    } else {
      SurvivorsOrdered(s.cache.lru, Evicted(s, step), f);
      OrderedAlike(Survivors(s.cache.lru, Evicted(s, step)), f, g);
    }
  }

  lemma OrderedAlike(es: seq<Id>, f: Id -> nat, g: Id -> nat)
    requires Ordered(es, f) && forall e :: f(e) == g(e)
    ensures Ordered(es, g)
  {
  }

  /** In every state of every run, every listed entry was acquired, and the one
      nearer the front later. */
  lemma FrontIsMoreRecent(trace: seq<System>, steps: seq<Step>, i: nat, p: nat, q: nat) returns (k: nat, l: nat)
    requires Run(trace, steps) && i <= |steps| && p <= q < |trace[i].cache.lru|
    ensures LastAcquired(trace, steps, i, trace[i].cache.lru[p], k)
    ensures LastAcquired(trace, steps, i, trace[i].cache.lru[q], l)
    ensures p < q ==> l < k
  {
    hide Enabled, Apply;
    var lru, f := trace[i].cache.lru, Stamps(trace, steps, i);
    ListIsOrdered(trace, steps, i);
    k, l := f(lru[p]) - 1, f(lru[q]) - 1;
  }

  // ------------------------------------------------------------------
  // Evictions
  // ------------------------------------------------------------------

  /** The scan meets unheld entries in the order of their stamps. */
  lemma {:induction false} UnheldAscend(es: seq<Id>, table: map<Id, Entry>, f: Id -> nat, a: nat, b: nat)
    requires Known(es, table) && Ordered(es, f) && a < b < |Unheld(es, table)|
    ensures f(Unheld(es, table)[a]) < f(Unheld(es, table)[b])
  {
    hide Ordered;
    var e, rest := es[|es| - 1], es[..|es| - 1];
    FrontOrdered(es, f);
    if table[e].refs > 0 {
      UnheldAscend(rest, table, f, a, b);
    } else if a > 0 {
      UnheldAscend(rest, table, f, a - 1, b - 1);
    } else {
      assert Unheld(es, table)[b] == Unheld(rest, table)[b - 1];
    }
  }

  lemma FrontOrdered(es: seq<Id>, f: Id -> nat)
    requires Ordered(es, f) && es != []
    ensures Ordered(es[..|es| - 1], f) && forall d :: d in es[..|es| - 1] ==> f(d) > f(es[|es| - 1])
  {
    assert forall p :: 0 <= p < |es| - 1 ==> es[..|es| - 1][p] == es[p];
  }

  /** Whom a step evicts to make room, from a list in the order of its stamps:
      whoever survives without being held has a later one. */
  lemma VictimsAreOldest(es: seq<Id>, table: map<Id, Entry>, need: int, f: Id -> nat, v: Id, e: Id)
    requires Known(es, table) && Ordered(es, f)
    requires v in Victims(es, table, need) && e in es && e !in Victims(es, table, need) && table[e].refs <= 0
    ensures table[v].refs <= 0 && f(v) < f(e)
  {
    hide Ordered;
    var us, vs := Unheld(es, table), Victims(es, table, need);
    VictimsShortestRun(es, table, need);
    var a :| 0 <= a < |vs| && vs[a] == v;
    var b :| 0 <= b < |us| && us[b] == e;
    assert us[a] == v && b >= |vs|;
    UnheldAscend(es, table, f, a, b);
  }

  /** An entry leaves the list for room, and not because its own fill failed. */
  ghost predicate EvictedBy(s: System, step: Step, v: Id)
    requires Enabled(s, step)
  {
    && v in s.cache.lru && v !in Apply(s, step).cache.lru
    && (step.Settled? && s.threads[step.t].pc.err.Some? ==> v != s.threads[step.t].pc.e)
  }

  /** In every run: whenever an entry is evicted nobody holds it, and every entry
      that stays and that nobody holds was acquired after it. */
  lemma EvictsLeastRecent(trace: seq<System>, steps: seq<Step>, i: nat, v: Id, e: Id) returns (k: nat, l: nat)
    requires Run(trace, steps) && i < |steps| && EvictedBy(trace[i], steps[i], v)
    requires e in trace[i].cache.lru && e in Apply(trace[i], steps[i]).cache.lru
    requires e in trace[i].cache.table && trace[i].cache.table[e].refs <= 0
    ensures v in trace[i].cache.table && trace[i].cache.table[v].refs <= 0
    ensures LastAcquired(trace, steps, i, v, k) && LastAcquired(trace, steps, i, e, l) && k < l
  {
    hide Inv, Apply, Ordered, Stamp, Enabled, LastAcquired, Acquires;
    var s, step, f := trace[i], steps[i], Stamps(trace, steps, i);
    RunKeepsInv(trace, steps, i);
    ListIsOrdered(trace, steps, i);
    EvictedAreOldest(s, step, f, v, e);
    OrderedIsStamped(s.cache.lru, f, v);
    k, l := f(v) - 1, f(e) - 1;
  }

  lemma OrderedIsStamped(es: seq<Id>, f: Id -> nat, e: Id)
    requires Ordered(es, f) && e in es
    ensures f(e) > 0
  {
  }

  lemma EvictedAreOldest(s: System, step: Step, f: Id -> nat, v: Id, e: Id)
    requires Inv(s) && Enabled(s, step) && Ordered(s.cache.lru, f) && EvictedBy(s, step, v)
    requires e in s.cache.lru && e in Apply(s, step).cache.lru && e in s.cache.table && s.cache.table[e].refs <= 0
    ensures v in s.cache.table && s.cache.table[v].refs <= 0 && f(v) < f(e)
  {
    hide Inv, Apply, Ordered, Admit, Settle, Victims, Recorded;
    NextList(s, step);
    EvictedAre(s, step, v, e);
    if step.AcquireFill? {
      AdmittedAreOldest(s, step, f, v, e);
    } else {
      OverCapAreOldest(s, step.t, f, v, e);
    }
  }

  /** Only a reservation or a settled success evicts. */
  lemma EvictedAre(s: System, step: Step, v: Id, e: Id)
    requires Inv(s) && Enabled(s, step) && EvictedBy(s, step, v)
    requires e in s.cache.lru && e in Apply(s, step).cache.lru
    ensures step.AcquireFill? || (step.Settled? && s.threads[step.t].pc.err == None)
    ensures v in Evicted(s, step) && (e in Evicted(s, step) ==> step.AcquireFill? && e == step.id)
  {
    hide Inv, Apply, Admit, Settle, Victims;
    NextList(s, step);
  }

  lemma AdmittedAreOldest(s: System, step: Step, f: Id -> nat, v: Id, e: Id)
    requires Inv(s) && Enabled(s, step) && Ordered(s.cache.lru, f) && step.AcquireFill?
    requires v in s.cache.lru && v in Evicted(s, step) && e !in Evicted(s, step)
    requires e in s.cache.lru && e in s.cache.table && s.cache.table[e].refs <= 0
    ensures v in s.cache.table && s.cache.table[v].refs <= 0 && f(v) < f(e)
  {
    hide Inv, Ordered, Admit, Victims;
    ReadyToEvict(s, step);
    var c := s.cache;
    VictimsAreOldest(c.lru, c.table, c.bytes + c.archiveBudget - c.maxBytes, f, v, e);
  }

  lemma RecordedAlike(s: System, t: Tid)
    requires Settleable(s, t)
    ensures var c, r := s.cache, Recorded(s, t).cache;
      r.lru == c.lru && r.table.Keys == c.table.Keys && forall e :: e in c.table ==> r.table[e].refs == c.table[e].refs
  {
  }

  lemma OverCapAreOldest(s: System, t: Tid, f: Id -> nat, v: Id, e: Id)
    requires Settleable(s, t) && Known(s.cache.lru, s.cache.table) && Ordered(s.cache.lru, f)
    requires v in s.cache.lru && v in OverCap(s, t) && e !in OverCap(s, t)
    requires e in s.cache.lru && e in s.cache.table && s.cache.table[e].refs <= 0
    ensures v in s.cache.table && s.cache.table[v].refs <= 0 && f(v) < f(e)
  {
    hide Ordered, Victims, Recorded;
    RecordedAlike(s, t);
    var r := Recorded(s, t).cache;
    VictimsAreOldest(r.lru, r.table, r.bytes - r.maxBytes, f, v, e);
  }

  lemma ReadyToEvict(s: System, step: Step)
    requires Inv(s) && s.cache.lru != []
    ensures s.cache.ready
  {
  }

  /** After a fill was settled the byte count is within the cap, or every listed
      entry is held: nothing more could have been evicted. */
  lemma SettlingMakesRoom(s: System, t: Tid)
    requires Inv(s) && Settleable(s, t) && Known(s.cache.lru, s.cache.table)
    requires s.threads[t].pc.err == None
    ensures var c := AfterSettle(s, t).cache;
      c.bytes <= c.maxBytes || forall e :: e in c.lru ==> e in c.table && c.table[e].refs > 0
  {
    hide CacheInv, Counted, SingleFlight, Owned, Victims, DropAll, AllEvictable, Unheld;
    InUseIsReady(s, t);
    RecordKeeps(s, t);
    var s1 := Recorded(s, t);
    var c := s1.cache;
    if c.bytes > c.maxBytes {
      var vs, us := OverCap(s, t), Unheld(c.lru, c.table);
      UnsettledAreHeld(s1);
      VictimsAreEvictable(c, c.bytes - c.maxBytes);
      EvictionEffect(c, vs);
      VictimsShortestRun(c.lru, c.table, c.bytes - c.maxBytes);
      var c' := DropAll(c, vs).0;
      if |vs| == |us| {
        assert vs == us;
        forall e | e in c'.lru ensures e in c'.table && c'.table[e].refs > 0 {
          assert e in c.lru && e !in vs;
        }
      }
    }
  }
}
