/** Every interleaving of the cache's callers.

    A thread is one call in flight. The sections that hold the lock are single
    steps of `CacheState`; everything a filler or an unlinker does to the disk
    outside the lock is a step of its own. */
module CacheSystem {
  import opened Common
  import opened CacheState
  import opened CacheLaws

  type Id = nat
  type Tid = nat

  /** Where a call has got to. Every call in flight holds one reference to the
      entry `e`. A winner of the fill goes from `Staging` to `Settling`. */
  datatype Pc =
    | Waiting(e: Id)
    | Reading(e: Id)
    | Releasing(e: Id)
    | Staging(e: Id)
    | Filling(e: Id, tmp: Dir)
    | Filled(e: Id, tmp: Dir, pages: Content, size: int)
    | Cleared(e: Id, tmp: Dir, pages: Content, size: int)
    | Cleaning(e: Id, tmp: Dir, why: string)
    | Settling(e: Id, dir: Option<Dir>, pages: Content, size: int, err: Option<string>)

  /** `trash` is what this call still has to unlink before it goes on. */
  datatype Thread = Thread(trash: seq<Dir>, pc: Pc)

  datatype System = System(cache: Cache<Id>, threads: map<Tid, Thread>)

  datatype Step =
    | Touch                                    // initLocked and nothing else: a refused or a private acquire
    | TryHit(t: Tid, key: Key)
    | AcquireHit(t: Tid, key: Key)
    | AcquireFill(t: Tid, key: Key, id: Id)
    | Unlink(t: Tid)
    | Stage(t: Tid, n: nat)
    | StageFails(t: Tid, why: string)
    | Write(t: Tid, content: Content)
    | FillReturns(t: Tid, size: int)
    | FillFails(t: Tid, why: string)           // an error or a recovered panic
    | Clear(t: Tid)
    | Publish(t: Tid)
    | PublishFails(t: Tid, why: string)
    | Clean(t: Tid)
    | Settled(t: Tid)
    | Observe(t: Tid)
    | GiveUp(t: Tid)
    | Let(t: Tid)                              // release

  predicate IsFill(pc: Pc) {
    pc.Staging? || pc.Filling? || pc.Filled? || pc.Cleared? || pc.Cleaning? || pc.Settling?
  }

  function TmpOf(pc: Pc): Option<Dir> {
    if pc.Filling? || pc.Filled? || pc.Cleared? || pc.Cleaning? then Some(pc.tmp) else None
  }

  predicate Running(s: System, t: Tid) {
    t in s.threads && s.threads[t].trash == []
  }

  ghost predicate Enabled(s: System, step: Step) {
    match step
    case Touch => true
    case TryHit(t, key) => t !in s.threads && key in s.cache.index && s.cache.index[key] in s.cache.table
    case AcquireHit(t, key) => t !in s.threads && key in Init(s.cache).index && s.cache.index[key] in s.cache.table
    case AcquireFill(t, key, id) =>
      && t !in s.threads && key !in Init(s.cache).index && id !in s.cache.table
      && Known(s.cache.lru, s.cache.table) && Admit(Init(s.cache), s.cache.archiveBudget).2
    case Unlink(t) => t in s.threads && s.threads[t].trash != []
    case Stage(t, n) => Running(s, t) && s.threads[t].pc.Staging? && Staged(n) !in s.cache.disk
    case StageFails(t, why) => Running(s, t) && s.threads[t].pc.Staging?
    case Write(t, content) => Running(s, t) && s.threads[t].pc.Filling?
    case FillReturns(t, size) => Running(s, t) && s.threads[t].pc.Filling? && s.threads[t].pc.tmp in s.cache.disk
    case FillFails(t, why) => Running(s, t) && s.threads[t].pc.Filling?
    case Clear(t) => Running(s, t) && s.threads[t].pc.Filled? && s.threads[t].pc.e in s.cache.table
    case Publish(t) =>
      && Running(s, t) && s.threads[t].pc.Cleared? && s.threads[t].pc.tmp in s.cache.disk
      && s.threads[t].pc.e in s.cache.table
    case PublishFails(t, why) => Running(s, t) && s.threads[t].pc.Cleared?
    case Clean(t) => Running(s, t) && s.threads[t].pc.Cleaning?
    case Settled(t) =>
      Settleable(s, t) && Known(s.cache.lru, s.cache.table)
    case Observe(t) =>
      && Running(s, t) && s.threads[t].pc.Waiting?
      && s.threads[t].pc.e in s.cache.table && s.cache.table[s.threads[t].pc.e].done
    case GiveUp(t) => Running(s, t) && s.threads[t].pc.Waiting?
    case Let(t) =>
      && Running(s, t) && (s.threads[t].pc.Reading? || s.threads[t].pc.Releasing?)
      && s.threads[t].pc.e in s.cache.table
  }

  /** The call is now at `pc`. */
  function At(s: System, t: Tid, pc: Pc): System {
    s.(threads := s.threads[t := Thread([], pc)])
  }

  function OnDisk(s: System, disk: map<Dir, Content>): System {
    s.(cache := s.cache.(disk := disk))
  }

  predicate Settleable(s: System, t: Tid) {
    Running(s, t) && s.threads[t].pc.Settling? && s.threads[t].pc.e in s.cache.table
  }

  ghost function AfterSettle(s: System, t: Tid): System
    requires Settleable(s, t) && Known(s.cache.lru, s.cache.table)
  {
    var pc := s.threads[t].pc;
    var (c', trash) := Settle(s.cache, pc.e, pc.dir, pc.pages, pc.size, pc.err);
    System(c', s.threads[t := Thread(trash, if pc.err.Some? then Releasing(pc.e) else Reading(pc.e))])
  }

  ghost function Apply(s: System, step: Step): System
    requires Enabled(s, step)
  {
    var c, ts := s.cache, s.threads;
    match step
    case Touch => s.(cache := Init(c))
    case TryHit(t, key) => System(Hold(c, c.index[key]), ts[t := Thread([], Waiting(c.index[key]))])
    case AcquireHit(t, key) => System(Hold(Init(c), c.index[key]), ts[t := Thread([], Waiting(c.index[key]))])
    case AcquireFill(t, key, id) =>
      var (c', trash, _) := Admit(Init(c), c.archiveBudget);
      System(Insert(c', key, id), ts[t := Thread(trash, Staging(id))])
    case Unlink(t) =>
      OnDisk(s.(threads := ts[t := ts[t].(trash := ts[t].trash[1..])]), c.disk - {ts[t].trash[0]})
    case Stage(t, n) => OnDisk(At(s, t, Filling(ts[t].pc.e, Staged(n))), c.disk[Staged(n) := map[]])
    case StageFails(t, why) => At(s, t, Settling(ts[t].pc.e, None, map[], 0, Some(why)))
    case Write(t, content) => OnDisk(s, c.disk[ts[t].pc.tmp := content])
    case FillReturns(t, size) => At(s, t, Filled(ts[t].pc.e, ts[t].pc.tmp, c.disk[ts[t].pc.tmp], size))
    case FillFails(t, why) => At(s, t, Cleaning(ts[t].pc.e, ts[t].pc.tmp, why))
    case Clear(t) =>
      var pc := ts[t].pc;
      OnDisk(At(s, t, Cleared(pc.e, pc.tmp, pc.pages, pc.size)), c.disk - {Published(c.table[pc.e].key)})
    case Publish(t) =>
      var pc := ts[t].pc;
      var final := Published(c.table[pc.e].key);
      OnDisk(At(s, t, Settling(pc.e, Some(final), pc.pages, pc.size, None)),
             (c.disk - {pc.tmp})[final := c.disk[pc.tmp]])
    case PublishFails(t, why) => At(s, t, Cleaning(ts[t].pc.e, ts[t].pc.tmp, why))
    case Clean(t) =>
      OnDisk(At(s, t, Settling(ts[t].pc.e, None, map[], 0, Some(ts[t].pc.why))), c.disk - {ts[t].pc.tmp})
    case Settled(t) => AfterSettle(s, t)
    case Observe(t) =>
      At(s, t, if c.table[ts[t].pc.e].err.Some? then Releasing(ts[t].pc.e) else Reading(ts[t].pc.e))
    case GiveUp(t) => At(s, t, Releasing(ts[t].pc.e))
    case Let(t) => System(Release(c, ts[t].pc.e), ts - {t})
  }

  // ------------------------------------------------------------------
  // The invariant
  // ------------------------------------------------------------------

  ghost function Holders(threads: map<Tid, Thread>, e: Id): set<Tid> {
    set t | t in threads && threads[t].pc.e == e
  }

  /** An entry's reference count is the number of calls that hold it. */
  ghost predicate Counted(s: System) {
    && (forall t :: t in s.threads ==> s.threads[t].pc.e in s.cache.table)
    && (forall e :: e in s.cache.table ==> s.cache.table[e].refs == |Holders(s.threads, e)|)
  }

  ghost predicate FilledBy(threads: map<Tid, Thread>, e: Id, t: Tid) {
    t in threads && IsFill(threads[t].pc) && threads[t].pc.e == e
  }

  /** Single flight: an unsettled entry has exactly one filler, a settled one
      has none, and whoever reads has a fill that succeeded. */
  ghost predicate SingleFlight(s: System)
    requires Counted(s)
  {
    && (forall e, t :: FilledBy(s.threads, e, t) ==> !s.cache.table[e].done)
    && (forall e, t, u :: FilledBy(s.threads, e, t) && FilledBy(s.threads, e, u) ==> t == u)
    && (forall e :: e in s.cache.table && !s.cache.table[e].done ==> exists t :: FilledBy(s.threads, e, t))
    && (forall t :: t in s.threads && s.threads[t].pc.Reading? ==>
          s.cache.table[s.threads[t].pc.e].done && s.cache.table[s.threads[t].pc.e].err == None)
  }

  /** The directories a call is responsible for. */
  ghost predicate Owns(th: Thread, d: Dir) {
    || d in th.trash
    || TmpOf(th.pc) == Some(d)
    || (th.pc.Settling? && th.pc.dir == Some(d))
  }

  /** What a call owns is on disk, under a name of the right kind. */
  ghost predicate OwnsWell(th: Thread, table: map<Id, Entry>, disk: map<Dir, Content>) {
    && NoDup(th.trash)
    && (forall d :: d in th.trash ==> d.Trash? && d in disk)
    && (TmpOf(th.pc).Some? ==> th.pc.tmp.Staged? && th.pc.tmp in disk)
    && (th.pc.Filled? || th.pc.Cleared? ==> disk[th.pc.tmp] == th.pc.pages)
    && (th.pc.Settling? ==>
          if th.pc.err.Some? then th.pc.dir == None && th.pc.size == 0 && th.pc.pages == map[]
          else && th.pc.e in table && th.pc.dir == Some(Published(table[th.pc.e].key))
               && th.pc.dir.value in disk && disk[th.pc.dir.value] == th.pc.pages)
  }

  ghost predicate OwnedBy(threads: map<Tid, Thread>, d: Dir, t: Tid) {
    t in threads && Owns(threads[t], d)
  }

  /** A published directory of a settled entry. */
  ghost predicate Served(c: Cache<Id>, d: Dir) {
    d.Published? && d.key in c.index && c.index[d.key] in c.table && c.table[c.index[d.key]].done
  }

  /** Nothing is owned twice, and nothing is on disk that is neither served nor
      owned by a call in flight. */
  ghost predicate Owned(s: System) {
    && (forall t :: t in s.threads ==> OwnsWell(s.threads[t], s.cache.table, s.cache.disk))
    && (forall t, u, d :: OwnedBy(s.threads, d, t) && OwnedBy(s.threads, d, u) ==> t == u)
    && (forall d :: d in s.cache.disk ==> Served(s.cache, d) || exists t :: OwnedBy(s.threads, d, t))
  }

  /** Before the first use nothing is known about the root. */
  ghost predicate Cold(s: System) {
    && s.threads == map[] && s.cache.table == map[] && s.cache.index == map[]
    && s.cache.lru == [] && s.cache.bytes == 0
  }

  ghost predicate Inv(s: System) {
    if !s.cache.ready then Cold(s)
    else CacheInv(s.cache) && Counted(s) && SingleFlight(s) && Owned(s)
  }
}
