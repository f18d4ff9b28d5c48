/** A run that attains the bound of `CacheDisk`: one stalled unlinker and one
    running fill put a whole archive budget on disk beyond the cap. */
module CacheOverrun {
  import opened Common
  import opened Occupancy
  import opened CacheState
  import opened CacheLaws
  import opened CacheSystem
  import opened CacheRuns
  import opened CacheCap
  import opened CacheDisk

  ghost predicate Reached(s: System) {
    exists trace, steps :: BudgetedRun(trace, steps) && trace[|steps|] == s
  }

  lemma Begins(maxBytes: int)
    ensures Reached(New(maxBytes, map[]))
  {
    var s := New(maxBytes, map[]);
    assert BudgetedRun([s], []) && [s][0] == s;
  }

  lemma Steps(s: System, step: Step, s': System)
    requires Reached(s) && Enabled(s, step) && WithinBudget(s, step) && s' == Apply(s, step)
    ensures Reached(s')
  {
    hide Enabled, WithinBudget, Apply;
    var trace, steps :| BudgetedRun(trace, steps) && trace[|steps|] == s;
    var trace', steps' := trace + [s'], steps + [step];
    forall i | 0 <= i < |steps'|
      ensures Enabled(trace'[i], steps'[i]) && trace'[i + 1] == Apply(trace'[i], steps'[i])
           && WithinBudget(trace'[i], steps'[i])
    {
      assert i < |steps| ==> trace'[i] == trace[i] && trace'[i + 1] == trace[i + 1];
    }
    assert trace'[0] == trace[0];
    assert BudgetedRun(trace', steps') && trace'[|steps'|] == s';
  }

  /** One page of `n` bytes. */
  function Page(n: nat): (c: Content)
    ensures 0 in c && |c[0]| == n
  {
    map[0 := seq(n, i => 0)]
  }

  lemma PageWeighs(n: nat)
    ensures Occupied(Page(n)) == n
  {
    OccupiedWithout(Page(n), 0);
    assert Page(n) - {0} == map[];
  }

  // ------------------------------------------------------------------
  // Filling the cache
  // ------------------------------------------------------------------

  /** An entry that was filled with one page and let go. */
  function Shelf(key: Key, n: nat): Entry {
    Entry(key, true, Some(Published(key)), Page(n), n, None, 0, false, true)
  }

  function Shelved(c: Cache<Id>, key: Key, id: Id, n: nat): Cache<Id> {
    c.(table := c.table[id := Shelf(key, n)], index := c.index[key := id], lru := [id] + c.lru,
       bytes := c.bytes + n, disk := c.disk[Published(key) := Page(n)])
  }

  ghost predicate Room(c: Cache<Id>, key: Key, id: Id, n: nat) {
    && c.ready && n <= c.archiveBudget && c.bytes + c.archiveBudget <= c.maxBytes
    && Known(c.lru, c.table) && id !in c.table && id !in c.lru && key !in c.index
    && Staged(0) !in c.disk && Published(key) !in c.disk
  }

  /** One call in flight, beside others. */
  function Flight(c: Cache<Id>, rest: map<Tid, Thread>, t: Tid, pc: Pc): System {
    System(c, rest[t := Thread([], pc)])
  }

  lemma Writes(c: Cache<Id>, rest: map<Tid, Thread>, t: Tid, id: Id, n: nat)
    requires Reached(Flight(c, rest, t, Staging(id))) && Staged(0) !in c.disk && n <= c.archiveBudget + 1
    ensures Reached(Flight(c.(disk := c.disk[Staged(0) := Page(n)]), rest, t, Filling(id, Staged(0))))
  {
    hide Reached, Page;
    PageWeighs(n);
    var s1 := Flight(c.(disk := c.disk[Staged(0) := map[]]), rest, t, Filling(id, Staged(0)));
    var s2 := Flight(c.(disk := c.disk[Staged(0) := Page(n)]), rest, t, Filling(id, Staged(0)));
    assert rest[t := Thread([], Staging(id))][t := Thread([], Filling(id, Staged(0)))] == s1.threads;
    Steps(Flight(c, rest, t, Staging(id)), Stage(t, 0), s1);
    assert s2.cache.disk == s1.cache.disk[Staged(0) := Page(n)];
    Steps(s1, Write(t, Page(n)), s2);
  }

  lemma Reserves(c: Cache<Id>, key: Key, id: Id, n: nat)
    requires Reached(System(c, map[])) && Room(c, key, id, n)
    ensures Reached(Flight(Insert(c, key, id), map[], 0, Staging(id)))
  {
    hide Reached;
    Steps(System(c, map[]), AcquireFill(0, key, id), Flight(Insert(c, key, id), map[], 0, Staging(id)));
  }

  lemma Returns(c: Cache<Id>, id: Id, key: Key, n: nat)
    requires Reached(Flight(c, map[], 0, Filling(id, Staged(0)))) && n <= c.archiveBudget
    requires Staged(0) in c.disk && c.disk[Staged(0)] == Page(n)
    requires id in c.table && c.table[id].key == key && Published(key) !in c.disk
    ensures Reached(Flight(c, map[], 0, Cleared(id, Staged(0), Page(n), n)))
  {
    hide Reached, Page;
    PageWeighs(n);
    var s1, s2 := Flight(c, map[], 0, Filled(id, Staged(0), Page(n), n)), Flight(c, map[], 0, Cleared(id, Staged(0), Page(n), n));
    Steps(Flight(c, map[], 0, Filling(id, Staged(0))), FillReturns(0, n), s1);
    assert c.disk - {Published(key)} == c.disk;
    Steps(s1, Clear(0), s2);
  }

  lemma Publishes(c: Cache<Id>, id: Id, key: Key, n: nat, disk: map<Dir, Content>)
    requires Reached(Flight(c.(disk := disk[Staged(0) := Page(n)]), map[], 0, Cleared(id, Staged(0), Page(n), n)))
    requires id in c.table && c.table[id].key == key && Staged(0) !in disk
    ensures Reached(Flight(c.(disk := disk[Published(key) := Page(n)]), map[], 0,
                           Settling(id, Some(Published(key)), Page(n), n, None)))
  {
    hide Reached, Page;
    assert (disk[Staged(0) := Page(n)] - {Staged(0)})[Published(key) := Page(n)] == disk[Published(key) := Page(n)];
    Steps(Flight(c.(disk := disk[Staged(0) := Page(n)]), map[], 0, Cleared(id, Staged(0), Page(n), n)), Publish(0),
          Flight(c.(disk := disk[Published(key) := Page(n)]), map[], 0,
                 Settling(id, Some(Published(key)), Page(n), n, None)));
  }

  lemma Settles(c: Cache<Id>, id: Id, key: Key, n: nat)
    requires Reached(Flight(c, map[], 0, Settling(id, Some(Published(key)), Page(n), n, None)))
    requires id in c.table && Known(c.lru, c.table) && c.bytes + n - c.table[id].size <= c.maxBytes
    ensures Reached(System(Release(Record(c, id, Some(Published(key)), Page(n), n, None), id), map[]))
  {
    hide Reached, Page;
    var c' := Record(c, id, Some(Published(key)), Page(n), n, None);
    Steps(Flight(c, map[], 0, Settling(id, Some(Published(key)), Page(n), n, None)), Settled(0),
          Flight(c', map[], 0, Reading(id)));
    assert map[0 := Thread([], Reading(id))] - {0} == map[];
    Steps(Flight(c', map[], 0, Reading(id)), Let(0), System(Release(c', id), map[]));
  }

  /** A whole fill. */
  lemma FillOne(c: Cache<Id>, key: Key, id: Id, n: nat)
    requires Reached(System(c, map[])) && Room(c, key, id, n)
    ensures Reached(System(Shelved(c, key, id, n), map[]))
  {
    hide Reached, Page;
    var c1 := Insert(c, key, id);
    var c2 := c1.(disk := c.disk[Staged(0) := Page(n)]);
    var c3 := c1.(disk := c.disk[Published(key) := Page(n)]);
    Reserves(c, key, id, n);
    Writes(c1, map[], 0, id, n);
    Returns(c2, id, key, n);
    Publishes(c1, id, key, n, c.disk);
    Settles(c3, id, key, n);
    assert Release(Record(c3, id, Some(Published(key)), Page(n), n, None), id) == Shelved(c, key, id, n);
  }

  // ------------------------------------------------------------------
  // A full cache
  // ------------------------------------------------------------------

  function Comic(i: nat): (k: Key)
    ensures |k| == i
  {
    seq(i, _ => 'c')
  }

  /** Least recently used first: two whose eviction frees all but two budgets,
      one small one, and two that stay. */
  function Size(b: nat, i: nat): nat
    requires b > 0
  {
    if i == 1 then b - 1 else if i == 3 then 1 else b
  }

  function Total(b: nat, n: nat): nat
    requires b > 0
  {
    if n == 0 then 0 else Total(b, n - 1) + Size(b, n)
  }

  ghost function Stocked(b: nat, n: nat): Cache<Id>
    requires b > 0
  {
    if n == 0 then Init(New(4 * b, map[]).cache) else Shelved(Stocked(b, n - 1), Comic(n), n, Size(b, n))
  }

  ghost predicate InTable(table: map<Id, Entry>, b: nat, lo: nat, hi: nat)
    requires b > 0
  {
    && (forall e :: e in table ==> 1 <= e <= hi)
    && (forall i :: lo <= i <= hi ==> i in table && table[i] == Shelf(Comic(i), Size(b, i)))
  }

  ghost predicate InIndex(index: map<Key, Id>, lo: nat, hi: nat) {
    && (forall k :: k in index ==> lo <= |k| <= hi && k == Comic(|k|))
    && (forall i :: lo <= i <= hi ==> Comic(i) in index && index[Comic(i)] == i)
  }

  ghost predicate OnDiskOnly(disk: map<Dir, Content>, b: nat, lo: nat, hi: nat)
    requires b > 0
  {
    && (forall d :: d in disk && !d.Trash? ==> d.Published? && lo <= |d.key| <= hi && d.key == Comic(|d.key|))
    && (forall i :: lo <= i <= hi ==> Published(Comic(i)) in disk && disk[Published(Comic(i))] == Page(Size(b, i)))
  }

  /** The cache holds the comics numbered `lo` to `hi`. */
  ghost predicate Holds(c: Cache<Id>, b: nat, lo: nat, hi: nat)
    requires b > 0
  {
    && c.ready && c.archiveBudget == b && c.maxBytes == 4 * b
    && InTable(c.table, b, lo, hi) && InIndex(c.index, lo, hi) && OnDiskOnly(c.disk, b, lo, hi)
  }

  lemma OneMoreInTable(table: map<Id, Entry>, b: nat, n: nat)
    requires b > 0 && n > 0 && InTable(table, b, 1, n - 1)
    ensures InTable(table[n := Shelf(Comic(n), Size(b, n))], b, 1, n)
  {
    hide Shelf, Size, Comic;
  }

  lemma OneMoreInIndex(index: map<Key, Id>, n: nat)
    requires n > 0 && InIndex(index, 1, n - 1)
    ensures InIndex(index[Comic(n) := n], 1, n)
  {
    hide Comic;
  }

  lemma OneMoreOnDisk(disk: map<Dir, Content>, b: nat, n: nat)
    requires b > 0 && n > 0 && OnDiskOnly(disk, b, 1, n - 1)
    ensures OnDiskOnly(disk[Published(Comic(n)) := Page(Size(b, n))], b, 1, n)
  {
    hide Page, Size, Comic;
  }

  lemma ShelvedHolds(c: Cache<Id>, b: nat, n: nat)
    requires b > 0 && n > 0 && Holds(c, b, 1, n - 1)
    ensures Holds(Shelved(c, Comic(n), n, Size(b, n)), b, 1, n)
  {
    hide InTable, InIndex, OnDiskOnly, Page, Size, Comic, Shelf;
    OneMoreInTable(c.table, b, n);
    OneMoreInIndex(c.index, n);
    OneMoreOnDisk(c.disk, b, n);
  }

  lemma {:induction false} StockedHolds(b: nat, n: nat)
    requires b > 0
    ensures Holds(Stocked(b, n), b, 1, n)
    ensures Stocked(b, n).bytes == Total(b, n) && Stocked(b, n).trashSeq == 0
    ensures var lru := Stocked(b, n).lru; |lru| == n && forall j :: 0 <= j < n ==> lru[j] == n - j
    ensures forall d :: d in Stocked(b, n).disk ==> !d.Trash?
  {
    hide Holds, Page, Size, Shelf;
    if n > 0 {
      StockedHolds(b, n - 1);
      ShelvedHolds(Stocked(b, n - 1), b, n);
    } else {
      assert Holds(Stocked(b, 0), b, 1, 0) by { NothingHolds(b); }
    }
  }

  lemma NothingHolds(b: nat)
    requires b > 0
    ensures Holds(Init(New(4 * b, map[]).cache), b, 1, 0)
  {
  }

  lemma StockedHasRoom(b: nat, n: nat)
    requires b > 0 && 0 < n <= 5
    ensures Room(Stocked(b, n - 1), Comic(n), n, Size(b, n))
  {
    hide Page;
    StockedHolds(b, n - 1);
    TotalWithin(b, n);
  }

  lemma {:induction false} StockedIsReached(b: nat, n: nat)
    requires b > 0 && n <= 5
    ensures Reached(System(Stocked(b, n), map[]))
  {
    hide Reached, Page, Room, Shelved;
    if n == 0 {
      Begins(4 * b);
      Steps(New(4 * b, map[]), Touch, System(Stocked(b, 0), map[]));
    } else {
      StockedIsReached(b, n - 1);
      StockedHasRoom(b, n);
      FillOne(Stocked(b, n - 1), Comic(n), n, Size(b, n));
    }
  }

  lemma TotalWithin(b: nat, n: nat)
    requires b > 0 && 0 < n <= 5
    ensures Total(b, n - 1) + b <= 4 * b && Size(b, n) <= b
    ensures Total(b, 5) == 4 * b
  {
    assert Total(b, 1) == b - 1;
    assert Total(b, 2) == 2 * b - 1;
    assert Total(b, 3) == 2 * b;
    assert Total(b, 4) == 3 * b;
    assert Total(b, 5) == 4 * b;
  }

  // ------------------------------------------------------------------
  // Two reservations
  // ------------------------------------------------------------------

  ghost function Thrown(c: Cache<Id>, b: nat, e: nat): Cache<Id>
    requires b > 0
  {
    c.(table := c.table[e := Shelf(Comic(e), Size(b, e)).(dead := true, listed := false, size := 0, dir := None)],
       index := c.index - {Comic(e)}, lru := Without(c.lru, e), bytes := c.bytes - Size(b, e),
       trashSeq := c.trashSeq + 1,
       disk := (c.disk - {Published(Comic(e))})[Trash(c.trashSeq + 1) := Page(Size(b, e))])
  }

  /** The comic is in the cache and nobody holds it. */
  ghost predicate Idle(c: Cache<Id>, b: nat, e: nat)
    requires b > 0
  {
    && e in c.table && c.table[e] == Shelf(Comic(e), Size(b, e))
    && Comic(e) in c.index && c.index[Comic(e)] == e
    && Published(Comic(e)) in c.disk && c.disk[Published(Comic(e))] == Page(Size(b, e))
  }

  lemma Throws(c: Cache<Id>, b: nat, e: nat)
    requires b > 0 && Idle(c, b, e)
    ensures Drop(c, e) == (Thrown(c, b, e), [Trash(c.trashSeq + 1)])
  {
    hide Page, Size, Comic;
  }

  /** The trash on disk is `Trash(1)` to `Trash(n)`, the comics' directories. */
  ghost predicate InTrash(disk: map<Dir, Content>, b: nat, n: nat)
    requires b > 0
  {
    && (forall d :: d in disk && d.Trash? ==> 1 <= d.seqNo <= n)
    && (forall i :: 1 <= i <= n ==> Trash(i) in disk && disk[Trash(i)] == Page(Size(b, i)))
  }

  lemma ThrownDisk(disk: map<Dir, Content>, b: nat, e: nat)
    requires b > 0 && 1 <= e <= 5 && OnDiskOnly(disk, b, e, 5) && InTrash(disk, b, e - 1)
    ensures var disk' := (disk - {Published(Comic(e))})[Trash(e) := Page(Size(b, e))];
      OnDiskOnly(disk', b, e + 1, 5) && InTrash(disk', b, e)
  {
    hide Page, Size, Comic;
  }

  /** The cache after its first `n` comics were thrown out, `held` still
      unsettled, newest first. */
  ghost predicate Thinned(c: Cache<Id>, b: nat, n: nat, held: seq<Id>)
    requires b > 0 && n <= 5
  {
    && c.ready && c.archiveBudget == b && c.maxBytes == 4 * b && c.trashSeq == n
    && c.lru == held + Tail(n) && Known(c.lru, c.table)
    && (forall e :: e in held ==> c.table[e].refs > 0)
    && (forall e :: n < e <= 5 ==> Idle(c, b, e))
    && (forall e :: e in c.table ==> e <= 5 + |held|) && (forall k :: k in c.index ==> |k| <= 5 + |held|)
    && (forall e :: e in held ==> e > 5)
    && OnDiskOnly(c.disk, b, n + 1, 5) && InTrash(c.disk, b, n)
  }

  /** The comics left, most recently used first. */
  function Tail(n: nat): (r: seq<Id>)
    requires n <= 5
  {
    seq(5 - n, i requires 0 <= i < 5 - n => 5 - i)
  }

  lemma StockedIsThinned(b: nat)
    requires b > 0
    ensures Thinned(Stocked(b, 5), b, 0, []) && Stocked(b, 5).bytes == 4 * b
  {
    hide Page, Size, Comic, Shelf, Stocked, OnDiskOnly;
    StockedHolds(b, 5);
    TotalWithin(b, 5);
    var c := Stocked(b, 5);
    assert c.lru == Tail(0);
    forall e | 0 < e <= 5 ensures Idle(c, b, e) {
      HeldIsIdle(c, b, e);
    }
  }

  lemma HeldIsIdle(c: Cache<Id>, b: nat, e: nat)
    requires b > 0 && 1 <= e <= 5 && Holds(c, b, 1, 5)
    ensures Idle(c, b, e)
  {
    hide Page, Size, Comic, Shelf;
  }

  lemma IdleStays(c: Cache<Id>, b: nat, gone: nat, e: nat)
    requires b > 0 && gone != e && Idle(c, b, e)
    ensures Idle(Thrown(c, b, gone), b, e)
  {
    hide Page, Size, Comic, Shelf, Without;
  }

  lemma ThrownIsThinned(c: Cache<Id>, b: nat, n: nat, held: seq<Id>)
    requires b > 0 && n < 5 && Thinned(c, b, n, held)
    ensures Thinned(Thrown(c, b, n + 1), b, n + 1, held)
  {
    hide Page, Size, Comic, Shelf, Idle, Tail, OnDiskOnly, InTrash;
    var c' := Thrown(c, b, n + 1);
    ThrownDisk(c.disk, b, n + 1);
    WithoutLast(held, n);
    forall e | n + 1 < e <= 5 ensures Idle(c', b, e) {
      IdleStays(c, b, n + 1, e);
    }
    forall e | e in held + Tail(n + 1) ensures e in c'.table {
      assert e in Without(c.lru, n + 1);
    }
  }

  lemma WithoutLast(held: seq<Id>, n: nat)
    requires n < 5 && forall e :: e in held ==> e > 5
    ensures Without<Id>(held + Tail(n), n + 1) == held + Tail(n + 1)
  {
    var rest, e: Id := held + Tail(n + 1), n + 1;
    TailEnds(held, n);
    assert e !in rest;
    WithoutEnd(rest, e);
  }

  lemma TailEnds(held: seq<Id>, n: nat)
    requires n < 5
    ensures held + Tail(n) == held + Tail(n + 1) + [n + 1]
  {
    assert Tail(n) == Tail(n + 1) + [n + 1];
  }

  lemma {:induction false} WithoutEnd(es: seq<Id>, e: Id)
    requires e !in es
    ensures Without(es + [e], e) == es
  {
    if es != [] {
      WithoutEnd(es[1..], e);
      assert (es + [e])[1..] == es[1..] + [e];
    }
  }

  lemma InsertedIsThinned(c: Cache<Id>, b: nat, n: nat, held: seq<Id>)
    requires b > 0 && n <= 5 && Thinned(c, b, n, held)
    ensures var id := 6 + |held|;
      id !in c.table && Comic(id) !in c.index && Thinned(Insert(c, Comic(id), id), b, n, [id] + held)
  {
    hide Page, Size, Shelf;
    var id := 6 + |held|;
    var c' := Insert(c, Comic(id), id);
    assert c'.lru == [id] + held + Tail(n);
    forall e | n < e <= 5 ensures Idle(c', b, e) {
      assert Idle(c, b, e);
    }
  }

  lemma ScanLast(rest: seq<Id>, e: Id, table: map<Id, Entry>, need: int)
    requires Known(rest, table) && e in table && table[e].refs <= 0 && need > 0
    ensures Known(rest + [e], table)
    ensures Victims(rest + [e], table, need) == [e] + Victims(rest, table, need - table[e].size)
    ensures Freed(rest + [e], table, need) == table[e].size + Freed(rest, table, need - table[e].size)
  {
    assert (rest + [e])[..|rest|] == rest;
  }

  /** The scan takes the least recently used comic first. */
  lemma ScanStarts(c: Cache<Id>, b: nat, n: nat, held: seq<Id>, need: int)
    requires b > 0 && n < 5 && Thinned(c, b, n, held) && need > 0
    ensures var rest := held + Tail(n + 1);
      && Known(rest, c.table)
      && Victims(c.lru, c.table, need) == [n + 1] + Victims(rest, c.table, need - Size(b, n + 1))
      && Freed(c.lru, c.table, need) == Size(b, n + 1) + Freed(rest, c.table, need - Size(b, n + 1))
  {
    hide Page, Size, OnDiskOnly, InTrash, Victims, Freed, Tail;
    TailEnds(held, n);
    assert Idle(c, b, n + 1);
    assert forall e :: e in held + Tail(n + 1) ==> e in c.lru;
    ScanLast(held + Tail(n + 1), n + 1, c.table, need);
  }

  lemma Drops(c: Cache<Id>, b: nat, e: Id, rest: seq<Id>)
    requires b > 0 && Idle(c, b, e) && Known(rest, c.table)
    ensures Known([e] + rest, c.table)
    ensures DropAll(c, [e] + rest)
         == (DropAll(Thrown(c, b, e), rest).0, [Trash(c.trashSeq + 1)] + DropAll(Thrown(c, b, e), rest).1)
  {
    hide Page, Size, Comic, Shelf, Idle;
    Throws(c, b, e);
    assert e in c.table by { IdleIsKnown(c, b, e); }
    assert ([e] + rest)[1..] == rest;
  }

  lemma IdleIsKnown(c: Cache<Id>, b: nat, e: Id)
    requires b > 0 && Idle(c, b, e)
    ensures e in c.table && c.table[e].refs == 0 && c.table[e].size == Size(b, e)
  {
  }

  lemma DropsTwo(c: Cache<Id>, b: nat, e: Id, f: Id)
    requires b > 0 && Idle(c, b, e) && Idle(c, b, f) && e != f
    ensures Known([e, f], c.table)
    ensures DropAll(c, [e, f])
         == (Thrown(Thrown(c, b, e), b, f), [Trash(c.trashSeq + 1), Trash(c.trashSeq + 2)])
  {
    hide Page, Size, Comic, Shelf, Idle, Drop, DropAll;
    IdleIsKnown(c, b, f);
    IdleStays(c, b, e, f);
    Drops(c, b, e, [f]);
    DropsOne(Thrown(c, b, e), b, f);
    assert [e] + [f] == [e, f];
    assert [Trash(c.trashSeq + 1)] + [Trash(c.trashSeq + 2)] == [Trash(c.trashSeq + 1), Trash(c.trashSeq + 2)];
  }

  lemma DropsOne(c: Cache<Id>, b: nat, e: Id)
    requires b > 0 && Idle(c, b, e)
    ensures Known([e], c.table)
    ensures DropAll(c, [e]) == (Thrown(c, b, e), [Trash(c.trashSeq + 1)])
  {
    hide Page, Size, Comic, Shelf, Idle, Drop;
    Drops(c, b, e, []);
    assert [e] + [] == [e];
    assert [Trash(c.trashSeq + 1)] + [] == [Trash(c.trashSeq + 1)];
  }

  lemma ScansOne(rest: seq<Id>, e: Id, table: map<Id, Entry>, need: int)
    requires Known(rest, table) && e in table && table[e].refs <= 0 && 0 < need <= table[e].size
    ensures Known(rest + [e], table)
    ensures Victims(rest + [e], table, need) == [e] && Freed(rest + [e], table, need) == table[e].size
  {
    ScanLast(rest, e, table, need);
  }

  lemma ScansTwo(c: Cache<Id>, b: nat)
    requires b > 0 && Thinned(c, b, 0, [])
    ensures Victims(c.lru, c.table, b) == [1, 2] && Freed(c.lru, c.table, b) == 2 * b - 1
  {
    hide Page, OnDiskOnly, InTrash, Idle, Tail, Victims, Freed;
    ScanStarts(c, b, 0, [], b);
    assert Idle(c, b, 2);
    IdleIsKnown(c, b, 2);
    TailEnds([], 1);
    hide Thinned;
    assert [] + Tail(2) == Tail(2);
    assert forall e :: e in Tail(2) ==> e in [] + Tail(1);
    ScansOne(Tail(2), 2, c.table, 1);
    assert [1] + [2] == [1, 2];
  }

  lemma ScanEnds(rest: seq<Id>, table: map<Id, Entry>, need: int)
    requires Known(rest, table) && need <= 0
    ensures Victims(rest, table, need) == [] && Freed(rest, table, need) == 0
  {
  }

  /** The first reservation needs a whole budget and evicts one byte less than
      two. */
  lemma AdmitsTwo(c: Cache<Id>, b: nat)
    requires b > 0 && Thinned(c, b, 0, []) && c.bytes == 4 * b
    ensures Admit(c, b) == (Thrown(Thrown(c, b, 1), b, 2), [Trash(1), Trash(2)], true)
  {
    hide Thrown, OnDiskOnly, InTrash, Idle, DropAll, Tail, Victims, Freed;
    assert Idle(c, b, 1) && Idle(c, b, 2);
    ScansTwo(c, b);
    DropsTwo(c, b, 1, 2);
  }

  /** The second needs one byte and evicts one. */
  lemma AdmitsOne(c: Cache<Id>, b: nat)
    requires b > 0 && Thinned(c, b, 2, [6]) && c.bytes == 3 * b + 1
    ensures Admit(c, b) == (Thrown(c, b, 3), [Trash(3)], true)
  {
    hide Thrown, Page, OnDiskOnly, InTrash, Idle, DropAll, Tail, Victims, Freed;
    ScanStarts(c, b, 2, [6], 1);
    ScanEnds([6] + Tail(3), c.table, 0);
    assert Idle(c, b, 3);
    DropsOne(c, b, 3);
    assert Victims(c.lru, c.table, 1) == [3] + [] && [3] + [] == [3];
  }

  // ------------------------------------------------------------------
  // The run
  // ------------------------------------------------------------------

  /** Call 8 has reserved and has yet to unlink; call 9 is filling. */
  ghost function Stalled(b: nat): System
    requires b > 0
  {
    var c := Thrown(Thrown(Stocked(b, 5), b, 1), b, 2);
    System(Insert(c, Comic(6), 6), map[8 := Thread([Trash(1), Trash(2)], Staging(6))])
  }

  lemma StalledIsReached(b: nat)
    requires b > 0
    ensures Reached(Stalled(b))
  {
    hide Reached, Thinned, Stocked, Admit, Comic, Thrown;
    var c := Stocked(b, 5);
    StockedIsReached(b, 5);
    StockedIsThinned(b);
    ThinnedMeans(c, b, 0, []);
    AdmitsTwo(c, b);
    InsertedIsThinned(c, b, 0, []);
    Steps(System(c, map[]), AcquireFill(8, Comic(6), 6), Stalled(b));
  }

  lemma StalledIsThinned(b: nat)
    requires b > 0
    ensures Thinned(Stalled(b).cache, b, 2, [6]) && Stalled(b).cache.bytes == 3 * b + 1
  {
    hide Thinned, Stocked, Comic;
    var c := Stocked(b, 5);
    StockedIsThinned(b);
    ThrownIsThinned(c, b, 0, []);
    ThrownIsThinned(Thrown(c, b, 1), b, 1, []);
    InsertedIsThinned(Thrown(Thrown(c, b, 1), b, 2), b, 2, []);
    ThinnedMeans(c, b, 0, []);
    assert [6] + [] == [6];
  }

  lemma ThinnedMeans(c: Cache<Id>, b: nat, n: nat, held: seq<Id>)
    requires b > 0 && n <= 5 && Thinned(c, b, n, held)
    ensures c.ready && c.archiveBudget == b && c.maxBytes == 4 * b && Known(c.lru, c.table) && c.trashSeq == n
    ensures OnDiskOnly(c.disk, b, n + 1, 5) && InTrash(c.disk, b, n)
  {
  }

  ghost function Overrun(b: nat): System
    requires b > 0
  {
    var c := Insert(Thrown(Stalled(b).cache, b, 3), Comic(7), 7);
    System(c.(disk := (c.disk - {Trash(3)})[Staged(0) := Page(b + 1)]),
           Stalled(b).threads[9 := Thread([], Filling(7, Staged(0)))])
  }

  lemma OverrunIsReached(b: nat)
    requires b > 0
    ensures Reached(Overrun(b))
  {
    hide Reached, Thinned, Stalled, Admit, Comic, Page;
    var s := Stalled(b);
    var c := Insert(Thrown(s.cache, b, 3), Comic(7), 7);
    var s1 := System(c, s.threads[9 := Thread([Trash(3)], Staging(7))]);
    StalledIsReached(b);
    StalledIsThinned(b);
    StalledThreads(b);
    ThinnedMeans(s.cache, b, 2, [6]);
    AdmitsOne(s.cache, b);
    InsertedIsThinned(s.cache, b, 2, [6]);
    Steps(s, AcquireFill(9, Comic(7), 7), s1);
    Unlinks(c, s.threads, b);
    OverrunDisk(b);
    Writes(c.(disk := c.disk - {Trash(3)}), s.threads, 9, 7, b + 1);
  }

  lemma StalledThreads(b: nat)
    requires b > 0
    ensures 9 !in Stalled(b).threads
  {
  }

  lemma Unlinks(c: Cache<Id>, rest: map<Tid, Thread>, b: nat)
    requires Reached(System(c, rest[9 := Thread([Trash(3)], Staging(7))]))
    ensures Reached(Flight(c.(disk := c.disk - {Trash(3)}), rest, 9, Staging(7)))
  {
    hide Reached;
    var s, s' := System(c, rest[9 := Thread([Trash(3)], Staging(7))]), Flight(c.(disk := c.disk - {Trash(3)}), rest, 9, Staging(7));
    assert s.threads[9 := Thread([], Staging(7))] == s'.threads;
    assert [Trash(3)][1..] == [];
    Steps(s, Unlink(9), s');
  }

  lemma OverrunDisk(b: nat)
    requires b > 0
    ensures var disk := Overrun(b).cache.disk - {Staged(0)};
      OnDiskOnly(disk, b, 4, 5) && InTrash(disk, b, 2)
    ensures Staged(0) !in Thrown(Stalled(b).cache, b, 3).disk && Stalled(b).cache.archiveBudget == b
    ensures Overrun(b).cache.disk == (Thrown(Stalled(b).cache, b, 3).disk - {Trash(3)})[Staged(0) := Page(b + 1)]
  {
    hide Thinned, Stalled, Comic, Page, Size;
    StalledIsThinned(b);
    ThinnedMeans(Stalled(b).cache, b, 2, [6]);
    ThrownDisk(Stalled(b).cache.disk, b, 3);
  }

  lemma OverrunWeighs(disk: map<Dir, Content>, b: nat)
    requires b > 0 && Staged(0) !in disk && OnDiskOnly(disk, b, 4, 5) && InTrash(disk, b, 2)
    ensures var disk' := disk[Staged(0) := Page(b + 1)]; Weight(disk'.Keys, disk') == 5 * b
  {
    hide Page, Weight;
    var disk' := disk[Staged(0) := Page(b + 1)];
    var p4, p5 := Published(Comic(4)), Published(Comic(5));
    PageWeighs(b - 1);
    PageWeighs(b);
    PageWeighs(b + 1);
    assert |Comic(4)| != |Comic(5)|;
    WeightOne(Staged(0), disk');
    WeightAdd({Staged(0)}, disk', Trash(1));
    WeightAdd({Staged(0), Trash(1)}, disk', Trash(2));
    WeightAdd({Staged(0), Trash(1), Trash(2)}, disk', p4);
    WeightAdd({Staged(0), Trash(1), Trash(2), p4}, disk', p5);
    assert {Staged(0)} + {Trash(1)} == {Staged(0), Trash(1)};
    assert {Staged(0), Trash(1)} + {Trash(2)} == {Staged(0), Trash(1), Trash(2)};
    assert {Staged(0), Trash(1), Trash(2)} + {p4} == {Staged(0), Trash(1), Trash(2), p4};
    assert disk'.Keys == {Staged(0), Trash(1), Trash(2), p4} + {p5} by {
      forall d | d in disk' ensures d in {Staged(0), Trash(1), Trash(2), p4} + {p5} {
        if d.Published? {
          assert |d.key| == 4 || |d.key| == 5;
        } else if d.Trash? {
          assert d.seqNo == 1 || d.seqNo == 2;
        }
      }
    }
  }

  lemma OverrunSlacks(b: nat)
    requires b > 0 && AllListed(Overrun(b), [7, 6, 5, 4])
    requires Overrun(b).cache.archiveBudget == b && Idle(Overrun(b).cache, b, 4) && Idle(Overrun(b).cache, b, 5)
    requires !Overrun(b).cache.table[6].done && !Overrun(b).cache.table[7].done
    requires Overrun(b).threads == map[8 := Thread([Trash(1), Trash(2)], Staging(6)), 9 := Thread([], Filling(7, Staged(0)))]
    ensures Slacks(Overrun(b), [7, 6, 5, 4]) == b
  {
    hide Inv, Overrun, Page, Comic, Idle;
    var s := Overrun(b);
    IdleIsSettled(s.cache, b, 4);
    IdleIsSettled(s.cache, b, 5);
    assert Filler(s, 7) == 9 && Filler(s, 6) == 8;
    assert Trash(1) in Debris(s, 6);
    assert Slacks(s, [4]) == Slack(s, 4) + Slacks(s, []);
    assert Slacks(s, [5, 4]) == Slack(s, 5) + Slacks(s, [4]);
    assert Slacks(s, [6, 5, 4]) == Slack(s, 6) + Slacks(s, [5, 4]);
  }

  lemma IdleIsSettled(c: Cache<Id>, b: nat, e: Id)
    requires b > 0 && Idle(c, b, e)
    ensures e in c.table && c.table[e].done
  {
  }

  lemma OverrunThreads(b: nat)
    requires b > 0
    ensures Overrun(b).threads == map[8 := Thread([Trash(1), Trash(2)], Staging(6)), 9 := Thread([], Filling(7, Staged(0)))]
    ensures Overrun(b).cache.bytes == 4 * b && Overrun(b).cache.maxBytes == 4 * b && Overrun(b).cache.archiveBudget == b
    ensures 7 in Overrun(b).cache.table && !Overrun(b).cache.table[7].done
    ensures 6 in Overrun(b).cache.table && !Overrun(b).cache.table[6].done
  {
    hide Thinned, Page, Comic, Stocked;
    StalledIsThinned(b);
    ThinnedMeans(Stalled(b).cache, b, 2, [6]);
  }

  lemma OverrunIndex(b: nat)
    requires b > 0
    ensures Overrun(b).cache.lru == [7, 6, 5, 4] && Overrun(b).cache.ready
    ensures Idle(Overrun(b).cache, b, 4) && Idle(Overrun(b).cache, b, 5)
  {
    hide Page, Comic, Stalled, Shelf, Idle, Thrown, OnDiskOnly, InTrash;
    var c := Thrown(Stalled(b).cache, b, 3);
    StalledIsThinned(b);
    ThrownIsThinned(Stalled(b).cache, b, 2, [6]);
    InsertedIsThinned(c, b, 3, [6]);
    assert [7] + [6] + Tail(3) == [7, 6, 5, 4];
    assert Idle(Insert(c, Comic(7), 7), b, 4) && Idle(Insert(c, Comic(7), 7), b, 5);
    IdleElsewhere(Insert(c, Comic(7), 7), b, 4, Overrun(b).cache.disk);
    IdleElsewhere(Insert(c, Comic(7), 7), b, 5, Overrun(b).cache.disk);
  }

  lemma IdleElsewhere(c: Cache<Id>, b: nat, e: Id, disk: map<Dir, Content>)
    requires b > 0 && Idle(c, b, e)
    requires forall d :: d in c.disk && d.Published? ==> d in disk && disk[d] == c.disk[d]
    ensures Idle(c.(disk := disk), b, e)
  {
  }

  /** For every budget: a run that respects it, with the byte count at the cap
      and two calls in flight, in which the disk holds all that `CapIsPhysical`
      allows, a whole budget more than the cap. */
  lemma BoundIsAttained(b: nat)
    requires b > 0
    ensures Reached(Overrun(b)) && Overrun(b).cache.archiveBudget == b && |Overrun(b).threads| == 2
    ensures Overrun(b).cache.bytes == Overrun(b).cache.maxBytes
    ensures AllListed(Overrun(b), Overrun(b).cache.lru)
    ensures OnRoot(Overrun(b)) == Overrun(b).cache.bytes + Slacks(Overrun(b), Overrun(b).cache.lru)
    ensures OnRoot(Overrun(b)) == Overrun(b).cache.maxBytes + b
  {
    hide Overrun, Stalled, Stocked, Thrown, Page, Comic, Idle, Weight, Inv, Slacks;
    OverrunIsReached(b);
    OverrunThreads(b);
    OverrunIndex(b);
    OverrunDisk(b);
    var s, disk := Overrun(b), Overrun(b).cache.disk - {Staged(0)};
    OverrunWeighs(disk, b);
    assert s.cache.disk == disk[Staged(0) := Page(b + 1)];
    var trace, steps :| BudgetedRun(trace, steps) && trace[|steps|] == s;
    CapIsPhysical(trace, steps, |steps|);
    OverrunSlacks(b);
  }
}
