/** The cache itself: the sections of `PageCache` that run with its lock held,
    each proved to be the step of `CacheState` that bears its name. */
module PageCache {
  import opened Common
  import opened CacheState

  /** The directories under the cache root. */
  class Disk {
    var dirs: map<Dir, Content>

    constructor (leftovers: map<Dir, Content>)
      ensures dirs == leftovers
    {
      dirs := leftovers;
    }

    method Wipe()
      modifies this
      ensures dirs == map[]
    {
      dirs := map[];
    }

    /** Renaming a directory that is not there fails. */
    method Rename(from: Dir, to: Dir) returns (ok: bool)
      modifies this
      ensures ok == (from in old(dirs))
      ensures dirs == if ok then (old(dirs) - {from})[to := old(dirs)[from]] else old(dirs)
    {
      ok := from in dirs;
      if ok {
        dirs := (dirs - {from})[to := dirs[from]];
      }
    }
  }

  class CacheEntry {
    const key: Key
    var done: bool
    var dir: Option<Dir>
    var pages: Content
    var size: int
    var err: Option<string>
    var refs: int
    var dead: bool
    var listed: bool

    constructor (key: Key, size: int)
      ensures Value() == Entry(key, false, None, map[], size, None, 1, false, true)
    {
      this.key := key;
      this.size := size;
      done, dir, pages, err := false, None, map[], None;
      refs, dead, listed := 1, false, true;
    }

    ghost function Value(): Entry
      reads this
    {
      Entry(key, done, dir, pages, size, err, refs, dead, listed)
    }

    /** Out of the index for good. */
    method Bury()
      modifies this
      ensures Value() == old(Value()).(dead := true, listed := false, size := 0, dir := None)
    {
      dead, listed, size, dir := true, false, 0, None;
    }

    /** The fill's outcome. */
    method Complete(dir: Option<Dir>, pages: Content, size: int, err: Option<string>)
      modifies this
      ensures Value() == old(Value()).(done := true, dir := dir, pages := pages, size := size, err := err)
    {
      this.dir, this.pages, this.err := dir, pages, err;
      this.size, done := size, true;
    }
  }

  /** One turn of the eviction scan. */
  lemma ScanStep<E>(es: seq<E>, table: map<E, Entry>, need: int)
    requires Known(es, table) && es != [] && need > 0
    ensures var e, rest := es[|es| - 1], es[..|es| - 1];
      if table[e].refs > 0 then
        Victims(es, table, need) == Victims(rest, table, need) && Freed(es, table, need) == Freed(rest, table, need)
      else
        && Victims(es, table, need) == [e] + Victims(rest, table, need - table[e].size)
        && Freed(es, table, need) == table[e].size + Freed(rest, table, need - table[e].size)
  {
  }

  lemma ScanStop<E>(es: seq<E>, table: map<E, Entry>, need: int)
    requires Known(es, table) && (es == [] || need <= 0)
    ensures Victims(es, table, need) == [] && Freed(es, table, need) == 0
  {
  }

  lemma RefusalChangesNothing<E>(c: Cache<E>, want: int)
    requires Known(c.lru, c.table) && !Admit(c, want).2
    ensures Admit(c, want) == (c, [], false)
  {
  }

  class PageCache {
    const maxBytes: int
    const archiveBudget: int
    const disk: Disk
    var ready: bool
    var entries: map<Key, CacheEntry>
    /** Most recently acquired first. */
    var lru: seq<CacheEntry>
    var bytes: int
    var trashSeq: nat
    /** Every entry this cache ever made: callers may still hold dropped ones. */
    ghost var known: set<CacheEntry>

    constructor (maxBytes: int, leftovers: map<Dir, Content>)
      ensures Valid() && fresh(disk)
      ensures View() == Cache(this.maxBytes, this.maxBytes / 4, false, map[], map[], [], 0, 0, leftovers)
      ensures this.maxBytes == if maxBytes <= 0 then DefaultPageCacheBytes else maxBytes
    {
      var cap := if maxBytes <= 0 then DefaultPageCacheBytes else maxBytes;
      this.maxBytes, archiveBudget := cap, cap / 4;
      ready, entries, lru, bytes, trashSeq, known := false, map[], [], 0, 0, {};
      disk := new Disk(leftovers);
    }

    ghost predicate Valid()
      reads this
    {
      && (forall e :: e in lru ==> e in known)
      && (forall k :: k in entries ==> entries[k] in known)
    }

    static ghost function TableOf(es: set<CacheEntry>): (m: map<CacheEntry, Entry>)
      reads es
      ensures m.Keys == es
    {
      map e | e in es :: e.Value()
    }

    /** Only one entry's record changed. */
    static lemma OneChanged(before: map<CacheEntry, Entry>, es: set<CacheEntry>, e: CacheEntry)
      requires before.Keys == es && e in es
      requires forall d :: d in es && d != e ==> d.Value() == before[d]
      ensures TableOf(es) == before[e := e.Value()]
    {
    }

    static lemma TableGrew(before: map<CacheEntry, Entry>, es: set<CacheEntry>, e: CacheEntry)
      requires e !in before && es == before.Keys + {e}
      requires forall d :: d in before ==> d.Value() == before[d]
      ensures TableOf(es) == before[e := e.Value()]
    {
    }

    ghost function View(): Cache<CacheEntry>
      reads this, known, disk
    {
      Cache(maxBytes, archiveBudget, ready, TableOf(known), entries, lru, bytes, trashSeq, disk.dirs)
    }

    method InitLocked()
      requires Valid()
      modifies this`ready, disk
      ensures Valid() && View() == Init(old(View()))
    {
      if !ready {
        disk.Wipe();
        ready := true;
      }
    }

    method Hold(e: CacheEntry)
      requires Valid() && e in known
      modifies this`lru, e
      ensures Valid() && View() == CacheState.Hold(old(View()), e)
    {
      e.refs := e.refs + 1;
      if e.listed {
        lru := [e] + Without(lru, e);
      }
      OneChanged(old(TableOf(known)), known, e);
    }

    method Release(e: CacheEntry)
      requires Valid() && e in known
      modifies e
      ensures Valid() && View() == CacheState.Release(old(View()), e)
    {
      e.refs := e.refs - 1;
      OneChanged(old(TableOf(known)), known, e);
    }

    method EvictableLocked(need: int) returns (victims: seq<CacheEntry>, freed: int)
      requires Valid()
      ensures victims == Victims(lru, TableOf(known), need)
      ensures freed == Freed(lru, TableOf(known), need)
    {
      hide Victims, Freed;
      victims, freed := [], 0;
      ghost var table := TableOf(known);
      var n := |lru|;
      assert lru[..n] == lru;
      while n > 0 && freed < need
        invariant 0 <= n <= |lru|
        invariant table == TableOf(known) && Known(lru[..n], table)
        invariant victims + Victims(lru[..n], table, need - freed) == Victims(lru, table, need)
        invariant freed + Freed(lru[..n], table, need - freed) == Freed(lru, table, need)
      {
        var e := lru[n - 1];
        assert table[e] == e.Value();
        ScanStep(lru[..n], table, need - freed);
        assert lru[..n][..n - 1] == lru[..n - 1];
        if e.refs <= 0 {
          victims := victims + [e];
          freed := freed + e.size;
        }
        n := n - 1;
      }
      ScanStop(lru[..n], table, need - freed);
    }

    /** The index, the list and the byte count forget the entry. */
    method UnlistLocked(e: CacheEntry)
      requires Valid() && e in known
      modifies this`entries, this`lru, this`bytes
      ensures Valid()
      ensures View() == old(View()).(
        index := if e.key in old(entries) && old(entries)[e.key] == e then old(entries) - {e.key} else old(entries),
        lru := if e.listed then Without(old(lru), e) else old(lru), bytes := old(bytes) - e.size)
    {
      hide Without, TableOf;
      bytes := bytes - e.size;
      entries := if e.key in entries && entries[e.key] == e then entries - {e.key} else entries;
      lru := if e.listed then Without(lru, e) else lru;
    }

    /** Takes the entry out of the index, the list and the byte count. */
    method RetireLocked(e: CacheEntry)
      requires Valid() && e in known
      modifies this`entries, this`lru, this`bytes, e
      ensures Valid() && View() == Retire(old(View()), e)
    {
      hide Without;
      UnlistLocked(e);
      e.Bury();
      OneChanged(old(TableOf(known)), known, e);
    }

    /** Renames a retired entry's directory out of its published name while the
        lock is still held. */
    method DiscardLocked(dir: Option<Dir>) returns (trash: seq<Dir>)
      requires Valid()
      modifies this`trashSeq, disk
      ensures Valid() && (View(), trash) == Discard(old(View()), dir)
    {
      if dir.None? {
        return [];
      }
      trashSeq := trashSeq + 1;
      var ok := disk.Rename(dir.value, Trash(trashSeq));
      trash := if ok then [Trash(trashSeq)] else [dir.value];
    }

    method DropLocked(e: CacheEntry) returns (trash: seq<Dir>)
      requires Valid() && e in known
      modifies this`entries, this`lru, this`bytes, this`trashSeq, e, disk
      ensures Valid()
      ensures (View(), trash) == Drop(old(View()), e)
    {
      if e.dead {
        return [];
      }
      var dir := e.dir;
      RetireLocked(e);
      trash := DiscardLocked(dir);
    }

    method DropAllLocked(victims: seq<CacheEntry>) returns (trash: seq<Dir>)
      requires Valid() && forall v :: v in victims ==> v in known
      modifies this`entries, this`lru, this`bytes, this`trashSeq, known, disk
      ensures Valid()
      ensures (View(), trash) == DropAll(old(View()), victims)
    {
      hide Drop, Valid;
      trash := [];
      var i := 0;
      assert victims[i..] == victims;
      while i < |victims|
        invariant 0 <= i <= |victims|
        invariant Valid()
        invariant DropAll(View(), victims[i..]).0 == DropAll(old(View()), victims).0
        invariant trash + DropAll(View(), victims[i..]).1 == DropAll(old(View()), victims).1
      {
        assert victims[i..][0] == victims[i] && victims[i..][1..] == victims[i + 1..];
        var more := DropLocked(victims[i]);
        trash := trash + more;
        i := i + 1;
      }
      assert victims[i..] == [];
      assert DropAll(View(), []) == (View(), []) && trash + [] == trash;
    }

    method AdmitLocked(want: int) returns (trash: seq<Dir>, ok: bool)
      requires Valid()
      modifies this`entries, this`lru, this`bytes, this`trashSeq, known, disk
      ensures Valid()
      ensures (View(), trash, ok) == Admit(old(View()), want)
    {
      hide Victims, Freed, DropAll;
      var need := bytes + want - maxBytes;
      if need <= 0 {
        return [], true;
      }
      var victims, freed := EvictableLocked(need);
      if freed < need {
        return [], false;
      }
      trash := DropAllLocked(victims);
      ok := true;
    }

    method TrimLocked() returns (trash: seq<Dir>)
      requires Valid()
      modifies this`entries, this`lru, this`bytes, this`trashSeq, known, disk
      ensures Valid()
      ensures (View(), trash) == Trim(old(View()))
    {
      hide Victims, Freed, DropAll;
      var need := bytes - maxBytes;
      if need <= 0 {
        return [];
      }
      var victims, _ := EvictableLocked(need);
      trash := DropAllLocked(victims);
    }

    /** The locked lookup of `tryAcquire`. */
    method TryAcquireLocked(key: Key) returns (e: CacheEntry?)
      requires Valid()
      modifies this`lru, known
      ensures Valid()
      ensures e == if key in old(entries) then old(entries)[key] else null
      ensures View() == if e == null then old(View()) else CacheState.Hold(old(View()), e)
    {
      if key !in entries {
        return null;
      }
      e := entries[key];
      Hold(e);
    }

    /** The locked section of `acquire`: join the fill or the pages that are
        there, or be refused, or become the filler of a new entry. */
    method AcquireLocked(key: Key) returns (e: CacheEntry?, filler: bool, trash: seq<Dir>)
      requires Valid()
      modifies this, known, disk
      ensures Valid()
      ensures var c := Init(old(View()));
        if key in c.index then
          e == c.index[key] && !filler && trash == [] && View() == CacheState.Hold(c, e)
        else if !Admit(c, archiveBudget).2 then
          e == null && !filler && trash == [] && View() == c
        else
          && filler && e != null && fresh(e) && trash == Admit(c, archiveBudget).1
          && View() == Insert(Admit(c, archiveBudget).0, key, e)
    {
      hide Admit;
      InitLocked();
      trash := [];
      if key in entries {
        e, filler := entries[key], false;
        Hold(e);
        return;
      }
      var ok;
      ghost var c := View();
      trash, ok := AdmitLocked(archiveBudget);
      if !ok {
        RefusalChangesNothing(c, archiveBudget);
        return null, false, trash;
      }
      e := InsertLocked(key);
      filler := true;
    }

    /** A fresh entry, charged the whole archive budget. */
    method InsertLocked(key: Key) returns (e: CacheEntry)
      requires Valid()
      modifies this`entries, this`lru, this`bytes, this`known
      ensures Valid() && fresh(e) && View() == Insert(old(View()), key, e)
    {
      e := new CacheEntry(key, archiveBudget);
      bytes := bytes + archiveBudget;
      entries := entries[key := e];
      lru := [e] + lru;
      known := known + {e};
      TableGrew(old(TableOf(known)), known, e);
    }

    method RecordLocked(e: CacheEntry, dir: Option<Dir>, pages: Content, size: int, err: Option<string>)
      requires Valid() && e in known
      modifies this`bytes, e
      ensures Valid() && View() == Record(old(View()), e, dir, pages, size, err)
    {
      bytes := bytes + size - e.size;
      e.Complete(dir, pages, size, err);
      OneChanged(old(TableOf(known)), known, e);
    }

    method Settle(e: CacheEntry, dir: Option<Dir>, pages: Content, size: int, err: Option<string>) returns (trash: seq<Dir>)
      requires Valid() && e in known
      modifies this`entries, this`lru, this`bytes, this`trashSeq, known, disk
      ensures Valid()
      ensures (View(), trash) == CacheState.Settle(old(View()), e, dir, pages, size, err)
    {
      hide Drop, Trim;
      RecordLocked(e, dir, pages, size, err);
      if err.Some? {
        trash := DropLocked(e);
      } else {
        trash := TrimLocked();
      }
    }
  }
}
