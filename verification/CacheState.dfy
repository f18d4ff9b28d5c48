/** The page cache as a value: what every section that holds the cache's lock
    does to the index, the LRU list, the byte count and the directories.

    `E` is the identity of an entry. The class `PageCache` instantiates it with
    object references; the interleavings in `CacheSystem` leave it open. */
module CacheState {
  import opened Common

  const DefaultPageCacheBytes := 0x4000_0000

  type Key = string

  /** A directory under the cache root. Names of the three kinds never collide,
      and the published name of a key is injective in the key. */
  datatype Dir = Published(key: Key) | Staged(n: nat) | Trash(seqNo: nat)

  /** What a directory holds: page files by number. */
  type Content = map<nat, Bytes>

  /** One `cacheEntry`. `done` is its closed channel, `listed` its non-nil list
      element, `pages` what its filler put in the directory. */
  datatype Entry = Entry(
    key: Key, done: bool, dir: Option<Dir>, pages: Content, size: int, err: Option<string>,
    refs: int, dead: bool, listed: bool)

  datatype Cache<!E> = Cache(
    maxBytes: int, archiveBudget: int, ready: bool,
    table: map<E, Entry>, index: map<Key, E>, lru: seq<E>,
    bytes: int, trashSeq: nat, disk: map<Dir, Content>)

  // ------------------------------------------------------------------
  // The steps
  // ------------------------------------------------------------------

  ghost function Init<E>(c: Cache<E>): Cache<E> {
    if c.ready then c else c.(ready := true, disk := map[])
  }

  ghost function Hold<E>(c: Cache<E>, e: E): Cache<E>
    requires e in c.table
  {
    c.(table := c.table[e := c.table[e].(refs := c.table[e].refs + 1)],
       lru := if c.table[e].listed then [e] + Without(c.lru, e) else c.lru)
  }

  ghost function Release<E>(c: Cache<E>, e: E): Cache<E>
    requires e in c.table
  {
    c.(table := c.table[e := c.table[e].(refs := c.table[e].refs - 1)])
  }

  ghost predicate Known<E>(es: seq<E>, table: map<E, Entry>) {
    forall e :: e in es ==> e in table
  }

  ghost function SizeSum<E>(es: seq<E>, table: map<E, Entry>): int
    requires Known(es, table)
  {
    if es == [] then 0 else table[es[0]].size + SizeSum(es[1..], table)
  }

  /** Unreferenced entries from the least recently used end, until their sizes
      cover `need` or there are no more. */
  ghost function Victims<E>(lru: seq<E>, table: map<E, Entry>, need: int): (vs: seq<E>)
    requires Known(lru, table)
    ensures forall v :: v in vs ==> v in lru && table[v].refs <= 0
  {
    if lru == [] || need <= 0 then []
    else
      var last := |lru| - 1;
      var e := lru[last];
      if table[e].refs > 0 then Victims(lru[..last], table, need)
      else [e] + Victims(lru[..last], table, need - table[e].size)
  }

  /** The entry leaves the index, the list and the byte count. */
  ghost function Retire<E>(c: Cache<E>, e: E): Cache<E>
    requires e in c.table
  {
    var r := c.table[e];
    c.(table := c.table[e := r.(dead := true, listed := false, size := 0, dir := None)],
       index := if r.key in c.index && c.index[r.key] == e then c.index - {r.key} else c.index,
       lru := if r.listed then Without(c.lru, e) else c.lru,
       bytes := c.bytes - r.size)
  }

  /** A retired entry's directory is renamed to a fresh trash name, which is
      handed back for unlinking. A directory that is not there cannot be
      renamed and is handed back under its own name. */
  ghost function Discard<E>(c: Cache<E>, dir: Option<Dir>): (Cache<E>, seq<Dir>) {
    if dir.None? then (c, [])
    else if dir.value !in c.disk then (c.(trashSeq := c.trashSeq + 1), [dir.value])
    else
      (c.(trashSeq := c.trashSeq + 1,
          disk := (c.disk - {dir.value})[Trash(c.trashSeq + 1) := c.disk[dir.value]]),
       [Trash(c.trashSeq + 1)])
  }

  ghost function Drop<E>(c: Cache<E>, e: E): (Cache<E>, seq<Dir>)
    requires e in c.table
  {
    if c.table[e].dead then (c, []) else Discard(Retire(c, e), c.table[e].dir)
  }

  ghost function DropAll<E>(c: Cache<E>, vs: seq<E>): (Cache<E>, seq<Dir>)
    requires Known(vs, c.table)
    decreases |vs|
  {
    if vs == [] then (c, [])
    else
      var (c1, t1) := Drop(c, vs[0]);
      var (c2, t2) := DropAll(c1, vs[1..]);
      (c2, t1 + t2)
  }

  /** Makes room for `want` more bytes, or changes nothing. */
  ghost function Admit<E>(c: Cache<E>, want: int): (Cache<E>, seq<Dir>, bool)
    requires Known(c.lru, c.table)
  {
    var need := c.bytes + want - c.maxBytes;
    if need <= 0 then (c, [], true)
    else
      var vs := Victims(c.lru, c.table, need);
      if Freed(c.lru, c.table, need) < need then (c, [], false)
      else (DropAll(c, vs).0, DropAll(c, vs).1, true)
  }

  /** The running total of the eviction scan. */
  ghost function Freed<E>(lru: seq<E>, table: map<E, Entry>, need: int): (freed: int)
    requires Known(lru, table)
    ensures freed == SizeSum(Victims(lru, table, need), table)
  {
    if lru == [] || need <= 0 then 0
    else
      var last := |lru| - 1;
      var e := lru[last];
      if table[e].refs > 0 then Freed(lru[..last], table, need)
      else table[e].size + Freed(lru[..last], table, need - table[e].size)
  }

  ghost function Trim<E>(c: Cache<E>): (Cache<E>, seq<Dir>)
    requires Known(c.lru, c.table)
  {
    var need := c.bytes - c.maxBytes;
    if need <= 0 then (c, []) else DropAll(c, Victims(c.lru, c.table, need))
  }

  /** A fresh entry, charged the whole archive budget before its fill begins. */
  ghost function Insert<E>(c: Cache<E>, key: Key, e: E): Cache<E>
  {
    c.(table := c.table[e := Entry(key, false, None, map[], c.archiveBudget, None, 1, false, true)],
       index := c.index[key := e],
       lru := [e] + c.lru,
       bytes := c.bytes + c.archiveBudget)
  }

  /** The fill's outcome is recorded and its waiters are woken. */
  ghost function Record<E>(c: Cache<E>, e: E, dir: Option<Dir>, pages: Content, size: int, err: Option<string>): Cache<E>
    requires e in c.table
  {
    c.(table := c.table[e := c.table[e].(done := true, dir := dir, pages := pages, err := err, size := size)],
       bytes := c.bytes + size - c.table[e].size)
  }

  ghost function Settle<E>(c: Cache<E>, e: E, dir: Option<Dir>, pages: Content, size: int, err: Option<string>): (Cache<E>, seq<Dir>)
    requires e in c.table && Known(c.lru, c.table)
  {
    var c1 := Record(c, e, dir, pages, size, err);
    if err.Some? then Drop(c1, e) else Trim(c1)
  }
}
