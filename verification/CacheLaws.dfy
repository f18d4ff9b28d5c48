/** What the steps of `CacheState` keep, and what admission promises. */
module CacheLaws {
  import opened Common
  import opened CacheState

  /** The index, the LRU list and the byte count tell the same story. */
  ghost predicate Books<E>(c: Cache<E>) {
    && NoDup(c.lru)
    && Known(c.lru, c.table)
    && (forall e :: e in c.table ==> (c.table[e].listed <==> e in c.lru))
    && (forall e :: e in c.table ==> (c.table[e].dead <==> e !in c.lru))
    && (forall k :: k in c.index ==> c.index[k] in c.lru && c.table[c.index[k]].key == k)
    && (forall e :: e in c.lru ==> c.table[e].key in c.index && c.index[c.table[e].key] == e)
    && c.bytes == SizeSum(c.lru, c.table)
  }

  /** An entry's directory is where its key says, with the pages its filler
      put there, from the moment it is settled until it leaves the index. */
  ghost predicate Homed(r: Entry, disk: map<Dir, Content>, budget: int) {
    if r.dead then r.done && r.dir == None && r.size == 0 && (r.err == None ==> r.refs <= 0)
    else if !r.done then r.dir == None && r.err == None && r.size == budget
    else r.err == None && r.dir == Some(Published(r.key)) && Published(r.key) in disk && disk[Published(r.key)] == r.pages
  }

  ghost predicate Directories<E>(c: Cache<E>) {
    && (forall e :: e in c.table ==> Homed(c.table[e], c.disk, c.archiveBudget))
    && (forall n: nat :: Trash(n) in c.disk ==> n <= c.trashSeq)
  }

  ghost predicate FillsHeld<E>(c: Cache<E>) {
    forall e :: e in c.table && !c.table[e].done ==> c.table[e].refs > 0
  }

  ghost predicate CacheInv<E>(c: Cache<E>) {
    Books(c) && Directories(c)
  }

  // ------------------------------------------------------------------
  // Sums
  // ------------------------------------------------------------------

  lemma {:induction false} SumFrame<E>(es: seq<E>, t: map<E, Entry>, u: map<E, Entry>)
    requires Known(es, t) && Known(es, u)
    requires forall e :: e in es ==> t[e].size == u[e].size
    ensures SizeSum(es, t) == SizeSum(es, u)
  {
    if es != [] {
      SumFrame(es[1..], t, u);
    }
  }

  lemma {:induction false} SumUpdate<E>(es: seq<E>, t: map<E, Entry>, e: E, r: Entry)
    requires Known(es, t) && NoDup(es) && e in es
    ensures Known(es, t[e := r])
    ensures SizeSum(es, t[e := r]) == SizeSum(es, t) - t[e].size + r.size
  {
    if es[0] == e {
      assert e !in es[1..];
      SumFrame(es[1..], t, t[e := r]);
    } else {
      SumUpdate(es[1..], t, e, r);
    }
  }

  lemma {:induction false} SumWithout<E>(es: seq<E>, t: map<E, Entry>, e: E)
    requires Known(es, t) && NoDup(es) && e in es
    ensures SizeSum(Without(es, e), t) == SizeSum(es, t) - t[e].size
  {
    if es[0] == e {
      assert e !in es[1..];
      WithoutAbsent(es[1..], e);
      assert Without(es, e) == es[1..];
    } else {
      SumWithout(es[1..], t, e);
      assert Without(es, e) == [es[0]] + Without(es[1..], e);
      assert Without(es, e)[1..] == Without(es[1..], e);
    }
  }

  lemma {:induction false} SumConcat<E>(a: seq<E>, b: seq<E>, t: map<E, Entry>)
    requires Known(a, t) && Known(b, t)
    ensures Known(a + b, t)
    ensures SizeSum(a + b, t) == SizeSum(a, t) + SizeSum(b, t)
  {
    if a == [] {
      assert a + b == b;
    } else {
      SumConcat(a[1..], b, t);
      assert (a + b)[1..] == a[1..] + b;
    }
  }

  // ------------------------------------------------------------------
  // One entry leaves the index
  // ------------------------------------------------------------------

  /** A settled entry nobody holds: the only kind the evictor may pick. */
  ghost predicate Evictable<E>(c: Cache<E>, e: E) {
    e in c.table && e in c.lru && !c.table[e].dead && c.table[e].listed && c.table[e].done && c.table[e].refs <= 0
  }

  lemma RetireKeepsBooks<E>(c: Cache<E>, e: E)
    requires Books(c) && e in c.lru
    ensures Books(Retire(c, e))
    ensures Retire(c, e).lru == Without(c.lru, e)
    ensures Retire(c, e).index == c.index - {c.table[e].key}
  {
    var c' := Retire(c, e);
    WithoutNoDup(c.lru, e);
    SumWithout(c.lru, c.table, e);
    SumFrame(Without(c.lru, e), c.table, c'.table);
    forall k | k in c'.index ensures c'.index[k] in c'.lru && c'.table[c'.index[k]].key == k {
      assert c.index[k] != e;
    }
    forall d | d in c'.lru ensures c'.table[d].key in c'.index && c'.index[c'.table[d].key] == d {
      assert d != e && c.index[c.table[d].key] == d;
    }
  }

  /** Its directory is moved out of the published name in the same step. */
  lemma DropMovesDirectory<E>(c: Cache<E>, e: E)
    requires CacheInv(c) && Evictable(c, e)
    ensures Published(c.table[e].key) in c.disk
    ensures Drop(c, e).1 == [Trash(c.trashSeq + 1)]
    ensures Drop(c, e).0 == Retire(c, e).(
      trashSeq := c.trashSeq + 1,
      disk := (c.disk - {Published(c.table[e].key)})[Trash(c.trashSeq + 1) := c.disk[Published(c.table[e].key)]])
  {
    hide Books;
    assert Homed(c.table[e], c.disk, c.archiveBudget);
  }

  lemma DropKeepsInv<E>(c: Cache<E>, e: E)
    requires CacheInv(c) && Evictable(c, e)
    ensures CacheInv(Drop(c, e).0)
  {
    DropMovesDirectory(c, e);
    RetireKeepsBooks(c, e);
    var c' := Drop(c, e).0;
    forall d | d in c'.table ensures Homed(c'.table[d], c'.disk, c'.archiveBudget) {
      assert Homed(c.table[d], c.disk, c.archiveBudget);
      if d != e && !c.table[d].dead && c.table[d].done {
        assert d in c.lru && c.index[c.table[d].key] == d;
      }
    }
  }

  ghost predicate AllEvictable<E>(c: Cache<E>, vs: seq<E>) {
    NoDup(vs) && Known(vs, c.table) && forall v :: v in vs ==> Evictable(c, v)
  }

  ghost function TrashFrom(from: nat, n: nat): (ds: seq<Dir>)
    ensures |ds| == n
    ensures forall i :: 0 <= i < n ==> ds[i] == Trash(from + 1 + i)
    decreases n
  {
    if n == 0 then [] else [Trash(from + 1)] + TrashFrom(from + 1, n - 1)
  }

  ghost function KeysOf<E>(vs: seq<E>, table: map<E, Entry>): set<Dir>
    requires Known(vs, table)
  {
    set v | v in vs :: Published(table[v].key)
  }

  /** `lru` without the victims, the rest in its order. */
  ghost function Survivors<E>(lru: seq<E>, vs: seq<E>): (r: seq<E>)
    ensures forall e :: e in lru && e !in vs ==> e in r
    ensures forall e :: e in r ==> e in lru && e !in vs
  {
    if lru == [] then [] else (if lru[0] in vs then [] else [lru[0]]) + Survivors(lru[1..], vs)
  }

  lemma {:induction false} SurvivorsStep<E>(lru: seq<E>, v: E, rest: seq<E>)
    ensures Survivors(Without(lru, v), rest) == Survivors(lru, [v] + rest)
  {
    if lru != [] {
      SurvivorsStep(lru[1..], v, rest);
      var w := Without(lru, v);
      if lru[0] != v {
        assert w == [lru[0]] + Without(lru[1..], v) && w[1..] == Without(lru[1..], v);
      } else {
        assert w == Without(lru[1..], v);
      }
    }
  }

  lemma {:induction false} SurvivorsOfNone<E>(lru: seq<E>)
    ensures Survivors(lru, []) == lru
  {
    if lru != [] {
      SurvivorsOfNone(lru[1..]);
    }
  }

  /** The victims leave the index and nothing else does, and the bytes they
      were charged come back. */
  ghost predicate IndexEvicted<E>(c: Cache<E>, vs: seq<E>, c': Cache<E>)
    requires Known(vs, c.table)
  {
    && c'.table.Keys == c.table.Keys
    && (forall e :: e in c.table && e !in vs ==> c'.table[e] == c.table[e])
    && (forall e :: e in vs ==> c'.table[e] == c.table[e].(dead := true, listed := false, size := 0, dir := None))
    && c'.lru == Survivors(c.lru, vs)
    && c'.bytes == c.bytes - SizeSum(vs, c.table)
    && c'.ready == c.ready && c'.maxBytes == c.maxBytes && c'.archiveBudget == c.archiveBudget
  }

  /** The victims' published names become free and their directories are under
      fresh trash names. Nothing else moves. */
  ghost predicate DiskEvicted<E>(c: Cache<E>, vs: seq<E>, c': Cache<E>, trash: seq<Dir>)
    requires Known(vs, c.table)
  {
    && c'.trashSeq == c.trashSeq + |vs|
    && trash == TrashFrom(c.trashSeq, |vs|)
    && c'.disk.Keys == c.disk.Keys - KeysOf(vs, c.table) + TrashSet(c.trashSeq, |vs|)
    && (forall d :: d in c.disk && d in c'.disk ==> c'.disk[d] == c.disk[d])
  }

  lemma DropAllStep<E>(c: Cache<E>, vs: seq<E>)
    requires CacheInv(c) && AllEvictable(c, vs) && vs != []
    ensures var c1 := Drop(c, vs[0]).0;
      && CacheInv(c1) && AllEvictable(c1, vs[1..])
      && DropAll(c, vs) == (DropAll(c1, vs[1..]).0, Drop(c, vs[0]).1 + DropAll(c1, vs[1..]).1)
  {
    var v, rest := vs[0], vs[1..];
    DropMovesDirectory(c, v);
    DropKeepsInv(c, v);
    var c1 := Drop(c, v).0;
    assert v !in rest;
    forall w | w in rest ensures Evictable(c1, w) {
      assert Evictable(c, w);
    }
  }

  lemma {:induction false} DropAllKeepsInv<E>(c: Cache<E>, vs: seq<E>)
    requires CacheInv(c) && AllEvictable(c, vs)
    ensures CacheInv(DropAll(c, vs).0)
    decreases |vs|
  {
    if vs != [] {
      DropAllStep(c, vs);
      DropAllKeepsInv(Drop(c, vs[0]).0, vs[1..]);
    }
  }

  lemma {:induction false} DropAllEvictsIndex<E>(c: Cache<E>, vs: seq<E>)
    requires CacheInv(c) && AllEvictable(c, vs)
    ensures IndexEvicted(c, vs, DropAll(c, vs).0)
    decreases |vs|
  {
    hide CacheInv, Drop, IndexEvicted;
    if vs == [] {
      SurvivorsOfNone(c.lru);
      IndexEvictedNone(c);
    } else {
      DropAllStep(c, vs);
      DropMovesDirectory(c, vs[0]);
      var c1 := Drop(c, vs[0]).0;
      DropAllEvictsIndex(c1, vs[1..]);
      IndexEvictedStep(c, vs, c1, DropAll(c1, vs[1..]).0);
    }
  }

  lemma IndexEvictedNone<E>(c: Cache<E>)
    ensures IndexEvicted(c, [], c)
  {
    SurvivorsOfNone(c.lru);
  }

  lemma IndexEvictedStep<E>(c: Cache<E>, vs: seq<E>, c1: Cache<E>, c': Cache<E>)
    requires vs != [] && NoDup(vs) && Known(vs, c.table) && c.table[vs[0]].listed
    requires c1 == Retire(c, vs[0]).(trashSeq := c1.trashSeq, disk := c1.disk)
    requires Known(vs[1..], c1.table) && IndexEvicted(c1, vs[1..], c')
    ensures IndexEvicted(c, vs, c')
  {
    var v, rest := vs[0], vs[1..];
    assert vs == [v] + rest && v !in rest;
    SurvivorsStep(c.lru, v, rest);
    SumFrame(rest, c.table, c1.table);
    forall e | e in c.table && e !in vs ensures c'.table[e] == c.table[e] {
      assert e != v && e !in rest;
    }
    forall e | e in vs ensures c'.table[e] == c.table[e].(dead := true, listed := false, size := 0, dir := None) {
      assert e == v || e in rest;
    }
  }

  lemma {:induction false} DropAllTrash<E>(c: Cache<E>, vs: seq<E>)
    requires CacheInv(c) && AllEvictable(c, vs)
    ensures DropAll(c, vs).0.trashSeq == c.trashSeq + |vs|
    ensures DropAll(c, vs).1 == TrashFrom(c.trashSeq, |vs|)
    decreases |vs|
  {
    hide CacheInv, Retire;
    if vs != [] {
      DropAllStep(c, vs);
      DropMovesDirectory(c, vs[0]);
      DropAllTrash(Drop(c, vs[0]).0, vs[1..]);
    }
  }

  lemma {:induction false} DropAllMoves<E>(c: Cache<E>, vs: seq<E>)
    requires CacheInv(c) && AllEvictable(c, vs)
    ensures DropAll(c, vs).0.disk.Keys == c.disk.Keys - KeysOf(vs, c.table) + TrashSet(c.trashSeq, |vs|)
    ensures forall d :: d in c.disk && d in DropAll(c, vs).0.disk ==> DropAll(c, vs).0.disk[d] == c.disk[d]
    decreases |vs|
  {
    hide Books, Evictable, Drop, Homed;
    if vs != [] {
      var v, rest := vs[0], vs[1..];
      DropAllStep(c, vs);
      DropMovesDirectory(c, v);
      var c1 := Drop(c, v).0;
      DropAllMoves(c1, rest);
      KeysOfStep(c, vs, c1);
      TrashSetStep(c.trashSeq, |vs|);
      DiskStep(c.disk, c1.disk, DropAll(c1, rest).0.disk, Published(c.table[v].key), KeysOf(rest, c1.table),
               Trash(c.trashSeq + 1), TrashSet(c1.trashSeq, |rest|));
    }
  }

  /** Two successive moves make one. */
  lemma DiskStep(d0: map<Dir, Content>, d1: map<Dir, Content>, d2: map<Dir, Content>,
                 from: Dir, rest: set<Dir>, to: Dir, more: set<Dir>)
    requires to !in d0 && from != to && to !in rest
    requires from in d0
    requires d1 == (d0 - {from})[to := d0[from]]
    requires d2.Keys == d1.Keys - rest + more
    requires forall d :: d in d1 && d in d2 ==> d2[d] == d1[d]
    requires from !in more
    ensures d2.Keys == d0.Keys - ({from} + rest) + ({to} + more)
    ensures forall d :: d in d0 && d in d2 ==> d2[d] == d0[d]
  {
  }

  ghost function TrashSet(from: nat, n: nat): set<Dir> {
    set i | from < i <= from + n :: Trash(i)
  }

  lemma TrashSetStep(from: nat, n: nat)
    requires n > 0
    ensures TrashSet(from, n) == {Trash(from + 1)} + TrashSet(from + 1, n - 1)
  {
  }

  lemma KeysOfStep<E>(c: Cache<E>, vs: seq<E>, c1: Cache<E>)
    requires vs != [] && NoDup(vs) && Known(vs, c.table) && Known(vs[1..], c1.table)
    requires forall w :: w in vs[1..] ==> c1.table[w] == c.table[w]
    ensures KeysOf(vs, c.table) == {Published(c.table[vs[0]].key)} + KeysOf(vs[1..], c1.table)
  {
    assert vs == [vs[0]] + vs[1..];
    forall w | w in vs ensures w == vs[0] || w in vs[1..] {
    }
  }

  // ------------------------------------------------------------------
  // Admission
  // ------------------------------------------------------------------

  /** The entries nobody holds, least recently used first. */
  ghost function Unheld<E>(lru: seq<E>, table: map<E, Entry>): (us: seq<E>)
    requires Known(lru, table)
    ensures forall u :: u in us ==> u in lru && table[u].refs <= 0
    ensures forall u :: u in lru && table[u].refs <= 0 ==> u in us
  {
    if lru == [] then []
    else
      var e := lru[|lru| - 1];
      (if table[e].refs > 0 then [] else [e]) + Unheld(lru[..|lru| - 1], table)
  }

  lemma {:induction false} UnheldNoDup<E>(lru: seq<E>, table: map<E, Entry>)
    requires Known(lru, table) && NoDup(lru)
    ensures NoDup(Unheld(lru, table))
  {
    if lru != [] {
      var e, rest := lru[|lru| - 1], lru[..|lru| - 1];
      UnheldNoDup(rest, table);
      assert e !in rest;
    }
  }

  lemma {:induction false} VictimsPrefix<E>(lru: seq<E>, table: map<E, Entry>, need: int)
    requires Known(lru, table)
    ensures Victims(lru, table, need) <= Unheld(lru, table)
  {
    if lru != [] && need > 0 {
      var e, rest := lru[|lru| - 1], lru[..|lru| - 1];
      VictimsPrefix(rest, table, if table[e].refs > 0 then need else need - table[e].size);
    }
  }

  /** The scan stops as soon as, and no sooner than, the need is covered. */
  lemma {:induction false} VictimsCover<E>(lru: seq<E>, table: map<E, Entry>, need: int)
    requires Known(lru, table)
    ensures var vs := Victims(lru, table, need);
      && (|vs| > 0 ==> SizeSum(vs[..|vs| - 1], table) < need)
      && (|vs| < |Unheld(lru, table)| ==> SizeSum(vs, table) >= need)
  {
    if lru != [] && need > 0 {
      var e, rest := lru[|lru| - 1], lru[..|lru| - 1];
      if table[e].refs > 0 {
        VictimsCover(rest, table, need);
      } else {
        VictimsCover(rest, table, need - table[e].size);
        var vs, vs' := Victims(lru, table, need), Victims(rest, table, need - table[e].size);
        assert vs == [e] + vs' && vs[1..] == vs';
        if |vs'| > 0 {
          assert vs[..|vs| - 1][1..] == vs'[..|vs'| - 1];
        }
      }
    }
  }

  /** The victims are the shortest run of unheld entries from the LRU end that
      covers the need, or all of them. */
  lemma VictimsShortestRun<E>(lru: seq<E>, table: map<E, Entry>, need: int)
    requires Known(lru, table)
    ensures var us, vs := Unheld(lru, table), Victims(lru, table, need);
      && |vs| <= |us| && vs == us[..|vs|]
      && (|vs| > 0 ==> SizeSum(us[..|vs| - 1], table) < need)
      && (|vs| < |us| ==> SizeSum(vs, table) >= need)
  {
    VictimsPrefix(lru, table, need);
    VictimsCover(lru, table, need);
    var us, vs := Unheld(lru, table), Victims(lru, table, need);
    if |vs| > 0 {
      assert us[..|vs| - 1] == vs[..|vs| - 1];
    }
  }

  lemma {:induction false} SumNonNegative<E>(es: seq<E>, table: map<E, Entry>)
    requires Known(es, table) && forall e :: e in es ==> table[e].size >= 0
    ensures SizeSum(es, table) >= 0
  {
    if es != [] {
      SumNonNegative(es[1..], table);
    }
  }

  /** The victims of any scan of a sound cache can be dropped. */
  lemma VictimsAreEvictable<E>(c: Cache<E>, need: int)
    requires CacheInv(c) && FillsHeld(c)
    ensures AllEvictable(c, Victims(c.lru, c.table, need))
  {
    var us, vs := Unheld(c.lru, c.table), Victims(c.lru, c.table, need);
    VictimsShortestRun(c.lru, c.table, need);
    UnheldNoDup(c.lru, c.table);
    forall i, j | 0 <= i < j < |vs| ensures vs[i] != vs[j] {
      assert vs[i] == us[i] && vs[j] == us[j];
    }
  }

  ghost predicate SizesNonNegative<E>(c: Cache<E>)
    requires Known(c.lru, c.table)
  {
    forall e :: e in c.lru ==> c.table[e].size >= 0
  }

  /** All or nothing. A refusal changes nothing, and it happens exactly when
      dropping every entry nobody holds would still not make room. */
  lemma AdmissionRefusal<E>(c: Cache<E>, want: nat)
    requires CacheInv(c) && SizesNonNegative(c)
    ensures !Admit(c, want).2 <==> c.bytes - SizeSum(Unheld(c.lru, c.table), c.table) + want > c.maxBytes
    ensures !Admit(c, want).2 ==> Admit(c, want).0 == c && Admit(c, want).1 == []
  {
    FreedBounds(c.lru, c.table, c.bytes + want - c.maxBytes);
  }

  lemma FreedBounds<E>(lru: seq<E>, table: map<E, Entry>, need: int)
    requires Known(lru, table) && forall e :: e in lru ==> table[e].size >= 0
    ensures need > 0 ==> (Freed(lru, table, need) < need <==> SizeSum(Unheld(lru, table), table) < need)
    ensures SizeSum(Unheld(lru, table), table) >= 0
  {
    var us, vs := Unheld(lru, table), Victims(lru, table, need);
    SumNonNegative(us, table);
    VictimsShortestRun(lru, table, need);
    var others := us[|vs|..];
    assert us == vs + others;
    SumConcat(vs, others, table);
    SumNonNegative(others, table);
  }

  /** The entries an admission evicts. */
  ghost function Admitted<E>(c: Cache<E>, want: int): seq<E>
    requires Known(c.lru, c.table)
  {
    Victims(c.lru, c.table, c.bytes + want - c.maxBytes)
  }

  /** On success there is room, and what made it is the shortest run of unheld
      entries from the least recently used end that covers the need. */
  lemma AdmissionSuccess<E>(c: Cache<E>, want: nat)
    requires CacheInv(c) && FillsHeld(c)
    requires Admit(c, want).2
    ensures CacheInv(Admit(c, want).0) && Admit(c, want).0.bytes + want <= c.maxBytes
    ensures IndexEvicted(c, Admitted(c, want), Admit(c, want).0)
    ensures DiskEvicted(c, Admitted(c, want), Admit(c, want).0, Admit(c, want).1)
    ensures var us, n := Unheld(c.lru, c.table), |Admitted(c, want)|;
      && n <= |us| && Admitted(c, want) == us[..n]
      && (n > 0 ==> c.bytes - SizeSum(us[..n - 1], c.table) + want > c.maxBytes)
  {
    hide FillsHeld, IndexEvicted, DiskEvicted, AllEvictable, Victims, Unheld, Admit, DropAll;
    var vs := Admitted(c, want);
    AdmitDrops(c, want);
    VictimsShortestRun(c.lru, c.table, c.bytes + want - c.maxBytes);
    VictimsAreEvictable(c, c.bytes + want - c.maxBytes);
    EvictionEffect(c, vs);
  }

  lemma EvictionEffect<E>(c: Cache<E>, vs: seq<E>)
    requires CacheInv(c) && AllEvictable(c, vs)
    ensures CacheInv(DropAll(c, vs).0)
    ensures IndexEvicted(c, vs, DropAll(c, vs).0)
    ensures DiskEvicted(c, vs, DropAll(c, vs).0, DropAll(c, vs).1)
    ensures DropAll(c, vs).0.bytes == c.bytes - SizeSum(vs, c.table)
  {
    hide CacheInv, Evictable;
    DropAllKeepsInv(c, vs);
    DropAllEvictsIndex(c, vs);
    DropAllTrash(c, vs);
    DropAllMoves(c, vs);
  }

  lemma AdmitDrops<E>(c: Cache<E>, want: int)
    requires Known(c.lru, c.table) && Admit(c, want).2
    ensures DropAll(c, Admitted(c, want)) == (Admit(c, want).0, Admit(c, want).1)
    ensures c.bytes - SizeSum(Admitted(c, want), c.table) + want <= c.maxBytes
  {
    if c.bytes + want - c.maxBytes <= 0 {
      assert Admitted(c, want) == [];
    }
  }

  // ------------------------------------------------------------------
  // The other steps keep the cache's invariant
  // ------------------------------------------------------------------

  lemma MoveToFront<E>(es: seq<E>, t: map<E, Entry>, e: E)
    requires Known(es, t) && NoDup(es) && e in es
    ensures NoDup([e] + Without(es, e)) && Known([e] + Without(es, e), t)
    ensures SizeSum([e] + Without(es, e), t) == SizeSum(es, t)
  {
    WithoutNoDup(es, e);
    SumWithout(es, t, e);
    assert ([e] + Without(es, e))[1..] == Without(es, e);
  }

  lemma HoldKeepsBooks<E>(c: Cache<E>, e: E)
    requires Books(c) && e in c.lru
    ensures Books(Hold(c, e))
  {
    var c' := Hold(c, e);
    MoveToFront(c.lru, c.table, e);
    SumFrame(c'.lru, c.table, c'.table);
  }

  lemma HoldKeepsInv<E>(c: Cache<E>, e: E)
    requires CacheInv(c) && e in c.lru
    ensures CacheInv(Hold(c, e))
  {
    HoldKeepsBooks(c, e);
    hide Books;
    HomedAlike(c, Hold(c, e));
  }

  /** Reference counts do not move directories, unless a dead entry is held. */
  lemma HomedAlike<E>(c: Cache<E>, c': Cache<E>)
    requires Directories(c) && c'.table.Keys == c.table.Keys
    requires c'.disk == c.disk && c'.trashSeq == c.trashSeq && c'.archiveBudget == c.archiveBudget
    requires forall e :: e in c.table ==> c'.table[e] == c.table[e].(refs := c'.table[e].refs)
    requires forall e :: e in c.table && c.table[e].dead ==> c'.table[e].refs <= c.table[e].refs
    ensures Directories(c')
  {
    forall d | d in c'.table ensures Homed(c'.table[d], c'.disk, c'.archiveBudget) {
      assert Homed(c.table[d], c.disk, c.archiveBudget);
    }
  }

  lemma ReleaseKeepsInv<E>(c: Cache<E>, e: E)
    requires CacheInv(c) && e in c.table
    ensures CacheInv(Release(c, e))
  {
    SumFrame(c.lru, c.table, Release(c, e).table);
    HomedAlike(c, Release(c, e));
  }

  lemma InsertSum<E>(c: Cache<E>, key: Key, e: E)
    requires Known(c.lru, c.table) && e !in c.table
    ensures Known(Insert(c, key, e).lru, Insert(c, key, e).table)
    ensures SizeSum(Insert(c, key, e).lru, Insert(c, key, e).table) == c.archiveBudget + SizeSum(c.lru, c.table)
  {
    var c' := Insert(c, key, e);
    SumFrame(c.lru, c.table, c'.table);
    assert c'.lru[1..] == c.lru;
  }

  lemma InsertKeepsBooks<E>(c: Cache<E>, key: Key, e: E)
    requires Books(c) && key !in c.index && e !in c.table
    ensures Books(Insert(c, key, e))
  {
    hide SizeSum;
    var c' := Insert(c, key, e);
    InsertSum(c, key, e);
    forall k | k in c'.index ensures c'.index[k] in c'.lru && c'.table[c'.index[k]].key == k {
      if k != key {
        assert c.index[k] in c.lru;
      }
    }
  }

  lemma InsertKeepsInv<E>(c: Cache<E>, key: Key, e: E)
    requires CacheInv(c) && key !in c.index && e !in c.table
    ensures CacheInv(Insert(c, key, e))
  {
    InsertKeepsBooks(c, key, e);
    hide Books;
    var c' := Insert(c, key, e);
    forall d | d in c'.table ensures Homed(c'.table[d], c'.disk, c'.archiveBudget) {
      if d != e {
        assert Homed(c.table[d], c.disk, c.archiveBudget);
      }
    }
  }

  /** A fill that succeeded: its pages are at the published name. */
  lemma RecordKeepsInv<E>(c: Cache<E>, e: E, pages: Content, size: int)
    requires CacheInv(c) && e in c.table && !c.table[e].done
    requires Published(c.table[e].key) in c.disk && c.disk[Published(c.table[e].key)] == pages
    ensures CacheInv(Record(c, e, Some(Published(c.table[e].key)), pages, size, None))
  {
    var c' := Record(c, e, Some(Published(c.table[e].key)), pages, size, None);
    assert Homed(c.table[e], c.disk, c.archiveBudget);
    SumUpdate(c.lru, c.table, e, c'.table[e]);
    forall d | d in c'.table ensures Homed(c'.table[d], c'.disk, c'.archiveBudget) {
      assert Homed(c.table[d], c.disk, c.archiveBudget);
    }
  }

  /** A failed fill is not remembered: the key is absent again, the whole
      reservation is returned, and the disk is as it was. */
  lemma FailedFillLeavesNothing<E>(c: Cache<E>, e: E, why: string)
    requires CacheInv(c) && e in c.table && !c.table[e].done
    ensures Settle(c, e, None, map[], 0, Some(why)) == (Forgotten(c, e, why), [])
    ensures c.table[e].key in c.index
    ensures CacheInv(Forgotten(c, e, why))
  {
    assert Homed(c.table[e], c.disk, c.archiveBudget);
    ForgottenBooks(c, e, why);
    ForgottenIsSettled(c, e, why);
    hide Books;
    var c' := Forgotten(c, e, why);
    forall d | d in c'.table ensures Homed(c'.table[d], c'.disk, c'.archiveBudget) {
      assert Homed(c.table[d], c.disk, c.archiveBudget);
    }
  }

  /** The cache without the failed entry, which only its waiters still see. */
  ghost function Forgotten<E>(c: Cache<E>, e: E, why: string): Cache<E>
    requires e in c.table
  {
    c.(table := c.table[e := c.table[e].(done := true, dir := None, err := Some(why), pages := map[], dead := true,
                                         listed := false, size := 0)],
       index := c.index - {c.table[e].key},
       lru := Without(c.lru, e),
       bytes := c.bytes - c.archiveBudget)
  }

  lemma ForgottenIsSettled<E>(c: Cache<E>, e: E, why: string)
    requires Books(c) && e in c.lru && c.table[e].size == c.archiveBudget
    ensures Settle(c, e, None, map[], 0, Some(why)) == (Forgotten(c, e, why), [])
  {
    var c1 := Record(c, e, None, map[], 0, Some(why));
    var r := c.table[e];
    assert c1.table[e := c1.table[e].(dead := true, listed := false, size := 0, dir := None)]
        == Forgotten(c, e, why).table;
    assert r.key in c.index && c.index[r.key] == e;
  }

  lemma ForgottenBooks<E>(c: Cache<E>, e: E, why: string)
    requires Books(c) && e in c.lru && c.table[e].size == c.archiveBudget
    ensures Books(Forgotten(c, e, why))
  {
    RetireKeepsBooks(c, e);
    var c1, c' := Retire(c, e), Forgotten(c, e, why);
    SumFrame(c1.lru, c1.table, c'.table);
  }
}
