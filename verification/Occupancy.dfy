/** How many bytes a directory's files take, and several directories' together. */
module Occupancy {
  import opened Common
  import opened CacheState

  ghost function Occupied(c: Content): nat
    decreases |c|
  {
    if c == map[] then 0 else var k :| k in c; |c[k]| + Occupied(c - {k})
  }

  /** The order in which files are counted does not matter. */
  lemma {:induction false} OccupiedWithout(c: Content, k: nat)
    requires k in c
    ensures Occupied(c) == |c[k]| + Occupied(c - {k})
    decreases |c|
  {
    var j :| j in c && Occupied(c) == |c[j]| + Occupied(c - {j});
    if j != k {
      OccupiedWithout(c - {j}, k);
      OccupiedWithout(c - {k}, j);
      assert c - {j} - {k} == c - {k} - {j};
    }
  }

  lemma OccupiedAdd(c: Content, k: nat, v: Bytes)
    requires k !in c
    ensures Occupied(c[k := v]) == Occupied(c) + |v|
  {
    OccupiedWithout(c[k := v], k);
    assert c[k := v] - {k} == c;
  }

  ghost function OccupiedBy(d: Dir, disk: map<Dir, Content>): nat {
    if d in disk then Occupied(disk[d]) else 0
  }

  /** The bytes of those of the directories that are on disk. */
  ghost function Weight(ds: set<Dir>, disk: map<Dir, Content>): nat {
    if ds == {} then 0 else var d :| d in ds; OccupiedBy(d, disk) + Weight(ds - {d}, disk)
  }

  lemma {:induction false} WeightWithout(ds: set<Dir>, disk: map<Dir, Content>, d: Dir)
    requires d in ds
    ensures Weight(ds, disk) == OccupiedBy(d, disk) + Weight(ds - {d}, disk)
  {
    var j :| j in ds && Weight(ds, disk) == OccupiedBy(j, disk) + Weight(ds - {j}, disk);
    if j != d {
      WeightWithout(ds - {j}, disk, d);
      WeightWithout(ds - {d}, disk, j);
      assert ds - {d} - {j} == ds - {j} - {d};
    }
  }

  lemma WeightOne(d: Dir, disk: map<Dir, Content>)
    ensures Weight({d}, disk) == OccupiedBy(d, disk)
  {
    WeightWithout({d}, disk, d);
  }

  lemma WeightAdd(ds: set<Dir>, disk: map<Dir, Content>, d: Dir)
    requires d !in ds
    ensures Weight(ds + {d}, disk) == Weight(ds, disk) + OccupiedBy(d, disk)
  {
    WeightWithout(ds + {d}, disk, d);
    assert ds + {d} - {d} == ds;
  }

  /** Two sets that share nothing on disk. */
  lemma {:induction false} WeightSplit(a: set<Dir>, b: set<Dir>, disk: map<Dir, Content>)
    requires a !! b
    ensures Weight(a + b, disk) == Weight(a, disk) + Weight(b, disk)
  {
    if a == {} {
      assert a + b == b;
    } else {
      var d :| d in a;
      WeightSplit(a - {d}, b, disk);
      WeightWithout(a, disk, d);
      WeightWithout(a + b, disk, d);
      assert a + b - {d} == (a - {d}) + b;
    }
  }

  lemma WeightWithin(a: set<Dir>, b: set<Dir>, disk: map<Dir, Content>)
    requires a <= b
    ensures Weight(a, disk) <= Weight(b, disk)
  {
    WeightSplit(a, b - a, disk);
    assert a + (b - a) == b;
  }

  lemma {:induction false} WeightFrame(ds: set<Dir>, disk: map<Dir, Content>, disk': map<Dir, Content>)
    requires forall d :: d in ds ==> d in disk && d in disk' && disk'[d] == disk[d]
    ensures Weight(ds, disk') == Weight(ds, disk)
  {
    if ds != {} {
      var d :| d in ds;
      WeightFrame(ds - {d}, disk, disk');
      WeightWithout(ds, disk, d);
      WeightWithout(ds, disk', d);
    }
  }
}
