/** The PalmDB container of MOBI and AZW3 files, the MOBI header in record 0,
    and the record that is the cover. */
module PalmDb {
  import opened BigEndian
  import opened Common
  import Exth
  import ImageSniff

  const BookMobi: Bytes := [0x42, 0x4F, 0x4F, 0x4B, 0x4D, 0x4F, 0x42, 0x49]

  datatype PalmError = TooShort | NotABook | NoRecords | IndexTooLong | PastEnd(i: nat) | NotAscending(i: nat)

  function Count(b: Bytes): nat
    requires |b| >= 78
  {
    b[76] as int * 0x100 + b[77] as int
  }

  function IndexEnd(b: Bytes): nat
    requires |b| >= 78
  {
    78 + Count(b) * 8
  }

  /** Where entry `i` says its record starts. */
  function Offset(b: Bytes, i: nat): nat
    requires 82 + 8 * i <= |b|
  {
    FromBE32(b[78 + 8 * i..82 + 8 * i])
  }

  /** The first bad entry from `i` on. */
  function BadEntry(b: Bytes, i: nat, prev: nat): Option<PalmError>
    requires |b| >= 78 && IndexEnd(b) <= |b| && i <= Count(b)
    decreases Count(b) - i
  {
    if i == Count(b) then None
    else if Offset(b, i) > |b| then Some(PastEnd(i))
    else if Offset(b, i) < prev then Some(NotAscending(i))
    else BadEntry(b, i + 1, Offset(b, i))
  }

  function Offsets(b: Bytes): (os: seq<nat>)
    requires |b| >= 78 && IndexEnd(b) <= |b|
    ensures |os| == Count(b) + 1 && os[Count(b)] == |b| && forall i :: 0 <= i < Count(b) ==> os[i] == Offset(b, i)
  {
    seq(Count(b), i requires 0 <= i < Count(b) => Offset(b, i)) + [|b|]
  }

  function Index(b: Bytes): Result<seq<nat>, PalmError> {
    if |b| < 78 then Err(TooShort)
    else if b[60..68] != BookMobi then Err(NotABook)
    else if Count(b) == 0 then Err(NoRecords)
    else if IndexEnd(b) > |b| then Err(IndexTooLong)
    else
      match BadEntry(b, 0, IndexEnd(b))
      case Some(e) => Err(e)
      case None => Ok(Offsets(b))
  }

  method ReadPalmDB(b: Bytes) returns (r: Result<seq<nat>, PalmError>)
    ensures r == Index(b)
  {
    hide FromBE32;
    if |b| < 78 {
      return Err(TooShort);
    }
    if b[60..68] != BookMobi {
      return Err(NotABook);
    }
    var count := Count(b);
    if count == 0 {
      return Err(NoRecords);
    }
    if IndexEnd(b) > |b| {
      return Err(IndexTooLong);
    }
    var offsets: seq<nat> := [];
    var prev: nat := IndexEnd(b);
    var i := 0;
    while i < count
      invariant 0 <= i <= count && |offsets| == i
      invariant forall j :: 0 <= j < i ==> offsets[j] == Offset(b, j)
      invariant BadEntry(b, 0, IndexEnd(b)) == BadEntry(b, i, prev)
    {
      var off := Offset(b, i);
      if off > |b| {
        return Err(PastEnd(i));
      }
      if off < prev {
        return Err(NotAscending(i));
      }
      offsets := offsets + [off];
      prev := off;
      i := i + 1;
    }
    assert offsets + [|b|] == Offsets(b);
    return Ok(offsets + [|b|]);
  }

  // ------------------------------------------------------------------
  // Accepted records tile the file
  // ------------------------------------------------------------------

  ghost predicate Ascending(os: seq<nat>) {
    forall i, j :: 0 <= i <= j < |os| ==> os[i] <= os[j]
  }

  lemma {:induction false} EntriesAscend(b: Bytes, i: nat, prev: nat, j: nat)
    requires |b| >= 78 && IndexEnd(b) <= |b| && i <= j <= Count(b) && prev <= |b|
    requires BadEntry(b, i, prev) == None
    ensures prev <= Offsets(b)[j] <= |b|
    ensures forall k :: j <= k <= Count(b) ==> Offsets(b)[j] <= Offsets(b)[k]
    decreases Count(b) - i
  {
    hide FromBE32, Offset;
    if i < j {
      EntriesAscend(b, i + 1, Offset(b, i), j);
    } else if i < Count(b) {
      forall k | j <= k <= Count(b) ensures Offsets(b)[j] <= Offsets(b)[k] {
        if k > j {
          EntriesAscend(b, i + 1, Offset(b, i), k);
        }
      }
    }
  }

  function Concat(rs: seq<Bytes>): Bytes {
    if rs == [] then [] else Concat(rs[..|rs| - 1]) + rs[|rs| - 1]
  }

  /** The records between the offsets. */
  function Slices(b: Bytes, os: seq<nat>): (rs: seq<Bytes>)
    requires |os| > 0 && Ascending(os) && os[|os| - 1] <= |b|
    ensures |rs| == |os| - 1 && forall i :: 0 <= i < |rs| ==> rs[i] == b[os[i]..os[i + 1]]
  {
    seq(|os| - 1, i requires 0 <= i < |os| - 1 => assert os[i + 1] <= os[|os| - 1]; b[os[i]..os[i + 1]])
  }

  lemma {:induction false} SlicesConcat(b: Bytes, os: seq<nat>)
    requires |os| > 0 && Ascending(os) && os[|os| - 1] <= |b|
    ensures os[0] <= os[|os| - 1] && Concat(Slices(b, os)) == b[os[0]..os[|os| - 1]]
    decreases |os|
  {
    if |os| > 1 {
      var n := |os| - 1;
      assert os[n - 1] <= os[n];
      SlicesConcat(b, os[..n]);
      assert Slices(b, os)[..n - 1] == Slices(b, os[..n]);
    }
  }

  /** The records of an accepted index lie one after another behind it and join
      to the rest of the file, so no two of them share a byte. */
  lemma RecordsTile(b: Bytes)
    requires Index(b).Ok?
    ensures var os := Index(b).value;
      && |os| == Count(b) + 1 && Ascending(os) && os[0] >= IndexEnd(b) && os[Count(b)] == |b|
      && Concat(Slices(b, os)) == b[os[0]..]
  {
    hide FromBE32, Offset, BadEntry;
    forall j | 0 <= j <= Count(b) ensures forall k :: j <= k <= Count(b) ==> Offsets(b)[j] <= Offsets(b)[k] {
      EntriesAscend(b, 0, IndexEnd(b), j);
    }
    EntriesAscend(b, 0, IndexEnd(b), 0);
    SlicesConcat(b, Offsets(b));
  }

  datatype RecordError = OutOfRange | Empty | OverCap

  function RecordAt(b: Bytes, os: seq<nat>, i: int, max: nat): (r: Result<Bytes, RecordError>)
    requires |os| > 0 && Ascending(os) && os[|os| - 1] <= |b|
    ensures r.Ok? ==> 0 <= i < |os| - 1 && r.value == Slices(b, os)[i] && 0 < |r.value| <= max
    ensures r == Err(OutOfRange) <==> !(0 <= i < |os| - 1)
    ensures r == Err(Empty) <==> 0 <= i < |os| - 1 && Slices(b, os)[i] == []
    ensures r == Err(OverCap) <==> 0 <= i < |os| - 1 && |Slices(b, os)[i]| > max
  {
    if i < 0 || i >= |os| - 1 then Err(OutOfRange)
    else if os[i + 1] - os[i] <= 0 then Err(Empty)
    else if os[i + 1] - os[i] > max then Err(OverCap)
    else assert os[i + 1] <= os[|os| - 1]; Ok(b[os[i]..os[i + 1]])
  }

  // ------------------------------------------------------------------
  // A written database reads back
  // ------------------------------------------------------------------

  /** Where each record starts, given where the first one does. */
  function Starts(first: nat, rs: seq<Bytes>): (os: seq<nat>)
    ensures |os| == |rs| + 1 && os[0] == first
  {
    if rs == [] then [first] else Starts(first, rs[..|rs| - 1]) + [first + |Concat(rs)|]
  }

  function IndexBytes(os: seq<nat>): Bytes {
    if os == [] then [] else IndexBytes(os[..|os| - 1]) + (BE32(os[|os| - 1]) + [0, 0, 0, 0])
  }

  /** A database of these records behind a gap: `head` is the first 76 bytes of
      the header. */
  function Database(head: Bytes, gap: Bytes, rs: seq<Bytes>): Bytes {
    var os := Starts(78 + 8 * |rs| + |gap|, rs);
    head + [(|rs| / 0x100 % 0x100) as Byte, (|rs| % 0x100) as Byte] + IndexBytes(os[..|rs|]) + gap + Concat(rs)
  }

  lemma {:induction false} StartsAre(first: nat, rs: seq<Bytes>)
    ensures forall i :: 0 <= i <= |rs| ==> Starts(first, rs)[i] == first + |Concat(rs[..i])|
    ensures Ascending(Starts(first, rs))
  {
    var n := |rs| - 1;
    if rs != [] {
      StartsAre(first, rs[..n]);
      assert rs[..n + 1] == rs;
      forall i | 0 <= i <= n ensures Starts(first, rs)[i] == first + |Concat(rs[..i])| {
        assert rs[..n][..i] == rs[..i];
      }
      assert Starts(first, rs[..n])[n] == first + |Concat(rs[..n])| by { assert rs[..n][..n] == rs[..n]; }
    } else {
      assert rs[..0] == [];
    }
  }

  lemma {:induction false} IndexEntry(os: seq<nat>, i: nat)
    requires i < |os|
    ensures |IndexBytes(os)| == 8 * |os| && IndexBytes(os)[8 * i..8 * i + 4] == BE32(os[i])
  {
    hide BE32;
    var n := |os| - 1;
    IndexLength(os);
    IndexLength(os[..n]);
    if i < n {
      IndexEntry(os[..n], i);
      assert IndexBytes(os)[8 * i..8 * i + 4] == IndexBytes(os[..n])[8 * i..8 * i + 4];
    }
  }

  lemma {:induction false} IndexLength(os: seq<nat>)
    ensures |IndexBytes(os)| == 8 * |os|
  {
    hide BE32;
    if os != [] {
      IndexLength(os[..|os| - 1]);
    }
  }

  /** A database written from records is accepted, and its records come back. */
  lemma DatabaseReads(head: Bytes, gap: Bytes, rs: seq<Bytes>)
    requires |head| == 76 && head[60..68] == BookMobi && 0 < |rs| < 0x1_0000
    requires |Database(head, gap, rs)| < 0x1_0000_0000
    ensures var d, os := Database(head, gap, rs), Starts(78 + 8 * |rs| + |gap|, rs);
      Index(d) == Ok(os) && Ascending(os) && os[|rs|] == |d| && Slices(d, os) == rs
  {
    hide BE32, FromBE32, IndexBytes, Concat, Starts, Index, Database, Slices, Ascending;
    var d, first := Database(head, gap, rs), 78 + 8 * |rs| + |gap|;
    var os := Starts(first, rs);
    DatabaseLayout(head, gap, rs);
    StartsAre(first, rs);
    assert rs[..|rs|] == rs && os[|rs|] == |d|;
    forall i | 0 <= i < |rs| ensures Offset(d, i) == os[i] {
      DatabaseOffset(head, gap, rs, i);
    }
    NoBadEntry(d, 0, 78 + 8 * |rs|, os);
    IndexOf(d, os);
    forall i | 0 <= i < |rs| ensures Slices(d, os)[i] == rs[i] {
      ConcatSlice(rs, i);
      SliceOfSlice(d, first, |d|, |Concat(rs[..i])|, |Concat(rs[..i + 1])|);
    }
  }

  lemma IndexOf(d: Bytes, os: seq<nat>)
    requires |d| >= 78 && d[60..68] == BookMobi && Count(d) > 0 && IndexEnd(d) <= |d|
    requires |os| == Count(d) + 1 && os[Count(d)] == |d| && forall i :: 0 <= i < Count(d) ==> Offset(d, i) == os[i]
    requires BadEntry(d, 0, IndexEnd(d)) == None
    ensures Index(d) == Ok(os)
  {
    hide Offset, Count, BadEntry;
    assert Offsets(d) == os;
  }

  lemma {:induction false} NoBadEntry(d: Bytes, i: nat, prev: nat, os: seq<nat>)
    requires |d| >= 78 && IndexEnd(d) <= |d| && i <= Count(d) && |os| == Count(d) + 1
    requires Ascending(os) && os[Count(d)] == |d| && prev <= os[i]
    requires forall j :: 0 <= j < Count(d) ==> Offset(d, j) == os[j]
    ensures BadEntry(d, i, prev) == None
    decreases Count(d) - i
  {
    hide Offset, Count;
    if i < Count(d) {
      assert os[i] <= os[Count(d)] && os[i] <= os[i + 1];
      NoBadEntry(d, i + 1, os[i], os);
    }
  }

  lemma DatabaseLayout(head: Bytes, gap: Bytes, rs: seq<Bytes>)
    requires |head| == 76 && head[60..68] == BookMobi && 0 < |rs| < 0x1_0000
    ensures var d, os, n := Database(head, gap, rs), Starts(78 + 8 * |rs| + |gap|, rs), |rs|;
      && |d| == 78 + 8 * n + |gap| + |Concat(rs)| && d[60..68] == BookMobi && Count(d) == n
      && d[78..78 + 8 * n] == IndexBytes(os[..n]) && d[78 + 8 * n + |gap|..|d|] == Concat(rs)
  {
    hide BE32, IndexBytes, Concat, Starts;
    var n := |rs|;
    var os := Starts(78 + 8 * n + |gap|, rs);
    var count: Bytes := [(n / 0x100 % 0x100) as Byte, (n % 0x100) as Byte];
    IndexLength(os[..n]);
    var d := Database(head, gap, rs);
    assert d == head + count + IndexBytes(os[..n]) + gap + Concat(rs);
    assert d[60..68] == head[60..68];
    assert d[76] == count[0] && d[77] == count[1];
    assert n == n / 0x100 * 0x100 + n % 0x100 && n / 0x100 < 0x100;
  }

  lemma DatabaseOffset(head: Bytes, gap: Bytes, rs: seq<Bytes>, i: nat)
    requires |head| == 76 && head[60..68] == BookMobi && i < |rs| < 0x1_0000
    requires |Database(head, gap, rs)| < 0x1_0000_0000
    ensures 82 + 8 * i <= |Database(head, gap, rs)|
    ensures Offset(Database(head, gap, rs), i) == Starts(78 + 8 * |rs| + |gap|, rs)[i]
  {
    hide BE32, FromBE32, IndexBytes, Concat, Starts, Database, Ascending;
    var d, first, n := Database(head, gap, rs), 78 + 8 * |rs| + |gap|, |rs|;
    var os := Starts(first, rs);
    DatabaseLayout(head, gap, rs);
    IndexEntry(os[..n], i);
    SliceOfSlice(d, 78, 78 + 8 * n, 8 * i, 8 * i + 4);
    StartsAre(first, rs);
    StartsBelow(first, rs, i);
    BE32RoundTrip(os[i]);
  }

  lemma StartsBelow(first: nat, rs: seq<Bytes>, i: nat)
    requires i < |rs|
    ensures Starts(first, rs)[i] <= first + |Concat(rs)|
  {
    hide Concat;
    StartsAre(first, rs);
    assert rs[..|rs|] == rs;
    assert Starts(first, rs)[i] <= Starts(first, rs)[|rs|];
  }

  lemma {:induction false} ConcatSlice(rs: seq<Bytes>, i: nat)
    requires i < |rs|
    ensures |Concat(rs[..i])| <= |Concat(rs[..i + 1])| <= |Concat(rs)|
    ensures Concat(rs)[|Concat(rs[..i])|..|Concat(rs[..i + 1])|] == rs[i]
  {
    var n := |rs| - 1;
    if i < n {
      ConcatSlice(rs[..n], i);
      assert rs[..n][..i] == rs[..i] && rs[..n][..i + 1] == rs[..i + 1];
    } else {
      assert rs[..n + 1] == rs;
    }
  }

  // ------------------------------------------------------------------
  // Record 0
  // ------------------------------------------------------------------

  const MobiMagic: Bytes := [0x4D, 0x4F, 0x42, 0x49]

  datatype HeaderError = Record0TooShort | NoMobiMagic | LengthTooSmall | LengthTooBig

  datatype Header = Header(rec0: Bytes, hlen: nat)

  /** A field of the header, if the header's declared length reaches it. */
  function Field(h: Header, rel: nat): Option<nat> {
    if rel + 4 > h.hlen || 16 + rel + 4 > |h.rec0| then None else Some(FromBE32(h.rec0[16 + rel..20 + rel]))
  }

  function ParseHeader(rec0: Bytes): Result<Header, HeaderError> {
    if |rec0| < 40 then Err(Record0TooShort)
    else if rec0[16..20] != MobiMagic then Err(NoMobiMagic)
    else
      var hlen := FromBE32(rec0[20..24]);
      if hlen < 24 then Err(LengthTooSmall)
      else if hlen > |rec0| - 16 then Err(LengthTooBig)
      else Ok(Header(rec0, hlen))
  }

  /** Where the EXTH block begins, or 0 when the flag 0x40 is clear. */
  function ExthStart(h: Header): nat {
    match Field(h, 112)
    case None => 0
    case Some(flags) => if flags / 0x40 % 2 == 1 then 16 + h.hlen else 0
  }

  /** Record 0 written as PalmDOC header, MOBI header and EXTH block: the block
      behind the header is found and read back exactly when the header reaches
      to the flags and sets the bit; otherwise the book has no such records. */
  lemma Record0Reads(doc: Bytes, mobi: Bytes, rs: seq<Exth.Record>, padding: Bytes, rest: Bytes)
    requires |doc| == 16 && 24 <= |mobi| < 0x1_0000_0000 && mobi[..4] == MobiMagic && mobi[4..8] == BE32(|mobi|)
    requires Exth.AllFit(rs) && |Exth.Block(rs, padding)| < 0x1_0000_0000 && |rs| < 0x1_0000_0000
    ensures var rec0 := doc + mobi + Exth.Block(rs, padding) + rest;
      && ParseHeader(rec0) == Ok(Header(rec0, |mobi|))
      && var start := ExthStart(Header(rec0, |mobi|));
         (start != 0 <==> |mobi| >= 116 && FromBE32(mobi[112..116]) / 0x40 % 2 == 1)
         && Exth.Parse(rec0, start) == Ok(if start != 0 then Exth.Group(rs) else map[])
  {
    hide BE32, FromBE32, Exth.Block, Exth.Parse, Exth.Group, Exth.AllFit;
    var block := Exth.Block(rs, padding);
    var rec0 := doc + mobi + block + rest;
    assert rec0[16..16 + |mobi|] == mobi;
    SliceOfSlice(rec0, 16, 16 + |mobi|, 0, 4);
    SliceOfSlice(rec0, 16, 16 + |mobi|, 4, 8);
    BE32RoundTrip(|mobi|);
    if |mobi| >= 116 {
      SliceOfSlice(rec0, 16, 16 + |mobi|, 112, 116);
    }
    if ExthStart(Header(rec0, |mobi|)) != 0 {
      assert rec0[16 + |mobi|..16 + |mobi| + |block|] == block;
      Exth.BlockReads(rec0, 16 + |mobi|, rs, padding);
    } else {
      NoBlock(rec0);
    }
  }

  /** The signatures are the format's. */
  lemma Signatures()
    ensures BookMobi == Ascii("BOOKMOBI") && MobiMagic == Ascii("MOBI") && Exth.Magic == Ascii("EXTH")
  {
  }

  lemma NoBlock(rec0: Bytes)
    ensures Exth.Parse(rec0, 0) == Ok(map[])
  {
  }

  // ------------------------------------------------------------------
  // The cover
  // ------------------------------------------------------------------

  const NoIndex: nat := 0xFFFF_FFFF
  const MaxCoverBytes: nat := 8 * 1024 * 1024

  /** The first record of a type as a number. */
  function FirstU32(m: map<nat, seq<Bytes>>, typ: nat): Option<nat> {
    var v := Exth.Lookup(m, typ);
    if v == [] || |v[0]| < 4 then None else Some(FromBE32(v[0][..4]))
  }

  ghost predicate Indexed(b: Bytes, os: seq<nat>) {
    |os| > 0 && Ascending(os) && os[|os| - 1] <= |b|
  }

  method MobiCover(b: Bytes, os: seq<nat>, h: Header, m: map<nat, seq<Bytes>>) returns (r: Option<(Bytes, string)>)
    requires Indexed(b, os)
    ensures r == CoverOf(b, os, h, m)
  {
    hide FromBE32, RecordAt, ImageSniff.SniffImageMime, Ascending, FirstU32, Field, Slices;
    var first := Field(h, 92);
    if first == None || first.value == 0 || first.value == NoIndex {
      return None;
    }
    var types := [201, 202];
    for k := 0 to 2
      invariant forall j :: 0 <= j < k ==> Candidate(b, os, first.value, m, types[j]) == None
    {
      var off := FirstU32(m, types[k]);
      if off == None || off.value == NoIndex {
        continue;
      }
      var idx := first.value + off.value;
      if idx <= 0 || idx >= |os| - 1 {
        continue;
      }
      var record := RecordAt(b, os, idx, MaxCoverBytes);
      if record.Err? {
        continue;
      }
      var mime := ImageSniff.SniffImageMime(record.value);
      if mime != "" {
        assert Candidate(b, os, first.value, m, types[k]) == Some((record.value, mime));
        assert k == 1 ==> Candidate(b, os, first.value, m, types[0]) == None;
        return Some((record.value, mime));
      }
    }
    assert Candidate(b, os, first.value, m, types[0]) == None && Candidate(b, os, first.value, m, types[1]) == None;
    return None;
  }

  /** The image an index names, if it names one. */
  function Candidate(b: Bytes, os: seq<nat>, first: nat, m: map<nat, seq<Bytes>>, typ: nat): Option<(Bytes, string)>
    requires Indexed(b, os)
  {
    match FirstU32(m, typ)
    case None => None
    case Some(off) =>
      if off == NoIndex then None
      else
        match RecordAt(b, os, first + off, MaxCoverBytes)
        case Err(_) => None
        case Ok(record) =>
          var mime := ImageSniff.SniffImageMime(record);
          if first + off == 0 || mime == "" then None else Some((record, mime))
  }

  function CoverOf(b: Bytes, os: seq<nat>, h: Header, m: map<nat, seq<Bytes>>): Option<(Bytes, string)>
    requires Indexed(b, os)
  {
    match Field(h, 92)
    case None => None
    case Some(first) =>
      if first == 0 || first == NoIndex then None
      else if Candidate(b, os, first, m, 201).Some? then Candidate(b, os, first, m, 201)
      else Candidate(b, os, first, m, 202)
  }

  /** The cover is the very record the two numbers name, an image by its own
      bytes. */
  ghost predicate Names(b: Bytes, os: seq<nat>, first: nat, off: nat, cover: (Bytes, string))
    requires Indexed(b, os)
  {
    && 0 < first + off < |os| - 1 && cover.0 == Slices(b, os)[first + off] && 0 < |cover.0| <= MaxCoverBytes
    && ImageSniff.SniffImageMime(cover.0) == cover.1 != ""
  }

  /** The two numbers are added without wrapping; the thumbnail is looked at
      only when the cover index names no image. */
  lemma CoverIsTheRecordNamed(b: Bytes, os: seq<nat>, h: Header, m: map<nat, seq<Bytes>>)
    requires Indexed(b, os) && CoverOf(b, os, h, m).Some?
    ensures Field(h, 92).Some?
    ensures var first, cover := Field(h, 92).value, CoverOf(b, os, h, m).value;
      || (FirstU32(m, 201).Some? && Names(b, os, first, FirstU32(m, 201).value, cover))
      || (FirstU32(m, 202).Some? && Names(b, os, first, FirstU32(m, 202).value, cover)
          && Candidate(b, os, first, m, 201) == None)
  {
    hide FromBE32, RecordAt, ImageSniff.SniffImageMime, Ascending, FirstU32, Field, Slices;
  }

  /** The first image record and an EXTH number of type `typ` name this cover. */
  ghost predicate NamedBy(b: Bytes, os: seq<nat>, h: Header, m: map<nat, seq<Bytes>>, typ: nat, cover: (Bytes, string))
    requires Indexed(b, os)
  {
    && Field(h, 92).Some? && Field(h, 92).value != 0 && Field(h, 92).value != NoIndex
    && FirstU32(m, typ).Some? && FirstU32(m, typ).value != NoIndex
    && Names(b, os, Field(h, 92).value, FirstU32(m, typ).value, cover)
  }

  lemma CandidateWhen(b: Bytes, os: seq<nat>, h: Header, m: map<nat, seq<Bytes>>, typ: nat, cover: (Bytes, string))
    requires Indexed(b, os) && Field(h, 92).Some? && Field(h, 92).value != 0 && Field(h, 92).value != NoIndex
    ensures Candidate(b, os, Field(h, 92).value, m, typ) == Some(cover) <==> NamedBy(b, os, h, m, typ, cover)
  {
    hide FromBE32, ImageSniff.SniffImageMime, Ascending, FirstU32, Field, Slices, RecordAt;
    if FirstU32(m, typ).Some? {
      var i := Field(h, 92).value + FirstU32(m, typ).value;
      var r := RecordAt(b, os, i, MaxCoverBytes);
      if r.Err? {
        assert r.error == OutOfRange || r.error == Empty || r.error == OverCap;
      }
    }
  }

  /** A cover is found exactly when the cover's number names an image, that one,
      or else the thumbnail's does; an offset of 0 names the first image. */
  lemma CoverWhen(b: Bytes, os: seq<nat>, h: Header, m: map<nat, seq<Bytes>>, cover: (Bytes, string))
    requires Indexed(b, os)
    ensures CoverOf(b, os, h, m) == Some(cover) <==>
      || NamedBy(b, os, h, m, 201, cover)
      || (NamedBy(b, os, h, m, 202, cover) && forall other :: !NamedBy(b, os, h, m, 201, other))
  {
    hide FromBE32, ImageSniff.SniffImageMime, Ascending, FirstU32, Field, Slices, RecordAt, Candidate, Names;
    if Field(h, 92).Some? && Field(h, 92).value != 0 && Field(h, 92).value != NoIndex {
      var first := Candidate(b, os, Field(h, 92).value, m, 201);
      CandidateWhen(b, os, h, m, 201, cover);
      CandidateWhen(b, os, h, m, 202, cover);
      if first.Some? {
        CandidateWhen(b, os, h, m, 201, first.value);
      } else {
        forall other ensures !NamedBy(b, os, h, m, 201, other) {
          CandidateWhen(b, os, h, m, 201, other);
        }
      }
    }
  }
}
