/** The EXTH block of record 0: typed records behind a twelve-byte header. */
module Exth {
  import opened BigEndian
  import opened Common

  datatype Record = Record(typ: nat, data: Bytes)

  datatype ExthError = PastRecord0 | NoMagic | BlockTooShort | OverrunsRecord0 | TooManyRecords
                     | PastBlock | RecordTooShort | OverrunsBlock

  const Magic: Bytes := [0x45, 0x58, 0x54, 0x48]

  /** The records of the block's content, and what is left of it. */
  function Records(b: Bytes, count: nat): Result<(seq<Record>, Bytes), ExthError>
    decreases count
  {
    if count == 0 then Ok(([], b))
    else if |b| < 8 then Err(PastBlock)
    else
      var n := FromBE32(b[4..8]);
      if n < 8 then Err(RecordTooShort)
      else if n > |b| then Err(OverrunsBlock)
      else
        match Records(b[n..], count - 1)
        case Err(e) => Err(e)
        case Ok(more) => Ok(([Record(FromBE32(b[..4]), b[8..n])] + more.0, more.1))
  }

  function Append(m: map<nat, seq<Bytes>>, r: Record): map<nat, seq<Bytes>> {
    m[r.typ := (if r.typ in m then m[r.typ] else []) + [r.data]]
  }

  /** The records by type, in order. */
  function Group(rs: seq<Record>): map<nat, seq<Bytes>> {
    if rs == [] then map[] else Append(Group(rs[..|rs| - 1]), rs[|rs| - 1])
  }

  function Parse(rec0: Bytes, start: int): Result<map<nat, seq<Bytes>>, ExthError> {
    if start == 0 then Ok(map[])
    else if start < 0 || start + 12 > |rec0| then Err(PastRecord0)
    else if rec0[start..start + 4] != Magic then Err(NoMagic)
    else
      var blockLen, count := FromBE32(rec0[start + 4..start + 8]), FromBE32(rec0[start + 8..start + 12]);
      if blockLen < 12 then Err(BlockTooShort)
      else if start + blockLen > |rec0| then Err(OverrunsRecord0)
      else if count > (blockLen - 12) / 8 then Err(TooManyRecords)
      else
        match Records(rec0[start + 12..start + blockLen], count)
        case Err(e) => Err(e)
        case Ok(r) => Ok(Group(r.0))
  }

  function Prepend(rs: seq<Record>, r: Result<(seq<Record>, Bytes), ExthError>): Result<(seq<Record>, Bytes), ExthError> {
    match r
    case Err(e) => Err(e)
    case Ok(more) => Ok((rs + more.0, more.1))
  }

  method ParseEXTH(rec0: Bytes, start: int) returns (r: Result<map<nat, seq<Bytes>>, ExthError>)
    ensures r == Parse(rec0, start)
  {
    hide FromBE32;
    if start == 0 {
      return Ok(map[]);
    }
    if start < 0 || start + 12 > |rec0| {
      return Err(PastRecord0);
    }
    if rec0[start..start + 4] != Magic {
      return Err(NoMagic);
    }
    var blockLen := FromBE32(rec0[start + 4..start + 8]);
    if blockLen < 12 {
      return Err(BlockTooShort);
    }
    if start + blockLen > |rec0| {
      return Err(OverrunsRecord0);
    }
    var count := FromBE32(rec0[start + 8..start + 12]);
    if count > (blockLen - 12) / 8 {
      return Err(TooManyRecords);
    }
    r := WalkRecords(rec0, start + 12, start + blockLen, count);
  }

  method WalkRecords(rec0: Bytes, first: nat, end: nat, count: nat) returns (r: Result<map<nat, seq<Bytes>>, ExthError>)
    requires first <= end <= |rec0|
    ensures r == match Records(rec0[first..end], count) case Err(e) => Err(e) case Ok(x) => Ok(Group(x.0))
  {
    hide FromBE32, Append, Group, Records, Prepend;
    var out: map<nat, seq<Bytes>> := map[];
    var pos, i := first, 0;
    ghost var seen: seq<Record> := [];
    PrependNothing(Records(rec0[first..end], count));
    GroupNothing();
    while i < count
      invariant 0 <= i <= count && first <= pos <= end
      invariant out == Group(seen)
      invariant Records(rec0[first..end], count) == Prepend(seen, Records(rec0[pos..end], count - i))
    {
      ghost var b := rec0[pos..end];
      if pos + 8 > end {
        RecordsFail(b, count - i);
        PrependFails(seen, PastBlock);
        return Err(PastBlock);
      }
      SliceOfSlice(rec0, pos, end, 0, 4);
      SliceOfSlice(rec0, pos, end, 4, 8);
      var typ := FromBE32(rec0[pos..pos + 4]);
      var recLen := FromBE32(rec0[pos + 4..pos + 8]);
      if recLen < 8 {
        RecordsFail(b, count - i);
        PrependFails(seen, RecordTooShort);
        return Err(RecordTooShort);
      }
      if pos + recLen > end {
        RecordsFail(b, count - i);
        PrependFails(seen, OverrunsBlock);
        return Err(OverrunsBlock);
      }
      var data := rec0[pos + 8..pos + recLen];
      SliceOfSlice(rec0, pos, end, 8, recLen);
      SliceOfSlice(rec0, pos, end, recLen, end - pos);
      out := Append(out, Record(typ, data));
      RecordsStep(b, count - i, recLen);
      PrependMore(seen, Record(typ, data), Records(rec0[pos + recLen..end], count - i - 1));
      GroupMore(seen, Record(typ, data));
      seen := seen + [Record(typ, data)];
      pos := pos + recLen;
      i := i + 1;
    }
    RecordsNone(rec0[pos..end]);
    PrependDone(seen, rec0[pos..end]);
    return Ok(out);
  }

  lemma GroupNothing()
    ensures Group([]) == map[]
  {
  }

  lemma RecordsNone(b: Bytes)
    ensures Records(b, 0) == Ok(([], b))
  {
  }

  lemma RecordsFail(b: Bytes, count: nat)
    requires count > 0
    ensures |b| < 8 ==> Records(b, count) == Err(PastBlock)
    ensures |b| >= 8 && FromBE32(b[4..8]) < 8 ==> Records(b, count) == Err(RecordTooShort)
    ensures |b| >= 8 && FromBE32(b[4..8]) >= 8 && FromBE32(b[4..8]) > |b| ==> Records(b, count) == Err(OverrunsBlock)
  {
    hide FromBE32;
  }

  lemma PrependFails(seen: seq<Record>, e: ExthError)
    ensures Prepend(seen, Err(e)) == Err(e)
  {
  }

  lemma PrependDone(seen: seq<Record>, b: Bytes)
    ensures Prepend(seen, Ok(([], b))) == Ok((seen, b))
  {
    assert seen + [] == seen;
  }

  lemma PrependNothing(r: Result<(seq<Record>, Bytes), ExthError>)
    ensures Prepend([], r) == r
  {
    if r.Ok? {
      assert [] + r.value.0 == r.value.0;
    }
  }

  lemma RecordsStep(b: Bytes, count: nat, n: nat)
    requires count > 0 && 8 <= n <= |b| && FromBE32(b[4..8]) == n
    ensures Records(b, count) == Prepend([Record(FromBE32(b[..4]), b[8..n])], Records(b[n..], count - 1))
  {
    hide FromBE32;
  }

  lemma PrependMore(seen: seq<Record>, x: Record, r: Result<(seq<Record>, Bytes), ExthError>)
    ensures Prepend(seen, Prepend([x], r)) == Prepend(seen + [x], r)
  {
    if r.Ok? {
      assert seen + ([x] + r.value.0) == seen + [x] + r.value.0;
    }
  }

  lemma GroupMore(seen: seq<Record>, x: Record)
    ensures Group(seen + [x]) == Append(Group(seen), x)
  {
    assert (seen + [x])[..|seen|] == seen;
  }

  // ------------------------------------------------------------------
  // What parses is exactly what the layout writes
  // ------------------------------------------------------------------

  predicate Fits(r: Record) {
    r.typ < 0x1_0000_0000 && 8 + |r.data| < 0x1_0000_0000
  }

  ghost predicate AllFit(rs: seq<Record>) {
    forall i :: 0 <= i < |rs| ==> Fits(rs[i])
  }

  function RecordBytes(r: Record): Bytes {
    BE32(r.typ) + BE32(8 + |r.data|) + r.data
  }

  function Serial(rs: seq<Record>): Bytes {
    if rs == [] then [] else RecordBytes(rs[0]) + Serial(rs[1..])
  }

  function Block(rs: seq<Record>, padding: Bytes): Bytes {
    Magic + BE32(12 + |Serial(rs)| + |padding|) + BE32(|rs|) + (Serial(rs) + padding)
  }

  lemma RecordLayout(r: Record, rest: Bytes)
    ensures var b := RecordBytes(r) + rest;
      && |b| == 8 + |r.data| + |rest| && b[..4] == BE32(r.typ) && b[4..8] == BE32(8 + |r.data|)
      && b[8..8 + |r.data|] == r.data && b[8 + |r.data|..] == rest
  {
    hide BE32;
    assert RecordBytes(r) + rest == BE32(r.typ) + (BE32(8 + |r.data|) + (r.data + rest));
  }

  lemma RecordReads(r: Record, more: Bytes, count: nat)
    requires Fits(r) && count > 0
    ensures Records(RecordBytes(r) + more, count) == Prepend([r], Records(more, count - 1))
  {
    hide BE32, FromBE32, RecordBytes, Records, Prepend;
    RecordLayout(r, more);
    BE32RoundTrip(r.typ);
    BE32RoundTrip(8 + |r.data|);
    RecordsStep(RecordBytes(r) + more, count, 8 + |r.data|);
  }

  lemma {:induction false} SerialReads(rs: seq<Record>, rest: Bytes)
    requires AllFit(rs)
    ensures Records(Serial(rs) + rest, |rs|) == Ok((rs, rest))
  {
    hide RecordBytes, Records, Fits;
    if rs == [] {
      assert Serial(rs) + rest == rest;
      RecordsNone(rest);
    } else {
      var more := Serial(rs[1..]) + rest;
      SerialReads(rs[1..], rest);
      assert Fits(rs[0]);
      RecordReads(rs[0], more, |rs|);
      assert Serial(rs) + rest == RecordBytes(rs[0]) + more;
      assert rs == [rs[0]] + rs[1..];
    }
  }

  lemma RecordWrites(b: Bytes, n: nat)
    requires 8 <= n <= |b| && FromBE32(b[4..8]) == n
    ensures var r := Record(FromBE32(b[..4]), b[8..n]);
      Fits(r) && RecordBytes(r) + b[n..] == b
  {
    hide BE32, FromBE32;
    FromBE32RoundTrip(b[..4]);
    FromBE32RoundTrip(b[4..8]);
    assert b[..4] + b[4..8] + b[8..n] + b[n..] == b;
  }

  /** The accepted records tile the content from its start. */
  lemma {:induction false} ReadsSerial(b: Bytes, count: nat)
    requires Records(b, count).Ok?
    ensures var r := Records(b, count).value; |r.0| == count && AllFit(r.0) && Serial(r.0) + r.1 == b
    decreases count
  {
    hide BE32, FromBE32, RecordBytes, Fits;
    if count > 0 {
      var n := FromBE32(b[4..8]);
      ReadsSerial(b[n..], count - 1);
      RecordWrites(b, n);
      var r, all := Record(FromBE32(b[..4]), b[8..n]), Records(b, count).value.0;
      assert all[1..] == Records(b[n..], count - 1).value.0;
      assert Serial(all) + Records(b, count).value.1 == RecordBytes(r) + b[n..];
    }
  }

  /** Record 0 holds a block of these records at `start`. */
  ghost predicate Holds(rec0: Bytes, start: nat, rs: seq<Record>, padding: Bytes) {
    && AllFit(rs) && |Block(rs, padding)| < 0x1_0000_0000 && |rs| < 0x1_0000_0000
    && start + |Block(rs, padding)| <= |rec0|
    && rec0[start..start + |Block(rs, padding)|] == Block(rs, padding)
  }

  lemma {:induction false} SerialLength(rs: seq<Record>)
    ensures |Serial(rs)| >= 8 * |rs|
  {
    hide BE32;
    if rs != [] {
      SerialLength(rs[1..]);
    }
  }

  lemma BlockLayout(rec0: Bytes, start: nat, rs: seq<Record>, padding: Bytes)
    requires Holds(rec0, start, rs, padding)
    ensures start + 12 + |Serial(rs)| + |padding| <= |rec0|
    ensures rec0[start..start + 4] == Magic
    ensures rec0[start + 4..start + 8] == BE32(12 + |Serial(rs)| + |padding|)
    ensures rec0[start + 8..start + 12] == BE32(|rs|)
    ensures rec0[start + 12..start + (12 + |Serial(rs)| + |padding|)] == Serial(rs) + padding
  {
    hide BE32, Serial, AllFit;
    var b := Block(rs, padding);
    assert |b| == 12 + |Serial(rs)| + |padding|;
    SliceOfSlice(rec0, start, start + |b|, 0, 4);
    SliceOfSlice(rec0, start, start + |b|, 4, 8);
    SliceOfSlice(rec0, start, start + |b|, 8, 12);
    SliceOfSlice(rec0, start, start + |b|, 12, |b|);
    assert b[..4] == Magic && b[4..8] == BE32(12 + |Serial(rs)| + |padding|);
    assert b[8..12] == BE32(|rs|) && b[12..|b|] == Serial(rs) + padding;
  }

  /** A written block parses back to its records, grouped by type in order. */
  lemma BlockReads(rec0: Bytes, start: nat, rs: seq<Record>, padding: Bytes)
    requires start > 0 && Holds(rec0, start, rs, padding)
    ensures Parse(rec0, start) == Ok(Group(rs))
  {
    hide BE32, FromBE32, Serial, AllFit, Group, Records, Holds;
    BlockLayout(rec0, start, rs, padding);
    assert AllFit(rs) && 12 + |Serial(rs)| + |padding| < 0x1_0000_0000 && |rs| < 0x1_0000_0000 by {
      HoldsFits(rec0, start, rs, padding);
    }
    BE32RoundTrip(12 + |Serial(rs)| + |padding|);
    BE32RoundTrip(|rs|);
    SerialLength(rs);
    SerialReads(rs, padding);
  }

  lemma HoldsFits(rec0: Bytes, start: nat, rs: seq<Record>, padding: Bytes)
    requires Holds(rec0, start, rs, padding)
    ensures AllFit(rs) && 12 + |Serial(rs)| + |padding| < 0x1_0000_0000 && |rs| < 0x1_0000_0000
  {
    hide BE32, Serial, AllFit;
  }

  /** And nothing else parses: whatever is accepted is a written block that
      lies inside record 0. */
  lemma ReadsBlock(rec0: Bytes, start: nat) returns (rs: seq<Record>, padding: Bytes)
    requires start > 0 && Parse(rec0, start).Ok?
    ensures Holds(rec0, start, rs, padding) && Parse(rec0, start) == Ok(Group(rs))
  {
    hide BE32, FromBE32, Serial, AllFit, Group, Records;
    var blockLen, count := FromBE32(rec0[start + 4..start + 8]), FromBE32(rec0[start + 8..start + 12]);
    var content := rec0[start + 12..start + blockLen];
    ReadsSerial(content, count);
    rs, padding := Records(content, count).value.0, Records(content, count).value.1;
    FromBE32RoundTrip(rec0[start + 4..start + 8]);
    FromBE32RoundTrip(rec0[start + 8..start + 12]);
    assert rec0[start..start + blockLen] ==
      rec0[start..start + 4] + rec0[start + 4..start + 8] + rec0[start + 8..start + 12] + content;
  }

  /** The records of one type, in file order. */
  function OfType(rs: seq<Record>, typ: nat): seq<Bytes> {
    if rs == [] then []
    else (if rs[0].typ == typ then [rs[0].data] else []) + OfType(rs[1..], typ)
  }

  lemma {:induction false} OfTypeMore(rs: seq<Record>, x: Record, typ: nat)
    ensures OfType(rs + [x], typ) == OfType(rs, typ) + (if x.typ == typ then [x.data] else [])
  {
    if rs == [] {
      assert ([] + [x])[1..] == [];
    } else {
      OfTypeMore(rs[1..], x, typ);
      assert (rs + [x])[1..] == rs[1..] + [x];
    }
  }

  /** What a type maps to, nothing being the same as no record. */
  function Lookup(m: map<nat, seq<Bytes>>, typ: nat): seq<Bytes> {
    if typ in m then m[typ] else []
  }

  /** Grouping keeps, for each type, its records in file order. */
  lemma {:induction false} GroupKeepsOrder(rs: seq<Record>, typ: nat)
    ensures Lookup(Group(rs), typ) == OfType(rs, typ)
    ensures typ in Group(rs) <==> OfType(rs, typ) != []
  {
    hide OfType;
    if rs != [] {
      var n := |rs| - 1;
      GroupKeepsOrder(rs[..n], typ);
      OfTypeMore(rs[..n], rs[n], typ);
      assert rs[..n] + [rs[n]] == rs;
    } else {
      NoneOfType(typ);
    }
  }

  lemma NoneOfType(typ: nat)
    ensures OfType([], typ) == []
  {
  }
}
