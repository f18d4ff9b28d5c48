/** Joining MPEG Layer III frames into one stream (section 2.4.2.3 of
    ISO/IEC 11172-3). */
module Mp3 {
  import opened Common

  // ------------------------------------------------------------------
  // Frame headers
  // ------------------------------------------------------------------

  datatype Header = Header(size: nat, samples: nat, rate: nat)

  /** kbit/s by the header's four-bit field; 0 for "free" and for the invalid
      last entry. */
  function Bitrate(mpeg1: bool, i: nat): nat
    requires i < 16
  {
    if mpeg1 then [0, 32, 40, 48, 56, 64, 80, 96, 112, 128, 160, 192, 224, 256, 320, 0][i]
    else [0, 8, 16, 24, 32, 40, 48, 56, 64, 80, 96, 112, 128, 144, 160, 0][i]
  }

  /** Hz by version and the header's two-bit field; 0 when there is none. */
  function SampleRate(version: nat, i: nat): nat
    requires i < 4
  {
    if version == 3 then [44100, 48000, 32000, 0][i]
    else if version == 2 then [22050, 24000, 16000, 0][i]
    else if version == 0 then [11025, 12000, 8000, 0][i]
    else 0
  }

  function ParseFrameHeader(b: Bytes): (h: Option<Header>)
    ensures h.Some? ==> h.value.size >= 4 && h.value.rate > 0 && |b| >= 4
  {
    if |b| < 4 || b[0] != 0xFF || b[1] < 0xE0 then None
    else
      var b1, b2 := b[1] as int, b[2] as int;
      var version, layer := b1 / 8 % 4, b1 / 2 % 4;
      if layer != 1 then None
      else
        var mpeg1 := version == 3;
        var bitrate := Bitrate(mpeg1, b2 / 16) * 1000;
        var rate := SampleRate(version, b2 / 4 % 4);
        if bitrate == 0 || rate == 0 then None
        else
          var size := (if mpeg1 then 144 else 72) * bitrate / rate + b2 / 2 % 2;
          if size < 4 then None else Some(Header(size, if mpeg1 then 1152 else 576, rate))
  }

  function FrameMs(h: Header): real
    requires h.rate > 0
  {
    (h.samples * 1000) as real / h.rate as real
  }

  // ------------------------------------------------------------------
  // Tags around the frames
  // ------------------------------------------------------------------

  const Id3: Bytes := [0x49, 0x44, 0x33]
  const Tag: Bytes := [0x54, 0x41, 0x47]

  function Unsyncsafe(b: Bytes): nat
    requires |b| == 4
  {
    (b[0] as int % 128) * 0x20_0000 + (b[1] as int % 128) * 0x4000 + (b[2] as int % 128) * 0x80 + b[3] as int % 128
  }

  function StripID3v2(b: Bytes): Bytes {
    if |b| < 10 || b[..3] != Id3 then b
    else
      var end := 10 + Unsyncsafe(b[6..10]) + if b[5] as int / 16 % 2 == 1 then 10 else 0;
      if end > |b| then b else b[end..]
  }

  predicate HasID3v1(b: Bytes) {
    |b| >= 128 && b[|b| - 128..|b| - 125] == Tag
  }

  function StripID3v1(b: Bytes): Bytes {
    if HasID3v1(b) then b[..|b| - 128] else b
  }

  // ------------------------------------------------------------------
  // The frame walk
  // ------------------------------------------------------------------

  /** The first position from `i` on where a frame starts. */
  function FirstFrame(b: Bytes, i: nat): (k: Option<nat>)
    ensures k.Some? ==> i <= k.value && k.value + 4 <= |b| && ParseFrameHeader(b[k.value..]).Some?
    decreases |b| - i
  {
    if i + 4 > |b| then None
    else if ParseFrameHeader(b[i..]).Some? then Some(i)
    else FirstFrame(b, i + 1)
  }

  /** Where the run of frames from `i` on ends. The last frame may claim more
      bytes than there are. */
  function RunEnd(b: Bytes, i: nat): (e: nat)
    ensures e >= i
    decreases |b| - i
  {
    if i + 4 <= |b| && ParseFrameHeader(b[i..]).Some? then RunEnd(b, i + ParseFrameHeader(b[i..]).value.size) else i
  }

  function RunMs(b: Bytes, i: nat): (ms: real)
    ensures ms >= 0.0
    decreases |b| - i
  {
    if i + 4 <= |b| && ParseFrameHeader(b[i..]).Some? then
      FrameMs(ParseFrameHeader(b[i..]).value) + RunMs(b, i + ParseFrameHeader(b[i..]).value.size)
    else 0.0
  }

  function Stripped(b: Bytes): Bytes {
    StripID3v1(StripID3v2(b))
  }

  /** The frames of one response and how long they play, or none. */
  function PayloadOf(part: Bytes): Option<(Bytes, int)> {
    var b := Stripped(part);
    match FirstFrame(b, 0)
    case None => None
    case Some(start) =>
      var e := RunEnd(b, start);
      Some((if e + 4 <= |b| then b[start..e] else b[start..], RunMs(b, start).Floor))
  }

  method Payload(part: Bytes) returns (r: Option<(Bytes, int)>)
    ensures r == PayloadOf(part)
  {
    hide ParseFrameHeader, FrameMs, StripID3v1, StripID3v2;
    var b := StripID3v2(part);
    b := StripID3v1(b);
    var start: Option<nat> := None;
    var ms := 0.0;
    var i := 0;
    while i + 4 <= |b|
      invariant match start
        case None => FirstFrame(b, 0) == FirstFrame(b, i) && ms == 0.0
        case Some(s) =>
          && FirstFrame(b, 0) == start && s <= i && s < |b|
          && RunEnd(b, s) == RunEnd(b, i) && RunMs(b, s) == ms + RunMs(b, i)
      decreases |b| - i
    {
      var h := ParseFrameHeader(b[i..]);
      if h.None? {
        if start.Some? {
          return Some((b[start.value..i], ms.Floor));
        }
        i := i + 1;
        continue;
      }
      if start.None? {
        start := Some(i);
      }
      ms := ms + FrameMs(h.value);
      i := i + h.value.size;
    }
    if start.None? {
      return None;
    }
    return Some((b[start.value..], ms.Floor));
  }

  /** Writes every part's frames in order and returns each part's duration, or
      the number of the part that has no frames. */
  method Concat(parts: seq<Bytes>) returns (out: Bytes, r: Result<seq<int>, nat>)
    ensures r.Err? <==> exists i :: 0 <= i < |parts| && PayloadOf(parts[i]) == None
    ensures r.Err? ==> r.error < |parts| && PayloadOf(parts[r.error]) == None
    ensures r.Ok? ==> out == Joined(parts) && r.value == Durations(parts)
  {
    hide PayloadOf;
    out := [];
    var durations := [];
    assert parts[..0] == [];
    var i := 0;
    while i < |parts|
      invariant 0 <= i <= |parts|
      invariant forall j :: 0 <= j < i ==> PayloadOf(parts[j]).Some?
      invariant out == Joined(parts[..i]) && durations == Durations(parts[..i])
    {
      var p := Payload(parts[i]);
      if p.None? {
        return out, Err(i);
      }
      assert parts[..i + 1][..i] == parts[..i];
      out := out + p.value.0;
      durations := durations + [p.value.1];
      i := i + 1;
    }
    assert parts[..i] == parts;
    return out, Ok(durations);
  }

  ghost function Joined(parts: seq<Bytes>): Bytes {
    if parts == [] then []
    else
      var last := PayloadOf(parts[|parts| - 1]);
      Joined(parts[..|parts| - 1]) + if last.Some? then last.value.0 else []
  }

  ghost function Durations(parts: seq<Bytes>): (ds: seq<int>)
    ensures |ds| == |parts|
  {
    if parts == [] then []
    else
      var last := PayloadOf(parts[|parts| - 1]);
      Durations(parts[..|parts| - 1]) + [if last.Some? then last.value.1 else 0]
  }

  // ------------------------------------------------------------------
  // Whole frames
  // ------------------------------------------------------------------

  /** The bytes are frames end to end. */
  ghost predicate Whole(b: Bytes) {
    b == [] ||
    (ParseFrameHeader(b).Some? && ParseFrameHeader(b).value.size <= |b| && Whole(b[ParseFrameHeader(b).value.size..]))
  }

  ghost function FrameList(b: Bytes): seq<Bytes>
    requires Whole(b)
  {
    if b == [] then []
    else
      var n := ParseFrameHeader(b).value.size;
      [b[..n]] + FrameList(b[n..])
  }

  /** How long the frames play, exactly. */
  ghost function PlayMs(b: Bytes): real
    requires Whole(b)
  {
    if b == [] then 0.0
    else FrameMs(ParseFrameHeader(b).value) + PlayMs(b[ParseFrameHeader(b).value.size..])
  }

  lemma HeaderIsLocal(a: Bytes, b: Bytes)
    requires |a| >= 4
    ensures ParseFrameHeader(a + b) == ParseFrameHeader(a)
  {
  }

  lemma FrameFits(b: Bytes)
    ensures ParseFrameHeader(b).Some? ==> ParseFrameHeader(b).value.size >= 4 && |b| >= 4
  {
  }

  /** Frames concatenate: the joined bytes are the two frame lists in order. */
  lemma {:induction false} WholeConcat(a: Bytes, b: Bytes)
    requires Whole(a) && Whole(b)
    ensures Whole(a + b)
    ensures FrameList(a + b) == FrameList(a) + FrameList(b)
    ensures PlayMs(a + b) == PlayMs(a) + PlayMs(b)
    decreases |a|
  {
    hide ParseFrameHeader, FrameMs;
    if a == [] {
      assert a + b == b;
    } else {
      var n := ParseFrameHeader(a).value.size;
      FrameFits(a);
      HeaderIsLocal(a, b);
      WholeConcat(a[n..], b);
      assert (a + b)[n..] == a[n..] + b && (a + b)[..n] == a[..n];
    }
  }

  /** On whole frames the walk sees every frame and ends at the end. */
  lemma {:induction false} WalkOfWhole(b: Bytes, i: nat)
    requires i <= |b| && Whole(b[i..])
    ensures RunEnd(b, i) == |b| && RunMs(b, i) == PlayMs(b[i..])
    decreases |b| - i
  {
    hide ParseFrameHeader, FrameMs;
    FrameFits(b[i..]);
    if i < |b| {
      var n := ParseFrameHeader(b[i..]).value.size;
      assert b[i..][n..] == b[i + n..];
      WalkOfWhole(b, i + n);
    }
  }

  /** The walk's run is whole exactly when it ends where the bytes do. */
  lemma {:induction false} RunIsWhole(b: Bytes, i: nat)
    requires i <= |b|
    ensures RunEnd(b, i) <= |b| ==> Whole(b[i..RunEnd(b, i)]) && PlayMs(b[i..RunEnd(b, i)]) == RunMs(b, i)
    decreases |b| - i
  {
    hide ParseFrameHeader, FrameMs;
    if i + 4 <= |b| && ParseFrameHeader(b[i..]).Some? {
      var n := ParseFrameHeader(b[i..]).value.size;
      FrameFits(b[i..]);
      var e := RunEnd(b, i);
      if e <= |b| {
        RunIsWhole(b, i + n);
        var run := b[i..e];
        assert b[i..] == run + b[e..];
        HeaderIsLocal(run, b[e..]);
        assert run[n..] == b[i + n..e];
      }
    }
  }

  /** A payload is whole frames exactly when the walk stopped at something that
      is not a frame with at least four bytes left, or ran out of bytes at the
      end of a frame. Otherwise up to three stray bytes or part of a frame are
      still at its end. */
  lemma PayloadIsWhole(part: Bytes)
    requires PayloadOf(part).Some?
    ensures var b := Stripped(part);
      var e := RunEnd(b, FirstFrame(b, 0).value);
      && (Whole(PayloadOf(part).value.0) <==> e + 4 <= |b| || e == |b|)
      && (Whole(PayloadOf(part).value.0) ==> PayloadOf(part).value.1 == PlayMs(PayloadOf(part).value.0).Floor)
  {
    var b := Stripped(part);
    var start := FirstFrame(b, 0).value;
    var e := RunEnd(b, start);
    hide ParseFrameHeader, FrameMs;
    RunIsWhole(b, start);
    if e == |b| {
      assert b[start..e] == b[start..];
    }
    if Whole(b[start..]) {
      WalkOfWhole(b, start);
    }
  }

  // ------------------------------------------------------------------
  // The joined file
  // ------------------------------------------------------------------

  ghost predicate WholeParts(parts: seq<Bytes>) {
    forall i :: 0 <= i < |parts| ==> PayloadOf(parts[i]).Some? && Whole(PayloadOf(parts[i]).value.0)
  }

  ghost function AllFrames(parts: seq<Bytes>): seq<Bytes>
    requires WholeParts(parts)
  {
    if parts == [] then []
    else AllFrames(parts[..|parts| - 1]) + FrameList(PayloadOf(parts[|parts| - 1]).value.0)
  }

  ghost function Sum(ds: seq<int>): int {
    if ds == [] then 0 else Sum(ds[..|ds| - 1]) + ds[|ds| - 1]
  }

  /** Walking the joined file gives the parts' frames in order. The durations
      returned per part add up to no more than the whole plays, and fall short
      by less than a millisecond a part. */
  lemma {:induction false} JoinedPlaysAll(parts: seq<Bytes>)
    requires WholeParts(parts)
    ensures Whole(Joined(parts)) && FrameList(Joined(parts)) == AllFrames(parts)
    ensures Sum(Durations(parts)) as real <= PlayMs(Joined(parts))
    ensures PlayMs(Joined(parts)) <= (Sum(Durations(parts)) + |parts|) as real
    ensures parts != [] ==> PlayMs(Joined(parts)) < (Sum(Durations(parts)) + |parts|) as real
  {
    if parts != [] {
      var n := |parts| - 1;
      var p := PayloadOf(parts[n]).value;
      JoinedPlaysAll(parts[..n]);
      WholeConcat(Joined(parts[..n]), p.0);
      PayloadIsWhole(parts[n]);
      assert Durations(parts)[..n] == Durations(parts[..n]);
      assert p.1 as real <= PlayMs(p.0) < (p.1 + 1) as real;
    }
  }

  /** Taken as a response of its own, the joined file is returned unchanged and
      with its exact length in whole milliseconds, unless its last 128 bytes
      happen to start like an ID3v1 tag. */
  lemma JoinedIsItsOwnPayload(parts: seq<Bytes>)
    requires WholeParts(parts) && parts != []
    ensures Joined(parts) != []
    ensures PayloadOf(Joined(parts)) == Some((Joined(parts), TotalMs(parts).Floor)) <==> !HasID3v1(Joined(parts))
  {
    var b := Joined(parts);
    JoinedPlaysAll(parts);
    assert PayloadOf(parts[|parts| - 1]).value.0 != [] by {
      PayloadNotEmpty(parts[|parts| - 1]);
    }
    assert b[0] == 0xFF;
    assert StripID3v2(b) == b by {
      assert b[..3][0] == b[0];
    }
    assert b[0..] == b;
    if !HasID3v1(b) {
      WalkOfWhole(b, 0);
    }
  }

  ghost function TotalMs(parts: seq<Bytes>): real
    requires WholeParts(parts)
  {
    JoinedPlaysAll(parts);
    PlayMs(Joined(parts))
  }

  lemma PayloadNotEmpty(part: Bytes)
    requires PayloadOf(part).Some?
    ensures PayloadOf(part).value.0 != []
  {
  }
}
