/** Frames described as the standard describes them, by version, bit rate,
    sampling frequency and padding (section 2.4.2.3 of ISO/IEC 11172-3 and of
    ISO/IEC 13818-3), and what the parser and the walk make of them. */
module Mp3Frames {
  import opened Common
  import opened Mp3
  import Id3

  datatype Version = Mpeg1 | Mpeg2 | Mpeg25

  /** `low` is the protection bit, `private` the private bit and `mode` the last
      byte; none of the three matters to a frame's length. */
  datatype Layer3 = Layer3(version: Version, kbps: nat, hz: nat, padded: bool, low: bool, private: bool, mode: Byte)

  // ------------------------------------------------------------------
  // Writing a header
  // ------------------------------------------------------------------

  function VersionBits(v: Version): nat {
    match v
    case Mpeg1 => 3
    case Mpeg2 => 2
    case Mpeg25 => 0
  }

  /** The bit rate's index: in MPEG-1 in steps of 8 from 32 to 64 kbit/s, of 16
      to 128, of 32 to 256, and then 320. */
  function BitrateIndex1(kbps: nat): Option<nat> {
    if 32 <= kbps <= 64 && kbps % 8 == 0 then Some(kbps / 8 - 3)
    else if 64 < kbps <= 128 && kbps % 16 == 0 then Some(kbps / 16 + 1)
    else if 128 < kbps <= 256 && kbps % 32 == 0 then Some(kbps / 32 + 5)
    else if kbps == 320 then Some(14)
    else None
  }

  /** In the later versions in steps of 8 to 64 and of 16 to 160. */
  function BitrateIndex2(kbps: nat): Option<nat> {
    if 8 <= kbps <= 64 && kbps % 8 == 0 then Some(kbps / 8)
    else if 64 < kbps <= 160 && kbps % 16 == 0 then Some(kbps / 16 + 4)
    else None
  }

  function BitrateIndex(v: Version, kbps: nat): Option<nat> {
    if v == Mpeg1 then BitrateIndex1(kbps) else BitrateIndex2(kbps)
  }

  /** Each later version halves the frequencies. */
  function Halvings(v: Version): nat {
    match v
    case Mpeg1 => 1
    case Mpeg2 => 2
    case Mpeg25 => 4
  }

  function RateIndex(v: Version, hz: nat): Option<nat> {
    if hz * Halvings(v) == 44100 then Some(0)
    else if hz * Halvings(v) == 48000 then Some(1)
    else if hz * Halvings(v) == 32000 then Some(2)
    else None
  }

  predicate Legal(h: Layer3) {
    BitrateIndex(h.version, h.kbps).Some? && RateIndex(h.version, h.hz).Some?
  }

  function Bit(b: bool): nat {
    if b then 1 else 0
  }

  function HeaderBytes(h: Layer3): (b: Bytes)
    requires Legal(h)
    ensures |b| == 4
  {
    [0xFF,
     (0xE0 + VersionBits(h.version) * 8 + 2 + Bit(h.low)) as Byte,
     (BitrateIndex(h.version, h.kbps).value * 16 + RateIndex(h.version, h.hz).value * 4
      + Bit(h.padded) * 2 + Bit(h.private)) as Byte,
     h.mode]
  }

  /** Samples a frame plays. */
  function Samples(h: Layer3): nat {
    if h.version == Mpeg1 then 1152 else 576
  }

  /** What a frame's bytes come to: as many whole ones as the bit rate delivers
      while its samples play, and one more when it is padded. */
  ghost predicate Measures(h: Layer3, size: nat) {
    size >= Bit(h.padded) &&
    var whole := size - Bit(h.padded);
    whole * (8 * h.hz) <= Samples(h) * (h.kbps * 1000) < (whole + 1) * (8 * h.hz)
  }

  lemma MeasuresOnce(h: Layer3, m: nat, n: nat)
    requires Measures(h, m) && Measures(h, n)
    ensures m == n
  {
    QuotientOnce(m - Bit(h.padded), n - Bit(h.padded), 8 * h.hz, Samples(h) * (h.kbps * 1000));
    QuotientOnce(n - Bit(h.padded), m - Bit(h.padded), 8 * h.hz, Samples(h) * (h.kbps * 1000));
  }

  lemma QuotientOnce(a: nat, b: nat, r: nat, x: nat)
    requires a * r <= x < (a + 1) * r && b * r <= x < (b + 1) * r
    ensures a <= b
  {
    assert b < a ==> (b + 1) * r <= a * r;
  }

  // ------------------------------------------------------------------
  // The parser reads it
  // ------------------------------------------------------------------

  lemma BitratesMatch(v: Version, kbps: nat)
    requires BitrateIndex(v, kbps).Some?
    ensures 0 < BitrateIndex(v, kbps).value < 15
    ensures Bitrate(v == Mpeg1, BitrateIndex(v, kbps).value) == kbps > 0
  {
    hide BitrateIndex1, BitrateIndex2, Bitrate;
    if v == Mpeg1 {
      Bitrates1Match(kbps);
    } else {
      Bitrates2Match(kbps);
    }
  }

  lemma Bitrates1Match(kbps: nat)
    requires BitrateIndex1(kbps).Some?
    ensures 0 < BitrateIndex1(kbps).value < 15 && Bitrate(true, BitrateIndex1(kbps).value) == kbps > 0
  {
  }

  lemma Bitrates2Match(kbps: nat)
    requires BitrateIndex2(kbps).Some?
    ensures 0 < BitrateIndex2(kbps).value < 15 && Bitrate(false, BitrateIndex2(kbps).value) == kbps > 0
  {
  }

  lemma RatesMatch(v: Version, hz: nat)
    requires RateIndex(v, hz).Some?
    ensures RateIndex(v, hz).value < 3
    ensures SampleRate(VersionBits(v), RateIndex(v, hz).value) == hz > 0
  {
  }

  lemma FieldsRead(v: nat, low: nat, i: nat, j: nat, pad: nat, private: nat)
    requires v < 4 && low < 2 && i < 16 && j < 4 && pad < 2 && private < 2
    ensures var b1, b2 := 0xE0 + v * 8 + 2 + low, i * 16 + j * 4 + pad * 2 + private;
      && b1 / 8 % 4 == v && b1 / 2 % 4 == 1 && b2 / 16 == i && b2 / 4 % 4 == j && b2 / 2 % 2 == pad
  {
  }

  /** What the parser makes of the fields. */
  lemma ParsedBy(b: Bytes, v: nat, i: nat, j: nat, pad: nat)
    requires |b| >= 4 && b[0] == 0xFF && b[1] >= 0xE0 && b[1] as int / 8 % 4 == v && b[1] as int / 2 % 4 == 1
    requires b[2] as int / 16 == i && b[2] as int / 4 % 4 == j && b[2] as int / 2 % 2 == pad
    requires Bitrate(v == 3, i) > 0 && SampleRate(v, j) > 0
    ensures var size := WholeBytes(v == 3, Bitrate(v == 3, i), SampleRate(v, j)) + pad;
      size >= 4 ==> ParseFrameHeader(b) == Some(Header(size, if v == 3 then 1152 else 576, SampleRate(v, j)))
  {
    hide Bitrate, SampleRate;
  }

  function WholeBytes(mpeg1: bool, kbps: nat, hz: nat): nat
    requires hz > 0
  {
    (if mpeg1 then 144 else 72) * (kbps * 1000) / hz
  }

  lemma WrittenFields(h: Layer3, rest: Bytes)
    requires Legal(h)
    ensures var b := HeaderBytes(h) + rest;
      && b[0] == 0xFF && b[1] >= 0xE0 && b[1] as int / 8 % 4 == VersionBits(h.version) && b[1] as int / 2 % 4 == 1
      && b[2] as int / 16 == BitrateIndex(h.version, h.kbps).value
      && b[2] as int / 4 % 4 == RateIndex(h.version, h.hz).value && b[2] as int / 2 % 2 == Bit(h.padded)
  {
    hide Bitrate, SampleRate, BitrateIndex, RateIndex;
    BitratesMatch(h.version, h.kbps);
    RatesMatch(h.version, h.hz);
    FieldsRead(VersionBits(h.version), Bit(h.low), BitrateIndex(h.version, h.kbps).value, RateIndex(h.version, h.hz).value,
               Bit(h.padded), Bit(h.private));
  }

  /** Every header that can be written parses, whatever follows: to its rate, its
      samples and its measured length. */
  lemma HeaderReads(h: Layer3, rest: Bytes) returns (size: nat)
    requires Legal(h)
    ensures ParseFrameHeader(HeaderBytes(h) + rest) == Some(Header(size, Samples(h), h.hz))
    ensures Measures(h, size)
  {
    hide Bitrate, SampleRate, BitrateIndex, RateIndex, ParseFrameHeader, HeaderBytes;
    BitratesMatch(h.version, h.kbps);
    RatesMatch(h.version, h.hz);
    WrittenFields(h, rest);
    size := WholeBytes(h.version == Mpeg1, h.kbps, h.hz) + Bit(h.padded);
    LongEnough(h);
    ParsedBy(HeaderBytes(h) + rest, VersionBits(h.version), BitrateIndex(h.version, h.kbps).value,
             RateIndex(h.version, h.hz).value, Bit(h.padded));
    WholeMeasures(h);
  }

  lemma WholeMeasures(h: Layer3)
    requires h.hz > 0
    ensures Measures(h, WholeBytes(h.version == Mpeg1, h.kbps, h.hz) + Bit(h.padded))
  {
    Division(if h.version == Mpeg1 then 144 else 72, h.kbps * 1000, h.hz);
  }

  lemma Division(c: nat, bits: nat, hz: nat)
    requires hz > 0
    ensures var whole := c * bits / hz;
      whole * (8 * hz) <= 8 * c * bits < (whole + 1) * (8 * hz)
  {
    var n := c * bits;
    var whole := n / hz;
    assert whole * hz <= n < (whole + 1) * hz;
    assert 8 * c * bits == 8 * n;
    assert whole * (8 * hz) == 8 * (whole * hz) && (whole + 1) * (8 * hz) == 8 * ((whole + 1) * hz);
  }

  lemma LongEnough(h: Layer3)
    requires Legal(h)
    ensures h.hz > 0 && WholeBytes(h.version == Mpeg1, h.kbps, h.hz) >= 4
  {
    assert h.kbps >= 8 && 0 < h.hz <= 48000;
    QuotientAtLeast(4, (if h.version == Mpeg1 then 144 else 72) * (h.kbps * 1000), h.hz);
  }

  lemma QuotientAtLeast(q: nat, n: nat, d: nat)
    requires 0 < d && q * d <= n
    ensures n / d >= q
  {
    var x := n / d;
    assert x * d > n - d;
    assert x < q ==> (x + 1) * d <= q * d;
  }

  /** Nothing else parses. */
  lemma OnlyHeadersParse(b: Bytes) returns (h: Layer3)
    requires ParseFrameHeader(b).Some?
    ensures Legal(h) && HeaderBytes(h) <= b
  {
    hide Bitrate, SampleRate, BitrateIndex, RateIndex;
    var b1, b2 := b[1] as int, b[2] as int;
    var v, i, j := b1 / 8 % 4, b2 / 16, b2 / 4 % 4;
    var version := VersionOf(v, j);
    KnownRate(version, j);
    KnownBitrate(version, i);
    h := Layer3(version, Bitrate(v == 3, i), SampleRate(v, j), b2 / 2 % 2 == 1, b1 % 2 == 1, b2 % 2 == 1, b[3]);
    FieldsMake(b1, b2);
    assert b[..4] == HeaderBytes(h);
  }

  lemma VersionOf(v: nat, j: nat) returns (version: Version)
    requires v < 4 && j < 4 && SampleRate(v, j) > 0
    ensures VersionBits(version) == v && j < 3
  {
    version := if v == 3 then Mpeg1 else if v == 2 then Mpeg2 else Mpeg25;
  }

  lemma KnownRate(v: Version, j: nat)
    requires j < 3
    ensures RateIndex(v, SampleRate(VersionBits(v), j)) == Some(j)
  {
  }

  lemma KnownBitrate(v: Version, i: nat)
    requires i < 16 && Bitrate(v == Mpeg1, i) > 0
    ensures BitrateIndex(v, Bitrate(v == Mpeg1, i)) == Some(i)
  {
  }

  lemma FieldsMake(b1: nat, b2: nat)
    requires 0xE0 <= b1 < 0x100 && b2 < 0x100 && b1 / 2 % 4 == 1
    ensures 0xE0 + b1 / 8 % 4 * 8 + 2 + b1 % 2 == b1
    ensures b2 / 16 * 16 + b2 / 4 % 4 * 4 + b2 / 2 % 2 * 2 + b2 % 2 == b2
  {
  }

  // ------------------------------------------------------------------
  // Streams of frames
  // ------------------------------------------------------------------

  datatype Frame = Frame(header: Layer3, body: Bytes)

  ghost predicate GoodFrame(f: Frame) {
    Legal(f.header) && Measures(f.header, 4 + |f.body|)
  }

  ghost predicate GoodFrames(fs: seq<Frame>) {
    forall i :: 0 <= i < |fs| ==> GoodFrame(fs[i])
  }

  ghost function FrameBytes(f: Frame): Bytes
    requires GoodFrame(f)
  {
    HeaderBytes(f.header) + f.body
  }

  ghost function Stream(fs: seq<Frame>): Bytes
    requires GoodFrames(fs)
  {
    if fs == [] then [] else FrameBytes(fs[0]) + Stream(fs[1..])
  }

  /** Milliseconds the samples take at their frequency. */
  function FramePlays(h: Layer3): real {
    if h.hz == 0 then 0.0 else 1000.0 * Samples(h) as real / h.hz as real
  }

  function StreamPlays(fs: seq<Frame>): real {
    if fs == [] then 0.0 else FramePlays(fs[0].header) + StreamPlays(fs[1..])
  }

  lemma FrameParses(f: Frame, rest: Bytes)
    requires GoodFrame(f)
    ensures ParseFrameHeader(FrameBytes(f) + rest) == Some(Header(|FrameBytes(f)|, Samples(f.header), f.header.hz))
    ensures f.header.hz > 0
  {
    hide ParseFrameHeader, HeaderBytes, Measures;
    RatesMatch(f.header.version, f.header.hz);
    var size := HeaderReads(f.header, f.body + rest);
    MeasuresOnce(f.header, size, 4 + |f.body|);
    assert FrameBytes(f) + rest == HeaderBytes(f.header) + (f.body + rest);
  }

  lemma FrameTakes(h: Layer3, size: nat)
    requires h.hz > 0
    ensures FrameMs(Header(size, Samples(h), h.hz)) == FramePlays(h)
  {
  }

  lemma RunStep(b: Bytes, i: nat)
    requires i <= |b|
    ensures ParseFrameHeader(b[i..]) == None ==> RunEnd(b, i) == i && RunMs(b, i) == 0.0
    ensures ParseFrameHeader(b[i..]).Some? ==>
      && RunEnd(b, i) == RunEnd(b, i + ParseFrameHeader(b[i..]).value.size)
      && RunMs(b, i)
           == FrameMs(ParseFrameHeader(b[i..]).value) + RunMs(b, i + ParseFrameHeader(b[i..]).value.size)
  {
    FrameFits(b[i..]);
    hide ParseFrameHeader, FrameMs;
  }

  /** The walk goes over the frames to the first place that is none. */
  lemma {:induction false} RunOverFrames(b: Bytes, i: nat, fs: seq<Frame>, rest: Bytes)
    requires i <= |b| && GoodFrames(fs) && b[i..] == Stream(fs) + rest && ParseFrameHeader(rest) == None
    ensures RunEnd(b, i) == |b| - |rest| && RunMs(b, i) == StreamPlays(fs)
    decreases |fs|
  {
    hide ParseFrameHeader, FrameMs, FramePlays, GoodFrame, FrameBytes, RunEnd, RunMs, Stream;
    RunStep(b, i);
    StreamStep(fs, rest);
    if fs != [] {
      var f, more := fs[0], Stream(fs[1..]) + rest;
      FrameParses(f, more);
      FrameTakes(f.header, |FrameBytes(f)|);
      SliceBehind(b, i, FrameBytes(f), more);
      RunOverFrames(b, i + |FrameBytes(f)|, fs[1..], rest);
    } else {
      assert |b[i..]| == |rest|;
    }
  }

  lemma StreamStep(fs: seq<Frame>, rest: Bytes)
    requires GoodFrames(fs)
    ensures fs == [] ==> Stream(fs) + rest == rest
    ensures fs != [] ==> GoodFrame(fs[0]) && GoodFrames(fs[1..])
    ensures fs != [] ==> Stream(fs) + rest == FrameBytes(fs[0]) + (Stream(fs[1..]) + rest)
  {
    hide GoodFrame, FrameBytes;
    if fs != [] {
      assert GoodFrame(fs[0]);
    } else {
      assert [] + rest == rest;
    }
  }

  lemma SliceBehind(b: Bytes, i: nat, x: Bytes, y: Bytes)
    requires i <= |b| && b[i..] == x + y
    ensures i + |x| <= |b| && b[i + |x|..] == y
  {
    assert |b[i..]| == |b| - i;
    assert b[i + |x|..] == b[i..][|x|..];
  }

  lemma FrameHead(f: Frame)
    requires GoodFrame(f)
    ensures |FrameBytes(f)| >= 4 && FrameBytes(f)[0] == 0xFF
  {
  }

  /** Bytes without the first byte of a header are stepped over. */
  lemma {:induction false} JunkIsSkipped(b: Bytes, i: nat, k: nat)
    requires i <= k && k + 4 <= |b| && ParseFrameHeader(b[k..]).Some?
    requires forall j :: i <= j < k ==> b[j] != 0xFF
    ensures FirstFrame(b, i) == Some(k)
    decreases k - i
  {
    if i < k {
      JunkIsSkipped(b, i + 1, k);
      assert b[i..][0] == b[i];
    }
  }

  /** The payload of a response is its frames and their play time, whatever
      stands before them without looking like a header or a tag, and whatever
      other than a tag or a frame comes after them; of that, up to three bytes at
      the end stay. */
  lemma FramesAreFound(junk: Bytes, fs: seq<Frame>, rest: Bytes)
    requires fs != [] && GoodFrames(fs) && 0xFF !in junk && ParseFrameHeader(rest) == None
    requires !HasID3v1(junk + Stream(fs) + rest) && !(Mp3.Id3 <= junk)
    ensures PayloadOf(junk + Stream(fs) + rest)
      == Some((Stream(fs) + if |rest| < 4 then rest else [], StreamPlays(fs).Floor))
  {
    hide ParseFrameHeader, HasID3v1, GoodFrame, FrameBytes;
    var b, k := junk + Stream(fs) + rest, |junk|;
    NotTagged(junk, fs, rest);
    assert b[k..] == Stream(fs) + rest;
    assert GoodFrame(fs[0]);
    FrameParses(fs[0], Stream(fs[1..]) + rest);
    FrameHead(fs[0]);
    assert b[k..] == FrameBytes(fs[0]) + (Stream(fs[1..]) + rest);
    JunkIsSkipped(b, 0, k);
    RunOverFrames(b, k, fs, rest);
    assert b[k..|b| - |rest|] == Stream(fs);
    assert Stream(fs) + [] == Stream(fs);
  }

  lemma NotTagged(junk: Bytes, fs: seq<Frame>, rest: Bytes)
    requires fs != [] && GoodFrames(fs) && !(Mp3.Id3 <= junk) && 0xFF !in junk
    ensures StripID3v2(junk + Stream(fs) + rest) == junk + Stream(fs) + rest
  {
    hide FrameBytes, GoodFrame;
    assert GoodFrame(fs[0]);
    FrameHead(fs[0]);
    var b := junk + Stream(fs) + rest;
    assert b[|junk|] == Stream(fs)[0] == 0xFF;
    if |b| >= 10 {
      assert |junk| >= 3 ==> b[..3] == junk[..3];
      assert |junk| < 3 ==> b[..3][|junk|] == 0xFF;
    }
  }

  /** Frames alone, exactly when they do not end like an ID3v1 tag. */
  lemma StreamIsItsPayload(fs: seq<Frame>)
    requires fs != [] && GoodFrames(fs)
    ensures PayloadOf(Stream(fs)) == Some((Stream(fs), StreamPlays(fs).Floor)) <==> !HasID3v1(Stream(fs))
  {
    hide ParseFrameHeader, HasID3v1, GoodFrame, FrameBytes;
    assert [] + Stream(fs) + [] == Stream(fs) && Stream(fs) + [] == Stream(fs);
    if !HasID3v1(Stream(fs)) {
      NoHeader();
      FramesAreFound([], fs, []);
    } else {
      NotTagged([], fs, []);
      ShorterWithTag(Stream(fs));
    }
  }

  lemma NoHeader()
    ensures ParseFrameHeader([]) == None
  {
  }

  lemma ShorterWithTag(b: Bytes)
    requires HasID3v1(b) && StripID3v2(b) == b
    ensures PayloadOf(b).Some? ==> |PayloadOf(b).value.0| < |b|
  {
    hide ParseFrameHeader;
  }

  /** Frames with an ID3v1 tag behind them lose the tag and nothing else. */
  lemma TagBehindComesOff(fs: seq<Frame>, tag: Bytes)
    requires fs != [] && GoodFrames(fs) && |tag| == 128 && tag[..3] == Tag
    ensures PayloadOf(Stream(fs) + tag) == Some((Stream(fs), StreamPlays(fs).Floor))
  {
    hide ParseFrameHeader, GoodFrame, FrameBytes;
    NotTagged([], fs, tag);
    assert [] + Stream(fs) + tag == Stream(fs) + tag;
    var all, b := Stream(fs) + tag, Stream(fs);
    assert all[|all| - 128..|all| - 125] == tag[..3];
    assert Stripped(all) == b;
    assert GoodFrame(fs[0]);
    FrameParses(fs[0], Stream(fs[1..]));
    FrameHead(fs[0]);
    NoHeader();
    assert b[0..] == Stream(fs) + [];
    RunOverFrames(b, 0, fs, []);
    assert FirstFrame(b, 0) == Some(0);
  }

  // ------------------------------------------------------------------
  // Tags in front
  // ------------------------------------------------------------------

  /** A tag of any version, with a footer exactly when its flag says so. */
  ghost predicate FrontTag(tag: Bytes, flags: Byte, body: Bytes, footer: Bytes) {
    && |body| < 0x1000_0000 && |footer| == (if flags as int / 0x10 % 2 == 1 then 10 else 0)
    && |tag| == 10 + |body| + |footer|
    && tag[..3] == Ascii("ID3") && tag[5] == flags && tag[6..10] == Id3.Syncsafe(|body|)
    && tag[10..10 + |body|] == body && tag[10 + |body|..] == footer
  }

  /** It comes off whole, and one that is cut short stays. */
  lemma TagInFrontComesOff(tag: Bytes, flags: Byte, body: Bytes, footer: Bytes, rest: Bytes, cut: nat)
    requires FrontTag(tag, flags, body, footer) && cut < |tag|
    ensures StripID3v2(tag + rest) == rest
    ensures StripID3v2(tag[..cut]) == tag[..cut]
  {
    hide Unsyncsafe, Id3.Syncsafe, Ascii;
    Id3.SyncsafeRoundTrip(|body|);
    TagText();
    var b := tag + rest;
    assert b[..3] == tag[..3] && b[6..10] == tag[6..10];
    assert b[|tag|..] == rest;
    assert cut >= 10 ==> tag[..cut][6..10] == tag[6..10];
  }

  lemma TagText()
    ensures Ascii("ID3") == Mp3.Id3
  {
  }
}
