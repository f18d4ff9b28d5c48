/** The ID3v2.3 tag in front of the joined frames (sections 3.1 and 3.3 of
    ID3v2.3.0; sections 3.1 and 3.2 of the ID3v2 Chapter Frame Addendum). */
module Id3 {
  import opened BigEndian
  import opened Common
  import opened Decimal
  import opened Utf16
  import Mp3

  type Millis = ms: int | 0 <= ms < 0x1_0000_0000

  datatype Chapter = Chapter(title: Text, startMs: Millis, endMs: Millis)

  datatype Tags = Tags(title: Text, artist: Text, album: Text, genre: Text, cover: Bytes, coverMime: Bytes)

  const TIT2: Bytes := [0x54, 0x49, 0x54, 0x32]
  const TPE1: Bytes := [0x54, 0x50, 0x45, 0x31]
  const TALB: Bytes := [0x54, 0x41, 0x4C, 0x42]
  const TCON: Bytes := [0x54, 0x43, 0x4F, 0x4E]
  const APIC: Bytes := [0x41, 0x50, 0x49, 0x43]
  const CHAP: Bytes := [0x43, 0x48, 0x41, 0x50]
  const CTOC: Bytes := [0x43, 0x54, 0x4F, 0x43]
  const TocId: Bytes := [0x74, 0x6F, 0x63]
  const ChpPrefix: Bytes := [0x63, 0x68, 0x70]

  // ------------------------------------------------------------------
  // Writing
  // ------------------------------------------------------------------

  /** Four groups of seven bits. */
  function Syncsafe(n: nat): (b: Bytes)
    ensures |b| == 4
  {
    var m := n % 0x1_0000_0000;
    var a := m / 0x80;
    var b := a / 0x80;
    var c := b / 0x80;
    [(c % 0x80) as Byte, (b % 0x80) as Byte, (a % 0x80) as Byte, (m % 0x80) as Byte]
  }

  function Frame(id: Bytes, payload: Bytes): Bytes {
    id + BE32(|payload|) + [0, 0] + payload
  }

  function LittleEndian(us: seq<CodeUnit>): Bytes {
    if us == [] then [] else [(us[0] % 0x100) as Byte, (us[0] / 0x100) as Byte] + LittleEndian(us[1..])
  }

  method Utf16LEWithBOM(s: Text) returns (out: Bytes)
    ensures out == WithBOM(s)
  {
    var units := Encode(s);
    out := [0xFF, 0xFE];
    var i := 0;
    assert units[i..] == units;
    while i < |units|
      invariant 0 <= i <= |units|
      invariant out + LittleEndian(units[i..]) == [0xFF, 0xFE] + LittleEndian(units)
    {
      assert units[i..][1..] == units[i + 1..];
      out := out + [(units[i] % 0x100) as Byte, (units[i] / 0x100) as Byte];
      i := i + 1;
    }
    out := out + [0, 0];
  }

  function WithBOM(s: Text): Bytes {
    [0xFF, 0xFE] + LittleEndian(Encode(s)) + [0, 0]
  }

  function TextFrame(id: Bytes, value: Text): Bytes {
    if value == [] then [] else Frame(id, [1] + WithBOM(value))
  }

  function ApicPayload(mime: Bytes, data: Bytes): Bytes {
    [0] + mime + [0, 3, 0] + data
  }

  function ChapPayload(elementId: Bytes, ch: Chapter): Bytes {
    elementId + [0] + BE32(ch.startMs) + BE32(ch.endMs) + [0xFF, 0xFF, 0xFF, 0xFF, 0xFF, 0xFF, 0xFF, 0xFF]
    + TextFrame(TIT2, ch.title)
  }

  function Terminated(ids: seq<Bytes>): Bytes {
    if ids == [] then [] else Terminated(ids[..|ids| - 1]) + ids[|ids| - 1] + [0]
  }

  function CtocPayload(ids: seq<Bytes>): Bytes {
    TocId + [0, 3, (|ids| % 0x100) as Byte] + Terminated(ids)
  }

  method CtocFrame(ids: seq<Bytes>) returns (frame: Bytes)
    ensures frame == Frame(CTOC, CtocPayload(ids))
  {
    var payload := TocId + [0, 3, (|ids| % 0x100) as Byte];
    var i := 0;
    assert ids[..0] == [];
    while i < |ids|
      invariant 0 <= i <= |ids|
      invariant payload == TocId + [0, 3, (|ids| % 0x100) as Byte] + Terminated(ids[..i])
    {
      assert ids[..i + 1][..i] == ids[..i];
      payload := payload + ids[i] + [0];
      i := i + 1;
    }
    assert ids[..i] == ids;
    frame := Frame(CTOC, payload);
  }

  function ChapId(i: nat): Bytes {
    ChpPrefix + Dec(i)
  }

  function ChapIds(n: nat): (ids: seq<Bytes>)
    ensures |ids| == n && forall i :: 0 <= i < n ==> ids[i] == ChapId(i)
  {
    seq(n, i requires 0 <= i < n => ChapId(i))
  }

  function ChapFrames(chs: seq<Chapter>): Bytes {
    if chs == [] then []
    else ChapFrames(chs[..|chs| - 1]) + Frame(CHAP, ChapPayload(ChapId(|chs| - 1), chs[|chs| - 1]))
  }

  function Body(t: Tags, chs: seq<Chapter>): Bytes {
    TextFrame(TIT2, t.title) + TextFrame(TPE1, t.artist) + TextFrame(TALB, t.album) + TextFrame(TCON, t.genre)
    + (if t.cover != [] && t.coverMime != [] then Frame(APIC, ApicPayload(t.coverMime, t.cover)) else [])
    + (if chs != [] then ChapFrames(chs) + Frame(CTOC, CtocPayload(ChapIds(|chs|))) else [])
  }

  function TagOf(body: Bytes): Bytes {
    [0x49, 0x44, 0x33, 3, 0, 0] + Syncsafe(|body|) + body
  }

  /** One frame per chapter, under a table of contents that orders them. */
  method AppendChapters(front: Bytes, chs: seq<Chapter>) returns (body: Bytes)
    ensures body == front + (ChapFrames(chs) + Frame(CTOC, CtocPayload(ChapIds(|chs|))))
  {
    hide Frame, ChapPayload, CtocPayload;
    body := front;
    var ids: seq<Bytes> := [];
    var i := 0;
    assert chs[..0] == [];
    while i < |chs|
      invariant 0 <= i <= |chs|
      invariant ids == ChapIds(i)
      invariant body == front + ChapFrames(chs[..i])
    {
      assert chs[..i + 1][..i] == chs[..i];
      ids := ids + [ChapId(i)];
      body := body + Frame(CHAP, ChapPayload(ids[i], chs[i]));
      i := i + 1;
    }
    assert chs[..i] == chs;
    var toc := CtocFrame(ids);
    body := body + toc;
  }

  method WriteID3(t: Tags, chs: seq<Chapter>) returns (out: Bytes)
    ensures out == TagOf(Body(t, chs))
  {
    hide TextFrame, Frame, ApicPayload, ChapFrames, CtocPayload, Syncsafe;
    var body := TextFrame(TIT2, t.title);
    body := body + TextFrame(TPE1, t.artist);
    body := body + TextFrame(TALB, t.album);
    body := body + TextFrame(TCON, t.genre);
    if t.cover != [] && t.coverMime != [] {
      body := body + Frame(APIC, ApicPayload(t.coverMime, t.cover));
    }
    if |chs| > 0 {
      body := AppendChapters(body, chs);
    }
    out := [0x49, 0x44, 0x33, 3, 0, 0] + Syncsafe(|body|);
    out := out + body;
  }

  // ------------------------------------------------------------------
  // The tag comes off again
  // ------------------------------------------------------------------

  /** The four groups of seven bits add up to the lowest 28. */
  lemma SevenBitGroups(m: nat)
    ensures var a := m / 0x80;
      var b := a / 0x80;
      var c := b / 0x80;
      (c % 0x80) * 0x20_0000 + (b % 0x80) * 0x4000 + (a % 0x80) * 0x80 + m % 0x80 == m % 0x1000_0000
  {
    var a := m / 0x80;
    var b := a / 0x80;
    var c := b / 0x80;
    var low := (c % 0x80) * 0x20_0000 + (b % 0x80) * 0x4000 + (a % 0x80) * 0x80 + m % 0x80;
    assert m == a * 0x80 + m % 0x80 && a == b * 0x80 + a % 0x80;
    assert b == c * 0x80 + b % 0x80 && c == c / 0x80 * 0x80 + c % 0x80;
    RemainderOf(m, c / 0x80, low, 0x1000_0000);
  }

  lemma SyncsafeRoundTrip(n: nat)
    ensures Mp3.Unsyncsafe(Syncsafe(n)) == n % 0x1000_0000
  {
    var m := n % 0x1_0000_0000;
    SevenBitGroups(m);
    SyncsafeGroups(n);
    RemainderOf(n, n / 0x1_0000_0000 * 16 + m / 0x1000_0000, m % 0x1000_0000, 0x1000_0000);
  }

  lemma SyncsafeGroups(n: nat)
    ensures var m := n % 0x1_0000_0000;
      var a := m / 0x80;
      var b := a / 0x80;
      var c := b / 0x80;
      Mp3.Unsyncsafe(Syncsafe(n)) == (c % 0x80) * 0x20_0000 + (b % 0x80) * 0x4000 + (a % 0x80) * 0x80 + m % 0x80
  {
  }

  lemma RemainderOf(n: int, q: int, r: int, d: int)
    requires d == 0x1000_0000 && n == q * d + r && 0 <= r < d
    ensures n % d == r
  {
  }

  lemma TagShape(body: Bytes, audio: Bytes)
    ensures var b := TagOf(body) + audio;
      && |b| == 10 + |body| + |audio| && b[..3] == Mp3.Id3 && b[3] == 3 && b[4] == 0 && b[5] == 0 && b[6..10] == Syncsafe(|body|) && b[10..10 + |body|] == body
  {
    hide Syncsafe;
    var size := Syncsafe(|body|);
    var head: Bytes := [0x49, 0x44, 0x33, 3, 0, 0];
    assert TagOf(body) == head + size + body;
    assert (head + size)[..3] == Mp3.Id3;
    assert (head + size + (body + audio))[6..10] == size;
    assert TagOf(body) + audio == head + size + (body + audio);
  }

  lemma StripsTo(b: Bytes, end: nat)
    requires |b| >= 10 && b[..3] == Mp3.Id3 && b[5] == 0 && end == 10 + Mp3.Unsyncsafe(b[6..10]) && end <= |b|
    ensures Mp3.StripID3v2(b) == b[end..]
  {
    hide Mp3.Unsyncsafe;
  }

  /** Stripping the tag off gives back exactly the audio, whatever it is,
      exactly when the body is under 2^28 bytes. */
  lemma TagComesOff(body: Bytes, audio: Bytes)
    ensures Mp3.StripID3v2(TagOf(body) + audio) == audio <==> |body| < 0x1000_0000
  {
    hide Syncsafe, Mp3.Unsyncsafe, Mp3.StripID3v2;
    var b := TagOf(body) + audio;
    SyncsafeRoundTrip(|body|);
    TagShape(body, audio);
    StripsTo(b, 10 + |body| % 0x1000_0000);
    assert b[10 + |body|..] == audio;
  }
}
