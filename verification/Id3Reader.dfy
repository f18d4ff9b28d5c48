/** A reader of the ID3v2.3 layout, and what it recovers of what was written. */
module Id3Reader {
  import opened BigEndian
  import opened Common
  import opened Decimal
  import opened Utf16
  import opened Id3
  import Mp3

  datatype RawFrame = RawFrame(id: Bytes, payload: Bytes)

  // ------------------------------------------------------------------
  // Reading
  // ------------------------------------------------------------------

  /** Frames without flags: none is compressed, encrypted or grouped. */
  function ParseFrames(b: Bytes): Option<seq<RawFrame>> {
    if b == [] then Some([])
    else if |b| < 10 || b[8] != 0 || b[9] != 0 then None
    else
      var n := FromBE32(b[4..8]);
      if 10 + n > |b| then None
      else
        match ParseFrames(b[10 + n..])
        case None => None
        case Some(rest) => Some([RawFrame(b[..4], b[10..10 + n])] + rest)
  }

  function Find(fs: seq<RawFrame>, id: Bytes): Option<RawFrame> {
    if fs == [] then None else if fs[0].id == id then Some(fs[0]) else Find(fs[1..], id)
  }

  function Units(b: Bytes): seq<CodeUnit> {
    if |b| < 2 then [] else [b[0] as int + b[1] as int * 0x100] + Units(b[2..])
  }

  /** A text string ends at its first null. */
  function UpToNul(us: seq<CodeUnit>): seq<CodeUnit> {
    if us == [] || us[0] == 0 then [] else [us[0]] + UpToNul(us[1..])
  }

  function ReadText(p: Bytes): Text {
    if |p| >= 3 && p[0] == 1 && p[1] == 0xFF && p[2] == 0xFE then Decode(UpToNul(Units(p[3..]))) else []
  }

  function TextOf(fs: seq<RawFrame>, id: Bytes): Text {
    match Find(fs, id)
    case None => []
    case Some(f) => ReadText(f.payload)
  }

  /** Where the first zero byte from `i` on is, or the length. */
  function NulAt(b: Bytes, i: nat): (k: nat)
    requires i <= |b|
    ensures i <= k <= |b| && forall j :: i <= j < k ==> b[j] != 0
    ensures k < |b| ==> b[k] == 0
    decreases |b| - i
  {
    if i == |b| || b[i] == 0 then i else NulAt(b, i + 1)
  }

  function CoverOf(fs: seq<RawFrame>): Option<(Bytes, Bytes)> {
    match Find(fs, APIC)
    case None => None
    case Some(f) => ReadCover(f.payload)
  }

  /** The type and the bytes of a front cover described in Latin-1. */
  function ReadCover(p: Bytes): Option<(Bytes, Bytes)> {
    if p == [] || p[0] != 0 then None
    else
      var i := NulAt(p, 1);
      if i + 2 > |p| || p[i + 1] != 3 then None
      else
        var j := NulAt(p, i + 2);
        Some((p[1..i], if j < |p| then p[j + 1..] else []))
  }

  function ReadIds(b: Bytes, n: nat): seq<Bytes>
    decreases n
  {
    if n == 0 then []
    else
      var k := NulAt(b, 0);
      [b[..k]] + ReadIds(if k < |b| then b[k + 1..] else [], n - 1)
  }

  /** The entries of a table of contents that is top-level and ordered. */
  function TocIds(p: Bytes): seq<Bytes> {
    var k := NulAt(p, 0);
    if k + 3 > |p| || p[k + 1] != 3 then [] else ReadIds(p[k + 3..], p[k + 2] as int)
  }

  function ElementId(p: Bytes): Bytes {
    p[..NulAt(p, 0)]
  }

  function FindChapter(fs: seq<RawFrame>, id: Bytes): Option<Chapter> {
    if fs == [] then None
    else if fs[0].id == CHAP && ElementId(fs[0].payload) == id then ReadChapter(fs[0].payload)
    else FindChapter(fs[1..], id)
  }

  /** A chapter given by its times: both byte offsets say that they are absent. */
  function ReadChapter(p: Bytes): Option<Chapter> {
    var k := NulAt(p, 0) + 1;
    if k + 16 > |p| || exists i :: k + 8 <= i < k + 16 && p[i] != 0xFF then None
    else
      match ParseFrames(p[k + 16..])
      case None => None
      case Some(sub) => Some(Chapter(TextOf(sub, TIT2), FromBE32(p[k..k + 4]), FromBE32(p[k + 4..k + 8])))
  }

  /** The chapters in the order of the table of contents. */
  function ChaptersOf(fs: seq<RawFrame>): seq<Option<Chapter>> {
    match Find(fs, CTOC)
    case None => []
    case Some(f) =>
      var ids := TocIds(f.payload);
      seq(|ids|, i requires 0 <= i < |ids| => FindChapter(fs, ids[i]))
  }

  /** The frames of the version 2.3 tag without flags at the start of a file. */
  function ReadTag(b: Bytes): Option<seq<RawFrame>> {
    if |b| < 10 || b[..3] != Mp3.Id3 || b[3] != 3 || b[4] != 0 || b[5] != 0 then None
    else
      var end := 10 + Mp3.Unsyncsafe(b[6..10]);
      if end > |b| then None else ParseFrames(b[10..end])
  }

  // ------------------------------------------------------------------
  // Frames laid end to end
  // ------------------------------------------------------------------

  ghost function Laid(fs: seq<RawFrame>): Bytes {
    if fs == [] then [] else Frame(fs[0].id, fs[0].payload) + Laid(fs[1..])
  }

  ghost predicate Framed(fs: seq<RawFrame>) {
    forall f :: f in fs ==> |f.id| == 4
  }

  lemma FrameLayout(id: Bytes, payload: Bytes, rest: Bytes)
    requires |id| == 4
    ensures var b := Frame(id, payload) + rest;
      && |b| == 10 + |payload| + |rest| && b[..4] == id && b[4..8] == BE32(|payload|)
      && b[10..10 + |payload|] == payload && b[10 + |payload|..] == rest && b[8] == 0 && b[9] == 0
  {
    hide BE32;
    var head := id + BE32(|payload|) + [0, 0];
    assert Frame(id, payload) + rest == head + payload + rest;
  }

  lemma ParseStep(f: RawFrame, rest: Bytes)
    requires |f.id| == 4 && |f.payload| < 0x1_0000_0000
    ensures ParseFrames(Frame(f.id, f.payload) + rest) ==
      match ParseFrames(rest)
      case None => None
      case Some(more) => Some([f] + more)
  {
    hide Frame, BE32, FromBE32;
    FrameLayout(f.id, f.payload, rest);
    BE32RoundTrip(|f.payload|);
  }

  lemma {:induction false} ParseLaid(fs: seq<RawFrame>)
    requires Framed(fs) && |Laid(fs)| < 0x1_0000_0000
    ensures ParseFrames(Laid(fs)) == Some(fs)
  {
    hide Frame, ParseFrames;
    if fs == [] {
      ParseNothing();
    } else {
      assert fs[0] in fs && |fs[0].id| == 4;
      FrameLayout(fs[0].id, fs[0].payload, Laid(fs[1..]));
      ParseLaid(fs[1..]);
      ParseStep(fs[0], Laid(fs[1..]));
      assert fs == [fs[0]] + fs[1..];
    }
  }

  lemma ParseNothing()
    ensures ParseFrames([]) == Some([])
  {
  }

  lemma {:induction false} LaidConcat(a: seq<RawFrame>, b: seq<RawFrame>)
    ensures Laid(a + b) == Laid(a) + Laid(b)
  {
    hide Frame;
    if a == [] {
      assert a + b == b;
    } else {
      LaidConcat(a[1..], b);
      assert (a + b)[1..] == a[1..] + b;
    }
  }

  lemma {:induction false} FindConcat(a: seq<RawFrame>, b: seq<RawFrame>, id: Bytes)
    ensures Find(a + b, id) == if Find(a, id).Some? then Find(a, id) else Find(b, id)
  {
    if a == [] {
      assert a + b == b;
    } else {
      FindConcat(a[1..], b, id);
      assert (a + b)[1..] == a[1..] + b;
    }
  }

  lemma {:induction false} FindNone(fs: seq<RawFrame>, id: Bytes)
    requires forall f :: f in fs ==> f.id != id
    ensures Find(fs, id) == None
  {
    if fs != [] {
      assert fs[0] in fs;
      FindNone(fs[1..], id);
    }
  }

  // ------------------------------------------------------------------
  // Text
  // ------------------------------------------------------------------

  /** What survives of a text written with a terminator: all of it, unless it
      contains a null itself. */
  ghost function CutAtNul(s: Text): (r: Text)
    ensures (forall i :: 0 <= i < |s| ==> s[i] != 0) ==> r == s
    ensures r <= s
  {
    if s == [] || s[0] == 0 then [] else [s[0]] + CutAtNul(s[1..])
  }

  lemma {:induction false} UnitsOf(us: seq<CodeUnit>)
    ensures Units(LittleEndian(us) + [0, 0]) == us + [0]
  {
    var b := LittleEndian(us) + [0, 0];
    if us == [] {
      assert b == [0, 0] && b[2..] == [];
      assert Units(b[2..]) == [];
    } else {
      UnitsOf(us[1..]);
      assert b[2..] == LittleEndian(us[1..]) + [0, 0];
      assert us[0] == us[0] / 0x100 * 0x100 + us[0] % 0x100;
      assert us + [0] == [us[0]] + (us[1..] + [0]);
    }
  }

  lemma UpToNulPasses(us: seq<CodeUnit>, more: seq<CodeUnit>)
    requires 1 <= |us| <= 2 && forall i :: 0 <= i < |us| ==> us[i] != 0
    ensures UpToNul(us + more) == us + UpToNul(more)
  {
    var all := us + more;
    assert us[0] == all[0];
    if |us| == 1 {
      assert all[1..] == more;
    } else {
      assert all[1..][1..] == more && all[1] == us[1];
      assert UpToNul(all[1..]) == [us[1]] + UpToNul(more);
    }
  }

  lemma RuneUnits(r: Rune)
    ensures r != 0 ==> forall i :: 0 <= i < |EncodeRune(r)| ==> EncodeRune(r)[i] != 0
    ensures r == 0 ==> EncodeRune(r) == [0]
  {
  }

  lemma {:induction false} UpToNulOf(s: Text, rest: seq<CodeUnit>)
    requires rest != [] && rest[0] == 0
    ensures UpToNul(Encode(s) + rest) == Encode(CutAtNul(s))
  {
    hide EncodeRune;
    if s == [] {
      assert Encode(s) + rest == rest;
    } else {
      var us, more := EncodeRune(s[0]), Encode(s[1..]) + rest;
      assert Encode(s) + rest == us + more;
      RuneUnits(s[0]);
      if s[0] != 0 {
        UpToNulOf(s[1..], rest);
        UpToNulPasses(us, more);
        assert ([s[0]] + CutAtNul(s[1..]))[1..] == CutAtNul(s[1..]);
      }
    }
  }

  lemma TextRoundTrip(s: Text)
    ensures ReadText([1] + WithBOM(s)) == CutAtNul(s)
  {
    var p := [1] + WithBOM(s);
    assert p[3..] == LittleEndian(Encode(s)) + [0, 0];
    UnitsOf(Encode(s));
    UpToNulOf(s, [0]);
    DecodeEncode(CutAtNul(s));
  }

  // ------------------------------------------------------------------
  // What was written, as frames
  // ------------------------------------------------------------------

  ghost function TextRaw(id: Bytes, s: Text): seq<RawFrame> {
    if s == [] then [] else [RawFrame(id, [1] + WithBOM(s))]
  }

  ghost function ApicRaw(t: Tags): seq<RawFrame> {
    if t.cover != [] && t.coverMime != [] then [RawFrame(APIC, ApicPayload(t.coverMime, t.cover))] else []
  }

  ghost function ChapRaw(chs: seq<Chapter>): (fs: seq<RawFrame>)
    ensures |fs| == |chs|
    ensures forall i :: 0 <= i < |chs| ==> fs[i] == RawFrame(CHAP, ChapPayload(ChapId(i), chs[i]))
  {
    seq(|chs|, i requires 0 <= i < |chs| => RawFrame(CHAP, ChapPayload(ChapId(i), chs[i])))
  }

  ghost function TocRaw(chs: seq<Chapter>): seq<RawFrame> {
    if chs == [] then [] else [RawFrame(CTOC, CtocPayload(ChapIds(|chs|)))]
  }

  ghost function TextRaws(t: Tags): seq<RawFrame> {
    TextRaw(TIT2, t.title) + TextRaw(TPE1, t.artist) + TextRaw(TALB, t.album) + TextRaw(TCON, t.genre)
  }

  ghost function AllRaw(t: Tags, chs: seq<Chapter>): seq<RawFrame> {
    TextRaws(t) + ApicRaw(t) + (ChapRaw(chs) + TocRaw(chs))
  }

  lemma LaidOne(f: RawFrame)
    ensures Laid([f]) == Frame(f.id, f.payload)
  {
    assert Laid([f][1..]) == [];
  }

  lemma TextLaid(id: Bytes, s: Text)
    ensures Laid(TextRaw(id, s)) == TextFrame(id, s)
  {
    if s != [] {
      LaidOne(RawFrame(id, [1] + WithBOM(s)));
    }
  }

  lemma TextsLaid(t: Tags)
    ensures Laid(TextRaws(t)) ==
      TextFrame(TIT2, t.title) + TextFrame(TPE1, t.artist) + TextFrame(TALB, t.album) + TextFrame(TCON, t.genre)
  {
    var a, b, c, d := TextRaw(TIT2, t.title), TextRaw(TPE1, t.artist), TextRaw(TALB, t.album), TextRaw(TCON, t.genre);
    hide TextRaw, TextFrame;
    LaidConcat(a, b);
    LaidConcat(a + b, c);
    LaidConcat(a + b + c, d);
    TextLaid(TIT2, t.title);
    TextLaid(TPE1, t.artist);
    TextLaid(TALB, t.album);
    TextLaid(TCON, t.genre);
  }

  lemma {:induction false} ChaptersLaid(chs: seq<Chapter>)
    ensures Laid(ChapRaw(chs)) == ChapFrames(chs)
  {
    hide Frame, ChapPayload;
    if chs != [] {
      var n := |chs| - 1;
      var last := RawFrame(CHAP, ChapPayload(ChapId(n), chs[n]));
      ChaptersLaid(chs[..n]);
      assert ChapRaw(chs) == ChapRaw(chs[..n]) + [last];
      LaidConcat(ChapRaw(chs[..n]), [last]);
      LaidOne(last);
    }
  }

  lemma BodyLaid(t: Tags, chs: seq<Chapter>)
    ensures Laid(AllRaw(t, chs)) == Body(t, chs)
  {
    hide TextRaws, TextFrame, ChapRaw, ChapFrames, Frame, ApicPayload, CtocPayload, Laid;
    LaidConcat(TextRaws(t) + ApicRaw(t), ChapRaw(chs) + TocRaw(chs));
    LaidConcat(TextRaws(t), ApicRaw(t));
    LaidConcat(ChapRaw(chs), TocRaw(chs));
    TextsLaid(t);
    ChaptersLaid(chs);
    LaidNothing();
    if t.cover != [] && t.coverMime != [] {
      LaidOne(RawFrame(APIC, ApicPayload(t.coverMime, t.cover)));
    }
    if chs == [] {
      NoChapters(chs);
    } else {
      LaidOne(RawFrame(CTOC, CtocPayload(ChapIds(|chs|))));
    }
  }

  lemma LaidNothing()
    ensures Laid([]) == []
  {
  }

  lemma NoChapters(chs: seq<Chapter>)
    requires chs == []
    ensures ChapRaw(chs) == [] && ChapFrames(chs) == []
  {
  }

  lemma FramedConcat(a: seq<RawFrame>, b: seq<RawFrame>)
    requires Framed(a) && Framed(b)
    ensures Framed(a + b)
  {
  }

  lemma ChapRawFramed(chs: seq<Chapter>)
    ensures Framed(ChapRaw(chs))
  {
    hide ChapPayload, ChapId;
  }

  lemma SmallFramed(t: Tags, chs: seq<Chapter>)
    ensures Framed(ApicRaw(t)) && Framed(TocRaw(chs))
  {
    hide ApicPayload, CtocPayload;
  }

  lemma TextFramed(id: Bytes, s: Text)
    requires |id| == 4
    ensures Framed(TextRaw(id, s))
  {
    hide WithBOM;
  }

  lemma TextsFramed(t: Tags)
    ensures Framed(TextRaws(t))
  {
    hide Framed, TextRaw;
    var a, b, c, d := TextRaw(TIT2, t.title), TextRaw(TPE1, t.artist), TextRaw(TALB, t.album), TextRaw(TCON, t.genre);
    TextFramed(TIT2, t.title);
    TextFramed(TPE1, t.artist);
    TextFramed(TALB, t.album);
    TextFramed(TCON, t.genre);
    FramedConcat(a, b);
    FramedConcat(a + b, c);
    FramedConcat(a + b + c, d);
  }

  lemma AllRawFramed(t: Tags, chs: seq<Chapter>)
    ensures Framed(AllRaw(t, chs))
  {
    hide Framed, TextRaws, ApicRaw, ChapRaw, TocRaw;
    TextsFramed(t);
    ChapRawFramed(chs);
    SmallFramed(t, chs);
    FramedConcat(TextRaws(t), ApicRaw(t));
    FramedConcat(ChapRaw(chs), TocRaw(chs));
    FramedConcat(TextRaws(t) + ApicRaw(t), ChapRaw(chs) + TocRaw(chs));
  }

  // ------------------------------------------------------------------
  // What the reader recovers
  // ------------------------------------------------------------------

  ghost predicate Lacks(fs: seq<RawFrame>, id: Bytes) {
    forall f :: f in fs ==> f.id != id
  }

  lemma LacksConcat(a: seq<RawFrame>, b: seq<RawFrame>, id: Bytes)
    requires Lacks(a, id) && Lacks(b, id)
    ensures Lacks(a + b, id)
  {
  }

  lemma TextLacks(kind: Bytes, s: Text, id: Bytes)
    requires kind != id
    ensures Lacks(TextRaw(kind, s), id)
  {
    hide WithBOM;
  }

  lemma ApicLacks(t: Tags, id: Bytes)
    requires APIC != id
    ensures Lacks(ApicRaw(t), id)
  {
    hide ApicPayload;
  }

  lemma ChapLacks(chs: seq<Chapter>, id: Bytes)
    requires CHAP != id
    ensures Lacks(ChapRaw(chs), id)
  {
    hide ChapPayload, ChapId;
  }

  lemma TocLacks(chs: seq<Chapter>, id: Bytes)
    requires CTOC != id
    ensures Lacks(TocRaw(chs), id)
  {
    hide CtocPayload, ChapIds;
  }

  /** Among frames of other kinds, the search sees only the middle. */
  lemma FoundAmid(before: seq<RawFrame>, mid: seq<RawFrame>, after: seq<RawFrame>, id: Bytes)
    requires Lacks(before, id) && Lacks(after, id)
    ensures Find(before + mid + after, id) == Find(mid, id)
  {
    hide Find;
    FindConcat(before + mid, after, id);
    FindConcat(before, mid, id);
    FindNone(before, id);
    FindNone(after, id);
  }

  lemma FindOne(f: RawFrame)
    ensures Find([f], f.id) == Some(f)
  {
  }

  /** A text frame is found whatever other frames stand around it. */
  lemma TextFound(before: seq<RawFrame>, id: Bytes, s: Text, after: seq<RawFrame>)
    requires Lacks(before, id) && Lacks(after, id)
    ensures TextOf(before + TextRaw(id, s) + after, id) == CutAtNul(s)
  {
    hide Find, Lacks, WithBOM, ReadText;
    FoundAmid(before, TextRaw(id, s), after, id);
    if s == [] {
      FindNone([], id);
    } else {
      FindOne(RawFrame(id, [1] + WithBOM(s)));
      TextRoundTrip(s);
    }
  }

  lemma TextsLack(t: Tags, id: Bytes)
    requires TIT2 != id && TPE1 != id && TALB != id && TCON != id
    ensures Lacks(TextRaws(t), id)
  {
    hide Lacks, TextRaw;
    var a, b, c, d := TextRaw(TIT2, t.title), TextRaw(TPE1, t.artist), TextRaw(TALB, t.album), TextRaw(TCON, t.genre);
    TextLacks(TIT2, t.title, id);
    TextLacks(TPE1, t.artist, id);
    TextLacks(TALB, t.album, id);
    TextLacks(TCON, t.genre, id);
    LacksConcat(a, b, id);
    LacksConcat(a + b, c, id);
    LacksConcat(a + b + c, d, id);
  }

  lemma BackLacks(chs: seq<Chapter>, id: Bytes)
    requires CHAP != id && CTOC != id
    ensures Lacks(ChapRaw(chs) + TocRaw(chs), id)
  {
    hide Lacks, ChapRaw, TocRaw;
    ChapLacks(chs, id);
    TocLacks(chs, id);
    LacksConcat(ChapRaw(chs), TocRaw(chs), id);
  }

  lemma RestLacks(t: Tags, chs: seq<Chapter>, id: Bytes)
    requires APIC != id && CHAP != id && CTOC != id
    ensures Lacks(ApicRaw(t) + (ChapRaw(chs) + TocRaw(chs)), id)
  {
    hide Lacks, ApicRaw, ChapRaw, TocRaw;
    ApicLacks(t, id);
    BackLacks(chs, id);
    LacksConcat(ApicRaw(t), ChapRaw(chs) + TocRaw(chs), id);
  }

  lemma OneTextFound(id: Bytes, s: Text, k1: Bytes, s1: Text, k2: Bytes, s2: Text, k3: Bytes, s3: Text,
                     rest: seq<RawFrame>)
    requires k1 != id && k2 != id && k3 != id && Lacks(rest, id)
    ensures TextOf(TextRaw(id, s) + TextRaw(k1, s1) + TextRaw(k2, s2) + TextRaw(k3, s3) + rest, id) == CutAtNul(s)
    ensures TextOf(TextRaw(k1, s1) + TextRaw(id, s) + TextRaw(k2, s2) + TextRaw(k3, s3) + rest, id) == CutAtNul(s)
    ensures TextOf(TextRaw(k1, s1) + TextRaw(k2, s2) + TextRaw(id, s) + TextRaw(k3, s3) + rest, id) == CutAtNul(s)
    ensures TextOf(TextRaw(k1, s1) + TextRaw(k2, s2) + TextRaw(k3, s3) + TextRaw(id, s) + rest, id) == CutAtNul(s)
  {
    hide Lacks, TextRaw, TextOf, CutAtNul;
    var x, a, b, c := TextRaw(id, s), TextRaw(k1, s1), TextRaw(k2, s2), TextRaw(k3, s3);
    TextLacks(k1, s1, id);
    TextLacks(k2, s2, id);
    TextLacks(k3, s3, id);
    LacksConcat(c, rest, id);
    LacksConcat(b, c + rest, id);
    LacksConcat(a, b + (c + rest), id);
    LacksConcat(a, b, id);
    LacksConcat(a + b, c, id);
    EmptyLacks(id);
    assert [] + x + (a + (b + (c + rest))) == x + a + b + c + rest;
    TextFound([], id, s, a + (b + (c + rest)));
    assert a + x + (b + (c + rest)) == a + x + b + c + rest;
    TextFound(a, id, s, b + (c + rest));
    assert a + b + x + (c + rest) == a + b + x + c + rest;
    TextFound(a + b, id, s, c + rest);
    TextFound(a + b + c, id, s, rest);
  }

  lemma EmptyLacks(id: Bytes)
    ensures Lacks([], id)
  {
  }

  lemma TextsRecovered(t: Tags, chs: seq<Chapter>)
    ensures TextOf(AllRaw(t, chs), TIT2) == CutAtNul(t.title)
    ensures TextOf(AllRaw(t, chs), TPE1) == CutAtNul(t.artist)
    ensures TextOf(AllRaw(t, chs), TALB) == CutAtNul(t.album)
    ensures TextOf(AllRaw(t, chs), TCON) == CutAtNul(t.genre)
  {
    hide TextRaw, ApicRaw, ChapRaw, TocRaw, TextOf, Lacks, CutAtNul;
    var rest := ApicRaw(t) + (ChapRaw(chs) + TocRaw(chs));
    AllRawSplit(t, chs);
    IdsDiffer();
    RestLacks(t, chs, TIT2);
    RestLacks(t, chs, TPE1);
    RestLacks(t, chs, TALB);
    RestLacks(t, chs, TCON);
    OneTextFound(TIT2, t.title, TPE1, t.artist, TALB, t.album, TCON, t.genre, rest);
    OneTextFound(TPE1, t.artist, TIT2, t.title, TALB, t.album, TCON, t.genre, rest);
    OneTextFound(TALB, t.album, TIT2, t.title, TPE1, t.artist, TCON, t.genre, rest);
    OneTextFound(TCON, t.genre, TIT2, t.title, TPE1, t.artist, TALB, t.album, rest);
  }

  lemma AllRawSplit(t: Tags, chs: seq<Chapter>)
    ensures AllRaw(t, chs) == TextRaw(TIT2, t.title) + TextRaw(TPE1, t.artist) + TextRaw(TALB, t.album)
      + TextRaw(TCON, t.genre) + (ApicRaw(t) + (ChapRaw(chs) + TocRaw(chs)))
    ensures AllRaw(t, chs) == TextRaws(t) + ApicRaw(t) + (ChapRaw(chs) + TocRaw(chs))
    ensures AllRaw(t, chs) == TextRaws(t) + ApicRaw(t) + ChapRaw(chs) + TocRaw(chs) + []
  {
    hide TextRaw, ApicRaw, ChapRaw, TocRaw;
  }

  lemma IdsDiffer()
    ensures TIT2 != TPE1 && TIT2 != TALB && TIT2 != TCON && TPE1 != TALB && TPE1 != TCON && TALB != TCON
    ensures forall id :: id in [TIT2, TPE1, TALB, TCON] ==> id != APIC && id != CHAP && id != CTOC
    ensures APIC != CHAP && APIC != CTOC && CHAP != CTOC
  {
    assert TIT2[1] == 0x49 && TPE1[1] == 0x50 && TALB[1] == 0x41 && TCON[1] == 0x43 && APIC[1] == 0x50;
    assert TIT2[0] == 0x54 && TPE1[0] == 0x54 && TALB[0] == 0x54 && TCON[0] == 0x54;
    assert APIC[0] == 0x41 && CHAP[0] == 0x43 && CTOC[0] == 0x43 && CHAP[1] == 0x48 && CTOC[1] == 0x54;
  }

  lemma {:induction false} NulAfter(b: Bytes, i: nat, k: nat)
    requires i <= k < |b| && b[k] == 0 && forall j :: i <= j < k ==> b[j] != 0
    ensures NulAt(b, i) == k
    decreases k - i
  {
    if i < k {
      NulAfter(b, i + 1, k);
    }
  }

  ghost predicate NulFree(b: Bytes) {
    forall i :: 0 <= i < |b| ==> b[i] != 0
  }

  lemma CoverPayload(mime: Bytes, data: Bytes)
    requires NulFree(mime)
    ensures |ApicPayload(mime, data)| == 4 + |mime| + |data|
    ensures NulAt(ApicPayload(mime, data), 1) == 1 + |mime|
    ensures NulAt(ApicPayload(mime, data), 3 + |mime|) == 3 + |mime|
    ensures ApicPayload(mime, data)[1..1 + |mime|] == mime && ApicPayload(mime, data)[4 + |mime|..] == data
    ensures ApicPayload(mime, data)[0] == 0 && ApicPayload(mime, data)[2 + |mime|] == 3
    ensures ReadCover(ApicPayload(mime, data)) == Some((mime, data))
  {
    var p, m := ApicPayload(mime, data), |mime|;
    assert p[1 + m] == 0 && p[3 + m] == 0;
    forall j | 1 <= j < 1 + m ensures p[j] != 0 {
      assert p[j] == mime[j - 1];
    }
    NulAfter(p, 1, 1 + m);
    NulAfter(p, 3 + m, 3 + m);
  }

  lemma CoverRecovered(t: Tags, chs: seq<Chapter>)
    requires NulFree(t.coverMime)
    ensures CoverOf(AllRaw(t, chs)) ==
      if t.cover != [] && t.coverMime != [] then Some((t.coverMime, t.cover)) else None
  {
    hide AllRaw, TextRaws, Find, ChapRaw, TocRaw, ApicPayload, NulAt, Lacks, NulFree, ReadCover;
    AllRawSplit(t, chs);
    IdsDiffer();
    TextsLack(t, APIC);
    BackLacks(chs, APIC);
    FoundAmid(TextRaws(t), ApicRaw(t), ChapRaw(chs) + TocRaw(chs), APIC);
    if t.cover != [] && t.coverMime != [] {
      FindOne(RawFrame(APIC, ApicPayload(t.coverMime, t.cover)));
      CoverPayload(t.coverMime, t.cover);
    } else {
      FindNone([], APIC);
    }
  }

  // ------------------------------------------------------------------
  // Chapters
  // ------------------------------------------------------------------

  lemma ChapIdNulFree(i: nat)
    ensures NulFree(ChapId(i))
  {
  }

  lemma ElementOf(id: Bytes, rest: Bytes)
    requires NulFree(id)
    ensures NulAt(id + [0] + rest, 0) == |id| && ElementId(id + [0] + rest) == id
  {
    var p := id + [0] + rest;
    forall j | 0 <= j < |id| ensures p[j] != 0 {
      assert p[j] == id[j];
    }
    NulAfter(p, 0, |id|);
  }

  ghost function Cut(ch: Chapter): Chapter {
    ch.(title := CutAtNul(ch.title))
  }

  lemma ChapterRoundTrip(id: Bytes, ch: Chapter)
    requires NulFree(id) && |TextFrame(TIT2, ch.title)| < 0x1_0000_0000
    ensures ElementId(ChapPayload(id, ch)) == id
    ensures ReadChapter(ChapPayload(id, ch)) == Some(Cut(ch))
  {
    hide BE32, TextFrame, FromBE32, ParseFrames, Laid, TextRaw;
    var p, k, sub := ChapPayload(id, ch), |id| + 1, TextFrame(TIT2, ch.title);
    var offsets: Bytes := [0xFF, 0xFF, 0xFF, 0xFF, 0xFF, 0xFF, 0xFF, 0xFF];
    assert p == id + [0] + (BE32(ch.startMs) + BE32(ch.endMs) + offsets + sub);
    ElementOf(id, BE32(ch.startMs) + BE32(ch.endMs) + offsets + sub);
    assert p[k..k + 4] == BE32(ch.startMs) && p[k + 4..k + 8] == BE32(ch.endMs) && p[k + 16..] == sub;
    assert p[k + 8..k + 16] == offsets;
    forall i | k + 8 <= i < k + 16 ensures p[i] == 0xFF {
      assert p[i] == offsets[i - k - 8];
    }
    BE32RoundTrip(ch.startMs);
    BE32RoundTrip(ch.endMs);
    TextLaid(TIT2, ch.title);
    OneTextFrame(ch.title);
    ParseLaid(TextRaw(TIT2, ch.title));
  }

  lemma OneTextFrame(s: Text)
    ensures Framed(TextRaw(TIT2, s)) && TextOf(TextRaw(TIT2, s), TIT2) == CutAtNul(s)
  {
    TextFound([], TIT2, s, []);
    assert [] + TextRaw(TIT2, s) + [] == TextRaw(TIT2, s);
  }

  lemma ChapIdsDiffer(i: nat, j: nat)
    requires ChapId(i) == ChapId(j)
    ensures i == j
  {
    assert ChapId(i)[3..] == Dec(i) && ChapId(j)[3..] == Dec(j);
    DecInjective(i, j);
  }

  /** The frames from `k` on hold the chapters from `k` on. */
  lemma {:induction false} ChapterFound(fs: seq<RawFrame>, chs: seq<Chapter>, k: nat, i: nat)
    requires k <= i < |chs| && |ChapRaw(chs)| == |chs|
    requires fs != [] && |fs| >= |chs| - k && forall j :: 0 <= j < |chs| - k ==> fs[j] == ChapRaw(chs)[k + j]
    requires |TextFrame(TIT2, chs[i].title)| < 0x1_0000_0000
    ensures FindChapter(fs, ChapId(i)) == Some(Cut(chs[i]))
    decreases i - k
  {
    hide ChapPayload, ElementId, ReadChapter, TextFrame;
    assert fs[0] == RawFrame(CHAP, ChapPayload(ChapId(k), chs[k]));
    ChapIdNulFree(k);
    ChapElement(k, chs[k]);
    if k == i {
      ChapterRoundTrip(ChapId(i), chs[i]);
    } else {
      if ChapId(k) == ChapId(i) {
        ChapIdsDiffer(k, i);
      }
      ChapterFound(fs[1..], chs, k + 1, i);
    }
  }

  lemma ChapElement(i: nat, ch: Chapter)
    ensures ElementId(ChapPayload(ChapId(i), ch)) == ChapId(i)
  {
    hide BE32, TextFrame, ElementId;
    var offsets: Bytes := [0xFF, 0xFF, 0xFF, 0xFF, 0xFF, 0xFF, 0xFF, 0xFF];
    var rest := BE32(ch.startMs) + BE32(ch.endMs) + offsets + TextFrame(TIT2, ch.title);
    assert ChapPayload(ChapId(i), ch) == ChapId(i) + [0] + rest;
    ChapIdNulFree(i);
    ElementOf(ChapId(i), rest);
  }

  lemma {:induction false} SkipOthers(a: seq<RawFrame>, b: seq<RawFrame>, id: Bytes)
    requires Lacks(a, CHAP)
    ensures FindChapter(a + b, id) == FindChapter(b, id)
  {
    if a == [] {
      assert a + b == b;
    } else {
      assert a[0] in a;
      SkipOthers(a[1..], b, id);
      assert (a + b)[1..] == a[1..] + b;
    }
  }

  lemma {:induction false} TerminatedFront(ids: seq<Bytes>)
    requires ids != []
    ensures Terminated(ids) == ids[0] + [0] + Terminated(ids[1..])
  {
    var n := |ids| - 1;
    if n > 0 {
      TerminatedFront(ids[..n]);
      assert ids[..n][1..] == ids[1..][..n - 1];
    } else {
      assert ids[..0] == [] && ids[1..] == [];
    }
  }

  lemma ReadIdsStep(ids: seq<Bytes>, n: nat)
    requires n > 0 && ids != [] && NulFree(ids[0])
    ensures ReadIds(Terminated(ids), n) == [ids[0]] + ReadIds(Terminated(ids[1..]), n - 1)
  {
    hide Terminated, NulFree;
    var b, rest := Terminated(ids), Terminated(ids[1..]);
    TerminatedFront(ids);
    ElementOf(ids[0], rest);
    assert b[|ids[0]| + 1..] == rest;
    assert b[..|ids[0]|] == ids[0];
  }

  lemma {:induction false} ReadIdsOf(ids: seq<Bytes>, n: nat)
    requires n <= |ids| && forall i :: 0 <= i < |ids| ==> NulFree(ids[i])
    ensures ReadIds(Terminated(ids), n) == ids[..n]
    decreases n
  {
    hide NulFree, Terminated, ReadIds;
    if n > 0 {
      ReadIdsStep(ids, n);
      ReadIdsOf(ids[1..], n - 1);
      assert ids[..n] == [ids[0]] + ids[1..][..n - 1];
    } else {
      NoIds(Terminated(ids));
    }
  }

  lemma NoIds(b: Bytes)
    ensures ReadIds(b, 0) == []
  {
  }

  lemma TocRoundTrip(ids: seq<Bytes>)
    requires forall i :: 0 <= i < |ids| ==> NulFree(ids[i])
    ensures TocIds(CtocPayload(ids)) == ids[..|ids| % 0x100]
  {
    hide Terminated;
    var p := CtocPayload(ids);
    assert p == TocId + [0] + ([3, (|ids| % 0x100) as Byte] + Terminated(ids));
    ElementOf(TocId, [3, (|ids| % 0x100) as Byte] + Terminated(ids));
    assert p[4] == 3 && p[5] == (|ids| % 0x100) as Byte && p[6..] == Terminated(ids);
    ReadIdsOf(ids, |ids| % 0x100);
  }

  lemma TocFound(t: Tags, chs: seq<Chapter>)
    ensures Find(AllRaw(t, chs), CTOC) == if chs == [] then None else Some(RawFrame(CTOC, CtocPayload(ChapIds(|chs|))))
  {
    hide AllRaw, TextRaws, ApicRaw, ChapRaw, CtocPayload, Find, Lacks, ChapIds;
    AllRawSplit(t, chs);
    IdsDiffer();
    TextsLack(t, CTOC);
    ApicLacks(t, CTOC);
    ChapLacks(chs, CTOC);
    LacksConcat(TextRaws(t), ApicRaw(t), CTOC);
    LacksConcat(TextRaws(t) + ApicRaw(t), ChapRaw(chs), CTOC);
    EmptyLacks(CTOC);
    FoundAmid(TextRaws(t) + ApicRaw(t) + ChapRaw(chs), TocRaw(chs), [], CTOC);
    if chs == [] {
      FindNone([], CTOC);
    } else {
      FindOne(RawFrame(CTOC, CtocPayload(ChapIds(|chs|))));
    }
  }

  lemma {:induction false} ChapterFits(chs: seq<Chapter>, i: nat)
    requires i < |chs|
    ensures |TextFrame(TIT2, chs[i].title)| <= |ChapFrames(chs)|
  {
    hide TextFrame;
    var n := |chs| - 1;
    if i < n {
      ChapterFits(chs[..n], i);
    }
  }

  /** Each chapter is found by its identifier among all frames. */
  lemma ChapterAmid(t: Tags, chs: seq<Chapter>, i: nat)
    requires i < |chs| && |ChapFrames(chs)| < 0x1_0000_0000
    ensures FindChapter(AllRaw(t, chs), ChapId(i)) == Some(Cut(chs[i]))
  {
    hide AllRaw, TextRaws, ApicRaw, ChapFrames, TextFrame, FindChapter, ChapPayload, ChapId, Cut, Lacks;
    var front, back := TextRaws(t) + ApicRaw(t), ChapRaw(chs) + TocRaw(chs);
    AllRawSplit(t, chs);
    IdsDiffer();
    TextsLack(t, CHAP);
    ApicLacks(t, CHAP);
    LacksConcat(TextRaws(t), ApicRaw(t), CHAP);
    SkipOthers(front, back, ChapId(i));
    ChapterFits(chs, i);
    ChapterFound(back, chs, 0, i);
  }

  /** The whole list of chapters up to 255 of them and otherwise the remainder
      modulo 256, as the table of contents counts them in one byte. */
  ghost predicate ChaptersRead(got: seq<Option<Chapter>>, chs: seq<Chapter>) {
    && |got| == |chs| % 0x100
    && forall i :: 0 <= i < |got| ==> got[i] == Some(Cut(chs[i]))
  }

  lemma BodyHolds(t: Tags, chs: seq<Chapter>)
    ensures chs != [] ==> |ChapFrames(chs)| <= |Body(t, chs)|
  {
    hide TextFrame, Frame, ChapFrames, CtocPayload, ApicPayload;
  }

  /** The chapters come back in the order of the table of contents with their
      times and titles. */
  lemma ChaptersRecovered(t: Tags, chs: seq<Chapter>)
    requires |Body(t, chs)| < 0x1000_0000
    ensures ChaptersRead(ChaptersOf(AllRaw(t, chs)), chs)
  {
    hide Body, AllRaw, CtocPayload, TocIds, FindChapter, Find, ChapFrames, ChapId, NulFree, Cut;
    TocFound(t, chs);
    if chs != [] {
      forall i | 0 <= i < |chs| ensures NulFree(ChapIds(|chs|)[i]) {
        ChapIdNulFree(i);
      }
      TocRoundTrip(ChapIds(|chs|));
      BodyHolds(t, chs);
      forall i | 0 <= i < |chs| % 0x100 ensures FindChapter(AllRaw(t, chs), ChapId(i)) == Some(Cut(chs[i])) {
        ChapterAmid(t, chs, i);
      }
    }
  }

  /** The identifiers are the standard's. */
  lemma FrameIds()
    ensures TIT2 == Ascii("TIT2") && TPE1 == Ascii("TPE1") && TALB == Ascii("TALB") && TCON == Ascii("TCON")
    ensures APIC == Ascii("APIC") && CHAP == Ascii("CHAP") && CTOC == Ascii("CTOC")
    ensures Mp3.Id3 == Ascii("ID3") && Mp3.Tag == Ascii("TAG")
  {
  }

  /** Everything a player shows: every text (up to a null in it), the cover,
      and the chapters. */
  ghost predicate Recovered(fs: seq<RawFrame>, t: Tags, chs: seq<Chapter>) {
    && TextOf(fs, Ascii("TIT2")) == CutAtNul(t.title) && TextOf(fs, Ascii("TPE1")) == CutAtNul(t.artist)
    && TextOf(fs, Ascii("TALB")) == CutAtNul(t.album) && TextOf(fs, Ascii("TCON")) == CutAtNul(t.genre)
    && CoverOf(fs) == (if t.cover != [] && t.coverMime != [] then Some((t.coverMime, t.cover)) else None)
    && ChaptersRead(ChaptersOf(fs), chs)
  }

  lemma AllRecovered(t: Tags, chs: seq<Chapter>)
    requires |Body(t, chs)| < 0x1000_0000 && NulFree(t.coverMime)
    ensures Recovered(AllRaw(t, chs), t, chs)
  {
    hide AllRaw, Body, TextOf, CoverOf, ChaptersOf, ChaptersRead, Ascii;
    FrameIds();
    TextsRecovered(t, chs);
    CoverRecovered(t, chs);
    ChaptersRecovered(t, chs);
  }

  lemma ReadTagOf(b: Bytes, n: nat)
    requires |b| >= 10 + n && b[..3] == Mp3.Id3 && b[3] == 3 && b[4] == 0 && b[5] == 0 && Mp3.Unsyncsafe(b[6..10]) == n
    ensures ReadTag(b) == ParseFrames(b[10..10 + n])
  {
    hide ParseFrames, Mp3.Unsyncsafe;
  }

  lemma TagLayout(body: Bytes, audio: Bytes)
    requires |body| < 0x1000_0000
    ensures ReadTag(TagOf(body) + audio) == ParseFrames(body)
  {
    hide *;
    SyncsafeRoundTrip(|body|);
    TagShape(body, audio);
    ReadTagOf(TagOf(body) + audio, |body|);
  }

  /** A file written as tag and audio parses into frames that hold what was
      written. */
  lemma TagReadsBack(t: Tags, chs: seq<Chapter>, audio: Bytes)
    requires |Body(t, chs)| < 0x1000_0000 && NulFree(t.coverMime)
    ensures ReadTag(TagOf(Body(t, chs)) + audio) == Some(AllRaw(t, chs))
    ensures Recovered(AllRaw(t, chs), t, chs)
  {
    hide AllRaw, Body, TagOf, ReadTag, ParseFrames, Recovered;
    TagLayout(Body(t, chs), audio);
    BodyLaid(t, chs);
    AllRawFramed(t, chs);
    ParseLaid(AllRaw(t, chs));
    AllRecovered(t, chs);
  }
}
