/** Replacing the metadata of an OPF document in place. */
module Opf {
  import opened Common
  import opened Decimal
  import opened Utf16
  import Utf8

  datatype Input = Input(title: Text, subtitle: Text, author: Text, description: Text, language: Text, publisher: Text,
                         publishedDate: Text, isbn: Text, series: Text, seriesIndex: int,
                         tags: seq<Text>, genres: seq<Text>)

  // ------------------------------------------------------------------
  // The new children
  // ------------------------------------------------------------------

  /** One line of the block: an open tag up to its value, the escaped value,
      and the rest of the element. */
  datatype Line = Line(open: string, value: Bytes, close: string)

  function LineText(l: Line): Bytes {
    Ascii(l.open) + l.value + Ascii(l.close)
  }

  /** `tag` may carry attributes; the close tag is its name. */
  function Element(name: string, attrs: string, value: Bytes): Line {
    Line("    <" + (name + attrs) + ">", value, "</" + name + ">\n")
  }

  function Simple(name: string, attrs: string, value: Text): seq<Line> {
    if value == [] then [] else [Element(name, attrs, Utf8.Escape(value))]
  }

  function SubtitleLines(x: Input): seq<Line> {
    if x.subtitle == [] then []
    else [Element("dc:title", " id=\"subtitle\"", Utf8.Escape(x.subtitle)),
          Element("meta", " refines=\"#subtitle\"" + " property=\"title-type\"", Ascii("subtitle"))]
  }

  function SeriesLines(x: Input): seq<Line> {
    if x.series == [] then []
    else
      [Element("meta", " property=" + "\"belongs-to-collection\"" + " id=\"series\"", Utf8.Escape(x.series))]
      + (if x.seriesIndex > 0 then
           [Element("meta", " refines=\"#series\"" + " property=" + "\"group-position\"", Dec(x.seriesIndex))] else [])
      + [Line("    <" + ("meta name=" + "\"calibre:series\"" + " content=\""), Utf8.Escape(x.series), "\"/>\n")]
      + (if x.seriesIndex > 0 then
           [Line("    <" + ("meta name=" + "\"calibre:series_index\"" + " content=\""), Dec(x.seriesIndex), "\"/>\n")]
         else [])
  }

  function WordLines(kind: string, word: Text): seq<Line> {
    if word == [] then []
    else [Element("meta", " property=" + ("\"embookshelf:" + kind + "\""), Utf8.Escape(word)),
          Element("dc:subject", "", Utf8.Escape(word))]
  }

  function WordsLines(kind: string, words: seq<Text>): seq<Line> {
    if words == [] then [] else WordsLines(kind, words[..|words| - 1]) + WordLines(kind, words[|words| - 1])
  }

  function PlainLines(x: Input): seq<Line> {
    Simple("dc:creator", "", x.author) + Simple("dc:description", "", x.description)
    + Simple("dc:language", "", x.language) + Simple("dc:publisher", "", x.publisher)
    + Simple("dc:date", "", x.publishedDate) + Simple("dc:identifier", " opf:scheme=\"ISBN\"", x.isbn)
  }

  function Lines(x: Input): seq<Line> {
    Simple("dc:title", "", x.title) + SubtitleLines(x) + PlainLines(x) + SeriesLines(x)
    + WordsLines("tag", x.tags) + WordsLines("genre", x.genres)
  }

  function Render(ls: seq<Line>): Bytes {
    if ls == [] then [] else Render(ls[..|ls| - 1]) + LineText(ls[|ls| - 1])
  }

  lemma RenderLast(ls: seq<Line>, l: Line)
    ensures Render(ls + [l]) == Render(ls) + LineText(l)
  {
    hide LineText;
    assert (ls + [l])[..|ls|] == ls;
  }

  lemma {:induction false} RenderConcat(a: seq<Line>, b: seq<Line>)
    ensures Render(a + b) == Render(a) + Render(b)
  {
    hide LineText, Render;
    if b == [] {
      assert a + b == a;
      RenderNothing();
    } else {
      var front, l := b[..|b| - 1], b[|b| - 1];
      RenderConcat(a, front);
      RenderLast(a + front, l);
      RenderLast(front, l);
      assert b == front + [l] && a + b == a + front + [l];
    }
  }

  method WriteWords(buf: Bytes, kind: string, words: seq<Text>) returns (out: Bytes)
    ensures out == buf + Render(WordsLines(kind, words))
  {
    hide Render, WordLines;
    out := buf;
    assert words[..0] == [];
    RenderNothing();
    for i := 0 to |words|
      invariant out == buf + Render(WordsLines(kind, words[..i]))
    {
      assert words[..i + 1][..i] == words[..i];
      RenderConcat(WordsLines(kind, words[..i]), WordLines(kind, words[i]));
      out := out + Render(WordLines(kind, words[i]));
    }
    assert words[..|words|] == words;
  }

  lemma RenderNothing()
    ensures Render([]) == []
  {
  }

  method WriteMetadataBody(x: Input) returns (out: Bytes)
    ensures out == Render(Lines(x))
  {
    hide Render, Simple, SubtitleLines, PlainLines, SeriesLines, WordsLines;
    var a, b, c, d := Simple("dc:title", "", x.title), SubtitleLines(x), PlainLines(x), SeriesLines(x);
    out := Render(a);
    out := out + Render(b);
    RenderConcat(a, b);
    out := out + Render(c);
    RenderConcat(a + b, c);
    out := out + Render(d);
    RenderConcat(a + b + c, d);
    out := WriteWords(out, "tag", x.tags);
    RenderConcat(a + b + c + d, WordsLines("tag", x.tags));
    out := WriteWords(out, "genre", x.genres);
    RenderConcat(a + b + c + d + WordsLines("tag", x.tags), WordsLines("genre", x.genres));
  }

  // ------------------------------------------------------------------
  // The replacement
  // ------------------------------------------------------------------

  datatype OpfError = NoOpenTag | NoCloseTag

  const OpenTag: Bytes := Ascii("<metadata")
  const CloseTag: Bytes := Ascii("</metadata>")

  /** The first place from `i` on where `pat` stands. */
  function IndexFrom(b: Bytes, pat: Bytes, i: nat): (r: Option<nat>)
    requires i <= |b|
    ensures r.Some? ==> i <= r.value && StandsAt(b, r.value, pat)
    ensures forall j :: i <= j < (if r.Some? then r.value else |b| + 1) ==> !StandsAt(b, j, pat)
    decreases |b| - i
  {
    if StandsAt(b, i, pat) then Some(i) else if i == |b| then None else IndexFrom(b, pat, i + 1)
  }

  /** Where the pieces of a document lie: the open tag, the end of its first
      `>`, and the first close tag after it. */
  datatype Place = Place(open: nat, tagEnd: nat, close: nat)

  function Locate(doc: Bytes): (r: Result<Place, OpfError>)
    ensures r.Ok? ==> r.value.open < r.value.tagEnd <= r.value.close + 11 <= |doc|
  {
    match IndexFrom(doc, OpenTag, 0)
    case None => Err(NoOpenTag)
    case Some(open) =>
      match IndexFrom(doc, CloseTag, open)
      case None => Err(NoCloseTag)
      case Some(close) =>
        CloseTagEnds(doc, close);
        Ok(Place(open, IndexFrom(doc, [0x3E], open).value + 1, close))
  }

  /** A close tag holds a `>`, so the open tag always ends. */
  lemma CloseTagEnds(doc: Bytes, close: nat)
    requires StandsAt(doc, close, CloseTag)
    ensures StandsAt(doc, close + 10, [0x3E])
  {
    hide Ascii;
    assert doc[close + 10] == doc[close..close + 11][10];
    assert CloseTag[10] == 0x3E;
  }

  const Indent: Bytes := [0x20, 0x20]

  function Mutate(doc: Bytes, x: Input): Result<Bytes, OpfError> {
    match Locate(doc)
    case Err(e) => Err(e)
    case Ok(p) =>
      Ok(doc[..p.open] + (doc[p.open..p.tagEnd] + ([0x0A] + Render(Lines(x)) + Indent + CloseTag)) + doc[p.close + 11..])
  }

  method MutateOPF(original: Bytes, x: Input) returns (r: Result<Bytes, OpfError>)
    ensures r == Mutate(original, x)
  {
    hide Ascii, Render, Lines, IndexFrom;
    var openIdx := IndexFrom(original, OpenTag, 0);
    if openIdx == None {
      return Err(NoOpenTag);
    }
    var closeIdx := IndexFrom(original, CloseTag, openIdx.value);
    if closeIdx == None {
      return Err(NoCloseTag);
    }
    var after := closeIdx.value + 11;
    var gt := IndexFrom(original, [0x3E], openIdx.value);
    CloseTagEnds(original, closeIdx.value);
    var openTagEnd := gt.value + 1;
    var buf := original[..openIdx.value];
    buf := buf + original[openIdx.value..openTagEnd];
    buf := buf + [0x0A];
    var body := WriteMetadataBody(x);
    buf := buf + body;
    buf := buf + Indent + CloseTag;
    buf := buf + original[after..];
    assert buf == original[..openIdx.value] + (original[openIdx.value..openTagEnd]
      + ([0x0A] + body + Indent + CloseTag)) + original[after..];
    return Ok(buf);
  }
}
