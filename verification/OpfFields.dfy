/** Every field of an embed is found under its own name in the children that are
    written. */
module OpfFields {
  import opened Common
  import opened Decimal
  import opened Utf16
  import opened Opf
  import opened OpfReader
  import Utf8

  // ------------------------------------------------------------------
  // Names
  // ------------------------------------------------------------------

  datatype Field =
    | Title | Subtitle | SubtitleKind | Creator | Description | Language | Publisher | Date | Isbn
    | Series | Position | CalibreSeries | CalibreIndex | ShelfTag | ShelfGenre | Subject

  /** The element a field is kept in, with what tells it from others of its name. */
  function Tag(f: Field): string {
    match f
    case Title => "dc:title"
    case Subtitle => "dc:title" + " id=\"subtitle\""
    case SubtitleKind => "meta" + (" refines=\"#subtitle\"" + " property=\"title-type\"")
    case Creator => "dc:creator"
    case Description => "dc:description"
    case Language => "dc:language"
    case Publisher => "dc:publisher"
    case Date => "dc:date"
    case Isbn => "dc:identifier" + " opf:scheme=\"ISBN\""
    case Series => "meta" + (" property=" + "\"belongs-to-collection\"" + " id=\"series\"")
    case Position => "meta" + (" refines=\"#series\"" + " property=" + "\"group-position\"")
    case CalibreSeries => "meta name=" + "\"calibre:series\"" + " content=\""
    case CalibreIndex => "meta name=" + "\"calibre:series_index\"" + " content=\""
    case ShelfTag => "meta" + (" property=" + ("\"embookshelf:" + "tag" + "\""))
    case ShelfGenre => "meta" + (" property=" + ("\"embookshelf:" + "genre" + "\""))
    case Subject => "dc:subject"
  }

  /** Enough of a tag to tell it from the others. */
  function Mark(s: string): (nat, char) {
    (|s|, if |s| > 3 then s[3] else ' ')
  }

  function MarkOf(f: Field): (nat, char) {
    match f
    case Title => (8, 't')
    case Subtitle => (22, 't')
    case SubtitleKind => (46, 'a')
    case Creator => (10, 'c')
    case Description => (14, 'd')
    case Language => (11, 'l')
    case Publisher => (12, 'p')
    case Date => (7, 'd')
    case Isbn => (31, 'i')
    case Series => (49, 'a')
    case Position => (48, 'a')
    case CalibreSeries => (36, 'a')
    case CalibreIndex => (42, 'a')
    case ShelfTag => (31, 'a')
    case ShelfGenre => (33, 'a')
    case Subject => (10, 's')
  }

  lemma TagMark(f: Field)
    ensures Mark(Tag(f)) == MarkOf(f)
  {
  }

  lemma TagsDiffer(f: Field, g: Field)
    ensures Tag(f) == Tag(g) <==> f == g
  {
    TagMark(f);
    TagMark(g);
    hide Tag;
  }

  // ------------------------------------------------------------------
  // What is found under a name
  // ------------------------------------------------------------------

  /** The texts of the elements of a field, unescaped, in order. */
  function Under(items: seq<Item>, f: Field): seq<Bytes> {
    if items == [] then []
    else (if items[0].0 == Tag(f) then [Utf8.Unescape(items[0].1)] else []) + Under(items[1..], f)
  }

  /** A text that is not empty, as XML may carry it. */
  function One(t: Text): seq<Bytes> {
    if t == [] then [] else [Utf8.Encode(Utf8.Clean(t))]
  }

  /** Those of the words that are not empty. */
  function Words(ws: seq<Text>): seq<Bytes> {
    if ws == [] then [] else Words(ws[..|ws| - 1]) + One(ws[|ws| - 1])
  }

  function Index(x: Input): seq<Bytes> {
    if x.series != [] && x.seriesIndex > 0 then [Dec(x.seriesIndex)] else []
  }

  /** What an embed is to leave under each name. */
  function Kept(x: Input, f: Field): seq<Bytes> {
    match f
    case Title => One(x.title)
    case Subtitle => One(x.subtitle)
    case SubtitleKind => if x.subtitle == [] then [] else [Ascii("subtitle")]
    case Creator => One(x.author)
    case Description => One(x.description)
    case Language => One(x.language)
    case Publisher => One(x.publisher)
    case Date => One(x.publishedDate)
    case Isbn => One(x.isbn)
    case Series => One(x.series)
    case Position => Index(x)
    case CalibreSeries => One(x.series)
    case CalibreIndex => Index(x)
    case ShelfTag => Words(x.tags)
    case ShelfGenre => Words(x.genres)
    case Subject => Words(x.tags) + Words(x.genres)
  }

  /** Items by field, their texts still escaped. */
  type Marked = seq<(Field, Bytes)>

  function AsItems(ms: Marked): (items: seq<Item>)
    ensures |items| == |ms| && forall i :: 0 <= i < |ms| ==> items[i] == (Tag(ms[i].0), ms[i].1)
  {
    seq(|ms|, i requires 0 <= i < |ms| => (Tag(ms[i].0), ms[i].1))
  }

  function Of(ms: Marked, f: Field): seq<Bytes> {
    if ms == [] then [] else Here(ms[0], f) + Of(ms[1..], f)
  }

  function Here(m: (Field, Bytes), f: Field): seq<Bytes> {
    if m.0 == f then [Utf8.Unescape(m.1)] else []
  }

  lemma {:induction false} UnderIsOf(ms: Marked, f: Field)
    ensures Under(AsItems(ms), f) == Of(ms, f)
  {
    hide Tag, Utf8.Unescape;
    if ms != [] {
      TagsDiffer(ms[0].0, f);
      UnderIsOf(ms[1..], f);
      assert AsItems(ms)[1..] == AsItems(ms[1..]);
    }
  }

  lemma {:induction false} OfConcat(a: Marked, b: Marked, f: Field)
    ensures Of(a + b, f) == Of(a, f) + Of(b, f)
  {
    hide Here;
    if a == [] {
      assert a + b == b;
    } else {
      OfConcat(a[1..], b, f);
      ConcatStep(a, b);
      Associate(Here(a[0], f), Of(a[1..], f), Of(b, f));
    }
  }

  lemma OfOne(g: Field, v: Bytes, f: Field)
    ensures Of([(g, v)], f) == if g == f then [Utf8.Unescape(v)] else []
  {
    hide Utf8.Unescape;
    assert [(g, v)][1..] == [];
  }

  /** The lines are those items. */
  ghost predicate Holds(ls: seq<Line>, ms: Marked) {
    Gives(ls, AsItems(ms))
  }

  lemma HoldsConcat(a: seq<Line>, x: Marked, b: seq<Line>, y: Marked)
    requires Holds(a, x) && Holds(b, y)
    ensures Holds(a + b, x + y)
  {
    hide Gives, Tag;
    GivesConcat(a, AsItems(x), b, AsItems(y));
    assert AsItems(x + y) == AsItems(x) + AsItems(y);
  }

  lemma HoldsNone()
    ensures Holds([], [])
  {
    hide Gives;
    GivesNone();
    assert AsItems([]) == [];
  }

  lemma HoldsElement(f: Field, name: string, attrs: string, value: Bytes)
    requires Named(name, attrs) && 0x3C !in value && name + attrs == Tag(f)
    ensures Holds([Element(name, attrs, value)], [(f, value)])
  {
    hide Gives, Element, Named, Tag;
    ElementGives(name, attrs, value);
    assert AsItems([(f, value)]) == [(name + attrs, value)];
  }

  lemma HoldsEmpty(f: Field, head: string, value: Bytes)
    requires Safe(head) && head != "" && head[|head| - 1] == '"' && 0x22 !in value && 0x3E !in value && head == Tag(f)
    ensures Holds([Line("    <" + head, value, "\"/>\n")], [(f, value)])
  {
    hide Gives, Safe, Tag;
    EmptyGives(head, value);
    assert AsItems([(f, value)]) == [(head, value)];
  }

  // ------------------------------------------------------------------
  // The names that are written
  // ------------------------------------------------------------------

  lemma SafeNames()
    ensures Named("dc:title", "") && Named("dc:creator", "") && Named("dc:description", "")
  {
  }

  lemma SafeMoreNames()
    ensures Named("dc:language", "") && Named("dc:publisher", "") && Named("dc:date", "") && Named("dc:subject", "")
  {
  }

  lemma SafeParts()
    ensures Safe("meta") && Safe("dc:identifier") && Safe(" property=") && Safe(" id=\"series\"")
    ensures ' ' !in "meta" && ' ' !in "dc:identifier"
  {
  }

  lemma SafeScheme()
    ensures Named("dc:title", " id=\"subtitle\"") && Named("dc:identifier", " opf:scheme=\"ISBN\"")
  {
  }

  lemma SafeSubtitle()
    ensures Named("meta", " refines=\"#subtitle\"" + " property=\"title-type\"")
  {
    SafeSubtitleParts();
    SafeParts();
    SafeConcat(" refines=\"#subtitle\"", " property=\"title-type\"");
  }

  lemma SafeSubtitleParts()
    ensures Safe(" refines=\"#subtitle\"") && Safe(" property=\"title-type\"")
  {
  }

  lemma SafeCollection()
    ensures Safe("\"belongs-to-collection\"") && Safe(" refines=\"#series\"") && Safe("\"group-position\"")
  {
  }

  lemma SafeSeries()
    ensures Named("meta", " property=" + "\"belongs-to-collection\"" + " id=\"series\"")
    ensures Named("meta", " refines=\"#series\"" + " property=" + "\"group-position\"")
  {
    SafeParts();
    SafeCollection();
    hide Safe;
    SafeConcat(" property=", "\"belongs-to-collection\"");
    SafeConcat(" property=" + "\"belongs-to-collection\"", " id=\"series\"");
    SafeConcat(" refines=\"#series\"", " property=");
    SafeConcat(" refines=\"#series\"" + " property=", "\"group-position\"");
  }

  lemma SafeCalibreParts()
    ensures Safe("meta name=") && Safe("\"calibre:series\"") && Safe("\"calibre:series_index\"") && Safe(" content=\"")
  {
  }

  lemma SafeCalibre()
    ensures Safe("meta name=" + "\"calibre:series\"" + " content=\"")
    ensures Safe("meta name=" + "\"calibre:series_index\"" + " content=\"")
  {
    hide Safe;
    SafeCalibreParts();
    SafeConcat("meta name=", "\"calibre:series\"");
    SafeConcat("meta name=" + "\"calibre:series\"", " content=\"");
    SafeConcat("meta name=", "\"calibre:series_index\"");
    SafeConcat("meta name=" + "\"calibre:series_index\"", " content=\"");
  }

  lemma SafeShelfParts()
    ensures Safe("\"embookshelf:") && Safe("tag") && Safe("genre") && Safe("\"")
  {
  }

  lemma SafeShelf(kind: string)
    requires kind == "tag" || kind == "genre"
    ensures Named("meta", " property=" + ("\"embookshelf:" + kind + "\""))
  {
    SafeParts();
    SafeShelfParts();
    hide Safe;
    SafeConcat("\"embookshelf:", kind);
    SafeConcat("\"embookshelf:" + kind, "\"");
    SafeConcat(" property=", "\"embookshelf:" + kind + "\"");
  }

  // ------------------------------------------------------------------
  // The values that are written
  // ------------------------------------------------------------------

  lemma {:induction false} EscapeIsQuiet(s: Text)
    ensures 0x3C !in Utf8.Escape(s) && 0x3E !in Utf8.Escape(s) && 0x22 !in Utf8.Escape(s)
  {
    hide Utf8.EscapeRune;
    if s != [] {
      Utf8.RuneIsQuiet(s[0]);
      EscapeIsQuiet(s[1..]);
    }
  }

  lemma UnescapePlain(b: Bytes)
    requires 0x26 !in b
    ensures Utf8.Unescape(b) == b
  {
    hide Utf8.Unescape;
    Utf8.PlainBytes(b, []);
    assert b + [] == b;
    Utf8.UnescapeNothing();
  }

  lemma DigitsAreQuiet(n: nat)
    ensures 0x3C !in Dec(n) && 0x3E !in Dec(n) && 0x22 !in Dec(n) && Utf8.Unescape(Dec(n)) == Dec(n)
  {
    hide Dec, Utf8.Unescape;
    forall i | 0 <= i < |Dec(n)| ensures Dec(n)[i] !in {0x3C, 0x3E, 0x22, 0x26} {
      assert IsDigit(Dec(n)[i]);
    }
    UnescapePlain(Dec(n));
  }

  lemma WordIsQuiet()
    ensures 0x3C !in Ascii("subtitle") && 0x26 !in Ascii("subtitle")
  {
  }

  /** A text under one name. */
  function Lone(f: Field, t: Text): Marked {
    if t == [] then [] else [(f, Utf8.Escape(t))]
  }

  lemma LoneOf(g: Field, t: Text, f: Field)
    ensures Of(Lone(g, t), f) == if g == f then One(t) else []
  {
    hide Utf8.Unescape, Utf8.Escape;
    if t != [] {
      OfOne(g, Utf8.Escape(t), f);
      Utf8.EscapeReadsBack(t);
    }
  }

  lemma LoneHolds(f: Field, name: string, attrs: string, t: Text)
    requires Named(name, attrs) && name + attrs == Tag(f)
    ensures Holds(Simple(name, attrs, t), Lone(f, t))
  {
    hide Holds, Named, Tag, Utf8.Escape, Element;
    if t == [] {
      HoldsNone();
    } else {
      EscapeIsQuiet(t);
      HoldsElement(f, name, attrs, Utf8.Escape(t));
    }
  }

  // ------------------------------------------------------------------
  // The groups of lines
  // ------------------------------------------------------------------

  function SubtitleItems(x: Input): Marked {
    if x.subtitle == [] then [] else [(Subtitle, Utf8.Escape(x.subtitle))] + [(SubtitleKind, Ascii("subtitle"))]
  }

  lemma SubtitleHolds(x: Input)
    ensures Holds(SubtitleLines(x), SubtitleItems(x))
  {
    hide Holds, Named, Utf8.Escape, Element;
    if x.subtitle == [] {
      HoldsNone();
    } else {
      var v, w := Utf8.Escape(x.subtitle), Ascii("subtitle");
      EscapeIsQuiet(x.subtitle);
      WordIsQuiet();
      SafeScheme();
      SafeSubtitle();
      HoldsElement(Subtitle, "dc:title", " id=\"subtitle\"", v);
      HoldsElement(SubtitleKind, "meta", " refines=\"#subtitle\"" + " property=\"title-type\"", w);
      HoldsConcat([Element("dc:title", " id=\"subtitle\"", v)], [(Subtitle, v)],
                  [Element("meta", " refines=\"#subtitle\"" + " property=\"title-type\"", w)], [(SubtitleKind, w)]);
      assert SubtitleLines(x) == [Element("dc:title", " id=\"subtitle\"", v)]
        + [Element("meta", " refines=\"#subtitle\"" + " property=\"title-type\"", w)];
    }
  }

  lemma SubtitleOf(x: Input, f: Field)
    ensures Of(SubtitleItems(x), f) ==
      if f == Subtitle then One(x.subtitle)
      else if f == SubtitleKind && x.subtitle != [] then [Ascii("subtitle")] else []
  {
    hide Utf8.Unescape, Utf8.Escape, Ascii;
    if x.subtitle != [] {
      Utf8.EscapeReadsBack(x.subtitle);
      WordIsQuiet();
      UnescapePlain(Ascii("subtitle"));
      OfConcat([(Subtitle, Utf8.Escape(x.subtitle))], [(SubtitleKind, Ascii("subtitle"))], f);
      OfOne(Subtitle, Utf8.Escape(x.subtitle), f);
      OfOne(SubtitleKind, Ascii("subtitle"), f);
    }
  }

  function PlainItems(x: Input): Marked {
    Lone(Creator, x.author) + Lone(Description, x.description) + Lone(Language, x.language)
    + Lone(Publisher, x.publisher) + Lone(Date, x.publishedDate) + Lone(Isbn, x.isbn)
  }

  lemma PlainHolds(x: Input)
    ensures Holds(PlainLines(x), PlainItems(x))
  {
    hide Holds, Named, Lone, Simple;
    SafeNames();
    SafeMoreNames();
    SafeScheme();
    EmptyAttrs();
    LoneHolds(Creator, "dc:creator", "", x.author);
    LoneHolds(Description, "dc:description", "", x.description);
    LoneHolds(Language, "dc:language", "", x.language);
    LoneHolds(Publisher, "dc:publisher", "", x.publisher);
    LoneHolds(Date, "dc:date", "", x.publishedDate);
    LoneHolds(Isbn, "dc:identifier", " opf:scheme=\"ISBN\"", x.isbn);
    var a, b, c := Simple("dc:creator", "", x.author), Simple("dc:description", "", x.description), Simple("dc:language", "", x.language);
    var d, e := Simple("dc:publisher", "", x.publisher), Simple("dc:date", "", x.publishedDate);
    var g := Simple("dc:identifier", " opf:scheme=\"ISBN\"", x.isbn);
    var i, j, k, l := Lone(Creator, x.author), Lone(Description, x.description), Lone(Language, x.language), Lone(Publisher, x.publisher);
    var m, n := Lone(Date, x.publishedDate), Lone(Isbn, x.isbn);
    HoldsConcat(a, i, b, j);
    HoldsConcat(a + b, i + j, c, k);
    HoldsConcat(a + b + c, i + j + k, d, l);
    HoldsConcat(a + b + c + d, i + j + k + l, e, m);
    HoldsConcat(a + b + c + d + e, i + j + k + l + m, g, n);
  }

  /** Tags without attributes. */
  lemma EmptyAttrs()
    ensures "dc:title" + "" == Tag(Title) && "dc:creator" + "" == Tag(Creator) && "dc:description" + "" == Tag(Description)
    ensures "dc:language" + "" == Tag(Language) && "dc:publisher" + "" == Tag(Publisher) && "dc:date" + "" == Tag(Date)
    ensures "dc:subject" + "" == Tag(Subject)
  {
  }

  lemma PlainOf(x: Input, f: Field)
    ensures Of(PlainItems(x), f) ==
      match f
      case Creator => One(x.author)
      case Description => One(x.description)
      case Language => One(x.language)
      case Publisher => One(x.publisher)
      case Date => One(x.publishedDate)
      case Isbn => One(x.isbn)
      case _ => []
  {
    hide Lone, One;
    var i, j, k, l := Lone(Creator, x.author), Lone(Description, x.description), Lone(Language, x.language), Lone(Publisher, x.publisher);
    var m, n := Lone(Date, x.publishedDate), Lone(Isbn, x.isbn);
    OfConcat(i, j, f);
    OfConcat(i + j, k, f);
    OfConcat(i + j + k, l, f);
    OfConcat(i + j + k + l, m, f);
    OfConcat(i + j + k + l + m, n, f);
    LoneOf(Creator, x.author, f);
    LoneOf(Description, x.description, f);
    LoneOf(Language, x.language, f);
    LoneOf(Publisher, x.publisher, f);
    LoneOf(Date, x.publishedDate, f);
    LoneOf(Isbn, x.isbn, f);
  }

  function IndexItems(f: Field, x: Input): Marked {
    if x.seriesIndex > 0 then [(f, Dec(x.seriesIndex))] else []
  }

  function SeriesItems(x: Input): Marked {
    if x.series == [] then []
    else
      [(Series, Utf8.Escape(x.series))] + IndexItems(Position, x)
      + [(CalibreSeries, Utf8.Escape(x.series))] + IndexItems(CalibreIndex, x)
  }

  lemma PositionHolds(x: Input)
    ensures Holds(if x.seriesIndex > 0 then
                    [Element("meta", " refines=\"#series\"" + " property=" + "\"group-position\"", Dec(x.seriesIndex))] else [],
                  IndexItems(Position, x))
  {
    hide Holds, Named, Element;
    if x.seriesIndex > 0 {
      DigitsAreQuiet(x.seriesIndex);
      SafeSeries();
      HoldsElement(Position, "meta", " refines=\"#series\"" + " property=" + "\"group-position\"", Dec(x.seriesIndex));
    } else {
      HoldsNone();
    }
  }

  lemma CalibreIndexHolds(x: Input)
    ensures Holds(if x.seriesIndex > 0 then
                    [Line("    <" + ("meta name=" + "\"calibre:series_index\"" + " content=\""), Dec(x.seriesIndex), "\"/>\n")]
                  else [],
                  IndexItems(CalibreIndex, x))
  {
    hide Holds, Safe;
    if x.seriesIndex > 0 {
      DigitsAreQuiet(x.seriesIndex);
      SafeCalibre();
      HoldsEmpty(CalibreIndex, "meta name=" + "\"calibre:series_index\"" + " content=\"", Dec(x.seriesIndex));
    } else {
      HoldsNone();
    }
  }

  lemma NamesHold(v: Bytes)
    requires 0x3C !in v && 0x3E !in v && 0x22 !in v
    ensures Holds([Element("meta", " property=" + "\"belongs-to-collection\"" + " id=\"series\"", v)], [(Series, v)])
    ensures Holds([Line("    <" + ("meta name=" + "\"calibre:series\"" + " content=\""), v, "\"/>\n")], [(CalibreSeries, v)])
  {
    hide Holds, Named, Safe, Element;
    SafeSeries();
    SafeCalibre();
    HoldsElement(Series, "meta", " property=" + "\"belongs-to-collection\"" + " id=\"series\"", v);
    HoldsEmpty(CalibreSeries, "meta name=" + "\"calibre:series\"" + " content=\"", v);
  }

  lemma SeriesHolds(x: Input)
    ensures Holds(SeriesLines(x), SeriesItems(x))
  {
    hide Holds, Element, IndexItems, Utf8.Escape, Dec;
    if x.series == [] {
      HoldsNone();
    } else {
      var v := Utf8.Escape(x.series);
      EscapeIsQuiet(x.series);
      NamesHold(v);
      PositionHolds(x);
      CalibreIndexHolds(x);
      var a := [Element("meta", " property=" + "\"belongs-to-collection\"" + " id=\"series\"", v)];
      var b := if x.seriesIndex > 0 then
        [Element("meta", " refines=\"#series\"" + " property=" + "\"group-position\"", Dec(x.seriesIndex))] else [];
      var c := [Line("    <" + ("meta name=" + "\"calibre:series\"" + " content=\""), v, "\"/>\n")];
      var d := if x.seriesIndex > 0 then
        [Line("    <" + ("meta name=" + "\"calibre:series_index\"" + " content=\""), Dec(x.seriesIndex), "\"/>\n")] else [];
      HoldsConcat(a, [(Series, v)], b, IndexItems(Position, x));
      HoldsConcat(a + b, [(Series, v)] + IndexItems(Position, x), c, [(CalibreSeries, v)]);
      HoldsConcat(a + b + c, [(Series, v)] + IndexItems(Position, x) + [(CalibreSeries, v)], d, IndexItems(CalibreIndex, x));
    }
  }

  lemma IndexOf(g: Field, x: Input, f: Field)
    requires x.series != []
    ensures Of(IndexItems(g, x), f) == if g == f then Index(x) else []
  {
    hide Dec, Utf8.Unescape;
    if x.seriesIndex > 0 {
      DigitsAreQuiet(x.seriesIndex);
      OfOne(g, Dec(x.seriesIndex), f);
    }
  }

  lemma SeriesOf(x: Input, f: Field)
    ensures Of(SeriesItems(x), f) ==
      match f
      case Series => One(x.series)
      case CalibreSeries => One(x.series)
      case Position => Index(x)
      case CalibreIndex => Index(x)
      case _ => []
  {
    hide IndexItems, Utf8.Escape, Utf8.Unescape, Dec;
    if x.series != [] {
      var v := Utf8.Escape(x.series);
      Utf8.EscapeReadsBack(x.series);
      OfConcat([(Series, v)], IndexItems(Position, x), f);
      OfConcat([(Series, v)] + IndexItems(Position, x), [(CalibreSeries, v)], f);
      OfConcat([(Series, v)] + IndexItems(Position, x) + [(CalibreSeries, v)], IndexItems(CalibreIndex, x), f);
      OfOne(Series, v, f);
      OfOne(CalibreSeries, v, f);
      IndexOf(Position, x, f);
      IndexOf(CalibreIndex, x, f);
    }
  }

  function WordItems(g: Field, w: Text): Marked {
    if w == [] then [] else [(g, Utf8.Escape(w))] + [(Subject, Utf8.Escape(w))]
  }

  function WordsItems(g: Field, ws: seq<Text>): Marked {
    if ws == [] then [] else WordsItems(g, ws[..|ws| - 1]) + WordItems(g, ws[|ws| - 1])
  }

  /** The name of a kind of word. */
  ghost predicate Kind(g: Field, kind: string) {
    (g == ShelfTag && kind == "tag") || (g == ShelfGenre && kind == "genre")
  }

  lemma WordHolds(g: Field, kind: string, w: Text)
    requires Kind(g, kind)
    ensures Holds(WordLines(kind, w), WordItems(g, w))
  {
    hide Holds, Element, Utf8.Escape, Named;
    if w == [] {
      HoldsNone();
    } else {
      var v := Utf8.Escape(w);
      EscapeIsQuiet(w);
      SafeShelf(kind);
      SafeMoreNames();
      EmptyAttrs();
      var attrs := " property=" + ("\"embookshelf:" + kind + "\"");
      HoldsElement(g, "meta", attrs, v);
      HoldsElement(Subject, "dc:subject", "", v);
      HoldsConcat([Element("meta", attrs, v)], [(g, v)], [Element("dc:subject", "", v)], [(Subject, v)]);
      assert WordLines(kind, w) == [Element("meta", attrs, v)] + [Element("dc:subject", "", v)];
    }
  }

  lemma {:induction false} WordsHold(g: Field, kind: string, ws: seq<Text>)
    requires Kind(g, kind)
    ensures Holds(WordsLines(kind, ws), WordsItems(g, ws))
  {
    hide Holds, Kind, WordLines, WordItems;
    if ws == [] {
      HoldsNone();
    } else {
      var n := |ws| - 1;
      WordsHold(g, kind, ws[..n]);
      WordHolds(g, kind, ws[n]);
      HoldsConcat(WordsLines(kind, ws[..n]), WordsItems(g, ws[..n]), WordLines(kind, ws[n]), WordItems(g, ws[n]));
    }
  }

  lemma WordOf(g: Field, w: Text, f: Field)
    requires g != Subject
    ensures Of(WordItems(g, w), f) == if f == g || f == Subject then One(w) else []
  {
    hide Utf8.Escape, Utf8.Unescape;
    if w != [] {
      Utf8.EscapeReadsBack(w);
      OfConcat([(g, Utf8.Escape(w))], [(Subject, Utf8.Escape(w))], f);
      OfOne(g, Utf8.Escape(w), f);
      OfOne(Subject, Utf8.Escape(w), f);
    }
  }

  lemma {:induction false} WordsOf(g: Field, ws: seq<Text>, f: Field)
    requires g != Subject
    ensures Of(WordsItems(g, ws), f) == if f == g || f == Subject then Words(ws) else []
  {
    hide WordItems, One;
    if ws != [] {
      var n := |ws| - 1;
      WordsOf(g, ws[..n], f);
      WordOf(g, ws[n], f);
      OfConcat(WordsItems(g, ws[..n]), WordItems(g, ws[n]), f);
    }
  }

  // ------------------------------------------------------------------
  // All of them
  // ------------------------------------------------------------------

  function AllItems(x: Input): Marked {
    Lone(Title, x.title) + SubtitleItems(x) + PlainItems(x) + SeriesItems(x)
    + WordsItems(ShelfTag, x.tags) + WordsItems(ShelfGenre, x.genres)
  }

  lemma AllHold(x: Input)
    ensures Holds(Lines(x), AllItems(x))
  {
    hide Holds, Named, Simple, Lone, SubtitleLines, SubtitleItems, PlainLines, PlainItems, SeriesLines, SeriesItems;
    hide WordsLines, WordsItems;
    var a, b, c, d := Simple("dc:title", "", x.title), SubtitleLines(x), PlainLines(x), SeriesLines(x);
    var e, g := WordsLines("tag", x.tags), WordsLines("genre", x.genres);
    var i, j, k, l := Lone(Title, x.title), SubtitleItems(x), PlainItems(x), SeriesItems(x);
    var m, n := WordsItems(ShelfTag, x.tags), WordsItems(ShelfGenre, x.genres);
    SafeNames();
    EmptyAttrs();
    LoneHolds(Title, "dc:title", "", x.title);
    SubtitleHolds(x);
    PlainHolds(x);
    SeriesHolds(x);
    WordsHold(ShelfTag, "tag", x.tags);
    WordsHold(ShelfGenre, "genre", x.genres);
    HoldsConcat(a, i, b, j);
    HoldsConcat(a + b, i + j, c, k);
    HoldsConcat(a + b + c, i + j + k, d, l);
    HoldsConcat(a + b + c + d, i + j + k + l, e, m);
    HoldsConcat(a + b + c + d + e, i + j + k + l + m, g, n);
  }

  lemma OfSix(i: Marked, j: Marked, k: Marked, l: Marked, m: Marked, n: Marked, f: Field)
    ensures Of(i + j + k + l + m + n, f) == Of(i, f) + Of(j, f) + Of(k, f) + Of(l, f) + Of(m, f) + Of(n, f)
  {
    hide Of;
    OfConcat(i, j, f);
    OfConcat(i + j, k, f);
    OfConcat(i + j + k, l, f);
    OfConcat(i + j + k + l, m, f);
    OfConcat(i + j + k + l + m, n, f);
  }

  lemma AllOf(x: Input, f: Field)
    ensures Of(AllItems(x), f) == Kept(x, f)
  {
    hide Lone, SubtitleItems, PlainItems, SeriesItems, WordsItems, One, Words, Index, Ascii, Of;
    OfSix(Lone(Title, x.title), SubtitleItems(x), PlainItems(x), SeriesItems(x),
          WordsItems(ShelfTag, x.tags), WordsItems(ShelfGenre, x.genres), f);
    LoneOf(Title, x.title, f);
    SubtitleOf(x, f);
    PlainOf(x, f);
    SeriesOf(x, f);
    WordsOf(ShelfTag, x.tags, f);
    WordsOf(ShelfGenre, x.genres, f);
    NoSubtitle(x);
    Trims(Kept(x, f));
  }

  lemma NoSubtitle(x: Input)
    ensures x.subtitle == [] ==> One(x.subtitle) == []
  {
  }

  lemma Trims(ss: seq<Bytes>)
    ensures [] + ss == ss && ss + [] == ss
  {
  }

  lemma ReadAlone(ls: seq<Line>, ms: Marked)
    requires Holds(ls, ms)
    ensures ReadItems(Render(ls)) == Some(AsItems(ms))
  {
    hide Tag, Render, ReadItem;
    assert Render(ls) + [] == Render(ls);
    assert ReadItems(Render(ls) + []) == Before(AsItems(ms), ReadItems([]));
    assert AsItems(ms) + [] == AsItems(ms);
  }

  /** A reader of the children finds every field under its own name and nothing
      under any other: each text that is not empty as XML may carry it, a subtitle
      marked as one, a series with its index when that is positive, in the EPUB
      and the Calibre form, and every word under its kind and as a subject. */
  lemma BodyReadsBack(x: Input)
    ensures ReadItems(Render(Lines(x))).Some?
    ensures forall f :: Under(ReadItems(Render(Lines(x))).value, f) == Kept(x, f)
    ensures forall item :: item in ReadItems(Render(Lines(x))).value ==> exists f :: item.0 == Tag(f)
  {
    hide Render, Lines, AllItems, Kept, Tag, ReadItems, Holds, Of, Under;
    AllHold(x);
    ReadAlone(Lines(x), AllItems(x));
    forall f ensures Under(AsItems(AllItems(x)), f) == Kept(x, f) {
      UnderIsOf(AllItems(x), f);
      AllOf(x, f);
    }
  }
}
