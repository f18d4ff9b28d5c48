/** What replacing the metadata keeps, and when the last replacement is the
    only one that matters. */
module OpfLaws {
  import opened Common
  import opened Decimal
  import opened Utf16
  import opened Opf
  import Utf8

  // ------------------------------------------------------------------
  // The new children hold no close tag
  // ------------------------------------------------------------------

  lemma CloseTagBytes()
    ensures |CloseTag| == 11 && CloseTag[0] == 0x3C && CloseTag[1] == 0x2F && CloseTag[2] == 0x6D && CloseTag[6] == 0x64
    ensures CloseTag[10] == 0x3E
    ensures forall k :: 0 <= k < 11 ==> CloseTag[k] != 0x0A
    ensures forall k :: 0 <= k < 10 ==> CloseTag[k] != 0x3E
    ensures forall k :: 0 < k < 11 ==> CloseTag[k] != 0x3C
  {
    hide Ascii;
  }

  /** No close tag starts in `b`, whatever follows, given that it ends a line. */
  ghost predicate Sealed(b: Bytes) {
    && (forall i :: 0 <= i < |b| ==> !StandsAt(b, i, CloseTag))
    && (b != [] ==> b[|b| - 1] == 0x0A)
  }

  lemma SealedBefore(b: Bytes, rest: Bytes, j: nat)
    requires Sealed(b) && j < |b|
    ensures !StandsAt(b + rest, j, CloseTag)
  {
    CloseTagBytes();
    hide Ascii;
    var m := b + rest;
    assert !StandsAt(b, j, CloseTag);
    if j + 11 <= |b| {
      assert m[j..j + 11] == b[j..j + 11];
    } else if j + 11 <= |m| {
      var k := |b| - 1 - j;
      assert m[j..j + 11][k] == 0x0A;
    }
  }

  lemma SealedConcat(a: Bytes, b: Bytes)
    requires Sealed(a) && Sealed(b)
    ensures Sealed(a + b)
  {
    hide Ascii;
    CloseTagBytes();
    forall i | 0 <= i < |a + b| ensures !StandsAt(a + b, i, CloseTag) {
      if i < |a| {
        SealedBefore(a, b, i);
      } else {
        assert !StandsAt(b, i - |a|, CloseTag);
        if i + 11 <= |a + b| {
          assert (a + b)[i..i + 11] == b[i - |a|..i - |a| + 11];
        }
      }
    }
  }

  ghost predicate Plain(s: string) {
    forall i :: 0 <= i < |s| ==> s[i] as int % 0x100 != 0x3C
  }

  lemma PlainConcat(a: string, b: string)
    requires Plain(a) && Plain(b)
    ensures Plain(a + b)
  {
  }

  /** The only `<` of a line are its open tag's and, at most, its close tag's,
      and neither starts a metadata close tag. */
  ghost predicate GoodLine(l: Line) {
    && |l.open| > 5 && l.open[..5] == "    <" && Plain(l.open[5..]) && l.open[5] != '/' && l.open[5] < 128 as char
    && 0x3C !in l.value
    && l.close != "" && Plain(l.close[1..]) && l.close[|l.close| - 1] == '\n'
    && !(|l.close| > 6 && Ascii(l.close)[2] == 0x6D && Ascii(l.close)[6] == 0x64)
  }

  lemma LinePlain(l: Line, i: nat)
    requires GoodLine(l) && i < |LineText(l)| && i != 4 && i != |l.open| + |l.value|
    ensures LineText(l)[i] != 0x3C
  {
    var n, m := |l.open|, |l.open| + |l.value|;
    if i < n {
      assert LineText(l)[i] == Ascii(l.open)[i];
      if i >= 5 {
        assert l.open[5..][i - 5] == l.open[i];
      } else {
        assert l.open[..5][i] == l.open[i];
      }
    } else if i < m {
      assert LineText(l)[i] == l.value[i - n];
    } else {
      assert LineText(l)[i] == Ascii(l.close)[i - m];
      assert l.close[1..][i - m - 1] == l.close[i - m];
    }
  }

  lemma AtBytes(b: Bytes, i: nat)
    ensures StandsAt(b, i, CloseTag) ==>
      i + 11 <= |b| && b[i] == 0x3C && b[i + 1] == 0x2F && b[i + 2] == 0x6D && b[i + 6] == 0x64
  {
    hide Ascii;
    CloseTagBytes();
    if i + 11 <= |b| {
      var w := b[i..i + 11];
      assert w[0] == b[i] && w[1] == b[i + 1] && w[2] == b[i + 2] && w[6] == b[i + 6];
    }
  }

  lemma LineSealed(l: Line)
    requires GoodLine(l)
    ensures Sealed(LineText(l))
  {
    hide Ascii, StandsAt;
    var b, m := LineText(l), |l.open| + |l.value|;
    assert b[|b| - 1] == Ascii(l.close)[|l.close| - 1];
    forall i | 0 <= i < |b| ensures !StandsAt(b, i, CloseTag) {
      AtBytes(b, i);
      if i == 4 {
        assert b[5] == Ascii(l.open)[5];
      } else if i == m {
        assert i + 6 < |b| ==> b[i + 2] == Ascii(l.close)[2] && b[i + 6] == Ascii(l.close)[6];
      } else {
        LinePlain(l, i);
      }
    }
  }

  ghost predicate GoodLines(ls: seq<Line>) {
    forall i :: 0 <= i < |ls| ==> GoodLine(ls[i])
  }

  lemma {:induction false} RenderSealed(ls: seq<Line>)
    requires GoodLines(ls)
    ensures Sealed(Render(ls))
  {
    hide GoodLine, LineText, Sealed;
    if ls == [] {
      NothingSealed();
    } else {
      var n := |ls| - 1;
      RenderSealed(ls[..n]);
      LineSealed(ls[n]);
      SealedConcat(Render(ls[..n]), LineText(ls[n]));
    }
  }

  lemma NothingSealed()
    ensures Sealed([])
  {
  }

  lemma ElementGood(name: string, attrs: string, value: Bytes)
    requires name != "" && Plain(name) && Plain(attrs) && 'a' <= name[0] <= 'z' && 0x3C !in value
    requires name[0] == 'm' ==> name == "meta"
    ensures GoodLine(Element(name, attrs, value))
  {
    var l := Element(name, attrs, value);
    assert l.open == "    <" + (name + attrs + ">");
    assert l.open[5..] == name + attrs + ">";
    assert l.close[1..] == "/" + name + ">\n";
    assert Ascii(l.close)[2] as int == name[0] as int;
  }

  lemma DigitsPlain(n: nat)
    ensures 0x3C !in Dec(n)
  {
    hide Dec;
    forall i | 0 <= i < |Dec(n)| ensures Dec(n)[i] != 0x3C {
      assert IsDigit(Dec(n)[i]);
    }
  }

  lemma EscapePlain(s: Text)
    ensures 0x3C !in Utf8.Escape(s)
  {
    Utf8.EscapeOpensNoTag(s);
  }

  lemma SimpleGood(name: string, attrs: string, value: Text)
    requires name != "" && Plain(name) && Plain(attrs) && 'a' <= name[0] < 'm'
    ensures GoodLines(Simple(name, attrs, value))
  {
    hide GoodLine;
    if value != [] {
      EscapePlain(value);
      ElementGood(name, attrs, Utf8.Escape(value));
    }
  }

  lemma GoodConcat(a: seq<Line>, b: seq<Line>)
    requires GoodLines(a) && GoodLines(b)
    ensures GoodLines(a + b)
  {
    hide GoodLine;
  }

  lemma PlainNames()
    ensures Plain("") && Plain("meta") && Plain("dc:title") && Plain("dc:creator") && Plain("dc:description")
    ensures Plain("dc:language") && Plain("dc:publisher") && Plain("dc:date") && Plain("dc:identifier")
    ensures Plain("dc:subject") && Plain(" opf:scheme=\"ISBN\"") && Plain(" id=\"subtitle\"")
  {
    hide Plain;
    PlainTags();
    PlainMoreTags();
    PlainAttrs();
  }

  lemma PlainTags()
    ensures Plain("") && Plain("meta") && Plain("dc:title") && Plain("dc:creator") && Plain("dc:description")
  {
  }

  lemma PlainMoreTags()
    ensures Plain("dc:language") && Plain("dc:publisher") && Plain("dc:date") && Plain("dc:identifier")
    ensures Plain("dc:subject")
  {
  }

  lemma PlainAttrs()
    ensures Plain(" opf:scheme=\"ISBN\"") && Plain(" id=\"subtitle\"")
  {
  }

  lemma PlainLinesGood(x: Input)
    ensures GoodLines(PlainLines(x))
  {
    hide GoodLines, Plain, Simple;
    PlainNames();
    var a, b, c := Simple("dc:creator", "", x.author), Simple("dc:description", "", x.description), Simple("dc:language", "", x.language);
    var d, e := Simple("dc:publisher", "", x.publisher), Simple("dc:date", "", x.publishedDate);
    var f := Simple("dc:identifier", " opf:scheme=\"ISBN\"", x.isbn);
    SimpleGood("dc:creator", "", x.author);
    SimpleGood("dc:description", "", x.description);
    SimpleGood("dc:language", "", x.language);
    SimpleGood("dc:publisher", "", x.publisher);
    SimpleGood("dc:date", "", x.publishedDate);
    SimpleGood("dc:identifier", " opf:scheme=\"ISBN\"", x.isbn);
    GoodConcat(a, b);
    GoodConcat(a + b, c);
    GoodConcat(a + b + c, d);
    GoodConcat(a + b + c + d, e);
    GoodConcat(a + b + c + d + e, f);
  }

  lemma SubtitleGood(x: Input)
    ensures GoodLines(SubtitleLines(x))
  {
    hide GoodLine, Plain;
    if x.subtitle != [] {
      PlainNames();
      SubtitleAttrs();
      EscapePlain(x.subtitle);
      ElementGood("dc:title", " id=\"subtitle\"", Utf8.Escape(x.subtitle));
      SubtitleWord();
      ElementGood("meta", " refines=\"#subtitle\"" + " property=\"title-type\"", Ascii("subtitle"));
    }
  }

  lemma SubtitleAttrs()
    ensures Plain(" refines=\"#subtitle\"" + " property=\"title-type\"")
  {
    hide Plain;
    SubtitleParts();
    PlainConcat(" refines=\"#subtitle\"", " property=\"title-type\"");
  }

  lemma SubtitleParts()
    ensures Plain(" refines=\"#subtitle\"") && Plain(" property=\"title-type\"")
  {
  }

  lemma SubtitleWord()
    ensures 0x3C !in Ascii("subtitle")
  {
  }

  /** A self-closing line. */
  lemma EmptyElementGood(tag: string, value: Bytes)
    requires tag != "" && Plain(tag) && tag[0] == 'm' && 0x3C !in value
    ensures GoodLine(Line("    <" + tag, value, "\"/>\n"))
  {
    var l := Line("    <" + tag, value, "\"/>\n");
    assert l.open[5..] == tag;
    assert l.close[1..] == "/>\n";
  }

  lemma SeriesAttrs()
    ensures Plain(" property=" + "\"belongs-to-collection\"" + " id=\"series\"")
    ensures Plain(" refines=\"#series\"" + " property=" + "\"group-position\"")
  {
    hide Plain;
    PropertyPart();
    CollectionParts();
    PositionParts();
    PlainConcat(" property=", "\"belongs-to-collection\"");
    PlainConcat(" property=" + "\"belongs-to-collection\"", " id=\"series\"");
    PlainConcat(" refines=\"#series\"", " property=");
    PlainConcat(" refines=\"#series\"" + " property=", "\"group-position\"");
  }

  lemma PropertyPart()
    ensures Plain(" property=")
  {
  }

  lemma CollectionParts()
    ensures Plain("\"belongs-to-collection\"") && Plain(" id=\"series\"")
  {
  }

  lemma PositionParts()
    ensures Plain(" refines=\"#series\"") && Plain("\"group-position\"")
  {
  }

  lemma CalibreAttrs()
    ensures Plain("meta name=" + "\"calibre:series\"" + " content=\"")
    ensures Plain("meta name=" + "\"calibre:series_index\"" + " content=\"")
  {
    hide Plain;
    CalibreParts();
    CalibreIndexPart();
    PlainConcat("meta name=", "\"calibre:series\"");
    PlainConcat("meta name=" + "\"calibre:series\"", " content=\"");
    PlainConcat("meta name=", "\"calibre:series_index\"");
    PlainConcat("meta name=" + "\"calibre:series_index\"", " content=\"");
  }

  lemma CalibreParts()
    ensures Plain("meta name=") && Plain("\"calibre:series\"") && Plain(" content=\"")
  {
  }

  lemma CalibreIndexPart()
    ensures Plain("\"calibre:series_index\"")
  {
  }

  lemma OneGood(l: Line)
    requires GoodLine(l)
    ensures GoodLines([l])
  {
    hide GoodLine;
  }

  lemma SeriesGood(x: Input)
    ensures GoodLines(SeriesLines(x))
  {
    hide GoodLine, GoodLines, Plain, Utf8.Escape, Dec;
    NoLinesGood();
    if x.series != [] {
      PlainNames();
      SeriesAttrs();
      CalibreAttrs();
      EscapePlain(x.series);
      var v := Utf8.Escape(x.series);
      var p := Element("meta", " property=" + "\"belongs-to-collection\"" + " id=\"series\"", v);
      var q := Line("    <" + ("meta name=" + "\"calibre:series\"" + " content=\""), v, "\"/>\n");
      ElementGood("meta", " property=" + "\"belongs-to-collection\"" + " id=\"series\"", v);
      EmptyElementGood("meta name=" + "\"calibre:series\"" + " content=\"", v);
      OneGood(p);
      OneGood(q);
      if x.seriesIndex > 0 {
        var i := Dec(x.seriesIndex);
        DigitsPlain(x.seriesIndex);
        var r := Element("meta", " refines=\"#series\"" + " property=" + "\"group-position\"", i);
        var t := Line("    <" + ("meta name=" + "\"calibre:series_index\"" + " content=\""), i, "\"/>\n");
        ElementGood("meta", " refines=\"#series\"" + " property=" + "\"group-position\"", i);
        EmptyElementGood("meta name=" + "\"calibre:series_index\"" + " content=\"", i);
        OneGood(r);
        OneGood(t);
        GoodConcat([p], [r]);
        GoodConcat([p] + [r], [q]);
        GoodConcat([p] + [r] + [q], [t]);
      } else {
        GoodConcat([p], []);
        GoodConcat([p] + [], [q]);
        GoodConcat([p] + [] + [q], []);
      }
    }
  }

  lemma NoLinesGood()
    ensures GoodLines([])
  {
  }

  lemma WordAttrs(kind: string)
    requires Plain(kind)
    ensures Plain(" property=" + ("\"embookshelf:" + kind + "\""))
  {
    hide Plain;
    PropertyPart();
    ShelfParts();
    PlainConcat("\"embookshelf:", kind);
    PlainConcat("\"embookshelf:" + kind, "\"");
    PlainConcat(" property=", "\"embookshelf:" + kind + "\"");
  }

  lemma ShelfParts()
    ensures Plain("\"embookshelf:") && Plain("\"")
  {
  }

  lemma {:induction false} WordsGood(kind: string, words: seq<Text>)
    requires Plain(kind)
    ensures GoodLines(WordsLines(kind, words))
  {
    hide GoodLine, GoodLines, Plain, WordLines;
    if words == [] {
      NoLinesGood();
    } else {
      WordsGood(kind, words[..|words| - 1]);
      WordGood(kind, words[|words| - 1]);
      GoodConcat(WordsLines(kind, words[..|words| - 1]), WordLines(kind, words[|words| - 1]));
    }
  }

  lemma WordGood(kind: string, word: Text)
    requires Plain(kind)
    ensures GoodLines(WordLines(kind, word))
  {
    hide GoodLine, Plain, Utf8.Escape;
    if word != [] {
      PlainNames();
      WordAttrs(kind);
      EscapePlain(word);
      ElementGood("meta", " property=" + ("\"embookshelf:" + kind + "\""), Utf8.Escape(word));
      ElementGood("dc:subject", "", Utf8.Escape(word));
    }
  }

  /** However the fields read, the children never hold the close tag that ends
      them. */
  lemma BodySealed(x: Input)
    ensures Sealed(Render(Lines(x)))
  {
    hide GoodLines, Plain, Simple, SubtitleLines, PlainLines, SeriesLines, WordsLines, Sealed, Render;
    PlainNames();
    KindsPlain();
    var a, b, c, d := Simple("dc:title", "", x.title), SubtitleLines(x), PlainLines(x), SeriesLines(x);
    var e, f := WordsLines("tag", x.tags), WordsLines("genre", x.genres);
    SimpleGood("dc:title", "", x.title);
    SubtitleGood(x);
    PlainLinesGood(x);
    SeriesGood(x);
    WordsGood("tag", x.tags);
    WordsGood("genre", x.genres);
    GoodConcat(a, b);
    GoodConcat(a + b, c);
    GoodConcat(a + b + c, d);
    GoodConcat(a + b + c + d, e);
    GoodConcat(a + b + c + d + e, f);
    RenderSealed(Lines(x));
  }

  lemma KindsPlain()
    ensures Plain("tag") && Plain("genre")
  {
  }
}
