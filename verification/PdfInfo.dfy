/** The document information dictionary a revision carries. */
module PdfInfo {
  import opened Common
  import opened Utf16
  import PdfText

  datatype Input = Input(title: Text, author: Text, description: Text, tags: seq<Text>, genres: seq<Text>)

  const TagPrefix: Text := [0x74, 0x61, 0x67, 0x3A]
  const GenrePrefix: Text := [0x67, 0x65, 0x6E, 0x72, 0x65, 0x3A]

  function Prefixed(prefix: Text, ss: seq<Text>): seq<Text> {
    if ss == [] then []
    else Prefixed(prefix, ss[..|ss| - 1]) + (if ss[|ss| - 1] == [] then [] else [prefix + ss[|ss| - 1]])
  }

  function Join(parts: seq<Text>): Text {
    if parts == [] then [] else if |parts| == 1 then parts[0] else parts[0] + [0x2C, 0x20] + Join(parts[1..])
  }

  function Keywords(tags: seq<Text>, genres: seq<Text>): Text {
    Join(Prefixed(TagPrefix, tags) + Prefixed(GenrePrefix, genres))
  }

  method JoinKeywords(tags: seq<Text>, genres: seq<Text>) returns (s: Text)
    ensures s == Keywords(tags, genres)
  {
    var parts: seq<Text> := [];
    assert tags[..0] == [] && genres[..0] == [];
    for i := 0 to |tags|
      invariant parts == Prefixed(TagPrefix, tags[..i])
    {
      assert tags[..i + 1][..i] == tags[..i];
      if tags[i] != [] {
        parts := parts + [TagPrefix + tags[i]];
      }
    }
    assert tags[..|tags|] == tags;
    for i := 0 to |genres|
      invariant parts == Prefixed(TagPrefix, tags) + Prefixed(GenrePrefix, genres[..i])
    {
      assert genres[..i + 1][..i] == genres[..i];
      if genres[i] != [] {
        parts := parts + [GenrePrefix + genres[i]];
      }
    }
    assert genres[..|genres|] == genres;
    s := Join(parts);
  }

  /** The entries of the dictionary: those that are not empty. */
  function Entry(name: string, value: Text): seq<(string, Text)> {
    if value == [] then [] else [(name, value)]
  }

  function Entries(x: Input): seq<(string, Text)> {
    Entry("Title", x.title) + Entry("Author", x.author) + Entry("Subject", x.description)
    + Entry("Keywords", Keywords(x.tags, x.genres))
  }

  function EntryText(e: (string, Text)): string {
    " /" + e.0 + " <" + PdfText.HexBody(e.1) + ">"
  }

  function EntriesText(es: seq<(string, Text)>): string {
    if es == [] then "" else EntryText(es[0]) + EntriesText(es[1..])
  }

  function InfoBody(x: Input): string {
    "<<" + EntriesText(Entries(x)) + " >>"
  }

  method Emit(b: string, name: string, value: Text) returns (r: string)
    ensures r == b + EntriesText(Entry(name, value))
  {
    r := b;
    if value != [] {
      var hex := PdfText.EncodePDFString(value);
      r := b + " /" + name + " " + hex;
      assert EntriesText([(name, value)]) == EntryText((name, value)) + EntriesText([]);
    }
  }

  method BuildInfoBody(x: Input) returns (b: string)
    ensures b == InfoBody(x)
  {
    hide EntriesText, Entry, Keywords;
    b := "<<";
    b := Emit(b, "Title", x.title);
    b := Emit(b, "Author", x.author);
    b := Emit(b, "Subject", x.description);
    var keywords := JoinKeywords(x.tags, x.genres);
    b := Emit(b, "Keywords", keywords);
    EntriesTextConcat(Entry("Title", x.title), Entry("Author", x.author));
    EntriesTextConcat(Entry("Title", x.title) + Entry("Author", x.author), Entry("Subject", x.description));
    EntriesTextConcat(Entry("Title", x.title) + Entry("Author", x.author) + Entry("Subject", x.description),
                      Entry("Keywords", keywords));
    b := b + " >>";
  }

  lemma {:induction false} EntriesTextConcat(a: seq<(string, Text)>, b: seq<(string, Text)>)
    ensures EntriesText(a + b) == EntriesText(a) + EntriesText(b)
  {
    hide EntryText;
    if a == [] {
      assert a + b == b;
    } else {
      EntriesTextConcat(a[1..], b);
      assert (a + b)[1..] == a[1..] + b && (a + b)[0] == a[0];
      assert EntriesText(a + b) == EntryText(a[0]) + (EntriesText(a[1..]) + EntriesText(b));
    }
  }

  // ------------------------------------------------------------------
  // Reading it back
  // ------------------------------------------------------------------

  /** Where `c` first stands, or the length. */
  function Upto(s: string, c: char): (i: nat)
    ensures i <= |s| && (i < |s| ==> s[i] == c) && forall j :: 0 <= j < i ==> s[j] != c
  {
    if s == "" || s[0] == c then 0 else 1 + Upto(s[1..], c)
  }

  function ReadEntries(s: string): Option<seq<(string, PdfText.Decoded)>>
    decreases |s|
  {
    if s == " >>" then Some([])
    else if |s| < 2 || s[..2] != " /" then None
    else
      var i := Upto(s[2..], ' ');
      if i + 4 > |s| || s[i + 3] != '<' then None
      else
        var j := Upto(s[i + 4..], '>');
        if i + 4 + j == |s| then None
        else
          match ReadEntries(s[i + j + 5..])
          case None => None
          case Some(rest) => Some([(s[2..2 + i], PdfText.HexString(s[i + 4..i + 4 + j]))] + rest)
  }

  function ReadInfo(s: string): Option<seq<(string, PdfText.Decoded)>> {
    if |s| >= 2 && s[..2] == "<<" then ReadEntries(s[2..]) else None
  }

  function Trimmed(es: seq<(string, Text)>): seq<(string, PdfText.Decoded)> {
    if es == [] then [] else [(es[0].0, PdfText.Unicode(TrimSpace(es[0].1)))] + Trimmed(es[1..])
  }

  ghost predicate Named(es: seq<(string, Text)>) {
    forall i :: 0 <= i < |es| ==> ' ' !in es[i].0
  }

  lemma {:induction false} UptoIs(s: string, c: char, i: nat)
    requires i < |s| && s[i] == c && forall j :: 0 <= j < i ==> s[j] != c
    ensures Upto(s, c) == i
  {
    if i > 0 {
      UptoIs(s[1..], c, i - 1);
    }
  }

  lemma HexBodyIsHex(v: Text)
    ensures forall i :: 0 <= i < |PdfText.HexBody(v)| ==> PdfText.IsHex(PdfText.HexBody(v)[i])
  {
    PdfText.HexUnitsAreHex(Encode(v));
  }

  lemma EntryLayout(name: string, hex: string, rest: string)
    requires ' ' !in name && '>' !in hex
    ensures var s := " /" + name + " <" + hex + ">" + rest;
      && |s| >= |name| + |hex| + 5 && s[..2] == " /" && Upto(s[2..], ' ') == |name| && s[2..2 + |name|] == name
      && s[|name| + 3] == '<' && Upto(s[|name| + 4..], '>') == |hex|
      && s[|name| + 4..|name| + 4 + |hex|] == hex && s[|name| + |hex| + 5..] == rest
  {
    var s := " /" + name + " <" + hex + ">" + rest;
    var t, u := name + (" <" + hex + ">" + rest), hex + (">" + rest);
    assert s[2..] == t && t[|name|] == ' ';
    UptoIs(t, ' ', |name|);
    assert s[|name| + 4..] == u && u[|hex|] == '>';
    UptoIs(u, '>', |hex|);
  }

  lemma ReadEntry(e: (string, Text), rest: string)
    requires ' ' !in e.0
    ensures ReadEntries(EntryText(e) + rest) ==
      match ReadEntries(rest)
      case None => None
      case Some(more) => Some([(e.0, PdfText.Unicode(TrimSpace(e.1)))] + more)
  {
    hide Upto, PdfText.HexBody, PdfText.HexString, TrimSpace;
    var hex := PdfText.HexBody(e.1);
    HexBodyIsHex(e.1);
    EntryLayout(e.0, hex, rest);
    assert EntryText(e) + rest == " /" + e.0 + " <" + hex + ">" + rest;
    PdfText.HexRoundTrip(e.1);
  }

  lemma {:induction false} ReadAll(es: seq<(string, Text)>)
    requires Named(es)
    ensures ReadEntries(EntriesText(es) + " >>") == Some(Trimmed(es))
  {
    hide ReadEntries, EntryText, TrimSpace;
    if es == [] {
      NoMore();
      assert "" + " >>" == " >>";
    } else {
      ReadAll(es[1..]);
      ReadEntry(es[0], EntriesText(es[1..]) + " >>");
      assert EntriesText(es) + " >>" == EntryText(es[0]) + (EntriesText(es[1..]) + " >>");
    }
  }

  lemma NoMore()
    ensures ReadEntries(" >>") == Some([])
  {
  }

  lemma EntriesNamed(x: Input)
    ensures Named(Entries(x))
  {
    hide Keywords;
  }

  /** A reader of the dictionary finds exactly the fields that are not empty,
      in order and trimmed, and nothing else: no creation date. */
  lemma InfoReadsBack(x: Input)
    ensures ReadInfo(InfoBody(x)) == Some(Trimmed(Entries(x)))
    ensures forall i :: 0 <= i < |Entries(x)| ==> Entries(x)[i].0 in ["Title", "Author", "Subject", "Keywords"]
  {
    hide ReadEntries, EntriesText, Keywords, Trimmed;
    EntriesNamed(x);
    ReadAll(Entries(x));
    assert InfoBody(x)[2..] == EntriesText(Entries(x)) + " >>";
  }

  // ------------------------------------------------------------------
  // Its characters
  // ------------------------------------------------------------------

  /** Printable ASCII below `z`. */
  ghost predicate Quiet(s: string) {
    forall i :: 0 <= i < |s| ==> 0x20 <= s[i] as int < 0x7A
  }

  lemma HexIsQuiet(v: Text)
    ensures Quiet(PdfText.HexBody(v))
  {
    HexBodyIsHex(v);
  }

  lemma EntryIsQuiet(e: (string, Text))
    requires Quiet(e.0)
    ensures Quiet(EntryText(e))
  {
    hide PdfText.HexBody;
    HexIsQuiet(e.1);
  }

  lemma {:induction false} EntriesAreQuiet(es: seq<(string, Text)>)
    requires forall i :: 0 <= i < |es| ==> Quiet(es[i].0)
    ensures Quiet(EntriesText(es))
  {
    hide EntryText;
    if es != [] {
      EntryIsQuiet(es[0]);
      EntriesAreQuiet(es[1..]);
    }
  }

  lemma InfoIsQuiet(x: Input)
    ensures Quiet(InfoBody(x))
  {
    hide EntriesText, Keywords;
    forall i | 0 <= i < |Entries(x)| ensures Quiet(Entries(x)[i].0) {
    }
    EntriesAreQuiet(Entries(x));
  }

  // ------------------------------------------------------------------
  // By field
  // ------------------------------------------------------------------

  function Values(es: seq<(string, PdfText.Decoded)>, name: string): seq<PdfText.Decoded> {
    if es == [] then [] else ValueOf(es[0], name) + Values(es[1..], name)
  }

  function ValueOf(e: (string, PdfText.Decoded), name: string): seq<PdfText.Decoded> {
    if e.0 == name then [e.1] else []
  }

  /** A text that is not empty, as a reader shows it. */
  function Shown(t: Text): seq<PdfText.Decoded> {
    if t == [] then [] else [PdfText.Unicode(TrimSpace(t))]
  }

  lemma {:induction false} TrimmedConcat(a: seq<(string, Text)>, b: seq<(string, Text)>)
    ensures Trimmed(a + b) == Trimmed(a) + Trimmed(b)
  {
    hide TrimSpace;
    if a == [] {
      assert a + b == b;
    } else {
      var h := [(a[0].0, PdfText.Unicode(TrimSpace(a[0].1)))];
      TrimmedConcat(a[1..], b);
      assert (a + b)[0] == a[0] && (a + b)[1..] == a[1..] + b;
      assert h + (Trimmed(a[1..]) + Trimmed(b)) == h + Trimmed(a[1..]) + Trimmed(b);
    }
  }

  lemma {:induction false} ValuesConcat(a: seq<(string, PdfText.Decoded)>, b: seq<(string, PdfText.Decoded)>, name: string)
    ensures Values(a + b, name) == Values(a, name) + Values(b, name)
  {
    hide ValueOf;
    if a == [] {
      assert a + b == b;
    } else {
      ValuesConcat(a[1..], b, name);
      ConcatStep(a, b);
      Associate(ValueOf(a[0], name), Values(a[1..], name), Values(b, name));
    }
  }

  lemma EntryValues(field: string, t: Text, name: string)
    ensures Values(Trimmed(Entry(field, t)), name) == if field == name then Shown(t) else []
  {
    hide TrimSpace;
    if t != [] {
      assert [(field, t)][1..] == [];
      assert Trimmed([(field, t)]) == [(field, PdfText.Unicode(TrimSpace(t)))];
      assert [(field, PdfText.Unicode(TrimSpace(t)))][1..] == [];
    }
  }

  /** What a reader of the dictionary finds under each name: the title, the
      author, the description as the subject, and the joined words as the
      keywords, each when it is not empty; and no other name. */
  lemma FieldsReadBack(x: Input)
    ensures ReadInfo(InfoBody(x)).Some?
    ensures var es := ReadInfo(InfoBody(x)).value;
      && Values(es, "Title") == Shown(x.title) && Values(es, "Author") == Shown(x.author)
      && Values(es, "Subject") == Shown(x.description) && Values(es, "Keywords") == Shown(Keywords(x.tags, x.genres))
    ensures forall e :: e in ReadInfo(InfoBody(x)).value ==> e.0 in ["Title", "Author", "Subject", "Keywords"]
  {
    hide InfoBody, ReadInfo, Entry, Keywords, Trimmed, Values, Shown;
    InfoReadsBack(x);
    FieldValues(x, "Title");
    FieldValues(x, "Author");
    FieldValues(x, "Subject");
    FieldValues(x, "Keywords");
    NamesDiffer();
    TrimmedNames(Entries(x));
  }

  lemma {:induction false} TrimmedNames(es: seq<(string, Text)>)
    ensures |Trimmed(es)| == |es| && forall i :: 0 <= i < |es| ==> Trimmed(es)[i].0 == es[i].0
  {
    if es != [] {
      TrimmedNames(es[1..]);
    }
  }

  lemma NamesDiffer()
    ensures "Title" != "Author" && "Title" != "Subject" && "Title" != "Keywords"
    ensures "Author" != "Subject" && "Author" != "Keywords" && "Subject" != "Keywords"
  {
    assert "Title"[0] == 'T' && "Author"[0] == 'A' && "Subject"[0] == 'S' && "Keywords"[0] == 'K';
  }

  lemma FieldValues(x: Input, name: string)
    ensures Values(Trimmed(Entries(x)), name) ==
      (if "Title" == name then Shown(x.title) else []) + (if "Author" == name then Shown(x.author) else [])
      + (if "Subject" == name then Shown(x.description) else [])
      + (if "Keywords" == name then Shown(Keywords(x.tags, x.genres)) else [])
  {
    hide Entry, Keywords, Trimmed, Values, Shown;
    var a, b := Entry("Title", x.title), Entry("Author", x.author);
    var c, d := Entry("Subject", x.description), Entry("Keywords", Keywords(x.tags, x.genres));
    TrimmedConcat(a, b);
    TrimmedConcat(a + b, c);
    TrimmedConcat(a + b + c, d);
    ValuesConcat(Trimmed(a), Trimmed(b), name);
    ValuesConcat(Trimmed(a) + Trimmed(b), Trimmed(c), name);
    ValuesConcat(Trimmed(a) + Trimmed(b) + Trimmed(c), Trimmed(d), name);
    EntryValues("Title", x.title, name);
    EntryValues("Author", x.author, name);
    EntryValues("Subject", x.description, name);
    EntryValues("Keywords", Keywords(x.tags, x.genres), name);
  }

  // ------------------------------------------------------------------
  // The words of the keywords
  // ------------------------------------------------------------------

  function Runes(s: string): Text {
    seq(|s|, i requires 0 <= i < |s| => (s[i] as int % 0x80) as Rune)
  }

  /** Where a comma and a space first stand, or the length. */
  function CommaAt(t: Text): (i: nat)
    ensures i <= |t| && (i < |t| ==> i + 1 < |t| && t[i] == 0x2C && t[i + 1] == 0x20)
  {
    if |t| < 2 then |t| else if t[0] == 0x2C && t[1] == 0x20 then 0 else 1 + CommaAt(t[1..])
  }

  function Split(t: Text): seq<Text>
    decreases |t|
  {
    if CommaAt(t) == |t| then [t] else [t[..CommaAt(t)]] + Split(t[CommaAt(t) + 2..])
  }

  /** The word of a part that starts with a prefix. */
  function WordOf(part: Text, prefix: Text): seq<Text> {
    if prefix <= part then [part[|prefix|..]] else []
  }

  function WordsOf(parts: seq<Text>, prefix: Text): seq<Text> {
    if parts == [] then [] else WordsOf(parts[..|parts| - 1], prefix) + WordOf(parts[|parts| - 1], prefix)
  }

  function IfAny(word: Text): seq<Text> {
    if word == [] then [] else [word]
  }

  function NotEmpty(words: seq<Text>): seq<Text> {
    if words == [] then [] else NotEmpty(words[..|words| - 1]) + IfAny(words[|words| - 1])
  }

  lemma {:induction false} CommaBehind(a: Text, rest: Text)
    requires CommaAt(a) == |a|
    ensures CommaAt(a + [0x2C, 0x20] + rest) == |a|
  {
    var t := a + [0x2C, 0x20] + rest;
    if a != [] {
      assert t[1..] == a[1..] + [0x2C, 0x20] + rest;
      assert |a| >= 2 ==> t[1] == a[1];
      assert |a| == 1 ==> t[1] == 0x2C;
      CommaBehind(a[1..], rest);
    }
  }

  lemma SplitStep(part: Text, rest: Text)
    requires CommaAt(part) == |part|
    ensures Split(part + [0x2C, 0x20] + rest) == [part] + Split(rest)
  {
    hide CommaAt;
    CommaBehind(part, rest);
    var t := part + [0x2C, 0x20] + rest;
    assert t[|part| + 2..] == rest && t[..|part|] == part;
  }

  lemma {:induction false} SplitJoin(parts: seq<Text>)
    requires parts != [] && forall i :: 0 <= i < |parts| ==> CommaAt(parts[i]) == |parts[i]|
    ensures Split(Join(parts)) == parts
  {
    hide CommaAt;
    if |parts| > 1 {
      hide Split;
      SplitStep(parts[0], Join(parts[1..]));
      SplitJoin(parts[1..]);
      assert parts == [parts[0]] + parts[1..];
    }
  }

  /** A prefix with no comma in it adds none. */
  lemma {:induction false} CommaInFront(prefix: Text, word: Text)
    requires 0x2C !in prefix && CommaAt(word) == |word|
    ensures CommaAt(prefix + word) == |prefix + word|
  {
    if prefix == [] {
      assert prefix + word == word;
    } else {
      CommaInFront(prefix[1..], word);
      assert (prefix + word)[1..] == prefix[1..] + word;
    }
  }

  lemma {:induction false} PrefixedParts(prefix: Text, words: seq<Text>)
    requires 0x2C !in prefix && forall i :: 0 <= i < |words| ==> CommaAt(words[i]) == |words[i]|
    ensures forall part :: part in Prefixed(prefix, words) ==> CommaAt(part) == |part|
  {
    hide CommaAt;
    if words != [] {
      PrefixedParts(prefix, words[..|words| - 1]);
      CommaInFront(prefix, words[|words| - 1]);
    }
  }

  lemma PartOf(prefix: Text, word: Text, other: Text)
    requires prefix == other || !(exists w :: other <= prefix + w)
    ensures WordOf(prefix + word, other) == if prefix == other then [word] else []
  {
    assert other <= prefix + word <==> prefix == other;
    assert (prefix + word)[|prefix|..] == word;
  }

  lemma {:induction false} WordsOfPrefixed(prefix: Text, words: seq<Text>, other: Text)
    requires prefix == other || !(exists word :: other <= prefix + word)
    ensures WordsOf(Prefixed(prefix, words), other) == if prefix == other then NotEmpty(words) else []
  {
    hide WordOf;
    if words != [] {
      var n := |words| - 1;
      var front, part := Prefixed(prefix, words[..n]), prefix + words[n];
      WordsOfPrefixed(prefix, words[..n], other);
      PartOf(prefix, words[n], other);
      assert (front + [part])[..|front|] == front && front + [] == front;
    }
  }

  lemma {:induction false} WordsOfConcat(a: seq<Text>, b: seq<Text>, prefix: Text)
    ensures WordsOf(a + b, prefix) == WordsOf(a, prefix) + WordsOf(b, prefix)
  {
    hide WordOf;
    if b == [] {
      assert a + b == a;
    } else {
      var n := |b| - 1;
      WordsOfConcat(a, b[..n], prefix);
      assert (a + b)[..|a| + n] == a + b[..n];
      Associate(WordsOf(a, prefix), WordsOf(b[..n], prefix), WordOf(b[n], prefix));
    }
  }

  lemma PrefixesDiffer()
    ensures TagPrefix == Runes("tag:") && GenrePrefix == Runes("genre:")
    ensures !(exists word :: TagPrefix <= GenrePrefix + word) && !(exists word :: GenrePrefix <= TagPrefix + word)
    ensures 0x2C !in TagPrefix && 0x2C !in GenrePrefix
  {
    forall word ensures !(TagPrefix <= GenrePrefix + word) && !(GenrePrefix <= TagPrefix + word) {
      assert (GenrePrefix + word)[0] == 0x67 && (TagPrefix + word)[0] == 0x74;
    }
  }

  /** Splitting the keywords at the commas gives back the tags and the genres
      that are not empty, each under its own prefix and in order, as long as none
      of them has a comma and a space in it. */
  lemma KeywordsReadBack(tags: seq<Text>, genres: seq<Text>)
    requires forall i :: 0 <= i < |tags| ==> CommaAt(tags[i]) == |tags[i]|
    requires forall i :: 0 <= i < |genres| ==> CommaAt(genres[i]) == |genres[i]|
    ensures WordsOf(Split(Keywords(tags, genres)), Runes("tag:")) == NotEmpty(tags)
    ensures WordsOf(Split(Keywords(tags, genres)), Runes("genre:")) == NotEmpty(genres)
  {
    hide CommaAt, Runes;
    var a, b := Prefixed(TagPrefix, tags), Prefixed(GenrePrefix, genres);
    PrefixesDiffer();
    PrefixedParts(TagPrefix, tags);
    PrefixedParts(GenrePrefix, genres);
    WordsOfConcat(a, b, TagPrefix);
    WordsOfConcat(a, b, GenrePrefix);
    WordsOfPrefixed(TagPrefix, tags, TagPrefix);
    WordsOfPrefixed(GenrePrefix, genres, TagPrefix);
    WordsOfPrefixed(TagPrefix, tags, GenrePrefix);
    WordsOfPrefixed(GenrePrefix, genres, GenrePrefix);
    if a + b != [] {
      SplitJoin(a + b);
    } else {
      NoKeywords();
    }
  }

  lemma NoKeywords()
    ensures Split([]) == [[]] && WordsOf([[]], Runes("tag:")) == [] && WordsOf([[]], Runes("genre:")) == []
  {
    assert |Runes("tag:")| == 4 && |Runes("genre:")| == 6;
    var none: Text := [];
    assert [none][..0] == [];
  }
}
