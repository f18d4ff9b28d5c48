/** A reader of the metadata children, and what it finds in those that are
    written. */
module OpfReader {
  import opened Common
  import opened Decimal
  import opened Utf16
  import opened Opf
  import Utf8

  // ------------------------------------------------------------------
  // The reader
  // ------------------------------------------------------------------

  /** An element's tag with its attributes, and its text; of an empty element
      the tag up to the value of its last attribute, and that value. */
  type Item = (string, Bytes)

  function Chars(b: Bytes): string {
    seq(|b|, i requires 0 <= i < |b| => b[i] as char)
  }

  /** Where `c` first stands, or the length. */
  function Upto(b: Bytes, c: Byte): (i: nat)
    ensures i <= |b| && (i < |b| ==> b[i] == c) && forall j :: 0 <= j < i ==> b[j] != c
  {
    if b == [] || b[0] == c then 0 else 1 + Upto(b[1..], c)
  }

  /** The place behind the last `c`, or 0. */
  function Behind(b: Bytes, c: Byte): (i: nat)
    ensures i <= |b| && (i > 0 ==> b[i - 1] == c) && forall j :: i <= j < |b| ==> b[j] != c
  {
    if b == [] || b[|b| - 1] == c then |b| else Behind(b[..|b| - 1], c)
  }

  const Indented: Bytes := [0x20, 0x20, 0x20, 0x20, 0x3C]

  /** One line: an element and what follows it. */
  function ReadItem(b: Bytes): (r: Option<(Item, Bytes)>)
    ensures r.Some? ==> |r.value.1| < |b|
  {
    if !(Indented <= b) then None
    else
      var i := Upto(b[5..], 0x3E);
      if 5 + i == |b| then None
      else if i > 0 && b[4 + i] == 0x2F then ReadEmpty(b[5..4 + i], b[6 + i..])
      else ReadElement(b[5..5 + i], b[6 + i..])
  }

  /** `tag="value"` in the place of `tag` and `value`. */
  function ReadEmpty(tag: Bytes, rest: Bytes): (r: Option<(Item, Bytes)>)
    ensures r.Some? ==> |r.value.1| < |rest|
  {
    if rest == [] || rest[0] != 0x0A || tag == [] || tag[|tag| - 1] != 0x22 then None
    else
      var w := tag[..|tag| - 1];
      Some(((Chars(w[..Behind(w, 0x22)]), w[Behind(w, 0x22)..]), rest[1..]))
  }

  function ReadElement(tag: Bytes, rest: Bytes): (r: Option<(Item, Bytes)>)
    ensures r.Some? ==> |r.value.1| < |rest|
  {
    var j := Upto(rest, 0x3C);
    var close := [0x3C, 0x2F] + tag[..Upto(tag, 0x20)] + [0x3E, 0x0A];
    if close <= rest[j..] then Some(((Chars(tag), rest[..j]), rest[j + |close|..])) else None
  }

  function ReadItems(b: Bytes): Option<seq<Item>>
    decreases |b|
  {
    if b == [] then Some([])
    else
      match ReadItem(b)
      case None => None
      case Some(first) =>
        match ReadItems(first.1)
        case None => None
        case Some(more) => Some([first.0] + more)
  }

  // ------------------------------------------------------------------
  // One written line
  // ------------------------------------------------------------------

  /** Characters a tag may have. */
  ghost predicate Safe(s: string) {
    forall i :: 0 <= i < |s| ==> s[i] < 128 as char && s[i] != '>'
  }

  lemma SafeConcat(a: string, b: string)
    requires Safe(a) && Safe(b)
    ensures Safe(a + b)
  {
  }

  lemma CharsOfAscii(s: string)
    requires Safe(s)
    ensures Chars(Ascii(s)) == s && 0x3E !in Ascii(s)
  {
    forall i | 0 <= i < |s| ensures Ascii(s)[i] as char == s[i] && Ascii(s)[i] != 0x3E {
      assert s[i] as int % 0x100 == s[i] as int;
    }
  }

  lemma {:induction false} UptoIs(b: Bytes, c: Byte, i: nat)
    requires i < |b| && b[i] == c && forall j :: 0 <= j < i ==> b[j] != c
    ensures Upto(b, c) == i
  {
    if i > 0 {
      UptoIs(b[1..], c, i - 1);
    }
  }

  /** Up to the first `c` behind `a`. */
  lemma UptoBehind(a: Bytes, c: Byte, rest: Bytes)
    requires c !in a
    ensures Upto(a + ([c] + rest), c) == |a|
  {
    UptoIs(a + ([c] + rest), c, |a|);
  }

  ghost predicate Named(name: string, attrs: string) {
    && Safe(name) && Safe(attrs) && ' ' !in name && name != ""
    && (attrs != "" ==> attrs[0] == ' ' && attrs[|attrs| - 1] != '/') && name[|name| - 1] != '/'
  }

  lemma ElementBytes(name: string, attrs: string, value: Bytes)
    ensures LineText(Element(name, attrs, value)) ==
      Indented + (Ascii(name + attrs) + ([0x3E] + (value + (([0x3C, 0x2F] + Ascii(name) + [0x3E, 0x0A])))))
  {
    hide Ascii;
    var tag := name + attrs;
    AsciiConcat("    <" + tag, ">");
    AsciiConcat("    <", tag);
    assert "    <" + tag + ">" == Element(name, attrs, value).open;
    AsciiConcat("</" + name, ">\n");
    AsciiConcat("</", name);
    LiteralBytes();
  }

  lemma LiteralBytes()
    ensures Ascii("    <") == Indented && Ascii(">") == [0x3E] && Ascii("</") == [0x3C, 0x2F] && Ascii(">\n") == [0x3E, 0x0A]
    ensures Ascii("\"/>\n") == [0x22, 0x2F, 0x3E, 0x0A]
  {
  }

  lemma NameOfTag(name: string, attrs: string)
    requires Named(name, attrs)
    ensures var tag := Ascii(name + attrs);
      && tag != [] && tag[|tag| - 1] != 0x2F && 0x3E !in tag && Chars(tag) == name + attrs
      && tag[..Upto(tag, 0x20)] == Ascii(name)
  {
    SafeConcat(name, attrs);
    CharsOfAscii(name + attrs);
    var tag := Ascii(name + attrs);
    forall i | 0 <= i < |name| ensures tag[i] != 0x20 && tag[i] == Ascii(name)[i] {
      assert (name + attrs)[i] == name[i];
    }
    if attrs != "" {
      assert tag[|name|] == 0x20;
      UptoIs(tag, 0x20, |name|);
    } else {
      assert name + attrs == name;
    }
    assert (name + attrs)[|name + attrs| - 1] != '/';
  }

  lemma ElementReads(name: string, attrs: string, value: Bytes, rest: Bytes)
    requires Named(name, attrs) && 0x3C !in value
    ensures ReadItem(LineText(Element(name, attrs, value)) + rest) == Some(((name + attrs, value), rest))
  {
    hide Ascii, Chars, LineText, Element, ReadItem, ReadElement;
    ElementBytes(name, attrs, value);
    NameOfTag(name, attrs);
    var tag, close := Ascii(name + attrs), [0x3C, 0x2F] + Ascii(name) + [0x3E, 0x0A];
    Regroup(Indented, tag, value, close, rest);
    TagReads(tag, value + (close + rest));
    ElementRests(tag, value, close, rest);
  }

  lemma Regroup(a: Bytes, b: Bytes, c: Bytes, d: Bytes, e: Bytes)
    ensures a + (b + ([0x3E] + (c + d))) + e == a + (b + ([0x3E] + (c + (d + e))))
  {
    assert (c + d) + e == c + (d + e);
    assert ([0x3E] + (c + d)) + e == [0x3E] + ((c + d) + e);
    assert (b + ([0x3E] + (c + d))) + e == b + (([0x3E] + (c + d)) + e);
  }

  /** The tag of an element or of an empty one is found. */
  lemma TagReads(tag: Bytes, tail: Bytes)
    requires 0x3E !in tag && tag != []
    ensures ReadItem(Indented + (tag + ([0x3E] + tail))) ==
      if tag[|tag| - 1] == 0x2F then ReadEmpty(tag[..|tag| - 1], tail) else ReadElement(tag, tail)
  {
    hide ReadEmpty, ReadElement;
    var b := Indented + (tag + ([0x3E] + tail));
    assert b[5..] == tag + ([0x3E] + tail);
    UptoBehind(tag, 0x3E, tail);
    assert b[5..5 + |tag|] == tag && b[6 + |tag|..] == tail;
    assert b[5..4 + |tag|] == tag[..|tag| - 1];
    assert b[4 + |tag|] == tag[|tag| - 1];
  }

  lemma ElementRests(tag: Bytes, value: Bytes, close: Bytes, rest: Bytes)
    requires 0x3C !in value && close == [0x3C, 0x2F] + tag[..Upto(tag, 0x20)] + [0x3E, 0x0A]
    ensures ReadElement(tag, value + (close + rest)) == Some(((Chars(tag), value), rest))
  {
    hide Chars;
    var tail := value + (close + rest);
    assert close + rest == [0x3C] + (close + rest)[1..];
    UptoBehind(value, 0x3C, (close + rest)[1..]);
    assert tail[..|value|] == value && tail[|value|..] == close + rest;
    assert tail[|value| + |close|..] == rest;
  }

  lemma {:induction false} BehindIs(b: Bytes, c: Byte, i: nat)
    requires 0 < i <= |b| && b[i - 1] == c && forall j :: i <= j < |b| ==> b[j] != c
    ensures Behind(b, c) == i
  {
    if i < |b| {
      BehindIs(b[..|b| - 1], c, i);
    }
  }

  /** An empty element whose last attribute holds the value. */
  lemma EmptyReads(head: string, value: Bytes, rest: Bytes)
    requires Safe(head) && head != "" && head[|head| - 1] == '"' && 0x22 !in value && 0x3E !in value
    ensures ReadItem(LineText(Line("    <" + head, value, "\"/>\n")) + rest) == Some(((head, value), rest))
  {
    hide Ascii, Chars, ReadItem;
    CharsOfAscii(head);
    AsciiConcat("    <", head);
    LiteralBytes();
    var h := Ascii(head);
    var tag := h + value + [0x22, 0x2F];
    assert LineText(Line("    <" + head, value, "\"/>\n")) + rest == Indented + (tag + ([0x3E] + ([0x0A] + rest)));
    TagReads(tag, [0x0A] + rest);
    assert tag[..|tag| - 1] == h + value + [0x22];
    EmptyRests(h, value, rest) by { LastOfAscii(head); }
  }

  lemma LastOfAscii(head: string)
    requires Safe(head) && head != "" && head[|head| - 1] == '"'
    ensures Ascii(head)[|head| - 1] == 0x22
  {
  }

  lemma EmptyRests(h: Bytes, value: Bytes, rest: Bytes)
    requires h != [] && h[|h| - 1] == 0x22 && 0x22 !in value
    ensures ReadEmpty(h + value + [0x22], [0x0A] + rest) == Some(((Chars(h), value), rest))
  {
    hide Chars;
    var tag := h + value + [0x22];
    var w := h + value;
    assert tag[..|tag| - 1] == w;
    BehindIs(w, 0x22, |h|);
    assert w[..|h|] == h && w[|h|..] == value;
    assert ([0x0A] + rest)[1..] == rest;
  }

  // ------------------------------------------------------------------
  // Any number of lines
  // ------------------------------------------------------------------

  function Before(items: seq<Item>, more: Option<seq<Item>>): Option<seq<Item>> {
    if more.None? then None else Some(items + more.value)
  }

  /** The lines read as the items, whatever follows. */
  ghost predicate Gives(ls: seq<Line>, items: seq<Item>) {
    forall rest :: ReadItems(Render(ls) + rest) == Before(items, ReadItems(rest))
  }

  lemma GivesNone()
    ensures Gives([], [])
  {
    hide ReadItem;
    RenderNothing();
    forall rest ensures ReadItems(Render([]) + rest) == Before([], ReadItems(rest)) {
      assert [] + rest == rest;
      assert ReadItems(rest).Some? ==> [] + ReadItems(rest).value == ReadItems(rest).value;
    }
  }

  lemma BeforeTwice(x: seq<Item>, y: seq<Item>, more: Option<seq<Item>>)
    ensures Before(x, Before(y, more)) == Before(x + y, more)
  {
    if more.Some? {
      Associate(x, y, more.value);
    }
  }

  lemma GivesConcat(a: seq<Line>, x: seq<Item>, b: seq<Line>, y: seq<Item>)
    requires Gives(a, x) && Gives(b, y)
    ensures Gives(a + b, x + y)
  {
    hide ReadItems, Render, Before;
    RenderConcat(a, b);
    forall rest ensures ReadItems(Render(a + b) + rest) == Before(x + y, ReadItems(rest)) {
      Associate(Render(a), Render(b), rest);
      BeforeTwice(x, y, ReadItems(rest));
    }
  }

  lemma GivesOne(l: Line, item: Item)
    requires forall rest :: ReadItem(LineText(l) + rest) == Some((item, rest))
    ensures Gives([l], [item])
  {
    hide ReadItem, LineText;
    assert [l][..0] == [];
    RenderNothing();
    RenderLast([], l);
    assert [] + [l] == [l];
    forall rest ensures ReadItems(Render([l]) + rest) == Before([item], ReadItems(rest)) {
      assert Render([l]) == LineText(l);
      assert LineText(l) + rest != [];
    }
  }

  lemma ElementGives(name: string, attrs: string, value: Bytes)
    requires Named(name, attrs) && 0x3C !in value
    ensures Gives([Element(name, attrs, value)], [(name + attrs, value)])
  {
    hide ReadItem, LineText, Element, Gives, Named;
    forall rest ensures ReadItem(LineText(Element(name, attrs, value)) + rest) == Some(((name + attrs, value), rest)) {
      ElementReads(name, attrs, value, rest);
    }
    GivesOne(Element(name, attrs, value), (name + attrs, value));
  }

  lemma EmptyGives(head: string, value: Bytes)
    requires Safe(head) && head != "" && head[|head| - 1] == '"' && 0x22 !in value && 0x3E !in value
    ensures Gives([Line("    <" + head, value, "\"/>\n")], [(head, value)])
  {
    hide ReadItem, LineText, Gives, Safe;
    var l := Line("    <" + head, value, "\"/>\n");
    forall rest ensures ReadItem(LineText(l) + rest) == Some(((head, value), rest)) {
      EmptyReads(head, value, rest);
    }
    GivesOne(l, (head, value));
  }
}
