/** The reading text of an EPUB document, out of its XML tokens. */
module EpubText {
  import opened Common
  import opened Utf16
  import Utf8

  datatype Token = StartElement(name: Text) | EndElement(name: Text) | CharData(text: Text)

  /** Lower case, for the letters the three skipped names are made of: ASCII
      capitals and the dotted capital I. */
  function Lower(r: Rune): Rune {
    if 0x41 <= r <= 0x5A then r + 0x20 else if r == 0x130 then 0x69 else r
  }

  function ToLower(s: Text): Text {
    if s == [] then [] else [Lower(s[0])] + ToLower(s[1..])
  }

  const Script: Text := [0x73, 0x63, 0x72, 0x69, 0x70, 0x74]
  const Style: Text := [0x73, 0x74, 0x79, 0x6C, 0x65]
  const Head: Text := [0x68, 0x65, 0x61, 0x64]

  predicate Skipped(name: Text) {
    var n := ToLower(name);
    n == Script || n == Style || n == Head
  }

  lemma {:induction false} LowerEach(s: Text)
    ensures |ToLower(s)| == |s| && forall i :: 0 <= i < |s| ==> ToLower(s)[i] == Lower(s[i])
  {
    if s != [] {
      LowerEach(s[1..]);
    }
  }

  /** The name spells the word, each letter small or capital, `I` with a dot too. */
  ghost predicate Spells(name: Text, word: string) {
    && |name| == |word|
    && forall i :: 0 <= i < |word| ==>
         name[i] == word[i] as int || name[i] == word[i] as int - 0x20 || (word[i] == 'i' && name[i] == 0x130)
  }

  /** The elements whose text is left out. */
  lemma SkippedWhen(name: Text)
    ensures Skipped(name) <==> Spells(name, "script") || Spells(name, "style") || Spells(name, "head")
  {
    LowerEach(name);
    SpellsWhen(name, Script, "script");
    SpellsWhen(name, Style, "style");
    SpellsWhen(name, Head, "head");
  }

  lemma SpellsWhen(name: Text, small: Text, word: string)
    requires |small| == |word| && forall i :: 0 <= i < |word| ==> 'a' <= word[i] <= 'z' && small[i] == word[i] as int
    ensures ToLower(name) == small <==> Spells(name, word)
  {
    LowerEach(name);
    if |name| == |word| {
      forall i | 0 <= i < |word|
        ensures ToLower(name)[i] == small[i] <==>
          name[i] == word[i] as int || name[i] == word[i] as int - 0x20 || (word[i] == 'i' && name[i] == 0x130)
      {
        LowerWhen(name[i], word[i]);
      }
    }
  }

  lemma LowerWhen(r: Rune, c: char)
    requires 'a' <= c <= 'z'
    ensures Lower(r) as int == c as int <==> r as int == c as int || r as int == c as int - 0x20 || (c == 'i' && r == 0x130)
  {
  }

  /** A token's trimmed text as the bytes that would be written. */
  function Bytes8(text: Text): Bytes {
    Utf8.Encode(TrimSpace(text))
  }

  /** One text more, if it fits; the flag says that it did not. */
  function Put(b: Bytes, s: Bytes, limit: int): (Bytes, bool) {
    if |b| + |s| + 1 > limit then
      (if limit - |b| > 0 then b + s[..limit - |b|] else b, true)
    else ((if b != [] then b + [0x20] else b) + s, false)
  }

  function Walk(tokens: seq<Token>, b: Bytes, skip: nat, limit: int): (Bytes, bool)
    decreases |tokens|
  {
    if tokens == [] then (b, false)
    else
      match tokens[0]
      case StartElement(name) => Walk(tokens[1..], b, if Skipped(name) || skip > 0 then skip + 1 else 0, limit)
      case EndElement(_) => Walk(tokens[1..], b, if skip > 0 then skip - 1 else 0, limit)
      case CharData(text) =>
        if skip > 0 || Bytes8(text) == [] then Walk(tokens[1..], b, skip, limit)
        else
          var r := Put(b, Bytes8(text), limit);
          if r.1 then r else Walk(tokens[1..], r.0, skip, limit)
  }

  method AppendDocumentText(b: Bytes, tokens: seq<Token>, limit: int) returns (out: Bytes, truncated: bool)
    ensures (out, truncated) == Walk(tokens, b, 0, limit)
  {
    hide Skipped, TrimSpace, Utf8.Encode;
    out := b;
    var skipDepth := 0;
    var i := 0;
    assert tokens[0..] == tokens;
    while i < |tokens|
      invariant 0 <= i <= |tokens| && skipDepth >= 0
      invariant Walk(tokens, b, 0, limit) == Walk(tokens[i..], out, skipDepth, limit)
    {
      assert tokens[i..][0] == tokens[i] && tokens[i..][1..] == tokens[i + 1..];
      match tokens[i] {
        case StartElement(name) =>
          if Skipped(name) {
            skipDepth := skipDepth + 1;
          } else if skipDepth > 0 {
            skipDepth := skipDepth + 1;
          }
        case EndElement(_) =>
          if skipDepth > 0 {
            skipDepth := skipDepth - 1;
          }
        case CharData(text) =>
          var s := Bytes8(text);
          if skipDepth == 0 && s != [] {
            if |out| + |s| + 1 > limit {
              var room := limit - |out|;
              if room > 0 {
                assert room <= |s|;
                out := out + s[..room];
              }
              return out, true;
            }
            if |out| > 0 {
              out := out + [0x20];
            }
            out := out + s;
          }
      }
      i := i + 1;
    }
    return out, false;
  }

  // ------------------------------------------------------------------
  // Trees
  // ------------------------------------------------------------------

  datatype Node = Element(name: Text, kids: Nodes) | Chars(text: Text)

  datatype Nodes = Nil | Cons(head: Node, tail: Nodes)

  function TokensOf(n: Node): seq<Token> {
    match n
    case Element(name, kids) => [StartElement(name)] + AllTokens(kids) + [EndElement(name)]
    case Chars(text) => [CharData(text)]
  }

  function AllTokens(ns: Nodes): seq<Token> {
    match ns
    case Nil => []
    case Cons(head, tail) => TokensOf(head) + AllTokens(tail)
  }

  /** The texts without a script, style or head above them, trimmed, the empty
      ones left out. */
  function Visible(n: Node): seq<Bytes> {
    match n
    case Element(name, kids) => if Skipped(name) then [] else AllVisible(kids)
    case Chars(text) => if Bytes8(text) == [] then [] else [Bytes8(text)]
  }

  function AllVisible(ns: Nodes): seq<Bytes> {
    match ns
    case Nil => []
    case Cons(head, tail) => Visible(head) + AllVisible(tail)
  }

  /** Putting texts one after another until one does not fit. */
  function Fill(b: Bytes, texts: seq<Bytes>, limit: int): (Bytes, bool)
    decreases |texts|
  {
    if texts == [] then (b, false)
    else
      var r := Put(b, texts[0], limit);
      if r.1 then r else Fill(r.0, texts[1..], limit)
  }

  lemma {:induction false} FillConcat(b: Bytes, s: seq<Bytes>, t: seq<Bytes>, limit: int)
    ensures Fill(b, s + t, limit) ==
      if Fill(b, s, limit).1 then Fill(b, s, limit) else Fill(Fill(b, s, limit).0, t, limit)
    decreases |s|
  {
    hide Put;
    if s == [] {
      assert s + t == t;
    } else {
      assert (s + t)[0] == s[0] && (s + t)[1..] == s[1..] + t;
      var r := Put(b, s[0], limit);
      if !r.1 {
        FillConcat(r.0, s[1..], t, limit);
      }
    }
  }

  /** Inside a skipped element nothing is written, and the depth comes back. */
  lemma {:induction false} SkipsOver(n: Node, rest: seq<Token>, b: Bytes, skip: nat, limit: int)
    requires skip > 0
    ensures Walk(TokensOf(n) + rest, b, skip, limit) == Walk(rest, b, skip, limit)
    decreases n
  {
    hide Skipped, Bytes8, Put, Walk;
    match n
    case Chars(text) =>
      CharsStep(text, rest, b, skip, limit);
    case Element(name, kids) =>
      var inner := AllTokens(kids) + ([EndElement(name)] + rest);
      assert TokensOf(n) + rest == [StartElement(name)] + inner;
      StartStep(name, inner, b, skip, limit);
      SkipsAll(kids, [EndElement(name)] + rest, b, skip + 1, limit);
      EndStep(name, rest, b, skip + 1, limit);
  }

  lemma {:induction false} SkipsAll(ns: Nodes, rest: seq<Token>, b: Bytes, skip: nat, limit: int)
    requires skip > 0
    ensures Walk(AllTokens(ns) + rest, b, skip, limit) == Walk(rest, b, skip, limit)
    decreases ns
  {
    hide Skipped, Bytes8, Put, Walk, TokensOf;
    match ns
    case Nil =>
      assert [] + rest == rest;
    case Cons(head, tail) =>
      assert AllTokens(ns) + rest == TokensOf(head) + (AllTokens(tail) + rest);
      SkipsOver(head, AllTokens(tail) + rest, b, skip, limit);
      SkipsAll(tail, rest, b, skip, limit);
  }

  lemma StartStep(name: Text, rest: seq<Token>, b: Bytes, skip: nat, limit: int)
    ensures Walk([StartElement(name)] + rest, b, skip, limit) ==
      Walk(rest, b, if Skipped(name) || skip > 0 then skip + 1 else 0, limit)
  {
    hide Skipped, Bytes8, Put;
    assert ([StartElement(name)] + rest)[1..] == rest;
  }

  lemma EndStep(name: Text, rest: seq<Token>, b: Bytes, skip: nat, limit: int)
    ensures Walk([EndElement(name)] + rest, b, skip, limit) == Walk(rest, b, if skip > 0 then skip - 1 else 0, limit)
  {
    hide Skipped, Bytes8, Put;
    assert ([EndElement(name)] + rest)[1..] == rest;
  }

  lemma CharsStep(text: Text, rest: seq<Token>, b: Bytes, skip: nat, limit: int)
    ensures Walk([CharData(text)] + rest, b, skip, limit) ==
      if skip > 0 || Bytes8(text) == [] then Walk(rest, b, skip, limit)
      else if Put(b, Bytes8(text), limit).1 then Put(b, Bytes8(text), limit)
      else Walk(rest, Put(b, Bytes8(text), limit).0, skip, limit)
  {
    hide Skipped, Bytes8, Put;
    assert ([CharData(text)] + rest)[1..] == rest;
  }

  /** Walking on after texts have been put. */
  function Onward(r: (Bytes, bool), rest: seq<Token>, limit: int): (Bytes, bool) {
    if r.1 then r else Walk(rest, r.0, 0, limit)
  }

  lemma {:induction false} NodeFills(n: Node, rest: seq<Token>, b: Bytes, limit: int)
    ensures Walk(TokensOf(n) + rest, b, 0, limit) == Onward(Fill(b, Visible(n), limit), rest, limit)
    decreases n
  {
    hide Skipped, Bytes8, Put, Walk;
    match n
    case Chars(text) =>
      CharsStep(text, rest, b, 0, limit);
      FillOne(b, Bytes8(text), limit);
      FillNone(b, limit);
    case Element(name, kids) =>
      var inner := AllTokens(kids) + ([EndElement(name)] + rest);
      assert TokensOf(n) + rest == [StartElement(name)] + inner;
      StartStep(name, inner, b, 0, limit);
      if Skipped(name) {
        SkipsAll(kids, [EndElement(name)] + rest, b, 1, limit);
        EndStep(name, rest, b, 1, limit);
        FillNone(b, limit);
      } else {
        NodesFill(kids, [EndElement(name)] + rest, b, limit);
        EndStep(name, rest, Fill(b, AllVisible(kids), limit).0, 0, limit);
      }
  }

  lemma {:induction false} NodesFill(ns: Nodes, rest: seq<Token>, b: Bytes, limit: int)
    ensures Walk(AllTokens(ns) + rest, b, 0, limit) == Onward(Fill(b, AllVisible(ns), limit), rest, limit)
    decreases ns
  {
    hide Skipped, Bytes8, Put, Walk, TokensOf, Visible, Fill;
    match ns
    case Nil =>
      assert [] + rest == rest;
      FillNone(b, limit);
    case Cons(head, tail) =>
      assert AllTokens(ns) + rest == TokensOf(head) + (AllTokens(tail) + rest);
      NodeFills(head, AllTokens(tail) + rest, b, limit);
      NodesFill(tail, rest, Fill(b, Visible(head), limit).0, limit);
      FillConcat(b, Visible(head), AllVisible(tail), limit);
  }

  lemma FillOne(b: Bytes, s: Bytes, limit: int)
    ensures Fill(b, [s], limit) == Put(b, s, limit)
  {
    hide Put;
    assert [s][1..] == [];
  }

  lemma FillNone(b: Bytes, limit: int)
    ensures Fill(b, [], limit) == (b, false)
  {
  }

  /** On any tree the depth counter picks exactly the visible texts. */
  lemma WalkIsFill(ns: Nodes, b: Bytes, limit: int)
    ensures Walk(AllTokens(ns), b, 0, limit) == Fill(b, AllVisible(ns), limit)
  {
    hide Fill, Walk, AllTokens, AllVisible;
    NodesFill(ns, [], b, limit);
    assert AllTokens(ns) + [] == AllTokens(ns);
    WalkNothing(Fill(b, AllVisible(ns), limit).0, limit);
  }

  lemma WalkNothing(b: Bytes, limit: int)
    ensures Walk([], b, 0, limit) == (b, false)
  {
  }

  // ------------------------------------------------------------------
  // The limit
  // ------------------------------------------------------------------

  /** Texts joined by single spaces behind what is there. */
  function Joined(b: Bytes, texts: seq<Bytes>): Bytes
    decreases |texts|
  {
    if texts == [] then b else Joined((if b != [] then b + [0x20] else b) + texts[0], texts[1..])
  }

  ghost predicate NonEmpty(texts: seq<Bytes>) {
    forall i :: 0 <= i < |texts| ==> texts[i] != []
  }

  lemma {:induction false} JoinedGrows(b: Bytes, texts: seq<Bytes>)
    ensures b <= Joined(b, texts)
    decreases |texts|
  {
    if texts != [] {
      var next := (if b != [] then b + [0x20] else b) + texts[0];
      assert b <= next;
      JoinedGrows(next, texts[1..]);
    }
  }

  /** Starting within the limit: the whole text when no truncation is reported,
      and exactly the limit's length when it is. Truncation is reported exactly
      when the whole text is longer than the limit, or when the first text of
      an empty document fills it to the byte. */
  lemma {:induction false} FillWithin(b: Bytes, texts: seq<Bytes>, limit: int)
    requires |b| <= limit && NonEmpty(texts)
    ensures var r := Fill(b, texts, limit);
      && |r.0| <= limit
      && (!r.1 ==> r.0 == Joined(b, texts))
      && (r.1 ==> |r.0| == limit)
      && (r.1 <==> |Joined(b, texts)| > limit || (b == [] && texts != [] && |texts[0]| == limit))
    decreases |texts|
  {
    if texts != [] {
      var next := (if b != [] then b + [0x20] else b) + texts[0];
      assert texts[0] != [];
      if |b| + |texts[0]| + 1 <= limit {
        FillWithin(next, texts[1..], limit);
      } else {
        JoinedGrows(next, texts[1..]);
        PutCuts(b, texts[0], limit);
        if b == [] && |texts[0]| == limit {
          assert Put(b, texts[0], limit).1;
        }
      }
    }
  }

  lemma PutCuts(b: Bytes, s: Bytes, limit: int)
    requires |b| <= limit && |b| + |s| + 1 > limit
    ensures Put(b, s, limit) == (b + s[..limit - |b|], true)
  {
    if limit == |b| {
      assert b + s[..0] == b;
    }
  }

  /** The cut text is written without the space that would separate it: what
      comes out is the front of the whole text exactly when the cut happens in
      an empty document or leaves nothing of the text. */
  lemma CutIsFront(b: Bytes, s: Bytes, limit: int)
    requires |b| <= limit && |b| + |s| + 1 > limit && s != [] && s[0] != 0x20
    ensures Put(b, s, limit).0 <= Joined(b, [s]) <==> b == [] || |b| == limit
  {
    PutCuts(b, s, limit);
    assert [s][1..] == [];
    var whole := (if b != [] then b + [0x20] else b) + s;
    assert Joined(b, [s]) == whole;
    if b != [] && |b| < limit {
      assert (b + s[..limit - |b|])[|b|] == s[0] && whole[|b|] == 0x20;
    }
  }

  /** A tree's text under a limit. */
  lemma TreeText(ns: Nodes, b: Bytes, limit: int)
    requires |b| <= limit
    ensures var r := Walk(AllTokens(ns), b, 0, limit);
      && |r.0| <= limit
      && (!r.1 ==> r.0 == Joined(b, AllVisible(ns)))
      && (r.1 ==> |r.0| == limit)
      && (r.1 <==> |Joined(b, AllVisible(ns))| > limit
                   || (b == [] && AllVisible(ns) != [] && |AllVisible(ns)[0]| == limit))
  {
    hide Fill, Walk, AllTokens, AllVisible, Joined;
    WalkIsFill(ns, b, limit);
    AllVisibleNonEmpty(ns);
    FillWithin(b, AllVisible(ns), limit);
  }

  lemma {:induction false} AllVisibleNonEmpty(ns: Nodes)
    ensures NonEmpty(AllVisible(ns))
    decreases ns
  {
    match ns
    case Nil =>
    case Cons(head, tail) =>
      VisibleNonEmpty(head);
      AllVisibleNonEmpty(tail);
  }

  lemma {:induction false} VisibleNonEmpty(n: Node)
    ensures NonEmpty(Visible(n))
    decreases n
  {
    match n
    case Chars(text) =>
    case Element(name, kids) => AllVisibleNonEmpty(kids);
  }

  // ------------------------------------------------------------------
  // When the cut text is a front of the whole
  // ------------------------------------------------------------------

  ghost predicate Trimmed(texts: seq<Bytes>) {
    forall i :: 0 <= i < |texts| ==> texts[i] != [] && texts[i][0] != 0x20
  }

  /** Some first texts joined end exactly at the limit. */
  ghost predicate EndsAt(b: Bytes, texts: seq<Bytes>, limit: int) {
    exists k :: 0 <= k <= |texts| && |Joined(b, texts[..k])| == limit
  }

  /** Everything fits, or the limit falls into the first text of an empty
      document, or between two texts. */
  ghost predicate CutsCleanly(b: Bytes, texts: seq<Bytes>, limit: int) {
    || |Joined(b, texts)| <= limit
    || (b == [] && texts != [] && |texts[0]| >= limit)
    || EndsAt(b, texts, limit)
  }

  lemma EndsAtStep(b: Bytes, texts: seq<Bytes>, limit: int)
    requires texts != []
    ensures var next := (if b != [] then b + [0x20] else b) + texts[0];
      EndsAt(b, texts, limit) <==> |b| == limit || EndsAt(next, texts[1..], limit)
  {
    var next := (if b != [] then b + [0x20] else b) + texts[0];
    forall k | 0 < k <= |texts| ensures Joined(b, texts[..k]) == Joined(next, texts[1..][..k - 1]) {
      assert texts[..k][0] == texts[0] && texts[..k][1..] == texts[1..][..k - 1];
    }
    assert texts[..0] == [];
    if EndsAt(next, texts[1..], limit) {
      var k :| 0 <= k <= |texts[1..]| && |Joined(next, texts[1..][..k])| == limit;
      assert |Joined(b, texts[..k + 1])| == limit;
    }
    if |b| == limit {
      assert |Joined(b, texts[..0])| == limit;
    }
  }

  lemma {:induction false} EndsBehind(b: Bytes, texts: seq<Bytes>, limit: int)
    requires |b| > limit
    ensures !EndsAt(b, texts, limit)
  {
    forall k | 0 <= k <= |texts| ensures |Joined(b, texts[..k])| > limit {
      JoinedGrows(b, texts[..k]);
    }
  }

  /** The first text that does not fit. */
  lemma CutFront(b: Bytes, texts: seq<Bytes>, limit: int)
    requires |b| <= limit && texts != [] && Trimmed(texts) && |b| + |texts[0]| + 1 > limit
    ensures Put(b, texts[0], limit).0 <= Joined(b, texts) <==> CutsCleanly(b, texts, limit)
  {
    hide Put, EndsAt;
    var next := (if b != [] then b + [0x20] else b) + texts[0];
    JoinedGrows(next, texts[1..]);
    PutCuts(b, texts[0], limit);
    EndsAtStep(b, texts, limit);
    assert Joined(b, texts) == Joined(next, texts[1..]);
    var cut := b + texts[0][..limit - |b|];
    if b == [] {
      assert cut <= next;
    } else if |b| == limit {
      assert cut == b && b <= next;
    } else {
      EndsBehind(next, texts[1..], limit);
      assert cut[|b|] == texts[0][0] && next[|b|] == 0x20 && Joined(b, texts)[|b|] == 0x20;
    }
  }

  lemma {:induction false} FillFront(b: Bytes, texts: seq<Bytes>, limit: int)
    requires |b| <= limit && Trimmed(texts)
    ensures Fill(b, texts, limit).0 <= Joined(b, texts) <==> CutsCleanly(b, texts, limit)
    decreases |texts|
  {
    hide EndsAt;
    if texts != [] {
      if |b| + |texts[0]| + 1 <= limit {
        var next := (if b != [] then b + [0x20] else b) + texts[0];
        assert texts[0] != [];
        EndsAtStep(b, texts, limit);
        FillFront(next, texts[1..], limit);
      } else {
        CutFront(b, texts, limit);
      }
    }
  }

  lemma {:induction false} TrimLeftStarts(s: Text)
    ensures TrimLeft(s) != [] ==> !IsSpace(TrimLeft(s)[0])
  {
    if s != [] && IsSpace(s[0]) {
      TrimLeftStarts(s[1..]);
    }
  }

  lemma {:induction false} TrimRightIsFront(s: Text)
    ensures TrimRight(s) <= s
  {
    if s != [] && IsSpace(s[|s| - 1]) {
      TrimRightIsFront(s[..|s| - 1]);
    }
  }

  lemma TextIsTrimmed(text: Text)
    ensures Bytes8(text) != [] ==> Bytes8(text)[0] != 0x20
  {
    hide TrimLeft, TrimRight;
    TrimLeftStarts(text);
    TrimRightIsFront(TrimLeft(text));
  }

  lemma {:induction false} AllVisibleTrimmed(ns: Nodes)
    ensures Trimmed(AllVisible(ns))
    decreases ns
  {
    match ns
    case Nil =>
    case Cons(head, tail) =>
      VisibleTrimmed(head);
      AllVisibleTrimmed(tail);
  }

  lemma {:induction false} VisibleTrimmed(n: Node)
    ensures Trimmed(Visible(n))
    decreases n
  {
    match n
    case Chars(text) => TextIsTrimmed(text);
    case Element(name, kids) => AllVisibleTrimmed(kids);
  }

  /** What comes out of a tree under a limit is a front of its whole text exactly
      when everything fits or the limit falls into the first text or between two
      texts: the space before a text that is cut is not written. */
  lemma TreeTextIsFront(ns: Nodes, b: Bytes, limit: int)
    requires |b| <= limit
    ensures Walk(AllTokens(ns), b, 0, limit).0 <= Joined(b, AllVisible(ns)) <==> CutsCleanly(b, AllVisible(ns), limit)
  {
    hide Fill, Walk, AllTokens, AllVisible, Joined, CutsCleanly;
    WalkIsFill(ns, b, limit);
    AllVisibleTrimmed(ns);
    FillFront(b, AllVisible(ns), limit);
  }
}
