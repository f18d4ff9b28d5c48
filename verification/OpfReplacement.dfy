/** One replacement after another. */
module OpfReplacement {
  import opened Common
  import opened Opf
  import opened OpfLaws

  /** What a replacement puts between the open tag and the rest. */
  function Fresh(x: Input): Bytes {
    [0x0A] + Render(Lines(x)) + Indent + CloseTag
  }

  lemma IndexIs(b: Bytes, pat: Bytes, i: nat, k: nat)
    requires i <= k <= |b| && StandsAt(b, k, pat) && forall j :: i <= j < k ==> !StandsAt(b, j, pat)
    ensures IndexFrom(b, pat, i) == Some(k)
  {
    var r := IndexFrom(b, pat, i);
    assert r.Some? ==> StandsAt(b, r.value, pat);
  }

  /** What stands within a shared front stands in both. */
  lemma SameFront(a: Bytes, b: Bytes, n: nat, i: nat, pat: Bytes)
    requires n <= |a| && n <= |b| && a[..n] == b[..n] && i + |pat| <= n
    ensures StandsAt(a, i, pat) <==> StandsAt(b, i, pat)
  {
    assert a[i..i + |pat|] == a[..n][i..i + |pat|];
    assert b[i..i + |pat|] == b[..n][i..i + |pat|];
  }

  lemma Located(doc: Bytes)
    requires Locate(doc).Ok?
    ensures var p := Locate(doc).value;
      && IndexFrom(doc, OpenTag, 0) == Some(p.open) && IndexFrom(doc, CloseTag, p.open) == Some(p.close)
      && IndexFrom(doc, [0x3E], p.open) == Some(p.tagEnd - 1)
      && doc[p.tagEnd - 1] == 0x3E && StandsAt(doc, p.tagEnd - 1, [0x3E])
  {
    hide Ascii;
    var p := Locate(doc).value;
    CloseTagEnds(doc, p.close);
    var gt := IndexFrom(doc, [0x3E], p.open);
    assert gt.Some? && p.tagEnd == gt.value + 1;
    assert doc[gt.value..gt.value + 1] == [0x3E];
    assert doc[gt.value..gt.value + 1][0] == doc[gt.value];
  }

  /** The open tag itself has no `>`, so its end comes after it. */
  lemma TagHasNoEnd(doc: Bytes)
    requires Locate(doc).Ok?
    ensures Locate(doc).value.tagEnd >= Locate(doc).value.open + 10
  {
    hide Ascii, Locate;
    var p := Locate(doc).value;
    Located(doc);
    if p.tagEnd - 1 < p.open + 9 {
      var k := p.tagEnd - 1 - p.open;
      assert doc[p.open..p.open + 9][k] == doc[p.tagEnd - 1];
      OpenTagBytes();
    }
  }

  lemma OpenTagBytes()
    ensures |OpenTag| == 9 && forall k :: 0 <= k < 9 ==> OpenTag[k] != 0x3E
  {
    hide Ascii;
  }

  /** A document with the same bytes up to the open tag's end has it at the
      same place. */
  lemma SameOpen(doc: Bytes, m: Bytes)
    requires Locate(doc).Ok? && Locate(doc).value.tagEnd <= |m|
    requires m[..Locate(doc).value.tagEnd] == doc[..Locate(doc).value.tagEnd]
    ensures IndexFrom(m, OpenTag, 0) == Some(Locate(doc).value.open)
    ensures IndexFrom(m, [0x3E], Locate(doc).value.open) == Some(Locate(doc).value.tagEnd - 1)
  {
    hide Ascii, StandsAt, Locate, IndexFrom;
    var p := Locate(doc).value;
    var n := p.tagEnd;
    Located(doc);
    TagHasNoEnd(doc);
    OpenTagBytes();
    SameFront(doc, m, n, p.open, OpenTag);
    forall j | 0 <= j < p.open ensures !StandsAt(m, j, OpenTag) {
      SameFront(doc, m, n, j, OpenTag);
    }
    IndexIs(m, OpenTag, 0, p.open);
    SameFront(doc, m, n, n - 1, [0x3E]);
    forall j | p.open <= j < n - 1 ensures !StandsAt(m, j, [0x3E]) {
      SameFront(doc, m, n, j, [0x3E]);
    }
    IndexIs(m, [0x3E], p.open, n - 1);
  }

  /** The first `>` after the open tag comes before the first close tag, or is
      that close tag's own. */
  predicate EndsFirst(p: Place) {
    p.tagEnd <= p.close
  }

  lemma OtherwiseInClose(doc: Bytes)
    requires Locate(doc).Ok? && !EndsFirst(Locate(doc).value)
    ensures Locate(doc).value.tagEnd == Locate(doc).value.close + 11
  {
    hide Ascii, Locate;
    var p := Locate(doc).value;
    CloseTagBytes();
    Located(doc);
    var k := p.tagEnd - 1 - p.close;
    assert doc[p.close..p.close + 11][k] == doc[p.tagEnd - 1];
  }

  /** No close tag starts before the new one. */
  lemma NoneInTag(doc: Bytes, m: Bytes, j: nat)
    requires Locate(doc).Ok? && EndsFirst(Locate(doc).value) && Locate(doc).value.tagEnd <= |m|
    requires m[..Locate(doc).value.tagEnd] == doc[..Locate(doc).value.tagEnd]
    requires Locate(doc).value.open <= j < Locate(doc).value.tagEnd
    ensures !StandsAt(m, j, CloseTag)
  {
    hide Ascii, Locate;
    var n := Locate(doc).value.tagEnd;
    CloseTagBytes();
    Located(doc);
    if j + 11 <= n {
      SameFront(doc, m, n, j, CloseTag);
    } else if j + 11 <= |m| {
      assert m[n - 1] == m[..n][n - 1] && doc[n - 1] == doc[..n][n - 1];
      assert m[j..j + 11][n - 1 - j] == m[n - 1];
    }
  }

  lemma StandsBehind(front: Bytes, b: Bytes, i: nat, pat: Bytes)
    ensures StandsAt(front + b, |front| + i, pat) <==> StandsAt(b, i, pat)
  {
    if i + |pat| <= |b| {
      assert (front + b)[|front| + i..|front| + i + |pat|] == b[i..i + |pat|];
    }
  }

  lemma FirstByte(b: Bytes, i: nat)
    requires i < |b| && b[i] != 0x3C
    ensures !StandsAt(b, i, CloseTag)
  {
    hide Ascii;
    CloseTagBytes();
    if i + 11 <= |b| {
      assert b[i..i + 11][0] == b[i];
    }
  }

  lemma NoneInBody(x: Input, front: Bytes, rest: Bytes, j: nat)
    requires |front| <= j < |front| + |Fresh(x)| - 11
    ensures !StandsAt(front + Fresh(x) + rest, j, CloseTag)
  {
    hide Ascii, Lines, Render, StandsAt, Sealed;
    var body, m := Render(Lines(x)), front + Fresh(x) + rest;
    var i, tail := j - |front|, Indent + CloseTag + rest;
    BodySealed(x);
    CloseTagBytes();
    assert m == (front + [0x0A]) + (body + tail);
    if 1 <= i <= |body| {
      SealedBefore(body, tail, i - 1);
      StandsBehind(front + [0x0A], body + tail, i - 1, CloseTag);
    } else {
      assert m[j] == Fresh(x)[i] && (Fresh(x)[i] == 0x0A || Fresh(x)[i] == 0x20);
      FirstByte(m, j);
    }
  }

  /** After a replacement: the open tag stands where it stood, and the first
      close tag is the new one, unless the first `>` belonged to the old one. */
  lemma Replaced(doc: Bytes, x: Input)
    requires Locate(doc).Ok?
    ensures var p, m := Locate(doc).value, Mutate(doc, x).value;
      Locate(m) == Ok(if EndsFirst(p) then p.(close := p.tagEnd + |Fresh(x)| - 11) else p)
  {
    hide Ascii, Lines, Render, Locate, StandsAt, EndsFirst;
    var p, m := Locate(doc).value, Mutate(doc, x).value;
    var n := p.tagEnd;
    Layout(doc, x);
    SameOpen(doc, m);
    TagHasNoEnd(doc);
    if EndsFirst(p) {
      var c := n + |Fresh(x)| - 11;
      forall j | p.open <= j < c ensures !StandsAt(m, j, CloseTag) {
        if j < n {
          NoneInTag(doc, m, j);
        } else {
          NoneInBody(x, doc[..n], doc[p.close + 11..], j);
        }
      }
      NewClose(doc[..n], x, doc[p.close + 11..]);
      IndexIs(m, CloseTag, p.open, c);
      LocateIs(m, p.open, n, c);
    } else {
      OtherwiseInClose(doc);
      Located(doc);
      SameFront(doc, m, n, p.close, CloseTag);
      forall j | p.open <= j < p.close ensures !StandsAt(m, j, CloseTag) {
        SameFront(doc, m, n, j, CloseTag);
      }
      CloseTagBytes();
      IndexIs(m, CloseTag, p.open, p.close);
      LocateIs(m, p.open, n, p.close);
    }
  }

  lemma LocateIs(m: Bytes, open: nat, tagEnd: nat, close: nat)
    requires IndexFrom(m, OpenTag, 0) == Some(open) && tagEnd > 0
    requires open <= |m| && IndexFrom(m, [0x3E], open) == Some(tagEnd - 1)
    requires IndexFrom(m, CloseTag, open) == Some(close)
    ensures Locate(m) == Ok(Place(open, tagEnd, close))
  {
    hide IndexFrom, Ascii;
  }

  lemma NewClose(front: Bytes, x: Input, rest: Bytes)
    ensures |Fresh(x)| >= 11
    ensures StandsAt(front + Fresh(x) + rest, |front| + |Fresh(x)| - 11, CloseTag)
  {
    hide Ascii, Lines, Render;
    CloseTagBytes();
    var k := |Fresh(x)| - 11;
    assert Fresh(x)[k..] == CloseTag;
    assert (front + Fresh(x) + rest)[|front| + k..|front| + k + 11] == Fresh(x)[k..];
  }

  /** Everything up to the end of the open tag and everything behind the close
      tag stays; only what lies between is new. */
  lemma Layout(doc: Bytes, x: Input)
    requires Locate(doc).Ok?
    ensures Mutate(doc, x).Ok?
    ensures var p := Locate(doc).value;
      && Mutate(doc, x).value == doc[..p.tagEnd] + Fresh(x) + doc[p.close + 11..]
      && Mutate(doc, x).value[..p.tagEnd] == doc[..p.tagEnd]
  {
    hide Ascii, Lines, Render, Locate;
    var p := Locate(doc).value;
    assert doc[..p.tagEnd] == doc[..p.open] + doc[p.open..p.tagEnd];
  }

  /** Replacing twice is replacing once with the second fields, for every
      document whose open tag ends before its first close tag, and for no
      other. */
  lemma LastReplacementWins(doc: Bytes, a: Input, b: Input)
    requires Locate(doc).Ok?
    ensures Mutate(doc, a).Ok?
    ensures Mutate(Mutate(doc, a).value, b) == Mutate(doc, b) <==> EndsFirst(Locate(doc).value)
  {
    hide Ascii, Lines, Render, Locate, Fresh, Mutate;
    Layout(doc, a);
    Layout(doc, b);
    var p, m := Locate(doc).value, Mutate(doc, a).value;
    var n, rest := p.tagEnd, doc[p.close + 11..];
    Replaced(doc, a);
    Layout(m, b);
    NewClose(doc[..n], a, rest);
    if EndsFirst(p) {
      assert m[n + |Fresh(a)|..] == rest;
    } else {
      OtherwiseInClose(doc);
      assert m[n..] == Fresh(a) + rest;
    }
  }
}
