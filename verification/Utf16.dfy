/** UTF-16 (sections 2.1 and 2.2 of RFC 2781). */
module Utf16 {
  import opened Common

  /** A Unicode scalar value. */
  type Rune = r: int | 0 <= r <= 0x10_FFFF && !(0xD800 <= r < 0xE000)

  type Text = seq<Rune>

  type CodeUnit = u: int | 0 <= u < 0x1_0000

  function EncodeRune(r: Rune): (us: seq<CodeUnit>)
    ensures |us| == if r < 0x1_0000 then 1 else 2
  {
    if r < 0x1_0000 then [r]
    else [0xD800 + (r - 0x1_0000) / 0x400, 0xDC00 + (r - 0x1_0000) % 0x400]
  }

  function Encode(s: Text): seq<CodeUnit> {
    if s == [] then [] else EncodeRune(s[0]) + Encode(s[1..])
  }

  /** A surrogate that is not half of a pair decodes to U+FFFD. */
  function Decode(us: seq<CodeUnit>): Text {
    if us == [] then []
    else if us[0] < 0xD800 || us[0] >= 0xE000 then [us[0]] + Decode(us[1..])
    else if us[0] < 0xDC00 && |us| > 1 && 0xDC00 <= us[1] < 0xE000 then
      [0x1_0000 + (us[0] - 0xD800) * 0x400 + (us[1] - 0xDC00)] + Decode(us[2..])
    else [0xFFFD] + Decode(us[1..])
  }

  lemma {:induction false} DecodeEncode(s: Text)
    ensures Decode(Encode(s)) == s
  {
    if s != [] {
      var us, rest := EncodeRune(s[0]), Encode(s[1..]);
      DecodeEncode(s[1..]);
      assert (us + rest)[|us|..] == rest;
      assert s == [s[0]] + s[1..];
    }
  }

  lemma DecodeRune(r: Rune, rest: seq<CodeUnit>)
    ensures Decode(EncodeRune(r) + rest) == [r] + Decode(rest)
  {
    var us := EncodeRune(r);
    assert (us + rest)[|us|..] == rest;
  }

  lemma DecodeStray(u: CodeUnit, t: Text)
    requires 0xD800 <= u < 0xE000
    ensures Decode([u] + Encode(t)) == [0xFFFD] + t
  {
    assert ([u] + Encode(t))[1..] == Encode(t);
    assert t != [] ==> Encode(t)[0] == EncodeRune(t[0])[0];
    DecodeEncode(t);
  }

  /** A surrogate on its own among text becomes U+FFFD and disturbs nothing. */
  lemma {:induction false} StraySurrogate(s: Text, u: CodeUnit, t: Text)
    requires 0xD800 <= u < 0xE000
    ensures Decode(Encode(s) + ([u] + Encode(t))) == s + ([0xFFFD] + t)
  {
    hide Decode, EncodeRune;
    var tail, after := [u] + Encode(t), [0xFFFD] + t;
    if s == [] {
      assert Encode(s) + tail == tail && s + after == after;
      DecodeStray(u, t);
    } else {
      StraySurrogate(s[1..], u, t);
      DecodeRune(s[0], Encode(s[1..]) + tail);
      Associate(EncodeRune(s[0]), Encode(s[1..]), tail);
      Associate([s[0]], s[1..], after);
      assert s == [s[0]] + s[1..];
    }
  }

  // ------------------------------------------------------------------
  // White space
  // ------------------------------------------------------------------

  predicate IsSpace(r: Rune) {
    || 0x09 <= r <= 0x0D || r == 0x20 || r == 0x85 || r == 0xA0 || r == 0x1680 || 0x2000 <= r <= 0x200A
    || r == 0x2028 || r == 0x2029 || r == 0x202F || r == 0x205F || r == 0x3000
  }

  function TrimLeft(s: Text): Text {
    if s != [] && IsSpace(s[0]) then TrimLeft(s[1..]) else s
  }

  function TrimRight(s: Text): Text {
    if s != [] && IsSpace(s[|s| - 1]) then TrimRight(s[..|s| - 1]) else s
  }

  function TrimSpace(s: Text): Text {
    TrimRight(TrimLeft(s))
  }

  ghost predicate Blank(s: Text) {
    forall i :: 0 <= i < |s| ==> IsSpace(s[i])
  }

  lemma {:induction false} TrimLeftIs(a: Text, t: Text)
    requires Blank(a) && (t != [] ==> !IsSpace(t[0]))
    ensures TrimLeft(a + t) == t
  {
    if a == [] {
      assert a + t == t;
    } else {
      TrimLeftIs(a[1..], t);
      assert (a + t)[1..] == a[1..] + t;
    }
  }

  lemma {:induction false} TrimRightIs(t: Text, b: Text)
    requires Blank(b) && (t != [] ==> !IsSpace(t[|t| - 1]))
    ensures TrimRight(t + b) == t
  {
    if b == [] {
      assert t + b == t;
    } else {
      TrimRightIs(t, b[..|b| - 1]);
      assert (t + b)[..|t + b| - 1] == t + b[..|b| - 1];
    }
  }

  /** White space on both sides comes off, and nothing else. */
  lemma TrimSpaceIs(a: Text, t: Text, b: Text)
    requires Blank(a) && Blank(b) && (t != [] ==> !IsSpace(t[0]) && !IsSpace(t[|t| - 1]))
    ensures TrimSpace(a + (t + b)) == t
  {
    if t == [] {
      assert a + (t + b) == (a + b) + [];
      TrimLeftIs(a + b, []);
      TrimRightIs([], []);
    } else {
      TrimLeftIs(a, t + b);
      TrimRightIs(t, b);
    }
  }
}
