/** UTF-8, and text escaped for XML. */
module Utf8 {
  import opened Common
  import opened Utf16

  function EncodeRune(r: Rune): (b: Bytes)
    ensures 1 <= |b| <= 4
    ensures r < 0x80 ==> b == [r as Byte]
    ensures r >= 0x80 ==> forall i :: 0 <= i < |b| ==> b[i] >= 0x80
  {
    if r < 0x80 then [r as Byte]
    else if r < 0x800 then [(0xC0 + r / 0x40) as Byte, (0x80 + r % 0x40) as Byte]
    else if r < 0x1_0000 then [(0xE0 + r / 0x1000) as Byte, (0x80 + r / 0x40 % 0x40) as Byte, (0x80 + r % 0x40) as Byte]
    else [(0xF0 + r / 0x4_0000) as Byte, (0x80 + r / 0x1000 % 0x40) as Byte, (0x80 + r / 0x40 % 0x40) as Byte,
          (0x80 + r % 0x40) as Byte]
  }

  function Encode(s: Text): Bytes {
    if s == [] then [] else EncodeRune(s[0]) + Encode(s[1..])
  }

  /** The characters XML allows; any other is written as U+FFFD. */
  predicate XmlChar(r: Rune) {
    r == 0x09 || r == 0x0A || r == 0x0D || 0x20 <= r <= 0xD7FF || 0xE000 <= r <= 0xFFFD || r >= 0x1_0000
  }

  function Clean(s: Text): Text {
    if s == [] then [] else [if XmlChar(s[0]) then s[0] else 0xFFFD] + Clean(s[1..])
  }

  /** The named or numbered stand-in of a character that is not written as
      itself. */
  function Entity(r: Rune): Bytes {
    if r == 0x22 then Ascii("&#34;")
    else if r == 0x27 then Ascii("&#39;")
    else if r == 0x26 then Ascii("&amp;")
    else if r == 0x3C then Ascii("&lt;")
    else if r == 0x3E then Ascii("&gt;")
    else if r == 0x09 then Ascii("&#x9;")
    else if r == 0x0A then Ascii("&#xA;")
    else if r == 0x0D then Ascii("&#xD;")
    else []
  }

  function EscapeRune(r: Rune): Bytes {
    if Entity(r) != [] then Entity(r) else EncodeRune(if XmlChar(r) then r else 0xFFFD)
  }

  function Escape(s: Text): Bytes {
    if s == [] then [] else EscapeRune(s[0]) + Escape(s[1..])
  }

  // ------------------------------------------------------------------
  // What an XML reader makes of character data
  // ------------------------------------------------------------------

  /** The value of a digit, decimal or hexadecimal. */
  function DigitOf(c: Byte): Option<nat> {
    if 0x30 <= c <= 0x39 then Some(c as int - 0x30)
    else if 0x41 <= c <= 0x46 then Some(c as int - 0x37)
    else if 0x61 <= c <= 0x66 then Some(c as int - 0x57)
    else None
  }

  predicate IsDigitIn(c: Byte, base: nat) {
    DigitOf(c).Some? && DigitOf(c).value < base
  }

  function DigitsIn(b: Bytes, base: nat): (n: nat)
    ensures n <= |b| && (forall i :: 0 <= i < n ==> IsDigitIn(b[i], base)) && (n < |b| ==> !IsDigitIn(b[n], base))
  {
    if b == [] || !IsDigitIn(b[0], base) then 0 else 1 + DigitsIn(b[1..], base)
  }

  /** A number in base 10 or 16. */
  function NumberIn(b: Bytes, base: nat): nat
    requires forall i :: 0 <= i < |b| ==> IsDigitIn(b[i], base)
  {
    if b == [] then 0
    else
      assert IsDigitIn(b[|b| - 1], base);
      var n := NumberIn(b[..|b| - 1], base);
      (if base == 16 then 16 * n else 10 * n) + DigitOf(b[|b| - 1]).value
  }

  /** A numbered character reference whose digits start at `from`: the character,
      and the length of the reference. */
  function Numbered(b: Bytes, from: nat, base: nat): (r: Option<(Rune, nat)>)
    requires from <= |b|
    ensures r.Some? ==> 0 < r.value.1 <= |b|
  {
    var n := DigitsIn(b[from..], base);
    if n == 0 || from + n == |b| || b[from + n] != 0x3B then None
    else
      var v := NumberIn(b[from..][..n], base);
      if v > 0x10_FFFF || 0xD800 <= v < 0xE000 then None else Some((v, from + n + 1))
  }

  /** The reference `b` starts with, if any: one of the five predefined entities
      or a character's number (sections 4.1 and 4.6 of XML 1.0). */
  function Reference(b: Bytes): (r: Option<(Rune, nat)>)
    ensures r.Some? ==> 0 < r.value.1 <= |b|
  {
    if Ascii("&lt;") <= b then Some((0x3C, 4))
    else if Ascii("&gt;") <= b then Some((0x3E, 4))
    else if Ascii("&amp;") <= b then Some((0x26, 5))
    else if Ascii("&quot;") <= b then Some((0x22, 6))
    else if Ascii("&apos;") <= b then Some((0x27, 6))
    else if Ascii("&#x") <= b then Numbered(b, 3, 16)
    else if Ascii("&#") <= b then Numbered(b, 2, 10)
    else None
  }

  function Unescape(b: Bytes): Bytes
    decreases |b|
  {
    if b == [] then []
    else if Reference(b).Some? then EncodeRune(Reference(b).value.0) + Unescape(b[Reference(b).value.1..])
    else [b[0]] + Unescape(b[1..])
  }

  lemma {:induction false} DigitsUpTo(b: Bytes, base: nat, n: nat)
    requires n < |b| && !IsDigitIn(b[n], base) && forall i :: 0 <= i < n ==> IsDigitIn(b[i], base)
    ensures DigitsIn(b, base) == n
  {
    if n > 0 {
      DigitsUpTo(b[1..], base, n - 1);
    }
  }

  /** A reference of one digit, or of two. */
  lemma NumberedIs(b: Bytes, from: nat, base: nat, ds: Bytes)
    requires 1 <= |ds| <= 2 && from + |ds| < |b| && b[from..from + |ds|] == ds && b[from + |ds|] == 0x3B
    requires (base == 10 || base == 16) && forall i :: 0 <= i < |ds| ==> IsDigitIn(ds[i], base)
    ensures Numbered(b, from, base) == Some((NumberIn(ds, base), from + |ds| + 1))
  {
    var t := b[from..];
    assert t[..|ds|] == ds;
    forall i | 0 <= i < |ds| ensures IsDigitIn(t[i], base) {
      assert t[i] == ds[i];
    }
    DigitsUpTo(t, base, |ds|);
    SmallNumber(ds, base);
  }

  lemma SmallNumber(ds: Bytes, base: nat)
    requires 1 <= |ds| <= 2 && (base == 10 || base == 16) && forall i :: 0 <= i < |ds| ==> IsDigitIn(ds[i], base)
    ensures NumberIn(ds, base) < 0x100
  {
    assert IsDigitIn(ds[0], base);
    assert ds[..0] == [] && NumberIn([], base) == 0;
    if |ds| == 1 {
      assert NumberIn(ds, base) == DigitOf(ds[0]).value;
    } else {
      assert IsDigitIn(ds[1], base);
      assert ds[..1][..0] == [];
      assert NumberIn(ds[..1], base) == DigitOf(ds[0]).value;
      assert base == 10 ==> NumberIn(ds, 10) == 10 * NumberIn(ds[..1], 10) + DigitOf(ds[1]).value;
      assert base == 16 ==> NumberIn(ds, 16) == 16 * NumberIn(ds[..1], 16) + DigitOf(ds[1]).value;
    }
  }

  lemma EntityBytes()
    ensures Entity(0x22) == [0x26, 0x23, 0x33, 0x34, 0x3B] && Entity(0x27) == [0x26, 0x23, 0x33, 0x39, 0x3B]
  {
  }

  lemma MoreEntityBytes()
    ensures Entity(0x09) == [0x26, 0x23, 0x78, 0x39, 0x3B] && Entity(0x0A) == [0x26, 0x23, 0x78, 0x41, 0x3B]
    ensures Entity(0x0D) == [0x26, 0x23, 0x78, 0x44, 0x3B] && Entity(0x26) == [0x26, 0x61, 0x6D, 0x70, 0x3B]
    ensures Entity(0x3C) == [0x26, 0x6C, 0x74, 0x3B] && Entity(0x3E) == [0x26, 0x67, 0x74, 0x3B]
  {
  }

  lemma ReferenceBytes()
    ensures Ascii("&lt;") == [0x26, 0x6C, 0x74, 0x3B] && Ascii("&gt;") == [0x26, 0x67, 0x74, 0x3B]
    ensures Ascii("&amp;") == [0x26, 0x61, 0x6D, 0x70, 0x3B]
    ensures Ascii("&quot;") == [0x26, 0x71, 0x75, 0x6F, 0x74, 0x3B] && Ascii("&apos;") == [0x26, 0x61, 0x70, 0x6F, 0x73, 0x3B]
    ensures Ascii("&#x") == [0x26, 0x23, 0x78] && Ascii("&#") == [0x26, 0x23]
  {
  }

  lemma EntityKinds(r: Rune)
    ensures Entity(r) != [] <==> r in {0x22, 0x27, 0x26, 0x3C, 0x3E, 0x09, 0x0A, 0x0D}
  {
    hide Ascii;
  }

  lemma EntityIsFound(r: Rune, rest: Bytes)
    requires Entity(r) != []
    ensures Reference(Entity(r) + rest) == Some((r, |Entity(r)|))
    ensures (Entity(r) + rest)[|Entity(r)|..] == rest
  {
    hide Entity, Ascii;
    EntityKinds(r);
    EntityBytes();
    MoreEntityBytes();
    ReferenceBytes();
    var e := Entity(r);
    var b := e + rest;
    assert b[1] == e[1] && b[2] == e[2] && b[3] == e[3];
    assert |e| == 5 ==> b[4] == e[4];
    if r == 0x22 || r == 0x27 {
      DecimalIs(b, e[2], e[3]);
    } else if r == 0x09 || r == 0x0A || r == 0x0D {
      HexIs(b, e[3]);
    } else {
      assert e <= b;
    }
  }

  lemma DecimalIs(b: Bytes, d: Byte, e: Byte)
    requires |b| >= 5 && b[0] == 0x26 && b[1] == 0x23 && b[2] == d && b[3] == e && b[4] == 0x3B
    requires 0x30 <= d <= 0x39 && 0x30 <= e <= 0x39
    ensures Reference(b) == Some((10 * (d as int - 0x30) + (e as int - 0x30), 5))
  {
    hide Ascii;
    ReferenceBytes();
    var ds := [d, e];
    assert b[2..4] == ds;
    NumberedIs(b, 2, 10, ds);
    assert ds[..1] == [d] && [d][..0] == [];
    assert NumberIn([d], 10) == d as int - 0x30;
    assert b[..2] == [0x26, 0x23];
  }

  lemma HexIs(b: Bytes, d: Byte)
    requires |b| >= 5 && b[0] == 0x26 && b[1] == 0x23 && b[2] == 0x78 && b[3] == d && b[4] == 0x3B
    requires 0x30 <= d <= 0x39 || 0x41 <= d <= 0x46
    ensures Reference(b) == Some((DigitOf(d).value, 5))
  {
    hide Ascii;
    ReferenceBytes();
    assert b[3..4] == [d];
    NumberedIs(b, 3, 16, [d]);
    assert [d][..0] == [];
    assert b[..3] == [0x26, 0x23, 0x78];
  }

  lemma PlainByte(b: Bytes)
    requires b != [] && b[0] != 0x26
    ensures Unescape(b) == [b[0]] + Unescape(b[1..])
  {
    hide Reference;
    NoReference(b);
  }

  lemma {:induction false} PlainBytes(b: Bytes, rest: Bytes)
    requires forall i :: 0 <= i < |b| ==> b[i] != 0x26
    ensures Unescape(b + rest) == b + Unescape(rest)
  {
    hide Unescape;
    if b == [] {
      assert b + rest == rest;
    } else {
      PlainBytes(b[1..], rest);
      assert (b + rest)[0] == b[0] && (b + rest)[1..] == b[1..] + rest;
      PlainByte(b + rest);
      assert [b[0]] + (b[1..] + Unescape(rest)) == b + Unescape(rest);
    }
  }

  lemma NoReference(b: Bytes)
    requires b != [] && b[0] != 0x26
    ensures Reference(b) == None
  {
    hide Ascii;
    ReferenceBytes();
  }

  /** Escaped text reads back as the text, with what XML does not allow
      replaced. */
  lemma {:induction false} EscapeReadsBack(s: Text)
    ensures Unescape(Escape(s)) == Encode(Clean(s))
  {
    hide Entity, Reference, EncodeRune;
    if s != [] {
      EscapeReadsBack(s[1..]);
      var r, rest := s[0], Escape(s[1..]);
      if Entity(r) != [] {
        EntityIsFound(r, rest);
        EntityAllowed(r);
      } else {
        NotAmpersand(r);
        PlainBytes(EscapeRune(r), rest);
      }
    }
  }

  lemma EntityAllowed(r: Rune)
    requires Entity(r) != []
    ensures XmlChar(r)
  {
  }

  lemma NotAmpersand(r: Rune)
    requires Entity(r) == []
    ensures r != 0x26
  {
    hide Ascii;
  }

  /** Escaped text opens no tag. */
  lemma {:induction false} EscapeOpensNoTag(s: Text)
    ensures forall i :: 0 <= i < |Escape(s)| ==> Escape(s)[i] != 0x3C
  {
    hide EscapeRune;
    if s != [] {
      RuneOpensNoTag(s[0]);
      EscapeOpensNoTag(s[1..]);
    }
  }

  lemma RuneOpensNoTag(r: Rune)
    ensures forall i :: 0 <= i < |EscapeRune(r)| ==> EscapeRune(r)[i] != 0x3C
  {
    hide Ascii, EncodeRune;
    if Entity(r) == [] {
      NotBracket(r);
    }
  }

  lemma NotBracket(r: Rune)
    requires Entity(r) == []
    ensures r != 0x3C
  {
    hide Ascii;
  }

  /** Nor does a character close one or end a quoted value. */
  lemma RuneIsQuiet(r: Rune)
    ensures 0x3C !in EscapeRune(r) && 0x3E !in EscapeRune(r) && 0x22 !in EscapeRune(r)
  {
    hide EncodeRune;
    if Entity(r) == [] {
      assert r != 0x3C && r != 0x3E && r != 0x22;
    }
  }

  lemma UnescapeNothing()
    ensures Unescape([]) == []
  {
  }
}
