/** Text in PDF hex strings (sections 7.3.4.3 and 7.9.2.2 of ISO 32000-1). */
module PdfText {
  import opened Common
  import opened Utf16

  function HexDigit(d: int): (c: char)
    requires 0 <= d < 16
    ensures IsHex(c) && HexValue(c) == d
  {
    if d < 10 then ('0' as int + d) as char else ('A' as int + d - 10) as char
  }

  predicate IsHex(c: char) {
    '0' <= c <= '9' || 'a' <= c <= 'f' || 'A' <= c <= 'F'
  }

  function HexValue(c: char): (d: int)
    requires IsHex(c)
    ensures 0 <= d < 16
  {
    if c <= '9' then c as int - '0' as int
    else if c <= 'F' then c as int - 'A' as int + 10
    else c as int - 'a' as int + 10
  }

  function HexByte(b: int): (s: string)
    requires 0 <= b < 0x100
    ensures |s| == 2 && IsHex(s[0]) && IsHex(s[1])
    ensures HexValue(s[0]) * 16 + HexValue(s[1]) == b
  {
    [HexDigit(b / 16), HexDigit(b % 16)]
  }

  /** Four digits, as `%04X` prints a code unit. */
  function HexUnit(u: CodeUnit): string {
    HexByte(u / 0x100) + HexByte(u % 0x100)
  }

  function HexUnits(us: seq<CodeUnit>): string {
    if us == [] then "" else HexUnit(us[0]) + HexUnits(us[1..])
  }

  function HexBody(s: Text): string {
    "FEFF" + HexUnits(Encode(s))
  }

  method EncodePDFString(s: Text) returns (out: string)
    ensures out == "<" + HexBody(s) + ">"
  {
    hide HexUnit;
    out := "<";
    out := out + "FEFF";
    var units := Encode(s);
    var i := 0;
    assert units[i..] == units;
    while i < |units|
      invariant 0 <= i <= |units|
      invariant out + HexUnits(units[i..]) == "<FEFF" + HexUnits(units)
    {
      assert units[i..][1..] == units[i + 1..];
      out := out + HexUnit(units[i]);
      i := i + 1;
    }
    assert out == "<FEFF" + HexUnits(units);
    out := out + ">";
  }

  /** The hex digits of `s`, everything else dropped. */
  function HexOnly(s: string): (r: string)
    ensures forall i :: 0 <= i < |r| ==> IsHex(r[i])
  {
    if s == "" then "" else (if IsHex(s[0]) then [s[0]] else "") + HexOnly(s[1..])
  }

  function HexBytes(s: string): (b: Bytes)
    requires |s| % 2 == 0 && forall i :: 0 <= i < |s| ==> IsHex(s[i])
    ensures |b| == |s| / 2
  {
    if s == "" then [] else [(HexValue(s[0]) * 16 + HexValue(s[1])) as Byte] + HexBytes(s[2..])
  }

  /** Big-endian code units; a last odd byte is dropped. */
  function BigEndianUnits(b: Bytes): seq<CodeUnit> {
    if |b| < 2 then [] else [b[0] as int * 0x100 + b[1] as int] + BigEndianUnits(b[2..])
  }

  method CollectUnits(b: Bytes) returns (u16: array<CodeUnit>)
    ensures fresh(u16) && u16[..] == BigEndianUnits(b)
  {
    var n := |b| / 2;
    u16 := new CodeUnit[n];
    var i := 0;
    assert b[2 * i..] == b;
    while i < n
      invariant 0 <= i <= n
      invariant u16[..i] + BigEndianUnits(b[2 * i..]) == BigEndianUnits(b)
    {
      u16[i] := b[2 * i] as int * 0x100 + b[2 * i + 1] as int;
      assert b[2 * i..][2..] == b[2 * (i + 1)..];
      assert u16[..i + 1] == u16[..i] + [u16[i]];
      i := i + 1;
    }
    assert BigEndianUnits(b[2 * i..]) == [] && u16[..] == u16[..i];
  }

  method DecodeUTF16BE(b: Bytes) returns (s: Text)
    ensures s == TrimSpace(Decode(BigEndianUnits(b)))
  {
    if |b| < 2 {
      NothingDecodes();
      return [];
    }
    var u16 := CollectUnits(b);
    s := TrimSpace(Decode(u16[..]));
  }

  lemma NothingDecodes()
    ensures TrimSpace(Decode([])) == []
  {
  }

  /** A string without a byte-order mark is returned as the raw bytes. */
  datatype Decoded = Unicode(text: Text) | Raw(bytes: Bytes)

  function Padded(s: string): string {
    if |s| % 2 == 1 then s + "0" else s
  }

  function HexString(body: string): Decoded {
    var raw := HexBytes(Padded(HexOnly(body)));
    if |raw| >= 2 && raw[0] == 0xFE && raw[1] == 0xFF then Unicode(TrimSpace(Decode(BigEndianUnits(raw[2..]))))
    else Raw(raw)
  }

  method DecodePDFHexString(body: string) returns (d: Decoded)
    ensures d == HexString(body)
  {
    var raw := HexBytes(Padded(HexOnly(body)));
    if |raw| >= 2 && raw[0] == 0xFE && raw[1] == 0xFF {
      var text := DecodeUTF16BE(raw[2..]);
      return Unicode(text);
    }
    return Raw(raw);
  }

  // ------------------------------------------------------------------
  // The round trip
  // ------------------------------------------------------------------

  lemma {:induction false} HexOnlyKeeps(s: string)
    requires forall i :: 0 <= i < |s| ==> IsHex(s[i])
    ensures HexOnly(s) == s
  {
    if s != "" {
      HexOnlyKeeps(s[1..]);
    }
  }

  lemma {:induction false} HexUnitsAreHex(us: seq<CodeUnit>)
    ensures |HexUnits(us)| == 4 * |us|
    ensures forall i :: 0 <= i < |HexUnits(us)| ==> IsHex(HexUnits(us)[i])
  {
    if us != [] {
      HexUnitsAreHex(us[1..]);
    }
  }

  /** Four digits are two bytes. */
  lemma FourDigits(h: string, rest: string)
    requires |h| == 4 && |rest| % 2 == 0
    requires (forall i :: 0 <= i < 4 ==> IsHex(h[i])) && forall i :: 0 <= i < |rest| ==> IsHex(rest[i])
    ensures forall i :: 0 <= i < |h + rest| ==> IsHex((h + rest)[i])
    ensures HexBytes(h + rest) == [(HexValue(h[0]) * 16 + HexValue(h[1])) as Byte,
                                   (HexValue(h[2]) * 16 + HexValue(h[3])) as Byte] + HexBytes(rest)
  {
    var s := h + rest;
    assert s[2..][2..] == rest;
    assert HexBytes(s[2..]) == [(HexValue(h[2]) * 16 + HexValue(h[3])) as Byte] + HexBytes(rest);
  }

  /** The digits of a code unit are its two bytes. */
  lemma UnitBytes(u: CodeUnit, rest: string)
    requires |rest| % 2 == 0 && forall i :: 0 <= i < |rest| ==> IsHex(rest[i])
    ensures |HexUnit(u)| == 4 && forall i :: 0 <= i < |HexUnit(u) + rest| ==> IsHex((HexUnit(u) + rest)[i])
    ensures HexBytes(HexUnit(u) + rest) == [(u / 0x100) as Byte, (u % 0x100) as Byte] + HexBytes(rest)
  {
    hide HexValue, HexByte;
    var h := HexUnit(u);
    assert h == HexByte(u / 0x100) + HexByte(u % 0x100);
    assert h[0] == HexByte(u / 0x100)[0] && h[1] == HexByte(u / 0x100)[1];
    assert h[2] == HexByte(u % 0x100)[0] && h[3] == HexByte(u % 0x100)[1];
    FourDigits(h, rest);
  }

  lemma {:induction false} UnitsFromHex(us: seq<CodeUnit>)
    requires |HexUnits(us)| % 2 == 0 && forall i :: 0 <= i < |HexUnits(us)| ==> IsHex(HexUnits(us)[i])
    ensures BigEndianUnits(HexBytes(HexUnits(us))) == us
  {
    hide HexUnit, HexBytes, HexValue;
    if us != [] {
      HexUnitsAreHex(us[1..]);
      UnitsFromHex(us[1..]);
      UnitBytes(us[0], HexUnits(us[1..]));
      var b := HexBytes(HexUnits(us));
      assert b[2..] == HexBytes(HexUnits(us[1..]));
      assert us == [us[0]] + us[1..];
    } else {
      NoHexBytes();
    }
  }

  lemma NoHexBytes()
    ensures HexBytes("") == []
  {
  }

  /** Decoding what was encoded gives the text back with surrounding white
      space trimmed, characters outside the basic plane included. */
  lemma HexRoundTrip(s: Text)
    ensures HexString(HexBody(s)) == Unicode(TrimSpace(s))
  {
    var us := Encode(s);
    HexUnitsAreHex(us);
    HexOnlyKeeps(HexBody(s));
    var body := HexBody(s);
    FourDigits("FEFF", HexUnits(us));
    assert HexBytes(body)[2..] == HexBytes(HexUnits(us));
    UnitsFromHex(us);
    DecodeEncode(s);
  }

  // ------------------------------------------------------------------
  // What the decoder tolerates
  // ------------------------------------------------------------------

  lemma {:induction false} HexOnlyConcat(a: string, b: string)
    ensures HexOnly(a + b) == HexOnly(a) + HexOnly(b)
  {
    if a == "" {
      assert a + b == b;
    } else {
      HexOnlyConcat(a[1..], b);
      assert (a + b)[1..] == a[1..] + b;
    }
  }

  /** Whatever is no hex digit may stand anywhere in the string. */
  lemma JunkIsDropped(a: string, c: char, b: string)
    requires !IsHex(c)
    ensures HexString(a + ([c] + b)) == HexString(a + b)
  {
    HexOnlyConcat(a, [c] + b);
    HexOnlyConcat(a, b);
    assert ([c] + b)[1..] == b && "" + HexOnly(b) == HexOnly(b);
  }

  function Capital(c: char): char {
    if 'a' <= c <= 'f' then (c as int - 32) as char else c
  }

  lemma {:induction false} HexBytesAlike(s: string, t: string)
    requires |s| == |t| && |s| % 2 == 0
    requires forall i :: 0 <= i < |s| ==> IsHex(s[i]) && IsHex(t[i]) && HexValue(s[i]) == HexValue(t[i])
    ensures HexBytes(s) == HexBytes(t)
  {
    if s != "" {
      HexBytesAlike(s[2..], t[2..]);
    }
  }

  /** Small digits are read like capital ones. */
  lemma CaseDoesNotMatter(a: string, c: char, b: string)
    requires IsHex(c)
    ensures HexString(a + ([c] + b)) == HexString(a + ([Capital(c)] + b))
  {
    hide BigEndianUnits, TrimSpace, Decode;
    HexOnlyConcat(a, [c] + b);
    HexOnlyConcat(a, [Capital(c)] + b);
    assert ([c] + b)[1..] == b && ([Capital(c)] + b)[1..] == b;
    var s, t := HexOnly(a + ([c] + b)), HexOnly(a + ([Capital(c)] + b));
    assert s == HexOnly(a) + ([c] + HexOnly(b)) && t == HexOnly(a) + ([Capital(c)] + HexOnly(b));
    HexBytesAlike(Padded(s), Padded(t));
  }

  /** An odd digit at the end has a 0 behind it. */
  lemma OddIsPadded(body: string)
    requires |HexOnly(body)| % 2 == 1
    ensures HexString(body) == HexString(body + "0")
  {
    hide BigEndianUnits, TrimSpace, Decode, HexBytes;
    HexOnlyConcat(body, "0");
    assert HexOnly("0") == "0" by {
      assert "0"[1..] == "";
    }
  }
}
