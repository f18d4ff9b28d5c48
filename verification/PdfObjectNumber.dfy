/** The object number an embed defines. It comes from the first `/Size` of the
    file, so every later embed defines the same object again, or from the second
    embed on when the file had none. */
module PdfObjectNumber {
  import opened Common
  import opened Decimal
  import opened PdfInfo
  import opened PdfRevisions
  import PdfText
  import Utf16

  /** The white space of the pattern: tab, line feed, form feed, return, space. */
  predicate IsGap(b: Byte) {
    b == 0x09 || b == 0x0A || b == 0x0C || b == 0x0D || b == 0x20
  }

  function GapRun(b: Bytes): (n: nat)
    ensures n <= |b| && (forall k :: 0 <= k < n ==> IsGap(b[k])) && (n < |b| ==> !IsGap(b[n]))
  {
    if b == [] || !IsGap(b[0]) then 0 else 1 + GapRun(b[1..])
  }

  /** The number matched by `/Size\s+(\d+)` at the start of `b`. */
  function SizeHere(b: Bytes): Option<nat> {
    if !(Ascii("/Size") <= b) then None
    else
      var gap := GapRun(b[5..]);
      var digits := DigitRun(b[5 + gap..]);
      if gap == 0 || digits == 0 then None else Some(Value(b[5 + gap..][..digits]))
  }

  /** The leftmost match. */
  function FirstSize(b: Bytes): Option<nat> {
    if SizeHere(b).Some? then SizeHere(b) else if b == [] then None else FirstSize(b[1..])
  }

  function NextObjectNumber(data: Bytes): nat {
    match FirstSize(data)
    case None => 1
    case Some(n) => if n == 0 then 1 else if n > MaxInt64 then MaxInt64 else n
  }

  function Embed(data: Bytes, x: Input): Result<Bytes, Malformed> {
    Update(data, Revision(NextObjectNumber(data), x))
  }

  function EmbedAll(data: Bytes, xs: seq<Input>): Result<Bytes, Malformed> {
    if xs == [] then Ok(data)
    else
      match EmbedAll(data, xs[..|xs| - 1])
      case Err(e) => Err(e)
      case Ok(d) => Embed(d, xs[|xs| - 1])
  }

  /** A trailer's size is found behind anything without a slash, whatever white
      space stands between, and the object is numbered by it: at least 1, and at
      most the largest 64-bit number. */
  lemma {:induction false} SizeFound(front: Bytes, gap: Bytes, digits: Bytes, rest: Bytes)
    requires 0x2F !in front && gap != [] && digits != [] && (rest != [] ==> !IsDigit(rest[0]))
    requires forall i :: 0 <= i < |gap| ==> gap[i] == 0x20 || gap[i] == 0x09 || gap[i] == 0x0A || gap[i] == 0x0C || gap[i] == 0x0D
    requires forall i :: 0 <= i < |digits| ==> IsDigit(digits[i])
    ensures var data, n := front + (Ascii("/Size") + (gap + (digits + rest))), Value(digits);
      && FirstSize(data) == Some(n)
      && NextObjectNumber(data) == if n == 0 then 1 else if n <= 0x7FFF_FFFF_FFFF_FFFF then n else 0x7FFF_FFFF_FFFF_FFFF
    decreases |front|
  {
    hide Value, SizeHere;
    var t := Ascii("/Size") + (gap + (digits + rest));
    if front == [] {
      assert front + t == t;
      SizeStandsHere(gap, digits, rest);
    } else {
      SizeFound(front[1..], gap, digits, rest);
      assert (front + t)[1..] == front[1..] + t;
      NoSlashNoSize(front + t);
    }
  }

  lemma NoSlashNoSize(b: Bytes)
    requires b != [] && b[0] != 0x2F
    ensures SizeHere(b) == None
  {
    assert Ascii("/Size")[0] == 0x2F;
  }

  lemma SizeStandsHere(gap: Bytes, digits: Bytes, rest: Bytes)
    requires gap != [] && digits != [] && (rest != [] ==> !IsDigit(rest[0]))
    requires forall i :: 0 <= i < |gap| ==> gap[i] == 0x20 || gap[i] == 0x09 || gap[i] == 0x0A || gap[i] == 0x0C || gap[i] == 0x0D
    requires forall i :: 0 <= i < |digits| ==> IsDigit(digits[i])
    ensures SizeHere(Ascii("/Size") + (gap + (digits + rest))) == Some(Value(digits))
  {
    hide Ascii, Value, GapRun, DigitRun;
    var b, number := Ascii("/Size") + (gap + (digits + rest)), digits + rest;
    assert |Ascii("/Size")| == 5;
    assert number[0] == digits[0] && IsDigit(digits[0]);
    forall i | 0 <= i < |gap| ensures IsGap(gap[i]) {
    }
    GapThrough(gap, number);
    assert b[..5] == Ascii("/Size") && b[5..] == gap + number;
    assert (gap + number)[|gap|..] == number;
    assert b[5 + |gap|..] == b[5..][|gap|..];
    DigitRunOf(digits, rest);
    assert number[..|digits|] == digits;
  }

  // ------------------------------------------------------------------
  // The first match stays the first match
  // ------------------------------------------------------------------

  /** `more` starts a new line after `b`. */
  ghost predicate NewLine(b: Bytes, more: Bytes) {
    (b != [] && b[|b| - 1] == 0x0A) || (more != [] && more[0] == 0x0A)
  }

  lemma {:induction false} GapExtends(b: Bytes, more: Bytes)
    requires GapRun(b) < |b|
    ensures GapRun(b + more) == GapRun(b)
  {
    if IsGap(b[0]) {
      GapExtends(b[1..], more);
      assert (b + more)[1..] == b[1..] + more;
    }
  }

  lemma DigitsExtend(b: Bytes, more: Bytes)
    requires DigitRun(b) > 0
    requires DigitRun(b) < |b| || more == [] || !IsDigit(more[0])
    ensures DigitRun(b + more) == DigitRun(b)
  {
    var n := DigitRun(b);
    assert b + more == b[..n] + (b[n..] + more);
    DigitRunOf(b[..n], b[n..] + more);
  }

  /** A match is the same match when a new line follows. */
  lemma MatchStays(b: Bytes, more: Bytes)
    requires SizeHere(b).Some? && NewLine(b, more)
    ensures SizeHere(b + more) == SizeHere(b)
  {
    hide Ascii, Value, GapRun, DigitRun;
    var t := b[5..];
    var gap := GapRun(t);
    var u := t[gap..];
    assert b[5 + gap..] == u;
    assert u[0] == t[gap];
    GapExtends(t, more);
    assert (b + more)[5..] == t + more && (b + more)[5 + gap..] == u + more;
    if DigitRun(u) == |u| && more != [] {
      assert u[|u| - 1] == b[|b| - 1];
    }
    DigitsExtend(u, more);
    assert (u + more)[..DigitRun(u)] == u[..DigitRun(u)];
  }

  /** No earlier match appears: it would have to run over the first one. */
  lemma NoMatchBefore(b: Bytes, more: Bytes)
    requires SizeHere(b) == None && b != [] && FirstSize(b[1..]).Some?
    ensures SizeHere(b + more) == None
  {
    hide Value, FirstSize, SizeHere;
    FirstSizeSlash(b[1..]);
    var j: nat :| 1 <= j && j + 5 <= |b| && b[j] == 0x2F;
    NoMatchOver(b, more, j);
  }

  lemma {:induction false} FirstSizeSlash(b: Bytes)
    requires FirstSize(b).Some?
    ensures exists j: nat :: j + 5 <= |b| && b[j] == 0x2F
  {
    hide Value;
    if SizeHere(b).Some? {
      assert b[0] == Ascii("/Size")[0];
    } else {
      FirstSizeSlash(b[1..]);
      var j: nat :| j + 5 <= |b[1..]| && b[1..][j] == 0x2F;
      assert b[j + 1] == 0x2F;
    }
  }

  lemma NoMatchOver(b: Bytes, more: Bytes, j: nat)
    requires SizeHere(b) == None && 1 <= j && j + 5 <= |b| && b[j] == 0x2F
    ensures SizeHere(b + more) == None
  {
    hide Ascii, Value, GapRun, DigitRun;
    if Ascii("/Size") <= b + more {
      assert (b + more)[..5] == b[..5];
      assert Ascii("/Size") <= b;
      forall i | 1 <= i < 5 ensures (b + more)[i] != 0x2F {
        assert (b + more)[i] == Ascii("/Size")[i];
      }
      assert (b + more)[j] == 0x2F;
      var t := b[5..];
      assert t[j - 5] == 0x2F;
      var gap := GapRun(t);
      assert gap <= j - 5;
      GapExtends(t, more);
      assert (b + more)[5..] == t + more;
      assert (b + more)[5 + gap..] == t[gap..] + more && b[5 + gap..] == t[gap..];
      if DigitRun(t[gap..] + more) > 0 {
        assert (t[gap..] + more)[0] == t[gap..][0];
        assert DigitRun(t[gap..]) > 0 by {
          assert t[gap..] != [] && IsDigit(t[gap..][0]);
        }
      }
    }
  }

  lemma {:induction false} FirstSizeStays(b: Bytes, more: Bytes)
    requires FirstSize(b).Some? && NewLine(b, more)
    ensures FirstSize(b + more) == FirstSize(b)
  {
    hide SizeHere;
    if SizeHere(b).Some? {
      MatchStays(b, more);
    } else {
      NoMatchBefore(b, more);
      assert (b + more)[1..] == b[1..] + more;
      assert b[1..] != [] by { FirstSizeSlash(b[1..]); }
      FirstSizeStays(b[1..], more);
    }
  }

  function Numbered(objNum: nat, xs: seq<Input>): (rs: seq<Revision>)
    ensures |rs| == |xs| && forall i :: 0 <= i < |xs| ==> rs[i] == Revision(objNum, xs[i])
  {
    seq(|xs|, i requires 0 <= i < |xs| => Revision(objNum, xs[i]))
  }

  /** Every embed into a file with a `/Size` defines the same object, so the
      newest revision replaces the older ones. */
  lemma {:induction false} SameObjectBySize(data: Bytes, xs: seq<Input>)
    requires FirstSize(data).Some?
    ensures EmbedAll(data, xs) == Embeds(data, Numbered(NextObjectNumber(data), xs))
    ensures EmbedAll(data, xs).Ok? ==> FirstSize(EmbedAll(data, xs).value) == FirstSize(data)
  {
    hide FirstSize, Update;
    var n := |xs| - 1;
    var rs := Numbered(NextObjectNumber(data), xs);
    if xs != [] {
      SameObjectBySize(data, xs[..n]);
      assert rs[..n] == Numbered(NextObjectNumber(data), xs[..n]);
      if EmbedAll(data, xs).Ok? {
        SizeKept(EmbedAll(data, xs[..n]).value, rs[n]);
      }
    }
  }

  lemma SizeKept(data: Bytes, r: Revision)
    requires FirstSize(data).Some? && Update(data, r).Ok?
    ensures FirstSize(Update(data, r).value) == FirstSize(data)
  {
    hide FirstSize, Startxref, ObjectText, EndText, SectionText;
    assert data != [] by { FirstSizeSlash(data); }
    var more := Newline(data) + ObjectText(r) + SectionText(data, r, Startxref(data).value) + EndText(XrefStart(data, r));
    FirstSizeStays(data, more);
  }

  // ------------------------------------------------------------------
  // A file without a match
  // ------------------------------------------------------------------

  /** The file ends in a `/Size` with nothing but white space behind it. */
  predicate EndsInSize(b: Bytes) {
    b != [] && ((Ascii("/Size") <= b && GapRun(b[5..]) == |b| - 5) || EndsInSize(b[1..]))
  }

  /** No byte is the `z` that a match has in its fourth place. */
  ghost predicate NoZ(b: Bytes) {
    forall i :: 0 <= i < |b| ==> b[i] != 0x7A
  }

  lemma SizeHasZ(b: Bytes)
    ensures Ascii("/Size") <= b ==> |b| >= 5 && b[3] == 0x7A && b[4] == 0x65
  {
    assert Ascii("/Size") <= b ==> b[3] == Ascii("/Size")[3] && b[4] == Ascii("/Size")[4];
  }

  lemma NoSizeHere(b: Bytes)
    requires !(Ascii("/Size") <= b) || |b| < 5 || b[3] != 0x7A || b[4] != 0x65
    ensures SizeHere(b) == None
  {
    SizeHasZ(b);
  }

  /** Text without a `z` is stepped over up to the match behind it. */
  lemma {:induction false} SteppedOver(a: Bytes, b: Bytes)
    requires NoZ(a) && |b| >= 3 && b[0] != 0x7A && b[1] != 0x7A && b[2] != 0x7A && SizeHere(b).Some?
    ensures FirstSize(a + b) == SizeHere(b)
  {
    hide SizeHere, Ascii;
    if a == [] {
      assert a + b == b;
    } else {
      assert (a + b)[1..] == a[1..] + b;
      SteppedOver(a[1..], b);
      assert |a| <= 3 ==> (a + b)[3] == b[3 - |a|];
      NoSizeHere(a + b);
    }
  }

  /** What an appended revision looks like from the old end on: white space if
      the file has no line end, the object's number, and no `z`. */
  ghost predicate Opens(b: Bytes, more: Bytes, gap: Bytes, objNum: nat, rest: Bytes) {
    && more == gap + (Dec(objNum) + rest) && NoZ(more)
    && (b == [] || b[|b| - 1] == 0x0A || gap != []) && (forall i :: 0 <= i < |gap| ==> gap[i] == 0x0A)
    && |rest| >= 3 && !IsDigit(rest[0])
  }

  lemma {:induction false} GapThrough(a: Bytes, b: Bytes)
    requires (forall i :: 0 <= i < |a| ==> IsGap(a[i])) && b != [] && !IsGap(b[0])
    ensures GapRun(a + b) == |a|
  {
    if a == [] {
      assert a + b == b;
    } else {
      GapThrough(a[1..], b);
      assert (a + b)[1..] == a[1..] + b;
    }
  }

  /** A `/Size` at the end is completed by the object's number. */
  lemma Completed(b: Bytes, more: Bytes, gap: Bytes, objNum: nat, rest: Bytes, tail: Bytes)
    requires Ascii("/Size") <= b && GapRun(b[5..]) == |b| - 5 && Opens(b, more, gap, objNum, rest)
    ensures SizeHere(b + (more + tail)) == Some(objNum)
  {
    hide Ascii, Value, Dec, GapRun, DigitRun;
    SizeHasZ(b);
    var white, number := b[5..] + gap, Dec(objNum) + (rest + tail);
    var all := b + (more + tail);
    assert all[5..] == white + number;
    assert forall i :: 0 <= i < |gap| ==> IsGap(gap[i]);
    assert number[0] == Dec(objNum)[0] && IsDigit(number[0]) && !IsGap(number[0]);
    GapThrough(white, number);
    assert white != [];
    assert all[5 + |white|..] == number;
    DigitRunOf(Dec(objNum), rest + tail);
    ValueDec(objNum);
    assert number[..|Dec(objNum)|] == Dec(objNum);
    assert Ascii("/Size") <= all;
  }

  /** Anywhere else in the old file no match appears. */
  lemma StillNone(b: Bytes, more: Bytes, gap: Bytes, objNum: nat, rest: Bytes, tail: Bytes)
    requires SizeHere(b) == None && b != [] && Opens(b, more, gap, objNum, rest)
    requires Ascii("/Size") <= b ==> GapRun(b[5..]) < |b| - 5
    ensures SizeHere(b + (more + tail)) == None
  {
    hide Ascii, Value, Dec, GapRun, DigitRun, SizeHere;
    var all := b + (more + tail);
    if Ascii("/Size") <= b {
      StaysUnmatched(b, more + tail);
    } else {
      assert |b| >= 5 ==> all[..5] == b[..5];
      assert |b| == 4 ==> all[4] == more[0] && all[3] == b[3];
      assert gap != [] ==> more[0] == 0x0A;
      assert |b| < 4 ==> all[3] == more[3 - |b|];
      NoSizeHere(all);
    }
  }

  lemma StaysUnmatched(b: Bytes, more: Bytes)
    requires SizeHere(b) == None && Ascii("/Size") <= b && GapRun(b[5..]) < |b| - 5
    ensures SizeHere(b + more) == None
  {
    hide Ascii, Value, GapRun, DigitRun;
    SizeHasZ(b);
    var t := b[5..];
    var gap := GapRun(t);
    GapExtends(t, more);
    assert (b + more)[5..] == t + more;
    var u := t[gap..];
    assert (b + more)[5 + gap..] == u + more && b[5 + gap..] == u;
    assert u != [] && (u + more)[0] == u[0];
    assert DigitRun(u) == 0 ==> !IsDigit(u[0]);
    assert !IsDigit(u[0]) ==> DigitRun(u + more) == 0;
  }

  /** The first match of the grown file. */
  lemma {:induction false} FirstSizeAfter(b: Bytes, more: Bytes, gap: Bytes, objNum: nat, rest: Bytes, tail: Bytes)
    requires FirstSize(b) == None && Opens(b, more, gap, objNum, rest)
    requires |tail| >= 3 && tail[0] != 0x7A && tail[1] != 0x7A && tail[2] != 0x7A && SizeHere(tail).Some?
    ensures FirstSize(b + (more + tail)) == if EndsInSize(b) then Some(objNum) else SizeHere(tail)
  {
    hide SizeHere, Ascii, GapRun, NoZ, Dec;
    if b == [] {
      assert b + (more + tail) == more + tail;
      SteppedOver(more, tail);
    } else if Ascii("/Size") <= b && GapRun(b[5..]) == |b| - 5 {
      Completed(b, more, gap, objNum, rest, tail);
    } else {
      SizeHasZ(b);
      StillNone(b, more, gap, objNum, rest, tail);
      assert (b + (more + tail))[1..] == b[1..] + (more + tail);
      FirstSizeAfter(b[1..], more, gap, objNum, rest, tail);
    }
  }

  // ------------------------------------------------------------------
  // What an embed appends
  // ------------------------------------------------------------------

  lemma AsciiNoZ(s: string)
    requires forall i :: 0 <= i < |s| ==> s[i] as int % 0x100 != 0x7A
    ensures NoZ(Ascii(s))
  {
  }

  lemma DigitsNoZ(b: Bytes)
    requires forall i :: 0 <= i < |b| ==> IsDigit(b[i])
    ensures NoZ(b)
  {
  }

  lemma NoZConcat(a: Bytes, b: Bytes)
    requires NoZ(a) && NoZ(b)
    ensures NoZ(a + b)
  {
  }

  /** The section up to its `/Size`. */
  function Front(objNum: nat, entry: nat): Bytes {
    Ascii("xref\n") + (Dec(objNum) + (Ascii(" 1\n") + (Dec10(entry) + Ascii(" 00000 n \ntrailer\n<< "))))
  }

  lemma PrintNext(p: Piece, ps: seq<Piece>)
    ensures Print([p] + ps) ==
      (match p case Lit(text) => text case Num(value) => Dec(value) case Num10(value) => Dec10(value)) + Print(ps)
  {
    hide Dec, Dec10;
    assert ([p] + ps)[1..] == ps;
  }

  lemma SectionSplits(objNum: nat, entry: nat, prev: nat) returns (more: Bytes)
    ensures Print(SectionPieces(objNum, entry, prev)) ==
      Front(objNum, entry) + (Ascii("/Size ") + (Dec(objNum + 1) + (Ascii(" /Prev ") + more)))
  {
    hide Dec, Dec10, Ascii, Print;
    var ps := SectionPieces(objNum, entry, prev);
    var trailer, size := ps[5..], Ascii("/Size ");
    FrontPrints(objNum, entry, trailer);
    var last := ps[7..];
    more := Print(last);
    PrintNext(Lit(Ascii(" /Prev ")), last);
    PrintNext(Num(objNum + 1), [Lit(Ascii(" /Prev "))] + last);
    assert trailer == [Num(objNum + 1)] + ([Lit(Ascii(" /Prev "))] + last);
    assert ps == ps[..5] + trailer && ps[..5] == SectionPieces(objNum, entry, 0)[..5];
  }

  lemma FrontPrints(objNum: nat, entry: nat, ps: seq<Piece>)
    ensures Print(SectionPieces(objNum, entry, 0)[..5] + ps) == Front(objNum, entry) + (Ascii("/Size ") + Print(ps))
  {
    hide Dec, Dec10, Ascii, Print;
    var open, one, gap := Lit(Ascii("xref\n")), Lit(Ascii(" 1\n")), Lit(Ascii(" 00000 n \ntrailer\n<< /Size "));
    var p4 := [gap] + ps;
    var p3 := [Num10(entry)] + p4;
    var p2 := [one] + p3;
    var p1 := [Num(objNum)] + p2;
    PrintNext(gap, ps);
    PrintNext(Num10(entry), p4);
    PrintNext(one, p3);
    PrintNext(Num(objNum), p2);
    PrintNext(open, p1);
    assert SectionPieces(objNum, entry, 0)[..5] + ps == [open] + p1;
    TrailerOpens();
    var a, b, c, d, e, f := Ascii("xref\n"), Dec(objNum), Ascii(" 1\n"), Dec10(entry),
      Ascii(" 00000 n \ntrailer\n<< "), Ascii("/Size ");
    Regroup(a, b, c, d, e, f, Print(ps));
  }

  lemma TrailerOpens()
    ensures Ascii(" 00000 n \ntrailer\n<< /Size ") == Ascii(" 00000 n \ntrailer\n<< ") + Ascii("/Size ")
  {
    AsciiConcat(" 00000 n \ntrailer\n<< ", "/Size ");
    assert " 00000 n \ntrailer\n<< " + "/Size " == " 00000 n \ntrailer\n<< /Size ";
  }

  lemma Regroup(a: Bytes, b: Bytes, c: Bytes, d: Bytes, e: Bytes, f: Bytes, g: Bytes)
    ensures a + (b + (c + (d + ((e + f) + g)))) == (a + (b + (c + (d + e)))) + (f + g)
  {
    Associate(e, f, g);
    Associate(d, e, f + g);
    Associate(c, d + e, f + g);
    Associate(b, c + (d + e), f + g);
    Associate(a, b + (c + (d + e)), f + g);
  }

  lemma FrontNoZ(objNum: nat, entry: nat)
    ensures NoZ(Front(objNum, entry))
  {
    hide Dec, Dec10, Ascii, NoZ;
    DigitsNoZ(Dec(objNum));
    DigitsNoZ(Dec10(entry));
    AsciiNoZ("xref\n");
    AsciiNoZ(" 1\n");
    AsciiNoZ(" 00000 n \ntrailer\n<< ");
    NoZConcat(Dec10(entry), Ascii(" 00000 n \ntrailer\n<< "));
    NoZConcat(Ascii(" 1\n"), Dec10(entry) + Ascii(" 00000 n \ntrailer\n<< "));
    NoZConcat(Dec(objNum), Ascii(" 1\n") + (Dec10(entry) + Ascii(" 00000 n \ntrailer\n<< ")));
    NoZConcat(Ascii("xref\n"), Dec(objNum) + (Ascii(" 1\n") + (Dec10(entry) + Ascii(" 00000 n \ntrailer\n<< "))));
  }

  /** The object behind its number. */
  function Behind(x: Input): Bytes {
    Ascii(" 0 obj\n") + (Ascii(InfoBody(x)) + Ascii("\nendobj\n"))
  }

  lemma BehindNoZ(x: Input)
    ensures NoZ(Behind(x)) && |Behind(x)| >= 7 && Behind(x)[0] == 0x20
  {
    hide InfoBody, NoZ;
    InfoIsQuiet(x);
    AsciiNoZ(" 0 obj\n");
    AsciiNoZ(InfoBody(x));
    AsciiNoZ("\nendobj\n");
    NoZConcat(Ascii(InfoBody(x)), Ascii("\nendobj\n"));
    NoZConcat(Ascii(" 0 obj\n"), Ascii(InfoBody(x)) + Ascii("\nendobj\n"));
    assert Ascii(" 0 obj\n")[0] == 0x20;
  }

  lemma OpensWith(data: Bytes, r: Revision, entry: nat)
    ensures var rest := Behind(r.input) + Front(r.objNum, entry);
      Opens(data, Newline(data) + (Dec(r.objNum) + rest), Newline(data), r.objNum, rest)
  {
    hide Dec, Behind, Front, NoZ;
    var rest := Behind(r.input) + Front(r.objNum, entry);
    BehindNoZ(r.input);
    FrontNoZ(r.objNum, entry);
    DigitsNoZ(Dec(r.objNum));
    NoZConcat(Behind(r.input), Front(r.objNum, entry));
    NoZConcat(Dec(r.objNum), rest);
    assert NoZ(Newline(data)) by { LineEndNoZ(data); }
    NoZConcat(Newline(data), Dec(r.objNum) + rest);
    assert rest[0] == Behind(r.input)[0];
  }

  lemma LineEndNoZ(data: Bytes)
    ensures NoZ(Newline(data))
  {
  }

  /** The trailer's own size, whatever comes after it. */
  lemma TrailerSize(n: nat, more: Bytes)
    ensures var tail := Ascii("/Size ") + (Dec(n) + (Ascii(" /Prev ") + more));
      && |tail| >= 3 && tail[0] != 0x7A && tail[1] != 0x7A && tail[2] != 0x7A && SizeHere(tail) == Some(n)
  {
    hide Value, Dec, GapRun, DigitRun;
    var number := Dec(n) + (Ascii(" /Prev ") + more);
    var tail := Ascii("/Size ") + number;
    assert Ascii("/Size ")[..5] == Ascii("/Size");
    assert tail[..5] == Ascii("/Size");
    assert tail[5..] == [0x20] + number;
    assert number[0] == Dec(n)[0];
    GapThrough([0x20], number);
    assert tail[6..] == number;
    DigitRunOf(Dec(n), Ascii(" /Prev ") + more);
    ValueDec(n);
    assert number[..|Dec(n)|] == Dec(n);
  }

  lemma ObjectSplits(r: Revision)
    ensures ObjectText(r) == Dec(r.objNum) + Behind(r.input)
  {
    hide Dec, Ascii, InfoBody;
    var a, b, c, d := Dec(r.objNum), Ascii(" 0 obj\n"), Ascii(InfoBody(r.input)), Ascii("\nendobj\n");
    Associate(a, b, c);
    Associate(a, b + c, d);
    Associate(b, c, d);
  }

  lemma TailGrows(a: Bytes, b: Bytes, c: Bytes, d: Bytes, e: Bytes)
    ensures (a + (b + (c + d))) + e == a + (b + (c + (d + e)))
  {
    Associate(c, d, e);
    Associate(b, c + d, e);
    Associate(a, b + (c + d), e);
  }

  lemma Rejoin(a: Bytes, b: Bytes, c: Bytes, d: Bytes, e: Bytes, f: Bytes)
    ensures a + (b + c) + (d + e) + f == (a + (b + (c + d))) + (e + f)
  {
    Associate(a + (b + c), d + e, f);
    Associate(d, e, f);
    Associate(a + (b + c), d, e + f);
    Associate(a, b + c, d);
    Associate(b, c, d);
  }

  /** The first embed into a file without a match makes one: of the new object's
      number behind a `/Size` the file ends in, and else of the new trailer. */
  lemma SizeAppears(data: Bytes, r: Revision)
    requires FirstSize(data) == None && Update(data, r).Ok?
    ensures FirstSize(Update(data, r).value) == Some(if EndsInSize(data) then r.objNum else r.objNum + 1)
  {
    hide Dec, Ascii, Print, InfoBody, FirstSize, SizeHere, EndsInSize, Startxref, Opens, Newline;
    var prev, entry := Startxref(data).value, ObjectStart(data);
    var more := SectionSplits(r.objNum, entry, prev);
    var rest, after := Behind(r.input) + Front(r.objNum, entry), more + EndText(XrefStart(data, r));
    var tail := Ascii("/Size ") + (Dec(r.objNum + 1) + (Ascii(" /Prev ") + after));
    OpensWith(data, r, entry);
    TrailerSize(r.objNum + 1, after);
    var opening := Newline(data) + (Dec(r.objNum) + rest);
    var size := Ascii("/Size ") + (Dec(r.objNum + 1) + (Ascii(" /Prev ") + more));
    ObjectSplits(r);
    TailGrows(Ascii("/Size "), Dec(r.objNum + 1), Ascii(" /Prev "), more, EndText(XrefStart(data, r)));
    Rejoin(Newline(data), Dec(r.objNum), Behind(r.input), Front(r.objNum, entry), size, EndText(XrefStart(data, r)));
    hide Behind, Front;
    assert Update(data, r).value == data + (opening + tail);
    FirstSizeAfter(data, opening, Newline(data), r.objNum, rest, tail);
  }

  // ------------------------------------------------------------------
  // Any number of embeds
  // ------------------------------------------------------------------

  /** The number every embed but the first defines. */
  function LaterNumber(data: Bytes): nat {
    if FirstSize(data).Some? || EndsInSize(data) then NextObjectNumber(data) else 2
  }

  function AllNumbered(data: Bytes, xs: seq<Input>): seq<Revision> {
    if xs == [] then [] else [Revision(NextObjectNumber(data), xs[0])] + Numbered(LaterNumber(data), xs[1..])
  }

  lemma {:induction false} EmbedFirst(data: Bytes, x: Input, xs: seq<Input>)
    ensures EmbedAll(data, [x] + xs) ==
      match Embed(data, x) case Err(e) => Err(e) case Ok(d) => EmbedAll(d, xs)
    decreases |xs|
  {
    hide Embed;
    var all := [x] + xs;
    if xs == [] {
      assert all[..0] == [] && EmbedAll(data, all[..0]) == Ok(data);
    } else {
      var n := |xs| - 1;
      EmbedFirst(data, x, xs[..n]);
      assert all[..n + 1] == [x] + xs[..n];
    }
  }

  lemma {:induction false} RevisionFirst(data: Bytes, r: Revision, rs: seq<Revision>)
    ensures Embeds(data, [r] + rs) ==
      match Update(data, r) case Err(e) => Err(e) case Ok(d) => Embeds(d, rs)
    decreases |rs|
  {
    hide Update;
    var all := [r] + rs;
    if rs == [] {
      assert all[..0] == [] && Embeds(data, all[..0]) == Ok(data);
    } else {
      var n := |rs| - 1;
      RevisionFirst(data, r, rs[..n]);
      assert all[..n + 1] == [r] + rs[..n];
    }
  }

  lemma NoEmbeds(data: Bytes)
    ensures EmbedAll(data, []) == Embeds(data, [])
  {
  }

  lemma NumberedAlike(data: Bytes, xs: seq<Input>)
    requires FirstSize(data).Some?
    ensures AllNumbered(data, xs) == Numbered(NextObjectNumber(data), xs)
  {
    hide FirstSize, EndsInSize, NextObjectNumber, Numbered;
    NumberedSplits(NextObjectNumber(data), xs);
  }

  lemma NumberedSplits(n: nat, xs: seq<Input>)
    ensures Numbered(n, xs) == if xs == [] then [] else [Revision(n, xs[0])] + Numbered(n, xs[1..])
  {
    hide Numbered;
    if xs != [] {
      assert xs == [xs[0]] + xs[1..];
    }
  }

  /** After the first embed there is a match, and it stays. */
  lemma SameObjectLater(data: Bytes, xs: seq<Input>)
    requires FirstSize(data) == None && xs != []
    ensures EmbedAll(data, xs) == Embeds(data, AllNumbered(data, xs))
  {
    hide FirstSize, Update, EndsInSize, EmbedAll, Embeds, Numbered;
    var r, rest := Revision(1, xs[0]), xs[1..];
    EmbedFirst(data, xs[0], rest);
    RevisionFirst(data, r, Numbered(LaterNumber(data), rest));
    assert xs == [xs[0]] + rest;
    if Update(data, r).Ok? {
      SizeAppears(data, r);
      SameObjectBySize(Update(data, r).value, rest);
    }
  }

  /** All embeds into a file with a `/Size` define one object; so do all into a
      file without one that ends in the bare word, object 1; and into any other
      file the first defines object 1 and all later ones object 2. */
  lemma SameObject(data: Bytes, xs: seq<Input>)
    ensures EmbedAll(data, xs) == Embeds(data, AllNumbered(data, xs))
    ensures FirstSize(data).Some? ==> EmbedAll(data, xs) == Embeds(data, Numbered(NextObjectNumber(data), xs))
    ensures FirstSize(data).Some? && EmbedAll(data, xs).Ok? ==> FirstSize(EmbedAll(data, xs).value) == FirstSize(data)
  {
    hide FirstSize, EmbedAll, Embeds, LaterNumber, NextObjectNumber;
    if FirstSize(data).Some? {
      SameObjectBySize(data, xs);
      NumberedAlike(data, xs);
    } else if xs != [] {
      SameObjectLater(data, xs);
    } else {
      NoEmbeds(data);
    }
  }
}
