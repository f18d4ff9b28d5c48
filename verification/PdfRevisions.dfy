/** Incremental updates of a PDF file (sections 7.5.4 to 7.5.6 of ISO 32000-1). */
module PdfRevisions {
  import opened Common
  import opened Decimal
  import opened PdfInfo

  const MaxInt64: nat := 0x7FFF_FFFF_FFFF_FFFF

  // ------------------------------------------------------------------
  // Finding the last startxref
  // ------------------------------------------------------------------

  datatype Malformed = NoStartxref | NoNumber | OutOfRange | NoEndMarker

  /** The last place below `i` where `pat` stands. */
  function LastIndexBelow(b: Bytes, pat: Bytes, i: nat): (r: Option<nat>)
    ensures r.Some? ==> r.value < i && StandsAt(b, r.value, pat)
    ensures forall j :: (if r.Some? then r.value else -1) < j < i ==> !StandsAt(b, j, pat)
  {
    if i == 0 then None else if StandsAt(b, i - 1, pat) then Some(i - 1) else LastIndexBelow(b, pat, i - 1)
  }

  predicate IsBlank(b: Byte) {
    b == 0x20 || b == 0x09 || b == 0x0D || b == 0x0A
  }

  function TrimBlanks(b: Bytes): Bytes {
    if b != [] && IsBlank(b[0]) then TrimBlanks(b[1..]) else b
  }

  function Tail(data: Bytes): Bytes {
    if |data| > 1024 then data[|data| - 1024..] else data
  }

  function Startxref(data: Bytes): Result<nat, Malformed> {
    var tail := Tail(data);
    match LastIndexBelow(tail, Ascii("startxref"), |tail| + 1)
    case None => Err(NoStartxref)
    case Some(idx) =>
      var rest := TrimBlanks(tail[idx + 9..]);
      var end := DigitRun(rest);
      if end == 0 then Err(NoNumber)
      else if Value(rest[..end]) > MaxInt64 then Err(OutOfRange)
      else if LastIndexBelow(tail, Ascii("%%EOF"), |tail| + 1) == None then Err(NoEndMarker)
      else Ok(Value(rest[..end]))
  }

  method FindStartxref(data: Bytes) returns (r: Result<nat, Malformed>)
    ensures r == Startxref(data)
  {
    hide LastIndexBelow, Ascii, Value, TrimBlanks;
    var tailStart := |data| - 1024;
    if tailStart < 0 {
      tailStart := 0;
    }
    var tail := data[tailStart..];
    assert tail == Tail(data);
    var idx := LastIndexBelow(tail, Ascii("startxref"), |tail| + 1);
    if idx == None {
      return Err(NoStartxref);
    }
    var rest := TrimBlanks(tail[idx.value + 9..]);
    var end := 0;
    assert rest[0..] == rest;
    while end < |rest| && IsDigit(rest[end])
      invariant 0 <= end <= |rest|
      invariant DigitRun(rest) == end + DigitRun(rest[end..])
    {
      assert rest[end..][1..] == rest[end + 1..];
      end := end + 1;
    }
    if end == 0 {
      return Err(NoNumber);
    }
    var off := Value(rest[..end]);
    if off > MaxInt64 {
      return Err(OutOfRange);
    }
    if LastIndexBelow(tail, Ascii("%%EOF"), |tail| + 1) == None {
      return Err(NoEndMarker);
    }
    return Ok(off);
  }

  // ------------------------------------------------------------------
  // What is found
  // ------------------------------------------------------------------

  /** A pattern stands among the last 1024 bytes. */
  ghost predicate Near(data: Bytes, pat: Bytes) {
    exists j :: |data| - 1024 <= j && StandsAt(data, j, pat)
  }

  lemma {:induction false} TrimBlanksIs(blanks: Bytes, rest: Bytes)
    requires (forall i :: 0 <= i < |blanks| ==> IsBlank(blanks[i])) && (rest != [] ==> !IsBlank(rest[0]))
    ensures TrimBlanks(blanks + rest) == rest
  {
    if blanks == [] {
      assert blanks + rest == rest;
    } else {
      TrimBlanksIs(blanks[1..], rest);
      assert (blanks + rest)[1..] == blanks[1..] + rest;
    }
  }

  lemma TailStands(data: Bytes, pat: Bytes, j: int)
    requires pat != []
    ensures var cut := |data| - |Tail(data)|; StandsAt(Tail(data), j, pat) <==> j >= 0 && StandsAt(data, cut + j, pat)
  {
    var cut := |data| - |Tail(data)|;
    assert Tail(data) == data[cut..];
    if 0 <= j && j + |pat| <= |Tail(data)| {
      assert data[cut..][j..j + |pat|] == data[cut + j..cut + j + |pat|];
    }
  }

  lemma NearWhen(data: Bytes, pat: Bytes)
    requires pat != []
    ensures Near(data, pat) <==> LastIndexBelow(Tail(data), pat, |Tail(data)| + 1).Some?
  {
    hide Tail, LastIndexBelow;
    var tail, r := Tail(data), LastIndexBelow(Tail(data), pat, |Tail(data)| + 1);
    assert |tail| == if |data| > 1024 then 1024 else |data| by { TailLength(data); }
    var cut := |data| - |tail|;
    if Near(data, pat) {
      var j :| |data| - 1024 <= j && StandsAt(data, j, pat);
      TailStands(data, pat, j - cut);
      assert StandsAt(tail, j - cut, pat);
    }
    if r.Some? {
      TailStands(data, pat, r.value);
      assert StandsAt(data, cut + r.value, pat);
    }
  }

  lemma TailLength(data: Bytes)
    ensures |Tail(data)| == if |data| > 1024 then 1024 else |data|
  {
  }

  /** The keyword stands at `k` within the last 1024 bytes and not again behind
      it; then white space, `digits`, and something else. */
  ghost predicate KeywordAt(data: Bytes, k: nat, blanks: Bytes, digits: Bytes, rest: Bytes) {
    && k <= |data| && k >= |data| - 1024 && data[k..] == Ascii("startxref") + (blanks + (digits + rest))
    && (forall j :: k < j ==> !StandsAt(data, j, Ascii("startxref")))
    && (forall i :: 0 <= i < |blanks| ==> IsBlank(blanks[i])) && (forall i :: 0 <= i < |digits| ==> IsDigit(digits[i]))
    && (rest != [] ==> !IsDigit(rest[0])) && (digits == [] && rest != [] ==> !IsBlank(rest[0]))
  }

  /** Without the keyword near the end there is no answer. */
  lemma NoStartxrefWhen(data: Bytes)
    ensures Startxref(data) == Err(NoStartxref) <==> !Near(data, Ascii("startxref"))
  {
    hide Ascii, LastIndexBelow, TrimBlanks, DigitRun, Value, Tail;
    assert |Ascii("startxref")| == 9;
    NearWhen(data, Ascii("startxref"));
  }

  /** With it the answer is the number behind its last occurrence, or the first of
      the three other things that are wrong. */
  lemma StartxrefWhen(data: Bytes, k: nat, blanks: Bytes, digits: Bytes, rest: Bytes)
    requires KeywordAt(data, k, blanks, digits, rest)
    ensures Startxref(data) ==
      if digits == [] then Err(NoNumber)
      else if Value(digits) > MaxInt64 then Err(OutOfRange)
      else if !Near(data, Ascii("%%EOF")) then Err(NoEndMarker)
      else Ok(Value(digits))
  {
    hide Ascii, LastIndexBelow, TrimBlanks, DigitRun, Value, Tail;
    assert |Ascii("%%EOF")| == 5;
    NearWhen(data, Ascii("%%EOF"));
    KeywordFound(data, k, blanks, digits, rest);
  }

  lemma KeywordFound(data: Bytes, k: nat, blanks: Bytes, digits: Bytes, rest: Bytes)
    requires KeywordAt(data, k, blanks, digits, rest)
    ensures var tail := Tail(data);
      && var idx := LastIndexBelow(tail, Ascii("startxref"), |tail| + 1);
      && idx.Some? && idx.value + 9 <= |tail|
      && var found := TrimBlanks(tail[idx.value + 9..]);
      && DigitRun(found) == |digits| && found[..|digits|] == digits
  {
    hide Ascii, LastIndexBelow, TrimBlanks, DigitRun;
    var key, tail := Ascii("startxref"), Tail(data);
    var cut := |data| - |tail|;
    assert tail == data[cut..];
    TailStands(data, key, k - cut);
    assert data[k..][..9] == key;
    assert StandsAt(data, k, key) && StandsAt(tail, k - cut, key);
    forall j | k - cut < j <= |tail| ensures !StandsAt(tail, j, key) {
      TailStands(data, key, j);
    }
    LastIndexIs(tail, key, k - cut);
    assert tail[k - cut + 9..] == blanks + (digits + rest) by {
      assert data[k..][9..] == data[k + 9..] == tail[k - cut + 9..];
    }
    assert digits != [] ==> IsDigit(digits[0]) && (digits + rest)[0] == digits[0];
    assert digits == [] ==> digits + rest == rest;
    TrimBlanksIs(blanks, digits + rest);
    DigitRunOf(digits, rest);
    assert (digits + rest)[..|digits|] == digits;
  }

  // ------------------------------------------------------------------
  // Formats
  // ------------------------------------------------------------------

  /** A piece of formatted text: literal bytes, `%d` or `%010d`. */
  datatype Piece = Lit(text: Bytes) | Num(value: nat) | Num10(value: nat)

  function Print(ps: seq<Piece>): Bytes {
    if ps == [] then []
    else
      (match ps[0]
       case Lit(text) => text
       case Num(value) => Dec(value)
       case Num10(value) => Dec10(value)) + Print(ps[1..])
  }

  predicate SameShape(p: Piece, q: Piece) {
    match p
    case Lit(text) => p == q
    case Num(_) => q.Num?
    case Num10(_) => q.Num10?
  }

  /** Reads what a format prints: the pieces, whose numbers are those found,
      and the bytes after them. A ten-digit field has exactly ten digits. */
  function Scan(shape: seq<Piece>, s: Bytes): (r: Option<(seq<Piece>, Bytes)>)
    ensures r.Some? ==> |r.value.0| == |shape|
    ensures r.Some? ==> forall i :: 0 <= i < |shape| ==> SameShape(shape[i], r.value.0[i])
  {
    if shape == [] then Some(([], s))
    else
      match ScanPiece(shape[0], s)
      case None => None
      case Some(first) =>
        match Scan(shape[1..], first.1)
        case None => None
        case Some(more) => Some(([first.0] + more.0, more.1))
  }

  function ScanPiece(p: Piece, s: Bytes): (r: Option<(Piece, Bytes)>)
    ensures r.Some? ==> SameShape(p, r.value.0)
  {
    if p.Lit? then
      if p.text <= s then Some((p, s[|p.text|..])) else None
    else
      var n := DigitRun(s);
      if n == 0 || (p.Num10? && n != 10) then None
      else Some((if p.Num? then Num(Value(s[..n])) else Num10(Value(s[..n])), s[n..]))
  }

  /** Every number is followed by text that does not start with a digit. */
  ghost predicate Delimited(ps: seq<Piece>) {
    forall i :: 0 <= i < |ps| ==> Followed(ps, i)
  }

  ghost predicate Followed(ps: seq<Piece>, i: nat)
    requires i < |ps|
  {
    ps[i].Lit? || (i + 1 < |ps| && StartsPlain(ps[i + 1]))
  }

  /** No number overruns a ten-digit field. */
  ghost predicate Fits(ps: seq<Piece>) {
    forall i :: 0 <= i < |ps| && ps[i].Num10? ==> |Dec(ps[i].value)| <= 10
  }

  lemma RestOf(ps: seq<Piece>)
    requires ps != [] && Delimited(ps)
    ensures Delimited(ps[1..])
    ensures ps[0].Lit? || (|ps| > 1 && StartsPlain(ps[1]))
  {
    assert Followed(ps, 0);
    forall i | 0 <= i < |ps| - 1 ensures Followed(ps[1..], i) {
      assert Followed(ps, i + 1);
    }
  }

  ghost predicate StartsPlain(p: Piece) {
    p.Lit? && p.text != [] && !IsDigit(p.text[0])
  }

  lemma ScanPrinted(p: Piece, q: Piece, rest: Bytes)
    requires SameShape(p, q)
    requires q.Lit? || (rest != [] && !IsDigit(rest[0]))
    requires q.Num10? ==> |Dec(q.value)| <= 10
    ensures ScanPiece(p, Print([q]) + rest) == Some((q, rest))
  {
    hide Dec, Value, DigitRun;
    PrintOne(q);
    match q
    case Lit(text) =>
      assert (text + rest)[|text|..] == rest;
    case Num(value) =>
      DigitRunOf(Dec(value), rest);
      ValueDec(value);
      assert (Dec(value) + rest)[..|Dec(value)|] == Dec(value);
    case Num10(value) =>
      DigitRunOf(Dec10(value), rest);
      ValueDec10(value);
      assert (Dec10(value) + rest)[..10] == Dec10(value);
  }

  lemma PrintOne(q: Piece)
    ensures Print([q]) == match q case Lit(text) => text case Num(value) => Dec(value) case Num10(value) => Dec10(value)
  {
    hide Dec, Dec10;
    assert [q][1..] == [];
  }

  lemma PrintFirst(ps: seq<Piece>)
    requires ps != []
    ensures Print(ps) == Print([ps[0]]) + Print(ps[1..])
  {
    hide Dec, Dec10;
    PrintOne(ps[0]);
  }

  /** Scanning is a left inverse of printing, whatever follows. */
  lemma {:induction false} ScanPrint(shape: seq<Piece>, ps: seq<Piece>, rest: Bytes)
    requires |shape| == |ps| && forall i :: 0 <= i < |ps| ==> SameShape(shape[i], ps[i])
    requires Delimited(ps) && Fits(ps)
    ensures Scan(shape, Print(ps) + rest) == Some((ps, rest))
  {
    hide ScanPiece, Print, Dec, Delimited;
    if ps == [] {
      PrintNothing();
      assert [] + rest == rest;
    } else {
      PrintFirst(ps);
      RestOf(ps);
      ScanPrint(shape[1..], ps[1..], rest);
      var more := Print(ps[1..]) + rest;
      assert Print(ps) + rest == Print([ps[0]]) + more;
      if !ps[0].Lit? {
        PlainStart(ps[1..]);
      }
      ScanPrinted(shape[0], ps[0], more);
      assert ps == [ps[0]] + ps[1..];
    }
  }

  lemma PrintNothing()
    ensures Print([]) == []
  {
  }

  lemma PlainStart(ps: seq<Piece>)
    requires ps != [] && StartsPlain(ps[0])
    ensures Print(ps) != [] && !IsDigit(Print(ps)[0])
  {
    PrintFirst(ps);
    PrintOne(ps[0]);
  }

  /** What was scanned stays scanned when the file grows. */
  lemma {:induction false} ScanExtends(shape: seq<Piece>, s: Bytes, more: Bytes)
    requires Scan(shape, s).Some?
    requires Delimited(shape)
    ensures Scan(shape, s + more) == Some((Scan(shape, s).value.0, Scan(shape, s).value.1 + more))
  {
    hide ScanPiece, Delimited;
    if shape != [] {
      RestOf(shape);
      var first := ScanPiece(shape[0], s).value;
      ScanExtends(shape[1..], first.1, more);
      if !shape[0].Lit? {
        PlainScanned(shape[1], first.1);
      }
      PieceExtends(shape[0], s, more);
    }
  }

  lemma PlainScanned(p: Piece, s: Bytes)
    requires StartsPlain(p) && ScanPiece(p, s).Some?
    ensures s != [] && !IsDigit(s[0])
  {
    assert s[0] == p.text[0];
  }

  lemma PieceExtends(p: Piece, s: Bytes, more: Bytes)
    requires ScanPiece(p, s).Some?
    requires p.Lit? || (ScanPiece(p, s).value.1 != [] && !IsDigit(ScanPiece(p, s).value.1[0]))
    ensures ScanPiece(p, s + more) == Some((ScanPiece(p, s).value.0, ScanPiece(p, s).value.1 + more))
  {
    if p.Lit? {
      assert (s + more)[|p.text|..] == s[|p.text|..] + more;
    } else {
      var n := DigitRun(s);
      assert s + more == s[..n] + (s[n..] + more);
      DigitRunOf(s[..n], s[n..] + more);
      assert (s + more)[..n] == s[..n] && (s + more)[n..] == s[n..] + more;
    }
  }

  // ------------------------------------------------------------------
  // One revision
  // ------------------------------------------------------------------

  datatype Revision = Revision(objNum: nat, input: Input)

  function ObjectText(r: Revision): Bytes {
    Dec(r.objNum) + Ascii(" 0 obj\n") + Ascii(InfoBody(r.input)) + Ascii("\nendobj\n")
  }

  /** A cross-reference section of one entry, and its trailer. */
  function SectionPieces(objNum: nat, entry: nat, prev: nat): seq<Piece> {
    [Lit(Ascii("xref\n")), Num(objNum), Lit(Ascii(" 1\n")), Num10(entry),
     Lit(Ascii(" 00000 n \ntrailer\n<< /Size ")), Num(objNum + 1), Lit(Ascii(" /Prev ")), Num(prev),
     Lit(Ascii(" /Info ")), Num(objNum), Lit(Ascii(" 0 R /Root 1 0 R >>\n"))]
  }

  function EndText(xrefStart: nat): Bytes {
    Ascii("startxref") + ([0x0A] + Dec(xrefStart) + Ascii("\n%%EOF\n"))
  }

  function Newline(data: Bytes): Bytes {
    if data != [] && data[|data| - 1] != 0x0A then [0x0A] else []
  }

  function ObjectStart(data: Bytes): nat {
    |data| + |Newline(data)|
  }

  function XrefStart(data: Bytes, r: Revision): nat {
    ObjectStart(data) + |ObjectText(r)|
  }

  function SectionText(data: Bytes, r: Revision, prev: nat): Bytes {
    Print(SectionPieces(r.objNum, ObjectStart(data), prev))
  }

  function Update(data: Bytes, r: Revision): Result<Bytes, Malformed> {
    match Startxref(data)
    case Err(e) => Err(e)
    case Ok(prev) =>
      Ok(data + (Newline(data) + ObjectText(r) + SectionText(data, r, prev) + EndText(XrefStart(data, r))))
  }

  method BuildIncrementalUpdate(data: Bytes, r: Revision) returns (out: Result<Bytes, Malformed>)
    ensures out == Update(data, r)
  {
    hide Startxref, Ascii, Print, Dec, InfoBody;
    var prev := FindStartxref(data);
    if prev.Err? {
      return Err(prev.error);
    }
    var body := BuildInfoBody(r.input);
    var ap: Bytes := [];
    if |data| > 0 && data[|data| - 1] != 0x0A {
      ap := [0x0A];
    }
    var objStart := |data| + |ap|;
    ap := ap + (Dec(r.objNum) + Ascii(" 0 obj\n") + Ascii(body) + Ascii("\nendobj\n"));
    var xrefStart := |data| + |ap|;
    ap := ap + Print(SectionPieces(r.objNum, objStart, prev.value));
    ap := ap + EndText(xrefStart);
    return Ok(data + ap);
  }

  // ------------------------------------------------------------------
  // Reading a revision
  // ------------------------------------------------------------------

  /** What a reader looks for: a cross-reference section of one entry in use, and
      a trailer with its size, the section before it, the information object and
      the root. The numbers stand for any. */
  function Grammar(): seq<Piece> {
    [Lit(Ascii("xref\n")), Num(0), Lit(Ascii(" 1\n")), Num10(0),
     Lit(Ascii(" 00000 n \ntrailer\n<< /Size ")), Num(0), Lit(Ascii(" /Prev ")), Num(0),
     Lit(Ascii(" /Info ")), Num(0), Lit(Ascii(" 0 R /Root 1 0 R >>\n"))]
  }

  datatype Section = Section(objNum: nat, entry: nat, size: nat, prev: nat, info: nat)

  function ReadSection(s: Bytes): Option<Section> {
    match Scan(Grammar(), s)
    case None => None
    case Some(r) => Some(SectionOf(r.0))
  }

  function SectionOf(ps: seq<Piece>): Section
    requires |ps| == 11 && forall i :: 0 <= i < 11 ==> SameShape(Grammar()[i], ps[i])
  {
    var shape := Grammar();
    assert SameShape(shape[1], ps[1]) && SameShape(shape[3], ps[3]) && SameShape(shape[5], ps[5])
      && SameShape(shape[7], ps[7]) && SameShape(shape[9], ps[9]);
    Section(ps[1].value, ps[3].value, ps[5].value, ps[7].value, ps[9].value)
  }

  lemma SectionShape(objNum: nat, entry: nat, prev: nat)
    ensures Delimited(SectionPieces(objNum, entry, prev))
    ensures Fits(SectionPieces(objNum, entry, prev)) <==> entry < 10_000_000_000
    ensures forall i :: 0 <= i < 11 ==> SameShape(Grammar()[i], SectionPieces(objNum, entry, prev)[i])
  {
    hide Dec, Ascii;
    DecLength(entry, 10);
    assert Pow10(10) == 10_000_000_000;
    var ps := SectionPieces(objNum, entry, prev);
    assert ps[3].Num10?;
  }

  lemma GrammarDelimited()
    ensures Delimited(Grammar())
  {
    hide Ascii;
  }

  lemma {:induction false} ScanOverrun(shape: seq<Piece>, ps: seq<Piece>, rest: Bytes)
    requires |shape| == |ps| && forall i :: 0 <= i < |ps| ==> SameShape(shape[i], ps[i])
    requires Delimited(ps) && !Fits(ps)
    ensures Scan(shape, Print(ps) + rest) == None
  {
    hide ScanPiece, Print, Dec, Delimited;
    PrintFirst(ps);
    RestOf(ps);
    var more := Print(ps[1..]) + rest;
    assert Print(ps) + rest == Print([ps[0]]) + more;
    if !ps[0].Lit? {
      PlainStart(ps[1..]);
    }
    if ps[0].Num10? && |Dec(ps[0].value)| > 10 {
      PieceOverrun(shape[0], ps[0], more);
    } else {
      ScanPrinted(shape[0], ps[0], more);
      ScanOverrun(shape[1..], ps[1..], rest);
    }
  }

  lemma PieceOverrun(p: Piece, q: Piece, rest: Bytes)
    requires SameShape(p, q) && q.Num10? && |Dec(q.value)| > 10 && rest != [] && !IsDigit(rest[0])
    ensures ScanPiece(p, Print([q]) + rest) == None
  {
    hide Dec, Value, DigitRun;
    PrintOne(q);
    DigitRunOf(Dec10(q.value), rest);
  }

  /** A section reads back as it was written, wherever it stands, exactly when
      the entry's offset fits its ten digits. */
  lemma SectionReads(objNum: nat, entry: nat, prev: nat, rest: Bytes)
    ensures ReadSection(Print(SectionPieces(objNum, entry, prev)) + rest) ==
      if entry < 10_000_000_000 then Some(Section(objNum, entry, objNum + 1, prev, objNum)) else None
  {
    hide Ascii, Print, Scan, Delimited, Fits, SameShape;
    var ps := SectionPieces(objNum, entry, prev);
    SectionShape(objNum, entry, prev);
    if entry < 10_000_000_000 {
      ScanPrint(Grammar(), ps, rest);
    } else {
      ScanOverrun(Grammar(), ps, rest);
    }
  }

  lemma ReadSectionExtends(s: Bytes, more: Bytes)
    requires ReadSection(s).Some?
    ensures ReadSection(s + more) == ReadSection(s)
  {
    hide Ascii, Scan, Delimited, Fits, SameShape, SectionPieces;
    SectionShape(0, 0, 0);
    GrammarDelimited();
    ScanExtends(Grammar(), s, more);
  }

  // ------------------------------------------------------------------
  // The offset a revision ends with is found again
  // ------------------------------------------------------------------

  lemma EndLength(x: nat)
    requires x <= MaxInt64
    ensures 17 < |EndText(x)| <= 36 && |EndText(x)| == 17 + |Dec(x)|
  {
    hide Dec, Ascii;
    DecLength(x, 19);
    assert Pow10(10) == 10_000_000_000;
    assert Pow10(15) == 1_000_000_000_000_000;
    assert Pow10(19) == 10_000_000_000_000_000_000;
  }

  /** The keyword holds one `s`, its first, and nothing behind it does. */
  lemma EndHasOneS(x: nat)
    ensures |EndText(x)| == 17 + |Dec(x)|
    ensures forall i :: 1 <= i < |EndText(x)| ==> EndText(x)[i] != 0x73
  {
    hide Dec, Ascii;
    var b, k := EndText(x), 10 + |Dec(x)|;
    forall i | 1 <= i < |b| ensures b[i] != 0x73 {
      if 10 <= i < k {
        assert b[i] == Dec(x)[i - 10];
      } else if i >= k {
        assert b[i] == Ascii("\n%%EOF\n")[i - k];
      } else if i < 9 {
        assert b[i] == Ascii("startxref")[i];
      }
    }
  }

  lemma EndBytes(x: nat)
    requires x <= MaxInt64
    ensures 17 < |EndText(x)| <= 36
    ensures EndText(x)[..9] == Ascii("startxref") && EndText(x)[9..] == [0x0A] + Dec(x) + Ascii("\n%%EOF\n")
    ensures forall i :: 1 <= i < |EndText(x)| ==> EndText(x)[i] != 0x73
    ensures StandsAt(EndText(x), 11 + |Dec(x)|, Ascii("%%EOF"))
  {
    hide Dec, Ascii;
    EndLength(x);
    EndHasOneS(x);
    var b, k := EndText(x), 10 + |Dec(x)|;
    assert Ascii("\n%%EOF\n")[1..6] == Ascii("%%EOF");
    assert b[k + 1..k + 6] == Ascii("\n%%EOF\n")[1..6];
  }

  lemma LastIndexIs(b: Bytes, pat: Bytes, k: nat)
    requires k <= |b| && StandsAt(b, k, pat) && forall j :: k < j <= |b| ==> !StandsAt(b, j, pat)
    ensures LastIndexBelow(b, pat, |b| + 1) == Some(k)
  {
    var r := LastIndexBelow(b, pat, |b| + 1);
    assert r.Some? ==> StandsAt(b, r.value, pat);
  }

  /** So no keyword starts later. */
  lemma KeywordLast(front: Bytes, x: nat)
    requires x <= MaxInt64
    ensures LastIndexBelow(front + EndText(x), Ascii("startxref"), |front + EndText(x)| + 1) == Some(|front|)
  {
    hide EndText, Ascii, LastIndexBelow;
    var b, key := front + EndText(x), Ascii("startxref");
    EndBytes(x);
    assert b[|front|..|front| + 9] == EndText(x)[..9];
    forall j | |front| < j <= |b| ensures !StandsAt(b, j, key) {
      if j + 9 <= |b| {
        assert b[j] == EndText(x)[j - |front|];
        assert key[0] == 0x73 && b[j..j + 9][0] == b[j];
      }
    }
    LastIndexIs(b, key, |front|);
  }

  lemma MarkerFound(front: Bytes, x: nat)
    requires x <= MaxInt64
    ensures LastIndexBelow(front + EndText(x), Ascii("%%EOF"), |front + EndText(x)| + 1).Some?
  {
    hide EndText, Ascii, LastIndexBelow;
    var b, k, pat := front + EndText(x), 11 + |Dec(x)|, Ascii("%%EOF");
    EndBytes(x);
    assert b[|front| + k..|front| + k + |pat|] == EndText(x)[k..k + |pat|];
    assert StandsAt(b, |front| + k, pat);
  }

  lemma NumberAfter(x: nat, rest: Bytes)
    requires rest != [] && !IsDigit(rest[0])
    ensures TrimBlanks([0x0A] + Dec(x) + rest) == Dec(x) + rest
    ensures DigitRun(Dec(x) + rest) == |Dec(x)| && (Dec(x) + rest)[..|Dec(x)|] == Dec(x) && Value(Dec(x)) == x
  {
    hide Dec, Value, DigitRun;
    var t := Dec(x) + rest;
    assert ([0x0A] + Dec(x) + rest)[1..] == t;
    assert IsDigit(t[0]);
    DigitRunOf(Dec(x), rest);
    ValueDec(x);
  }

  lemma EndFound(front: Bytes, x: nat)
    requires x <= MaxInt64
    ensures Startxref(front + EndText(x)) == Ok(x)
  {
    hide EndText, Ascii, LastIndexBelow, TrimBlanks, DigitRun, Value;
    var b := front + EndText(x);
    EndBytes(x);
    var cut := if |b| > 1024 then |b| - 1024 else 0;
    var near := front[cut..];
    assert Tail(b) == near + EndText(x);
    KeywordLast(near, x);
    MarkerFound(near, x);
    assert (near + EndText(x))[|near| + 9..] == EndText(x)[9..];
    NumberAfter(x, Ascii("\n%%EOF\n"));
  }

  /** One update: the old bytes stay in front, the end leads to the new
      section, and the section leads back to where the old file's end led and
      to the first byte of the new object. */
  lemma UpdateReads(data: Bytes, r: Revision)
    requires Startxref(data).Ok? && XrefStart(data, r) <= MaxInt64
    ensures Update(data, r).Ok?
    ensures var out, x, o := Update(data, r).value, XrefStart(data, r), ObjectStart(data);
      && data <= out && o <= x <= |out| && Startxref(out) == Ok(x)
      && ReadSection(out[x..]) ==
        (if o < 10_000_000_000 then Some(Section(r.objNum, o, r.objNum + 1, Startxref(data).value, r.objNum)) else None)
      && ObjectText(r) <= out[o..] && ReadObject(out[o..]) == Some((r.objNum, InfoBody(r.input)))
  {
    hide Startxref, ReadSection, ObjectText, EndText, Print, SectionPieces, ReadObject, InfoBody;
    var prev, x, o := Startxref(data).value, XrefStart(data, r), ObjectStart(data);
    var nl, obj, sec, end := Newline(data), ObjectText(r), SectionText(data, r, prev), EndText(x);
    var out := Update(data, r).value;
    assert out == (data + nl + obj + sec) + end;
    EndFound(data + nl + obj + sec, x);
    assert out == (data + nl + obj) + (sec + end);
    assert out[x..] == sec + end;
    SectionReads(r.objNum, o, prev, end);
    assert out == (data + nl) + (obj + (sec + end));
    assert out[o..] == obj + (sec + end);
    ObjectReads(r, sec + end);
  }

  // ------------------------------------------------------------------
  // Reading an object
  // ------------------------------------------------------------------

  /** Where the first line end is, or the length. */
  function LineEnd(b: Bytes): (i: nat)
    ensures i <= |b| && (i < |b| ==> b[i] == 0x0A) && forall j :: 0 <= j < i ==> b[j] != 0x0A
  {
    if b == [] || b[0] == 0x0A then 0 else 1 + LineEnd(b[1..])
  }

  function Characters(b: Bytes): string {
    seq(|b|, i requires 0 <= i < |b| => b[i] as char)
  }

  /** The number of an object of generation 0, and the line it consists of. */
  function ReadObject(b: Bytes): Option<(nat, string)> {
    var n := DigitRun(b);
    var head, end := Ascii(" 0 obj\n"), Ascii("\nendobj\n");
    if n == 0 || !(head <= b[n..]) then None
    else
      var line := b[n + |head|..];
      if end <= line[LineEnd(line)..] then Some((Value(b[..n]), Characters(line[..LineEnd(line)]))) else None
  }

  lemma {:induction false} LineEndIs(b: Bytes, i: nat)
    requires i < |b| && b[i] == 0x0A && forall j :: 0 <= j < i ==> b[j] != 0x0A
    ensures LineEnd(b) == i
  {
    if i > 0 {
      LineEndIs(b[1..], i - 1);
    }
  }

  lemma QuietLine(s: string)
    requires Quiet(s)
    ensures Characters(Ascii(s)) == s && forall i :: 0 <= i < |s| ==> Ascii(s)[i] != 0x0A
  {
  }

  /** An object reads back as its number and its dictionary, whatever follows. */
  lemma ObjectReads(r: Revision, rest: Bytes)
    ensures ReadObject(ObjectText(r) + rest) == Some((r.objNum, InfoBody(r.input)))
  {
    hide Dec, Value, DigitRun, InfoBody, Ascii, Characters, Quiet;
    InfoIsQuiet(r.input);
    QuietLine(InfoBody(r.input));
    var num, head, info, end := Dec(r.objNum), Ascii(" 0 obj\n"), Ascii(InfoBody(r.input)), Ascii("\nendobj\n");
    FirstBytes();
    var line := info + (end + rest);
    var b := ObjectText(r) + rest;
    assert b == num + (head + line);
    DigitRunOf(num, head + line);
    ValueDec(r.objNum);
    assert b[..|num|] == num && b[|num|..] == head + line && b[|num| + |head|..] == line;
    assert line[|info|] == end[0];
    LineEndIs(line, |info|);
    assert line[..|info|] == info && line[|info|..] == end + rest;
  }

  lemma FirstBytes()
    ensures Ascii(" 0 obj\n")[0] == 0x20 && Ascii("\nendobj\n")[0] == 0x0A
  {
  }

  // ------------------------------------------------------------------
  // Many revisions
  // ------------------------------------------------------------------

  /** The file after a list of embeds. */
  function Embeds(data: Bytes, rs: seq<Revision>): Result<Bytes, Malformed> {
    if rs == [] then Ok(data)
    else
      match Embeds(data, rs[..|rs| - 1])
      case Err(e) => Err(e)
      case Ok(d) => Update(d, rs[|rs| - 1])
  }

  /** Following `/Prev` for `n` sections, and where the last one leads. */
  function Follow(b: Bytes, off: nat, n: nat): Option<(seq<Section>, nat)>
    decreases n
  {
    if n == 0 then Some(([], off))
    else if off > |b| then None
    else
      match ReadSection(b[off..])
      case None => None
      case Some(s) =>
        match Follow(b, s.prev, n - 1)
        case None => None
        case Some(more) => Some(([s] + more.0, more.1))
  }

  lemma {:induction false} FollowExtends(b: Bytes, more: Bytes, off: nat, n: nat)
    requires Follow(b, off, n).Some?
    ensures Follow(b + more, off, n) == Follow(b, off, n)
    decreases n
  {
    hide ReadSection;
    if n > 0 {
      ReadSectionExtends(b[off..], more);
      assert (b + more)[off..] == b[off..] + more;
      FollowExtends(b, more, ReadSection(b[off..]).value.prev, n - 1);
    }
  }

  /** Every file on the way is under ten gigabytes. */
  ghost predicate Small(data: Bytes, rs: seq<Revision>) {
    forall k :: 0 <= k <= |rs| ==> (Embeds(data, rs[..k]).Ok? ==> |Embeds(data, rs[..k]).value| < 10_000_000_000)
  }

  /** The sections are those of the revisions, newest first, each leading to
      its object, of its number and with its dictionary. */
  ghost predicate Visits(d: Bytes, secs: seq<Section>, rs: seq<Revision>) {
    && |secs| == |rs|
    && forall i :: 0 <= i < |secs| ==> Leads(d, secs[i], rs[|rs| - 1 - i])
  }

  ghost predicate Leads(d: Bytes, s: Section, r: Revision) {
    && s.objNum == r.objNum && s.info == r.objNum && s.size == r.objNum + 1
    && s.entry <= |d| && ObjectText(r) <= d[s.entry..]
    && ReadObject(d[s.entry..]) == Some((r.objNum, InfoBody(r.input)))
  }

  lemma LeadsTo(d: Bytes, s: Section, r: Revision)
    requires s.objNum == r.objNum && s.info == r.objNum && s.size == r.objNum + 1
    requires s.entry <= |d| && ObjectText(r) <= d[s.entry..]
    ensures Leads(d, s, r)
  {
    hide ObjectText, ReadObject, InfoBody;
    var b, n := d[s.entry..], |ObjectText(r)|;
    assert b == ObjectText(r) + b[n..];
    ObjectReads(r, b[n..]);
  }

  lemma VisitsMore(d: Bytes, more: Bytes, s: Section, secs: seq<Section>, rs: seq<Revision>)
    requires rs != [] && Visits(d, secs, rs[..|rs| - 1]) && Leads(d + more, s, rs[|rs| - 1])
    ensures Visits(d + more, [s] + secs, rs)
  {
    hide ObjectText, ReadObject, InfoBody;
    var n := |rs| - 1;
    forall i | 0 <= i < |rs| ensures Leads(d + more, ([s] + secs)[i], rs[n - i]) {
      if i > 0 {
        assert Leads(d, secs[i - 1], rs[..n][n - 1 - (i - 1)]);
        assert (d + more)[secs[i - 1].entry..] == d[secs[i - 1].entry..] + more;
        LeadsTo(d + more, secs[i - 1], rs[n - i]);
      }
    }
  }

  lemma SmallFront(data: Bytes, rs: seq<Revision>)
    requires rs != [] && Small(data, rs)
    ensures Small(data, rs[..|rs| - 1])
    ensures Embeds(data, rs).Ok? ==> |Embeds(data, rs).value| < 10_000_000_000
    ensures Embeds(data, rs[..|rs| - 1]).Ok? ==> |Embeds(data, rs[..|rs| - 1]).value| < 10_000_000_000
  {
    hide Embeds;
    var n := |rs| - 1;
    forall k | 0 <= k <= n && Embeds(data, rs[..n][..k]).Ok?
      ensures |Embeds(data, rs[..n][..k]).value| < 10_000_000_000
    {
      assert rs[..n][..k] == rs[..k];
    }
    assert rs[..|rs|] == rs;
  }

  /** Any number of embeds after each other: each succeeds, the bytes of every
      earlier file stay in front, and following `/Prev` from the new end visits
      the embeds newest first and then comes out where the original file's
      end led. */
  lemma {:induction false} RevisionsChain(data: Bytes, rs: seq<Revision>)
    requires Startxref(data).Ok? && Small(data, rs)
    ensures Embeds(data, rs).Ok? && data <= Embeds(data, rs).value
    ensures rs != [] ==>
      Embeds(data, rs[..|rs| - 1]).Ok? && Embeds(data, rs[..|rs| - 1]).value <= Embeds(data, rs).value
    ensures Startxref(Embeds(data, rs).value).Ok?
    ensures var d := Embeds(data, rs).value;
      var f := Follow(d, Startxref(d).value, |rs|);
      f.Some? && f.value.1 == Startxref(data).value && Visits(d, f.value.0, rs)
  {
    hide Startxref, ReadSection, Update, ObjectText, Visits, Small, XrefStart, ObjectStart;
    if rs == [] {
      NoVisits(data);
    } else {
      var n := |rs| - 1;
      SmallFront(data, rs);
      RevisionsChain(data, rs[..n]);
      ChainStep(data, rs);
    }
  }

  lemma NoVisits(d: Bytes)
    ensures Visits(d, [], [])
  {
  }

  lemma ChainStep(data: Bytes, rs: seq<Revision>)
    requires rs != [] && Embeds(data, rs[..|rs| - 1]).Ok?
    requires Embeds(data, rs).Ok? ==> |Embeds(data, rs).value| < 10_000_000_000
    requires |Embeds(data, rs[..|rs| - 1]).value| < 10_000_000_000
    requires Startxref(Embeds(data, rs[..|rs| - 1]).value).Ok?
    requires var d := Embeds(data, rs[..|rs| - 1]).value;
      var f := Follow(d, Startxref(d).value, |rs| - 1);
      f.Some? && Visits(d, f.value.0, rs[..|rs| - 1])
    ensures Embeds(data, rs).Ok? && Embeds(data, rs[..|rs| - 1]).value <= Embeds(data, rs).value
    ensures Startxref(Embeds(data, rs).value).Ok?
    ensures var d := Embeds(data, rs[..|rs| - 1]).value;
      var e := Embeds(data, rs).value;
      var f, g := Follow(d, Startxref(d).value, |rs| - 1), Follow(e, Startxref(e).value, |rs|);
      g.Some? && g.value.1 == f.value.1 && Visits(e, g.value.0, rs)
  {
    hide Startxref, ReadSection, Update, ObjectText, Visits, ObjectStart, XrefStart, Follow;
    var d, r := Embeds(data, rs[..|rs| - 1]).value, rs[|rs| - 1];
    UpdateSize(d, r);
    UpdateReads(d, r);
    var e, x := Embeds(data, rs).value, XrefStart(d, r);
    var more, s, off := e[|d|..], ReadSection(e[x..]).value, Startxref(d).value;
    assert e == d + more;
    FollowExtends(d, more, off, |rs| - 1);
    FollowStep(e, x, |rs| - 1);
    LeadsTo(e, s, r);
    VisitsMore(d, more, s, Follow(d, off, |rs| - 1).value.0, rs);
  }

  lemma FollowStep(b: Bytes, off: nat, n: nat)
    requires off <= |b| && ReadSection(b[off..]).Some?
    requires Follow(b, ReadSection(b[off..]).value.prev, n).Some?
    ensures var s := ReadSection(b[off..]).value;
      var more := Follow(b, s.prev, n).value;
      Follow(b, off, n + 1) == Some(([s] + more.0, more.1))
  {
    hide ReadSection;
  }

  lemma UpdateSize(data: Bytes, r: Revision)
    ensures Update(data, r).Ok? <==> Startxref(data).Ok?
    ensures Update(data, r).Ok? ==> ObjectStart(data) <= XrefStart(data, r) <= |Update(data, r).value|
  {
    hide Startxref, ObjectText, EndText, SectionText;
  }
}
