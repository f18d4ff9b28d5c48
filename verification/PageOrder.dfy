/** The order of a comic's pages: names compared with embedded numbers. */
module PageOrder {
  import opened Common

  predicate IsDigit(c: char) {
    '0' <= c <= '9'
  }

  /** The digits at the start of `s`. */
  function DigitRun(s: string): (n: nat)
    ensures n <= |s|
    ensures forall k :: 0 <= k < n ==> IsDigit(s[k])
    ensures n < |s| ==> !IsDigit(s[n])
  {
    if s == [] || !IsDigit(s[0]) then 0 else 1 + DigitRun(s[1..])
  }

  /** Where the first digit other than zero is, not counting the last digit. */
  method StripLeadingZeros(s: string) returns (r: string)
    ensures r == Stripped(s)
  {
    var i := 0;
    while i < |s| - 1
      invariant 0 <= i <= |s|
      invariant Stripped(s) == StrippedFrom(s, i)
    {
      if s[i] != '0' {
        return s[i..];
      }
      i := i + 1;
    }
    if |s| > 0 && s[|s| - 1] == '0' && |s| > 1 {
      return "0";
    }
    return s;
  }

  function Stripped(s: string): string {
    StrippedFrom(s, 0)
  }

  function StrippedFrom(s: string, i: nat): string
    decreases |s| - i
  {
    if i < |s| - 1 then if s[i] != '0' then s[i..] else StrippedFrom(s, i + 1)
    else if |s| > 1 && s[|s| - 1] == '0' then "0"
    else s
  }

  /** Byte order on strings. */
  predicate ByteLess(a: string, b: string) {
    if a == [] then b != []
    else if b == [] then false
    else if a[0] != b[0] then a[0] < b[0]
    else ByteLess(a[1..], b[1..])
  }

  /** The comparison of the source, from cursors `i` and `j` on. */
  predicate LessFrom(a: string, b: string, i: nat, j: nat)
    requires i <= |a| && j <= |b|
    decreases |a| - i
  {
    if i == |a| || j == |b| then |a| < |b|
    else if IsDigit(a[i]) && IsDigit(b[j]) then
      var m, n := DigitRun(a[i..]), DigitRun(b[j..]);
      var ar, br := Stripped(a[i..i + m]), Stripped(b[j..j + n]);
      if |ar| != |br| then |ar| < |br|
      else if ar != br then ByteLess(ar, br)
      else LessFrom(a, b, i + m, j + n)
    else if a[i] != b[j] then a[i] < b[j]
    else LessFrom(a, b, i + 1, j + 1)
  }

  predicate NaturalLess(a: string, b: string) {
    LessFrom(a, b, 0, 0)
  }

  method RunEnd(s: string, from: nat) returns (end: nat)
    requires from <= |s|
    ensures end == from + DigitRun(s[from..])
  {
    end := from;
    while end < |s| && IsDigit(s[end])
      invariant from <= end <= |s| && DigitRun(s[from..]) == end - from + DigitRun(s[end..])
    {
      assert s[end..][1..] == s[end + 1..];
      end := end + 1;
    }
  }

  method CompareNatural(a: string, b: string) returns (less: bool)
    ensures less == NaturalLess(a, b)
  {
    hide DigitRun, Stripped, ByteLess;
    var i, j := 0, 0;
    while i < |a| && j < |b|
      invariant 0 <= i <= |a| && 0 <= j <= |b|
      invariant NaturalLess(a, b) == LessFrom(a, b, i, j)
      decreases |a| - i
    {
      var ai, aj := a[i], b[j];
      if IsDigit(ai) && IsDigit(aj) {
        var ie := RunEnd(a, i);
        var je := RunEnd(b, j);
        var ar := StripLeadingZeros(a[i..ie]);
        var br := StripLeadingZeros(b[j..je]);
        if |ar| != |br| {
          return |ar| < |br|;
        }
        if ar != br {
          return ByteLess(ar, br);
        }
        i, j := ie, je;
        continue;
      }
      if ai != aj {
        return ai < aj;
      }
      i, j := i + 1, j + 1;
    }
    return |a| < |b|;
  }

  // ------------------------------------------------------------------
  // Digit runs as numbers
  // ------------------------------------------------------------------

  ghost predicate Digits(s: string) {
    forall k :: 0 <= k < |s| ==> IsDigit(s[k])
  }

  function DigitValue(c: char): int {
    c as int - '0' as int
  }

  ghost function Value(s: string): int {
    if s == [] then 0 else 10 * Value(s[..|s| - 1]) + DigitValue(s[|s| - 1])
  }

  ghost function Pow10(n: nat): int {
    if n == 0 then 1 else 10 * Pow10(n - 1)
  }

  /** No redundant leading zero. */
  ghost predicate Canonical(r: string) {
    Digits(r) && r != [] && (|r| == 1 || r[0] != '0')
  }

  lemma {:induction false} ValueBounds(s: string)
    requires Digits(s)
    ensures 0 <= Value(s) < Pow10(|s|)
    ensures s != [] && s[0] != '0' ==> Pow10(|s| - 1) <= Value(s)
  {
    if s != [] {
      ValueBounds(s[..|s| - 1]);
    }
  }

  lemma {:induction false} Pow10Grows(m: nat, n: nat)
    requires m <= n
    ensures 1 <= Pow10(m) <= Pow10(n)
    decreases n
  {
    if m < n {
      Pow10Grows(m, n - 1);
    } else if m > 0 {
      Pow10Grows(m - 1, m - 1);
    }
  }

  /** On strings of one length, byte order looks at the last byte last. */
  lemma {:induction false} ByteLessLast(a: string, b: string)
    requires |a| == |b| > 0
    ensures var p, q := a[..|a| - 1], b[..|b| - 1];
      ByteLess(a, b) <==> ByteLess(p, q) || (p == q && a[|a| - 1] < b[|b| - 1])
  {
    if |a| > 1 {
      ByteLessLast(a[1..], b[1..]);
      var p, q := a[..|a| - 1], b[..|b| - 1];
      assert a[1..][..|a| - 2] == p[1..] && b[1..][..|b| - 2] == q[1..];
      assert p == q <==> p[0] == q[0] && p[1..] == q[1..];
    }
  }

  lemma {:induction false} SameLengthOrder(a: string, b: string)
    requires Digits(a) && Digits(b) && |a| == |b|
    ensures ByteLess(a, b) <==> Value(a) < Value(b)
    ensures a == b <==> Value(a) == Value(b)
  {
    if a != [] {
      var p, q := a[..|a| - 1], b[..|b| - 1];
      SameLengthOrder(p, q);
      ByteLessLast(a, b);
      assert a == p + [a[|a| - 1]] && b == q + [b[|b| - 1]];
    }
  }

  /** Comparing canonical numerals by length and then bytes is comparing the
      numbers. */
  lemma NumeralOrder(a: string, b: string)
    requires Canonical(a) && Canonical(b)
    ensures (if |a| != |b| then |a| < |b| else ByteLess(a, b)) <==> Value(a) < Value(b)
    ensures a == b <==> Value(a) == Value(b)
  {
    ValueBounds(a);
    ValueBounds(b);
    if |a| < |b| {
      Pow10Grows(|a|, |b| - 1);
    } else if |b| < |a| {
      Pow10Grows(|b|, |a| - 1);
    } else {
      SameLengthOrder(a, b);
    }
  }

  // ------------------------------------------------------------------
  // What stripping does
  // ------------------------------------------------------------------

  /** Zeros and then one other digit: the runs stripping leaves alone. */
  ghost predicate Unstrippable(s: string) {
    |s| > 1 && s[|s| - 1] != '0' && forall k :: 0 <= k < |s| - 1 ==> s[k] == '0'
  }

  lemma {:induction false} DropZero(s: string)
    requires Digits(s) && |s| > 1 && s[0] == '0'
    ensures Value(s) == Value(s[1..])
  {
    assert s[1..][..|s| - 2] == s[..|s| - 1][1..];
    if |s| > 2 {
      DropZero(s[..|s| - 1]);
    } else {
      assert s[..1] == ['0'] && Value(['0']) == 0 by {
        assert ['0'][..0] == [];
      }
    }
  }

  lemma {:induction false} StrippedFromValue(s: string, i: nat)
    requires Digits(s) && i < |s|
    requires forall k :: 0 <= k < i ==> s[k] == '0'
    ensures var r := StrippedFrom(s, i);
      && Digits(r) && r != [] && Value(r) == Value(s)
      && (Canonical(r) <==> !Unstrippable(s))
    decreases |s| - i
  {
    if i < |s| - 1 {
      if s[i] != '0' {
        DropZeros(s, i);
      } else {
        StrippedFromValue(s, i + 1);
      }
    } else if |s| > 1 && s[|s| - 1] == '0' {
      DropZeros(s, i);
      assert s[i..] == "0";
    }
  }

  lemma {:induction false} DropZeros(s: string, i: nat)
    requires Digits(s) && i < |s| && forall k :: 0 <= k < i ==> s[k] == '0'
    ensures Value(s[i..]) == Value(s)
  {
    if i == 0 {
      assert s[0..] == s;
    } else {
      DropZero(s);
      DropZeros(s[1..], i - 1);
      assert s[1..][i - 1..] == s[i..];
    }
  }

  /** Stripping never changes the number, and it reaches the canonical numeral
      exactly when the run is not zeros followed by one other digit: "010"
      becomes "10", and "001" stays as it is. */
  lemma StrippingIsPartial(s: string)
    requires Digits(s) && s != []
    ensures Value(Stripped(s)) == Value(s) && Digits(Stripped(s)) && Stripped(s) != []
    ensures Canonical(Stripped(s)) <==> !Unstrippable(s)
  {
    StrippedFromValue(s, 0);
  }

  // ------------------------------------------------------------------
  // Names as tokens
  // ------------------------------------------------------------------

  datatype Token = Num(run: string) | Ch(c: char)

  ghost function Tokens(s: string): (ts: seq<Token>)
    ensures s == [] <==> ts == []
  {
    if s == [] then []
    else if IsDigit(s[0]) then
      assert DigitRun(s) > 0;
      [Num(s[..DigitRun(s)])] + Tokens(s[DigitRun(s)..])
    else [Ch(s[0])] + Tokens(s[1..])
  }

  /** Where a token sorts: numbers together, where the digits are, by value. */
  ghost function Rank(t: Token): (int, int) {
    match t
    case Num(r) => ('0' as int, Value(r))
    case Ch(c) => (c as int, 0)
  }

  ghost predicate RankLess(p: (int, int), q: (int, int)) {
    p.0 < q.0 || (p.0 == q.0 && p.1 < q.1)
  }

  /** Lexicographic order on tokens, with `tie` when one list is exhausted. */
  ghost predicate Compare(ts: seq<Token>, us: seq<Token>, tie: bool)
  {
    if ts == [] || us == [] then tie
    else if Rank(ts[0]) != Rank(us[0]) then RankLess(Rank(ts[0]), Rank(us[0]))
    else Compare(ts[1..], us[1..], tie)
  }

  ghost predicate TokenLess(ts: seq<Token>, us: seq<Token>) {
    if ts == [] || us == [] then us != []
    else if Rank(ts[0]) != Rank(us[0]) then RankLess(Rank(ts[0]), Rank(us[0]))
    else TokenLess(ts[1..], us[1..])
  }

  /** Every digit run strips to its canonical numeral. */
  ghost predicate Strippable(ts: seq<Token>) {
    forall t :: t in ts && t.Num? ==> Digits(t.run) && t.run != [] && !Unstrippable(t.run)
  }

  /** No digit run has a redundant leading zero. */
  ghost predicate Unpadded(s: string) {
    forall t :: t in Tokens(s) && t.Num? ==> Canonical(t.run)
  }

  ghost predicate Faithful(ts: seq<Token>) {
    forall t :: t in ts ==> if t.Num? then Digits(t.run) && t.run != [] else !IsDigit(t.c)
  }

  lemma {:induction false} TokensFaithful(s: string)
    ensures Faithful(Tokens(s))
  {
    if s != [] {
      if IsDigit(s[0]) {
        assert DigitRun(s) > 0;
        TokensFaithful(s[DigitRun(s)..]);
      } else {
        TokensFaithful(s[1..]);
      }
    }
  }

  /** How many characters the first token takes. */
  ghost function Head(s: string): nat
    requires s != []
  {
    if IsDigit(s[0]) then DigitRun(s) else 1
  }

  lemma TokensUnfold(s: string, i: nat)
    requires i < |s|
    ensures 0 < Head(s[i..]) && i + Head(s[i..]) <= |s|
    ensures Tokens(s[i..])[1..] == Tokens(s[i + Head(s[i..])..])
    ensures Tokens(s[i..])[0] == if IsDigit(s[i]) then Num(s[i..i + Head(s[i..])]) else Ch(s[i])
  {
    var t := s[i..];
    assert IsDigit(t[0]) ==> DigitRun(t) > 0;
    assert t[Head(t)..] == s[i + Head(t)..];
    assert t[..Head(t)] == s[i..i + Head(t)];
  }

  /** Comparing two runs as the source does is comparing their ranks. */
  lemma RunOrder(r: string, q: string)
    requires Digits(r) && Digits(q) && r != [] && q != [] && !Unstrippable(r) && !Unstrippable(q)
    ensures var x, y := Stripped(r), Stripped(q);
      && (x == y <==> Rank(Num(r)) == Rank(Num(q)))
      && (x != y ==> ((if |x| != |y| then |x| < |y| else ByteLess(x, y)) <==> RankLess(Rank(Num(r)), Rank(Num(q)))))
  {
    StrippingIsPartial(r);
    StrippingIsPartial(q);
    NumeralOrder(Stripped(r), Stripped(q));
  }

  /** On all names whose digit runs strip: tokens decide, numbers by value, and
      when one name's tokens begin the other's the shorter name comes first. */
  lemma {:induction false} LessByTokens(a: string, b: string, i: nat, j: nat)
    requires i <= |a| && j <= |b|
    requires Strippable(Tokens(a[i..])) && Strippable(Tokens(b[j..]))
    ensures LessFrom(a, b, i, j) <==> Compare(Tokens(a[i..]), Tokens(b[j..]), |a| < |b|)
    decreases |a| - i
  {
    hide Stripped, Rank, DigitRun, Tokens, LessFrom, Strippable, RankLess;
    if i == |a| || j == |b| {
      Exhausted(a, b, i, j);
    } else {
      TokensUnfold(a, i);
      TokensUnfold(b, j);
      var ts, us := Tokens(a[i..]), Tokens(b[j..]);
      var i', j' := i + Head(a[i..]), j + Head(b[j..]);
      LessFromUnfold(a, b, i, j);
      HeadStrips(ts);
      HeadStrips(us);
      if IsDigit(a[i]) && IsDigit(b[j]) {
        RunOrder(a[i..i'], b[j..j']);
        if Stripped(a[i..i']) == Stripped(b[j..j']) {
          LessByTokens(a, b, i', j');
        }
      } else if a[i] == b[j] {
        LessByTokens(a, b, i', j');
      } else {
        MixedRanks(ts[0], us[0], a[i], b[j]);
      }
    }
  }

  lemma Exhausted(a: string, b: string, i: nat, j: nat)
    requires i <= |a| && j <= |b| && (i == |a| || j == |b|)
    ensures LessFrom(a, b, i, j) <==> Compare(Tokens(a[i..]), Tokens(b[j..]), |a| < |b|)
  {
  }

  lemma HeadStrips(ts: seq<Token>)
    requires Strippable(ts) && ts != []
    ensures Strippable(ts[1..])
    ensures ts[0].Num? ==> Digits(ts[0].run) && ts[0].run != [] && !Unstrippable(ts[0].run)
  {
    assert ts[0] in ts;
  }

  lemma LessFromUnfold(a: string, b: string, i: nat, j: nat)
    requires i < |a| && j < |b|
    requires i + Head(a[i..]) <= |a| && j + Head(b[j..]) <= |b|
    ensures var i', j' := i + Head(a[i..]), j + Head(b[j..]);
      var ar, br := Stripped(a[i..i']), Stripped(b[j..j']);
      LessFrom(a, b, i, j) ==
        if IsDigit(a[i]) && IsDigit(b[j]) then
          if |ar| != |br| then |ar| < |br| else if ar != br then ByteLess(ar, br) else LessFrom(a, b, i', j')
        else if a[i] != b[j] then a[i] < b[j]
        else LessFrom(a, b, i', j')
  {
    hide Stripped, ByteLess;
  }

  lemma MixedRanks(t: Token, u: Token, c: char, d: char)
    requires c != d && !(IsDigit(c) && IsDigit(d))
    requires if IsDigit(c) then t.Num? else t == Ch(c)
    requires if IsDigit(d) then u.Num? else u == Ch(d)
    ensures Rank(t) != Rank(u)
    ensures RankLess(Rank(t), Rank(u)) <==> c < d
  {
  }

  // ------------------------------------------------------------------
  // Unpadded names are totally ordered
  // ------------------------------------------------------------------

  lemma UnpaddedStrips(s: string)
    requires Unpadded(s)
    ensures Strippable(Tokens(s))
  {
  }

  ghost function Spelled(t: Token): string {
    if t.Num? then t.run else [t.c]
  }

  ghost function Flatten(ts: seq<Token>): string {
    if ts == [] then "" else Spelled(ts[0]) + Flatten(ts[1..])
  }

  lemma {:induction false} FlattenTokens(s: string)
    ensures Flatten(Tokens(s)) == s
  {
    if s != [] {
      TokensUnfold(s, 0);
      assert s[0..] == s;
      var n := Head(s);
      FlattenTokens(s[n..]);
      assert Spelled(Tokens(s)[0]) == s[..n];
      assert s == s[..n] + s[n..];
    }
  }

  ghost predicate Plain(ts: seq<Token>) {
    forall t :: t in ts ==> if t.Num? then Canonical(t.run) else !IsDigit(t.c)
  }

  lemma PlainTokens(s: string)
    requires Unpadded(s)
    ensures Plain(Tokens(s))
  {
    TokensFaithful(s);
  }

  lemma RankDetermines(t: Token, u: Token)
    requires if t.Num? then Canonical(t.run) else !IsDigit(t.c)
    requires if u.Num? then Canonical(u.run) else !IsDigit(u.c)
    requires Rank(t) == Rank(u)
    ensures t == u
  {
    if t.Num? && u.Num? {
      NumeralOrder(t.run, u.run);
    }
  }

  /** With `tie` the comparison of lengths, exhaustion is a proper prefix. */
  lemma {:induction false} CompareIsTokenLess(ts: seq<Token>, us: seq<Token>, tie: bool)
    requires Plain(ts) && Plain(us)
    requires ts <= us || us <= ts ==> (tie <==> |ts| < |us|)
    ensures Compare(ts, us, tie) <==> TokenLess(ts, us)
    decreases |ts|
  {
    if ts != [] && us != [] {
      assert ts[0] in ts && us[0] in us;
      if Rank(ts[0]) == Rank(us[0]) {
        RankDetermines(ts[0], us[0]);
        assert ts == [ts[0]] + ts[1..] && us == [us[0]] + us[1..];
        CompareIsTokenLess(ts[1..], us[1..], tie);
      }
    }
  }

  lemma {:induction false} PrefixLengths(ts: seq<Token>, us: seq<Token>)
    requires ts <= us && Plain(us)
    ensures |Flatten(ts)| <= |Flatten(us)| && (|Flatten(ts)| == |Flatten(us)| <==> ts == us)
  {
    if ts == [] {
      if us != [] {
        assert us[0] in us;
      }
    } else {
      assert ts[1..] <= us[1..] && ts[0] == us[0];
      PrefixLengths(ts[1..], us[1..]);
      assert ts == [ts[0]] + ts[1..] && us == [us[0]] + us[1..];
    }
  }

  /** On names without padded numbers the source's comparison is the
      lexicographic order on tokens, with numbers compared by value. */
  lemma NaturalIsTokenOrder(a: string, b: string)
    requires Unpadded(a) && Unpadded(b)
    ensures NaturalLess(a, b) <==> TokenLess(Tokens(a), Tokens(b))
  {
    var ts, us := Tokens(a), Tokens(b);
    UnpaddedStrips(a);
    UnpaddedStrips(b);
    PlainTokens(a);
    PlainTokens(b);
    assert a[0..] == a && b[0..] == b;
    LessByTokens(a, b, 0, 0);
    FlattenTokens(a);
    FlattenTokens(b);
    if ts <= us {
      PrefixLengths(ts, us);
    }
    if us <= ts {
      PrefixLengths(us, ts);
    }
    CompareIsTokenLess(ts, us, |a| < |b|);
  }

  lemma {:induction false} TokenLessTransitive(ts: seq<Token>, us: seq<Token>, vs: seq<Token>)
    requires TokenLess(ts, us) && TokenLess(us, vs)
    ensures TokenLess(ts, vs)
  {
    if ts != [] && us != [] && vs != [] && Rank(ts[0]) == Rank(us[0]) && Rank(us[0]) == Rank(vs[0]) {
      TokenLessTransitive(ts[1..], us[1..], vs[1..]);
    }
  }

  lemma {:induction false} TokenLessConnects(ts: seq<Token>, us: seq<Token>)
    requires Plain(ts) && Plain(us)
    ensures TokenLess(ts, us) || ts == us || TokenLess(us, ts)
    ensures !(TokenLess(ts, us) && TokenLess(us, ts))
    ensures ts == us ==> !TokenLess(ts, us)
  {
    if ts != [] && us != [] {
      assert ts[0] in ts && us[0] in us;
      if Rank(ts[0]) == Rank(us[0]) {
        RankDetermines(ts[0], us[0]);
        assert ts == [ts[0]] + ts[1..] && us == [us[0]] + us[1..];
        TokenLessConnects(ts[1..], us[1..]);
      }
    }
  }

  /** On names without padded numbers the comparison is a strict total order. */
  lemma NaturalIsTotal(a: string, b: string, c: string)
    requires Unpadded(a) && Unpadded(b) && Unpadded(c)
    ensures !NaturalLess(a, a)
    ensures NaturalLess(a, b) && NaturalLess(b, c) ==> NaturalLess(a, c)
    ensures a != b ==> NaturalLess(a, b) || NaturalLess(b, a)
  {
    NaturalIsTokenOrder(a, a);
    NaturalIsTokenOrder(a, b);
    NaturalIsTokenOrder(b, a);
    NaturalIsTokenOrder(b, c);
    NaturalIsTokenOrder(a, c);
    PlainTokens(a);
    PlainTokens(b);
    TokenLessConnects(Tokens(a), Tokens(a));
    TokenLessConnects(Tokens(a), Tokens(b));
    FlattenTokens(a);
    FlattenTokens(b);
    if NaturalLess(a, b) && NaturalLess(b, c) {
      TokenLessTransitive(Tokens(a), Tokens(b), Tokens(c));
    }
  }

  // ------------------------------------------------------------------
  // Padded names
  // ------------------------------------------------------------------

  /** The source's comparison of two runs. */
  ghost predicate RunLess(r: string, q: string) {
    var x, y := Stripped(r), Stripped(q);
    if |x| != |y| then |x| < |y| else ByteLess(x, y)
  }

  /** What stripping leaves alone is one digit's worth, however long it is. */
  lemma UnstrippableShape(s: string)
    requires Digits(s) && Unstrippable(s)
    ensures Stripped(s) == s && 1 <= Value(s) <= 9
  {
    StripsNothing(s, 0);
    DropZeros(s, |s| - 1);
    var d := s[|s| - 1..];
    assert d[..0] == [] && Value(d) == 10 * Value(d[..0]) + DigitValue(d[0]);
  }

  lemma {:induction false} StripsNothing(s: string, i: nat)
    requires Unstrippable(s) && i < |s|
    ensures StrippedFrom(s, i) == s
    decreases |s| - i
  {
    if i < |s| - 1 {
      StripsNothing(s, i + 1);
    }
  }

  lemma ShortNumeral(s: string)
    requires Canonical(s) && Value(s) <= 9
    ensures |s| == 1
  {
    ValueBounds(s);
    if |s| > 1 {
      Pow10Grows(1, |s| - 1);
    }
  }

  /** A run of zeros and one digit that sorts behind a larger number. */
  ghost predicate Overtaken(r: string, q: string) {
    Unstrippable(r) && |r| > |Stripped(q)| && Value(r) < Value(q)
  }

  /** One that sorts behind its own number written shorter. */
  ghost predicate Doubled(r: string, q: string) {
    Unstrippable(r) && |r| > |Stripped(q)| && Value(r) == Value(q)
  }

  /** Padded or not, two runs are compared as numbers unless one that stripping
      leaves alone is longer than what is left of a number that is not smaller. */
  lemma RunsAgreeWhen(r: string, q: string)
    requires Digits(r) && Digits(q) && r != [] && q != []
    ensures (RunLess(r, q) <==> Value(r) < Value(q)) <==> !Overtaken(r, q) && !Overtaken(q, r) && !Doubled(q, r)
    ensures Stripped(r) != Stripped(q) && Value(r) == Value(q) ==> |Stripped(r)| != |Stripped(q)|
  {
    hide Stripped, Value, ByteLess;
    StrippingIsPartial(r);
    StrippingIsPartial(q);
    var x, y := Stripped(r), Stripped(q);
    if Unstrippable(r) {
      UnstrippableShape(r);
    }
    if Unstrippable(q) {
      UnstrippableShape(q);
    }
    if |x| == |y| {
      SameLengthOrder(x, y);
    } else if !Unstrippable(r) && !Unstrippable(q) {
      NumeralOrder(x, y);
    } else if !Unstrippable(r) && Value(r) <= 9 {
      ShortNumeral(x);
    } else if !Unstrippable(q) && Value(q) <= 9 {
      ShortNumeral(y);
    }
  }

  /** What the source cannot tell apart. */
  ghost predicate Same(t: Token, u: Token) {
    if t.Num? && u.Num? then Stripped(t.run) == Stripped(u.run) else t == u
  }

  ghost predicate SourceLess(t: Token, u: Token) {
    if t.Num? && u.Num? then RunLess(t.run, u.run) else RankLess(Rank(t), Rank(u))
  }

  ghost predicate SourceCompare(ts: seq<Token>, us: seq<Token>, tie: bool) {
    if ts == [] || us == [] then tie
    else if !Same(ts[0], us[0]) then SourceLess(ts[0], us[0])
    else SourceCompare(ts[1..], us[1..], tie)
  }

  /** How many tokens the source passes over. */
  ghost function Split(ts: seq<Token>, us: seq<Token>): (k: nat)
    ensures k <= |ts| && k <= |us|
  {
    if ts == [] || us == [] || !Same(ts[0], us[0]) then 0 else 1 + Split(ts[1..], us[1..])
  }

  /** The source's comparison, token by token, on all names. */
  lemma {:induction false} SourceByTokens(a: string, b: string, i: nat, j: nat)
    requires i <= |a| && j <= |b|
    ensures LessFrom(a, b, i, j) <==> SourceCompare(Tokens(a[i..]), Tokens(b[j..]), |a| < |b|)
    decreases |a| - i
  {
    hide Stripped, Rank, DigitRun, Tokens, LessFrom, RankLess, ByteLess;
    if i == |a| || j == |b| {
      SourceExhausted(a, b, i, j);
    } else {
      TokensUnfold(a, i);
      TokensUnfold(b, j);
      var ts, us := Tokens(a[i..]), Tokens(b[j..]);
      var i', j' := i + Head(a[i..]), j + Head(b[j..]);
      LessFromUnfold(a, b, i, j);
      if IsDigit(a[i]) && IsDigit(b[j]) {
        if Stripped(a[i..i']) == Stripped(b[j..j']) {
          SourceByTokens(a, b, i', j');
        }
      } else if a[i] == b[j] {
        SourceByTokens(a, b, i', j');
      } else {
        MixedRanks(ts[0], us[0], a[i], b[j]);
      }
    }
  }

  lemma SourceExhausted(a: string, b: string, i: nat, j: nat)
    requires i <= |a| && j <= |b| && (i == |a| || j == |b|)
    ensures LessFrom(a, b, i, j) <==> SourceCompare(Tokens(a[i..]), Tokens(b[j..]), |a| < |b|)
  {
  }

  /** Where the source first tells two names apart it is right: neither run is
      overtaken, and a number written with zeros stands behind its shorter
      spelling only if the rest of the name does too. That last part recurses: of
      two spellings of one number it asks for the order of the tokens behind
      them. When nothing tells the names apart, their lengths have to be ordered
      as their numbers of tokens are. */
  ghost predicate RightAtSplit(ts: seq<Token>, us: seq<Token>, tie: bool) {
    var k := Split(ts, us);
    if k == |ts| || k == |us| then tie <==> |ts| < |us|
    else if !(ts[k].Num? && us[k].Num?) then true
    else if Value(ts[k].run) != Value(us[k].run) then
      !Overtaken(ts[k].run, us[k].run) && !Overtaken(us[k].run, ts[k].run)
    else |Stripped(ts[k].run)| < |Stripped(us[k].run)| <==> TokenLess(ts[k + 1..], us[k + 1..])
  }

  lemma SameRanks(t: Token, u: Token)
    requires Faithful([t]) && Faithful([u]) && Same(t, u)
    ensures Rank(t) == Rank(u)
  {
    assert t in [t] && u in [u];
    if t.Num? && u.Num? {
      StrippingIsPartial(t.run);
      StrippingIsPartial(u.run);
    }
  }

  lemma FaithfulHead(ts: seq<Token>)
    requires Faithful(ts) && ts != []
    ensures Faithful(ts[1..]) && Faithful([ts[0]])
  {
    assert ts[0] in ts;
  }

  lemma ToldApart(t: Token, u: Token, ts: seq<Token>, us: seq<Token>)
    requires Faithful([t]) && Faithful([u]) && !Same(t, u)
    ensures TokenLess([t] + ts, [u] + us) <==>
      if Rank(t) != Rank(u) then RankLess(Rank(t), Rank(u)) else TokenLess(ts, us)
    ensures !(t.Num? && u.Num?) ==> Rank(t) != Rank(u)
  {
    assert t in [t] && u in [u];
    assert ([t] + ts)[1..] == ts && ([u] + us)[1..] == us;
  }

  lemma {:induction false} SourceIsRightWhen(ts: seq<Token>, us: seq<Token>, tie: bool)
    requires Faithful(ts) && Faithful(us)
    ensures (SourceCompare(ts, us, tie) <==> TokenLess(ts, us)) <==> RightAtSplit(ts, us, tie)
    decreases |ts|
  {
    hide Stripped, Value, ByteLess, Same, RankLess, Overtaken, Doubled;
    if ts != [] && us != [] {
      FaithfulHead(ts);
      FaithfulHead(us);
      var t, u := ts[0], us[0];
      if Same(t, u) {
        SameRanks(t, u);
        SourceIsRightWhen(ts[1..], us[1..], tie);
        SplitStep(ts, us);
      } else {
        assert ts == [t] + ts[1..] && us == [u] + us[1..];
        ToldApart(t, u, ts[1..], us[1..]);
        RunsToldApart(t, u);
      }
    }
  }

  lemma SplitStep(ts: seq<Token>, us: seq<Token>)
    requires ts != [] && us != [] && Same(ts[0], us[0])
    ensures forall tie :: RightAtSplit(ts, us, tie) <==> RightAtSplit(ts[1..], us[1..], tie)
  {
    hide Stripped, Value, Same, TokenLess, Overtaken;
    var k := Split(ts[1..], us[1..]);
    if k < |ts| - 1 && k < |us| - 1 {
      assert ts[1..][k] == ts[k + 1] && us[1..][k] == us[k + 1];
      assert ts[1..][k + 1..] == ts[k + 2..] && us[1..][k + 1..] == us[k + 2..];
    }
  }

  lemma RunsToldApart(t: Token, u: Token)
    requires Faithful([t]) && Faithful([u]) && !Same(t, u)
    ensures t.Num? && u.Num? && Value(t.run) != Value(u.run) ==>
      ((SourceLess(t, u) <==> RankLess(Rank(t), Rank(u))) <==> !Overtaken(t.run, u.run) && !Overtaken(u.run, t.run))
    ensures t.Num? && u.Num? && Value(t.run) == Value(u.run) ==>
      (SourceLess(t, u) <==> |Stripped(t.run)| < |Stripped(u.run)|)
  {
    hide Stripped, Value, ByteLess;
    assert t in [t] && u in [u];
    if t.Num? && u.Num? {
      RunsAgreeWhen(t.run, u.run);
    }
  }

  /** On all names, the exact pairs on which the comparison agrees with the
      order of their tokens, numbers by value. */
  lemma PaddingMatters(a: string, b: string)
    ensures (NaturalLess(a, b) <==> TokenLess(Tokens(a), Tokens(b))) <==> RightAtSplit(Tokens(a), Tokens(b), |a| < |b|)
  {
    hide RightAtSplit, TokenLess, SourceCompare, Tokens;
    assert a[0..] == a && b[0..] == b;
    SourceByTokens(a, b, 0, 0);
    TokensFaithful(a);
    TokensFaithful(b);
    SourceIsRightWhen(Tokens(a), Tokens(b), |a| < |b|);
  }

  /** Numbers padded to different widths close a cycle, so no page order is
      right for these three names. */
  lemma PaddingMakesCycles()
    ensures NaturalLess("10b", "0010") && NaturalLess("0010", "10aaa") && NaturalLess("10aaa", "10b")
  {
    TenIsTen("10b", 2);
    TenIsTen("0010", 4);
    TenIsTen("10aaa", 2);
    assert "10aaa"[2] == 'a' && "10b"[2] == 'b';
  }

  lemma TenIsTen(s: string, n: nat)
    requires 2 <= n <= |s| && Digits(s[..n]) && (n < |s| ==> !IsDigit(s[n]))
    requires s[n - 2] == '1' && s[n - 1] == '0' && forall k :: 0 <= k < n - 2 ==> s[k] == '0'
    ensures s[0..] == s && DigitRun(s) == n && IsDigit(s[0]) && Stripped(s[0..n]) == "10"
  {
    assert s[0..] == s;
    forall k | 0 <= k < n ensures IsDigit(s[k]) {
      assert s[..n][k] == s[k];
    }
    StripsTo(s[0..n], 0, n - 2);
    assert s[0..n][n - 2..] == "10";
  }

  lemma {:induction false} StripsTo(s: string, i: nat, k: nat)
    requires i <= k < |s| - 1 && s[k] != '0' && forall j :: i <= j < k ==> s[j] == '0'
    ensures StrippedFrom(s, i) == s[k..]
    decreases k - i
  {
    if i < k {
      StripsTo(s, i + 1, k);
    }
  }

  /** Page 10 comes before page 1 when both are padded to three digits. */
  lemma PaddedPagesSwap()
    ensures NaturalLess("010", "001") && Value("001") < Value("010")
  {
    assert "010"[0..] == "010" && "001"[0..] == "001" && "010"[0..3] == "010" && "001"[0..3] == "001";
    assert DigitRun("010") == 3 && DigitRun("001") == 3;
    StripsTo("010", 0, 1);
    assert "010"[1..] == "10";
    assert StrippedFrom("001", 2) == "001";
    assert StrippedFrom("001", 1) == "001" && Stripped("001") == "001";
    assert "001"[..2] == "00" && "00"[..1] == "0" && "0"[..0] == "";
    assert "010"[..2] == "01" && "01"[..1] == "0";
    assert Value("") == 0 && Value("0") == 0 && Value("00") == 0 && Value("01") == 1;
    assert Value("001") == 1 && Value("010") == 10;
  }

  // ------------------------------------------------------------------
  // All names
  // ------------------------------------------------------------------

  lemma {:induction false} ByteLessAsymmetric(a: string, b: string)
    requires |a| == |b|
    ensures !(ByteLess(a, b) && ByteLess(b, a))
    ensures a == b ==> !ByteLess(a, b)
  {
    if a != [] && a[0] == b[0] {
      ByteLessAsymmetric(a[1..], b[1..]);
    }
  }

  lemma {:induction false} LessFromAsymmetric(a: string, b: string, i: nat, j: nat)
    requires i <= |a| && j <= |b|
    ensures !(LessFrom(a, b, i, j) && LessFrom(b, a, j, i))
    decreases |a| - i
  {
    hide Stripped, ByteLess, DigitRun;
    if i < |a| && j < |b| {
      RunsAreNotEmpty(a, i);
      RunsAreNotEmpty(b, j);
      if IsDigit(a[i]) && IsDigit(b[j]) {
        var m, n := DigitRun(a[i..]), DigitRun(b[j..]);
        var ar, br := Stripped(a[i..i + m]), Stripped(b[j..j + n]);
        if |ar| == |br| {
          ByteLessAsymmetric(ar, br);
          LessFromAsymmetric(a, b, i + m, j + n);
        }
      } else if a[i] == b[j] {
        LessFromAsymmetric(a, b, i + 1, j + 1);
      }
    }
  }

  lemma RunsAreNotEmpty(s: string, i: nat)
    requires i < |s|
    ensures IsDigit(s[i]) ==> 0 < DigitRun(s[i..]) && i + DigitRun(s[i..]) <= |s|
  {
    assert s[i..][0] == s[i];
  }

  /** Whatever the names, no two each come before the other. */
  lemma NaturalIsAsymmetric(a: string, b: string)
    ensures !(NaturalLess(a, b) && NaturalLess(b, a))
    ensures !NaturalLess(a, a)
  {
    LessFromAsymmetric(a, b, 0, 0);
    LessFromAsymmetric(a, a, 0, 0);
  }

  // ------------------------------------------------------------------
  // The page order
  // ------------------------------------------------------------------

  function LowerChar(c: char): char {
    if 'A' <= c <= 'Z' then (c as int + 32) as char else c
  }

  function ToLower(s: string): (r: string)
    ensures |r| == |s|
    ensures forall i :: 0 <= i < |s| ==> r[i] == LowerChar(s[i])
  {
    if s == [] then [] else [LowerChar(s[0])] + ToLower(s[1..])
  }

  /** From the last dot of the last path element on; empty when it has none. */
  function Ext(name: string): string {
    ExtFrom(name, |name|)
  }

  function ExtFrom(name: string, i: nat): string
    requires i <= |name|
  {
    if i == 0 || name[i - 1] == '/' then ""
    else if name[i - 1] == '.' then name[i - 1..]
    else ExtFrom(name, i - 1)
  }

  predicate IsImageExt(ext: string) {
    ToLower(ext) in {".jpg", ".jpeg", ".png", ".webp", ".gif"}
  }

  /** The name ends in `ending`, in any case. */
  ghost predicate EndsIn(name: string, ending: string) {
    |ending| <= |name| && ToLower(name[|name| - |ending|..]) == ending
  }

  /** A dot, and behind it neither a dot nor a slash. */
  ghost predicate Ending(e: string) {
    e != "" && e[0] == '.' && forall i :: 0 < i < |e| ==> e[i] != '.' && e[i] != '/'
  }

  lemma {:induction false} ExtIsEnding(name: string, ending: string, i: nat)
    requires Ending(ending) && EndsIn(name, ending) && |name| - |ending| < i <= |name|
    ensures ExtFrom(name, i) == name[|name| - |ending|..]
    decreases i
  {
    var k, tail := |name| - |ending|, name[|name| - |ending|..];
    assert tail[i - 1 - k] == name[i - 1];
    assert ending[i - 1 - k] == LowerChar(tail[i - 1 - k]);
    if i - 1 > k {
      ExtIsEnding(name, ending, i - 1);
    }
  }

  lemma {:induction false} ExtIsTail(name: string, i: nat)
    requires i <= |name|
    ensures ExtFrom(name, i) == "" || exists k :: 0 <= k < |name| && ExtFrom(name, i) == name[k..]
  {
    if i > 0 && name[i - 1] != '/' && name[i - 1] != '.' {
      ExtIsTail(name, i - 1);
    }
  }

  /** A name is a page's exactly when it ends in one of the five endings. */
  lemma ImageNameWhen(name: string)
    ensures IsImageExt(Ext(name)) <==>
      EndsIn(name, ".jpg") || EndsIn(name, ".jpeg") || EndsIn(name, ".png") || EndsIn(name, ".webp") || EndsIn(name, ".gif")
  {
    hide EndsIn, Ending;
    EndingsEnd();
    EndingWhen(name, ".jpg");
    EndingWhen(name, ".jpeg");
    EndingWhen(name, ".png");
    EndingWhen(name, ".webp");
    EndingWhen(name, ".gif");
  }

  lemma EndingsEnd()
    ensures Ending(".jpg") && Ending(".jpeg") && Ending(".png") && Ending(".webp") && Ending(".gif")
  {
  }

  lemma EndingWhen(name: string, ending: string)
    requires Ending(ending)
    ensures EndsIn(name, ending) <==> ToLower(Ext(name)) == ending
  {
    ExtIsTail(name, |name|);
    if EndsIn(name, ending) {
      ExtIsEnding(name, ending, |name|);
    } else if Ext(name) != "" {
      var k :| 0 <= k < |name| && Ext(name) == name[k..];
      assert |ToLower(name[k..])| == |name| - k;
    }
  }

  function Images(names: seq<string>): (r: seq<string>)
    ensures forall n :: n in r <==> n in names && IsImageExt(Ext(n))
  {
    if names == [] then []
    else (if IsImageExt(Ext(names[0])) then [names[0]] else []) + Images(names[1..])
  }

  method CollectImages(names: seq<string>) returns (pages: seq<string>)
    ensures pages == Images(names)
  {
    pages := [];
    var i := 0;
    assert names[i..] == names;
    while i < |names|
      invariant 0 <= i <= |names|
      invariant pages + Images(names[i..]) == Images(names)
    {
      assert names[i..][1..] == names[i + 1..];
      if IsImageExt(Ext(names[i])) {
        pages := pages + [names[i]];
      }
      i := i + 1;
    }
  }

  /** What sorting with the comparison promises: the same names, and none
      before one that is less. */
  ghost predicate PageOrder(pages: seq<string>, names: seq<string>) {
    multiset(pages) == multiset(Images(names)) && Sorted(pages)
  }

  ghost predicate Sorted(pages: seq<string>) {
    forall i, j :: 0 <= i < j < |pages| ==> !NaturalLess(pages[j], pages[i])
  }

  ghost predicate AllUnpadded(names: seq<string>) {
    forall n :: n in names ==> Unpadded(n)
  }

  lemma FirstOfSorted(p: seq<string>, q: seq<string>)
    requires p != [] && q != [] && multiset(p) == multiset(q)
    requires Sorted(p) && Sorted(q) && AllUnpadded(p)
    ensures p[0] == q[0]
  {
    assert p[0] in multiset(p) && q[0] in multiset(q);
    assert p[0] in q && q[0] in p;
    var i :| 0 <= i < |q| && q[i] == p[0];
    var j :| 0 <= j < |p| && p[j] == q[0];
    NaturalIsTotal(p[0], q[0], p[0]);
  }

  lemma {:induction false} SortedIsUnique(p: seq<string>, q: seq<string>)
    requires multiset(p) == multiset(q)
    requires Sorted(p) && Sorted(q) && AllUnpadded(p)
    ensures p == q
    decreases |p|
  {
    assert |multiset(p)| == |p| && |multiset(q)| == |q|;
    if p != [] {
      FirstOfSorted(p, q);
      assert p == [p[0]] + p[1..] && q == [q[0]] + q[1..];
      assert multiset(p[1..]) == multiset(p) - multiset{p[0]};
      assert multiset(q[1..]) == multiset(q) - multiset{q[0]};
      SortedIsUnique(p[1..], q[1..]);
    }
  }

  lemma {:induction false} ImagesCount(names: seq<string>, n: string)
    ensures multiset(Images(names))[n] == if IsImageExt(Ext(n)) then multiset(names)[n] else 0
  {
    if names != [] {
      ImagesCount(names[1..], n);
      assert names == [names[0]] + names[1..];
    }
  }

  ghost function Placed(p: string, pages: seq<string>): seq<string> {
    if pages == [] then [p]
    else if NaturalLess(pages[0], p) then [pages[0]] + Placed(p, pages[1..])
    else [p] + pages
  }

  ghost function Arranged(pages: seq<string>): seq<string> {
    if pages == [] then [] else Placed(pages[0], Arranged(pages[1..]))
  }

  lemma {:induction false} PlacedIsSorted(p: string, pages: seq<string>)
    requires Sorted(pages) && AllUnpadded(pages) && Unpadded(p)
    ensures multiset(Placed(p, pages)) == multiset{p} + multiset(pages)
    ensures Sorted(Placed(p, pages)) && AllUnpadded(Placed(p, pages))
  {
    hide NaturalLess, Unpadded;
    var r := Placed(p, pages);
    if pages != [] {
      assert pages == [pages[0]] + pages[1..] && pages[0] in pages;
      if NaturalLess(pages[0], p) {
        PlacedIsSorted(p, pages[1..]);
        forall j | 0 < j < |r| ensures !NaturalLess(r[j], r[0]) {
          assert r[j] in multiset(Placed(p, pages[1..]));
          assert r[j] == p || r[j] in pages[1..];
          NaturalIsAsymmetric(pages[0], p);
        }
      } else {
        forall j | 0 < j < |r| ensures !NaturalLess(r[j], r[0]) {
          NaturalIsTotal(r[j], p, pages[0]);
          NaturalIsTotal(p, pages[0], p);
          NaturalIsTotal(r[j], pages[0], p);
        }
      }
    }
  }

  lemma {:induction false} ArrangedIsSorted(pages: seq<string>)
    requires AllUnpadded(pages)
    ensures multiset(Arranged(pages)) == multiset(pages) && Sorted(Arranged(pages)) && AllUnpadded(Arranged(pages))
  {
    if pages != [] {
      assert pages == [pages[0]] + pages[1..];
      ArrangedIsSorted(pages[1..]);
      PlacedIsSorted(pages[0], Arranged(pages[1..]));
    }
  }

  /** Without padded numbers a comic has exactly one page order. It depends on
      which names the archive holds and how often, not on where it holds them or
      on how the sort treats ties. */
  lemma PageOrderIsUnique(names: seq<string>, more: seq<string>, p: seq<string>)
    requires AllUnpadded(Images(names)) && multiset(names) == multiset(more)
    ensures PageOrder(p, more) <==> p == Arranged(Images(names))
  {
    forall n ensures multiset(Images(names))[n] == multiset(Images(more))[n] {
      ImagesCount(names, n);
      ImagesCount(more, n);
    }
    assert multiset(Images(names)) == multiset(Images(more));
    ArrangedIsSorted(Images(names));
    if PageOrder(p, more) {
      SortedIsUnique(Arranged(Images(names)), p);
    }
  }
}
