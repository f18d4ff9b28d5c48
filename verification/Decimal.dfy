/** Decimal numbers as bytes, the way `%d` and `%010d` print them. */
module Decimal {
  import opened Common

  predicate IsDigit(b: Byte) {
    0x30 <= b <= 0x39
  }

  function Dec(n: nat): (s: Bytes)
    ensures s != [] && forall i :: 0 <= i < |s| ==> IsDigit(s[i])
  {
    if n < 10 then [(0x30 + n) as Byte] else Dec(n / 10) + [(0x30 + n % 10) as Byte]
  }

  function Zeros(n: nat): (s: Bytes)
    ensures |s| == n && forall i :: 0 <= i < n ==> s[i] == 0x30
  {
    seq(n, i => 0x30)
  }

  /** At least ten digits. */
  function Dec10(n: nat): (s: Bytes)
    ensures |s| >= 10 && forall i :: 0 <= i < |s| ==> IsDigit(s[i])
  {
    if |Dec(n)| < 10 then Zeros(10 - |Dec(n)|) + Dec(n) else Dec(n)
  }

  /** How many digits `b` starts with. */
  function DigitRun(b: Bytes): (n: nat)
    ensures n <= |b|
    ensures forall k :: 0 <= k < n ==> IsDigit(b[k])
    ensures n < |b| ==> !IsDigit(b[n])
  {
    if b == [] || !IsDigit(b[0]) then 0 else 1 + DigitRun(b[1..])
  }

  function Value(ds: Bytes): nat
    requires forall i :: 0 <= i < |ds| ==> IsDigit(ds[i])
  {
    if ds == [] then 0 else assert IsDigit(ds[|ds| - 1]); 10 * Value(ds[..|ds| - 1]) + (ds[|ds| - 1] as int - 0x30)
  }

  lemma {:induction false} ValueDec(n: nat)
    ensures Value(Dec(n)) == n
  {
    if n >= 10 {
      ValueDec(n / 10);
      assert Dec(n)[..|Dec(n)| - 1] == Dec(n / 10);
    } else {
      assert Dec(n)[..0] == [];
    }
  }

  lemma {:induction false} ValueZeros(n: nat, ds: Bytes)
    requires forall i :: 0 <= i < |ds| ==> IsDigit(ds[i])
    ensures forall i :: 0 <= i < |Zeros(n) + ds| ==> IsDigit((Zeros(n) + ds)[i])
    ensures Value(Zeros(n) + ds) == Value(ds)
    decreases n + |ds|
  {
    var s := Zeros(n) + ds;
    if ds != [] {
      ValueZeros(n, ds[..|ds| - 1]);
      assert s[..|s| - 1] == Zeros(n) + ds[..|ds| - 1];
    } else if n > 0 {
      ValueZeros(n - 1, []);
      assert s[..n - 1] == Zeros(n - 1) + [];
    }
  }

  lemma ValueDec10(n: nat)
    ensures Value(Dec10(n)) == n
  {
    ValueDec(n);
    if |Dec(n)| < 10 {
      ValueZeros(10 - |Dec(n)|, Dec(n));
    }
  }

  /** Printed numbers are told apart. */
  lemma DecInjective(m: nat, n: nat)
    ensures Dec(m) == Dec(n) ==> m == n
  {
    ValueDec(m);
    ValueDec(n);
  }

  function Pow10(n: nat): nat {
    if n == 0 then 1 else 10 * Pow10(n - 1)
  }

  lemma {:induction false} DecLength(n: nat, k: nat)
    requires k > 0
    ensures |Dec(n)| <= k <==> n < Pow10(k)
  {
    if k == 1 {
      assert Pow10(1) == 10 * Pow10(0);
    } else if n >= 10 {
      DecLength(n / 10, k - 1);
    } else {
      Pow10Positive(k - 1);
    }
  }

  lemma {:induction false} Pow10Positive(k: nat)
    ensures Pow10(k) >= 1
  {
    if k > 0 {
      Pow10Positive(k - 1);
    }
  }

  /** A number is read back from where it was printed, if no digit follows. */
  lemma {:induction false} DigitRunOf(ds: Bytes, rest: Bytes)
    requires forall i :: 0 <= i < |ds| ==> IsDigit(ds[i])
    requires rest != [] ==> !IsDigit(rest[0])
    ensures DigitRun(ds + rest) == |ds|
  {
    if ds == [] {
      assert ds + rest == rest;
    } else {
      DigitRunOf(ds[1..], rest);
      assert (ds + rest)[1..] == ds[1..] + rest;
    }
  }
}
