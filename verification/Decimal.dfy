/** strconv.Itoa, strconv.FormatUint(_, 10) and strconv.Atoi. */
module Decimal {
  import opened GoBytes

  const ZERO: byte := 48
  const MINUS: byte := 45
  const PLUS: byte := 43
  const MAX_INT64: int := 0x7fff_ffff_ffff_ffff
  const MIN_INT64: int := -0x8000_0000_0000_0000

  predicate IsDigit(b: byte) {
    48 <= b <= 57
  }

  predicate AllDigits(s: Str) {
    forall i :: 0 <= i < |s| ==> IsDigit(s[i])
  }

  /** Shortest decimal form of a natural number. */
  function Itoa(n: nat): (s: Str)
    ensures |s| > 0 && AllDigits(s)
    ensures s[0] == ZERO <==> n == 0
    ensures n == 0 ==> |s| == 1
  {
    if n < 10 then [48 + n] else Itoa(n / 10) + [48 + n % 10]
  }

  /** Positional value of a digit string. */
  function Value(s: Str): (n: nat)
    requires AllDigits(s)
  {
    if s == [] then 0 else 10 * Value(s[..|s| - 1]) + (s[|s| - 1] - 48)
  }

  /** strconv.Atoi: optional sign, at least one digit, nothing else, within 64 bits. */
  function Atoi(s: Str): (r: Option<int>)
    ensures r.Some? ==> MIN_INT64 <= r.value <= MAX_INT64
  {
    var signed := |s| > 0 && (s[0] == MINUS || s[0] == PLUS);
    var digits := if signed then s[1..] else s;
    if digits == [] || !AllDigits(digits) then
      None
    else
      var v: int := if signed && s[0] == MINUS then 0 - Value(digits) else Value(digits);
      if MIN_INT64 <= v <= MAX_INT64 then Some(v) else None
  }

  lemma {:induction false} ValueOfItoa(n: nat)
    ensures Value(Itoa(n)) == n
  {
    if n >= 10 {
      ValueOfItoa(n / 10);
      var s := Itoa(n);
      assert s[..|s| - 1] == Itoa(n / 10);
    }
  }

  /** Printing then parsing gives the number back, as far as 64 bits reach. */
  lemma AtoiOfItoa(n: nat)
    ensures Atoi(Itoa(n)) == if n <= MAX_INT64 then Some(n) else None
  {
    ValueOfItoa(n);
    assert IsDigit(Itoa(n)[0]);
  }

  function Pow10(k: nat): (p: nat)
    ensures p > 0
  {
    if k == 0 then 1 else 10 * Pow10(k - 1)
  }

  lemma DivTwice(n: nat, p: nat)
    requires p > 0
    ensures n / 10 / p == n / (10 * p)
  {
    var q, r := n / 10, n % 10;
    var a, b := q / p, q % p;
    assert n == 10 * p * a + (10 * b + r);
    DivIs(n, 10 * p, a, 10 * b + r);
  }

  lemma DivIs(n: nat, d: nat, a: nat, r: nat)
    requires d > 0 && n == d * a + r && r < d
    ensures n / d == a
  {
    var q, s := n / d, n % d;
    assert d * (q - a) == r - s;
    NoMultipleBetween(d, q - a);
  }

  lemma NoMultipleBetween(d: int, k: int)
    requires d > 0 && 0 - d < d * k < d
    ensures k == 0
  {
    if k > 0 {
      MulAtLeast(d, k);
    } else if k < 0 {
      MulAtMost(d, k);
    }
  }

  lemma MulAtLeast(d: int, k: int)
    requires d > 0 && k > 0
    ensures d * k >= d
  {
  }

  lemma MulAtMost(d: int, k: int)
    requires d > 0 && k < 0
    ensures d * k <= 0 - d
  {
    MulAtLeast(d, 0 - k);
    assert d * (0 - k) == 0 - d * k;
  }

  /** The decimal form, digit by digit: the `k`-th from the right is that of 10^k, most significant first. */
  lemma {:induction false} ItoaDigits(n: nat, k: nat)
    requires k < |Itoa(n)|
    ensures Itoa(n)[|Itoa(n)| - 1 - k] == 48 + n / Pow10(k) % 10
  {
    if k > 0 {
      ItoaDigits(n / 10, k - 1);
      DivTwice(n, Pow10(k - 1));
    }
  }

  /** Signs: "-n" and "+n" parse as one expects, within 64 bits. */
  lemma AtoiSigned(n: nat)
    ensures var minus: int := 0 - n; Atoi([45] + Itoa(n)) == if n <= 0x8000_0000_0000_0000 then Some(minus) else None
    ensures Atoi([43] + Itoa(n)) == if n <= 0x7fff_ffff_ffff_ffff then Some(n) else None
  {
    ValueOfItoa(n);
    AtoiSign(45, Itoa(n));
    AtoiSign(43, Itoa(n));
  }

  lemma AtoiSign(sign: byte, digits: Str)
    requires (sign == 45 || sign == 43) && digits != [] && AllDigits(digits)
    ensures var v: int := if sign == 45 then 0 - Value(digits) else Value(digits);
      Atoi([sign] + digits) == if -0x8000_0000_0000_0000 <= v <= 0x7fff_ffff_ffff_ffff then Some(v) else None
  {
    assert ([sign] + digits)[1..] == digits;
  }

  /** What is no number: anything but one or more digits behind at most one sign. */
  lemma AtoiRejects(s: Str)
    requires Atoi(s).Some?
    ensures |s| > 0 && IsDigit(s[|s| - 1])
    ensures IsDigit(s[0]) || s[0] == 45 || s[0] == 43
    ensures forall i :: 0 < i < |s| ==> 48 <= s[i] <= 57
  {
    if s[0] == MINUS || s[0] == PLUS {
      assert forall i :: 0 < i < |s| ==> s[i] == s[1..][i - 1];
    }
  }

  lemma ItoaInjective(m: nat, n: nat)
    requires Itoa(m) == Itoa(n)
    ensures m == n
  {
    ValueOfItoa(m);
    ValueOfItoa(n);
  }

  /** A digit string prints back unless it has a superfluous leading zero. */
  lemma {:induction false} ItoaOfValue(s: Str)
    requires AllDigits(s) && |s| > 0
    requires s[0] == ZERO ==> |s| == 1
    ensures Itoa(Value(s)) == s
    ensures s[0] != ZERO ==> Value(s) > 0
  {
    var p := s[..|s| - 1];
    if |s| == 1 {
      assert Value(p) == 0;
      assert IsDigit(s[0]);
    } else {
      assert p[0] == s[0];
      ItoaOfValue(p);
      assert IsDigit(s[|s| - 1]);
      var d := s[|s| - 1] - 48;
      assert Value(s) / 10 == Value(p) && Value(s) % 10 == d;
      assert s == p + [s[|s| - 1]];
    }
  }

  /** The keys that are the decimal form of some slot: unsigned, no superfluous zero. */
  predicate Canonical(s: Str) {
    |s| > 0 && AllDigits(s) && (s[0] == ZERO ==> |s| == 1)
  }

  lemma CanonicalIffPrinted(s: Str)
    requires Atoi(s).Some? && Atoi(s).value >= 0
    ensures Canonical(s) <==> s == Itoa(Atoi(s).value)
  {
    if Canonical(s) {
      ItoaOfValue(s);
      assert IsDigit(s[0]);
    }
  }

  /** The decimal keys of the numbers below `n`. */
  function KeysBelow(n: nat): (keys: set<Str>) {
    if n == 0 then {} else KeysBelow(n - 1) + {Itoa(n - 1)}
  }

  lemma {:induction false} InKeysBelow(n: nat, key: Str)
    ensures key in KeysBelow(n) <==> exists i :: 0 <= i < n && key == Itoa(i)
  {
    if n > 0 {
      InKeysBelow(n - 1, key);
      assert key == Itoa(n - 1) ==> exists i :: 0 <= i < n && key == Itoa(i);
    }
  }

  lemma KeysBelowFresh(n: nat)
    ensures Itoa(n) !in KeysBelow(n)
  {
    InKeysBelow(n, Itoa(n));
    if Itoa(n) in KeysBelow(n) {
      var i :| 0 <= i < n && Itoa(n) == Itoa(i);
      ItoaInjective(n, i);
    }
  }
}
