/** Go strings and byte slices: both are finite byte sequences here. */
module GoBytes {

  type byte = x: int | 0 <= x < 256

  /** A Go `string` or the contents of a `[]byte`. */
  type Str = seq<byte>

  const NEWLINE: byte := 10
  const DASH: byte := 45
  const COLON: byte := 58

  /** The modulus of 64-bit arithmetic. */
  const TWO_64: int := 0x1_0000_0000_0000_0000

  datatype Option<+T> = None | Some(value: T)

  /** Index of the first `sep` in `s`, or `|s|` when there is none. */
  function Cut(s: Str, sep: byte): (i: nat)
    ensures i <= |s|
    ensures sep !in s[..i]
    ensures i < |s| ==> s[i] == sep
    ensures i == |s| <==> sep !in s
  {
    if s == [] || s[0] == sep then 0 else 1 + Cut(s[1..], sep)
  }

  /** A sequence is cut where its first separator is, and nowhere else. */
  lemma CutIsFirst(s: Str, sep: byte, k: nat)
    requires k < |s| && s[k] == sep && sep !in s[..k]
    ensures Cut(s, sep) == k
  {
    if k > 0 {
      assert s[..k][0] == s[0];
      assert s[1..][..k - 1] == s[..k][1..];
      CutIsFirst(s[1..], sep, k - 1);
    }
  }

  /** strings.Join with a one-byte separator. */
  function Join(parts: seq<Str>, sep: byte): (s: Str)
    requires |parts| > 0
  {
    if |parts| == 1 then parts[0] else parts[0] + [sep] + Join(parts[1..], sep)
  }

  lemma JoinPair(a: Str, b: Str, sep: byte)
    ensures Join([a, b], sep) == a + [sep] + b
  {
    assert [a, b][1..] == [b];
  }

  lemma JoinFirst(part: Str, rest: seq<Str>, sep: byte)
    requires |rest| > 0
    ensures Join([part] + rest, sep) == part + [sep] + Join(rest, sep)
  {
    assert ([part] + rest)[1..] == rest;
  }

  lemma AroundSeparator(s: Str, i: nat)
    requires i < |s|
    ensures s == s[..i] + [s[i]] + s[i + 1..]
  {
  }

  /** strings.Split with a one-byte separator: the separator-free parts that join back to `s`. */
  function Split(s: Str, sep: byte): (parts: seq<Str>)
    ensures |parts| > 0
    ensures forall i :: 0 <= i < |parts| ==> sep !in parts[i]
    ensures Join(parts, sep) == s
    ensures sep in s ==> |parts| >= 2
    ensures parts[0] == s[..Cut(s, sep)]
  {
    var i := Cut(s, sep);
    if i == |s| then
      [s]
    else
      var rest := Split(s[i + 1..], sep);
      JoinFirst(s[..i], rest, sep);
      AroundSeparator(s, i);
      [s[..i]] + rest
  }

  /** What lies before the first dash: all that survives of a value in a reply. */
  function BeforeDash(s: Str): (p: Str)
    ensures p <= s && DASH !in p
    ensures p == s <==> DASH !in s
  {
    s[..Cut(s, DASH)]
  }

  /** `n` copies of one byte (strings.Repeat). */
  function Repeat(b: byte, n: nat): (s: Str)
    ensures |s| == n
    ensures forall i :: 0 <= i < n ==> s[i] == b
  {
    seq(n, _ => b)
  }

  lemma Assoc<T>(a: seq<T>, b: seq<T>, c: seq<T>)
    ensures a + (b + c) == (a + b) + c
  {
  }

  /** Cutting a concatenation inside its second part. */
  lemma CutSecond<T>(a: seq<T>, b: seq<T>, n: nat)
    requires |a| <= n <= |a| + |b|
    ensures (a + b)[..n] == a + b[..n - |a|]
    ensures (a + b)[|a|..n] == b[..n - |a|]
  {
  }
}
