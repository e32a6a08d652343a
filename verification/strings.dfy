/** Text helpers the renderer relies on: Python's string ordering, `str.join`,
    `str(n)` for array sizes, `os.path.split(p)[-1]` and `str.rstrip(chars)`. */
module Strings {

  /* ---------------------------------------------------------------------
     Ordering: Python compares strings character by character, and a proper
     prefix sorts before the longer string.
     --------------------------------------------------------------------- */

  /** `a <= b` in Python's string order. */
  predicate Le(a: string, b: string)
    decreases |a|
  {
    if |a| == 0 then true
    else if |b| == 0 then false
    else if a[0] != b[0] then a[0] < b[0]
    else Le(a[1..], b[1..])
  }

  /** `a < b` in Python's string order. */
  predicate Lt(a: string, b: string) {
    Le(a, b) && a != b
  }

  lemma {:induction false} LeReflexive(a: string)
    ensures Le(a, a)
    decreases |a|
  {
    if |a| > 0 {
      LeReflexive(a[1..]);
    }
  }

  lemma {:induction false} LeAntisymmetric(a: string, b: string)
    requires Le(a, b) && Le(b, a)
    ensures a == b
    decreases |a|
  {
    if |a| > 0 {
      LeAntisymmetric(a[1..], b[1..]);
      assert a == [a[0]] + a[1..];
      assert b == [b[0]] + b[1..];
    }
  }

  lemma {:induction false} LeTransitive(a: string, b: string, c: string)
    requires Le(a, b) && Le(b, c)
    ensures Le(a, c)
    decreases |a|
  {
    if |a| > 0 && a[0] == b[0] && b[0] == c[0] {
      LeTransitive(a[1..], b[1..], c[1..]);
    }
  }

  lemma {:induction false} LeTotal(a: string, b: string)
    ensures Le(a, b) || Le(b, a)
    decreases |a|
  {
    if |a| > 0 && |b| > 0 && a[0] == b[0] {
      LeTotal(a[1..], b[1..]);
    }
  }

  /** Concatenation is associative; stated once so that proofs about text
      assembled piece by piece need not rediscover it. */
  lemma AppendAssoc<T>(a: seq<T>, b: seq<T>, c: seq<T>)
    ensures (a + b) + c == a + (b + c)
  {
  }

  /* ---------------------------------------------------------------------
     Character counts.
     --------------------------------------------------------------------- */

  /** Number of occurrences of `ch` in `s`. */
  function Count(s: string, ch: char): nat
    decreases |s|
  {
    if |s| == 0 then 0
    else (if s[0] == ch then 1 else 0) + Count(s[1..], ch)
  }

  lemma {:induction false} CountConcat(a: string, b: string, ch: char)
    ensures Count(a + b, ch) == Count(a, ch) + Count(b, ch)
    decreases |a|
  {
    if |a| == 0 {
      assert a + b == b;
    } else {
      assert (a + b)[1..] == a[1..] + b;
      CountConcat(a[1..], b, ch);
    }
  }

  lemma {:induction false} CountAbsent(s: string, ch: char)
    requires ch !in s
    ensures Count(s, ch) == 0
    decreases |s|
  {
    if |s| > 0 {
      CountAbsent(s[1..], ch);
    }
  }

  /** A character at some position is counted. */
  lemma {:induction false} CountPositive(s: string, k: nat, ch: char)
    requires k < |s| && s[k] == ch
    ensures Count(s, ch) > 0
    decreases k
  {
    if k > 0 {
      CountPositive(s[1..], k - 1, ch);
    }
  }

  /* ---------------------------------------------------------------------
     `sep.join(parts)`.
     --------------------------------------------------------------------- */

  /** Sum of the lengths of `parts`. */
  function TotalLength(parts: seq<string>): nat
  {
    if |parts| == 0 then 0 else |parts[0]| + TotalLength(parts[1..])
  }

  /** `sep.join(parts)`: the parts in order with exactly one `sep` between
      neighbours and none at either end. */
  function Join(parts: seq<string>, sep: string): (r: string)
    ensures |parts| == 0 ==> r == ""
    ensures |parts| > 0 ==> |r| == TotalLength(parts) + (|parts| - 1) * |sep|
    ensures |parts| > 0 ==> r[..|parts[0]|] == parts[0]
    decreases |parts|
  {
    if |parts| == 0 then ""
    else if |parts| == 1 then parts[0]
    else parts[0] + sep + Join(parts[1..], sep)
  }

  /** Occurrences of `ch` over all of `parts`. */
  function SumCount(parts: seq<string>, ch: char): nat
  {
    if |parts| == 0 then 0 else Count(parts[0], ch) + SumCount(parts[1..], ch)
  }

  /** A join holds the parts' occurrences of `ch` plus one separator's worth
      between each pair of neighbours. */
  lemma {:induction false} JoinCount(parts: seq<string>, sep: string, ch: char)
    requires |parts| > 0
    ensures Count(Join(parts, sep), ch) == SumCount(parts, ch) + (|parts| - 1) * Count(sep, ch)
    decreases |parts|
  {
    if |parts| > 1 {
      JoinCount(parts[1..], sep, ch);
      CountConcat(parts[0], sep, ch);
      CountConcat(parts[0] + sep, Join(parts[1..], sep), ch);
    }
  }

  /** Joining `parts + [last]` puts one separator before `last`. */
  lemma {:induction false} JoinSnoc(parts: seq<string>, last: string, sep: string)
    requires |parts| > 0
    ensures Join(parts + [last], sep) == Join(parts, sep) + sep + last
    decreases |parts|
  {
    if |parts| == 1 {
      assert parts + [last] == [parts[0], last];
    } else {
      assert (parts + [last])[1..] == parts[1..] + [last];
      JoinSnoc(parts[1..], last, sep);
    }
  }

  /* ---------------------------------------------------------------------
     `'%s' % n` for a natural number, and its inverse.
     --------------------------------------------------------------------- */

  predicate IsDigit(ch: char) {
    '0' <= ch <= '9'
  }

  function DigitChar(d: nat): (ch: char)
    requires d < 10
    ensures IsDigit(ch)
  {
    "0123456789"[d]
  }

  function DigitValue(ch: char): nat
    requires IsDigit(ch)
  {
    (ch as int - '0' as int) as nat
  }

  /** Decimal spelling of `n`, most significant digit first. */
  function NatToString(n: nat): (r: string)
    ensures |r| > 0
    ensures forall i | 0 <= i < |r| :: IsDigit(r[i])
    decreases n
  {
    if n < 10 then [DigitChar(n)]
    else NatToString(n / 10) + [DigitChar(n % 10)]
  }

  /** Value of a decimal digit string. */
  function DecimalValue(s: string): nat
    requires forall i | 0 <= i < |s| :: IsDigit(s[i])
    decreases |s|
  {
    if |s| == 0 then 0
    else 10 * DecimalValue(s[..|s| - 1]) + DigitValue(s[|s| - 1])
  }

  /** Reading back a spelled number gives the number. */
  lemma {:induction false} DecimalRoundTrip(n: nat)
    ensures DecimalValue(NatToString(n)) == n
    decreases n
  {
    var s := NatToString(n);
    if n >= 10 {
      assert s[..|s| - 1] == NatToString(n / 10);
      DecimalRoundTrip(n / 10);
    }
  }

  /* ---------------------------------------------------------------------
     Paths.
     --------------------------------------------------------------------- */

  /** POSIX `os.path.split(p)[-1]`: the text after the last `/`. */
  function Basename(p: string): (r: string)
    ensures '/' !in r
    ensures |r| <= |p| && p[|p| - |r|..] == r
    ensures |r| < |p| ==> p[|p| - |r| - 1] == '/'
    decreases |p|
  {
    if |p| == 0 || p[|p| - 1] == '/' then ""
    else Basename(p[..|p| - 1]) + [p[|p| - 1]]
  }

  /** A path without `/` is its own base name. */
  lemma {:induction false} BasenameOfName(f: string)
    requires '/' !in f
    ensures Basename(f) == f
    decreases |f|
  {
    if |f| > 0 {
      assert f[..|f| - 1] + [f[|f| - 1]] == f;
      BasenameOfName(f[..|f| - 1]);
    }
  }

  /** The base name of `dir/f` is `f`, whatever `dir` holds. */
  lemma {:induction false} BasenameAfterSlash(dir: string, f: string)
    requires '/' !in f
    ensures Basename(dir + "/" + f) == f
    decreases |f|
  {
    var p := dir + "/" + f;
    if |f| > 0 {
      assert p[..|p| - 1] == dir + "/" + f[..|f| - 1];
      assert p[|p| - 1] == f[|f| - 1];
      BasenameAfterSlash(dir, f[..|f| - 1]);
      assert f[..|f| - 1] + [f[|f| - 1]] == f;
    } else {
      assert p[|p| - 1] == '/';
    }
  }

  /** `s.rstrip(chars)`: drop the longest suffix made only of characters
      in the SET `chars` (not a suffix string). */
  function RStrip(s: string, chars: set<char>): (r: string)
    ensures |r| <= |s| && s[..|r|] == r
    ensures forall i | |r| <= i < |s| :: s[i] in chars
    ensures |r| > 0 ==> r[|r| - 1] !in chars
    decreases |s|
  {
    if |s| > 0 && s[|s| - 1] in chars then RStrip(s[..|s| - 1], chars)
    else s
  }
}
