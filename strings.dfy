// Splitting a string at a separator, as strsep does, and joining a
// list of strings with a separator.
module Strings {
  import opened Wire

  /** The elements of `xs` separated by `sep`. */
  function Join(xs: seq<string>, sep: char): string {
    if xs == [] then []
    else if |xs| == 1 then xs[0]
    else xs[0] + [sep] + Join(xs[1..], sep)
  }

  lemma {:induction false} JoinSnoc(xs: seq<string>, x: string, sep: char)
    requires xs != []
    ensures Join(xs + [x], sep) == Join(xs, sep) + [sep] + x
  {
    var ys := xs + [x];
    assert ys[0] == xs[0];
    if |xs| > 1 {
      assert ys[1..] == xs[1..] + [x];
      JoinSnoc(xs[1..], x, sep);
    } else {
      assert ys[1..] == [x];
    }
  }

  /** The elements strsep returns, one after another, for separator `c`:
      the text before each separator, and the text after the last. */
  function Split(s: string, c: char): (r: seq<string>)
    ensures |r| >= 1
  {
    if s == [] then [[]]
    else if s[0] == c then [[]] + Split(s[1..], c)
    else
      var r := Split(s[1..], c);
      [[s[0]] + r[0]] + r[1..]
  }

  /** The first element ends at the first separator `k`; the rest of the
      elements are those of the text after it. */
  lemma {:induction false} SplitAt(s: string, c: char, k: nat)
    requires k <= |s|
    requires forall m :: 0 <= m < k ==> s[m] != c
    requires k < |s| ==> s[k] == c
    ensures Split(s, c) == [s[..k]] + (if k < |s| then Split(s[k + 1..], c) else [])
  {
    if k > 0 {
      SplitAt(s[1..], c, k - 1);
      assert [s[0]] + s[1..][..k - 1] == s[..k];
      if k < |s| {
        assert s[1..][k..] == s[k + 1..];
      }
    } else if s != [] {
      assert s[1..] == s[k + 1..];
    }
  }

  /** The elements of a C string are C strings. */
  lemma {:induction false} SplitCStr(s: CStr, c: char)
    ensures forall t :: t in Split(s, c) ==> IsCStr(t)
  {
    if s != [] {
      SplitCStr(s[1..], c);
      var r := Split(s[1..], c);
      assert IsCStr(r[0]);
      assert forall t :: t in r[1..] ==> t in r;
    }
  }

  /** Joining the elements again with the separator gives the text back. */
  lemma {:induction false} SplitJoin(s: string, c: char)
    ensures Join(Split(s, c), c) == s
  {
    if s != [] {
      SplitJoin(s[1..], c);
      var r := Split(s[1..], c);
      assert s == [s[0]] + s[1..];
      if s[0] == c {
        assert ([[]] + r)[1..] == r;
      } else if |r| == 1 {
        assert [[s[0]] + r[0]] + r[1..] == [[s[0]] + r[0]];
      } else {
        var xs := [[s[0]] + r[0]] + r[1..];
        assert xs[1..] == r[1..];
      }
    }
  }

  /** No element holds a separator. */
  lemma {:induction false} SplitNoSeparator(s: string, c: char)
    ensures forall t :: t in Split(s, c) ==> c !in t
  {
    if s != [] {
      SplitNoSeparator(s[1..], c);
      var r := Split(s[1..], c);
      assert forall t :: t in r[1..] ==> t in r;
    }
  }

  /** strsep over `a + "," + b` yields the elements of `a`, then those of `b`. */
  lemma {:induction false} SplitAppend(a: string, b: string, c: char)
    ensures Split(a + [c] + b, c) == Split(a, c) + Split(b, c)
  {
    var s := a + [c] + b;
    if a == [] {
      assert s[1..] == b;
    } else {
      assert s[1..] == a[1..] + [c] + b;
      SplitAppend(a[1..], b, c);
    }
  }

  /** An empty element sits between two adjacent separators. */
  lemma SplitDoubleSeparator(a: string, b: string, c: char)
    ensures Split(a + [c] + [c] + b, c) == Split(a, c) + [[]] + Split(b, c)
  {
    var tail := [c] + b;
    assert a + [c] + [c] + b == a + [c] + tail;
    SplitAppend(a, tail, c);
    assert tail[1..] == b;
  }

  // ---------------------------------------------------------------
  // Decimal numbers, as printf "%u" and BN_bn2dec write them.

  const DIGITS: string := "0123456789"

  /** "%u": the decimal digits of n, most significant first. */
  function Decimal(n: nat): (r: string)
    ensures |r| >= 1
  {
    if n < 10 then [DIGITS[n]] else Decimal(n / 10) + [DIGITS[n % 10]]
  }

  /** The digit characters back to their value. */
  function DecimalValue(s: string): nat {
    if s == [] then 0
    else
      var c := s[|s| - 1];
      DecimalValue(s[..|s| - 1]) * 10 + (if '0' <= c <= '9' then c as int - '0' as int else 0)
  }

  predicate AllDigits(s: string) {
    forall i :: 0 <= i < |s| ==> '0' <= s[i] <= '9'
  }

  lemma DigitChar(v: nat)
    requires v < 10
    ensures '0' <= DIGITS[v] <= '9' && DIGITS[v] as int - '0' as int == v
  {
  }

  /** Decimal writes digits only, and reading them back gives n. */
  lemma {:induction false} DecimalRoundTrip(n: nat)
    ensures AllDigits(Decimal(n))
    ensures DecimalValue(Decimal(n)) == n
  {
    var s := Decimal(n);
    if n < 10 {
      DigitChar(n);
      assert s[..0] == [];
    } else {
      var p := Decimal(n / 10);
      var c := DIGITS[n % 10];
      DecimalRoundTrip(n / 10);
      DigitChar(n % 10);
      assert s == p + [c];
      assert s[..|s| - 1] == p;
      assert DecimalValue(s) == DecimalValue(p) * 10 + (c as int - '0' as int);
    }
  }

  /** A number below 10^4 takes at most four digits. */
  lemma {:induction false} DecimalWidth(n: nat, w: nat, bound: nat)
    requires bound == Pow10(w) && n < bound && w >= 1
    ensures |Decimal(n)| <= w
  {
    if n >= 10 {
      DecimalWidth(n / 10, w - 1, Pow10(w - 1));
    }
  }

  function Pow10(w: nat): (r: nat)
    ensures r >= 1
  {
    if w == 0 then 1 else 10 * Pow10(w - 1)
  }
}
