/**
 * Shared vocabulary: optional values and results (the source's nulls and
 * exceptions), decimal digit strings, Java string helpers the core relies on
 * (startsWith, split on one character, lastIndexOf, equalsIgnoreCase), and
 * order-preserving filtering of stored rows.
 */
module Common {

  datatype Option<+T> = None | Some(value: T)

  datatype Result<+T, +E> = Ok(value: T) | Err(error: E)

  // ---------------------------------------------------------------------------
  // Decimal digits
  // ---------------------------------------------------------------------------

  predicate IsDigit(c: char) {
    '0' <= c <= '9'
  }

  predicate AllDigits(s: string) {
    forall i :: 0 <= i < |s| ==> IsDigit(s[i])
  }

  function DigitChar(d: nat): (c: char)
    requires d < 10
    ensures IsDigit(c)
  {
    ('0' as int + d) as char
  }

  function DigitValue(c: char): (d: nat)
    requires IsDigit(c)
    ensures d < 10
  {
    c as int - '0' as int
  }

  function Pow10(k: nat): (p: nat)
    ensures p >= 1
  {
    if k == 0 then 1 else 10 * Pow10(k - 1)
  }

  /** The decimal notation of `n`, without leading zeros (Java's Long.toString). */
  function FormatNat(n: nat): (s: string)
    ensures 1 <= |s| && AllDigits(s)
    decreases n
  {
    if n < 10 then [DigitChar(n)] else FormatNat(n / 10) + [DigitChar(n % 10)]
  }

  /** The value of a string of decimal digits (leading zeros allowed). */
  function DigitsValue(s: string): nat
    requires AllDigits(s)
    decreases |s|
  {
    if |s| == 0 then 0 else DigitsValue(s[..|s| - 1]) * 10 + DigitValue(s[|s| - 1])
  }

  lemma {:induction false} DigitsValueOfFormat(n: nat)
    ensures DigitsValue(FormatNat(n)) == n
    decreases n
  {
    var s := FormatNat(n);
    if n >= 10 {
      DigitsValueOfFormat(n / 10);
      assert s[..|s| - 1] == FormatNat(n / 10);
    }
  }

  /** Distinct numbers have distinct decimal notations. */
  lemma FormatNatInjective(m: nat, n: nat)
    requires FormatNat(m) == FormatNat(n)
    ensures m == n
  {
    DigitsValueOfFormat(m);
    DigitsValueOfFormat(n);
  }

  lemma {:induction false} FormatNatLength(n: nat, k: nat)
    requires 1 <= k && n < Pow10(k)
    ensures |FormatNat(n)| <= k
    decreases k
  {
    if n >= 10 {
      assert k >= 2;
      FormatNatLength(n / 10, k - 1);
    }
  }

  function Zeros(k: nat): (s: string)
    ensures |s| == k && AllDigits(s)
    ensures forall i :: 0 <= i < k ==> s[i] == '0'
  {
    if k == 0 then [] else Zeros(k - 1) + ['0']
  }

  lemma {:induction false} DigitsValueAfterZeros(z: string, s: string)
    requires AllDigits(z) && AllDigits(s)
    requires forall i :: 0 <= i < |z| ==> z[i] == '0'
    ensures AllDigits(z + s) && DigitsValue(z + s) == DigitsValue(s)
    decreases |s|
  {
    var t := z + s;
    assert AllDigits(t);
    if |s| == 0 {
      assert t == z;
      ZerosValue(z);
    } else {
      assert t[..|t| - 1] == z + s[..|s| - 1];
      DigitsValueAfterZeros(z, s[..|s| - 1]);
    }
  }

  lemma {:induction false} ZerosValue(z: string)
    requires AllDigits(z)
    requires forall i :: 0 <= i < |z| ==> z[i] == '0'
    ensures DigitsValue(z) == 0
    decreases |z|
  {
    if |z| > 0 {
      ZerosValue(z[..|z| - 1]);
    }
  }

  /** Java's String.format("%0<width>d", n) for a non-negative n. */
  function ZeroPadded(n: nat, width: nat): (s: string)
    ensures AllDigits(s) && |s| == if |FormatNat(n)| < width then width else |FormatNat(n)|
  {
    var digits := FormatNat(n);
    if |digits| < width then Zeros(width - |digits|) + digits else digits
  }

  lemma ZeroPaddedValue(n: nat, width: nat)
    ensures DigitsValue(ZeroPadded(n, width)) == n
  {
    var digits := FormatNat(n);
    DigitsValueOfFormat(n);
    if |digits| < width {
      DigitsValueAfterZeros(Zeros(width - |digits|), digits);
    }
  }

  // ---------------------------------------------------------------------------
  // Java string helpers
  // ---------------------------------------------------------------------------

  predicate StartsWith(s: string, prefix: string) {
    |prefix| <= |s| && s[..|prefix|] == prefix
  }

  /** Character.toUpperCase restricted to ASCII letters. */
  function UpperAscii(c: char): (u: char)
    ensures 'a' <= c <= 'z' ==> 'A' <= u <= 'Z'
    ensures !('a' <= c <= 'z') ==> u == c
  {
    if 'a' <= c <= 'z' then (c as int - 32) as char else c
  }

  /** String.equalsIgnoreCase, with case folding restricted to ASCII letters. */
  predicate EqualsIgnoreCase(a: string, b: string) {
    |a| == |b| && forall i :: 0 <= i < |a| ==> UpperAscii(a[i]) == UpperAscii(b[i])
  }

  /**
   * Splitting on every occurrence of `sep`, keeping every field, empty ones
   * included; the fields are the maximal runs between separators.
   */
  function SplitAll(s: string, sep: char): (fields: seq<string>)
    ensures |fields| >= 1
    ensures forall i :: 0 <= i < |fields| ==> sep !in fields[i]
    decreases |s|
  {
    if |s| == 0 then [""]
    else
      var rest := SplitAll(s[1..], sep);
      if s[0] == sep then [""] + rest else [[s[0]] + rest[0]] + rest[1..]
  }

  /** A string of decimal digits contains no other character. */
  lemma DigitsExclude(s: string, c: char)
    requires AllDigits(s) && !IsDigit(c)
    ensures c !in s
  {
  }

  /** The fields joined back together, separated by `sep`. */
  function Join(fields: seq<string>, sep: char): string
    requires |fields| >= 1
    decreases |fields|
  {
    if |fields| == 1 then fields[0] else fields[0] + [sep] + Join(fields[1..], sep)
  }

  lemma {:induction false} SplitAllOfField(a: string, sep: char)
    requires sep !in a
    ensures SplitAll(a, sep) == [a]
    decreases |a|
  {
    if |a| > 0 {
      SplitAllOfField(a[1..], sep);
      assert [a[0]] + a[1..] == a;
    }
  }

  lemma {:induction false} SplitAllAfterField(a: string, sep: char, b: string)
    requires sep !in a
    ensures SplitAll(a + [sep] + b, sep) == [a] + SplitAll(b, sep)
    decreases |a|
  {
    var s := a + [sep] + b;
    if |a| == 0 {
      assert s[1..] == b;
    } else {
      assert s[1..] == a[1..] + [sep] + b;
      SplitAllAfterField(a[1..], sep, b);
      assert [a[0]] + a[1..] == a;
    }
  }

  /** Splitting undoes joining when no field contains the separator. */
  lemma {:induction false} SplitAllJoin(fields: seq<string>, sep: char)
    requires |fields| >= 1
    requires forall i :: 0 <= i < |fields| ==> sep !in fields[i]
    ensures SplitAll(Join(fields, sep), sep) == fields
    decreases |fields|
  {
    if |fields| == 1 {
      SplitAllOfField(fields[0], sep);
    } else {
      SplitAllJoin(fields[1..], sep);
      SplitAllAfterField(fields[0], sep, Join(fields[1..], sep));
      assert [fields[0]] + fields[1..] == fields;
    }
  }

  /** Removes the trailing empty strings, as String.split with limit 0 does. */
  function DropTrailingEmpty(fields: seq<string>): (r: seq<string>)
    ensures |r| <= |fields| && r == fields[..|r|]
    ensures |r| > 0 ==> r[|r| - 1] != ""
    ensures forall i :: |r| <= i < |fields| ==> fields[i] == ""
    decreases |fields|
  {
    if |fields| == 0 then []
    else if fields[|fields| - 1] == "" then DropTrailingEmpty(fields[..|fields| - 1])
    else fields
  }

  /**
   * Java's s.split(regex) for a regex matching the single character `sep`:
   * when `sep` does not occur the result is the whole string; otherwise the
   * fields between separators, without the trailing empty ones.
   */
  function JavaSplit(s: string, sep: char): (fields: seq<string>)
    ensures sep in s ==> forall i :: 0 <= i < |fields| ==> sep !in fields[i] && (i == |fields| - 1 ==> fields[i] != "")
    ensures sep in s ==>
      var all := SplitAll(s, sep);
      |fields| <= |all| && fields == all[..|fields|] && forall i :: |fields| <= i < |all| ==> all[i] == ""
    ensures sep !in s ==> fields == [s]
  {
    if sep !in s then [s] else DropTrailingEmpty(SplitAll(s, sep))
  }

  /** Joining the fields of a split gives the string back: no character is lost or added. */
  lemma {:induction false} JoinSplitAll(s: string, sep: char)
    ensures Join(SplitAll(s, sep), sep) == s
    decreases |s|
  {
    if |s| > 0 {
      var rest := SplitAll(s[1..], sep);
      JoinSplitAll(s[1..], sep);
      if s[0] == sep {
        assert ([""] + rest)[1..] == rest;
        assert [s[0]] + s[1..] == s;
      } else {
        var fields := [[s[0]] + rest[0]] + rest[1..];
        if |rest| == 1 {
          assert [s[0]] + s[1..] == s;
        } else {
          assert fields[1..] == rest[1..];
          assert Join(rest, sep) == rest[0] + [sep] + Join(rest[1..], sep);
          assert [s[0]] + s[1..] == s;
        }
      }
    }
  }

  /**
   * Java's s.substring(s.lastIndexOf(sep) + 1): the part after the last
   * separator, or the whole string when there is none.
   */
  function AfterLast(s: string, sep: char): (r: string)
    ensures sep !in r
    ensures |r| <= |s| && s[|s| - |r|..] == r
    ensures |r| < |s| ==> s[|s| - |r| - 1] == sep
    decreases |s|
  {
    if |s| == 0 then ""
    else if s[|s| - 1] == sep then ""
    else
      var init := s[..|s| - 1];
      var r := AfterLast(init, sep);
      assert s[|s| - |r| - 1..] == init[|init| - |r|..] + [s[|s| - 1]];
      r + [s[|s| - 1]]
  }

  // ---------------------------------------------------------------------------
  // Sequences
  // ---------------------------------------------------------------------------

  /** The elements of `s` that satisfy `p`, in their original order. */
  function Filter<T>(s: seq<T>, p: T -> bool): (r: seq<T>)
    ensures |r| <= |s|
    ensures forall i :: 0 <= i < |r| ==> r[i] in s && p(r[i])
    ensures forall i :: 0 <= i < |s| && p(s[i]) ==> s[i] in r
    decreases |s|
  {
    if |s| == 0 then []
    else if p(s[|s| - 1]) then Filter(s[..|s| - 1], p) + [s[|s| - 1]]
    else Filter(s[..|s| - 1], p)
  }

  lemma FilterAppend<T>(s: seq<T>, x: T, p: T -> bool)
    ensures Filter(s + [x], p) == if p(x) then Filter(s, p) + [x] else Filter(s, p)
  {
    assert (s + [x])[..|s|] == s;
  }

  function Reversed<T>(s: seq<T>): (r: seq<T>)
    ensures |r| == |s|
    ensures forall i :: 0 <= i < |s| ==> r[i] == s[|s| - 1 - i]
    decreases |s|
  {
    if |s| == 0 then [] else [s[|s| - 1]] + Reversed(s[..|s| - 1])
  }

  /** The first `n` elements, or all of them when there are fewer (subList(0, n) after a size test). */
  function Take<T>(s: seq<T>, n: nat): (r: seq<T>)
    ensures |r| == if |s| < n then |s| else n
    ensures r == s[..|r|]
  {
    if |s| > n then s[..n] else s
  }
}
