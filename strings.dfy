/** String helpers used by the builders and the CSS code: decimal and hexadecimal
  * rendering, joining, prefix/suffix stripping and Rust's `str::replace`. */
module Strings {
  import opened Wrappers

  /** The decimal digit character for `d`. */
  function DigitChar(d: nat): (c: char)
    requires d < 10
    ensures '0' <= c <= '9'
    ensures c as int - '0' as int == d
  {
    ['0', '1', '2', '3', '4', '5', '6', '7', '8', '9'][d]
  }

  predicate IsDigits(s: string)
  {
    forall i :: 0 <= i < |s| ==> '0' <= s[i] <= '9'
  }

  /** Value of a string of decimal digits (the inverse of `NatToString`). */
  function DecimalValue(s: string): nat
    requires IsDigits(s)
  {
    if |s| == 0 then 0
    else DecimalValue(s[..|s| - 1]) * 10 + (s[|s| - 1] as int - '0' as int)
  }

  /** `n.to_string()` for an unsigned integer: shortest decimal form. */
  function NatToString(n: nat): (s: string)
    ensures |s| >= 1 && IsDigits(s)
    ensures |s| > 1 ==> s[0] != '0'
  {
    if n < 10 then [DigitChar(n)]
    else NatToString(n / 10) + [DigitChar(n % 10)]
  }

  /** Reading back the decimal form gives the number. */
  lemma {:induction false} DecimalRoundTrip(n: nat)
    ensures DecimalValue(NatToString(n)) == n
  {
    if n >= 10 {
      var s := NatToString(n);
      assert s[..|s| - 1] == NatToString(n / 10);
      DecimalRoundTrip(n / 10);
    }
  }

  /** Distinct numbers have distinct decimal forms. */
  lemma NatToStringInjective(m: nat, n: nat)
    requires NatToString(m) == NatToString(n)
    ensures m == n
  {
    DecimalRoundTrip(m);
    DecimalRoundTrip(n);
  }

  /** `format!("{}", i)` for a signed integer. */
  function IntToString(i: int): (s: string)
    ensures i >= 0 ==> s == NatToString(i)
    ensures i < 0 ==> s == "-" + NatToString(-i)
  {
    if i >= 0 then NatToString(i) else "-" + NatToString(-i)
  }

  function HexDigit(d: nat): (c: char)
    requires d < 16
  {
    "0123456789abcdef"[d]
  }

  /** `format!("{:02x}", b)` for a byte: exactly two lower-case hexadecimal digits. */
  function Hex2(b: nat): (s: string)
    requires b < 256
    ensures |s| == 2
    ensures forall i :: 0 <= i < 2 ==> s[i] in "0123456789abcdef"
  {
    [HexDigit(b / 16), HexDigit(b % 16)]
  }

  /** `Vec<String>::join(sep)`. */
  function Join(xs: seq<string>, sep: string): (r: string)
  {
    if |xs| == 0 then ""
    else if |xs| == 1 then xs[0]
    else Join(xs[..|xs| - 1], sep) + sep + xs[|xs| - 1]
  }

  /** The position of the last `c` in `s`. */
  function LastIndexOf(s: string, c: char): (r: Option<nat>)
    ensures r.None? <==> c !in s
    ensures r.Some? ==> r.value < |s| && s[r.value] == c && c !in s[r.value + 1..]
  {
    if |s| == 0 then None
    else if s[|s| - 1] == c then Some(|s| - 1)
    else
      var r := LastIndexOf(s[..|s| - 1], c);
      assert r.Some? ==> s[r.value + 1..] == s[..|s| - 1][r.value + 1..] + [s[|s| - 1]];
      assert r.None? ==> s == s[..|s| - 1] + [s[|s| - 1]];
      r
  }

  /** `str::split(c)` on a character: the pieces between the occurrences of `c`. */
  function Split(s: string, c: char): (r: seq<string>)
    ensures |r| >= 1
    decreases |s|
  {
    match LastIndexOf(s, c)
    case None => [s]
    case Some(i) => Split(s[..i], c) + [s[i + 1..]]
  }

  /** Splitting a joined list on its one-character separator gives the list back, when
    * the list is not empty and no item contains the separator. */
  lemma {:induction false} SplitJoin(xs: seq<string>, c: char)
    requires |xs| >= 1
    requires forall i :: 0 <= i < |xs| ==> c !in xs[i]
    ensures Split(Join(xs, [c]), c) == xs
  {
    if |xs| > 1 {
      var a := Join(xs[..|xs| - 1], [c]);
      var t := xs[|xs| - 1];
      var s := a + [c] + t;
      assert Join(xs, [c]) == s;
      assert s[|a|] == c && s[|a| + 1..] == t;
      var r := LastIndexOf(s, c);
      assert r == Some(|a|);
      assert s[..|a|] == a;
      SplitJoin(xs[..|xs| - 1], c);
      assert xs == xs[..|xs| - 1] + [t];
    }
  }

  /** `str::strip_prefix`. */
  function StripPrefix(s: string, prefix: string): (r: Option<string>)
    ensures r.Some? <==> prefix <= s
    ensures r.Some? ==> prefix + r.value == s
  {
    if prefix <= s then Some(s[|prefix|..]) else None
  }

  predicate IsSuffix(suffix: string, s: string)
  {
    |suffix| <= |s| && s[|s| - |suffix|..] == suffix
  }

  /** `str::strip_suffix`. */
  function StripSuffix(s: string, suffix: string): (r: Option<string>)
    ensures r.Some? <==> IsSuffix(suffix, s)
    ensures r.Some? ==> r.value + suffix == s
  {
    if IsSuffix(suffix, s) then Some(s[..|s| - |suffix|]) else None
  }

  /** `pat` occurs in `s` starting at position `i`. */
  predicate OccursAt(s: string, pat: string, i: nat)
  {
    i + |pat| <= |s| && s[i..i + |pat|] == pat
  }

  /** `str::replace(pat, rep)` for a non-empty pattern: a left-to-right scan
    * replacing non-overlapping occurrences. */
  function ReplaceAll(s: string, pat: string, rep: string): string
    requires |pat| > 0
    decreases |s|
  {
    if |s| == 0 then ""
    else if pat <= s then rep + ReplaceAll(s[|pat|..], pat, rep)
    else [s[0]] + ReplaceAll(s[1..], pat, rep)
  }

  /** `str::replace(c, rep)` for a single character replaced by a single character. */
  function ReplaceChar(s: string, c: char, d: char): (r: string)
    ensures |r| == |s|
    ensures forall i :: 0 <= i < |s| ==> r[i] == (if s[i] == c then d else s[i])
  {
    if |s| == 0 then "" else [if s[0] == c then d else s[0]] + ReplaceChar(s[1..], c, d)
  }

  /** Without an occurrence of the pattern the string is unchanged. */
  lemma {:induction false} ReplaceAllNoOccurrence(s: string, pat: string, rep: string)
    requires |pat| > 0
    requires forall i :: 0 <= i <= |s| ==> !OccursAt(s, pat, i)
    ensures ReplaceAll(s, pat, rep) == s
    decreases |s|
  {
    if |s| > 0 {
      assert !OccursAt(s, pat, 0);
      forall i | 0 <= i <= |s[1..]|
        ensures !OccursAt(s[1..], pat, i)
      {
        assert !OccursAt(s, pat, i + 1);
        if i + |pat| <= |s[1..]| {
          assert s[1..][i..i + |pat|] == s[i + 1..i + 1 + |pat|];
        }
      }
      ReplaceAllNoOccurrence(s[1..], pat, rep);
    }
  }

  /** Replacing "::" by "_" leaves no "::" behind. */
  lemma {:induction false} ReplaceColonsRemovesAll(s: string)
    ensures forall i :: 0 <= i ==> !OccursAt(ReplaceAll(s, "::", "_"), "::", i)
    decreases |s|
  {
    var r := ReplaceAll(s, "::", "_");
    if |s| == 0 {
    } else if "::" <= s {
      ReplaceColonsRemovesAll(s[2..]);
      var t := ReplaceAll(s[2..], "::", "_");
      assert r == "_" + t;
      forall i | 0 <= i
        ensures !OccursAt(r, "::", i)
      {
        if i >= 1 && i + 2 <= |r| {
          assert r[i..i + 2] == t[i - 1..i + 1];
          assert !OccursAt(t, "::", i - 1);
        } else if i == 0 && 2 <= |r| {
          assert r[i..i + 2][0] == '_';
        }
      }
    } else {
      ReplaceColonsRemovesAll(s[1..]);
      var t := ReplaceAll(s[1..], "::", "_");
      assert r == [s[0]] + t;
      forall i | 0 <= i
        ensures !OccursAt(r, "::", i)
      {
        if i >= 1 && i + 2 <= |r| {
          assert r[i..i + 2] == t[i - 1..i + 1];
          assert !OccursAt(t, "::", i - 1);
        } else if i == 0 && |s| >= 2 && s[0] == ':' {
          // s starts with ':' but not with "::", so the scan copies s[1] unchanged
          assert s[..2] == [s[0], s[1]];
          ReplaceAllHead(s[1..]);
          assert r[1] == s[1];
        }
      }
    }
  }

  /** A string that does not start with "::" keeps its first character under the replacement. */
  lemma ReplaceAllHead(t: string)
    requires |t| > 0 && t[0] != ':'
    ensures |ReplaceAll(t, "::", "_")| > 0 && ReplaceAll(t, "::", "_")[0] == t[0]
  {
    assert !("::" <= t);
  }

  /** A character replaced by a different one no longer occurs. */
  lemma ReplaceCharRemoves(s: string, c: char, d: char)
    requires c != d
    ensures c !in ReplaceChar(s, c, d)
  {
    var r := ReplaceChar(s, c, d);
    forall i | 0 <= i < |r|
      ensures r[i] != c
    {
    }
  }
}
