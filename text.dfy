/** Decimal text of integers, as JavaScript template literals and Python
    f-strings print them, the decimal `parseInt` of JavaScript, and Python's
    `str.strip()`. */
module Text {
  import opened Wrappers

  predicate IsDigit(c: char)
  {
    '0' <= c <= '9'
  }

  predicate AllDigits(s: string)
  {
    forall i :: 0 <= i < |s| ==> IsDigit(s[i])
  }

  function DigitChar(d: nat): (c: char)
    requires d < 10
    ensures IsDigit(c) && c as int - '0' as int == d
  {
    (d + '0' as int) as char
  }

  function DigitValue(c: char): (d: nat)
    requires IsDigit(c)
    ensures d < 10
  {
    c as int - '0' as int
  }

  /** Decimal digits of `n`, most significant first, without leading zeros. */
  function NatText(n: nat): (s: string)
    ensures |s| >= 1 && AllDigits(s)
    ensures n < 10 <==> |s| == 1
  {
    if n < 10 then [DigitChar(n)] else NatText(n / 10) + [DigitChar(n % 10)]
  }

  /** `String(i)` for an integral number; a negative value gets a leading '-'. */
  function IntText(i: int): (s: string)
    ensures |s| >= 1
    ensures i >= 0 ==> AllDigits(s)
    ensures i < 0 ==> s[0] == '-' && AllDigits(s[1..])
  {
    if i < 0 then "-" + NatText(-i) else NatText(i)
  }

  /** `n` written with at least `width` digits, padded with leading zeros
      (Python's `%0Nd`). */
  function Padded(n: nat, width: nat): (s: string)
    ensures |s| >= width && AllDigits(s)
    decreases width
  {
    var t := NatText(n);
    if |t| >= width then t else "0" + Padded(n, width - 1)
  }

  /** The value of a non-empty run of decimal digits. */
  function DigitsValue(s: string): nat
    requires AllDigits(s)
  {
    if s == [] then 0 else DigitsValue(s[..|s| - 1]) * 10 + DigitValue(s[|s| - 1])
  }

  lemma {:induction false} DigitsValueOfNatText(n: nat)
    ensures DigitsValue(NatText(n)) == n
  {
    if n >= 10 {
      var s := NatText(n);
      assert s[..|s| - 1] == NatText(n / 10);
      DigitsValueOfNatText(n / 10);
    }
  }

  /** Length of the longest prefix of `s` made of digits. */
  function DigitRun(s: string): (k: nat)
    ensures k <= |s| && AllDigits(s[..k])
    ensures k < |s| ==> !IsDigit(s[k])
  {
    if s == [] || !IsDigit(s[0]) then 0
    else
      var k := 1 + DigitRun(s[1..]);
      assert s[..k] == [s[0]] + s[1..][..k - 1];
      k
  }

  lemma {:induction false} DigitRunOfDigits(s: string)
    requires AllDigits(s)
    ensures DigitRun(s) == |s|
  {
    if s != [] {
      DigitRunOfDigits(s[1..]);
    }
  }

  /** The value of the digits `s` starts with; `None` when it starts with
      none. */
  function ParseDigits(s: string): (r: Option<nat>)
    ensures r.Some? <==> |s| > 0 && IsDigit(s[0])
  {
    var k := DigitRun(s);
    if k == 0 then None else Some(DigitsValue(s[..k]))
  }

  /** `parseInt(s)` with radix 10: an optional sign, then the longest run of
      digits; `None` stands for NaN (no digit at all). */
  function ParseInt(s: string): (r: Option<int>)
    ensures r.Some? <==> (|s| > 0 && IsDigit(s[0])) || (|s| > 1 && (s[0] == '-' || s[0] == '+') && IsDigit(s[1]))
  {
    var signed := |s| > 0 && (s[0] == '-' || s[0] == '+');
    var v := ParseDigits(if signed then s[1..] else s);
    if v.None? then None
    else Some(if signed && s[0] == '-' then -(v.value as int) else v.value)
  }

  /** `s.split(sep)[0]`: everything before the first `sep`, or all of `s`. */
  function SplitHead(s: string, sep: char): (h: string)
    ensures h <= s
    ensures sep !in h
    ensures |h| < |s| ==> s[|h|] == sep
  {
    if s == [] || s[0] == sep then [] else [s[0]] + SplitHead(s[1..], sep)
  }

  lemma {:induction false} SplitHeadOfPrefix(a: string, sep: char, rest: string)
    requires sep !in a
    ensures SplitHead(a + [sep] + rest, sep) == a
  {
    if a != [] {
      assert (a + [sep] + rest)[1..] == a[1..] + [sep] + rest;
      SplitHeadOfPrefix(a[1..], sep, rest);
    }
  }

  /** The digit run of digits followed by a text that does not start with
      a digit is exactly those digits. */
  lemma {:induction false} DigitRunOfPrefix(d: string, rest: string)
    requires AllDigits(d)
    requires rest == [] || !IsDigit(rest[0])
    ensures DigitRun(d + rest) == |d|
  {
    if d != [] {
      assert (d + rest)[1..] == d[1..] + rest;
      DigitRunOfPrefix(d[1..], rest);
    }
  }

  /** What `parseInt` returns for a text that starts with digits: the
      value of the whole run, whatever non-digit text follows. */
  lemma ParseIntValue(d: string, rest: string)
    requires d != [] && AllDigits(d)
    requires rest == [] || !IsDigit(rest[0])
    ensures ParseInt(d + rest) == Some(DigitsValue(d))
  {
    ParseDigitsOfPrefix(d, rest);
    assert IsDigit(d[0]) && (d + rest)[0] == d[0];
  }

  /** A leading sign is read, and the digits after it. */
  lemma ParseSigned(sign: char, t: string, v: nat)
    requires sign == '-' || sign == '+'
    requires ParseDigits(t) == Some(v)
    ensures ParseInt([sign] + t) == Some(if sign == '-' then -(v as int) else v)
  {
    assert ([sign] + t)[1..] == t;
  }

  lemma ParseDigitsOfPrefix(d: string, rest: string)
    requires d != [] && AllDigits(d)
    requires rest == [] || !IsDigit(rest[0])
    ensures ParseDigits(d + rest) == Some(DigitsValue(d))
  {
    DigitRunOfPrefix(d, rest);
    assert (d + rest)[..|d|] == d;
  }

  /** `parseInt(String(i) + rest)` is `i` for every integer `i`, whatever
      non-digit text follows. */
  lemma ParseIntOfIntText(i: int, rest: string)
    requires rest == [] || !IsDigit(rest[0])
    ensures ParseInt(IntText(i) + rest) == Some(i)
  {
    if i < 0 {
      var t := NatText(-i) + rest;
      assert ParseDigits(t) == Some(-i) by {
        ParseDigitsOfPrefix(NatText(-i), rest);
        DigitsValueOfNatText(-i);
      }
      ParseSigned('-', t, -i);
      assert IntText(i) + rest == ['-'] + t;
    } else {
      ParseIntValue(NatText(i), rest);
      DigitsValueOfNatText(i);
    }
  }

  lemma {:induction false} ParseIntOfNatText(n: nat)
    ensures ParseInt(NatText(n)) == Some(n)
  {
    var s := NatText(n);
    assert s[0] != '-' && s[0] != '+';
    DigitRunOfDigits(s);
    assert s[..|s|] == s;
    DigitsValueOfNatText(n);
  }

  /** The position of the last `c` in `s`, if any (`s.lastIndexOf(c)`). */
  function LastIndexOf(s: string, c: char): (r: Option<nat>)
    ensures r.None? <==> c !in s
    ensures r.Some? ==> r.value < |s| && s[r.value] == c && c !in s[r.value + 1..]
  {
    if s == [] then None
    else if s[|s| - 1] == c then Some(|s| - 1)
    else
      var r := LastIndexOf(s[..|s| - 1], c);
      assert s == s[..|s| - 1] + [s[|s| - 1]];
      if r.Some? then
        assert s[r.value + 1..] == s[..|s| - 1][r.value + 1..] + [s[|s| - 1]];
        r
      else r
  }

  lemma {:induction false} LastIndexOfSplit(a: string, c: char, b: string)
    requires c !in b
    ensures LastIndexOf(a + [c] + b, c) == Some(|a|)
  {
    var s := a + [c] + b;
    var r := LastIndexOf(s, c);
    assert s[|a|] == c;
    assert r.Some?;
  }

  lemma NoCharInDigits(s: string, c: char)
    requires AllDigits(s) && !IsDigit(c)
    ensures c !in s
  {
  }
  /** The characters Python's `str.isspace` accepts; `str.strip()` with no
      argument removes exactly these. */
  predicate IsSpace(c: char)
  {
    var n := c as int;
    || n == 0x20 || 0x09 <= n <= 0x0d || 0x1c <= n <= 0x1f || n == 0x85 || n == 0xa0
    || n == 0x1680 || 0x2000 <= n <= 0x200a || n == 0x2028 || n == 0x2029
    || n == 0x202f || n == 0x205f || n == 0x3000
  }

  /** How many white-space characters `s` starts with. */
  function LeadingSpace(s: string): (k: nat)
    ensures k <= |s|
    ensures forall i :: 0 <= i < k ==> IsSpace(s[i])
    ensures k < |s| ==> !IsSpace(s[k])
  {
    if s == [] || !IsSpace(s[0]) then 0
    else
      var k := LeadingSpace(s[1..]);
      assert forall i :: 1 <= i < k + 1 ==> s[i] == s[1..][i - 1];
      k + 1
  }

  /** How many white-space characters `s` ends with. */
  function TrailingSpace(s: string): (k: nat)
    ensures k <= |s|
    ensures forall i :: |s| - k <= i < |s| ==> IsSpace(s[i])
    ensures k < |s| ==> !IsSpace(s[|s| - 1 - k])
  {
    if s == [] || !IsSpace(s[|s| - 1]) then 0
    else
      var k := TrailingSpace(s[..|s| - 1]);
      k + 1
  }

  /** `s.strip()`: white space removed from both ends. The result is empty
      exactly when `s` is all white space, otherwise it starts and ends with
      a character that is not; a text without white space at its ends is
      left as it is (`StripSlice` states that nothing else is removed). */
  function Strip(s: string): (r: string)
    ensures |r| <= |s| && forall c :: c in r ==> c in s
    ensures r == [] <==> forall i :: 0 <= i < |s| ==> IsSpace(s[i])
    ensures r != [] ==> !IsSpace(r[0]) && !IsSpace(r[|r| - 1])
    ensures s == [] || (!IsSpace(s[0]) && !IsSpace(s[|s| - 1])) ==> r == s
  {
    var i := LeadingSpace(s);
    if i == |s| then []
    else
      var t := s[i..];
      var j := TrailingSpace(t);
      var r := t[..|t| - j];
      assert r != [] && !IsSpace(r[0]) && !IsSpace(r[|r| - 1]) by {
        assert t[0] == s[i] && r[0] == s[i] && r[|r| - 1] == t[|t| - 1 - j];
      }
      assert forall c :: c in r ==> c in s by {
        assert forall c :: c in r ==> c in t;
      }
      assert !IsSpace(s[0]) && !IsSpace(s[|s| - 1]) ==> r == s by {
        if !IsSpace(s[0]) && !IsSpace(s[|s| - 1]) {
          assert i == 0 && t == s && j == 0;
        }
      }
      r
  }

  /** `strip` removes white space at the two ends and nothing else: the
      result is a slice of `s` with only white space before and after it. */
  lemma StripSlice(s: string)
    ensures exists i, j :: (0 <= i <= j <= |s| && Strip(s) == s[i..j]
              && (forall k :: 0 <= k < i ==> IsSpace(s[k])) && (forall k :: j <= k < |s| ==> IsSpace(s[k])))
  {
    var i := LeadingSpace(s);
    if i == |s| {
      assert Strip(s) == s[i..i];
    } else {
      var t := s[i..];
      var j := TrailingSpace(t);
      assert Strip(s) == s[i..|s| - j] by {
        assert Strip(s) == t[..|t| - j];
        SliceOfSuffix(s, i, |t| - j);
      }
      assert forall k :: |s| - j <= k < |s| ==> IsSpace(s[k]) by {
        assert forall k :: |s| - j <= k < |s| ==> s[k] == t[k - i];
      }
    }
  }

  lemma SliceOfSuffix(s: string, i: nat, m: nat)
    requires i + m <= |s|
    ensures s[i..][..m] == s[i..i + m]
  {
  }

  /** Stripping twice strips no more than stripping once. */
  lemma StripIdempotent(s: string)
    ensures Strip(Strip(s)) == Strip(s)
  {
  }
}
