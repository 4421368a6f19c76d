/** Character classes, whitespace stripping and decimal conversion with the
    meaning Python 3 gives them on `str` values (ASCII digits only). */
module Text {
  import opened Wrappers

  /** The characters `str.isspace` accepts: what `str.strip()` removes and
      what `\s` matches in a `str` regular expression. */
  predicate IsSpace(c: char) {
    var n := c as int;
    || (0x09 <= n <= 0x0D) || (0x1C <= n <= 0x20)
    || n == 0x85 || n == 0xA0 || n == 0x1680
    || (0x2000 <= n <= 0x200A) || n == 0x2028 || n == 0x2029
    || n == 0x202F || n == 0x205F || n == 0x3000
  }

  predicate AllSpace(s: string) {
    forall k :: 0 <= k < |s| ==> IsSpace(s[k])
  }

  /** Number of whitespace characters at the front of `s`. */
  function LeadingSpaces(s: string): (n: nat)
    ensures n <= |s|
    ensures forall k :: 0 <= k < n ==> IsSpace(s[k])
    ensures n < |s| ==> !IsSpace(s[n])
  {
    if |s| > 0 && IsSpace(s[0]) then 1 + LeadingSpaces(s[1..]) else 0
  }

  /** Number of whitespace characters at the back of `s`. */
  function TrailingSpaces(s: string): (n: nat)
    ensures n <= |s|
    ensures forall k :: |s| - n <= k < |s| ==> IsSpace(s[k])
    ensures n < |s| ==> !IsSpace(s[|s| - 1 - n])
  {
    if |s| > 0 && IsSpace(s[|s| - 1]) then 1 + TrailingSpaces(s[..|s| - 1]) else 0
  }

  /** `r` is the slice of `s` starting at `a`, and everything of `s` around it is whitespace. */
  ghost predicate StrippedAt(s: string, a: nat, r: string) {
    && a + |r| <= |s|
    && r == s[a .. a + |r|]
    && (forall k :: 0 <= k < a ==> IsSpace(s[k]))
    && (forall k :: a + |r| <= k < |s| ==> IsSpace(s[k]))
  }

  /** A string with no whitespace at either end. */
  predicate Trimmed(r: string) {
    r == [] || (!IsSpace(r[0]) && !IsSpace(r[|r| - 1]))
  }

  /** Python's `s.strip()` with no argument. */
  function Strip(s: string): (r: string)
    ensures Trimmed(r)
    ensures |r| <= |s|
  {
    var a := LeadingSpaces(s);
    if a == |s| then []
    else
      var b := |s| - TrailingSpaces(s);
      assert !IsSpace(s[a]);
      s[a .. b]
  }

  /** Stripping removes whitespace only, from both ends. */
  lemma StripSpec(s: string)
    ensures StrippedAt(s, LeadingSpaces(s), Strip(s))
  {
  }

  /** The strip of a string is determined by the two properties in Strip's
      contract: any trimmed infix surrounded only by whitespace is the strip. */
  lemma StripUnique(s: string, a: nat, r: string)
    requires StrippedAt(s, a, r) && Trimmed(r)
    ensures Strip(s) == r
  {
    var n := LeadingSpaces(s);
    if r == [] {
      assert forall k :: 0 <= k < |s| ==> IsSpace(s[k]) by {
        forall k | 0 <= k < |s| ensures IsSpace(s[k]) {
          if k >= a { assert a + |r| <= k; }
        }
      }
      assert n == |s|;
    } else {
      assert s[a] == r[0];
      assert !IsSpace(s[a]);
      assert n <= a;
      assert !IsSpace(s[n]);
      assert n == a;
      var t := TrailingSpaces(s);
      var e := a + |r|;
      assert s[e - 1] == r[|r| - 1];
      assert !IsSpace(s[e - 1]);
      assert t <= |s| - e;
      assert !IsSpace(s[|s| - 1 - t]);
      assert t == |s| - e;
    }
  }

  /** Whitespace padding on either side never changes the strip. */
  lemma StripPadding(pre: string, s: string, post: string)
    requires AllSpace(pre) && AllSpace(post)
    ensures Strip(pre + s + post) == Strip(s)
  {
    var r := Strip(s);
    var a := LeadingSpaces(s);
    var w := pre + s + post;
    StripSpec(s);
    assert w[|pre| + a .. |pre| + a + |r|] == s[a .. a + |r|];
    assert forall k :: 0 <= k < |pre| + a ==> IsSpace(w[k]) by {
      forall k | 0 <= k < |pre| + a ensures IsSpace(w[k]) {
        if k >= |pre| { assert w[k] == s[k - |pre|]; }
      }
    }
    assert forall k :: |pre| + a + |r| <= k < |w| ==> IsSpace(w[k]) by {
      forall k | |pre| + a + |r| <= k < |w| ensures IsSpace(w[k]) {
        if k < |pre| + |s| { assert w[k] == s[k - |pre|]; }
        else { assert w[k] == post[k - |pre| - |s|]; }
      }
    }
    assert StrippedAt(w, |pre| + a, r);
    StripUnique(w, |pre| + a, r);
  }

  /** A string with non-space ends is its own strip. */
  lemma StripTrimmed(s: string)
    requires Trimmed(s)
    ensures Strip(s) == s
  {
    assert StrippedAt(s, 0, s);
    StripUnique(s, 0, s);
  }

  predicate StartsWith(s: string, prefix: string) {
    |prefix| <= |s| && s[..|prefix|] == prefix
  }

  /** `sub` occurs in `s` at index `i`. */
  predicate OccursAt(s: string, sub: string, i: int) {
    0 <= i <= |s| - |sub| && s[i .. i + |sub|] == sub
  }

  /** Python's `sub in s` for strings. */
  predicate Contains(s: string, sub: string) {
    exists i :: 0 <= i <= |s| - |sub| && OccursAt(s, sub, i)
  }

  /** Two non-space positions lie inside the strip. */
  lemma StripBounds(s: string, p: nat, q: nat)
    requires p <= q < |s| && !IsSpace(s[p]) && !IsSpace(s[q])
    ensures LeadingSpaces(s) <= p && q < LeadingSpaces(s) + |Strip(s)|
  {
    StripSpec(s);
  }

  /** A string that begins with a non-space character and ends with a digit is its own strip. */
  lemma StripDigitEnded(t: string)
    requires |t| > 0 && !IsSpace(t[0]) && IsAsciiDigit(t[|t| - 1])
    ensures Strip(t) == t
  {
    assert !IsSpace(t[|t| - 1]);
    StripTrimmed(t);
  }

  /** An occurrence of a substring with no whitespace at its ends survives stripping. */
  lemma StripKeepsContains(s: string, sub: string)
    requires Contains(s, sub) && |sub| > 0
    requires !IsSpace(sub[0]) && !IsSpace(sub[|sub| - 1])
    ensures Contains(Strip(s), sub)
  {
    var i :| 0 <= i <= |s| - |sub| && OccursAt(s, sub, i);
    var j := i + |sub| - 1;
    assert s[i] == sub[0] && s[j] == sub[|sub| - 1] by {
      assert s[i .. i + |sub|] == sub;
    }
    StripBounds(s, i, j);
    StripSpec(s);
    var r := Strip(s);
    InfixKeepsOccurrence(s, LeadingSpaces(s), r, sub, i);
  }

  /** An occurrence lying inside an infix is an occurrence in the infix. */
  lemma InfixKeepsOccurrence(s: string, a: nat, r: string, sub: string, i: nat)
    requires a + |r| <= |s| && r == s[a .. a + |r|]
    requires a <= i && i + |sub| <= a + |r| && OccursAt(s, sub, i)
    ensures OccursAt(r, sub, i - a)
    ensures Contains(r, sub)
  {
    forall k | 0 <= k < |sub| ensures r[i - a + k] == sub[k] {
      assert r[i - a + k] == s[i + k];
      assert s[i .. i + |sub|][k] == s[i + k];
    }
    assert r[i - a .. i - a + |sub|] == sub;
    assert OccursAt(r, sub, i - a);
  }

  /** Index of the first occurrence of `c` in `s`. */
  function IndexOf(s: string, c: char): (r: Option<nat>)
    ensures r.Some? ==> r.value < |s| && s[r.value] == c && c !in s[..r.value]
    ensures r.None? ==> c !in s
  {
    if |s| == 0 then None
    else if s[0] == c then Some(0)
    else match IndexOf(s[1..], c)
      case None => None
      case Some(i) =>
        assert s[..i + 1] == [s[0]] + s[1..][..i];
        Some(i + 1)
  }

  /** Splits `s` around its first `sep`. */
  function SplitFirst(s: string, sep: char): (r: Option<(string, string)>)
    ensures r.Some? ==> s == r.value.0 + [sep] + r.value.1 && sep !in r.value.0
    ensures r.None? ==> sep !in s
  {
    match IndexOf(s, sep)
    case None => None
    case Some(i) =>
      assert s == s[..i] + [sep] + s[i + 1..];
      Some((s[..i], s[i + 1..]))
  }

  /** The first separator after a separator-free head is found at the end of the head. */
  lemma {:induction false} IndexOfAfter(head: string, sep: char, tail: string)
    requires sep !in head
    ensures IndexOf(head + [sep] + tail, sep) == Some(|head|)
  {
    var s := head + [sep] + tail;
    if |head| > 0 {
      assert s[0] == head[0];
      assert s[1..] == head[1..] + [sep] + tail;
      IndexOfAfter(head[1..], sep, tail);
    }
  }

  /** Splitting is determined: a separator-free head followed by the separator is what comes back. */
  lemma SplitFirstOf(head: string, sep: char, tail: string)
    requires sep !in head
    ensures SplitFirst(head + [sep] + tail, sep) == Some((head, tail))
  {
    var s := head + [sep] + tail;
    IndexOfAfter(head, sep, tail);
    assert s[..|head|] == head;
    assert s[|head| + 1..] == tail;
  }

  predicate IsAsciiDigit(c: char) {
    '0' <= c <= '9'
  }

  predicate AllDigits(s: string) {
    forall k :: 0 <= k < |s| ==> IsAsciiDigit(s[k])
  }

  /** What `\d+` matches (ASCII digits only). */
  predicate IsDigitRun(s: string) {
    |s| > 0 && AllDigits(s)
  }

  function DigitValue(c: char): (d: nat)
    requires IsAsciiDigit(c)
    ensures d < 10
  {
    c as int - '0' as int
  }

  function DigitChar(d: nat): (c: char)
    requires d < 10
    ensures IsAsciiDigit(c) && DigitValue(c) == d
  {
    ('0' as int + d) as char
  }

  function Pow10(k: nat): (p: nat)
    ensures p >= 1
    ensures k >= 1 ==> p >= 10
  {
    if k == 0 then 1 else 10 * Pow10(k - 1)
  }

  /** Python's `int(s)` for a run of ASCII digits: leading zeros count for nothing. */
  function DigitsValue(s: string): nat
    requires AllDigits(s)
  {
    if |s| == 0 then 0 else 10 * DigitsValue(s[..|s| - 1]) + DigitValue(s[|s| - 1])
  }

  /** Python's `str(n)` for a natural number. */
  function NatToDecimal(n: nat): (r: string)
    ensures IsCanonicalDecimal(r)
    ensures r[0] == '0' <==> n == 0
    ensures |r| == 1 <==> n < 10
  {
    if n < 10 then [DigitChar(n)] else NatToDecimal(n / 10) + [DigitChar(n % 10)]
  }

  /** No leading zero, except for the number zero itself. */
  predicate IsCanonicalDecimal(s: string) {
    IsDigitRun(s) && (s[0] == '0' ==> |s| == 1)
  }

  /** Python's `str(n)` for an integer. */
  function IntToDecimal(n: int): string {
    if n < 0 then "-" + NatToDecimal(-n) else NatToDecimal(n)
  }

  /** `int(str(n)) == n`. */
  lemma {:induction false} DecimalRoundTrip(n: nat)
    ensures DigitsValue(NatToDecimal(n)) == n
  {
    if n >= 10 {
      DecimalRoundTrip(n / 10);
      var s := NatToDecimal(n);
      assert s[..|s| - 1] == NatToDecimal(n / 10);
    }
  }

  /** Appending a digit shifts the value one decimal place. */
  lemma DigitsValueSnoc(s: string, c: char)
    requires AllDigits(s) && IsAsciiDigit(c)
    ensures DigitsValue(s + [c]) == 10 * DigitsValue(s) + DigitValue(c)
  {
    var t := s + [c];
    assert t[..|t| - 1] == s;
  }

  /** The value of a digit run of length at most three, digit by digit. */
  lemma ShortDigitsValue(s: string)
    requires AllDigits(s) && 1 <= |s| <= 3
    ensures |s| == 1 ==> DigitsValue(s) == DigitValue(s[0])
    ensures |s| == 2 ==> DigitsValue(s) == 10 * DigitValue(s[0]) + DigitValue(s[1])
    ensures |s| == 3 ==> DigitsValue(s) == 100 * DigitValue(s[0]) + 10 * DigitValue(s[1]) + DigitValue(s[2])
  {
    if |s| >= 2 {
      assert s[..|s| - 1][..|s| - 2] == s[..|s| - 2];
    }
  }

  /** Reading a canonical digit run after a non-zero-led one and writing it back. */
  lemma PrefixDecimal(h: string, digits: string)
    requires IsCanonicalDecimal(h) && IsCanonicalDecimal(digits) && h[0] != '0'
    ensures NatToDecimal(DigitsValue(h) * Pow10(|digits|) + DigitsValue(digits)) == h + digits
  {
    var text := h + digits;
    assert AllDigits(text) by {
      forall k | 0 <= k < |text| ensures IsAsciiDigit(text[k]) {
        if k >= |h| { assert text[k] == digits[k - |h|]; } else { assert text[k] == h[k]; }
      }
    }
    DigitsValueConcat(h, digits);
    CanonicalRoundTrip(text);
  }

  lemma MulAssoc10(x: nat, y: nat)
    ensures x * (10 * y) == 10 * (x * y)
  {
  }

  /** Reading a concatenation of digit runs. */
  lemma {:induction false} DigitsValueConcat(a: string, b: string)
    requires AllDigits(a) && AllDigits(b)
    ensures DigitsValue(a + b) == DigitsValue(a) * Pow10(|b|) + DigitsValue(b)
  {
    if |b| == 0 {
      assert a + b == a;
    } else {
      var b', c := b[..|b| - 1], b[|b| - 1];
      assert b == b' + [c];
      assert a + b == (a + b') + [c];
      DigitsValueConcat(a, b');
      DigitsValueSnoc(a + b', c);
      DigitsValueSnoc(b', c);
      var va, vb', p := DigitsValue(a), DigitsValue(b'), Pow10(|b'|);
      assert DigitsValue(a + b') == va * p + vb';
      assert DigitsValue(a + b) == 10 * (va * p + vb') + DigitValue(c);
      assert DigitsValue(b) == 10 * vb' + DigitValue(c);
      assert Pow10(|b|) == 10 * p;
      MulAssoc10(va, p);
    }
  }

  /** Leading zeros are dropped by `int()`. */
  lemma LeadingZerosIgnored(zeros: string, s: string)
    requires forall k :: 0 <= k < |zeros| ==> zeros[k] == '0'
    requires AllDigits(s)
    ensures DigitsValue(zeros + s) == DigitsValue(s)
  {
    ZerosValue(zeros);
    DigitsValueConcat(zeros, s);
  }

  lemma {:induction false} ZerosValue(zeros: string)
    requires forall k :: 0 <= k < |zeros| ==> zeros[k] == '0'
    ensures DigitsValue(zeros) == 0
  {
    if |zeros| > 0 {
      ZerosValue(zeros[..|zeros| - 1]);
    }
  }

  /** `str(int(s)) == s` for a digit run without leading zeros. */
  lemma {:induction false} CanonicalRoundTrip(s: string)
    requires IsCanonicalDecimal(s)
    ensures NatToDecimal(DigitsValue(s)) == s
  {
    if |s| > 1 {
      var h := s[..|s| - 1];
      CanonicalRoundTrip(h);
      var v := DigitsValue(h);
      assert h[0] != '0';
      assert v > 0;
      var d := DigitValue(s[|s| - 1]);
      NatToDecimalStep(v, d);
      assert s == h + [DigitChar(d)];
    }
  }

  /** The decimal form of `10 * m + d` is that of `m` followed by digit `d`. */
  lemma NatToDecimalStep(m: nat, d: nat)
    requires m > 0 && d < 10
    ensures NatToDecimal(10 * m + d) == NatToDecimal(m) + [DigitChar(d)]
  {
    var n := 10 * m + d;
    assert n / 10 == m && n % 10 == d;
  }

}
