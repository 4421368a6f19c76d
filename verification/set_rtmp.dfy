/** The argument checks of the `/setrtmp <group_id> <rtmp_link>` command,
    including Python's `int()` on the group id token. */
module SetRtmp {
  import opened Wrappers
  import opened Text

  /** Digits with single underscores between them: the body `int()` accepts in base 10. */
  predicate IsGrouped(b: string) {
    && |b| > 0 && b[0] != '_' && b[|b| - 1] != '_'
    && (forall k :: 0 <= k < |b| ==> IsAsciiDigit(b[k]) || b[k] == '_')
    && (forall k :: 0 <= k < |b| - 1 ==> !DoubleUnderscoreAt(b, k))
  }

  predicate DoubleUnderscoreAt(b: string, k: nat) {
    k + 1 < |b| && b[k] == '_' && b[k + 1] == '_'
  }

  /** The digits of `b`, underscores removed. */
  function DropUnderscores(b: string): (r: string)
    requires forall k :: 0 <= k < |b| ==> IsAsciiDigit(b[k]) || b[k] == '_'
    ensures AllDigits(r) && |r| <= |b|
    ensures AllDigits(b) ==> r == b
    ensures |b| > 0 && b[0] != '_' ==> |r| > 0 && r[0] == b[0]
  {
    if |b| == 0 then []
    else
      var rest := DropUnderscores(b[1..]);
      if b[0] == '_' then rest else [b[0]] + rest
  }

  predicate IsSign(c: char) {
    c == '+' || c == '-'
  }

  /** The text after an optional sign. */
  function Unsigned(t: string): (b: string)
    ensures |b| <= |t|
    ensures |b| < |t| <==> |t| > 0 && IsSign(t[0])
  {
    if |t| > 0 && IsSign(t[0]) then t[1..] else t
  }

  /** U+001C to U+001F, the information separators: `str.isspace` accepts
      them, but `int()` does not skip them. */
  predicate IsInfoSeparator(c: char) {
    0x1C <= c as int <= 0x1F
  }

  /** What `int()` skips around the number: the ASCII whitespace characters
      (tab, line feed, vertical tab, form feed, carriage return, space) and
      the non-ASCII characters `str.isspace` accepts. */
  predicate IsIntSpace(c: char) {
    IsSpace(c) && !IsInfoSeparator(c)
  }

  predicate AllIntSpace(s: string) {
    forall k :: 0 <= k < |s| ==> IsIntSpace(s[k])
  }

  predicate HasInfoSeparator(s: string) {
    exists k :: 0 <= k < |s| && IsInfoSeparator(s[k])
  }

  /** Python's `int(s)` on a `str`, base 10: surrounding whitespace, one
      optional sign, then digits with single underscores between them.
      `int()` keeps ASCII characters as they are and skips only the
      `IsIntSpace` characters at either end, so an information separator,
      wherever it stands, is neither skipped nor a digit and the conversion
      fails. On a token without one, the characters `int()` skips are exactly
      those `strip()` removes. */
  function PyInt(s: string): (r: Option<int>)
    ensures r.Some? ==> !HasInfoSeparator(s)
    ensures r.Some? ==> |Strip(s)| > 0 && IsAsciiDigit(Strip(s)[|Strip(s)| - 1])
    ensures r.Some? && r.value < 0 ==> Strip(s)[0] == '-'
  {
    if HasInfoSeparator(s) then None else SignedValue(Strip(s))
  }

  /** `int()` on text already stripped of whitespace. */
  function SignedValue(t: string): (r: Option<int>)
    ensures r.Some? ==> |t| > 0 && IsAsciiDigit(t[|t| - 1])
    ensures r.Some? && r.value < 0 ==> t[0] == '-'
  {
    var b := Unsigned(t);
    if IsGrouped(b) then
      var m: int := DigitsValue(DropUnderscores(b));
      assert b[|b| - 1] == t[|t| - 1];
      Some(if |t| > 0 && t[0] == '-' then -m else m)
    else None
  }

  /** A plain digit run reads as its decimal value. */
  lemma DigitsRead(d: string)
    requires IsDigitRun(d)
    ensures PyInt(d) == Some(DigitsValue(d))
  {
    StripDigitEnded(d);
    assert IsGrouped(d);
    assert Unsigned(d) == d;
  }

  /** A digit run after a minus sign reads as the negated value. */
  lemma NegDigitsRead(d: string)
    requires IsDigitRun(d)
    ensures PyInt(['-'] + d) == Some(-(DigitsValue(d) as int))
  {
    var t := ['-'] + d;
    assert t[|t| - 1] == d[|d| - 1];
    StripDigitEnded(t);
    assert IsGrouped(d);
    assert Unsigned(t) == d;
  }

  /** `int(str(n)) == n` for every integer. */
  lemma IntRoundTrip(n: int)
    ensures PyInt(IntToDecimal(n)) == Some(n)
  {
    if n < 0 {
      NegRoundTrip(-n);
      assert IntToDecimal(n) == ['-'] + NatToDecimal(-n);
    } else {
      DecimalRoundTrip(n);
      DigitsRead(NatToDecimal(n));
    }
  }

  lemma NegRoundTrip(m: nat)
    ensures PyInt(['-'] + NatToDecimal(m)) == Some(-(m as int))
  {
    DecimalRoundTrip(m);
    NegDigitsRead(NatToDecimal(m));
  }

  /** Whitespace that `int()` skips, around the token, does not change its value. */
  lemma PyIntPadding(pre: string, s: string, post: string)
    requires AllIntSpace(pre) && AllIntSpace(post)
    ensures PyInt(pre + s + post) == PyInt(s)
  {
    var w := pre + s + post;
    assert HasInfoSeparator(w) <==> HasInfoSeparator(s) by {
      if HasInfoSeparator(s) {
        var k :| 0 <= k < |s| && IsInfoSeparator(s[k]);
        assert w[|pre| + k] == s[k];
      }
      if !HasInfoSeparator(s) {
        forall k | 0 <= k < |w| ensures !IsInfoSeparator(w[k]) {
          if k < |pre| {
            assert w[k] == pre[k];
          } else if k < |pre| + |s| {
            assert w[k] == s[k - |pre|];
          } else {
            assert w[k] == post[k - |pre| - |s|];
          }
        }
      }
    }
    assert AllSpace(pre) && AllSpace(post) by {
      assert forall k :: 0 <= k < |pre| ==> IsIntSpace(pre[k]);
      assert forall k :: 0 <= k < |post| ==> IsIntSpace(post[k]);
    }
    StripPadding(pre, s, post);
  }

  /** An information separator in front of a number is removed by `strip()`
      but makes `int()` fail. */
  lemma InfoSeparatorRejected(c: char, d: string)
    requires IsInfoSeparator(c) && IsDigitRun(d)
    ensures Strip([c] + d) == d
    ensures PyInt([c] + d).None?
  {
    assert ([c] + d)[0] == c;
    assert [c] + d + [] == [c] + d;
    StripPadding([c], d, []);
    StripDigitEnded(d);
  }

  /** Unsigned grouped digits read as their digits with the underscores dropped. */
  lemma GroupedRead(u: string)
    requires IsGrouped(u) && IsAsciiDigit(u[0])
    ensures PyInt(u) == Some(DigitsValue(DropUnderscores(u)))
  {
    assert IsAsciiDigit(u[|u| - 1]);
    StripDigitEnded(u);
    assert Unsigned(u) == u;
  }

  /** Two digit runs joined by one underscore are grouped digits. */
  lemma JoinGrouped(a: string, b: string)
    requires IsDigitRun(a) && IsDigitRun(b)
    ensures IsGrouped(a + ['_'] + b)
  {
    var u := a + ['_'] + b;
    forall k | 0 <= k < |u| - 1 ensures !DoubleUnderscoreAt(u, k) {
      if k < |a| { assert u[k] == a[k]; } else { assert u[k + 1] == b[k - |a|]; }
    }
    forall k | 0 <= k < |u| ensures IsAsciiDigit(u[k]) || u[k] == '_' {
      if k < |a| { assert u[k] == a[k]; } else if k > |a| { assert u[k] == b[k - |a| - 1]; }
    }
    assert u[0] == a[0] && u[|u| - 1] == b[|b| - 1];
  }

  /** Dropping the joining underscore gives back both runs. */
  lemma JoinDrop(a: string, b: string)
    requires AllDigits(a) && AllDigits(b)
    ensures forall k :: 0 <= k < |a + ['_'] + b| ==> IsAsciiDigit((a + ['_'] + b)[k]) || (a + ['_'] + b)[k] == '_'
    ensures DropUnderscores(a + ['_'] + b) == a + b
  {
    DropConcat(['_'], b);
    DropConcat(a, ['_'] + b);
    assert a + ['_'] + b == a + (['_'] + b);
  }

  /** An underscore between two digit runs is ignored. */
  lemma UnderscoreIgnored(a: string, b: string)
    requires IsDigitRun(a) && IsDigitRun(b)
    ensures PyInt(a + ['_'] + b) == PyInt(a + b) == Some(DigitsValue(a + b))
  {
    var u, v := a + ['_'] + b, a + b;
    assert IsDigitRun(v) by {
      forall k | 0 <= k < |v| ensures IsAsciiDigit(v[k]) {
        if k < |a| { assert v[k] == a[k]; } else { assert v[k] == b[k - |a|]; }
      }
    }
    DigitsRead(v);
    JoinGrouped(a, b);
    JoinDrop(a, b);
    assert u[0] == a[0];
    GroupedRead(u);
  }

  lemma {:induction false} DropConcat(a: string, b: string)
    requires forall k :: 0 <= k < |a| ==> IsAsciiDigit(a[k]) || a[k] == '_'
    requires forall k :: 0 <= k < |b| ==> IsAsciiDigit(b[k]) || b[k] == '_'
    ensures forall k :: 0 <= k < |a + b| ==> IsAsciiDigit((a + b)[k]) || (a + b)[k] == '_'
    ensures DropUnderscores(a + b) == DropUnderscores(a) + DropUnderscores(b)
  {
    if |a| > 0 {
      assert (a + b)[1..] == a[1..] + b;
      DropConcat(a[1..], b);
    } else {
      assert a + b == b;
    }
  }

  /** Two underscores in a row are rejected. */
  lemma DoubleUnderscoreRejected(a: string, b: string)
    requires IsDigitRun(a) && IsDigitRun(b)
    ensures PyInt(a + ['_', '_'] + b).None?
  {
    var u := a + ['_', '_'] + b;
    assert DoubleUnderscoreAt(u, |a|);
    assert u[0] == a[0] && u[|u| - 1] == b[|b| - 1];
    StripDigitEnded(u);
    assert Unsigned(u) == u;
  }

  /** A sign must be followed by digits, and only one sign is allowed. */
  lemma SignsRejected(c: char, c': char, a: string)
    requires IsSign(c) && IsSign(c') && IsDigitRun(a)
    ensures PyInt([c]).None?
    ensures PyInt([c, c'] + a).None?
  {
    assert Strip([c]) == [c] by { StripTrimmed([c]); }
    var w := [c, c'] + a;
    assert w[|w| - 1] == a[|a| - 1];
    StripDigitEnded(w);
    assert Unsigned(w)[0] == c';
  }

  /** A blank token is no integer. */
  lemma BlankRejected(s: string)
    requires AllSpace(s)
    ensures PyInt(s).None?
  {
    StripPadding(s, [], []);
    assert s + [] + [] == s;
    StripTrimmed([]);
  }

  /** Why the command was refused, in the order the checks run. */
  datatype RtmpError = NotPrivateChat | Usage | InvalidGroupId | InvalidRtmpLink

  /** What an accepted command stores: the target group and the stream link. */
  datatype RtmpTarget = RtmpTarget(groupId: int, link: string)

  const RtmpScheme: string := "rtmp"

  /** The checks of `set_rtmp_cmd` before any side effect. `command` is the
      token list of the message, the command name first. */
  function ValidateSetRtmp(isPrivate: bool, command: seq<string>): (r: Result<RtmpTarget, RtmpError>)
    ensures r == Err(NotPrivateChat) <==> !isPrivate
    ensures r == Err(Usage) <==> isPrivate && |command| < 3
    ensures r == Err(InvalidGroupId) <==> isPrivate && |command| >= 3 && PyInt(command[1]).None?
    ensures r == Err(InvalidRtmpLink) <==>
      isPrivate && |command| >= 3 && PyInt(command[1]).Some? && !StartsWith(command[2], RtmpScheme)
    ensures r.Ok? <==>
      isPrivate && |command| >= 3 && PyInt(command[1]).Some? && StartsWith(command[2], RtmpScheme)
    ensures r.Ok? ==> r.value == RtmpTarget(PyInt(command[1]).value, command[2])
  {
    if !isPrivate then Err(NotPrivateChat)
    else if |command| < 3 then Err(Usage)
    else match PyInt(command[1])
      case None => Err(InvalidGroupId)
      case Some(groupId) =>
        var link := command[2];
        if !StartsWith(link, RtmpScheme) then Err(InvalidRtmpLink)
        else Ok(RtmpTarget(groupId, link))
  }

  /** A command written from a group id and an rtmp link is read back as
      exactly that pair, whatever further tokens follow. */
  lemma SetRtmpAccepts(name: string, groupId: int, link: string, extra: seq<string>)
    requires StartsWith(link, RtmpScheme)
    ensures ValidateSetRtmp(true, [name, IntToDecimal(groupId), link] + extra) == Ok(RtmpTarget(groupId, link))
  {
    IntRoundTrip(groupId);
  }

  /** Tokens after the third never change the outcome. */
  lemma ExtraTokensIgnored(isPrivate: bool, command: seq<string>, extra: seq<string>)
    requires |command| >= 3
    ensures ValidateSetRtmp(isPrivate, command + extra) == ValidateSetRtmp(isPrivate, command)
  {
    assert (command + extra)[1] == command[1] && (command + extra)[2] == command[2];
  }
}
