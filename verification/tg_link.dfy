/** The message-link parser of `download_from_tg_link`: the anchored pattern
    `TG_LINK_RE` and the chat/message identifiers it yields, up to the point
    where the bot asks Telegram for the message. */
module TgLink {
  import opened Wrappers
  import opened Text

  /** The outcome of matching a link: a message in a private channel addressed
      by its numeric chat id, a message in a public chat addressed by username,
      or the `ValueError("Unsupported Telegram link")` path. */
  datatype LinkParse =
    | Internal(chatId: int, msgId: nat)
    | Public(username: string, msgId: nat)
    | Reject

  const HttpsHost := "https://t.me/"
  const HttpHost := "http://t.me/"

  /** `[A-Za-z0-9_]`. */
  predicate IsUsernameChar(c: char) {
    ('A' <= c <= 'Z') || ('a' <= c <= 'z') || ('0' <= c <= '9') || c == '_'
  }

  /** `[A-Za-z0-9_]+`. */
  predicate IsUsername(u: string) {
    |u| > 0 && forall k :: 0 <= k < |u| ==> IsUsernameChar(u[k])
  }

  /** `int(f"-100{internal}")`: the chat id Telegram's client API uses for the
      private channel whose link carries the internal id `internal`. */
  function InternalChatId(internal: nat): (r: int)
    ensures r <= -1000
    ensures NatToDecimal(-r) == "100" + NatToDecimal(internal)
  {
    ChatIdDigits(internal);
    -(100 * Pow10(|NatToDecimal(internal)|) + internal)
  }

  lemma ChatIdDigits(n: nat)
    ensures NatToDecimal(100 * Pow10(|NatToDecimal(n)|) + n) == "100" + NatToDecimal(n)
  {
    DecimalRoundTrip(n);
    ShortDigitsValue("100");
    PrefixDecimal("100", NatToDecimal(n));
  }

  /** What follows `http://t.me/` or `https://t.me/`, when the link starts with either. */
  function AfterHost(t: string): (r: Option<string>)
    ensures r.Some? ==> t == HttpsHost + r.value || t == HttpHost + r.value
    ensures r.None? ==> !StartsWith(t, HttpsHost) && !StartsWith(t, HttpHost)
  {
    if StartsWith(t, HttpsHost) then
      assert t == HttpsHost + t[|HttpsHost|..];
      Some(t[|HttpsHost|..])
    else if StartsWith(t, HttpHost) then
      assert t == HttpHost + t[|HttpHost|..];
      Some(t[|HttpHost|..])
    else None
  }

  /** The `c/(?P<c_id>\d+)/(?P<msg_id>\d+)` alternative, tried first. */
  function InternalPath(p: string): (r: Option<(string, string)>)
    ensures r.Some? ==> IsDigitRun(r.value.0) && IsDigitRun(r.value.1)
    ensures r.Some? ==> p == "c/" + r.value.0 + "/" + r.value.1
  {
    if StartsWith(p, "c/") then
      match SplitFirst(p[2..], '/')
      case Some((d, m)) =>
        if IsDigitRun(d) && IsDigitRun(m) then
          assert p == "c/" + p[2..];
          Some((d, m))
        else None
      case None => None
    else None
  }

  /** The `(?P<user>[A-Za-z0-9_]+)/(?P<msg_id>\d+)` alternative. */
  function PublicPath(p: string): LinkParse {
    match SplitFirst(p, '/')
    case Some((u, m)) =>
      if IsUsername(u) && IsDigitRun(m) then Public(u, DigitsValue(m)) else Reject
    case None => Reject
  }

  /** The path after the host: the first alternative wins when it matches,
      otherwise the pattern backtracks into the second. */
  function ParsePath(p: string): LinkParse {
    match InternalPath(p)
    case Some((d, m)) => Internal(InternalChatId(DigitsValue(d)), DigitsValue(m))
    case None => PublicPath(p)
  }

  /** The anchored match on an already stripped link. Since a stripped string
      never ends in a newline, `$` can only match at the very end. */
  function ParseStripped(t: string): LinkParse {
    match AfterHost(t)
    case None => Reject
    case Some(p) => ParsePath(p)
  }

  /** `TG_LINK_RE.match(link.strip())` and the identifiers built from its groups. */
  function ParseLink(link: string): (r: LinkParse)
    ensures r.Internal? ==> r.chatId <= -1000
    ensures r.Public? ==> IsUsername(r.username)
  {
    ParseStripped(Strip(link))
  }

  // ---------------------------------------------------------------------------
  // Reference description of the accepted links, written as the links themselves.

  /** `http://t.me/` or `https://t.me/`. */
  function Host(secure: bool): string {
    if secure then HttpsHost else HttpHost
  }

  /** `http(s)://t.me/c/<d>/<m>`. */
  function InternalLink(secure: bool, d: string, m: string): string {
    Host(secure) + ("c/" + d + "/" + m)
  }

  /** `http(s)://t.me/<u>/<m>`. */
  function PublicLink(secure: bool, u: string, m: string): string {
    Host(secure) + (u + "/" + m)
  }

  ghost predicate DenotesInternal(t: string, chatId: int, msgId: nat) {
    exists secure: bool, d: string, m: string ::
      && IsDigitRun(d) && IsDigitRun(m)
      && t == InternalLink(secure, d, m)
      && chatId == InternalChatId(DigitsValue(d)) && msgId == DigitsValue(m)
  }

  ghost predicate DenotesPublic(t: string, username: string, msgId: nat) {
    exists secure: bool, m: string ::
      && IsUsername(username) && IsDigitRun(m)
      && t == PublicLink(secure, username, m)
      && msgId == DigitsValue(m)
  }

  ghost predicate IsInternalLink(t: string) {
    exists secure: bool, d: string, m: string ::
      IsDigitRun(d) && IsDigitRun(m) && t == InternalLink(secure, d, m)
  }

  ghost predicate IsPublicLink(t: string) {
    exists secure: bool, u: string, m: string ::
      IsUsername(u) && IsDigitRun(m) && t == PublicLink(secure, u, m)
  }

  /** The language of the pattern. */
  ghost predicate IsTgLink(t: string) {
    IsInternalLink(t) || IsPublicLink(t)
  }

  lemma HostOfLink(secure: bool, rest: string)
    ensures AfterHost(Host(secure) + rest) == Some(rest)
  {
    var t := Host(secure) + rest;
    if secure {
      assert t[..|HttpsHost|] == HttpsHost;
    } else {
      assert t[4] == ':';
      assert !StartsWith(t, HttpsHost) by {
        if |HttpsHost| <= |t| { assert t[..|HttpsHost|][4] != HttpsHost[4]; }
      }
      assert t[..|HttpHost|] == HttpHost;
      assert t[|HttpHost|..] == rest;
    }
  }

  lemma LinkIsTrimmed(secure: bool, rest: string)
    requires |rest| > 0 && !IsSpace(rest[|rest| - 1])
    ensures Strip(Host(secure) + rest) == Host(secure) + rest
  {
    var t := Host(secure) + rest;
    assert t[0] == 'h';
    assert t[|t| - 1] == rest[|rest| - 1];
    StripTrimmed(t);
  }

  lemma NoSlashInUsername(u: string)
    requires IsUsername(u)
    ensures '/' !in u
  {
    assert forall k :: 0 <= k < |u| ==> u[k] != '/';
  }

  lemma NoSlashInDigits(d: string)
    requires AllDigits(d)
    ensures '/' !in d
  {
    assert forall k :: 0 <= k < |d| ==> d[k] != '/';
  }

  lemma ParseStrippedInternal(secure: bool, d: string, m: string)
    requires IsDigitRun(d) && IsDigitRun(m)
    ensures ParseStripped(InternalLink(secure, d, m)) == Internal(InternalChatId(DigitsValue(d)), DigitsValue(m))
  {
    var rest := "c/" + d + "/" + m;
    HostOfLink(secure, rest);
    assert StartsWith(rest, "c/");
    assert rest[2..] == d + ['/'] + m;
    NoSlashInDigits(d);
    SplitFirstOf(d, '/', m);
  }

  lemma ParseStrippedPublic(secure: bool, u: string, m: string)
    requires IsUsername(u) && IsDigitRun(m)
    ensures ParseStripped(PublicLink(secure, u, m)) == Public(u, DigitsValue(m))
  {
    var rest := u + "/" + m;
    HostOfLink(secure, rest);
    NoSlashInUsername(u);
    assert rest == u + ['/'] + m;
    SplitFirstOf(u, '/', m);
    PublicPathNotInternal(u, m);
  }

  lemma PublicPathNotInternal(u: string, m: string)
    requires IsUsername(u) && IsDigitRun(m)
    ensures InternalPath(u + "/" + m) == None
  {
    var rest := u + "/" + m;
    if |u| == 1 {
      assert rest[2..] == m;
      NoSlashInDigits(m);
    } else {
      assert rest[1] == u[1];
      assert rest[..2][1] == rest[1];
    }
  }

  /** Every `c/<digits>/<digits>` link parses to the private-channel form, with
      the chat id built from the value of the internal id and the message id
      read as a decimal number. */
  lemma ParseInternalLink(secure: bool, d: string, m: string)
    requires IsDigitRun(d) && IsDigitRun(m)
    ensures ParseLink(InternalLink(secure, d, m)) == Internal(InternalChatId(DigitsValue(d)), DigitsValue(m))
  {
    var rest := "c/" + d + "/" + m;
    assert rest[|rest| - 1] == m[|m| - 1];
    LinkIsTrimmed(secure, rest);
    ParseStrippedInternal(secure, d, m);
  }

  /** Every `<username>/<digits>` link parses to the public form. This includes
      the username `c`: `https://t.me/c/123` has no second number, so the first
      alternative fails and the pattern backtracks to read `c` as a username. */
  lemma ParsePublicLink(secure: bool, u: string, m: string)
    requires IsUsername(u) && IsDigitRun(m)
    ensures ParseLink(PublicLink(secure, u, m)) == Public(u, DigitsValue(m))
  {
    var rest := u + "/" + m;
    assert rest[|rest| - 1] == m[|m| - 1];
    LinkIsTrimmed(secure, rest);
    ParseStrippedPublic(secure, u, m);
  }

  /** What the parser returns on a stripped link is justified by the link's shape. */
  lemma ParseStrippedSound(t: string)
    ensures ParseStripped(t).Internal? ==> DenotesInternal(t, ParseStripped(t).chatId, ParseStripped(t).msgId)
    ensures ParseStripped(t).Public? ==> DenotesPublic(t, ParseStripped(t).username, ParseStripped(t).msgId)
  {
    match AfterHost(t)
    case None =>
    case Some(p) =>
      var secure := StartsWith(t, HttpsHost);
      assert t == Host(secure) + p;
      match InternalPath(p)
      case Some((d, m)) =>
        assert t == InternalLink(secure, d, m);
      case None =>
        match SplitFirst(p, '/')
        case Some((u, m)) =>
          if IsUsername(u) && IsDigitRun(m) {
            assert t == PublicLink(secure, u, m);
          }
        case None =>
  }

  /** A stripped link of the accepted shape is never rejected. */
  lemma ParseStrippedComplete(t: string)
    requires IsTgLink(t)
    ensures !ParseStripped(t).Reject?
  {
    if IsInternalLink(t) {
      var secure: bool, d: string, m: string :| IsDigitRun(d) && IsDigitRun(m) && t == InternalLink(secure, d, m);
      ParseStrippedInternal(secure, d, m);
    } else {
      var secure: bool, u: string, m: string :| IsUsername(u) && IsDigitRun(m) && t == PublicLink(secure, u, m);
      ParseStrippedPublic(secure, u, m);
    }
  }

  /** The parser against the reference description: the link is rejected
      exactly when its stripped form is not of either shape, and an accepted
      link's identifiers are those its shape denotes. */
  lemma ParseLinkSpec(link: string)
    ensures ParseLink(link).Reject? <==> !IsTgLink(Strip(link))
    ensures ParseLink(link).Internal? ==> DenotesInternal(Strip(link), ParseLink(link).chatId, ParseLink(link).msgId)
    ensures ParseLink(link).Public? ==> DenotesPublic(Strip(link), ParseLink(link).username, ParseLink(link).msgId)
  {
    var t := Strip(link);
    ParseStrippedSound(t);
    if IsTgLink(t) {
      ParseStrippedComplete(t);
    }
  }

  /** Whitespace around a link never changes the outcome. */
  lemma ParsePadding(pre: string, link: string, post: string)
    requires AllSpace(pre) && AllSpace(post)
    ensures ParseLink(pre + link + post) == ParseLink(link)
  {
    StripPadding(pre, link, post);
  }

  /** Leading zeros of the internal id are dropped before `-100` is prefixed. */
  lemma InternalLeadingZeros(secure: bool, zeros: string, d: string, m: string)
    requires |zeros| > 0 && forall k :: 0 <= k < |zeros| ==> zeros[k] == '0'
    requires IsDigitRun(d) && IsDigitRun(m)
    ensures ParseLink(InternalLink(secure, zeros + d, m)) == ParseLink(InternalLink(secure, d, m))
  {
    assert AllDigits(zeros + d) by {
      forall k | 0 <= k < |zeros + d| ensures IsAsciiDigit((zeros + d)[k]) {
        if k < |zeros| { assert (zeros + d)[k] == zeros[k]; } else { assert (zeros + d)[k] == d[k - |zeros|]; }
      }
    }
    LeadingZerosIgnored(zeros, d);
    ParseInternalLink(secure, zeros + d, m);
    ParseInternalLink(secure, d, m);
  }

  /** For an internal id written without leading zeros, the chat id is
      literally `-100` followed by the id's digits. */
  lemma InternalChatIdText(secure: bool, d: string, m: string)
    requires IsCanonicalDecimal(d) && IsDigitRun(m)
    ensures ParseLink(InternalLink(secure, d, m)).Internal?
    ensures IntToDecimal(ParseLink(InternalLink(secure, d, m)).chatId) == "-100" + d
  {
    ParseInternalLink(secure, d, m);
    var v := DigitsValue(d);
    CanonicalRoundTrip(d);
    NegativeText(InternalChatId(v), NatToDecimal(v));
  }

  lemma NegativeText(c: int, t: string)
    requires c < 0 && NatToDecimal(-c) == "100" + t
    ensures IntToDecimal(c) == "-100" + t
  {
    assert "-" + ("100" + t) == "-100" + t;
  }

  lemma NineDigits()
    ensures DigitsValue("123456789") == 123456789
  {
    var a, b, c := "123", "456", "789";
    ShortDigitsValue(a);
    ShortDigitsValue(b);
    ShortDigitsValue(c);
    DigitsValueConcat(a, b);
    DigitsValueConcat(a + b, c);
    assert Pow10(3) == 1000;
    assert a + b + c == "123456789";
  }

  /** `https://t.me/c/123456789/45` addresses message 45 of chat -100123456789. */
  lemma ExampleInternal()
    ensures ParseLink("https://t.me/c/123456789/45") == Internal(-100123456789, 45)
  {
    assert "https://t.me/c/123456789/45" == InternalLink(true, "123456789", "45");
    ParseInternalLink(true, "123456789", "45");
    NineDigits();
    assert DigitsValue("45") == 45;
    ExampleChatId();
  }

  lemma ExampleChatId()
    ensures InternalChatId(123456789) == -100123456789
  {
    NineDigits();
    CanonicalRoundTrip("123456789");
    assert |NatToDecimal(123456789)| == 9;
    assert Pow10(9) == 1000000000;
  }

  /** `https://t.me/username/123` addresses message 123 of the chat `username`. */
  lemma ExamplePublic()
    ensures ParseLink("https://t.me/username/123") == Public("username", 123)
  {
    assert "https://t.me/username/123" == PublicLink(true, "username", "123");
    ParsePublicLink(true, "username", "123");
    ShortDigitsValue("123");
  }

  /** A private-channel link without a message number backtracks into the
      username alternative: `https://t.me/c/123` is message 123 of the chat `c`. */
  lemma ShortInternalLinkIsPublic(secure: bool, m: string)
    requires IsDigitRun(m)
    ensures ParseLink(Host(secure) + ("c/" + m)) == Public("c", DigitsValue(m))
  {
    assert "c/" + m == "c" + "/" + m;
    ParsePublicLink(secure, "c", m);
  }

  /** A link without a message number is rejected. */
  lemma MissingMessageRejected(secure: bool, u: string)
    requires IsUsername(u)
    ensures ParseLink(Host(secure) + u) == Reject
  {
    assert IsUsernameChar(u[|u| - 1]);
    ParseLinkOfPath(secure, u);
    NoSlashInUsername(u);
    if |u| >= 2 { assert u[..2][1] == u[1]; }
  }

  /** A path segment after the message number is rejected for every username
      other than `c`. With `c` the link is a private-channel link when the extra
      segment is a digit run, and it is rejected otherwise. Whitespace at the
      end of the segment is stripped off first and does not change this. */
  lemma {:induction false} ExtraSegmentRejected(secure: bool, u: string, m: string, x: string)
    requires IsUsername(u) && u != "c" && IsDigitRun(m)
    ensures ParseLink(PublicLink(secure, u, m) + "/" + x) == Reject
    decreases |x|
  {
    if x != [] && IsSpace(x[|x| - 1]) {
      var y := x[..|x| - 1];
      var shorter := PublicLink(secure, u, m) + "/" + y;
      assert PublicLink(secure, u, m) + "/" + x == [] + shorter + [x[|x| - 1]];
      ParsePadding([], shorter, [x[|x| - 1]]);
      ExtraSegmentRejected(secure, u, m, y);
    } else {
      TrimmedSegmentRejected(secure, u, m, x);
    }
  }

  lemma TrimmedSegmentRejected(secure: bool, u: string, m: string, x: string)
    requires IsUsername(u) && u != "c" && IsDigitRun(m)
    requires x == [] || !IsSpace(x[|x| - 1])
    ensures ParseLink(PublicLink(secure, u, m) + "/" + x) == Reject
  {
    var tail := m + "/" + x;
    SegmentLinkShape(secure, u, m, x);
    ParseLinkOfPath(secure, u + "/" + tail);
    ExtraSegmentPath(u, tail, |m|);
  }

  lemma SegmentLinkShape(secure: bool, u: string, m: string, x: string)
    requires x == [] || !IsSpace(x[|x| - 1])
    ensures PublicLink(secure, u, m) + "/" + x == Host(secure) + (u + "/" + (m + "/" + x))
    ensures !IsSpace((u + "/" + (m + "/" + x))[|u + "/" + (m + "/" + x)| - 1])
  {
    var rest := u + "/" + (m + "/" + x);
    assert rest[|rest| - 1] == (if x == [] then '/' else x[|x| - 1]);
  }

  lemma ExtraSegmentPath(u: string, tail: string, i: nat)
    requires IsUsername(u) && u != "c"
    requires i < |tail| && tail[i] == '/'
    ensures ParsePath(u + "/" + tail) == Reject
  {
    var rest := u + "/" + tail;
    NoSlashInUsername(u);
    assert rest == u + ['/'] + tail;
    SplitFirstOf(u, '/', tail);
    assert !IsDigitRun(tail) by { assert !IsAsciiDigit(tail[i]); }
    if |u| >= 2 {
      assert rest[..2][1] == u[1];
    } else {
      assert rest[..2][0] == u[0] != 'c';
    }
  }

  /** On a link with a non-space end, parsing is parsing the path after the host. */
  lemma ParseLinkOfPath(secure: bool, rest: string)
    requires |rest| > 0 && !IsSpace(rest[|rest| - 1])
    ensures ParseLink(Host(secure) + rest) == ParsePath(rest)
  {
    LinkIsTrimmed(secure, rest);
    HostOfLink(secure, rest);
  }
}
