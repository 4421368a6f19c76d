/** `extract_tg_link_from_response`: finding the Telegram message link in the
    body of the resolution API's reply, first among the values of a decoded
    JSON object, then anywhere in the raw text. */
module LinkExtract {
  import opened Wrappers
  import opened Text
  import TgLink

  /** A value produced by `response.json()`. Only whether a number is zero
      matters here, so numbers are kept as reals. */
  datatype Json =
    | JNull
    | JBool(b: bool)
    | JNumber(n: real)
    | JString(s: string)
    | JArray(items: seq<Json>)
    | JObject(fields: map<string, Json>)

  /** Python truthiness of a decoded JSON value: `if resp_json:`. */
  predicate Truthy(j: Json) {
    match j
    case JNull => false
    case JBool(b) => b
    case JNumber(n) => n != 0.0
    case JString(s) => |s| > 0
    case JArray(items) => |items| > 0
    case JObject(fields) => |fields| > 0
  }

  /** The falsy JSON values are exactly the six Python treats as false. */
  lemma FalsyValues(j: Json)
    ensures !Truthy(j) <==>
      j in {JNull, JBool(false), JNumber(0.0), JString([]), JArray([]), JObject(map[])}
  {
    match j
    case JArray(items) => assert items == [] <==> |items| == 0;
    case JObject(fields) => assert fields == map[] <==> |fields| == 0;
    case _ =>
  }

  /** The keys tried, in order. */
  const LinkKeys: seq<string> := ["channel_link", "link", "url", "telegram"]

  /** The substring a value must contain to be taken as a link. */
  const TgMarker: string := "t.me"

  /** `isinstance(resp_json.get(key), str) and "t.me" in resp_json.get(key)`. */
  predicate Qualifies(fields: map<string, Json>, key: string) {
    key in fields && fields[key].JString? && Contains(fields[key].s, TgMarker)
  }

  /** The position of the first key, from `from` on, whose value qualifies. */
  function FirstQualifying(fields: map<string, Json>, keys: seq<string>, from: nat): (r: Option<nat>)
    requires from <= |keys|
    ensures r.Some? ==> from <= r.value < |keys| && Qualifies(fields, keys[r.value])
    ensures r.Some? ==> forall k :: from <= k < r.value ==> !Qualifies(fields, keys[k])
    ensures r.None? ==> forall k :: from <= k < |keys| ==> !Qualifies(fields, keys[k])
    decreases |keys| - from
  {
    if from == |keys| then None
    else if Qualifies(fields, keys[from]) then Some(from)
    else FirstQualifying(fields, keys, from + 1)
  }

  /** The stripped value of the first qualifying key, if any. */
  function KeyedLink(fields: map<string, Json>): (r: Option<string>)
    ensures r.Some? ==> Contains(r.value, TgMarker)
  {
    match FirstQualifying(fields, LinkKeys, 0)
    case None => None
    case Some(i) =>
      var v := fields[LinkKeys[i]].s;
      StripKeepsContains(v, TgMarker);
      Some(Strip(v))
  }

  // ---------------------------------------------------------------------------
  // The fallback `re.search(r"https?://t\.me/[^\s\"'>]+", resp_text)`.

  /** `[^\s"'>]`. */
  predicate LinkChar(c: char) {
    !IsSpace(c) && c != '"' && c != '\'' && c != '>'
  }

  predicate AllLinkChars(text: string, a: nat, b: nat)
    requires a <= b <= |text|
  {
    forall k :: a <= k < b ==> LinkChar(text[k])
  }

  predicate HasAt(text: string, i: nat, p: string) {
    i + |p| <= |text| && text[i .. i + |p|] == p
  }

  /** `text[i..j]` is a match of the pattern. */
  ghost predicate MatchSpan(text: string, i: nat, j: nat) {
    || (HasAt(text, i, TgLink.HttpsHost) && i + |TgLink.HttpsHost| < j <= |text|
        && AllLinkChars(text, i + |TgLink.HttpsHost|, j))
    || (HasAt(text, i, TgLink.HttpHost) && i + |TgLink.HttpHost| < j <= |text|
        && AllLinkChars(text, i + |TgLink.HttpHost|, j))
  }

  /** Length of the `https?://t\.me/` head of a match starting at `i`, or 0
      when no match starts there. */
  function HeadLen(text: string, i: nat): (n: nat)
  {
    var long, short := |TgLink.HttpsHost|, |TgLink.HttpHost|;
    if HasAt(text, i, TgLink.HttpsHost) && i + long < |text| && LinkChar(text[i + long]) then long
    else if HasAt(text, i, TgLink.HttpHost) && i + short < |text| && LinkChar(text[i + short]) then short
    else 0
  }

  /** End of the maximal run of link characters starting at `j` (the greedy `+`). */
  function RunEnd(text: string, j: nat): (e: nat)
    requires j <= |text|
    ensures j <= e <= |text|
    ensures AllLinkChars(text, j, e)
    ensures e == |text| || !LinkChar(text[e])
    decreases |text| - j
  {
    if j < |text| && LinkChar(text[j]) then RunEnd(text, j + 1) else j
  }

  /** The first position, from `from` on, where a match starts. */
  function LeftmostStart(text: string, from: nat): (r: Option<nat>)
    requires from <= |text|
    ensures r.Some? ==> from <= r.value < |text| && HeadLen(text, r.value) > 0
    ensures r.Some? ==> forall k :: from <= k < r.value ==> HeadLen(text, k) == 0
    ensures r.None? ==> forall k :: from <= k < |text| ==> HeadLen(text, k) == 0
    decreases |text| - from
  {
    if from == |text| then None
    else if HeadLen(text, from) > 0 then Some(from)
    else LeftmostStart(text, from + 1)
  }

  /** Bounds of the leftmost, longest match. */
  function ScanSpan(text: string): (r: Option<(nat, nat)>)
    ensures r.Some? ==> r.value.0 < r.value.1 <= |text|
  {
    match LeftmostStart(text, 0)
    case None => None
    case Some(i) => Some((i, RunEnd(text, i + HeadLen(text, i))))
  }

  /** `m.group(0)` of the search, or `None`: a piece of the text that starts
      with one of the two hosts and contains `t.me`. */
  function ScanText(text: string): (r: Option<string>)
    ensures r.Some? ==> StartsWith(r.value, TgLink.HttpsHost) || StartsWith(r.value, TgLink.HttpHost)
    ensures r.Some? ==> Contains(r.value, TgMarker)
    ensures r.Some? ==> Contains(text, r.value)
  {
    match ScanSpan(text)
    case None => None
    case Some((i, j)) =>
      HeadLenSpan(text, i);
      MatchShape(text, i, j);
      Some(text[i .. j])
  }

  lemma MatchShape(text: string, i: nat, j: nat)
    requires MatchSpan(text, i, j)
    ensures StartsWith(text[i .. j], TgLink.HttpsHost) || StartsWith(text[i .. j], TgLink.HttpHost)
    ensures Contains(text[i .. j], TgMarker)
    ensures Contains(text, text[i .. j])
  {
    var w := text[i .. j];
    assert OccursAt(text, w, i);
    HostsCarryMarker();
    if HasAt(text, i, TgLink.HttpsHost) && i + |TgLink.HttpsHost| < j {
      HostMarker(text, i, j, TgLink.HttpsHost, 8, TgMarker);
    } else {
      HostMarker(text, i, j, TgLink.HttpHost, 7, TgMarker);
    }
  }

  lemma HostsCarryMarker()
    ensures |TgLink.HttpsHost| == 13 && TgLink.HttpsHost[8 .. 12] == TgMarker
    ensures |TgLink.HttpHost| == 12 && TgLink.HttpHost[7 .. 11] == TgMarker
    ensures TgLink.HttpsHost[4] == 's' && TgLink.HttpHost[4] == ':'
  {
  }

  lemma HostMarker(text: string, i: nat, j: nat, host: string, at: nat, mark: string)
    requires HasAt(text, i, host) && i + |host| <= j <= |text|
    requires at + |mark| <= |host| && host[at .. at + |mark|] == mark
    ensures StartsWith(text[i .. j], host)
    ensures OccursAt(text[i .. j], mark, at)
  {
    var w := text[i .. j];
    forall k | 0 <= k < |host| ensures w[k] == host[k] {
      assert w[k] == text[i + k] == text[i .. i + |host|][k];
    }
    assert w[..|host|] == host;
    forall k | 0 <= k < |mark| ensures w[at + k] == mark[k] {
      assert host[at .. at + |mark|][k] == host[at + k];
    }
    assert w[at .. at + |mark|] == mark;
  }

  /** A match can start at `i` exactly when `HeadLen` finds a head there, and
      then it ends no later than the greedy run. */
  lemma HeadLenMatches(text: string, i: nat, j: nat)
    ensures MatchSpan(text, i, j) ==> HeadLen(text, i) > 0 && j <= RunEnd(text, i + HeadLen(text, i))
  {
    if MatchSpan(text, i, j) {
      HostsCarryMarker();
      HostsExclusive(text, i);
      var h := HeadLen(text, i);
      assert LinkChar(text[i + h]);
      var e := RunEnd(text, i + h);
      assert e < |text| ==> !LinkChar(text[e]);
    }
  }

  /** No position starts with both hosts: they differ at index 4. */
  lemma HostsExclusive(text: string, i: nat)
    ensures !(HasAt(text, i, TgLink.HttpsHost) && HasAt(text, i, TgLink.HttpHost))
  {
    HostsCarryMarker();
    if HasAt(text, i, TgLink.HttpsHost) && i + 12 <= |text| {
      assert text[i .. i + 12][4] == text[i + 4] == text[i .. i + 13][4];
    }
  }

  lemma HeadLenSpan(text: string, i: nat)
    requires i < |text| && HeadLen(text, i) > 0
    ensures MatchSpan(text, i, RunEnd(text, i + HeadLen(text, i)))
  {
    var h := HeadLen(text, i);
    var e := RunEnd(text, i + h);
    assert LinkChar(text[i + h]);
  }

  /** The scan returns the leftmost match and, among the matches starting
      there, the longest; it finds nothing exactly when there is no match. */
  lemma ScanLeftmostLongest(text: string)
    ensures ScanSpan(text).None? <==> forall i: nat, j: nat :: !MatchSpan(text, i, j)
    ensures ScanSpan(text).Some? ==> MatchSpan(text, ScanSpan(text).value.0, ScanSpan(text).value.1)
    ensures ScanSpan(text).Some? ==> forall i: nat, j: nat :: MatchSpan(text, i, j) ==>
      ScanSpan(text).value.0 <= i && (i == ScanSpan(text).value.0 ==> j <= ScanSpan(text).value.1)
  {
    forall i: nat, j: nat | MatchSpan(text, i, j)
      ensures ScanSpan(text).Some? && ScanSpan(text).value.0 <= i
      ensures i == ScanSpan(text).value.0 ==> j <= ScanSpan(text).value.1
    {
      HeadLenMatches(text, i, j);
    }
    match LeftmostStart(text, 0)
    case None =>
    case Some(i) =>
      HeadLenSpan(text, i);
  }

  // ---------------------------------------------------------------------------
  // The whole extraction.

  /** What the handler can observe of the call: a link or `None`, or the
      `AttributeError` raised by `.get` on a decoded value that is not an object. */
  datatype Extraction = Extracted(link: Option<string>) | Raised

  /** The function as written: any truthy decoded value is treated as a
      dictionary. */
  function ExtractAsWritten(respText: string, respJson: Option<Json>): (r: Extraction)
    ensures r == Raised <==> respJson.Some? && Truthy(respJson.value) && !respJson.value.JObject?
    ensures r.Extracted? && r.link.Some? ==> Contains(r.link.value, TgMarker)
  {
    if respJson.Some? && Truthy(respJson.value) then
      match respJson.value
      case JObject(fields) =>
        (match KeyedLink(fields)
         case Some(v) => Extracted(Some(v))
         case None => Extracted(ScanText(respText)))
      case _ => Raised
    else Extracted(ScanText(respText))
  }

  /** The keyed lookup applies only to a decoded JSON object. */
  function JsonFields(respJson: Option<Json>): map<string, Json> {
    if respJson.Some? && respJson.value.JObject? then respJson.value.fields else map[]
  }

  /** The extraction as documented: keyed lookup on a JSON object, otherwise
      the text scan; it never raises. */
  function ExtractLink(respText: string, respJson: Option<Json>): (r: Option<string>)
    ensures r.Some? ==> Contains(r.value, TgMarker)
  {
    match KeyedLink(JsonFields(respJson))
    case Some(v) => Some(v)
    case None => ScanText(respText)
  }

  /** `LinkKeys[i]` is the first key whose value qualifies. */
  ghost predicate FirstQualifyingKey(fields: map<string, Json>, i: int) {
    && 0 <= i < |LinkKeys|
    && Qualifies(fields, LinkKeys[i])
    && forall k :: 0 <= k < i ==> !Qualifies(fields, LinkKeys[k])
  }

  /** The keys are tried in order: the first whose value is a string
      containing `t.me` decides, and its value is returned stripped. Only when
      no key qualifies is the text scanned. */
  lemma ExtractLinkSpec(respText: string, respJson: Option<Json>)
    ensures forall i :: FirstQualifyingKey(JsonFields(respJson), i) ==>
      ExtractLink(respText, respJson) == Some(Strip(JsonFields(respJson)[LinkKeys[i]].s))
    ensures (forall i :: 0 <= i < |LinkKeys| ==> !Qualifies(JsonFields(respJson), LinkKeys[i])) ==>
      ExtractLink(respText, respJson) == ScanText(respText)
  {
    var f := JsonFields(respJson);
    match FirstQualifying(f, LinkKeys, 0)
    case None =>
    case Some(first) =>
      forall i | FirstQualifyingKey(f, i)
        ensures i == first
      {
        assert !(first < i);
        assert !(i < first);
      }
  }

  /** A qualifying `channel_link` wins whatever the other keys and the text hold. */
  lemma ChannelLinkFirst(respText: string, fields: map<string, Json>)
    requires Qualifies(fields, "channel_link")
    ensures ExtractLink(respText, Some(JObject(fields))) == Some(Strip(fields["channel_link"].s))
  {
    ExtractLinkSpec(respText, Some(JObject(fields)));
    assert FirstQualifyingKey(fields, 0);
  }

  /** With no decoded JSON, or one that is empty or not an object, only the text counts. */
  lemma NoObjectScansText(respText: string, respJson: Option<Json>)
    requires respJson.None? || !respJson.value.JObject? || respJson.value.fields == map[]
    ensures ExtractLink(respText, respJson) == ScanText(respText)
  {
    ExtractLinkSpec(respText, respJson);
  }

  /** Where the code as written does not raise, it agrees with the documented extraction. */
  lemma AsWrittenAgrees(respText: string, respJson: Option<Json>)
    ensures ExtractAsWritten(respText, respJson) != Raised ==>
      ExtractAsWritten(respText, respJson) == Extracted(ExtractLink(respText, respJson))
    ensures ExtractAsWritten(respText, respJson) == Raised <==>
      respJson.Some? && Truthy(respJson.value) && !respJson.value.JObject?
  {
    if respJson.Some? && respJson.value.JObject? && !Truthy(respJson.value) {
      assert respJson.value.fields == map[];
      assert FirstQualifying(map[], LinkKeys, 0) == None;
    }
  }

  /** A reply whose body decodes to a non-empty JSON array makes the code as
      written raise, although the text holds a link that the documented
      fallback finds. */
  lemma ArrayReplyRaises(respText: string, items: seq<Json>)
    requires |items| > 0
    ensures ExtractAsWritten(respText, Some(JArray(items))) == Raised
    ensures ExtractLink(respText, Some(JArray(items))) == ScanText(respText)
  {
  }
}
