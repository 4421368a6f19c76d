# Stream-bot link handling and validators, in Dafny

This project models the pure decision logic of the `/playstream` and
`/setrtmp` features of the BABYMUSIC Telegram music bot, and of its thumbnail
helper:

- `TG_LINK_RE` and the parse half of `download_from_tg_link`
  (`BABYMUSIC/plugins/play/playstream.py`). A `t.me` message link is stripped
  of whitespace and matched against the anchored pattern
  `^https?://t\.me/(?:c/<digits>|<[A-Za-z0-9_]+>)/<digits>$`. It becomes either
  a private-channel message (chat id `int(f"-100{internal}")`, message id) or a
  public-chat message (username, message id). Anything else is rejected.
  This is module `TgLink`.
- `extract_tg_link_from_response`. The keys `channel_link`, `link`, `url`
  and `telegram` are tried, in that order, on the decoded JSON reply. The first
  string value containing `t.me` is returned, stripped. Otherwise the raw text
  is searched for `https?://t\.me/[^\s"'>]+`. This is module `LinkExtract`.
- The argument checks of `set_rtmp_cmd`, in order:
  - private chat;
  - at least three tokens;
  - `int()` of the group id;
  - an `rtmp` prefix on the link.

  Python's `int()` on a `str` is modelled along with them. `int()` skips
  less whitespace than `strip()`: only ASCII whitespace and the non-ASCII
  `str.isspace` characters. The information separators U+001C to U+001F count
  as whitespace for `str.isspace`, but `int()` fails on any token that contains
  one. This is module `SetRtmp`.
- The result picking of `youtube_search_first_vidid`. The first hit must have
  a non-empty id. The title falls back to `"Unknown Title"`. This is module
  `VideoSearch`.
- `get_thumb` (`BABYMUSIC/utils/thumbnails.py`): string formatting of the
  `hqdefault.jpg` address. This is module `Thumbnails`.

Supporting modules:

- `Wrappers` holds `Option` and `Result`.
- `Text` holds Python's view of strings:
  - the whitespace set of `str.isspace`, shared by `str.strip()` and the
    regular-expression class `\s`;
  - `strip()`;
  - substring search;
  - ASCII decimal reading and writing (`int(s)` on a digit run, and `str(n)`).

Each operation is paired with an independent description:

- For the link parser, the accepted links are described as the strings
  `Host(secure) + "c/" + d + "/" + m` and `Host(secure) + u + "/" + m`.
  `TgLink.ParseLinkSpec` proves that the parser rejects exactly the other
  strings. It also proves the parser returns the identifiers those shapes
  denote.
- For the text scan, the matches are described as spans of the text (`MatchSpan`). The scan is
  proved to return the leftmost and, there, longest one.
- `int()` is tied to `str()` by a round trip.
- `get_thumb` is tied to an inverse that reads the video id back.

A `c/` link does not always take the private-channel branch. The first
alternative is tried first, so `c/<digits>/<digits>` is always a private-channel
link. But `https://t.me/c/123` has no second number, so the first alternative
fails. The regular expression then backtracks and reads `c` as a username,
which gives message 123 of the chat `c` (`TgLink.ShortInternalLinkIsPublic`).
The model follows the pattern here.

## Model

| member | source | states |
|---|---|---|
| TgLink.ParseLink | BABYMUSIC/plugins/play/playstream.py:68-80 | the parse of a link: a private-channel chat id is at most -1000, and a public chat's username is a non-empty `[A-Za-z0-9_]` run |
| TgLink.InternalChatId | BABYMUSIC/plugins/play/playstream.py:73-74 | the private-channel chat id is at most -1000, and its decimal form is `100` followed by the decimal form of the internal id, i.e. `int(f"-100{internal}")` |
| TgLink.ParseInternalLink | BABYMUSIC/plugins/play/playstream.py:55-75 | every `http(s)://t.me/c/<D>/<M>` with digit runs D and M parses to chat id `-100` followed by `str(int(D))` and message id `int(M)` |
| TgLink.ParsePublicLink | BABYMUSIC/plugins/play/playstream.py:55-80 | every `http(s)://t.me/<U>/<M>` with U a non-empty `[A-Za-z0-9_]` run and M a digit run parses to username U and message id `int(M)`, including U = `c` |
| TgLink.ParseLinkSpec | BABYMUSIC/plugins/play/playstream.py:55-70 | the pattern is anchored at both ends: a link is rejected if and only if its stripped form is not one of the two accepted shapes; an accepted link yields exactly the identifiers its shape denotes |
| TgLink.ParsePadding | BABYMUSIC/plugins/play/playstream.py:68 | whitespace padding on either side never changes the parse result |
| TgLink.InternalLeadingZeros | BABYMUSIC/plugins/play/playstream.py:72-74 | leading zeros of the internal id are dropped by `int()` before `-100` is prefixed, so they never change the chat id |
| TgLink.InternalChatIdText | BABYMUSIC/plugins/play/playstream.py:72-74 | for an internal id written without leading zeros, `str(chat_id)` is literally `-100` followed by the id's digits |
| TgLink.ExampleInternal | BABYMUSIC/plugins/play/playstream.py:64 | the documented example `https://t.me/c/123456789/45` gives chat -100123456789, message 45 |
| TgLink.ExamplePublic | BABYMUSIC/plugins/play/playstream.py:63 | the documented example `https://t.me/username/123` gives chat `username`, message 123 |
| TgLink.ShortInternalLinkIsPublic | BABYMUSIC/plugins/play/playstream.py:56 | `http(s)://t.me/c/<M>` is read through the username alternative as message M of the chat `c` |
| TgLink.MissingMessageRejected | BABYMUSIC/plugins/play/playstream.py:56-70 | a link with a username but no message number is rejected |
| TgLink.ExtraSegmentRejected | BABYMUSIC/plugins/play/playstream.py:56-70 | a link with a path segment after the message number is rejected (for every username other than `c`) |
| LinkExtract.FalsyValues | BABYMUSIC/plugins/play/playstream.py:96 | `if resp_json:` fails exactly for `null`, `false`, the number zero, the empty string, the empty array and the empty object |
| LinkExtract.FirstQualifying | BABYMUSIC/plugins/play/playstream.py:97-99 | finds the first key in the list whose value is a string containing `t.me`; no earlier key qualifies, and none qualifies when it finds nothing |
| LinkExtract.KeyedLink | BABYMUSIC/plugins/play/playstream.py:96-100 | a value returned from the keyed lookup still contains `t.me` after stripping |
| LinkExtract.ScanText | BABYMUSIC/plugins/play/playstream.py:102-104 | a link found in the raw text starts with `https://t.me/` or `http://t.me/`, contains `t.me` and is a piece of the text |
| LinkExtract.ScanLeftmostLongest | BABYMUSIC/plugins/play/playstream.py:102-106 | the text scan finds nothing exactly when the pattern matches nowhere; otherwise it returns a match that starts leftmost and is the longest match starting there |
| LinkExtract.ExtractAsWritten | BABYMUSIC/plugins/play/playstream.py:96-106 | the code as written: it raises exactly when the decoded reply is truthy and not a JSON object, and any link it returns contains `t.me` |
| LinkExtract.ExtractLink | BABYMUSIC/plugins/play/playstream.py:91-106 | the extraction as the docstring and the `dict \| None` annotation describe it, which corrects lines 96-98: it never raises on any decoded reply, and whatever it returns contains `t.me` |
| LinkExtract.ExtractLinkSpec | BABYMUSIC/plugins/play/playstream.py:96-106 | the first key whose value is a string containing `t.me` decides and its value comes back stripped; when no key qualifies the result is the text scan |
| LinkExtract.ChannelLinkFirst | BABYMUSIC/plugins/play/playstream.py:97-100 | a qualifying `channel_link` wins over every other key and over the text |
| LinkExtract.NoObjectScansText | BABYMUSIC/plugins/play/playstream.py:96-104 | with no JSON, an empty one or one that is not an object, only the text is scanned |
| LinkExtract.AsWrittenAgrees | BABYMUSIC/plugins/play/playstream.py:96-106 | the code as written raises exactly when the decoded reply is truthy and not an object, and agrees with the documented extraction otherwise |
| LinkExtract.ArrayReplyRaises | BABYMUSIC/plugins/play/playstream.py:96-98 | a reply decoding to a non-empty JSON array makes the code as written raise, where the documented behaviour scans the text |
| Text.Strip | BABYMUSIC/plugins/play/playstream.py:68 | `link.strip()`, and `val.strip()` at line 100: the result has no `str.isspace` character at either end and is no longer than the input; with `StripUnique` it is the only such piece of the input that has nothing but whitespace around it |
| Text.StripUnique | BABYMUSIC/plugins/play/playstream.py:68 | any trimmed piece of a string with only whitespace before and after it is that string's `strip()`, so the model removes exactly what Python's `str.strip()` removes |
| Text.StripPadding | BABYMUSIC/plugins/play/playstream.py:68 | `strip()` ignores whitespace padding on either side |
| Text.StripKeepsContains | BABYMUSIC/plugins/play/playstream.py:99-100 | stripping a value that contains `t.me` keeps `t.me` in it |
| SetRtmp.ValidateSetRtmp | BABYMUSIC/plugins/play/playstream.py:127-140 | the checks run in the order private chat, at least three tokens, integer group id, `rtmp` prefix; each error is returned exactly when the earlier checks pass and its own fails; acceptance yields `int(command[1])` and `command[2]` |
| SetRtmp.SetRtmpAccepts | BABYMUSIC/plugins/play/playstream.py:130-140 | a command built from any integer group id and any link starting with `rtmp` is accepted and gives back exactly that id and link, whatever tokens follow |
| SetRtmp.ExtraTokensIgnored | BABYMUSIC/plugins/play/playstream.py:130-138 | tokens after the third never change the outcome |
| SetRtmp.PyInt | BABYMUSIC/plugins/play/playstream.py:134 | `int()` accepts only text without an information separator whose stripped form ends in a digit, and a negative value only after a leading `-` |
| SetRtmp.IntRoundTrip | BABYMUSIC/plugins/play/playstream.py:134 | `int(str(n)) == n` for every integer n |
| SetRtmp.PyIntPadding | BABYMUSIC/plugins/play/playstream.py:134 | whitespace that `int()` skips (`str.isspace` characters other than U+001C to U+001F), put around the group id token, does not change its value |
| SetRtmp.InfoSeparatorRejected | BABYMUSIC/plugins/play/playstream.py:134-136 | an information separator in front of a number is removed by `strip()`, yet makes the group id invalid |
| SetRtmp.UnderscoreIgnored | BABYMUSIC/plugins/play/playstream.py:134 | one underscore between digit runs is accepted and ignored |
| SetRtmp.DoubleUnderscoreRejected | BABYMUSIC/plugins/play/playstream.py:134-136 | two underscores in a row make the group id invalid |
| SetRtmp.SignsRejected | BABYMUSIC/plugins/play/playstream.py:134-136 | a lone sign, or two signs, make the group id invalid |
| SetRtmp.BlankRejected | BABYMUSIC/plugins/play/playstream.py:134-136 | a blank group id token is invalid |
| VideoSearch.PickFirst | BABYMUSIC/plugins/play/playstream.py:116-123 | fails with "no results" exactly when there is no result list or it is empty, and with "no video id" exactly when the first hit's id is missing or empty; otherwise returns the first hit's non-empty id and its title, or `"Unknown Title"` when that is missing or empty |
| VideoSearch.OnlyFirstHitMatters | BABYMUSIC/plugins/play/playstream.py:118 | hits after the first never change the outcome |
| VideoSearch.PickFirstOfHit | BABYMUSIC/plugins/play/playstream.py:118-123 | picking succeeds exactly when the first hit has a non-empty id, and returns that id with the hit's title or the placeholder |
| VideoSearch.PlaceholderTitle | BABYMUSIC/plugins/play/playstream.py:120 | the title is `"Unknown Title"` exactly when the hit has no title of its own or its title is that text |
| Thumbnails.ThumbUrl | BABYMUSIC/utils/thumbnails.py:5-12 | the address is `https://i.ytimg.com/vi/`, then the video id, then `/hqdefault.jpg`, for every id including the empty one |
| Thumbnails.ThumbRoundTrip | BABYMUSIC/utils/thumbnails.py:7-12 | the video id can always be read back out of its address |
| Thumbnails.VideoIdOfInverse | BABYMUSIC/utils/thumbnails.py:12 | a string has the thumbnail shape exactly when some video id produces it, and reading the id back reproduces the string |
| Thumbnails.ChatIdIgnored | BABYMUSIC/utils/thumbnails.py:7-12 | the `chat_id` argument has no effect on the address |
| Thumbnails.ThumbInjective | BABYMUSIC/utils/thumbnails.py:12 | distinct video ids give distinct addresses |

## Left out

- Digits are ASCII only. Python's `\d` in a `str` pattern and `int()` also accept other Unicode decimal digits (Arabic-Indic digits, for example). Those are not modelled.
- SetRtmp.PyInt: models `int()` on a `str` in base 10 only. Values of other types and other bases never reach it here.
- SetRtmp.PyInt: does not model the limit on the number of digits `int()` converts (4300 by default since Python 3.10.7 / 3.11, settable with `sys.set_int_max_str_digits`, and off when set to 0). With the limit in force, a longer group id raises `ValueError` and would be reported as invalid; the model reads it.
- SetRtmp.IntRoundTrip: holds only where the digit limit above is off or the number is short enough, because `str(n)` raises on a longer number.
- TgLink.ParseInternalLink: an internal id or message number longer than the digit limit makes `int()` raise in the interpreter; the model parses it. The limit depends on interpreter settings, so it is not modelled.
- TgLink.ParsePublicLink: the same holds for the message number of a public link.
- SetRtmp.ValidateSetRtmp: `message.chat.type == ChatType.PRIVATE` becomes a boolean parameter. The token list is taken as given; how Pyrogram splits the message text into tokens is not modelled.
- The side effects after the `/setrtmp` checks are not modelled: `get_chat`, the group-name fallback, `kill_ffmpeg`, the MongoDB write and the reply. They are network, process and database I/O.
- MongoDB access (`get_rtmp`, `set_rtmp`, `clear_rtmp`) is not modelled. It is an external store.
- `kill_ffmpeg`, `subprocess.Popen`, PID files and temporary files are not modelled. They are process and filesystem I/O.
- `download_from_tg_link` after the parse is not modelled: `get_messages`, the media checks and `download_media`. These are Pyrogram network calls.
- The `VideosSearch` call and `requests.get` are not modelled. They are foreign library and HTTP calls. Their results enter the model as parameters: the `result` list of the search, and the reply text and decoded JSON of the API.
- VideoSearch.PickFirst: a reply without a `result` key, an empty reply and a `None` reply are all represented as no result list. Fields of unexpected types, such as a numeric `id`, are not modelled.
- LinkExtract.ExtractLink: JSON numbers are represented as reals, because only whether a number is zero affects the outcome. Floating-point precision is not modelled.
- There is no thumbnail cache, lock or image processing in the code, so none is modelled.

## Findings

| source | as written | input that shows it | evidently intended | confidence | as-written member | corrected member |
|---|---|---|---|---|---|---|
| BABYMUSIC/plugins/play/playstream.py:96-98 | `if resp_json:` admits any truthy decoded JSON and then calls `resp_json.get`, which raises `AttributeError` for a list, string, number or `true` | a reply whose body is `[1]`, or `"see https://t.me/x/1"` as a JSON string | the parameter is annotated `dict \| None` and the docstring promises a fallback to text scanning, so a reply that is not an object should be scanned as text; as written, the caller's catch-all turns it into an error reply instead | not executed | LinkExtract.ExtractAsWritten, LinkExtract.ArrayReplyRaises | LinkExtract.ExtractLink |
