/** `get_thumb`: the YouTube thumbnail address of a video, built by string
    formatting alone. */
module Thumbnails {
  import opened Wrappers
  import opened Text

  const YoutubeThumbBase: string := "https://i.ytimg.com/vi"
  const ThumbSuffix: string := "/hqdefault.jpg"

  /** Everything in front of the video id. */
  function ThumbPrefix(): string {
    YoutubeThumbBase + "/"
  }

  /** `get_thumb(videoid, chat_id)`. The chat id is accepted and ignored. */
  function ThumbUrl(videoId: string, chatId: Option<int>): (url: string)
    ensures StartsWith(url, ThumbPrefix())
    ensures |url| == |ThumbPrefix()| + |videoId| + |ThumbSuffix|
    ensures url[|ThumbPrefix()| .. |ThumbPrefix()| + |videoId|] == videoId
    ensures url[|url| - |ThumbSuffix| ..] == ThumbSuffix
  {
    var url := ThumbPrefix() + videoId + ThumbSuffix;
    assert url[..|ThumbPrefix()|] == ThumbPrefix();
    url
  }

  /** Reads the video id back out of a thumbnail address. */
  function VideoIdOf(url: string): (r: Option<string>)
    ensures r.Some? ==> |r.value| + |ThumbPrefix()| + |ThumbSuffix| == |url|
  {
    var p, n := |ThumbPrefix()|, |ThumbSuffix|;
    if |url| >= p + n && url[..p] == ThumbPrefix() && url[|url| - n ..] == ThumbSuffix
    then Some(url[p .. |url| - n])
    else None
  }

  /** Every id, the empty one included, is read back from its address. */
  lemma ThumbRoundTrip(videoId: string, chatId: Option<int>)
    ensures VideoIdOf(ThumbUrl(videoId, chatId)) == Some(videoId)
  {
  }

  /** Exactly the addresses of the thumbnail shape come from `get_thumb`. */
  lemma VideoIdOfInverse(url: string, chatId: Option<int>)
    ensures VideoIdOf(url).Some? <==> exists v :: ThumbUrl(v, chatId) == url
    ensures VideoIdOf(url).Some? ==> ThumbUrl(VideoIdOf(url).value, chatId) == url
  {
    var p, n := |ThumbPrefix()|, |ThumbSuffix|;
    if VideoIdOf(url).Some? {
      var v := VideoIdOf(url).value;
      assert url == url[..p] + url[p .. |url| - n] + url[|url| - n ..];
      assert ThumbUrl(v, chatId) == url;
    }
    if exists v :: ThumbUrl(v, chatId) == url {
      var v :| ThumbUrl(v, chatId) == url;
      ThumbRoundTrip(v, chatId);
    }
  }

  /** The chat id has no effect on the address. */
  lemma ChatIdIgnored(videoId: string, chatId: Option<int>, chatId': Option<int>)
    ensures ThumbUrl(videoId, chatId) == ThumbUrl(videoId, chatId')
  {
  }

  /** Distinct video ids give distinct addresses. */
  lemma ThumbInjective(v: string, w: string, chatId: Option<int>, chatId': Option<int>)
    requires ThumbUrl(v, chatId) == ThumbUrl(w, chatId')
    ensures v == w
  {
    ThumbRoundTrip(v, chatId);
    ThumbRoundTrip(w, chatId');
  }
}
