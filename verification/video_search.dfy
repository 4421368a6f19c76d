/** The result-picking half of `youtube_search_first_vidid`: given what the
    search library returned, choose the video id and title or fail. */
module VideoSearch {
  import opened Wrappers

  /** One entry of the `result` list: its `id` and `title` fields, each
      possibly missing (`None`) or empty. */
  datatype SearchHit = SearchHit(id: Option<string>, title: Option<string>)

  /** Why no video could be picked. */
  datatype SearchError = NoResults | NoVideoId

  /** The chosen video. */
  datatype Pick = Pick(videoId: string, title: string)

  const UnknownTitle: string := "Unknown Title"

  /** A field that is missing or empty is falsy in Python. */
  predicate Present(field: Option<string>) {
    field.Some? && field.value != []
  }

  /** `field or default` for an optional string. */
  function OrDefault(field: Option<string>, default: string): (r: string)
    ensures Present(field) ==> r == field.value
    ensures !Present(field) ==> r == default
  {
    if Present(field) then field.value else default
  }

  /** `results` is the `result` list of the reply; `None` stands for a
      missing reply, an empty reply or a reply without that key. */
  function PickFirst(results: Option<seq<SearchHit>>): (r: Result<Pick, SearchError>)
    ensures r == Err(NoResults) <==> results.None? || |results.value| == 0
    ensures r == Err(NoVideoId) <==> results.Some? && |results.value| > 0 && !Present(results.value[0].id)
    ensures r.Ok? ==> r.value.videoId == results.value[0].id.value && r.value.videoId != []
    ensures r.Ok? ==> r.value.title != []
    ensures r.Ok? && Present(results.value[0].title) ==> r.value.title == results.value[0].title.value
    ensures r.Ok? && !Present(results.value[0].title) ==> r.value.title == UnknownTitle
  {
    if results.None? || |results.value| == 0 then Err(NoResults)
    else
      var hit := results.value[0];
      var title := OrDefault(hit.title, UnknownTitle);
      if !Present(hit.id) then Err(NoVideoId)
      else Ok(Pick(hit.id.value, title))
  }

  /** Only the first hit is looked at: the rest of the list never matters. */
  lemma OnlyFirstHitMatters(hit: SearchHit, rest: seq<SearchHit>, rest': seq<SearchHit>)
    ensures PickFirst(Some([hit] + rest)) == PickFirst(Some([hit] + rest'))
  {
    assert ([hit] + rest)[0] == hit == ([hit] + rest')[0];
  }

  /** Picking succeeds exactly for a list whose first hit has an id, and then
      returns that id with the hit's own title or the placeholder. */
  lemma PickFirstOfHit(hit: SearchHit, rest: seq<SearchHit>)
    ensures PickFirst(Some([hit] + rest)).Ok? <==> Present(hit.id)
    ensures Present(hit.id) ==>
      PickFirst(Some([hit] + rest)) == Ok(Pick(hit.id.value, OrDefault(hit.title, UnknownTitle)))
  {
    assert ([hit] + rest)[0] == hit;
  }

  /** The placeholder title shows up only when the hit has no title of its
      own or its title is the placeholder text itself. */
  lemma PlaceholderTitle(results: Option<seq<SearchHit>>)
    requires PickFirst(results).Ok?
    ensures PickFirst(results).value.title == UnknownTitle <==>
      !Present(results.value[0].title) || results.value[0].title.value == UnknownTitle
  {
  }
}
