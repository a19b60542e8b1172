/** The previous-videos endpoint: every stored video paired with its first
    summary, as the route handler serves it. A failing query ends in a
    generic server error, and an empty video table in "not found". Column
    names are those the route's queries use (`video_id`, `user_id`). */
module PrevVideosRoute {
  import opened Wrappers
  import Search

  const NotFoundMessage: string := "No videos found in the database"
  const ServerErrorMessage: string := "An error occurred while processing the request."

  datatype Video = Video(id: int, video_id: string, title: Option<string>)

  datatype Summary = Summary(id: int, video_id: int, user_id: Option<string>, content: string, created_at: string)

  datatype VideoWithSummary = VideoWithSummary(
    id: int,
    video_id: string,
    title: Option<string>,
    summary: string,
    endTime: string,
    datePosted: string)

  /** What a query returns: the store's error, or its `data`, which may be
      `null`. */
  type Rows<T> = Result<Option<seq<T>>, string>

  /** The two queries the handler makes: all videos, and the summaries whose
      `video_id` is in a given list. */
  datatype Db = Db(videos: Rows<Video>, summaries: seq<int> -> Rows<Summary>)

  datatype Response =
    | Ok(body: seq<VideoWithSummary>)
    | NotFound(error: string)
    | ServerError(error: string)

  /** What the handler answers, and the id list of its summary query, if it
      made one. */
  datatype Outcome = Outcome(response: Response, summaryQuery: Option<seq<int>>)

  function Status(r: Response): int {
    match r
    case Ok(_) => 200
    case NotFound(_) => 404
    case ServerError(_) => 500
  }

  /** The test `s.video_id === video.id`. */
  function ForVideo(id: int): Summary -> bool {
    (s: Summary) => s.video_id == id
  }

  /** `content`/`created_at` is that of the first summary of video `id`, or
      both are empty when the video has none. */
  predicate FirstSummary(summaries: seq<Summary>, id: int, content: string, createdAt: string) {
    || (exists j :: 0 <= j < |summaries| && summaries[j].video_id == id
          && (forall k :: 0 <= k < j ==> summaries[k].video_id != id)
          && content == summaries[j].content && createdAt == summaries[j].created_at)
    || ((forall j :: 0 <= j < |summaries| ==> summaries[j].video_id != id) && content == [] && createdAt == [])
  }

  /** The entry of one video: its own fields, and its first summary's
      content and creation time, or empty strings. */
  function Entry(v: Video, summaries: seq<Summary>): (e: VideoWithSummary)
    ensures e.id == v.id && e.video_id == v.video_id && e.title == v.title
    ensures e.datePosted == e.endTime
    ensures FirstSummary(summaries, v.id, e.summary, e.endTime)
  {
    match Search.Find(summaries, ForVideo(v.id))
    case Some(s) => VideoWithSummary(v.id, v.video_id, v.title, s.content, s.created_at, s.created_at)
    case None => VideoWithSummary(v.id, v.video_id, v.title, [], [], [])
  }

  /** The mapping over the videos: one entry per video, in order. */
  function WithSummaries(videos: seq<Video>, summaries: seq<Summary>): (r: seq<VideoWithSummary>)
    ensures |r| == |videos|
    ensures forall i :: 0 <= i < |r| ==>
              && r[i].id == videos[i].id && r[i].video_id == videos[i].video_id && r[i].title == videos[i].title
              && r[i].datePosted == r[i].endTime
              && FirstSummary(summaries, videos[i].id, r[i].summary, r[i].endTime)
  {
    seq(|videos|, i requires 0 <= i < |videos| => Entry(videos[i], summaries))
  }

  /** `videos.map((video) => video.id)`. */
  function Ids(videos: seq<Video>): (ids: seq<int>)
    ensures |ids| == |videos|
    ensures forall i :: 0 <= i < |ids| ==> ids[i] == videos[i].id
  {
    seq(|videos|, i requires 0 <= i < |videos| => videos[i].id)
  }

  /** The `GET` handler. Its answer is 500 exactly when a query fails and
      404 exactly when the video table is empty or `null`; otherwise it is
      one entry per video, in order, with the video's first summary among
      the rows the summary query returned. Summaries are asked for exactly
      the fetched videos' ids. */
  function Get(db: Db): (r: Outcome)
    ensures var videos := if db.videos.Success? then db.videos.value.GetOr([]) else [];
            && (Status(r.response) == 500 <==>
                  db.videos.Failure? || (videos != [] && db.summaries(Ids(videos)).Failure?))
            && (Status(r.response) == 404 <==> db.videos.Success? && videos == [])
            && (r.response.NotFound? ==> r.response.error == NotFoundMessage && r.summaryQuery.None?)
            && (r.response.ServerError? ==> r.response.error == ServerErrorMessage)
            && (r.summaryQuery.Some? <==> db.videos.Success? && videos != [])
            && (r.summaryQuery.Some? ==> r.summaryQuery.value == Ids(videos))
            && (r.response.Ok? ==>
                  && |r.response.body| == |videos|
                  && var rows := db.summaries(Ids(videos)).value.GetOr([]);
                     forall i :: 0 <= i < |videos| ==>
                       && r.response.body[i].id == videos[i].id
                       && r.response.body[i].video_id == videos[i].video_id
                       && r.response.body[i].title == videos[i].title
                       && r.response.body[i].datePosted == r.response.body[i].endTime
                       && FirstSummary(rows, videos[i].id, r.response.body[i].summary, r.response.body[i].endTime))
  {
    match db.videos
    case Failure(_) => Outcome(ServerError(ServerErrorMessage), None)
    case Success(data) =>
      var videos := data.GetOr([]);
      if videos == [] then Outcome(NotFound(NotFoundMessage), None)
      else
        var ids := Ids(videos);
        match db.summaries(ids)
        case Failure(_) => Outcome(ServerError(ServerErrorMessage), Some(ids))
        case Success(rows) => Outcome(Ok(WithSummaries(videos, rows.GetOr([]))), Some(ids))
  }

  // ---------------------------------------------------------------------------
  // Properties

  /** The test of `.in("video_id", ids)`. */
  function InList(ids: seq<int>): Summary -> bool {
    (s: Summary) => s.video_id in ids
  }

  /** The rows of `table` whose `video_id` is in `ids`, in table order: what
      the summary query returns. */
  function InIds(table: seq<Summary>, ids: seq<int>): (r: seq<Summary>)
    ensures forall i :: 0 <= i < |r| ==> r[i] in table && r[i].video_id in ids
    ensures forall j :: 0 <= j < |table| && table[j].video_id in ids ==> table[j] in r
  {
    Search.Filter(table, InList(ids))
  }

  /** Narrowing the summary query to the fetched videos' ids loses no match:
      the answer is the join with the whole summary table. */
  lemma InQueryLosesNothing(db: Db, table: seq<Summary>)
    requires db.videos.Success? && db.videos.value.GetOr([]) != []
    requires var ids := Ids(db.videos.value.GetOr([]));
             db.summaries(ids) == Success(Some(InIds(table, ids)))
    ensures Get(db).response == Ok(WithSummaries(db.videos.value.GetOr([]), table))
  {
    var videos := db.videos.value.GetOr([]);
    var ids := Ids(videos);
    var a := WithSummaries(videos, InIds(table, ids));
    var b := WithSummaries(videos, table);
    forall i | 0 <= i < |videos| ensures a[i] == b[i] {
      assert videos[i].id in ids by { assert ids[i] == videos[i].id; }
      Search.FindFilter(table, InList(ids), ForVideo(videos[i].id));
      assert a[i] == Entry(videos[i], InIds(table, ids));
    }
  }
}
