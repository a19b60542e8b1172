/** The server-side helper `fetchVideosWithSummaries`: the same join of
    videos with their first summary as the previous-videos endpoint, but
    with the helper's own column names (`videoId`) and its own failure
    policy — a failing query yields the empty list instead of an error, and
    it queries every summary rather than those of the fetched videos. */
module PrevVideosHelper {
  import opened Wrappers
  import Search

  /** The message of the `TypeError` thrown by calling a method on `null`. */
  function NullCallMessage(name: string): string {
    "Cannot read properties of null (reading '" + name + "')"
  }

  datatype Video = Video(id: int, videoId: string, title: Option<string>)

  /** The three columns the summary query selects. */
  datatype SummaryRow = SummaryRow(videoId: int, content: string, created_at: string)

  datatype VideoWithSummary = VideoWithSummary(
    id: int,
    videoId: string,
    title: Option<string>,
    summary: string,
    endTime: string,
    datePosted: string)

  /** What a query returns: the store's error, or its `data`, which may be
      `null`. */
  type Rows<T> = Result<Option<seq<T>>, string>

  /** The test `s.videoId === video.id`. */
  function ForVideo(id: int): SummaryRow -> bool {
    (s: SummaryRow) => s.videoId == id
  }

  /** `content`/`created_at` is that of the first summary row of video `id`,
      or both are empty when the video has none. */
  predicate FirstSummary(summaries: seq<SummaryRow>, id: int, content: string, createdAt: string) {
    || (exists j :: 0 <= j < |summaries| && summaries[j].videoId == id
          && (forall k :: 0 <= k < j ==> summaries[k].videoId != id)
          && content == summaries[j].content && createdAt == summaries[j].created_at)
    || ((forall j :: 0 <= j < |summaries| ==> summaries[j].videoId != id) && content == [] && createdAt == [])
  }

  function Entry(v: Video, summaries: seq<SummaryRow>): (e: VideoWithSummary)
    ensures e.id == v.id && e.videoId == v.videoId && e.title == v.title
    ensures e.datePosted == e.endTime
    ensures FirstSummary(summaries, v.id, e.summary, e.endTime)
  {
    match Search.Find(summaries, ForVideo(v.id))
    case Some(s) => VideoWithSummary(v.id, v.videoId, v.title, s.content, s.created_at, s.created_at)
    case None => VideoWithSummary(v.id, v.videoId, v.title, [], [], [])
  }

  /** `fetchVideosWithSummaries`: a query error on either table gives `[]`;
      otherwise one entry per video, in order, with its first summary. The
      promise is rejected only when a query returns `null` data without an
      error and the code then calls `map` on the videos or `find` on the
      summaries. */
  function FetchVideosWithSummaries(videos: Rows<Video>, summaries: Rows<SummaryRow>): (r: Result<seq<VideoWithSummary>, string>)
    ensures videos.Failure? ==> r == Success([])
    ensures videos.Success? && summaries.Failure? ==> r == Success([])
    ensures r.Failure? <==>
              && videos.Success? && summaries.Success?
              && (videos.value.None? || (videos.value.value != [] && summaries.value.None?))
    ensures r.Failure? ==> r.error == NullCallMessage("map") || r.error == NullCallMessage("find")
    ensures videos.Success? && videos.value == Some([]) ==> r == Success([])
    ensures r.Success? && videos.Success? && summaries.Success? ==>
              var vs := videos.value.value;
              && |r.value| == |vs|
              && forall i :: 0 <= i < |vs| ==>
                   && r.value[i].id == vs[i].id && r.value[i].videoId == vs[i].videoId && r.value[i].title == vs[i].title
                   && r.value[i].datePosted == r.value[i].endTime
                   && summaries.value.Some?
                   && FirstSummary(summaries.value.value, vs[i].id, r.value[i].summary, r.value[i].endTime)
  {
    match videos
    case Failure(_) => Success([])
    case Success(vs) =>
      match summaries
      case Failure(_) => Success([])
      case Success(ss) =>
        if vs.None? then Failure(NullCallMessage("map"))
        else if vs.value == [] then Success([])
        else if ss.None? then Failure(NullCallMessage("find"))
        else Success(seq(|vs.value|, i requires 0 <= i < |vs.value| => Entry(vs.value[i], ss.value)))
  }
}
