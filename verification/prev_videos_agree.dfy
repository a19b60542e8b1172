/** The two implementations of the videos/summaries join side by side: over
    the same tables, read through each one's column names, the helper's list
    is the endpoint's answer whenever there is at least one video; they part
    ways only in how they report an empty table or a failing query. */
module PrevVideosAgreement {
  import opened Wrappers
  import Search
  import Route = PrevVideosRoute
  import Helper = PrevVideosHelper

  /** A video row as the helper's query names its columns. */
  function HelperVideo(v: Route.Video): Helper.Video {
    Helper.Video(v.id, v.video_id, v.title)
  }

  /** The three columns of a summary the helper selects. */
  function HelperSummary(s: Route.Summary): Helper.SummaryRow {
    Helper.SummaryRow(s.video_id, s.content, s.created_at)
  }

  function HelperEntry(e: Route.VideoWithSummary): Helper.VideoWithSummary {
    Helper.VideoWithSummary(e.id, e.video_id, e.title, e.summary, e.endTime, e.datePosted)
  }

  lemma EntryAgrees(v: Route.Video, table: seq<Route.Summary>)
    ensures Helper.Entry(HelperVideo(v), Search.Map(table, HelperSummary)) == HelperEntry(Route.Entry(v, table))
  {
    Search.FindMap(table, HelperSummary, Helper.ForVideo(v.id), Route.ForVideo(v.id));
  }

  /** Over one store with at least one video and no failing query, the
      helper returns the endpoint's answer. */
  lemma SameJoin(db: Route.Db, videos: seq<Route.Video>, table: seq<Route.Summary>)
    requires videos != [] && db.videos == Success(Some(videos))
    requires db.summaries(Route.Ids(videos)) == Success(Some(Route.InIds(table, Route.Ids(videos))))
    ensures Route.Get(db).response.Ok?
    ensures Helper.FetchVideosWithSummaries(Success(Some(Search.Map(videos, HelperVideo))),
                                            Success(Some(Search.Map(table, HelperSummary))))
         == Success(Search.Map(Route.Get(db).response.body, HelperEntry))
  {
    Route.InQueryLosesNothing(db, table);
    var body := Route.WithSummaries(videos, table);
    var hs := Search.Map(table, HelperSummary);
    var helperVideos := Search.Map(videos, HelperVideo);
    var r := Helper.FetchVideosWithSummaries(Success(Some(helperVideos)), Success(Some(hs)));
    var expected := Search.Map(body, HelperEntry);
    assert r.Success? && |r.value| == |expected|;
    forall i | 0 <= i < |videos| ensures r.value[i] == expected[i] {
      assert r.value[i] == Helper.Entry(helperVideos[i], hs);
      assert body[i] == Route.Entry(videos[i], table);
      EntryAgrees(videos[i], table);
    }
    assert r.value == expected;
  }

  /** With no video at all the endpoint answers 404 while the helper returns
      the empty list. */
  lemma EmptyTableDiffers(db: Route.Db)
    requires db.videos == Success(Some([]))
    ensures Route.Status(Route.Get(db).response) == 404
    ensures forall summaries: Helper.Rows<Helper.SummaryRow> ::
              Helper.FetchVideosWithSummaries(Success(Some([])), summaries) == Success([])
  {
  }
}
