/** The selection logic of the transcript accordion: which interval is
    active at the player's current time, when the transcript counts as
    unavailable, which of the five panels is shown, how a reply of the
    timestamps endpoint updates the component's state, and the layout of the
    downloaded text. `formatTime` is a parameter. */
module TranscriptView {
  import opened Wrappers
  import Text
  import Search
  import Intervals

  type Interval = Intervals.Interval

  // ---------------------------------------------------------------------------
  // The active interval

  /** `currentTime >= startTime && currentTime < endTime`, with the player's
      time in (fractional) seconds. */
  function ActiveAt(currentTime: real): Interval -> bool {
    (iv: Interval) => currentTime >= iv.startTime as real && currentTime < iv.endTime as real
  }

  /** `getActiveTimestamp`: the first interval whose range holds the current
      time, if any. */
  function GetActiveTimestamp(timestamps: seq<Interval>, currentTime: real): (r: Option<Interval>)
    ensures r.Some? ==> r.value.startTime as real <= currentTime < r.value.endTime as real
    ensures r.Some? ==> exists j :: 0 <= j < |timestamps| && timestamps[j] == r.value
                          && forall k :: 0 <= k < j ==> !ActiveAt(currentTime)(timestamps[k])
    ensures r.None? <==> forall j :: 0 <= j < |timestamps| ==> !ActiveAt(currentTime)(timestamps[j])
  {
    Search.Find(timestamps, ActiveAt(currentTime))
  }

  /** The index of the interval `getActiveTimestamp` returns: rows are
      compared with it by identity, so only the row at this index is the
      active one. */
  function ActiveIndex(timestamps: seq<Interval>, currentTime: real): Option<nat> {
    Search.FindIndex(timestamps, ActiveAt(currentTime))
  }

  /** Over the aggregator's output, whose intervals are disjoint, no two
      intervals are active at once. */
  lemma AtMostOneActive(segs: seq<Intervals.Segment>, currentTime: real)
    ensures var r := Intervals.Aggregate(segs);
            forall a, b ::
              (0 <= a < |r| && 0 <= b < |r| && ActiveAt(currentTime)(r[a]) && ActiveAt(currentTime)(r[b])) ==> a == b
  {
    Intervals.Disjoint(segs);
  }

  /** The active test at `ms / 1000` seconds is the aggregator's coverage of
      the instant `ms` milliseconds in. */
  lemma ActiveIsCovers(iv: Interval, ms: int)
    ensures ActiveAt(ms as real / 1000.0)(iv) <==> Intervals.Covers(iv, ms)
  {
  }

  /** When playback reaches a segment's start, the active interval of the
      aggregator's output is the segment's own 30-second window. */
  lemma ActiveAtSegmentStart(segs: seq<Intervals.Segment>, p: nat)
    requires p < |segs|
    ensures ActiveWindowAt(Intervals.Aggregate(segs), segs[p].startMs, 30 * Intervals.BucketOf(segs[p]))
  {
    Intervals.SegmentWindow(segs, p);
    ActiveCovering(Intervals.Aggregate(segs), segs[p].startMs, 30 * Intervals.BucketOf(segs[p]));
  }

  /** At `ms / 1000` seconds an interval of `r` is active, and it starts at
      `start`. */
  predicate ActiveWindowAt(r: seq<Interval>, ms: int, start: int) {
    var active := GetActiveTimestamp(r, ms as real / 1000.0);
    active.Some? && active.value.startTime == start
  }

  /** If some interval covers the instant `ms` and every covering interval
      starts at `start`, the interval active at `ms / 1000` seconds starts
      there. */
  lemma ActiveCovering(r: seq<Interval>, ms: int, start: int)
    requires Intervals.CoveredOnlyFrom(r, ms, start)
    ensures ActiveWindowAt(r, ms, start)
  {
    var t := ms as real / 1000.0;
    var j :| 0 <= j < |r| && Intervals.Covers(r[j], ms);
    ActiveIsCovers(r[j], ms);
    var active := GetActiveTimestamp(r, t);
    var i :| 0 <= i < |r| && r[i] == active.value;
    ActiveIsCovers(r[i], ms);
  }

  // ---------------------------------------------------------------------------
  // Unavailable transcripts

  /** `text.trim() === ""`. */
  predicate TrimsEmpty(text: string) {
    Text.Trim(text) == []
  }

  /** `timestamps.every((t) => t.text.trim() === "")`. */
  predicate IsTranscriptUnavailable(timestamps: seq<Interval>) {
    forall j :: 0 <= j < |timestamps| ==> TrimsEmpty(timestamps[j].text)
  }

  /** The transcript counts as unavailable exactly when every text is
      whitespace only; an empty list is unavailable. */
  lemma UnavailableIff(timestamps: seq<Interval>)
    ensures IsTranscriptUnavailable(timestamps) <==>
              forall j :: 0 <= j < |timestamps| ==> Text.AllSpace(timestamps[j].text)
    ensures IsTranscriptUnavailable([])
  {
    forall j | 0 <= j < |timestamps| {
      Text.TrimEmptyIff(timestamps[j].text);
    }
  }

  /** A normalised text that is whitespace only is `""` or `" "`. */
  lemma BlankNormalized(s: string)
    requires Text.Normalized(s) && Text.AllSpace(s)
    ensures s == [] || s == " "
  {
    if |s| > 1 {
      assert !Text.IsSpace(s[0]) || !Text.IsSpace(s[1]);
    }
  }

  /** Over normalised texts, such as the aggregator's output, the test
      reads: every text is `""` or `" "`. */
  lemma UnavailableNormalized(timestamps: seq<Interval>)
    requires Intervals.NormalizedTexts(timestamps)
    ensures IsTranscriptUnavailable(timestamps) <==>
              forall j :: 0 <= j < |timestamps| ==> timestamps[j].text == [] || timestamps[j].text == " "
  {
    UnavailableIff(timestamps);
    forall j | 0 <= j < |timestamps|
      ensures Text.AllSpace(timestamps[j].text) <==> (timestamps[j].text == [] || timestamps[j].text == " ")
    {
      if Text.AllSpace(timestamps[j].text) {
        BlankNormalized(timestamps[j].text);
      }
    }
  }

  // ---------------------------------------------------------------------------
  // The panel shown

  /** The component's state: the intervals, the loading flag and the error
      message (`null` is `None`). */
  datatype ViewState = ViewState(timestamps: seq<Interval>, loading: bool, error: Option<string>)

  /** One listed interval and whether it is highlighted as active. */
  datatype Row = Row(interval: Interval, active: bool)

  datatype View =
    | Skeleton
    | ErrorText(message: string)
    | NoTimestamps
    | Unavailable
    | List(rows: seq<Row>)

  /** A truthy error message: present and non-empty. */
  predicate HasError(s: ViewState) {
    s.error.Some? && s.error.value != []
  }

  /** The panel chosen by the render: loading first, then the error, then
      the empty list, then the all-blank transcript, and otherwise the list,
      in which exactly the interval `getActiveTimestamp` returned — the
      object at its index — is highlighted. */
  function Render(s: ViewState, currentTime: real): (v: View)
    ensures v.Skeleton? <==> s.loading
    ensures v.ErrorText? <==> !s.loading && HasError(s)
    ensures v.ErrorText? ==> v.message == s.error.value && v.message != []
    ensures v.NoTimestamps? <==> !s.loading && !HasError(s) && s.timestamps == []
    ensures v.Unavailable? <==>
              !s.loading && !HasError(s) && s.timestamps != [] && IsTranscriptUnavailable(s.timestamps)
    ensures v.List? ==>
              && |v.rows| == |s.timestamps|
              && forall j :: 0 <= j < |v.rows| ==>
                   && v.rows[j].interval == s.timestamps[j]
                   && (v.rows[j].active <==> ActiveIndex(s.timestamps, currentTime) == Some(j))
  {
    if s.loading then Skeleton
    else if HasError(s) then ErrorText(s.error.value)
    else if s.timestamps == [] then NoTimestamps
    else if IsTranscriptUnavailable(s.timestamps) then Unavailable
    else List(Rows(s.timestamps, ActiveIndex(s.timestamps, currentTime)))
  }

  /** `timestamps.map(...)` with the row at index `active` highlighted. */
  function Rows(timestamps: seq<Interval>, active: Option<nat>): (rows: seq<Row>)
    ensures |rows| == |timestamps|
    ensures forall j :: 0 <= j < |rows| ==> rows[j] == Row(timestamps[j], active == Some(j))
  {
    seq(|timestamps|, j requires 0 <= j < |timestamps| => Row(timestamps[j], active == Some(j)))
  }

  /** Listing the aggregator's output, a row is highlighted exactly when its
      interval holds the current time; at most one row is. */
  lemma HighlightIsActive(segs: seq<Intervals.Segment>, loading: bool, error: Option<string>, currentTime: real)
    ensures var v := Render(ViewState(Intervals.Aggregate(segs), loading, error), currentTime);
            v.List? ==>
              && (forall j :: 0 <= j < |v.rows| ==> (v.rows[j].active <==> ActiveAt(currentTime)(v.rows[j].interval)))
              && (forall a, b :: 0 <= a < |v.rows| && 0 <= b < |v.rows| && v.rows[a].active && v.rows[b].active ==> a == b)
  {
    var r := Intervals.Aggregate(segs);
    var v := Render(ViewState(r, loading, error), currentTime);
    if v.List? {
      AtMostOneActive(segs, currentTime);
      var found := ActiveIndex(r, currentTime);
      forall j | 0 <= j < |v.rows| ensures v.rows[j].active <==> ActiveAt(currentTime)(r[j]) {
        if ActiveAt(currentTime)(r[j]) {
          assert found.Some?;
        }
      }
    }
  }

  // ---------------------------------------------------------------------------
  // Loading the intervals

  const LoadFallback: string := "Failed to load timestamps."

  /** The reply body as `response.json()` delivers it: the `intervals`
      field (absent or falsy is `None`), or the message of the error that
      reading it throws. */
  datatype Body = Parsed(intervals: Option<seq<Interval>>) | Unreadable(message: string)

  /** `fetch` to the timestamps endpoint: rejected with a message, or a
      response with its status and body. */
  datatype Reply = Rejected(message: string) | Response(ok: bool, statusText: string, body: Body)

  /** What `fetchTimestamps` leaves behind: the intervals, the error message,
      and the length reported through `setVideoLength`, if it was called. */
  datatype Loaded = Loaded(timestamps: seq<Interval>, error: Option<string>, videoLength: Option<string>)

  /** `(err as Error).message || "Failed to load timestamps."`. */
  function ErrorMessage(message: string): string {
    if message == [] then LoadFallback else message
  }

  /** `fetchTimestamps`: a failed request keeps the previous intervals and
      sets an error; a good one replaces the intervals with
      `data.intervals || []` and reports the formatted end of the last
      interval as the video's length when the list is non-empty and a
      setter was given. */
  function FetchTimestamps(previous: seq<Interval>, reply: Reply, hasSetter: bool, formatTime: int -> string): (r: Loaded)
    ensures r.error.None? <==> reply.Response? && reply.ok && reply.body.Parsed?
    ensures r.error.Some? ==> r.timestamps == previous && r.videoLength.None? && r.error.value != []
    ensures reply.Response? && !reply.ok ==> r.error == Some("Failed to fetch timestamps: " + reply.statusText)
    ensures r.error.None? ==>
              && r.timestamps == reply.body.intervals.GetOr([])
              && (r.videoLength.Some? <==> hasSetter && r.timestamps != [])
              && (r.videoLength.Some? ==> r.videoLength.value == formatTime(r.timestamps[|r.timestamps| - 1].endTime))
  {
    match reply
    case Rejected(m) => Loaded(previous, Some(ErrorMessage(m)), None)
    case Response(ok, statusText, body) =>
      if !ok then Loaded(previous, Some(ErrorMessage("Failed to fetch timestamps: " + statusText)), None)
      else
        match body
        case Unreadable(m) => Loaded(previous, Some(ErrorMessage(m)), None)
        case Parsed(intervals) =>
          var ts := intervals.GetOr([]);
          var length := if |ts| > 0 && hasSetter then Some(formatTime(ts[|ts| - 1].endTime)) else None;
          Loaded(ts, None, length)
  }

  /** After a load the panel is the error for a failed request, and for a
      good one the panel its intervals call for. */
  lemma LoadThenRender(previous: seq<Interval>, reply: Reply, hasSetter: bool, formatTime: int -> string, currentTime: real)
    ensures var l := FetchTimestamps(previous, reply, hasSetter, formatTime);
            var v := Render(ViewState(l.timestamps, false, l.error), currentTime);
            && (l.error.Some? ==> v == ErrorText(l.error.value))
            && (l.error.None? && l.timestamps == [] ==> v == NoTimestamps)
            && (l.error.None? && l.timestamps != [] ==> (v.Unavailable? <==> IsTranscriptUnavailable(l.timestamps)))
  {
  }

  // ---------------------------------------------------------------------------
  // The downloaded text

  function Header(title: string, videoId: string): string {
    "Transcript with timestamps for " + title + "\n\nyou.tools/summarize/?v=" + videoId + "\n\n"
  }

  /** One interval's block: its formatted range in brackets, a newline, its
      text. */
  function Block(formatTime: int -> string): Interval -> string {
    (iv: Interval) => "[" + formatTime(iv.startTime) + " - " + formatTime(iv.endTime) + "]\n" + iv.text
  }

  /** `downloadTimestampsAsTxt`'s content: the header, then the blocks
      separated by blank lines. */
  function DownloadText(title: string, videoId: string, timestamps: seq<Interval>, formatTime: int -> string): (r: string)
    ensures Header(title, videoId) <= r
    ensures timestamps == [] ==> r == Header(title, videoId)
    ensures |timestamps| == 1 ==> r == Header(title, videoId) + Block(formatTime)(timestamps[0])
  {
    Header(title, videoId) + Text.Join(Search.Map(timestamps, Block(formatTime)), "\n\n")
  }

  /** Each further interval adds a blank line and its block at the end. */
  lemma DownloadAppend(title: string, videoId: string, timestamps: seq<Interval>, iv: Interval, formatTime: int -> string)
    requires timestamps != []
    ensures DownloadText(title, videoId, timestamps + [iv], formatTime)
         == DownloadText(title, videoId, timestamps, formatTime) + "\n\n" + Block(formatTime)(iv)
  {
    var f := Block(formatTime);
    assert Search.Map(timestamps + [iv], f) == Search.Map(timestamps, f) + [f(iv)];
    Text.JoinAppend(Search.Map(timestamps, f), f(iv), "\n\n");
  }
}
