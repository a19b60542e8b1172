# YouTube summary and transcript core, modelled in Dafny

This project models the logic at the centre of a web application that
summarises YouTube videos and shows their transcripts in 30-second
intervals. It also proves properties of that logic. Network calls are
parameters of the model:

- the caption provider;
- the local completion server;
- the JWT verifier;
- the relational store's queries.

The logic between those calls is written out as pure functions over
immutable data.

| module (file) | what it models |
|---|---|
| `Wrappers` (`wrappers.dfy`) | `Option` and `Result` |
| `Text` (`text.dfy`) | the JavaScript string operations the code uses: the `\s`/`trim` whitespace class, `trim`, `replace(/\s+/g, " ")`, `split` with a string separator, `join` |
| `Search` (`search.dfy`) | `Array.prototype.find`, `map`, and an order-keeping filter standing for an `in` query |
| `Intervals` (`intervals.dfy`) | the timestamps endpoint's aggregation of caption segments into 30-second intervals |
| `Generation` (`generation.dfy`) | `summarizeTranscript`: read the streamed reply, drop blank lines, parse each line, concatenate the `response` fields; one generic failure |
| `SummarizeRoute` (`summarize.dfy`) | `getYouTubeTranscript` and the summarize `GET` handler |
| `PrevVideosRoute` (`prev_videos_route.dfy`) | the previous-videos `GET` endpoint: videos joined with their first summary, 404/500 outcomes |
| `PrevVideosHelper` (`prev_videos_helper.dfy`) | the server helper `fetchVideosWithSummaries`: the same join with its own column names and a soft-fail to `[]` |
| `PrevVideosAgreement` (`prev_videos_agree.dfy`) | where the two joins agree and where they differ |
| `TranscriptView` (`transcript_view.dfy`) | the accordion's selection logic |

The accordion logic covers:

- the active interval;
- the "transcript unavailable" test;
- the five-way render priority;
- the state a load leaves behind;
- the download text.

## How the model is organised

**The aggregator** is modelled twice.

- **As written.** `Intervals.Group` is the `reduce` into a sparse array, a map of populated indices plus the array's `length`. `Intervals.ValuesFrom` is `Object.values` on it. `Intervals.Finish` is the final `map`.
- **Declaratively.** `Intervals.Reference` gives the same result one 30-second window at a time, over window indices `0 .. Bound-1`.
- **The link.** `Intervals.Aggregate` is proved equal to the reference. Every property of the output is then proved on the reference.

**The summarize handler** is a function from a request, an environment and a store to an `Outcome`. An outcome holds:

- the response;
- the new store;
- the list of outside effects, in order (transcript fetches, row inserts, generation calls).

The environment holds the oracles and the store's injected failures. The handler's guarantees are lemmas over all requests, environments and stores.

## Behaviour of the code worth knowing

The model follows the code in every case below.

- **Interval order.** The aggregator never sorts its segments. The intervals come out in ascending window order anyway, because `Object.values` visits the sparse array's indices in ascending order (`app/api/get-timestamps/fetchTranscriptWithTimestamps.ts:26-49`; `Intervals.Aggregate`, `Intervals.OrderIndependent`).
- **Segment text.** `segment.snippet?.text?.trim()` may be `undefined`, and `join(" ")` renders it as `""` (`app/api/get-timestamps/fetchTranscriptWithTimestamps.ts:17-19, 52`).
- **Summary lookup.** `maybeSingle()` serves a summary only when exactly one row matches. Several rows are an error, and the route logs the error and serves no summary (`app/api/summarize/route.ts:64-78`; `SummarizeRoute.GetSummary`).
- **Identity in extension mode.** A missing secret fails first, then a missing token, then a token the verifier rejects (`app/api/summarize/route.ts:88-96`; `SummarizeRoute.ResolveUser`).
- **Missing `video_id`.** The video is first looked up with the filter value `null`. "Missing video_id" is raised only when that lookup gives no usable id (`app/api/summarize/route.ts:102-106`; `SummarizeRoute.MissingVideoId`).
- **Two transcript fetches.** A video seen for the first time has its transcript fetched twice: once for the new row's title and once for the summary. When the second fetch fails, the new row stays behind with no summary and the answer is a 500 (`app/api/summarize/route.ts:105-130`; `SummarizeRoute.NewVideoFetchesTwice`, `SummarizeRoute.NewRowWithoutSummary`).

## Model

| member | source | states |
|---|---|---|
| Text.Collapse | app/api/get-timestamps/fetchTranscriptWithTimestamps.ts:52 | whitespace normalisation leaves whitespace only as single plain spaces, keeps the non-whitespace characters in order, is empty exactly for empty input and starts with whitespace exactly when the input does |
| Text.CollapseFixpoint | app/api/get-timestamps/fetchTranscriptWithTimestamps.ts:52 | already-normalised text is left unchanged |
| Text.CollapseIdempotent | app/api/get-timestamps/fetchTranscriptWithTimestamps.ts:52 | normalising twice is normalising once |
| Text.CollapseSpaces | app/api/get-timestamps/fetchTranscriptWithTimestamps.ts:52 | a non-empty whitespace run becomes exactly one plain space |
| Text.CollapseAppend | app/api/get-timestamps/fetchTranscriptWithTimestamps.ts:52 | normalising a string cut anywhere except inside a whitespace run gives the two pieces' normalisations concatenated; with `CollapseSpaces` this fixes the result on every input, so `"a  b"` becomes `"a b"` |
| Text.IsSpace | app/api/get-timestamps/fetchTranscriptWithTimestamps.ts:52 | the ECMAScript WhiteSpace and LineTerminator characters, the class `\s` matches and `trim` removes; no ensures: a character class |
| Text.Trim | components/TranscriptAccordion.tsx:114-116 | the trimmed string neither starts nor ends with whitespace |
| Text.TrimIsSlice | components/TranscriptAccordion.tsx:114-116 | `trim()` returns the slice of the string that starts where the leading whitespace ends, with only whitespace before and after it: leading and trailing whitespace is removed and nothing else changes |
| Text.Join | app/api/get-timestamps/fetchTranscriptWithTimestamps.ts:52 | `Array.prototype.join`; no ensures: it is pinned down by `JoinSplit`, `SplitJoin` and `JoinAppend` |
| Text.SplitOn | app/api/summarize/summarizeTranscript.ts:59 | `split` yields at least one piece; `JoinSplit`, `SplitJoin` and `SplitWithoutSeparator` relate it to `Join` |
| Text.TrimEmptyIff | components/TranscriptAccordion.tsx:114-116 | `trim()` gives `""` exactly when the string is all whitespace |
| Text.JoinSplit | app/api/summarize/summarizeTranscript.ts:58-63 | joining the pieces of `split(sep)` with `sep` restores the string |
| Text.SplitJoin | app/api/summarize/summarizeTranscript.ts:58-63 | splitting lines joined by a separator character they do not contain gives the lines back |
| Text.SplitWithoutSeparator | app/api/summarize/route.ts:88-90 | a string with no occurrence of the separator splits into itself alone |
| Text.JoinAppend | components/TranscriptAccordion.tsx:91-98 | one more part adds the separator and the part at the end of a join |
| Search.FindIndex | components/TranscriptAccordion.tsx:82-87 | the index found is the first whose element passes the test; none exactly when no element passes |
| Search.Find | app/api/fetchPrevVideoData/route.ts:74 | `find` returns an element that passes the test and no earlier element passes; `undefined` exactly when none passes |
| Search.Filter | app/api/fetchPrevVideoData/route.ts:44-48 | the rows kept come from the input and all pass the test; every row that passes is kept; a single element is kept exactly when it passes |
| Search.FilterAppend | app/api/summarize/summarizeTranscript.ts:60 | filtering distributes over concatenation, so the kept elements keep their input order |
| Search.FindFilter | app/api/fetchPrevVideoData/route.ts:44-56 | narrowing a table to a superset of a search's hits leaves the search's first hit unchanged |
| Search.Map | components/TranscriptAccordion.tsx:91-98 | `map` keeps the length and puts the image of each element at its index |
| Search.FindMap | lib/helpers/fetchPreviousVideData.ts:57-58 | searching the images of a map finds the image of the first element whose image passes |
| Intervals.BucketOf | app/api/get-timestamps/fetchTranscriptWithTimestamps.ts:31-32 | a segment's window is `floor(start_ms / 1000 / 30)`: the one 30-second window whose half-open range holds the segment's start |
| Intervals.SnippetText | app/api/get-timestamps/fetchTranscriptWithTimestamps.ts:19 | a segment contributes its snippet trimmed, and `""` for an absent snippet; no ensures: `Text.Trim` and `Text.TrimIsSlice` state what trimming keeps |
| Intervals.Aggregate | app/api/get-timestamps/fetchTranscriptWithTimestamps.ts:26-53 | the code as written equals the window-by-window reference; its output is aligned 30-second windows in strictly ascending order, has normalised texts, has no more intervals than segments, and is empty exactly for no segments |
| Intervals.Push | app/api/get-timestamps/fetchTranscriptWithTimestamps.ts:30-44 | one `reduce` step; no ensures: `PushStep` states what it does to the accumulator |
| Intervals.Group | app/api/get-timestamps/fetchTranscriptWithTimestamps.ts:26-47 | the `reduce` into a sparse array; no ensures: `GroupShape` states its result |
| Intervals.ValuesFrom | app/api/get-timestamps/fetchTranscriptWithTimestamps.ts:49 | `Object.values` as an ascending index scan; no ensures: `ValuesShape` states its result |
| Intervals.Finish | app/api/get-timestamps/fetchTranscriptWithTimestamps.ts:49-53 | the final `map` to intervals; no ensures: `ValuesShape` states its result |
| Intervals.AggregateIsReference | app/api/get-timestamps/fetchTranscriptWithTimestamps.ts:26-53 | `reduce`, `Object.values` and `map` compute the reference |
| Intervals.GroupShape | app/api/get-timestamps/fetchTranscriptWithTimestamps.ts:26-47 | the `reduce` ends with one slot per populated window, holding the window's bounds and its snippets in arrival order, and array length one past the highest window |
| Intervals.PushStep | app/api/get-timestamps/fetchTranscriptWithTimestamps.ts:30-44 | one `reduce` step on the expected accumulator gives the expected accumulator of the longer input |
| Intervals.ValuesShape | app/api/get-timestamps/fetchTranscriptWithTimestamps.ts:49-53 | `Object.values` followed by the final `map` lists the populated windows in ascending index order |
| Intervals.ReferenceFromShape | app/api/get-timestamps/fetchTranscriptWithTimestamps.ts:34-38 | every window listed starts at a multiple of 30 s, ends 30 s later and lies in the scanned range, and the windows ascend strictly |
| Intervals.ReferenceFromContent | app/api/get-timestamps/fetchTranscriptWithTimestamps.ts:42-52 | every listed interval is a populated window whose text is the normalised space-join of that window's snippets |
| Intervals.ReferenceCount | app/api/get-timestamps/fetchTranscriptWithTimestamps.ts:34-49 | there is one interval per populated window, so never more intervals than segments |
| Intervals.ReferenceComplete | app/api/get-timestamps/fetchTranscriptWithTimestamps.ts:34-49 | every populated window is listed |
| Intervals.ReferenceEmpty | app/api/get-timestamps/fetchTranscriptWithTimestamps.ts:26-46 | no segments give no intervals; some segments give some |
| Intervals.SnippetsInNonEmpty | app/api/get-timestamps/fetchTranscriptWithTimestamps.ts:34-42 | a window has snippets exactly when some segment falls in it |
| Intervals.SnippetsInAppend | app/api/get-timestamps/fetchTranscriptWithTimestamps.ts:42 | snippets keep their arrival order within a window |
| Intervals.Disjoint | app/api/get-timestamps/fetchTranscriptWithTimestamps.ts:34-38 | output intervals are pairwise disjoint half-open ranges |
| Intervals.PopulatedWindows | app/api/get-timestamps/fetchTranscriptWithTimestamps.ts:34-52 | window `k` appears exactly when some segment starts in it (gaps are never filled), and its text is the normalised join of that window's snippets |
| Intervals.SegmentPlacement | app/api/get-timestamps/fetchTranscriptWithTimestamps.ts:31-42 | each segment's start is covered by exactly one interval, the one of window `start_ms div 30000`, whose snippets include the segment's own |
| Intervals.CoversWindow | app/api/get-timestamps/fetchTranscriptWithTimestamps.ts:31-38 | an aligned window covers an instant exactly when it is the instant's `floor(ms / 1000 / 30)` window |
| Intervals.OrderIndependent | app/api/get-timestamps/fetchTranscriptWithTimestamps.ts:26-49 | the output depends only on each window's snippet list, so segments of different windows may arrive in any order |
| Generation.Prompt | app/api/summarize/summarizeTranscript.ts:2-21 | the prompt carries the transcript verbatim between the two halves of the template |
| Generation.ReadStream | app/api/summarize/summarizeTranscript.ts:47-55 | the accumulated text is the in-order concatenation of all decoded chunks |
| Generation.IsBlank | app/api/summarize/summarizeTranscript.ts:60 | `line.trim() === ""`, read through `Text.TrimEmptyIff` as "all whitespace"; no ensures: a test |
| Generation.NonBlank | app/api/summarize/summarizeTranscript.ts:60 | no ensures of its own: it is `Search.Filter` with the non-blank test, so it keeps exactly the non-blank lines, in order |
| Generation.NonBlankAppend | app/api/summarize/summarizeTranscript.ts:60 | the blank-line filter distributes over concatenation |
| Generation.Aggregate | app/api/summarize/summarizeTranscript.ts:58-63 | split, filter, parse and join; no ensures: `NdjsonFraming`, `BlankLineIgnored` and `BlankStream` state its result |
| Generation.Fields | app/api/summarize/summarizeTranscript.ts:61-63 | the fields are extracted exactly when every line parses; no lines give `""` and a single line gives its own field, so with `FieldsAppend` the value is the in-order concatenation of the lines' fields |
| Generation.FieldsAppend | app/api/summarize/summarizeTranscript.ts:61-63 | the fields of consecutive runs of lines concatenate, and a failure anywhere fails the whole |
| Generation.SummarizeTranscript | app/api/summarize/summarizeTranscript.ts:29-69 | success exactly when the request is answered, the status is ok, there is a reader, every `read()` resolves until `done` and every non-blank line parses; the answer is then the text extracted from the whole stream; every failure carries the one message "Failed to summarize transcript" |
| Generation.NdjsonFraming | app/api/summarize/summarizeTranscript.ts:58-63 | for one JSON object per line, the result is the concatenation of the fields of the non-blank lines, in order |
| Generation.BlankLineIgnored | app/api/summarize/summarizeTranscript.ts:60 | a blank line anywhere in the stream changes nothing |
| Generation.BlankStream | app/api/summarize/summarizeTranscript.ts:58-63 | a whitespace-only stream, the empty one included, yields `""` |
| SummarizeRoute.GetYouTubeTranscript | app/api/summarize/route.ts:9-25 | an empty or missing id fails before any fetch; any fetch error becomes "Failed to fetch transcript"; the title defaults to "Title not available"; segments are joined with single spaces, and the text defaults to "Transcript not available" |
| SummarizeRoute.BearerToken | app/api/summarize/route.ts:88-90 | `header?.split("Bearer ")[1]`; no ensures: `BearerTokenOfHeader` and `NoBearerNoToken` state its result |
| SummarizeRoute.BearerTokenOfHeader | app/api/summarize/route.ts:88-90 | `Bearer <token>` yields `<token>` when the token does not itself contain `"Bearer "` |
| SummarizeRoute.NoBearerNoToken | app/api/summarize/route.ts:88-90 | a header that never mentions `"Bearer "` carries no token |
| SummarizeRoute.ResolveUser | app/api/summarize/route.ts:81-100 | outside extension mode the session's user; in extension mode a missing secret fails first, then a missing token; with both present, the result succeeds exactly when the verifier accepts the token: a rejection gives the verifier's own error, an accepted token gives `sub` when it is a string and no user otherwise |
| SummarizeRoute.ExtensionCallerIsTokenSubject | app/api/summarize/route.ts:87-99 | an extension request with `Bearer <token>` that the verifier accepts acts as the token's subject |
| SummarizeRoute.GetVideoData | app/api/summarize/route.ts:48-61 | `single()` gives a row only when exactly one row has the key; `PGRST116` reads as no row; any other store error is raised with its message |
| SummarizeRoute.GetSummary | app/api/summarize/route.ts:64-78 | a summary is served exactly when the lookup has no store error and the video has exactly one summary, so several rows give none; a served summary is stored for that video |
| SummarizeRoute.Flag | app/api/summarize/route.ts:41-42 | a boolean query parameter is set only by the exact text `"true"`; no ensures: the handler lemmas state its effect |
| SummarizeRoute.LookupKey | app/api/summarize/route.ts:102 | the key of the video lookup, with an absent `video_id` written as the text `null`; no ensures: `VideoWrites` and `SummaryWrites` use it |
| SummarizeRoute.KnownId | app/api/summarize/route.ts:103-105 | the looked-up internal id only when truthy, so `0` and no row both lead to a new row; no ensures: `VideoWrites` and `SummaryWrites` state what follows from it |
| SummarizeRoute.CachedTitle | app/api/summarize/route.ts:122 | the looked-up row's title when it is non-empty, otherwise "Unknown Title"; no ensures: `CacheHit` states it |
| SummarizeRoute.Get | app/api/summarize/route.ts:38-151 | the handler; no ensures: the lemmas below state its behaviour |
| SummarizeRoute.Resolve | app/api/summarize/route.ts:102-142 | the handler once the caller and the video lookup are known; no ensures: `ResolveCreates`, `ResolveKeepsStoreValid` and the lemmas below state its behaviour |
| SummarizeRoute.ResolveCreates | app/api/summarize/route.ts:105-117 | for a first-seen video whose row is inserted, the handler goes on to the summary phase on the store holding the new row, filed under the next id with the transcript's title, after exactly the transcript fetch and the insert |
| SummarizeRoute.MissingVideoId | app/api/summarize/route.ts:105-106 | with no usable id from the lookup and no `video_id`, the answer is the 500 "Missing video_id" with no outside call and the store unchanged |
| SummarizeRoute.FirstFetchFailure | app/api/summarize/route.ts:105-107 | a failing transcript fetch for a new row's title is answered with "Failed to fetch transcript" after that one fetch, with the store unchanged |
| SummarizeRoute.VideoInsertFailure | app/api/summarize/route.ts:107-114 | a failed video insert leaves `newVideo` null; reading its `id` throws, and the answer is that error with the store unchanged |
| SummarizeRoute.GenerationFailure | app/api/summarize/route.ts:129-130 | past a summary lookup that finds nothing, a failed generation is answered with "Failed to summarize transcript" and nothing is stored |
| SummarizeRoute.ErrorsAreThrown | app/api/summarize/route.ts:143-150 | every 500 the handler answers carries the message of an error thrown on the way: the identity failure, the store's message of a failed video lookup, "Missing video_id", a transcript failure, the null-row error or the adapter's failure |
| SummarizeRoute.RespondErrors | app/api/summarize/route.ts:129-130 | the only errors of the summary phase are the transcript failures and the adapter's failure |
| SummarizeRoute.Respond | app/api/summarize/route.ts:117-142 | the handler from the summary lookup on; no ensures: the `Respond…` lemmas state its behaviour |
| SummarizeRoute.CacheHit | app/api/summarize/route.ts:117-127 | a video with a truthy looked-up id and exactly one readable summary is answered with that summary's content under the looked-up row's title, or "Unknown Title" when that title is empty or absent, with no outside call and no write |
| SummarizeRoute.NewRowWithoutSummary | app/api/summarize/route.ts:105-150 | when the new row is created but the second transcript fetch fails, the answer is "Failed to fetch transcript" and the new video row stays behind with no summary |
| SummarizeRoute.IdentityFailureFirst | app/api/summarize/route.ts:80-100 | an identity failure ends the request with status 500 and its message, before any lookup, write or outside call |
| SummarizeRoute.VideoLookupErrorPropagates | app/api/summarize/route.ts:55-58 | a video lookup error other than `PGRST116` is answered with the store's message, and nothing else happens |
| SummarizeRoute.SummaryLookupSoftFail | app/api/summarize/route.ts:71-75 | a failing summary lookup is read as "no summary": the answer and outside calls are those of a lookup that finds nothing |
| SummarizeRoute.CachedOrGenerated | app/api/summarize/route.ts:117-142 | every summary answered is either a stored summary of the requested video, served with no outside call and no write, or one generated in this request from the transcript of `video_id` |
| SummarizeRoute.RespondGenerates | app/api/summarize/route.ts:129-142 | past a summary lookup that finds nothing, a successful answer is always freshly generated |
| SummarizeRoute.VideoWrites | app/api/summarize/route.ts:102-115 | a video row insert happens exactly when identity resolves, the lookup gives no usable id, `video_id` is given and its transcript can be fetched; an insert that does not fail appends exactly one row carrying the next id, the external id and the transcript's title, and otherwise the video table is unchanged |
| SummarizeRoute.RespondKeepsVideos | app/api/summarize/route.ts:117-142 | past the video lookup no video row is written |
| SummarizeRoute.SummaryWrites | app/api/summarize/route.ts:102-138 | a summary insert happens exactly when `save` is set and a fresh summary is answered; the one row appended carries that content and the resolved user, and is filed under the looked-up internal id or under the id of the row just created; when no insert happens or the insert fails the summary table is unchanged, and a failed write goes unreported |
| SummarizeRoute.RespondWrites | app/api/summarize/route.ts:129-138 | from the summary lookup on, the insert happens exactly when `save` is set and a summary is generated; an insert that does not fail appends exactly one row with the next id, the internal video id, the user and the generated content; otherwise the summary table is unchanged |
| SummarizeRoute.ValidStoreAddVideo | app/api/summarize/route.ts:108-114 | inserting a video with the next id keeps the store consistent, and the new id names a stored video |
| SummarizeRoute.RespondKeepsStoreValid | app/api/summarize/route.ts:117-138 | filing a summary under a stored video keeps the store consistent |
| SummarizeRoute.StoreStaysValid | app/api/summarize/route.ts:102-138 | the handler keeps the store consistent: the next id is at least 1, as a serial column's is, so a created row's id is truthy; ids stay below the next id; every summary belongs to a stored video |
| SummarizeRoute.ResolveKeepsStoreValid | app/api/summarize/route.ts:102-138 | past the lookup, the handler keeps the store consistent |
| SummarizeRoute.NewVideoFetchesTwice | app/api/summarize/route.ts:105-129 | for a video seen for the first time, the transcript is fetched once for the new row's title and once more for the summary |
| SummarizeRoute.RespondWithoutSummary | app/api/summarize/route.ts:117-142 | when no summary is found, the answer and outside calls depend only on the transcript provider and the completion server |
| PrevVideosRoute.Entry | app/api/fetchPrevVideoData/route.ts:73-84 | an entry copies `id`, `video_id` and `title`; `summary` and `endTime` come from the first summary of the video, or are `""`; `datePosted` equals `endTime` |
| PrevVideosRoute.WithSummaries | app/api/fetchPrevVideoData/route.ts:73-84 | one entry per video, in the videos' order |
| PrevVideosRoute.Ids | app/api/fetchPrevVideoData/route.ts:69 | the id list holds each video's internal id at its index |
| PrevVideosRoute.Get | app/api/fetchPrevVideoData/route.ts:28-96 | status 500 exactly when a query fails; 404 "No videos found in the database" exactly when the video table is empty or `null`; summaries are queried exactly for the fetched videos' ids; otherwise one entry per video, in order, with its first summary |
| PrevVideosRoute.InIds | app/api/fetchPrevVideoData/route.ts:44-48 | the `in` query returns table rows whose `video_id` is in the list, and every such row |
| PrevVideosRoute.InQueryLosesNothing | app/api/fetchPrevVideoData/route.ts:69-84 | querying only the fetched videos' summaries gives the same answer as joining the whole summary table |
| PrevVideosHelper.Entry | lib/helpers/fetchPreviousVideData.ts:57-72 | an entry copies `id`, `videoId` and `title`; `summary` and `endTime` come from the first summary with `videoId === video.id`, or are `""`; `datePosted` equals `endTime` |
| PrevVideosHelper.FetchVideosWithSummaries | lib/helpers/fetchPreviousVideData.ts:27-78 | an error on either query gives `[]`; no videos give `[]`; `null` data without an error ends in the `TypeError` of `map` or `find`; otherwise one entry per video, in order |
| PrevVideosAgreement.EntryAgrees | lib/helpers/fetchPreviousVideData.ts:57-72 | over the same rows, read through each file's column names, the helper's entry is the route's entry |
| PrevVideosAgreement.SameJoin | lib/helpers/fetchPreviousVideData.ts:57-77 | with at least one video and no failing query, the helper returns the endpoint's answer |
| PrevVideosAgreement.EmptyTableDiffers | app/api/fetchPrevVideoData/route.ts:62-67 | on an empty video table the endpoint answers 404 while the helper returns `[]` |
| TranscriptView.ActiveAt | components/TranscriptAccordion.tsx:85 | an interval is active when the current time lies in its half-open range; no ensures: `ActiveIsCovers` relates it to the aggregator's windows |
| TranscriptView.ActiveIndex | components/TranscriptAccordion.tsx:82-87 | the position of the active interval; no ensures: it inherits `Search.FindIndex`'s contract |
| TranscriptView.GetActiveTimestamp | components/TranscriptAccordion.tsx:82-87 | the active interval is the first holding the current time, and there is none exactly when no interval holds it |
| TranscriptView.AtMostOneActive | components/TranscriptAccordion.tsx:82-87 | over the aggregator's output no two intervals are active at once |
| TranscriptView.ActiveIsCovers | components/TranscriptAccordion.tsx:85 | the active test at `ms / 1000` seconds is the aggregator's coverage of the instant `ms` |
| TranscriptView.ActiveAtSegmentStart | components/TranscriptAccordion.tsx:82-87 | when playback reaches a segment's start, the active interval is that segment's own window |
| TranscriptView.IsTranscriptUnavailable | components/TranscriptAccordion.tsx:114-116 | `timestamps.every(t => t.text.trim() === "")`; no ensures: `UnavailableIff` states it |
| TranscriptView.UnavailableIff | components/TranscriptAccordion.tsx:114-116 | the transcript is unavailable exactly when every text is whitespace only, and an empty list counts as unavailable |
| TranscriptView.UnavailableNormalized | components/TranscriptAccordion.tsx:114-116 | over normalised texts, the test reads "every text is `""` or `" "`" |
| TranscriptView.Render | components/TranscriptAccordion.tsx:142-196 | the panel is the skeleton exactly while loading, then the error, then "no timestamps", then "unavailable", then the list; in the list exactly the row at the active index is highlighted |
| TranscriptView.Rows | components/TranscriptAccordion.tsx:169-183 | one row per interval, in order, highlighted exactly at the active index |
| TranscriptView.HighlightIsActive | components/TranscriptAccordion.tsx:169-183 | listing the aggregator's output, a row is highlighted exactly when its interval holds the current time, and at most one row is |
| TranscriptView.ErrorMessage | components/TranscriptAccordion.tsx:63 | an empty error message falls back to "Failed to load timestamps."; no ensures: `FetchTimestamps` states that the error set is never empty |
| TranscriptView.FetchTimestamps | components/TranscriptAccordion.tsx:41-67 | a failed request keeps the old intervals and sets a non-empty error; a non-ok reply's error names the status text; a good one sets `data.intervals || []`; the video length is reported exactly for a non-empty list with a setter, as the last interval's formatted end |
| TranscriptView.LoadThenRender | components/TranscriptAccordion.tsx:41-67 | after a load the panel is the error for a failed request, "no timestamps" for an empty list, and "unavailable" exactly for an all-blank list |
| TranscriptView.Header | components/TranscriptAccordion.tsx:90 | the download's header line with the title and the video's link; no ensures: `DownloadText` states where it goes |
| TranscriptView.Block | components/TranscriptAccordion.tsx:93-96 | one interval's formatted range in brackets, a newline and its text; no ensures: `DownloadText` and `DownloadAppend` state where it goes |
| TranscriptView.DownloadText | components/TranscriptAccordion.tsx:89-100 | the text starts with the header; no intervals give the header alone; one interval gives the header and its block |
| TranscriptView.DownloadAppend | components/TranscriptAccordion.tsx:91-98 | each further interval adds a blank line and its block at the end, so blocks follow in order |

## Left out

- The caption providers are left out: the Innertube client, `getInfo` and `getTranscript` in `fetchTranscriptWithTimestamps.ts`, and `fetchTranscript`, which is not part of this model. The segments and the two fetch oracles are inputs.
- Intervals.BucketOf: `parseInt(start_ms) / 1000 / 30` is floating point; the model takes `start_ms` as a natural number of milliseconds and uses `div 30000`. Negative or unparsable `start_ms` is not modelled. `end_ms`, `start_time_text` and `target_id` are carried or dropped as in the code but never read.
- `TextDecoder`, `JSON.parse` and `jwt.verify` are oracles: the reply's chunks are given already decoded, `parseLine` stands for parsing a line and reading `.response`, and `verify` gives the `sub` claim or an error message.
- Generation.ReadStream: it models the read loop of a stream that completes; a rejected `read()` is modelled in `SummarizeTranscript` through the stream's `completes` flag.
- Prompt wording: the template is an abstract pair of strings around the transcript.
- SummarizeRoute.ResolveUser: a failure of the session lookup `getUser` is not modelled; the session user is an input.
- The `OPTIONS` handler of the summarize route (a constant 204 response with CORS headers) is not modelled.
- Concurrency: the check-then-insert race between two requests for the same uncached video is not modelled; each request is one state transition of the store.
- SummarizeRoute.GetSummary: the rows' selected columns are not distinguished, and a store error other than several matching rows is an injected fault.
- SummarizeRoute.Get: the transcript provider is two independent oracles, one per call site (`route.ts:107` and `route.ts:129`), so the two fetches of one request may disagree; a provider whose answer depends on more than the call site and the video id is not modelled.
- PrevVideosRoute.InIds: the order of the rows an `in` query returns is taken to be table order.
- TranscriptView.FetchTimestamps: `data.intervals` is modelled as absent, falsy or an interval list; other truthy non-array values are not modelled. `formatTime` is an uninterpreted function.
- The accordion's UI effects: the `useEffect` that loads on a truthy `videoId`, auto-scrolling, seeking, the Blob/download mechanics and the download file name.
- TranscriptView.GetActiveTimestamp: the player's time is a real number, not a floating-point value.
- The other UI files, the clipboard hook, the Electron bootstrap, static configuration and the store client are outside the modelled core.
