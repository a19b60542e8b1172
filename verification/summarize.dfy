/** The summarize endpoint: resolve the caller's identity, find or create the
    video's row, return a stored summary when there is one, and otherwise
    fetch the transcript, generate a summary and, on request, store it.

    The store is explicit data; the transcript provider, the token verifier,
    the session and the completion server are parameters; failures of the
    store's requests are injected through `Faults`. Every call the handler
    makes to the outside, and every row it writes, is listed in the outcome's
    `effects`. */
module SummarizeRoute {
  import opened Wrappers
  import Text
  import Generation
  import Search

  // ---------------------------------------------------------------------------
  // Messages and defaults

  const InvalidVideoMessage: string := "Invalid video URL or missing video ID"
  const FetchFailedMessage: string := "Failed to fetch transcript"
  const MissingSecretMessage: string := "Missing JWT_SECRET"
  const MissingTokenMessage: string := "Missing access_token"
  const MissingVideoIdMessage: string := "Missing video_id"
  /** What reading `id` of the `null` a failed video insert returns throws. */
  const NullRowMessage: string := "Cannot read properties of null (reading 'id')"
  const TitleFallback: string := "Title not available"
  const TranscriptFallback: string := "Transcript not available"
  const UnknownTitle: string := "Unknown Title"
  /** The store's code for "`single()` found no row, or several". */
  const NoRowCode: string := "PGRST116"

  /** JavaScript falsiness of an optional string: absent or empty. */
  predicate Falsy(s: Option<string>) {
    s.None? || s.value == []
  }

  // ---------------------------------------------------------------------------
  // Transcript fetching

  /** What the transcript provider reports for a video: its title and the
      texts of its caption segments, either possibly absent. */
  datatype Transcript = Transcript(title: Option<string>, segments: Option<seq<string>>)

  datatype Fetched = Fetched(title: string, transcript: string)

  /** `getYouTubeTranscript`: refuses a missing id before any fetch, reports
      every provider failure with one message, and fills in defaults. */
  function GetYouTubeTranscript(fetch: string -> Result<Transcript, string>, videoId: Option<string>): (r: Result<Fetched, string>)
    ensures Falsy(videoId) ==> r == Failure(InvalidVideoMessage)
    ensures !Falsy(videoId) ==> (r.Failure? <==> fetch(videoId.value).Failure?)
    ensures !Falsy(videoId) && r.Failure? ==> r.error == FetchFailedMessage
    ensures r.Success? ==>
              && r.value.title == fetch(videoId.value).value.title.GetOr(TitleFallback)
              && (fetch(videoId.value).value.segments.None? ==> r.value.transcript == TranscriptFallback)
              && (fetch(videoId.value).value.segments.Some? ==>
                    r.value.transcript == Text.Join(fetch(videoId.value).value.segments.value, " "))
  {
    if Falsy(videoId) then Failure(InvalidVideoMessage)
    else
      match fetch(videoId.value)
      case Failure(_) => Failure(FetchFailedMessage)
      case Success(t) =>
        Success(Fetched(
          t.title.GetOr(TitleFallback),
          match t.segments
          case Some(texts) => Text.Join(texts, " ")
          case None => TranscriptFallback))
  }

  // ---------------------------------------------------------------------------
  // Identity

  /** The `sub` claim of a verified token: a string, or anything else
      (absent, another type, or a payload that is itself a string). */
  datatype Claim = Subject(sub: string) | NoStringSubject

  /** The token in an `Authorization` header: the piece after the first
      `"Bearer "`, as `header?.split("Bearer ")[1]` reads it. */
  function BearerToken(header: Option<string>): Option<string> {
    match header
    case None => None
    case Some(h) =>
      var parts := Text.SplitOn(h, "Bearer ");
      if |parts| > 1 then Some(parts[1]) else None
  }

  /** A header `Bearer <token>` carries `<token>` when the token itself does
      not contain `"Bearer "`. */
  lemma BearerTokenOfHeader(token: string)
    requires Text.FreeOf(token, "Bearer ")
    ensures BearerToken(Some("Bearer " + token)) == Some(token)
  {
    var h := "Bearer " + token;
    assert h[|"Bearer "|..] == token;
    Text.SplitWithoutSeparator(token, "Bearer ");
  }

  /** A header that never mentions `"Bearer "` carries no token. */
  lemma NoBearerNoToken(header: string)
    requires Text.FreeOf(header, "Bearer ")
    ensures BearerToken(Some(header)) == None
  {
    Text.SplitWithoutSeparator(header, "Bearer ");
  }

  /** The handler's environment: session, secret, token verifier, transcript
      provider, completion server and the store's injected failures. The
      handler asks the transcript provider at most twice, from two places:
      for the title of a new video row, and for the transcript to summarise.
      Each place has its own oracle, so the two answers may differ. */
  datatype Env = Env(
    sessionUser: Option<string>,
    jwtSecret: Option<string>,
    verify: (string, string) -> Result<Claim, string>,
    fetchForRow: string -> Result<Transcript, string>,
    fetchForSummary: string -> Result<Transcript, string>,
    template: Generation.Template,
    backend: Generation.Backend,
    faults: Faults)

  /** The caller's user id. Outside extension mode it is the session's user,
      if any. In extension mode a missing secret is reported first, then a
      missing token, then a token the verifier rejects; a verified token
      yields its `sub` claim when that is a string and no user otherwise. */
  function ResolveUser(extension: bool, authorization: Option<string>, env: Env): (r: Result<Option<string>, string>)
    ensures !extension ==> r == Success(env.sessionUser)
    ensures extension && Falsy(env.jwtSecret) ==> r == Failure(MissingSecretMessage)
    ensures extension && !Falsy(env.jwtSecret) && Falsy(BearerToken(authorization)) ==>
              r == Failure(MissingTokenMessage)
    ensures extension && r.Success? ==>
              && !Falsy(env.jwtSecret) && !Falsy(BearerToken(authorization))
              && var claim := env.verify(BearerToken(authorization).value, env.jwtSecret.value);
                 claim.Success? && (r.value.Some? <==> claim.value.Subject?)
                 && (r.value.Some? ==> r.value.value == claim.value.sub)
    ensures extension && !Falsy(env.jwtSecret) && !Falsy(BearerToken(authorization)) ==>
              var claim := env.verify(BearerToken(authorization).value, env.jwtSecret.value);
              && (r.Success? <==> claim.Success?)
              && (claim.Failure? ==> r == Failure(claim.error))
              && (claim.Success? && claim.value.NoStringSubject? ==> r == Success(None))
              && (claim.Success? && claim.value.Subject? ==> r == Success(Some(claim.value.sub)))
  {
    if !extension then Success(env.sessionUser)
    else
      var token := BearerToken(authorization);
      if Falsy(env.jwtSecret) then Failure(MissingSecretMessage)
      else if Falsy(token) then Failure(MissingTokenMessage)
      else
        match env.verify(token.value, env.jwtSecret.value)
        case Failure(message) => Failure(message)
        case Success(Subject(sub)) => Success(Some(sub))
        case Success(NoStringSubject) => Success(None)
  }

  // ---------------------------------------------------------------------------
  // The store

  datatype VideoRow = VideoRow(id: nat, videoId: string, title: Option<string>)
  datatype SummaryRow = SummaryRow(id: nat, videoId: nat, userId: Option<string>, content: string)

  /** Both tables and the next id the store hands out. */
  datatype Store = Store(videos: seq<VideoRow>, summaries: seq<SummaryRow>, nextId: nat)

  datatype DbError = DbError(code: string, message: string)

  /** Requests of the store that fail: the two lookups with the error they
      return, and the two inserts. */
  datatype Faults = Faults(
    videoSelect: Option<DbError>,
    summarySelect: Option<DbError>,
    videoInsertFails: bool,
    summaryInsertFails: bool)

  /** A serial id column hands out ids from 1, so `nextId` is never the
      falsy `0`; ids are below `nextId`, and every summary belongs to a
      stored video. */
  predicate ValidStore(s: Store) {
    && s.nextId >= 1
    && (forall i :: 0 <= i < |s.videos| ==> s.videos[i].id < s.nextId)
    && (forall i :: 0 <= i < |s.summaries| ==> s.summaries[i].id < s.nextId)
    && (forall i :: 0 <= i < |s.summaries| ==> HasVideo(s, s.summaries[i].videoId))
  }

  predicate HasVideo(s: Store, id: nat) {
    exists j :: 0 <= j < |s.videos| && s.videos[j].id == id
  }

  /** Video rows whose external id is `key`, in table order. */
  function VideosWithKey(videos: seq<VideoRow>, key: string): (r: seq<VideoRow>)
    ensures forall i :: 0 <= i < |r| ==> r[i] in videos && r[i].videoId == key
    ensures forall i :: 0 <= i < |videos| && videos[i].videoId == key ==> videos[i] in r
  {
    Search.Filter(videos, (v: VideoRow) => v.videoId == key)
  }

  /** Summary rows of the video with internal id `id`, in table order. */
  function SummariesOf(summaries: seq<SummaryRow>, id: nat): (r: seq<SummaryRow>)
    ensures forall i :: 0 <= i < |r| ==> r[i] in summaries && r[i].videoId == id
    ensures forall i :: 0 <= i < |summaries| && summaries[i].videoId == id ==> summaries[i] in r
  {
    Search.Filter(summaries, (s: SummaryRow) => s.videoId == id)
  }

  /** `getVideoData`: `single()` yields the row only when exactly one
      matches; otherwise it reports `PGRST116`, which the handler reads as
      "no row". Any other error is thrown. */
  function GetVideoData(store: Store, faults: Faults, key: string): (r: Result<Option<VideoRow>, string>)
    ensures r.Success? && r.value.Some? ==> r.value.value in store.videos && r.value.value.videoId == key
    ensures faults.videoSelect.Some? ==>
              if faults.videoSelect.value.code == NoRowCode then r == Success(None)
              else r == Failure(faults.videoSelect.value.message)
    ensures faults.videoSelect.None? ==>
              r.Success? && (r.value.Some? <==> |VideosWithKey(store.videos, key)| == 1)
  {
    match faults.videoSelect
    case Some(e) => if e.code == NoRowCode then Success(None) else Failure(e.message)
    case None =>
      var rows := VideosWithKey(store.videos, key);
      if |rows| == 1 then Success(Some(rows[0])) else Success(None)
  }

  /** `getSummary`: `maybeSingle()` yields the row when exactly one matches
      and none when none does; several rows, like any other error, are
      logged and read as "no summary". */
  function GetSummary(store: Store, faults: Faults, id: nat): (r: Option<SummaryRow>)
    ensures r.Some? ==> r.value in store.summaries && r.value.videoId == id
    ensures r.Some? <==> faults.summarySelect.None? && |SummariesOf(store.summaries, id)| == 1
  {
    if faults.summarySelect.Some? then None
    else
      var rows := SummariesOf(store.summaries, id);
      if |rows| == 1 then Some(rows[0]) else None
  }

  // ---------------------------------------------------------------------------
  // The handler

  /** The query parameters and the `Authorization` header. */
  datatype Request = Request(
    videoId: Option<string>,
    extension: Option<string>,
    save: Option<string>,
    authorization: Option<string>)

  datatype Response = Ok(title: string, summary: string) | ServerError(message: string)

  /** A call to the outside or a row written. */
  datatype Effect =
    | FetchTranscript(videoId: string)
    | InsertVideo(videoId: string, title: string)
    | Generate(prompt: string)
    | InsertSummary(videoIdInDb: nat, userId: Option<string>, content: string)

  datatype Outcome = Outcome(response: Response, store: Store, effects: seq<Effect>)

  /** A boolean query parameter is set only by the exact text `"true"`. */
  function Flag(param: Option<string>): bool {
    param == Some("true")
  }

  /** The value the video lookup filters on; supabase-js writes an absent
      value into the filter as the text `null`. */
  function LookupKey(videoId: Option<string>): string {
    videoId.GetOr("null")
  }

  /** The internal id the lookup gives, if truthy (`0` is falsy). */
  function KnownId(videoData: Option<VideoRow>): Option<nat> {
    if videoData.Some? && videoData.value.id != 0 then Some(videoData.value.id) else None
  }

  /** `videoData?.title || "Unknown Title"`. */
  function CachedTitle(videoData: Option<VideoRow>): string {
    if videoData.Some? && !Falsy(videoData.value.title) then videoData.value.title.value else UnknownTitle
  }

  /** The `GET` handler. */
  function Get(req: Request, env: Env, store: Store): Outcome {
    match ResolveUser(Flag(req.extension), req.authorization, env)
    case Failure(m) => Outcome(ServerError(m), store, [])
    case Success(userId) =>
      match GetVideoData(store, env.faults, LookupKey(req.videoId))
      case Failure(m) => Outcome(ServerError(m), store, [])
      case Success(videoData) => Resolve(req, userId, videoData, env, store)
  }

  /** The handler once the caller and the video lookup are known: the
      looked-up id, or a new video row made from the first transcript
      fetch, and then the summary phase. */
  function Resolve(req: Request, userId: Option<string>, videoData: Option<VideoRow>, env: Env, store: Store): Outcome {
    if KnownId(videoData).Some? then
      Respond(req.videoId, Flag(req.save), userId, videoData, KnownId(videoData).value, env, store, [])
    else if Falsy(req.videoId) then
      Outcome(ServerError(MissingVideoIdMessage), store, [])
    else
      var v := req.videoId.value;
      match GetYouTubeTranscript(env.fetchForRow, req.videoId)
      case Failure(m) => Outcome(ServerError(m), store, [FetchTranscript(v)])
      case Success(fetched) =>
        var effects := [FetchTranscript(v), InsertVideo(v, fetched.title)];
        if env.faults.videoInsertFails then
          Outcome(ServerError(NullRowMessage), store, effects)
        else
          var id := store.nextId;
          var created := store.(videos := store.videos + [VideoRow(id, v, Some(fetched.title))], nextId := id + 1);
          Respond(req.videoId, Flag(req.save), userId, videoData, id, env, created, effects)
  }

  /** The transcript fetch `getYouTubeTranscript` makes, if it gets that far. */
  function FetchEffects(videoId: Option<string>): seq<Effect> {
    if Falsy(videoId) then [] else [FetchTranscript(videoId.value)]
  }

  /** The handler from the summary lookup on, once the video's internal id
      is known: the stored summary, or a fresh one stored when `save`. */
  function Respond(videoId: Option<string>, save: bool, userId: Option<string>, videoData: Option<VideoRow>,
                   videoIdInDb: nat, env: Env, store: Store, effects: seq<Effect>): Outcome
  {
    match GetSummary(store, env.faults, videoIdInDb)
    case Some(existing) => Outcome(Ok(CachedTitle(videoData), existing.content), store, effects)
    case None =>
      var fetched := effects + FetchEffects(videoId);
      match GetYouTubeTranscript(env.fetchForSummary, videoId)
      case Failure(m) => Outcome(ServerError(m), store, fetched)
      case Success(t) =>
        var generated := fetched + [Generate(Generation.Prompt(env.template, t.transcript))];
        match Generation.SummarizeTranscript(env.template, env.backend, t.transcript)
        case Failure(m) => Outcome(ServerError(m), store, generated)
        case Success(content) =>
          if !save then Outcome(Ok(t.title, content), store, generated)
          else
            var stored :=
              if env.faults.summaryInsertFails then store
              else store.(summaries := store.summaries + [SummaryRow(store.nextId, videoIdInDb, userId, content)],
                          nextId := store.nextId + 1);
            Outcome(Ok(t.title, content), stored, generated + [InsertSummary(videoIdInDb, userId, content)])
  }

  // ---------------------------------------------------------------------------
  // Properties

  predicate Generates(effects: seq<Effect>) {
    exists i :: 0 <= i < |effects| && effects[i].Generate?
  }

  predicate InsertsSummary(effects: seq<Effect>) {
    exists i :: 0 <= i < |effects| && effects[i].InsertSummary?
  }

  predicate InsertsVideo(effects: seq<Effect>) {
    exists i :: 0 <= i < |effects| && effects[i].InsertVideo?
  }

  /** In a consistent store no summary belongs to the id handed out next. */
  lemma NoSummaryForNextId(store: Store, faults: Faults)
    requires ValidStore(store)
    ensures GetSummary(store, faults, store.nextId) == None
  {
  }

  /** A failure to establish the caller's identity ends the request with its
      message before the store or anything outside is touched. */
  lemma IdentityFailureFirst(req: Request, env: Env, store: Store)
    requires ResolveUser(Flag(req.extension), req.authorization, env).Failure?
    ensures Get(req, env, store)
         == Outcome(ServerError(ResolveUser(Flag(req.extension), req.authorization, env).error), store, [])
  {
  }

  /** A failing video lookup, other than "no single row", is reported with
      the store's own message, and nothing else happens. */
  lemma VideoLookupErrorPropagates(req: Request, env: Env, store: Store)
    requires ResolveUser(Flag(req.extension), req.authorization, env).Success?
    requires env.faults.videoSelect.Some? && env.faults.videoSelect.value.code != NoRowCode
    ensures Get(req, env, store) == Outcome(ServerError(env.faults.videoSelect.value.message), store, [])
  {
  }

  /** With no usable id from the lookup and no `video_id`, the handler throws
      "Missing video_id" before any outside call or write. */
  lemma MissingVideoId(req: Request, env: Env, store: Store)
    requires ResolveUser(Flag(req.extension), req.authorization, env).Success?
    requires var lookup := GetVideoData(store, env.faults, LookupKey(req.videoId));
             lookup.Success? && KnownId(lookup.value).None?
    requires Falsy(req.videoId)
    ensures Get(req, env, store) == Outcome(ServerError(MissingVideoIdMessage), store, [])
  {
  }

  /** A failing first transcript fetch, the one for the new row's title, is
      answered with the fetch failure before any write. */
  lemma FirstFetchFailure(req: Request, env: Env, store: Store)
    requires ResolveUser(Flag(req.extension), req.authorization, env).Success?
    requires var lookup := GetVideoData(store, env.faults, LookupKey(req.videoId));
             lookup.Success? && KnownId(lookup.value).None?
    requires !Falsy(req.videoId)
    requires env.fetchForRow(req.videoId.value).Failure?
    ensures Get(req, env, store)
         == Outcome(ServerError(FetchFailedMessage), store, [FetchTranscript(req.videoId.value)])
  {
  }

  /** A video insert that fails leaves `newVideo` null; reading its `id`
      throws, and the answer is that error with the store unchanged. */
  lemma VideoInsertFailure(req: Request, env: Env, store: Store)
    requires ResolveUser(Flag(req.extension), req.authorization, env).Success?
    requires var lookup := GetVideoData(store, env.faults, LookupKey(req.videoId));
             lookup.Success? && KnownId(lookup.value).None?
    requires !Falsy(req.videoId)
    requires GetYouTubeTranscript(env.fetchForRow, req.videoId).Success?
    requires env.faults.videoInsertFails
    ensures var v := req.videoId.value;
            var title := GetYouTubeTranscript(env.fetchForRow, req.videoId).value.title;
            Get(req, env, store) == Outcome(ServerError(NullRowMessage), store, [FetchTranscript(v), InsertVideo(v, title)])
  {
  }

  /** Past a summary lookup that finds nothing, a failed generation is
      answered with the adapter's message and nothing is stored. */
  lemma GenerationFailure(videoId: Option<string>, save: bool, userId: Option<string>, videoData: Option<VideoRow>,
                          id: nat, env: Env, store: Store, effects: seq<Effect>)
    requires GetSummary(store, env.faults, id).None?
    requires GetYouTubeTranscript(env.fetchForSummary, videoId).Success?
    requires var t := GetYouTubeTranscript(env.fetchForSummary, videoId).value;
             Generation.SummarizeTranscript(env.template, env.backend, t.transcript).Failure?
    ensures var o := Respond(videoId, save, userId, videoData, id, env, store, effects);
            o.response == ServerError(Generation.FailureMessage) && o.store == store
  {
  }

  /** Every error the handler answers with is one the route throws: the
      identity failure, the store's message for a failed video lookup,
      "Missing video_id", a transcript failure, the null-row error of a
      failed insert, or the adapter's failure. */
  lemma ErrorsAreThrown(req: Request, env: Env, store: Store)
    ensures var o := Get(req, env, store);
            var user := ResolveUser(Flag(req.extension), req.authorization, env);
            o.response.ServerError? ==>
              || (user.Failure? && o.response.message == user.error)
              || (env.faults.videoSelect.Some? && o.response.message == env.faults.videoSelect.value.message)
              || o.response.message in {MissingVideoIdMessage, InvalidVideoMessage, FetchFailedMessage,
                                        NullRowMessage, Generation.FailureMessage}
  {
    match ResolveUser(Flag(req.extension), req.authorization, env)
    case Failure(_) =>
    case Success(userId) =>
      match GetVideoData(store, env.faults, LookupKey(req.videoId))
      case Failure(_) =>
      case Success(videoData) =>
        if KnownId(videoData).Some? {
          RespondErrors(req.videoId, Flag(req.save), userId, videoData, KnownId(videoData).value, env, store, []);
        } else if !Falsy(req.videoId) {
          match GetYouTubeTranscript(env.fetchForRow, req.videoId)
          case Failure(_) =>
          case Success(fetched) =>
            if !env.faults.videoInsertFails {
              var v := req.videoId.value;
              var id := store.nextId;
              var created := store.(videos := store.videos + [VideoRow(id, v, Some(fetched.title))], nextId := id + 1);
              RespondErrors(req.videoId, Flag(req.save), userId, videoData, id, env, created,
                            [FetchTranscript(v), InsertVideo(v, fetched.title)]);
            }
        }
  }

  /** The errors of the summary phase: a transcript failure or the adapter's. */
  lemma RespondErrors(videoId: Option<string>, save: bool, userId: Option<string>, videoData: Option<VideoRow>,
                      id: nat, env: Env, store: Store, effects: seq<Effect>)
    ensures var o := Respond(videoId, save, userId, videoData, id, env, store, effects);
            o.response.ServerError? ==>
              o.response.message in {InvalidVideoMessage, FetchFailedMessage, Generation.FailureMessage}
  {
  }

  /** A stored summary of the video whose external id is `key`. */
  predicate StoredSummaryFor(store: Store, key: string, content: string) {
    exists i, j :: 0 <= i < |store.summaries| && 0 <= j < |store.videos|
      && store.summaries[i].content == content
      && store.videos[j].id == store.summaries[i].videoId
      && store.videos[j].videoId == key
  }

  /** A video whose row the lookup finds, with a truthy id and exactly one
      readable summary, is answered from the store: the stored content under
      the row's title or `"Unknown Title"`, with no outside call and no
      write. */
  lemma CacheHit(req: Request, env: Env, store: Store)
    requires ResolveUser(Flag(req.extension), req.authorization, env).Success?
    requires var lookup := GetVideoData(store, env.faults, LookupKey(req.videoId));
             && lookup.Success? && KnownId(lookup.value).Some?
             && GetSummary(store, env.faults, KnownId(lookup.value).value).Some?
    ensures var videoData := GetVideoData(store, env.faults, LookupKey(req.videoId)).value;
            var found := GetSummary(store, env.faults, KnownId(videoData).value).value;
            Get(req, env, store) == Outcome(Ok(CachedTitle(videoData), found.content), store, [])
  {
  }

  /** A first-seen video whose row is created but whose second transcript
      fetch fails is answered with the fetch failure, and the new video row
      stays behind with no summary. */
  lemma NewRowWithoutSummary(req: Request, env: Env, store: Store)
    requires ValidStore(store)
    requires ResolveUser(Flag(req.extension), req.authorization, env).Success?
    requires var lookup := GetVideoData(store, env.faults, LookupKey(req.videoId));
             lookup.Success? && KnownId(lookup.value).None?
    requires !Falsy(req.videoId) && !env.faults.videoInsertFails
    requires GetYouTubeTranscript(env.fetchForRow, req.videoId).Success?
    requires env.fetchForSummary(req.videoId.value).Failure?
    ensures var o := Get(req, env, store);
            var title := GetYouTubeTranscript(env.fetchForRow, req.videoId).value.title;
            && o.response == ServerError(FetchFailedMessage)
            && o.store.videos == store.videos + [VideoRow(store.nextId, req.videoId.value, Some(title))]
            && o.store.summaries == store.summaries
  {
  }

  /** The summary `summarizeTranscript` makes of the transcript of `videoId`,
      titled with the transcript's title. */
  predicate FreshSummary(env: Env, videoId: Option<string>, title: string, summary: string) {
    && GetYouTubeTranscript(env.fetchForSummary, videoId).Success?
    && var t := GetYouTubeTranscript(env.fetchForSummary, videoId).value;
       && title == t.title
       && Generation.SummarizeTranscript(env.template, env.backend, t.transcript) == Success(summary)
  }

  /** Every summary the handler answers with is either a stored summary of
      the requested video, served with no outside call and no write, or one
      generated in this request from the transcript of `video_id`. */
  lemma CachedOrGenerated(req: Request, env: Env, store: Store)
    requires ValidStore(store)
    ensures var o := Get(req, env, store);
            o.response.Ok? ==>
              || (&& o.effects == [] && o.store == store
                  && StoredSummaryFor(store, LookupKey(req.videoId), o.response.summary))
              || (&& !Falsy(req.videoId) && Generates(o.effects)
                  && FreshSummary(env, req.videoId, o.response.title, o.response.summary))
  {
    match ResolveUser(Flag(req.extension), req.authorization, env)
    case Failure(_) =>
    case Success(userId) =>
      match GetVideoData(store, env.faults, LookupKey(req.videoId))
      case Failure(_) =>
      case Success(videoData) =>
        if KnownId(videoData).Some? {
          var id := KnownId(videoData).value;
          var found := GetSummary(store, env.faults, id);
          if found.Some? {
            var i :| 0 <= i < |store.summaries| && store.summaries[i] == found.value;
            var j :| 0 <= j < |store.videos| && store.videos[j] == videoData.value;
            assert StoredSummaryFor(store, LookupKey(req.videoId), found.value.content);
          } else {
            RespondGenerates(req.videoId, Flag(req.save), userId, videoData, id, env, store, []);
          }
        } else if !Falsy(req.videoId) && !env.faults.videoInsertFails {
          match GetYouTubeTranscript(env.fetchForRow, req.videoId)
          case Failure(_) =>
          case Success(fetched) =>
            var v := req.videoId.value;
            var id := store.nextId;
            var created := store.(videos := store.videos + [VideoRow(id, v, Some(fetched.title))], nextId := id + 1);
            NoSummaryForNextId(store, env.faults);
            assert GetSummary(created, env.faults, id) == None;
            RespondGenerates(req.videoId, Flag(req.save), userId, videoData, id, env, created,
                             [FetchTranscript(v), InsertVideo(v, fetched.title)]);
        }
  }

  /** Past the summary lookup, a successful answer is always freshly
      generated. */
  lemma RespondGenerates(videoId: Option<string>, save: bool, userId: Option<string>, videoData: Option<VideoRow>,
                         id: nat, env: Env, store: Store, effects: seq<Effect>)
    requires GetSummary(store, env.faults, id).None?
    ensures var o := Respond(videoId, save, userId, videoData, id, env, store, effects);
            o.response.Ok? ==> !Falsy(videoId) && Generates(o.effects)
                               && FreshSummary(env, videoId, o.response.title, o.response.summary)
  {
    var o := Respond(videoId, save, userId, videoData, id, env, store, effects);
    if o.response.Ok? {
      var fetched := effects + FetchEffects(videoId);
      assert o.effects[|fetched|].Generate?;
    }
  }

  /** An extension request carrying `Bearer <token>` for a token the
      verifier accepts acts as the token's subject. */
  lemma ExtensionCallerIsTokenSubject(token: string, env: Env, sub: string)
    requires token != [] && Text.FreeOf(token, "Bearer ")
    requires !Falsy(env.jwtSecret)
    requires env.verify(token, env.jwtSecret.value) == Success(Subject(sub))
    ensures ResolveUser(true, Some("Bearer " + token), env) == Success(Some(sub))
  {
    BearerTokenOfHeader(token);
  }

  /** Appending a video row with the next id keeps the store consistent. */
  lemma ValidStoreAddVideo(store: Store, v: string, title: string)
    requires ValidStore(store)
    ensures var created := store.(videos := store.videos + [VideoRow(store.nextId, v, Some(title))],
                                  nextId := store.nextId + 1);
            ValidStore(created) && HasVideo(created, store.nextId)
  {
    var created := store.(videos := store.videos + [VideoRow(store.nextId, v, Some(title))],
                          nextId := store.nextId + 1);
    forall i | 0 <= i < |created.summaries| ensures HasVideo(created, created.summaries[i].videoId) {
      var j :| 0 <= j < |store.videos| && store.videos[j].id == store.summaries[i].videoId;
      assert created.videos[j] == store.videos[j];
    }
    assert created.videos[|store.videos|].id == store.nextId;
  }

  /** From the summary lookup on, a consistent store stays consistent when
      the summary is filed under a stored video. */
  lemma RespondKeepsStoreValid(videoId: Option<string>, save: bool, userId: Option<string>, videoData: Option<VideoRow>,
                               id: nat, env: Env, store: Store, effects: seq<Effect>)
    requires ValidStore(store) && HasVideo(store, id)
    ensures ValidStore(Respond(videoId, save, userId, videoData, id, env, store, effects).store)
  {
    var o := Respond(videoId, save, userId, videoData, id, env, store, effects);
    if GetSummary(store, env.faults, id).None? {
      match GetYouTubeTranscript(env.fetchForSummary, videoId)
      case Failure(_) =>
      case Success(t) =>
        match Generation.SummarizeTranscript(env.template, env.backend, t.transcript)
        case Failure(_) =>
        case Success(content) =>
          if save && !env.faults.summaryInsertFails {
            ValidStoreAddSummary(store, id, userId, content);
            assert o.store == store.(summaries := store.summaries + [SummaryRow(store.nextId, id, userId, content)],
                                     nextId := store.nextId + 1);
          } else {
            assert o.store == store;
          }
    }
  }

  /** Appending a summary with the next id, filed under a stored video,
      keeps the store consistent. */
  lemma ValidStoreAddSummary(store: Store, id: nat, userId: Option<string>, content: string)
    requires ValidStore(store) && HasVideo(store, id)
    ensures ValidStore(store.(summaries := store.summaries + [SummaryRow(store.nextId, id, userId, content)],
                              nextId := store.nextId + 1))
  {
    var added := store.(summaries := store.summaries + [SummaryRow(store.nextId, id, userId, content)],
                        nextId := store.nextId + 1);
    forall i | 0 <= i < |added.summaries| ensures HasVideo(added, added.summaries[i].videoId) {
      if i < |store.summaries| {
        assert added.summaries[i] == store.summaries[i];
      }
    }
  }

  /** The handler keeps the store consistent: ids stay below the next id
      and every summary belongs to a stored video. */
  lemma StoreStaysValid(req: Request, env: Env, store: Store)
    requires ValidStore(store)
    ensures ValidStore(Get(req, env, store).store)
  {
    match ResolveUser(Flag(req.extension), req.authorization, env)
    case Failure(_) =>
    case Success(userId) =>
      match GetVideoData(store, env.faults, LookupKey(req.videoId))
      case Failure(_) =>
      case Success(videoData) =>
        ResolveKeepsStoreValid(req, userId, videoData, env, store);
  }

  lemma ResolveKeepsStoreValid(req: Request, userId: Option<string>, videoData: Option<VideoRow>, env: Env, store: Store)
    requires ValidStore(store)
    requires videoData.Some? ==> videoData.value in store.videos
    ensures ValidStore(Resolve(req, userId, videoData, env, store).store)
  {
    var o := Resolve(req, userId, videoData, env, store);
    if KnownId(videoData).Some? {
      var id := KnownId(videoData).value;
      var j :| 0 <= j < |store.videos| && store.videos[j] == videoData.value;
      RespondKeepsStoreValid(req.videoId, Flag(req.save), userId, videoData, id, env, store, []);
      assert o == Respond(req.videoId, Flag(req.save), userId, videoData, id, env, store, []);
    } else if Falsy(req.videoId) {
      assert o.store == store;
    } else {
      match GetYouTubeTranscript(env.fetchForRow, req.videoId)
      case Failure(_) =>
        assert o.store == store;
      case Success(fetched) =>
        var v := req.videoId.value;
        var effects := [FetchTranscript(v), InsertVideo(v, fetched.title)];
        if env.faults.videoInsertFails {
          assert o.store == store;
        } else {
          var created := store.(videos := store.videos + [VideoRow(store.nextId, v, Some(fetched.title))],
                                nextId := store.nextId + 1);
          ValidStoreAddVideo(store, v, fetched.title);
          RespondKeepsStoreValid(req.videoId, Flag(req.save), userId, videoData, store.nextId, env, created, effects);
          ResolveCreates(req, userId, videoData, env, store);
        }
    }
  }

  /** For a first-seen video whose row is created, the handler continues
      with the summary phase on the store holding the new row. */
  lemma ResolveCreates(req: Request, userId: Option<string>, videoData: Option<VideoRow>, env: Env, store: Store)
    requires KnownId(videoData).None? && !Falsy(req.videoId) && !env.faults.videoInsertFails
    requires GetYouTubeTranscript(env.fetchForRow, req.videoId).Success?
    ensures var v := req.videoId.value;
            var title := GetYouTubeTranscript(env.fetchForRow, req.videoId).value.title;
            Resolve(req, userId, videoData, env, store)
              == Respond(req.videoId, Flag(req.save), userId, videoData, store.nextId, env,
                         store.(videos := store.videos + [VideoRow(store.nextId, v, Some(title))],
                                nextId := store.nextId + 1),
                         [FetchTranscript(v), InsertVideo(v, title)])
  {
  }

  /** The summary row a request files: under the looked-up internal id with
      the next id, or, for a video whose row the request created with the
      next id, under that row with the id after it. */
  function FiledRow(known: Option<nat>, store: Store, userId: Option<string>, content: string): SummaryRow {
    match known
    case Some(id) => SummaryRow(store.nextId, id, userId, content)
    case None => SummaryRow(store.nextId + 1, store.nextId, userId, content)
  }

  /** A summary insert is attempted exactly when `save` is set and a fresh
      summary is returned. An insert that does not fail appends one row
      holding that content, filed for the caller under the video's internal
      id: the looked-up one, or the new row's. Otherwise the summary table is
      unchanged, and a failed insert goes unreported. */
  lemma SummaryWrites(req: Request, env: Env, store: Store)
    ensures var o := Get(req, env, store);
            var lookup := GetVideoData(store, env.faults, LookupKey(req.videoId));
            var lands := InsertsSummary(o.effects) && !env.faults.summaryInsertFails;
            && (InsertsSummary(o.effects) <==> Flag(req.save) && o.response.Ok? && Generates(o.effects))
            && (lands ==>
                  && lookup.Success?
                  && o.store.summaries
                     == store.summaries + [FiledRow(KnownId(lookup.value), store,
                                                    ResolveUser(Flag(req.extension), req.authorization, env).value,
                                                    o.response.summary)])
            && (!lands ==> o.store.summaries == store.summaries)
  {
    match ResolveUser(Flag(req.extension), req.authorization, env)
    case Failure(_) =>
    case Success(userId) =>
      match GetVideoData(store, env.faults, LookupKey(req.videoId))
      case Failure(_) =>
      case Success(videoData) =>
        if KnownId(videoData).Some? {
          RespondWrites(req.videoId, Flag(req.save), userId, videoData, KnownId(videoData).value, env, store, []);
        } else if !Falsy(req.videoId) {
          match GetYouTubeTranscript(env.fetchForRow, req.videoId)
          case Failure(_) =>
          case Success(fetched) =>
            var v := req.videoId.value;
            if !env.faults.videoInsertFails {
              var created := store.(videos := store.videos + [VideoRow(store.nextId, v, Some(fetched.title))],
                                    nextId := store.nextId + 1);
              RespondWrites(req.videoId, Flag(req.save), userId, videoData, store.nextId, env, created,
                            [FetchTranscript(v), InsertVideo(v, fetched.title)]);
            }
        }
  }

  /** `SummaryWrites` from the summary lookup on, for effects so far that
      hold no generation and no summary write. */
  lemma RespondWrites(videoId: Option<string>, save: bool, userId: Option<string>, videoData: Option<VideoRow>,
                      id: nat, env: Env, store: Store, effects: seq<Effect>)
    requires forall i :: 0 <= i < |effects| ==> effects[i].FetchTranscript? || effects[i].InsertVideo?
    ensures var o := Respond(videoId, save, userId, videoData, id, env, store, effects);
            var lands := InsertsSummary(o.effects) && !env.faults.summaryInsertFails;
            && (InsertsSummary(o.effects) <==> save && o.response.Ok? && Generates(o.effects))
            && (lands ==> o.store.summaries == store.summaries + [SummaryRow(store.nextId, id, userId, o.response.summary)])
            && (!lands ==> o.store.summaries == store.summaries)
  {
    var fetched := effects + FetchEffects(videoId);
    assert forall i :: 0 <= i < |fetched| ==> !fetched[i].Generate? && !fetched[i].InsertSummary?;
    if GetSummary(store, env.faults, id).None? {
      match GetYouTubeTranscript(env.fetchForSummary, videoId)
      case Failure(_) =>
      case Success(t) =>
        var generated := fetched + [Generate(Generation.Prompt(env.template, t.transcript))];
        assert generated[|fetched|].Generate?;
        match Generation.SummarizeTranscript(env.template, env.backend, t.transcript)
        case Failure(_) =>
        case Success(content) =>
          if save {
            var all := generated + [InsertSummary(id, userId, content)];
            assert all[|generated|].InsertSummary? && all[|fetched|].Generate?;
          }
    }
  }

  /** Past the video lookup the handler writes no video row. */
  lemma RespondKeepsVideos(videoId: Option<string>, save: bool, userId: Option<string>, videoData: Option<VideoRow>,
                           id: nat, env: Env, store: Store, effects: seq<Effect>)
    ensures var o := Respond(videoId, save, userId, videoData, id, env, store, effects);
            && o.store.videos == store.videos
            && o.effects[..|effects|] == effects
            && (forall i :: |effects| <= i < |o.effects| ==> !o.effects[i].InsertVideo?)
  {
    var o := Respond(videoId, save, userId, videoData, id, env, store, effects);
    assert NoVideoInsertAfter(effects, effects);
    if GetSummary(store, env.faults, id).None? {
      var fetched := effects + FetchEffects(videoId);
      NoVideoInsertAppend(effects, effects, FetchEffects(videoId));
      match GetYouTubeTranscript(env.fetchForSummary, videoId)
      case Failure(_) =>
        assert o.effects == fetched;
      case Success(t) =>
        var generated := fetched + [Generate(Generation.Prompt(env.template, t.transcript))];
        NoVideoInsertAppend(effects, fetched, [Generate(Generation.Prompt(env.template, t.transcript))]);
        match Generation.SummarizeTranscript(env.template, env.backend, t.transcript)
        case Failure(_) =>
          assert o.effects == generated;
        case Success(content) =>
          if save {
            NoVideoInsertAppend(effects, generated, [InsertSummary(id, userId, content)]);
            assert o.effects == generated + [InsertSummary(id, userId, content)];
          } else {
            assert o.effects == generated;
          }
    } else {
      assert o.effects == effects;
    }
  }

  /** `all` extends `effects` with effects none of which inserts a video. */
  predicate NoVideoInsertAfter(effects: seq<Effect>, all: seq<Effect>) {
    && |effects| <= |all|
    && all[..|effects|] == effects
    && forall i :: |effects| <= i < |all| ==> !all[i].InsertVideo?
  }

  lemma NoVideoInsertAppend(effects: seq<Effect>, all: seq<Effect>, more: seq<Effect>)
    requires NoVideoInsertAfter(effects, all)
    requires forall i :: 0 <= i < |more| ==> !more[i].InsertVideo?
    ensures NoVideoInsertAfter(effects, all + more)
  {
    assert (all + more)[..|effects|] == all[..|effects|];
  }

  /** A video row is inserted exactly when the lookup found no usable id for
      a given `video_id` and its transcript could be fetched. An insert that
      does not fail appends one row carrying the next id, the external id and
      the transcript's title; otherwise the video table is unchanged. */
  lemma VideoWrites(req: Request, env: Env, store: Store)
    ensures var o := Get(req, env, store);
            var lookup := GetVideoData(store, env.faults, LookupKey(req.videoId));
            && (InsertsVideo(o.effects) <==>
                  && ResolveUser(Flag(req.extension), req.authorization, env).Success?
                  && lookup.Success? && KnownId(lookup.value).None?
                  && !Falsy(req.videoId) && GetYouTubeTranscript(env.fetchForRow, req.videoId).Success?)
            && (InsertsVideo(o.effects) && !env.faults.videoInsertFails ==>
                  o.store.videos == store.videos
                    + [VideoRow(store.nextId, req.videoId.value,
                                Some(GetYouTubeTranscript(env.fetchForRow, req.videoId).value.title))])
            && (!(InsertsVideo(o.effects) && !env.faults.videoInsertFails) ==> o.store.videos == store.videos)
  {
    match ResolveUser(Flag(req.extension), req.authorization, env)
    case Failure(_) =>
    case Success(userId) =>
      match GetVideoData(store, env.faults, LookupKey(req.videoId))
      case Failure(_) =>
      case Success(videoData) =>
        if KnownId(videoData).Some? {
          RespondKeepsVideos(req.videoId, Flag(req.save), userId, videoData, KnownId(videoData).value, env, store, []);
        } else if !Falsy(req.videoId) {
          match GetYouTubeTranscript(env.fetchForRow, req.videoId)
          case Failure(_) =>
          case Success(fetched) =>
            var v := req.videoId.value;
            var effects := [FetchTranscript(v), InsertVideo(v, fetched.title)];
            assert effects[1].InsertVideo?;
            if !env.faults.videoInsertFails {
              var created := store.(videos := store.videos + [VideoRow(store.nextId, v, Some(fetched.title))],
                                    nextId := store.nextId + 1);
              RespondKeepsVideos(req.videoId, Flag(req.save), userId, videoData, store.nextId, env, created, effects);
              var o := Get(req, env, store);
              assert o.effects[..2][1].InsertVideo?;
            }
        }
  }

  /** A failing summary lookup is read as "no summary": the answer and the
      outside calls are those of a lookup that finds nothing. */
  lemma SummaryLookupSoftFail(req: Request, env: Env, store: Store)
    requires env.faults.summarySelect.Some?
    ensures var quiet := env.(faults := env.faults.(summarySelect := None));
            var a := Get(req, env, store);
            var b := Get(req, quiet, store.(summaries := []));
            a.response == b.response && a.effects == b.effects
  {
    var quiet := env.(faults := env.faults.(summarySelect := None));
    var empty := store.(summaries := []);
    assert ResolveUser(Flag(req.extension), req.authorization, quiet)
        == ResolveUser(Flag(req.extension), req.authorization, env);
    match ResolveUser(Flag(req.extension), req.authorization, env)
    case Failure(_) =>
    case Success(userId) =>
      var key := LookupKey(req.videoId);
      assert GetVideoData(empty, quiet.faults, key) == GetVideoData(store, env.faults, key);
      match GetVideoData(store, env.faults, key)
      case Failure(_) =>
      case Success(videoData) =>
        if KnownId(videoData).Some? {
          var id := KnownId(videoData).value;
          RespondWithoutSummary(req.videoId, Flag(req.save), userId, videoData, id, env, store, quiet, empty, []);
        } else if !Falsy(req.videoId) && !env.faults.videoInsertFails {
          match GetYouTubeTranscript(env.fetchForRow, req.videoId)
          case Failure(_) =>
          case Success(fetched) =>
            var v := req.videoId.value;
            var row := VideoRow(store.nextId, v, Some(fetched.title));
            RespondWithoutSummary(req.videoId, Flag(req.save), userId, videoData, store.nextId, env,
                                  store.(videos := store.videos + [row], nextId := store.nextId + 1),
                                  quiet, empty.(videos := empty.videos + [row], nextId := empty.nextId + 1),
                                  [FetchTranscript(v), InsertVideo(v, fetched.title)]);
        }
  }

  /** When the summary lookup finds nothing, the answer and the outside calls
      depend only on the transcript provider and the completion server. */
  lemma RespondWithoutSummary(videoId: Option<string>, save: bool, userId: Option<string>, videoData: Option<VideoRow>,
                              id: nat, env1: Env, store1: Store, env2: Env, store2: Store, effects: seq<Effect>)
    requires GetSummary(store1, env1.faults, id).None? && GetSummary(store2, env2.faults, id).None?
    requires env1.fetchForSummary == env2.fetchForSummary && env1.template == env2.template && env1.backend == env2.backend
    ensures var a := Respond(videoId, save, userId, videoData, id, env1, store1, effects);
            var b := Respond(videoId, save, userId, videoData, id, env2, store2, effects);
            a.response == b.response && a.effects == b.effects
  {
  }

  /** For a video met for the first time, the transcript is fetched once for
      the title of the new row and once more for the summary. */
  lemma NewVideoFetchesTwice(req: Request, env: Env, store: Store)
    requires ValidStore(store)
    requires ResolveUser(Flag(req.extension), req.authorization, env).Success?
    requires GetVideoData(store, env.faults, LookupKey(req.videoId)).Success?
    requires KnownId(GetVideoData(store, env.faults, LookupKey(req.videoId)).value).None?
    requires !Falsy(req.videoId) && GetYouTubeTranscript(env.fetchForRow, req.videoId).Success?
    requires !env.faults.videoInsertFails
    ensures var o := Get(req, env, store);
            && |o.effects| >= 3
            && o.effects[0] == FetchTranscript(req.videoId.value)
            && o.effects[1].InsertVideo?
            && o.effects[2] == FetchTranscript(req.videoId.value)
  {
    NoSummaryForNextId(store, env.faults);
  }
}
