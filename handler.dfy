/**
 * The `transcribe-youtube` edge function: it takes a request naming a YouTube
 * URL, records a transcription row in the `transcriptions` table, asks the
 * Gemini API for a transcript of the video and stores the outcome.
 *
 * The HTTP transport, the database client and the remote API are outside the
 * model. What they answer is an input (`Env`): whether the insert succeeds,
 * what the API replies and whether the final save succeeds. `Handle` says what
 * the function answers and which writes and calls it issues, in order.
 * `Serve` performs those writes on a `TranscriptionsTable`.
 */
module TranscribeHandler {
  import opened Wrappers
  import VideoId

  // ------------------------------------------------------------------ rows

  datatype Status = Processing | Completed | Failed

  /** A row of the `transcriptions` table as far as this function writes it. */
  datatype Row = Row(youtubeUrl: string, userId: Option<string>, status: Status,
                     transcriptText: Option<string>, language: Option<string>)

  /** The language every stored transcript is labelled with. */
  const DefaultLanguage := "pt"

  /** The row the function inserts: the URL and user as given, still processing. */
  function NewRow(youtubeUrl: string, userId: Option<string>): (r: Row)
    ensures r.status == Processing && r.transcriptText == None
  {
    Row(youtubeUrl, userId, Processing, None, None)
  }

  /** The two updates the function issues against its own row. */
  datatype Patch = MarkFailed | MarkCompleted(text: string)

  function Apply(row: Row, patch: Patch): Row
  {
    match patch
    case MarkFailed => row.(status := Failed)
    case MarkCompleted(text) =>
      row.(transcriptText := Some(text), status := Completed, language := Some(DefaultLanguage))
  }

  /**
   * What every row written only by this function satisfies: it carries a
   * transcript exactly when it is completed, and a completed row has a
   * non-empty transcript labelled Portuguese.
   */
  predicate WellFormed(row: Row)
  {
    (row.transcriptText.Some? <==> row.status == Completed)
    && (row.status == Completed ==> row.transcriptText.value != "" && row.language == Some(DefaultLanguage))
  }

  /** A processing row becomes well-formed again under either update the function issues. */
  lemma ApplyKeepsWellFormed(row: Row, patch: Patch)
    requires WellFormed(row) && row.status == Processing
    requires patch.MarkCompleted? ==> patch.text != ""
    ensures WellFormed(Apply(row, patch))
    ensures Apply(row, patch).youtubeUrl == row.youtubeUrl && Apply(row, patch).userId == row.userId
    ensures patch == MarkFailed ==> Apply(row, patch).transcriptText == None
  {
  }

  // ------------------------------------------------------ request and reply

  /** The request body: unreadable as JSON, or the two fields the function reads. */
  datatype Request = Unparsable | Body(youtubeUrl: Option<string>, userId: Option<string>)

  /** JavaScript truthiness of the URL field: present and not the empty string. */
  predicate Truthy(url: Option<string>)
  {
    url.Some? && url.value != ""
  }

  /** The body of a Gemini reply with status 2xx. */
  datatype ReplyBody =
    | Malformed(message: string)          // `json()` throws with this message
    | Parsed(text: Option<string>)        // `candidates[0].content.parts[0].text`, if any

  datatype ProviderReply =
    | FetchFailed(message: string)        // `fetch` throws with this message
    | Http(status: nat, body: ReplyBody)

  /** What the outside world answers during one call. */
  datatype Env = Env(insertOk: bool, reply: ProviderReply, saveOk: bool)

  // -------------------------------------------------------------- response

  datatype ResponseBody =
    | ErrorBody(error: string)
    | FailureBody(error: string, details: string)
    | SuccessBody(id: nat, status: string, transcript: string)

  datatype Response = Response(status: nat, body: ResponseBody)

  /** A write to the table or a call to the API, in the order the function issues them. */
  datatype Effect = StoreInsert(row: Row) | StoreUpdate(id: nat, patch: Patch) | ProviderCall(fileUri: string)

  const UrlRequired := "YouTube URL is required"
  const RecordFailed := "Failed to create transcription record"
  const InvalidUrl := "Invalid YouTube URL"
  const InternalError := "Internal server error"
  const TranscriptionFailed := "Transcription failed"
  const NoText := "No transcription text received from Gemini API"
  const SaveFailed := "Failed to save transcription"
  const ApiErrorPrefix := "Gemini API error: "

  // ---------------------------------------------------- decimal rendering

  function DigitChar(d: nat): (c: char)
    requires d < 10
    ensures '0' <= c <= '9'
  {
    "0123456789"[d]
  }

  function DigitValue(c: char): nat
  {
    if '0' <= c <= '9' then (c - '0') as nat else 0
  }

  /** `${n}` for a natural number: its decimal digits, most significant first. */
  function Decimal(n: nat): (s: string)
    ensures s != [] && forall c :: c in s ==> '0' <= c <= '9'
    ensures |s| > 1 ==> s[0] != '0'
  {
    if n < 10 then [DigitChar(n)] else Decimal(n / 10) + [DigitChar(n % 10)]
  }

  /** Reads a string of decimal digits back as a number. */
  function ParseDecimal(s: string): nat
  {
    if s == [] then 0 else 10 * ParseDecimal(s[..|s| - 1]) + DigitValue(s[|s| - 1])
  }

  /** The rendering loses nothing: reading it back gives the number. */
  lemma {:induction false} DecimalRoundTrip(n: nat)
    ensures ParseDecimal(Decimal(n)) == n
  {
    var s := Decimal(n);
    if n < 10 {
      assert s[..0] == [];
    } else {
      assert s[..|s| - 1] == Decimal(n / 10);
      DecimalRoundTrip(n / 10);
    }
  }

  // ------------------------------------------------------ the API exchange

  /** `fetch(...).ok`. */
  predicate IsOk(status: nat)
  {
    200 <= status <= 299
  }

  /** The transcript the reply carries, or the message of the error the function throws. */
  datatype Transcript = Text(text: string) | Error(details: string)

  function TranscriptOf(reply: ProviderReply): Transcript
  {
    match reply
    case FetchFailed(message) => Error(message)
    case Http(status, body) =>
      if !IsOk(status) then Error(ApiErrorPrefix + Decimal(status))
      else match body
        case Malformed(message) => Error(message)
        case Parsed(text) =>
          if text.None? || text.value == "" then Error(NoText) else Text(text.value)
  }

  /** A transcript is taken exactly from a 2xx reply with non-empty text. */
  lemma TranscriptOfText(reply: ProviderReply, text: string)
    ensures TranscriptOf(reply) == Text(text)
        <==> reply.Http? && IsOk(reply.status) && reply.body == Parsed(Some(text)) && text != ""
  {
  }

  /** A non-2xx status is reported with its number, which can be read back. */
  lemma ApiErrorDetails(status: nat, body: ReplyBody)
    requires !IsOk(status)
    ensures var d := TranscriptOf(Http(status, body));
            d.Error? && |d.details| > |ApiErrorPrefix|
            && d.details[..|ApiErrorPrefix|] == ApiErrorPrefix
            && ParseDecimal(d.details[|ApiErrorPrefix|..]) == status
  {
    var d := ApiErrorPrefix + Decimal(status);
    assert d[|ApiErrorPrefix|..] == Decimal(status);
    DecimalRoundTrip(status);
  }

  const WatchUriPrefix := "https://www.youtube.com/watch?v="

  /** The file URI the function hands to the API for a video id. */
  function FileUri(videoId: string): string
  {
    WatchUriPrefix + videoId
  }

  lemma WatchUriPrefixPieces()
    ensures WatchUriPrefix == "https://www." + VideoId.WatchKey
  {
  }

  /** The URI sent to the API names the same video: extracting from it gives the id back. */
  lemma FileUriRoundTrip(videoId: string)
    requires VideoId.Capturable(videoId)
    ensures VideoId.Extract(FileUri(videoId)) == Some(videoId)
  {
    VideoId.WatchLinkCaptured("https://www.", videoId, "");
    WatchUriPrefixPieces();
    assert "https://www." + VideoId.WatchKey + videoId + "" == FileUri(videoId);
  }

  // -------------------------------------------------------------- handler

  datatype Outcome = Outcome(response: Response, effects: seq<Effect>)

  /**
   * The function's answer and the writes and calls it issues, when the table
   * hands out `id` to the inserted row. The status update after a failure is
   * issued but its result is not looked at.
   */
  function Handle(req: Request, id: nat, env: Env): Outcome
  {
    match req
    case Unparsable => Outcome(Response(500, ErrorBody(InternalError)), [])
    case Body(url, userId) =>
      if !Truthy(url) then Outcome(Response(400, ErrorBody(UrlRequired)), [])
      else
        var insert := StoreInsert(NewRow(url.value, userId));
        if !env.insertOk then Outcome(Response(500, ErrorBody(RecordFailed)), [insert])
        else match VideoId.Extract(url.value)
          case None => Outcome(Response(400, ErrorBody(InvalidUrl)), [insert, StoreUpdate(id, MarkFailed)])
          case Some(videoId) =>
            var inner := Transcribe(id, videoId, env);
            Outcome(inner.response, [insert] + inner.effects)
  }

  /**
   * The inner `try` block: the API call for `videoId` and the writes that
   * follow it, every failure in it answered with its message.
   */
  function Transcribe(id: nat, videoId: string, env: Env): Outcome
  {
    var call := ProviderCall(FileUri(videoId));
    match TranscriptOf(env.reply)
    case Error(details) =>
      Outcome(Response(500, FailureBody(TranscriptionFailed, details)), [call, StoreUpdate(id, MarkFailed)])
    case Text(text) =>
      var save := StoreUpdate(id, MarkCompleted(text));
      if env.saveOk then
        Outcome(Response(200, SuccessBody(id, "completed", text)), [call, save])
      else
        Outcome(Response(500, FailureBody(TranscriptionFailed, SaveFailed)), [call, save, StoreUpdate(id, MarkFailed)])
  }

  predicate CallsProvider(effects: seq<Effect>)
  {
    exists k :: 0 <= k < |effects| && effects[k].ProviderCall?
  }

  /** A body that is not JSON ends in the outer handler: 500, nothing written or called. */
  lemma UnreadableBodyFails(id: nat, env: Env)
    ensures Handle(Unparsable, id, env) == Outcome(Response(500, ErrorBody(InternalError)), [])
  {
  }

  /** A missing or empty URL is refused with 400 before anything is written or called. */
  lemma MissingUrlRejected(req: Request, id: nat, env: Env)
    requires req.Body? && !Truthy(req.youtubeUrl)
    ensures Handle(req, id, env) == Outcome(Response(400, ErrorBody(UrlRequired)), [])
  {
  }

  /**
   * Whenever anything is written, the first write is the insert of a
   * processing row holding the URL and user as given, and it is the only insert.
   */
  lemma InsertComesFirst(req: Request, id: nat, env: Env)
    requires Handle(req, id, env).effects != []
    ensures req.Body? && Truthy(req.youtubeUrl)
    ensures var effects := Handle(req, id, env).effects;
            effects[0] == StoreInsert(NewRow(req.youtubeUrl.value, req.userId))
            && forall k :: 0 < k < |effects| ==> !effects[k].StoreInsert?
  {
  }

  /** A failed insert ends the call with 500 and nothing after it. */
  lemma InsertErrorStops(req: Request, id: nat, env: Env)
    requires req.Body? && Truthy(req.youtubeUrl) && !env.insertOk
    ensures Handle(req, id, env).response == Response(500, ErrorBody(RecordFailed))
    ensures |Handle(req, id, env).effects| == 1
  {
  }

  /** A URL without a video id marks the row failed and answers 400 without calling the API. */
  lemma InvalidUrlRejected(req: Request, id: nat, env: Env)
    requires req.Body? && Truthy(req.youtubeUrl) && env.insertOk
    requires VideoId.Extract(req.youtubeUrl.value) == None
    ensures Handle(req, id, env).response == Response(400, ErrorBody(InvalidUrl))
    ensures Handle(req, id, env).effects[1..] == [StoreUpdate(id, MarkFailed)]
    ensures !CallsProvider(Handle(req, id, env).effects)
  {
  }

  /**
   * The API is called at most once, and only for a URL the extractor accepts,
   * with the canonical watch URI of the extracted id, from which the same id
   * is extracted again.
   */
  lemma ProviderCallUri(req: Request, id: nat, env: Env, k: nat)
    requires k < |Handle(req, id, env).effects| && Handle(req, id, env).effects[k].ProviderCall?
    ensures k == 1 && req.Body? && env.insertOk
    ensures var videoId := VideoId.Extract(req.youtubeUrl.value);
            var uri := Handle(req, id, env).effects[k].fileUri;
            videoId.Some? && uri == FileUri(videoId.value)
            && VideoId.Extract(uri) == videoId
  {
    var videoId := VideoId.Extract(req.youtubeUrl.value).value;
    VideoId.ExtractShape(req.youtubeUrl.value);
    FileUriRoundTrip(videoId);
  }

  /**
   * The API is called exactly when the insert succeeded and the extractor
   * found a video id, whatever the API then answers.
   */
  lemma ProviderCalledIff(req: Request, id: nat, env: Env)
    ensures CallsProvider(Handle(req, id, env).effects)
        <==> req.Body? && Truthy(req.youtubeUrl) && env.insertOk && VideoId.Extract(req.youtubeUrl.value).Some?
  {
    if req.Body? && Truthy(req.youtubeUrl) && env.insertOk && VideoId.Extract(req.youtubeUrl.value).Some? {
      assert Handle(req, id, env).effects[1].ProviderCall?;
    }
  }

  /**
   * Once the API has been called, every failure (an unreachable API, a
   * non-2xx status, an unreadable body, no text, a failed save) answers 500
   * with the failure's message and ends by marking the row failed.
   */
  lemma ProviderFailureReported(req: Request, id: nat, env: Env)
    requires CallsProvider(Handle(req, id, env).effects)
    requires TranscriptOf(env.reply).Error? || !env.saveOk
    ensures var out := Handle(req, id, env);
            out.response.status == 500
            && out.response.body == FailureBody(TranscriptionFailed,
                 if TranscriptOf(env.reply).Error? then TranscriptOf(env.reply).details else SaveFailed)
            && out.effects[|out.effects| - 1] == StoreUpdate(id, MarkFailed)
  {
  }

  /**
   * The function answers 200 exactly when the transcript was saved: then its
   * only update is the one storing the transcript, completed, in Portuguese,
   * and the answer carries the row id and that transcript.
   */
  lemma SuccessIffSaved(req: Request, id: nat, env: Env)
    ensures Handle(req, id, env).response.status == 200
        <==> (req.Body? && Truthy(req.youtubeUrl) && env.insertOk
              && VideoId.Extract(req.youtubeUrl.value).Some?
              && TranscriptOf(env.reply).Text? && env.saveOk)
    ensures var out := Handle(req, id, env);
            out.response.status == 200 ==>
              (var text := TranscriptOf(env.reply).text;
               out.response.body == SuccessBody(id, "completed", text) && text != ""
               && out.effects[|out.effects| - 1] == StoreUpdate(id, MarkCompleted(text))
               && forall k :: 0 <= k < |out.effects| - 1 ==> !out.effects[k].StoreUpdate?)
  {
  }

  /** The transcript is written only in the update issued once the API returned non-empty text. */
  lemma TextWrittenOnlyFromReply(req: Request, id: nat, env: Env, k: nat)
    requires k < |Handle(req, id, env).effects|
    requires Handle(req, id, env).effects[k].StoreUpdate?
    requires Handle(req, id, env).effects[k].patch.MarkCompleted?
    ensures k == 2 && TranscriptOf(env.reply) == Text(Handle(req, id, env).effects[k].patch.text)
    ensures Handle(req, id, env).effects[k].patch.text != ""
  {
  }

  /** Every update the function issues targets the row it inserted. */
  lemma UpdatesTargetOwnRow(req: Request, id: nat, env: Env, k: nat)
    requires k < |Handle(req, id, env).effects| && Handle(req, id, env).effects[k].StoreUpdate?
    ensures Handle(req, id, env).effects[k].id == id && env.insertOk
  {
  }

  // ----------------------------------------------------------------- table

  /**
   * The effect of one write on the table: the insert takes `id`, an update
   * changes the matching row, and a write takes effect only when it
   * succeeds. `markOk` says whether the failure updates succeed; the function
   * never looks at that result.
   */
  function Step(rows: map<nat, Row>, id: nat, effect: Effect, env: Env, markOk: bool): map<nat, Row>
  {
    match effect
    case StoreInsert(row) => if env.insertOk then rows[id := row] else rows
    case ProviderCall(_) => rows
    case StoreUpdate(target, patch) =>
      var ok := if patch.MarkFailed? then markOk else env.saveOk;
      if ok && target in rows then rows[target := Apply(rows[target], patch)] else rows
  }

  function ApplyAll(rows: map<nat, Row>, id: nat, effects: seq<Effect>, env: Env, markOk: bool): map<nat, Row>
    decreases |effects|
  {
    if effects == [] then rows
    else ApplyAll(Step(rows, id, effects[0], env, markOk), id, effects[1..], env, markOk)
  }

  lemma ApplyOne(rows: map<nat, Row>, id: nat, e: Effect, env: Env, markOk: bool)
    ensures ApplyAll(rows, id, [e], env, markOk) == Step(rows, id, e, env, markOk)
  {
    assert [e][1..] == [];
  }

  lemma ApplyTwo(rows: map<nat, Row>, id: nat, e1: Effect, e2: Effect, env: Env, markOk: bool)
    ensures ApplyAll(rows, id, [e1, e2], env, markOk) == Step(Step(rows, id, e1, env, markOk), id, e2, env, markOk)
  {
    assert [e1, e2][1..] == [e2];
    ApplyOne(Step(rows, id, e1, env, markOk), id, e2, env, markOk);
  }

  lemma ApplyThree(rows: map<nat, Row>, id: nat, e1: Effect, e2: Effect, e3: Effect, env: Env, markOk: bool)
    ensures ApplyAll(rows, id, [e1, e2, e3], env, markOk)
         == Step(Step(Step(rows, id, e1, env, markOk), id, e2, env, markOk), id, e3, env, markOk)
  {
    assert [e1, e2, e3][1..] == [e2, e3];
    ApplyTwo(Step(rows, id, e1, env, markOk), id, e2, e3, env, markOk);
  }

  /** The rows of the table after one call. */
  function After(rows: map<nat, Row>, req: Request, id: nat, env: Env, markOk: bool): map<nat, Row>
  {
    ApplyAll(rows, id, Handle(req, id, env).effects, env, markOk)
  }

  predicate AllWellFormed(rows: map<nat, Row>)
  {
    forall i :: i in rows ==> WellFormed(rows[i])
  }

  /** What one call leaves in the table, for the row `id` it inserts and for all the others. */
  predicate CallLeft(rows: map<nat, Row>, rows': map<nat, Row>, req: Request, id: nat, env: Env, markOk: bool)
  {
    var out := Handle(req, id, env);
    AllWellFormed(rows')
    && rows'.Keys == rows.Keys + (if req.Body? && Truthy(req.youtubeUrl) && env.insertOk then {id} else {})
    && (forall i :: i in rows && i != id ==> rows'[i] == rows[i])
    && (id in rows' && id !in rows ==>
          (rows'[id].transcriptText.Some? <==> out.response.status == 200)
          && (out.response.status == 200 ==> rows'[id].transcriptText == Some(out.response.body.transcript))
          && (out.response.status != 200 ==> rows'[id].status == if markOk then Failed else Processing)
          && rows'[id].youtubeUrl == req.youtubeUrl.value && rows'[id].userId == req.userId)
  }

  /**
   * One call touches only the row it inserts, leaves a table of well-formed
   * rows well-formed, and stores a transcript exactly when it answers 200. A
   * failed status update leaves the row processing.
   */
  lemma AfterCall(rows: map<nat, Row>, req: Request, id: nat, env: Env, markOk: bool)
    requires id !in rows && AllWellFormed(rows)
    ensures CallLeft(rows, After(rows, req, id, env, markOk), req, id, env, markOk)
  {
    if req.Body? && Truthy(req.youtubeUrl) && env.insertOk {
      AfterInsert(rows, req, id, env, markOk);
    } else if req.Body? && Truthy(req.youtubeUrl) {
      ApplyOne(rows, id, StoreInsert(NewRow(req.youtubeUrl.value, req.userId)), env, markOk);
    }
  }

  /** `AfterCall` once the row has been inserted. */
  lemma AfterInsert(rows: map<nat, Row>, req: Request, id: nat, env: Env, markOk: bool)
    requires req.Body? && Truthy(req.youtubeUrl) && env.insertOk
    requires id !in rows && AllWellFormed(rows)
    ensures CallLeft(rows, After(rows, req, id, env, markOk), req, id, env, markOk)
  {
    var row := NewRow(req.youtubeUrl.value, req.userId);
    var marked := if markOk then Apply(row, MarkFailed) else row;
    ApplyKeepsWellFormed(row, MarkFailed);
    if VideoId.Extract(req.youtubeUrl.value).None? {
      ApplyTwo(rows, id, StoreInsert(row), StoreUpdate(id, MarkFailed), env, markOk);
      LeftWithRow(rows, req, id, env, markOk, marked);
    } else {
      AfterExtract(rows, row, req, id, env, markOk, VideoId.Extract(req.youtubeUrl.value).value);
    }
  }

  /** `AfterCall` once the row has been inserted and a video id extracted. */
  lemma AfterExtract(rows: map<nat, Row>, row: Row, req: Request, id: nat, env: Env, markOk: bool, videoId: string)
    requires req.Body? && Truthy(req.youtubeUrl) && env.insertOk
    requires row == NewRow(req.youtubeUrl.value, req.userId)
    requires VideoId.Extract(req.youtubeUrl.value) == Some(videoId)
    requires id !in rows && AllWellFormed(rows)
    ensures CallLeft(rows, After(rows, req, id, env, markOk), req, id, env, markOk)
  {
    var out := Handle(req, id, env);
    var inner := Transcribe(id, videoId, env);
    assert After(rows, req, id, env, markOk) == ApplyAll(rows[id := row], id, inner.effects, env, markOk) by {
      assert out.effects[1..] == inner.effects;
    }
    AfterTranscribe(rows, row, id, videoId, env, markOk);
    if TranscriptOf(env.reply).Text? && env.saveOk {
      var text := TranscriptOf(env.reply).text;
      TranscriptOfText(env.reply, text);
      ApplyKeepsWellFormed(row, MarkCompleted(text));
      LeftWithRow(rows, req, id, env, markOk, Apply(row, MarkCompleted(text)));
    } else {
      ApplyKeepsWellFormed(row, MarkFailed);
      LeftWithRow(rows, req, id, env, markOk, if markOk then Apply(row, MarkFailed) else row);
    }
  }

  /** The inner block leaves the row completed when it answers 200, and marked failed (if that write succeeds) otherwise. */
  lemma AfterTranscribe(rows: map<nat, Row>, row: Row, id: nat, videoId: string, env: Env, markOk: bool)
    ensures var inner := Transcribe(id, videoId, env);
            ApplyAll(rows[id := row], id, inner.effects, env, markOk)
            == if TranscriptOf(env.reply).Text? && env.saveOk
               then rows[id := Apply(row, MarkCompleted(TranscriptOf(env.reply).text))]
               else rows[id := if markOk then Apply(row, MarkFailed) else row]
  {
    var r1 := rows[id := row];
    var call := ProviderCall(FileUri(videoId));
    match TranscriptOf(env.reply)
    case Error(_) =>
      ApplyTwo(r1, id, call, StoreUpdate(id, MarkFailed), env, markOk);
    case Text(text) =>
      if env.saveOk {
        ApplyTwo(r1, id, call, StoreUpdate(id, MarkCompleted(text)), env, markOk);
      } else {
        ApplyThree(r1, id, call, StoreUpdate(id, MarkCompleted(text)), StoreUpdate(id, MarkFailed), env, markOk);
      }
  }

  /** `CallLeft` for a call whose writes leave the inserted row as `final` and every other row alone. */
  lemma LeftWithRow(rows: map<nat, Row>, req: Request, id: nat, env: Env, markOk: bool, final: Row)
    requires req.Body? && Truthy(req.youtubeUrl) && env.insertOk
    requires id !in rows && AllWellFormed(rows) && WellFormed(final)
    requires final.youtubeUrl == req.youtubeUrl.value && final.userId == req.userId
    requires var status := Handle(req, id, env).response.status;
             (final.transcriptText.Some? <==> status == 200)
             && (status == 200 ==> final.transcriptText == Some(Handle(req, id, env).response.body.transcript))
             && (status != 200 ==> final.status == if markOk then Failed else Processing)
    ensures CallLeft(rows, rows[id := final], req, id, env, markOk)
  {
  }

  /**
   * The `transcriptions` table as far as this function uses it: rows keyed by
   * id, and the id the next insert receives.
   */
  class TranscriptionsTable {
    var rows: map<nat, Row>
    var nextId: nat

    /**
     * Ids already handed out are below `nextId`, and every row is well-formed.
     * `Insert` and `Update` do not keep this by themselves (a completed row
     * without text breaks it); it is the invariant `Serve` keeps by issuing
     * only the writes `Handle` lists.
     */
    predicate Valid()
      reads this
    {
      (forall i :: i in rows ==> i < nextId) && AllWellFormed(rows)
    }

    constructor ()
      ensures Valid() && rows == map[] && nextId == 0
    {
      rows := map[];
      nextId := 0;
    }

    /** `insert(row).select().single()`: on success the row gets the next id. */
    method Insert(row: Row, ok: bool) returns (id: Option<nat>)
      modifies this
      ensures ok ==> id == Some(old(nextId)) && rows == old(rows)[old(nextId) := row] && nextId == old(nextId) + 1
      ensures !ok ==> id == None && rows == old(rows) && nextId == old(nextId)
    {
      if ok {
        id := Some(nextId);
        rows := rows[nextId := row];
        nextId := nextId + 1;
      } else {
        id := None;
      }
    }

    /** `update(patch).eq('id', id)`: changes the matching row, if any, when the write succeeds. */
    method Update(id: nat, patch: Patch, ok: bool)
      modifies this
      ensures rows == if ok && id in old(rows) then old(rows)[id := Apply(old(rows)[id], patch)] else old(rows)
      ensures nextId == old(nextId)
    {
      if ok && id in rows {
        rows := rows[id := Apply(rows[id], patch)];
      }
    }
  }

  /**
   * The inner `try` block against a table, for the row `id` just inserted:
   * it answers and writes as `Transcribe` says.
   */
  method TranscribeInto(table: TranscriptionsTable, id: nat, videoId: string, env: Env, markOk: bool)
    returns (response: Response)
    modifies table
    ensures response == Transcribe(id, videoId, env).response
    ensures table.rows == ApplyAll(old(table.rows), id, Transcribe(id, videoId, env).effects, env, markOk)
    ensures table.nextId == old(table.nextId)
  {
    ghost var rows0 := table.rows;
    var call := ProviderCall(FileUri(videoId));
    var transcript := TranscriptOf(env.reply);
    if transcript.Error? {
      table.Update(id, MarkFailed, markOk);
      ApplyTwo(rows0, id, call, StoreUpdate(id, MarkFailed), env, markOk);
      return Response(500, FailureBody(TranscriptionFailed, transcript.details));
    }
    var save := StoreUpdate(id, MarkCompleted(transcript.text));
    table.Update(id, save.patch, env.saveOk);
    if !env.saveOk {
      table.Update(id, MarkFailed, markOk);
      ApplyThree(rows0, id, call, save, StoreUpdate(id, MarkFailed), env, markOk);
      return Response(500, FailureBody(TranscriptionFailed, SaveFailed));
    }
    ApplyTwo(rows0, id, call, save, env, markOk);
    response := Response(200, SuccessBody(id, "completed", transcript.text));
  }

  /**
   * The handler against a table: it answers as `Handle` says, leaves the
   * table as `After` says, and reports the URI it sent to the API, if any.
   */
  method Serve(table: TranscriptionsTable, req: Request, env: Env, markOk: bool)
    returns (response: Response, fileUri: Option<string>)
    requires table.Valid()
    modifies table
    ensures table.Valid()
    ensures response == Handle(req, old(table.nextId), env).response
    ensures table.rows == After(old(table.rows), req, old(table.nextId), env, markOk)
    ensures table.nextId == old(table.nextId) + if req.Body? && Truthy(req.youtubeUrl) && env.insertOk then 1 else 0
    ensures fileUri.Some? <==> CallsProvider(Handle(req, old(table.nextId), env).effects)
    ensures fileUri.Some? ==> ProviderCall(fileUri.value) in Handle(req, old(table.nextId), env).effects
  {
    ghost var rows0, id0 := table.rows, table.nextId;
    AfterCall(rows0, req, id0, env, markOk);
    if req.Unparsable? {
      return Response(500, ErrorBody(InternalError)), None;
    }
    var url, userId := req.youtubeUrl, req.userId;
    if !Truthy(url) {
      return Response(400, ErrorBody(UrlRequired)), None;
    }
    var row := NewRow(url.value, userId);
    var inserted := table.Insert(row, env.insertOk);
    if inserted.None? {
      ApplyOne(rows0, id0, StoreInsert(row), env, markOk);
      return Response(500, ErrorBody(RecordFailed)), None;
    }
    var id := inserted.value;
    var videoId := VideoId.Extract(url.value);
    if videoId.None? {
      table.Update(id, MarkFailed, markOk);
      ApplyTwo(rows0, id, StoreInsert(row), StoreUpdate(id, MarkFailed), env, markOk);
      return Response(400, ErrorBody(InvalidUrl)), None;
    }
    ghost var inner := Transcribe(id, videoId.value, env);
    response := TranscribeInto(table, id, videoId.value, env, markOk);
    fileUri := Some(FileUri(videoId.value));
    assert ([StoreInsert(row)] + inner.effects)[1..] == inner.effects;
    assert ([StoreInsert(row)] + inner.effects)[1] == ProviderCall(fileUri.value);
  }
}
