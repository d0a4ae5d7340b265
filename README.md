# audio-lens-yt — a verified model of the transcription core

audio-lens-yt is a web app that transcribes YouTube videos. A user pastes a
link into a form (`YouTubeUrlInput`). A Supabase edge function,
`transcribe-youtube`, does the rest:

- it records a row in the `transcriptions` table;
- it extracts the video id from the link;
- it asks the Gemini API to transcribe the video;
- it stores the transcript, or marks the row failed.

A transcript view (`TranscriptPlayer`) shows speaker lines. It has a search box,
search highlighting, an active line and a play/pause toggle.

This project models those three pieces in Dafny and proves what they promise:

- `wrappers.dfy`: the `Option` type.
- `text.dfy` (module `Text`): the JavaScript string operations the core uses.
  These are `toLowerCase`, `includes` and `trim`.
- `video_id.dfy` (module `VideoId`): `extractYouTubeVideoId`. It is modelled as
  a search for the leftmost key of each pattern. It is proved equal to a
  reference semantics of the four regular expressions, as a backtracking matcher
  runs them. Lemmas about what it extracts, and fails to extract, follow.
- `handler.dfy` (module `TranscribeHandler`): the request handler.
  - `Handle` is its specification. Given the request and what the outside
    world answers, it gives the response and the ordered list of table writes
    and API calls.
  - `After` gives the table those writes leave.
  - `Serve` and `TranscribeInto` carry the handler out step by step on a
    `TranscriptionsTable` object. They are proved to answer and write exactly
    as `Handle` and `After` say.
- `transcript_player.dfy` (module `TranscriptPlayer`): the transcript view.
  It models the filter and the highlight rule. The `Player` class holds the
  component's three state variables and the handlers that change them.
- `url_input.dfy` (module `UrlInput`): the form. It covers the validity pattern
  `^(https?:\/\/)?(www\.)?(youtube\.com|youtu\.be)\/.+`, the submit handler and
  the rule that disables the button.

The database, the Gemini API and the HTTP transport are not modelled. The
handler takes what they answer as inputs, bundled in `Env`:

- whether the insert succeeds;
- the API reply;
- whether the save succeeds.

A further flag, `markOk`, says whether the best-effort "mark failed" updates
succeed. The function never checks their result, so no response depends on
`markOk`. The row's final status does: a failure leaves the row `failed` when
that update succeeds and `processing` when it does not.

## Model

| member | source | states |
|---|---|---|
| Text.Lower | src/components/TranscriptPlayer.tsx:65-66 | `toLowerCase` on ASCII letters; characterised by `LowerSpec` and `LowerIdempotent` |
| Text.LowerSpec | src/components/TranscriptPlayer.tsx:65-66 | each capital `A`-`Z` becomes the letter at the same place in `a`-`z`, no upper-case letter remains, and every other character is unchanged |
| Text.LowerIdempotent | src/components/TranscriptPlayer.tsx:65-66 | lower-casing twice is lower-casing once |
| Text.ContainsIff | src/components/TranscriptPlayer.tsx:65-66 | `includes` holds exactly when the term occurs at some position of the string |
| Text.Contains | src/components/TranscriptPlayer.tsx:65-66 | `includes`, trying start positions left to right; characterised by `ContainsIff` and `ContainsEmpty` |
| Text.ContainsEmpty | src/components/TranscriptPlayer.tsx:65-66 | every string includes the empty term |
| Text.TrimStart | src/components/YouTubeUrlInput.tsx:17 | the result is a suffix of the input, all that was dropped is white space, and the result does not start with white space |
| Text.TrimEnd | src/components/YouTubeUrlInput.tsx:17 | the result is a prefix of the input, all that was dropped is white space, and the result does not end with white space |
| Text.Trim | src/components/YouTubeUrlInput.tsx:17-18 | `trim`; characterised by `TrimSpec`, `TrimEmptyIff` and `TrimIdempotent` |
| Text.TrimSpec | src/components/YouTubeUrlInput.tsx:17-18 | `trim` returns the slice between a white-space prefix and a white-space suffix, and it neither starts nor ends with white space |
| Text.TrimEmptyIff | src/components/YouTubeUrlInput.tsx:17 | a string trims to empty exactly when it is all white space |
| Text.TrimIdempotent | src/components/YouTubeUrlInput.tsx:18 | trimming twice is trimming once |
| VideoId.RunLength | supabase/functions/transcribe-youtube/index.ts:155-158 | the greedy `[^&\n?#]` run has no excluded character and stops at the end of the string or at an excluded character |
| VideoId.RunLengthIs | supabase/functions/transcribe-youtube/index.ts:155-158 | the greedy run is the unique maximal one |
| VideoId.FirstKeyMatch | supabase/functions/transcribe-youtube/index.ts:162 | finds the leftmost position where the key is followed by a capturable character, or says there is none |
| VideoId.MatchKey | supabase/functions/transcribe-youtube/index.ts:162 | one pattern's `url.match`; characterised by `MatchKeyShape` and, against the regular expression itself, by `SearchIsRegex` |
| VideoId.Extract | supabase/functions/transcribe-youtube/index.ts:153-168 | `extractYouTubeVideoId`; characterised by `ExtractIsRegex`, `ExtractWithFirst` and `ExtractShape` |
| VideoId.ExtractWithFirst | supabase/functions/transcribe-youtube/index.ts:161-167 | the loop returns null exactly when no pattern matches; otherwise it returns the first matching pattern's capture, in array order |
| VideoId.ExtractWithSome | supabase/functions/transcribe-youtube/index.ts:161-166 | whatever the loop returns is the capture of one of the patterns |
| VideoId.MatchKeyShape | supabase/functions/transcribe-youtube/index.ts:155-164 | a capture is non-empty, free of `&`, `?`, `#` and newline, and runs maximally after a key match |
| VideoId.ExtractShape | supabase/functions/transcribe-youtube/index.ts:153-168 | an extracted id is non-empty, has no excluded character, and is the maximal run after one of the four keys |
| VideoId.FirstPrefix | supabase/functions/transcribe-youtube/index.ts:155-158 | picks the first optional-prefix alternative, in backtracking order, with which the pattern matches at a start position, or none |
| VideoId.RegexExec | supabase/functions/transcribe-youtube/index.ts:155-162 | `url.match(pattern)` as the regular-expression engine runs it: the leftmost start position that admits a match wins, prefix alternatives are tried in backtracking order, and the group is the greedy run; `SearchIsRegex` ties it to `MatchKey` |
| VideoId.RegexExtractWith | supabase/functions/transcribe-youtube/index.ts:161-167 | the `for … of patterns` loop over the regular expressions, first match wins; `ExtractWithIsRegex` and `ExtractIsRegex` tie it to `Extract` |
| VideoId.SearchIsRegex | supabase/functions/transcribe-youtube/index.ts:155-162 | the leftmost-start regular-expression match of a pattern gives the same group as the search for its key alone |
| VideoId.PatternsWellShaped | supabase/functions/transcribe-youtube/index.ts:154-159 | each of the four patterns has a key starting with `y` and prefix alternatives without `y`, and the keys are in array order |
| VideoId.ExtractWithIsRegex | supabase/functions/transcribe-youtube/index.ts:161-167 | the loop over keys equals the loop over the regular expressions |
| VideoId.ExtractIsRegex | supabase/functions/transcribe-youtube/index.ts:153-168 | `Extract` equals the extractor over its four regular expressions |
| VideoId.ExtractInOrder | supabase/functions/transcribe-youtube/index.ts:154-167 | the extractor tries `watch?v=`, then `embed/`, then `v/`, then `youtu.be/` |
| VideoId.KeyLinkCaptured | supabase/functions/transcribe-youtube/index.ts:155-158 | a key preceded by text without `y` and followed by an id and a terminator yields exactly that id |
| VideoId.WatchLinkCaptured | supabase/functions/transcribe-youtube/index.ts:155 | any `youtube.com/watch?v=` link yields its id, whatever scheme or `www.` comes before it |
| VideoId.NoYNoId | supabase/functions/transcribe-youtube/index.ts:153-168 | a string without `y` yields null |
| VideoId.MatchKeyShift | supabase/functions/transcribe-youtube/index.ts:162 | when no match of a key starts before position `k`, its pattern finds in the string exactly what it finds in the string's tail from `k` |
| VideoId.WatchNeedsVFirst | supabase/functions/transcribe-youtube/index.ts:155-162 | for `youtube.com/watch?` + query, preceded by any text without `y` (a scheme, `www.`), where the query does not start with `v=`: the URL yields exactly what the query alone yields, so null when the query holds no `y` |
| VideoId.ShortLinkCaptured | supabase/functions/transcribe-youtube/index.ts:158-165 | a `youtu.be/` link, preceded by text without `y`, yields everything after its key up to an excluded character (slashes and `y` included), unless one of the three `youtube.com` patterns, tried first, matches somewhere in the string |
| VideoId.ShortLinkWithoutY | supabase/functions/transcribe-youtube/index.ts:158 | in particular, a short link with no `y` around it always yields its id |
| VideoId.LaterPatternWins | supabase/functions/transcribe-youtube/index.ts:161-165 | a `/v/` link wins over an earlier short link that would match on its own, because patterns are tried in order |
| VideoId.ExampleWatchUrl | supabase/functions/transcribe-youtube/index.ts:155 | `https://www.youtube.com/watch?v=abc123&t=5` yields `abc123` |
| VideoId.ExampleNotAUrl | supabase/functions/transcribe-youtube/index.ts:167 | `not a url` yields null |
| VideoId.ExampleVNotFirstParameter | supabase/functions/transcribe-youtube/index.ts:155-157 | `youtube.com/watch?feature=x&v=abc` yields null |
| VideoId.ExampleShortLinkInQuery | supabase/functions/transcribe-youtube/index.ts:155-165 | `youtube.com/watch?list=1&u=youtu.be/x` yields `x`, through the short-link pattern |
| VideoId.ExampleShortLinkWithY | supabase/functions/transcribe-youtube/index.ts:158 | `youtu.be/xyz` yields `xyz` |
| VideoId.ExampleSlashKept | supabase/functions/transcribe-youtube/index.ts:158 | `youtu.be/abc/def` yields `abc/def` |
| VideoId.ExamplePatternOrder | supabase/functions/transcribe-youtube/index.ts:161-165 | `youtu.be/zzz youtube.com/v/abc` yields `abc` |
| TranscribeHandler.Handle | supabase/functions/transcribe-youtube/index.ts:20-150 | the handler's answer and its ordered writes and API calls; characterised by the lemmas below and performed by `Serve` |
| TranscribeHandler.Transcribe | supabase/functions/transcribe-youtube/index.ts:67-142 | the inner block's answer and writes; characterised by `AfterTranscribe`, `ProviderFailureReported` and `SuccessIffSaved`, and performed by `TranscribeInto` |
| TranscribeHandler.TranscriptOf | supabase/functions/transcribe-youtube/index.ts:89-98 | the transcript or the thrown message taken from the API reply; characterised by `TranscriptOfText` and `ApiErrorDetails` |
| TranscribeHandler.Apply | supabase/functions/transcribe-youtube/index.ts:101-108 | the two updates: `completed` with text and language `pt`, and the `failed` mark of lines 57 and 130; characterised by `ApplyKeepsWellFormed` |
| TranscribeHandler.Decimal | supabase/functions/transcribe-youtube/index.ts:90 | renders a status code as a non-empty digit string without leading zero; `DecimalRoundTrip` reads it back |
| TranscribeHandler.NewRow | supabase/functions/transcribe-youtube/index.ts:36-40 | the inserted row is `processing` and holds no transcript |
| TranscribeHandler.ApplyKeepsWellFormed | supabase/functions/transcribe-youtube/index.ts:101-108 | marking a processing row failed, or completed with non-empty text in `pt`, keeps "transcript iff completed"; URL and user are unchanged |
| TranscribeHandler.DecimalRoundTrip | supabase/functions/transcribe-youtube/index.ts:90 | the decimal rendering of a status code reads back as the same number |
| TranscribeHandler.TranscriptOfText | supabase/functions/transcribe-youtube/index.ts:89-98 | a transcript is taken exactly when the reply is 2xx and carries non-empty text |
| TranscribeHandler.ApiErrorDetails | supabase/functions/transcribe-youtube/index.ts:89-91 | a non-2xx reply becomes the error `Gemini API error: ` followed by the status, which can be read back |
| TranscribeHandler.FileUriRoundTrip | supabase/functions/transcribe-youtube/index.ts:78 | the watch URI sent to Gemini yields the same video id when extracted again |
| TranscribeHandler.UnreadableBodyFails | supabase/functions/transcribe-youtube/index.ts:144-150 | a body that is not JSON is answered 500 `Internal server error`, with nothing written or called |
| TranscribeHandler.MissingUrlRejected | supabase/functions/transcribe-youtube/index.ts:23-28 | a missing or empty URL is answered 400 `YouTube URL is required`, with nothing written or called |
| TranscribeHandler.InsertComesFirst | supabase/functions/transcribe-youtube/index.ts:34-42 | when anything is written, the first write inserts a processing row with the given URL and user, and it is the only insert |
| TranscribeHandler.InsertErrorStops | supabase/functions/transcribe-youtube/index.ts:44-50 | a failed insert is answered 500 `Failed to create transcription record`, with no further write or call |
| TranscribeHandler.InvalidUrlRejected | supabase/functions/transcribe-youtube/index.ts:53-64 | a URL without an id marks the row failed and is answered 400 `Invalid YouTube URL`, without calling the API |
| TranscribeHandler.ProviderCallUri | supabase/functions/transcribe-youtube/index.ts:66-87 | the API is called at most once, right after the insert, with the watch URI of the extracted id, which extracts back to the same id |
| TranscribeHandler.ProviderCalledIff | supabase/functions/transcribe-youtube/index.ts:53-87 | the API is called exactly when the insert succeeded and the extractor found an id |
| TranscribeHandler.ProviderFailureReported | supabase/functions/transcribe-youtube/index.ts:124-141 | after the API call, every failure is answered 500 `Transcription failed` with its message, and the last write marks the row failed |
| TranscribeHandler.SuccessIffSaved | supabase/functions/transcribe-youtube/index.ts:100-122 | the answer is 200 exactly when the insert, the extraction, the API and the save all succeed; it carries the row id and the saved text, and that save is the only update |
| TranscribeHandler.TextWrittenOnlyFromReply | supabase/functions/transcribe-youtube/index.ts:101-108 | a transcript is written only in the third step, and only the API's non-empty text |
| TranscribeHandler.UpdatesTargetOwnRow | supabase/functions/transcribe-youtube/index.ts:128-131 | every update targets the row this call inserted, and only happens after a successful insert |
| TranscribeHandler.AfterCall | supabase/functions/transcribe-youtube/index.ts:14-151 | a call leaves a well-formed table well-formed, changes only its own row and adds it only after a successful insert; that row holds a transcript exactly when the answer is 200; otherwise it ends failed, or processing if the failure update itself failed |
| TranscribeHandler.AfterTranscribe | supabase/functions/transcribe-youtube/index.ts:67-142 | the inner block leaves the row completed when the save succeeds; otherwise it leaves the row failed when the mark update succeeds, and unchanged (processing) when it does not |
| TranscribeHandler.TranscriptionsTable.Insert | supabase/functions/transcribe-youtube/index.ts:34-42 | a successful insert stores the row under the next id and returns that id; a failed one changes nothing and returns none |
| TranscribeHandler.TranscriptionsTable.Update | supabase/functions/transcribe-youtube/index.ts:128-131 | a successful update rewrites the matching row, if there is one, and leaves all else alone |
| TranscribeHandler.TranscribeInto | supabase/functions/transcribe-youtube/index.ts:67-142 | the inner block answers as `Transcribe` says and leaves the table as its writes say |
| TranscribeHandler.Serve | supabase/functions/transcribe-youtube/index.ts:14-151 | the handler answers as `Handle` says, leaves the table as `After` says and keeps it valid, advances `nextId` exactly when the insert succeeds, and reports the file URI exactly when it calls the API |
| TranscriptPlayer.MockIdsDistinct | src/components/TranscriptPlayer.tsx:19-52 | the four transcript lines have the distinct ids 1 to 4 |
| TranscriptPlayer.Matches | src/components/TranscriptPlayer.tsx:64-67 | the filter's test: text or speaker includes the term, all lower-cased; characterised by `FilterMembership` and `FilterIgnoresCase` |
| TranscriptPlayer.Filter | src/components/TranscriptPlayer.tsx:64-67 | the result is never longer than the transcript, and every line it keeps matches the term in text or speaker, case-insensitively; `FilterMembership` says which lines it keeps |
| TranscriptPlayer.FilterMembership | src/components/TranscriptPlayer.tsx:64-67 | a line is shown exactly when it is in the transcript and matches |
| TranscriptPlayer.FilterAppend | src/components/TranscriptPlayer.tsx:64-67 | filtering keeps order: filtering a concatenation concatenates the filtered parts |
| TranscriptPlayer.FilterKeepsAllIff | src/components/TranscriptPlayer.tsx:64-67 | nothing is dropped exactly when every line matches |
| TranscriptPlayer.EmptyTermKeepsAll | src/components/TranscriptPlayer.tsx:64-67 | an empty search shows the whole transcript |
| TranscriptPlayer.FilterIgnoresCase | src/components/TranscriptPlayer.tsx:64-67 | two terms with the same lower-case form show the same lines |
| TranscriptPlayer.FilterLowerTerm | src/components/TranscriptPlayer.tsx:64-67 | searching for the lower-cased term shows the same lines |
| TranscriptPlayer.FilterIdempotent | src/components/TranscriptPlayer.tsx:64-67 | filtering the shown lines again changes nothing |
| TranscriptPlayer.Highlighted | src/components/TranscriptPlayer.tsx:187-189 | the highlight test; characterised by `HighlightedIsShown` and `ShownNotHighlighted` |
| TranscriptPlayer.HighlightedIsShown | src/components/TranscriptPlayer.tsx:187-189 | every highlighted line is among the shown lines |
| TranscriptPlayer.ShownNotHighlighted | src/components/TranscriptPlayer.tsx:187-189 | a shown line lacks the highlight exactly when the term is empty or its text lacks the term; then only its speaker matches |
| TranscriptPlayer.Player.constructor | src/components/TranscriptPlayer.tsx:60-62 | the view starts paused, with line 1 active and an empty search |
| TranscriptPlayer.Player.ClickLine | src/components/TranscriptPlayer.tsx:69-73 | clicking a line makes its id the active one and changes nothing else |
| TranscriptPlayer.Player.TogglePlay | src/components/TranscriptPlayer.tsx:141 | the play button flips playing and paused and changes nothing else |
| TranscriptPlayer.Player.SetSearchTerm | src/components/TranscriptPlayer.tsx:171 | typing replaces the search term and keeps the play state and the active line |
| TranscriptPlayer.ClickedLineIsOnlyActive | src/components/TranscriptPlayer.tsx:186 | once a shown line is active, it is the only shown line marked active |
| UrlInput.IsValidYouTubeUrl | src/components/YouTubeUrlInput.tsx:22-25 | the validator, reading scheme, `www.`, host and path left to right; characterised by `ValidIff` |
| UrlInput.ValidHasSplit | src/components/YouTubeUrlInput.tsx:22-25 | a URL the validator accepts splits as optional scheme, optional `www.`, host, slash and a rest that starts with a non-line-terminator |
| UrlInput.PathOfIs | src/components/YouTubeUrlInput.tsx:22-25 | every such split is found by the validator's left-to-right reading |
| UrlInput.ValidIff | src/components/YouTubeUrlInput.tsx:22-25 | the validator accepts exactly the strings the pattern describes |
| UrlInput.HostOnlyRejected | src/components/YouTubeUrlInput.tsx:23 | a host followed by a slash and nothing else is rejected |
| UrlInput.BareHostRejected | src/components/YouTubeUrlInput.tsx:23 | a host without its slash is rejected |
| UrlInput.ExampleShortLinkValid | src/components/YouTubeUrlInput.tsx:23 | `https://youtu.be/abc` is accepted |
| UrlInput.ExampleBareHostInvalid | src/components/YouTubeUrlInput.tsx:23 | `youtube.com` is rejected |
| UrlInput.HandleSubmit | src/components/YouTubeUrlInput.tsx:15-20 | the value handed to `onSubmit`, if any; characterised by `SubmitIff` and `SubmittedIsTrimmed` |
| UrlInput.SubmitIff | src/components/YouTubeUrlInput.tsx:17 | the form submits exactly when a callback is given and the URL is not all white space |
| UrlInput.SubmittedIsTrimmed | src/components/YouTubeUrlInput.tsx:17-18 | the submitted value is the URL without surrounding white space: non-empty, trimmed, and a slice of the input |
| UrlInput.ExampleInvalidUrlSubmitted | src/components/YouTubeUrlInput.tsx:15-20 | submission does not consult the validator: `not a url` is rejected by it yet submitted |
| UrlInput.SubmitDisabled | src/components/YouTubeUrlInput.tsx:78 | the button's disabled flag; characterised by `DisabledMatchesSubmit` |
| UrlInput.DisabledMatchesSubmit | src/components/YouTubeUrlInput.tsx:78 | the button is disabled exactly while loading or while the URL is all white space; when not loading, it is enabled exactly when a submit would hand a URL over |

## Left out

- The CORS preflight (`OPTIONS`) branch and the response headers are not modelled. Only the status code and the JSON body of each response are modelled.
- Creating the database client, reading environment variables, the API key, the prompt text and `console` logging are not modelled.
- Request fields are modelled as missing or a string. A `youtubeUrl` or `userId` of another JSON type is not modelled.
- A Supabase client call that throws, instead of returning an error, is not modelled. This includes a "mark failed" update that throws inside the inner `catch` and so reaches the outer 500 answer.
- Every failure inside the inner block is an `Error` with a message. The `Unknown error occurred` fallback for thrown non-`Error` values is not modelled.
- The Gemini reply is an input (`ProviderReply`). The network call and JSON decoding are not modelled. Only the text at `candidates[0].content.parts[0].text`, or its absence, is kept.
- Row ids are handed out by a counter (`nextId`). Database-generated ids are not modelled. Columns the function never writes are not modelled either.
- TranscribeHandler.AfterCall: the well-formedness invariant assumes only this function writes the table.
- Text.Lower: only the ASCII letters `A`-`Z` are lower-cased. Full Unicode `toLowerCase` is left out.
- The search highlight's rewrite of the line text with a `RegExp` built from the term, and its injection through `dangerouslySetInnerHTML`, are not modelled. Only the rule that decides whether a line is highlighted is.
- The seek to `timestamp` in `handleLineClick` is only a log line in the source and is left out. So are each line's colour class, the `videoUrl` and `title` props, and the export buttons.
- The JSX layout, icons and styling are left out. So are the validity hint that `isValidYouTubeUrl` drives, `e.preventDefault()`, and the input being disabled while loading.
- `src/pages/Index.tsx`, which wires the form to the view, is not part of this model.
