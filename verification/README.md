# Chat path: model and proofs

This project models the chat path of the pilot: the browser's incremental
event-stream parser, the server's streaming generator and its frames, the bounded
conversation memory, the concurrency limiter and the body cap, the chat route that
puts them together, and the browser's login with its base64url and token handling.
It proves what these parts promise each other, over every input, every chunking,
every interleaving and every run.

## Layout

- `Text` strings of both languages (UTF-16 code units in the browser, code points
  on the server), white space, searching.
- `Json` `json.dumps` of the flat objects the server sends, with its ASCII escapes
  and surrogate pairs, and a full `JSON.parse` (section 7 of RFC 8259 for strings).
- `Frames` the frames and the bytes `_sse` makes of them.
- `Client` `parseSseStream` and what it calls: a class that collects callbacks,
  loops over an in-place buffer, and the functions they are proved against.
- `Dialects` the payloads besides the server's own that the client understands.
- `Chunking`, `Pipeline`, `EventStream` independence of the network's chunks; server
  frames read back, whole and cut anywhere; agreement with section 9.2.6 of the
  WHATWG HTML Living Standard.
- `Inference`, `InferenceRuns` `stream_chat`, once as a machine that stops at every
  await and yield, once as the loop written out; what every run puts out, exactly, from
  its inputs alone, and the two forms shown to agree.
- `Sessions`, `Retention` the conversation store as a class over an ordered
  dictionary; a retention rule, session by session, that knows the limits but no
  bounded store and no order of use, and the proof that the store follows it exactly.
- `Middleware`, `Requests` the limiter, the body cap, the validated request and the
  upstream payload.
- `ChatRoute`, `ChatService`, `ChatRuns` the route as a transition system of any
  number of interleaved requests; the same steps as methods over the shared objects;
  the results over whole runs.
- `Base64Url`, `Jwt`, `Cognito` base64url both ways (section 5 of RFC 4648,
  section 4.1 and Appendix A of RFC 7636), the claims of a token, and the login and
  refresh state machine over `sessionStorage`.

A method is proved against a function of its inputs or of the old state; what the
source promises is then proved of that function. Where a class method changes
state, its contract gives the whole new state.

## Where the code and its words differ

The model follows the code.

- The end of a body always calls `onDone`, also when the flushed tail was a `done`
  or `error` frame. Exactly which bodies fire two terminal callbacks is proved
  (`Pipeline.TerminalCount`, `Pipeline.CutRun`).
- A token or error frame cut inside its data is flushed as raw text: the user sees a
  piece of JSON (`Pipeline.FlushIsExact`, `Pipeline.FragmentShown`).
- `append_assistant` does not look at the idle limit, so a reply brings back a
  session that had expired but had not been swept (`Retention.ReplyRevives`,
  `Retention.RevivedRun`).
- `sync` comes before the limiter: a refused request has still replaced its
  session's memory (`ChatRuns.RefusedWhenFull`).
- A streaming response that is dropped before its generator starts never releases
  its slot (`ChatRuns.OnlyUnstartedLeak`, `ChatRuns.LeakIsForever`,
  `ChatRuns.LeaksCloseTheDoor`).
- `BodySizeLimitMiddleware` says it refuses "once the limit is crossed"; only the
  first message is weighed before dispatch (`Middleware.PromiseKept`,
  `Middleware.LateChunkPasses`).
- The session id pattern is matched with `$`, which also accepts one final line feed
  (`Requests.AcceptedIdIsPromised`, `Requests.NewlineAccepted`).
- A login's one-time material goes only when an exchange has succeeded. Two callbacks
  begun together can both succeed; the guard in `spa/src/auth/useAuth.ts:53-55` is
  what prevents it (`Cognito.AtMostOneSuccess`, `Cognito.SecondSuccess`,
  `Cognito.OverlapSucceedsTwice`).
- A code exchange or a refresh under way when the user logs out stores tokens again;
  nothing else does without a new login (`Cognito.LogoutHolds`,
  `Cognito.LateRefreshRestores`, `Cognito.LateCallbackRestores`).

## Model

| member | source | states |
|---|---|---|
| Json.StringRoundTrip | services/api/app/inference.py:56-58 | every Python string, escaped by `json.dumps` and followed by anything, is read by `JSON.parse` as its UTF-16 form, surrogate pairs included |
| Json.IntValueRoundTrip | services/api/app/inference.py:210-217 | the decimal text of every integer reads back as that integer |
| Json.ObjectRoundTrip | services/api/app/inference.py:56-58 | every flat object `_sse` prints parses to the same keys and values, with nothing left over |
| Json.ParseValueStable | spa/src/api/chat.ts:281 | a parsed JSON text that later text follows parses the same; only a number at the very end can grow |
| Json.CutObjectDoesNotParse | spa/src/api/chat.ts:280-294 | no proper prefix of a printed object is JSON |
| Json.LiteralsRead | spa/src/api/chat.ts:281 | the three literals parse to their values |
| Json.NumbersRead | spa/src/api/chat.ts:281 | a number with sign, fraction and exponent keeps its digits; a leading zero, an empty fraction or exponent and a lone minus are no JSON |
| Text.Utf16Injective | spa/src/api/chat.ts:188 | two different well-formed texts stay different in the browser |
| Text.PairMeans | services/api/app/inference.py:58 | a surrogate pair lies in the two surrogate ranges and means its code point |
| Text.TrimExact | spa/src/api/chat.ts:203 | `trim` takes off exactly the white space at both ends |
| Frames.TokenWire | services/api/app/inference.py:197 | a token frame's bytes are fixed characters around the escaped text |
| Frames.UsageWire | services/api/app/inference.py:211-217 | a usage frame's bytes, with the two counts in decimal in their places |
| Frames.DoneWire | services/api/app/inference.py:218 | the done frame's bytes |
| Frames.ErrorWire | services/api/app/inference.py:220-236 | each kind of failure has its own public code and message on the wire |
| Frames.ObjectPlain | services/api/app/inference.py:56-58 | whatever the model says, the data of a frame is printable ASCII: no text can forge a line break |
| Frames.LinesPlain | services/api/app/inference.py:56-58 | both lines of every frame are printable ASCII |
| Client.SplitFirst | spa/src/api/chat.ts:227 | splitting at LF or CRLF takes off exactly the line before the break |
| Client.BoundaryAt | spa/src/api/chat.ts:194 | what is removed at a boundary is its two line breaks, no more |
| Client.BoundaryShrinks | spa/src/api/chat.ts:192-199 | each round of the frame loop shortens the buffer |
| Client.DispatchToken | spa/src/api/chat.ts:272-275 | fires `onToken` once with the extracted text, or not at all when it is empty |
| Client.DispatchUsage | spa/src/api/chat.ts:299-306 | fires `onUsage` with the parsed object, and nothing on malformed JSON |
| Client.HandleFrame | spa/src/api/chat.ts:226-269 | the loop over lines fires the callbacks of the frame's interpretation and says whether the stream is over |
| Client.ParseSseStream | spa/src/api/chat.ts:170-211 | the nested loops over an in-place buffer fire the callbacks of the read phase and of the flush, and a read failure leaves with what was fired before it |
| Client.StreamBody | spa/src/api/chat.ts:111-121 | an abort or a read error adds its one error callback; a normal end adds none |
| Dialects.KeyedText | spa/src/api/chat.ts:282-285 | a text under any of the four keys is the token text |
| Dialects.EarlierKeyWins | spa/src/api/chat.ts:282-285 | of two such keys the earlier in the list wins, in either order of members |
| Dialects.KeyedError | spa/src/api/chat.ts:311-312 | an error message is read from `message` or from `error` |
| Dialects.ChunkContent | spa/src/api/chat.ts:287-289 | the content of a chat.completion chunk is the token text, for every text |
| Dialects.PlainTextShown | spa/src/api/chat.ts:277-296 | text that is no object or array is the token text as it is |
| Dialects.SentinelEnds | spa/src/api/chat.ts:246-249 | `[DONE]` ends the stream under every event name, with white space around it or not |
| Dialects.UnlabelledToken | spa/src/api/chat.ts:264-267 | a data line without an event line is a token |
| Chunking.BoundaryIsFirst | spa/src/api/chat.ts:214-220 | the index found is the first place where either kind of blank line occurs, and -1 exactly when there is none |
| Chunking.BoundaryStable | spa/src/api/chat.ts:188-195 | text that arrives later neither moves a complete boundary nor makes an earlier one, for LF, CRLF and mixed streams |
| Chunking.DrainAppend | spa/src/api/chat.ts:188-199 | draining what has come and then the rest is draining the whole |
| Chunking.ChunkIndependence | spa/src/api/chat.ts:177-200 | any chunking of a body yields the callbacks, the end and the tail of the body in one piece |
| Chunking.SameCallsForSameBody | spa/src/api/chat.ts:170-211 | two chunkings of one body fire the same callbacks |
| Chunking.CutFiresPrefix | spa/src/api/chat.ts:182-200 | before the flush, a body broken off anywhere has fired a prefix of the whole body's callbacks |
| Chunking.FailureReported | spa/src/api/chat.ts:111-121 | a read failure after any chunks is reported once, as aborted or network error, after the complete frames and without flushing what was open; after a terminal frame it is not noticed |
| Pipeline.FrameBoundary | services/api/app/inference.py:56-58 | the first boundary in a stream that begins with a server frame is the end of that frame |
| Pipeline.UsageNumbersRead | services/api/app/inference.py:210-217 | the usage callback gets an object whose two members are the two numbers sent |
| Pipeline.FrameUnderstood | spa/src/api/chat.ts:226-297 | every server frame, whatever its text, is interpreted as the one callback it means, and ends the stream exactly if it is done or error |
| Pipeline.EndToEnd | spa/src/api/chat.ts:170-297 | frames ending in done or error, cut into any chunks, fire exactly their callbacks in order, the terminal one last |
| Pipeline.TerminalCount | spa/src/api/chat.ts:202-207 | over every body, chunking and read failure one terminal callback fires, except two exactly when the flushed tail is itself terminal |
| Pipeline.FlushedCut | spa/src/api/chat.ts:202-207 | the cut front of a frame ends the stream when flushed exactly if the frame is terminal and its event line has arrived whole |
| Pipeline.FlushIsExact | spa/src/api/chat.ts:202-207 | for every frame and every cut of it the flush fires exactly: nothing without the event line, the event with empty data up to the object, raw data (token, error), nothing (usage) or done inside it, the frame's own callbacks once its body is whole |
| Pipeline.FragmentShown | spa/src/api/chat.ts:277-317 | what has arrived of a frame's JSON is shown to the user if and only if the cut falls inside the data of a token or error frame; it is then a nonempty proper prefix that is no JSON |
| Pipeline.CutRun | spa/src/api/chat.ts:177-207 | at every cut of every server run and for every chunking, all the callbacks: those of the whole frames, the exact flush of the cut one, done; hence two terminal ones exactly when a terminal frame was cut after its event line |
| EventStream.FrameAgreement | spa/src/api/chat.ts:226-243 | frame by frame, the client reads the event of the standard's algorithm if and only if the last event line and the data lines meet a condition stated on them: with data, a name with nothing to trim beyond one space, and no empty data under the default name; without data, no name or one that trims to "message" |
| EventStream.ExactAgreement | spa/src/api/chat.ts:190-243 | on whole streams, splitting at blank lines gives the event list of the line-at-a-time algorithm if and only if every frame meets that condition: no two disagreements cancel out |
| EventStream.PlainConforms | spa/src/api/chat.ts:231-243 | nonempty joined data and event names that are there and untrimmed are enough for a frame |
| EventStream.StreamAgreement | spa/src/api/chat.ts:190-243 | on every stream of frames with nonempty data and untrimmed names the client reads the standard's event list |
| Inference.ShapedStep | services/api/app/inference.py:149-239 | every step of the generator keeps its outputs in the shape tokens, then one of the allowed tails |
| Inference.Grammar | services/api/app/inference.py:149-239 | over every upstream behaviour, disconnect and cancellation the outputs are token frames with text, then nothing, an error, or completion, usage and done |
| Inference.StreamContract | services/api/app/inference.py:199-218 | completion runs at most once, with the whole text, after every token and before usage and done, and on no run that fails, crashes or sees the client leave; done with any text implies it ran |
| Inference.DataLineRead | services/api/app/inference.py:91-95 | a data line gives its payload without the prefix and the white space around it, for every payload |
| Inference.DoneLineRead | services/api/app/inference.py:175 | the line that ends an upstream stream is recognised |
| Inference.OtherLineSkipped | services/api/app/inference.py:93-94 | exactly the lines without the prefix give no payload |
| Inference.BodyDelivers | services/api/app/inference.py:166-197 | a body written from any payloads and other lines delivers the parsed chunks of its nonblank payloads before the first `[DONE]` |
| Inference.SkippedLineIgnored | services/api/app/inference.py:91-95 | a comment, blank payload or malformed JSON line, inserted anywhere, changes nothing |
| Inference.AfterDoneIgnored | services/api/app/inference.py:175-176 | nothing after `[DONE]` counts |
| Inference.GatherNext | services/api/app/inference.py:182-197 | one more chunk adds its nonempty delta and replaces exactly the counts it reports |
| Inference.StreamChat | services/api/app/inference.py:126-236 | the loop emits the in-order nonempty deltas before the first `[DONE]`, then completion, last counts and done, or the failure; a payload of the wrong shape raises after the tokens before it |
| InferenceRuns.ExactRun | services/api/app/inference.py:149-239 | over every upstream behaviour, disconnect and cancellation, the outputs and the state of the generator are given exactly from its inputs: the tokens of the lines read, then nothing, the one error of the failure that occurred, or completion, counts and done |
| InferenceRuns.FailureMeansError | services/api/app/inference.py:154-164 | a run with a failing step has put out its tokens and that failure's one error, nothing but the error if the call was refused, and has not completed |
| InferenceRuns.CompletesWhenClosed | services/api/app/inference.py:199-204 | the completion callback has run with a text if and only if the response was closed, some delta had come, and the text is all of them |
| InferenceRuns.LeavingIsSilent | services/api/app/inference.py:167-170 | a client found gone and a cancellation add no output and end the run |
| InferenceRuns.LoopSpecification | services/api/app/inference.py:166-218 | at every point of every run the token frames are the deltas of the lines read, a usage frame has the last counts, and done never leaves a nonzero count unreported |
| InferenceRuns.RunIsLoop | services/api/app/inference.py:149-236 | for every ending and closing failure, a run that returned has put out what the written-out loop puts out over the same upstream call |
| Sessions.MakeLimits | services/api/app/sessions.py:60-62 | a configured number is taken as it is when it is at least one, twice for the turns, and otherwise clamped: two messages, one second, one session |
| Sessions.CleanedAppend | services/api/app/sessions.py:93-97 | cleaning works message by message and keeps the order |
| Sessions.CleanedOne | services/api/app/sessions.py:96 | kept are exactly the user and assistant messages with text |
| Sessions.WindowIsSuffix | services/api/app/sessions.py:81-82 | the window is the last messages up to the limit |
| Sessions.ConversationStore.DoSweep | services/api/app/sessions.py:71-78 | one pass over all sessions and then popping from the front leaves the swept store, order included |
| Sessions.ConversationStore.Sync | services/api/app/sessions.py:85-111 | the new state is sweep, write at the recent end, sweep; the context returned is the windowed transcript whatever was stored |
| Sessions.ConversationStore.AppendAssistant | services/api/app/sessions.py:113-125 | appends, windows and touches a stored session; an empty reply or an unknown session changes nothing |
| Sessions.ConversationStore.Context | services/api/app/sessions.py:127-134 | the stored messages of a live session, nothing for an expired or unknown one |
| Sessions.ConversationStore.Forget | services/api/app/sessions.py:136-139 | removes just that session and says whether it was there |
| Sessions.ConversationStore.Info | services/api/app/sessions.py:141-152 | known exactly when stored and not expired, with its message and turn counts and whole idle seconds |
| Sessions.ConversationStore.Stats | services/api/app/sessions.py:154-163 | sweeps, then reports how many sessions are left and the three limits |
| Retention.ExpiredArePrefix | services/api/app/sessions.py:68-75 | in an ordered store the expired sessions are the front of the order |
| Retention.SweepFromFront | services/api/app/sessions.py:71-78 | the full-pass sweep drops from the front the larger of the expired count and the excess over the cap |
| Retention.WindowAbsorbs | services/api/app/sessions.py:80-82 | windowing before and after an append is windowing the whole once, for every limit |
| Retention.StepInv | services/api/app/sessions.py:85-163 | every operation keeps order of last use, window and cap |
| Retention.ReachableInv | services/api/app/sessions.py:85-163 | every reachable store is within its cap, ordered by last use, and no session exceeds its window |
| Retention.StoreFollowsRule | services/api/app/sessions.py:71-139 | after every run every session is stored exactly when the retention rule recalls it, with the windowed history, times, turns and the set of sessions more recent than it |
| Retention.ExactRetention | services/api/app/sessions.py:71-78 | a session left alone since its last touch is stored, with its full window, if and only if at no point as many others as the cap, touched and not forgotten since, stood behind it and no sweep found it idle beyond the limit |
| Retention.StillStored | services/api/app/sessions.py:71-78 | a session not forgotten, idle at most the limit and with fewer others touched since than the cap is still stored with its full window, whatever else is forgotten |
| Retention.ContextLater | services/api/app/sessions.py:127-134 | at any later time the context is the windowed history while the session is stored and idle within the limit, and nothing otherwise |
| Retention.DroppedByRivals | services/api/app/sessions.py:76-78 | a session dropped while idle within the limit has had at least as many others touched since as the cap |
| Retention.EvictedByRivals | services/api/app/sessions.py:76-78 | while nothing is forgotten or expires, a session is stored if and only if fewer than the cap of other sessions have been touched since |
| Retention.SyncIsLast | services/api/app/sessions.py:107-110 | the closing sweep never evicts the session just written, which ends up most recent |
| Retention.SyncPost | services/api/app/sessions.py:85-134 | after a sync an immediate `context` is the windowed cleaned transcript, and the store is within its cap |
| Retention.NoLaterSync | services/api/app/sessions.py:104 | the sync a history starts from is the session's last |
| Retention.HistorySinceSync | services/api/app/sessions.py:93-125 | a recalled history is the last transcript synced and every nonempty reply since |
| Retention.WindowedHistory | services/api/app/sessions.py:80-125 | each stored session holds the last messages of that unbounded history |
| Retention.TurnsCountSyncs | services/api/app/sessions.py:101-106 | the turns of a session are its syncs since it was last created |
| Retention.ReplyRevives | services/api/app/sessions.py:113-134 | a reply brings back a context that is gone if and only if it is not empty and its session is still in the table, expired or not |
| Retention.RevivedRun | services/api/app/sessions.py:113-134 | a run of one sync and one reply after the idle limit gets there |
| Middleware.InferenceLimiter.TryAcquire | services/api/app/middleware.py:143-149 | takes a slot exactly when fewer than the maximum are taken, counter and gauge together |
| Middleware.InferenceLimiter.Release | services/api/app/middleware.py:151-154 | gives one slot back, never below zero |
| Middleware.BodySizeLimit.ReplayReceive | services/api/app/middleware.py:219-225 | the first message once more, then the others in order |
| Middleware.BodySizeLimit.Call | services/api/app/middleware.py:187-234 | unless the first message alone is over the cap the application ends as it would without the middleware; otherwise it is never called and the rest is drained |
| Middleware.BodySizeLimit.Handle | services/api/app/middleware.py:187-190 | only POST, PUT and PATCH requests over HTTP are looked at; the others reach the application untouched |
| Middleware.BareMeans | services/api/app/middleware.py:234 | the application answers from the shortest front of the messages after which it wants no more, and waits when there is none |
| Middleware.DrainEnds | services/api/app/middleware.py:211-214 | on every complete body the drain stops at the first message with nothing after it |
| Middleware.PromiseKept | services/api/app/middleware.py:176-182 | a body is refused as the comment promises exactly when its first message is over the cap or the whole is not |
| Middleware.LateChunkPasses | services/api/app/middleware.py:232-234 | an oversized body in two messages is answered as if there were no cap |
| Requests.AcceptedIdIsPromised | services/api/app/models.py:64-73 | an accepted session id is as described exactly when it does not end in a line feed |
| Requests.PromisedIdIsAccepted | services/api/app/models.py:64-73 | every id as described is accepted |
| Requests.NewlineAccepted | services/api/app/models.py:23 | an id with a final line feed is accepted |
| Requests.UuidAccepted | spa/src/api/chat.ts:144-148 | every id the browser makes with `randomUUID` is accepted |
| Requests.IdCharEdges | services/api/app/models.py:23 | the edges of the id alphabet |
| Requests.AcceptedWithin | services/api/app/models.py:38-84 | a request within the limits is accepted whatever its texts hold |
| Requests.RefusedBeyond | services/api/app/models.py:38-84 | beyond any one limit it is refused |
| Requests.ClampExact | services/api/app/models.py:82-84 | the request's number, unless the ceiling is lower, and never below one |
| Requests.PayloadWellFormed | services/api/app/inference.py:61-88 | every accepted request sends one system message and a nonempty end of its transcript with the final user message, within the limits on messages and characters, with its own temperature and stream flag and exactly the clamped number of tokens |
| Requests.ColdReplica | services/api/app/main.py:195-202 | whatever a replica remembered, the conversation is the windowed transcript; it is the stateless one if and only if the transcript fits |
| Requests.DefaultWindowFits | services/api/app/models.py:15 | with the default window every accepted transcript fits |
| ChatRoute.SlotsStep | services/api/app/main.py:204-241 | every event keeps counter, gauge and holders equal within the cap, and finds a slot to release |
| ChatRoute.StoreStep | services/api/app/main.py:199-243 | every event leaves the store what its recorded operations make of it, in the order of time |
| ChatRoute.RequestsStep | services/api/app/main.py:207-244 | every event keeps each request's release count right and each generator where its own inputs brought it |
| ChatRoute.RepliesStep | services/api/app/main.py:209-211 | a reply is recorded exactly when some request of that session gave it |
| ChatRoute.AlwaysGood | services/api/app/main.py:183-267 | all of this holds after every run of interleaved requests |
| ChatService.Service.ChatCompletions | services/api/app/main.py:190-235 | sync, then the limiter, then a refused, streaming or waiting request: the whole new state |
| ChatService.Service.ResumeStream | services/api/app/main.py:209-223 | one resumption of the generator: the reply is remembered and the slot released in the steps that do so |
| ChatService.Service.FinishAnswer | services/api/app/main.py:237-244 | the slot is released on success and failure alike, the content remembered on success only |
| ChatService.Service.SessionForget | services/api/app/main.py:259-267 | removes just that session |
| ChatRuns.SlotAccounting | services/api/app/middleware.py:135-154 | over every interleaving in_flight is the gauge and the number of holders, within 0 and the maximum, and each admitted request that is over has released exactly once |
| ChatRuns.GuardNeverBlocks | services/api/app/middleware.py:151-154 | the guard in `release` never stops a release |
| ChatRuns.RefusedWhenFull | services/api/app/main.py:199-205 | refused exactly when every slot is held; the session is synced all the same |
| ChatRuns.OnlyUnstartedLeak | services/api/app/main.py:213-223 | once nothing is under way, the slots still taken are those of responses whose generator never started |
| ChatRuns.LeakIsForever | services/api/app/main.py:213-235 | once as many as the maximum have leaked, no request is ever admitted again |
| ChatRuns.LeaksCloseTheDoor | services/api/app/main.py:204-235 | there is such a run, of as many requests as the maximum, after which every later request of every continuation is refused |
| ChatRuns.StreamsKeepContract | services/api/app/inference.py:147-239 | every stream of every interleaving keeps the completion contract, and its outputs and state are exactly those its own inputs amount to |
| ChatRuns.ConversationIsOwn | services/api/app/main.py:198-202 | over every run each request keeps the conversation of its own transcript and session; that it is the one `sync` returns is the contract of `ConversationStore.Sync` and `Service.ChatCompletions` |
| ChatRuns.ServedAsAsked | services/api/app/main.py:207-244 | over every interleaving a request that asked for a stream gets one and no other does |
| ChatRuns.RememberedIsWhole | services/api/app/main.py:209-243 | every remembered message is in the last transcript synced, or is the whole answer of a request of that session, or the text handed over by a stream of it that completed: all its token frames and all the deltas of the lines it read, its response closed and no step of it failed. Nothing of a generation that failed, or stopped before it completed, is remembered |
| ChatRuns.DoneIsRemembered | services/api/app/inference.py:199-218 | a stream that said done, with text and a session, has had exactly its token texts recorded |
| ChatRuns.StoreFollowsRule | services/api/app/main.py:199-243 | at any point of any interleaving the store follows the retention rule and its invariant |
| ChatRuns.ForgottenIsGone | services/api/app/main.py:259-267 | a forgotten session is gone at once, and nothing else changes |
| ChatRuns.ClientHears | services/api/app/inference.py:147-218 | from upstream lines to callbacks: whatever the chunks, a finished stream's texts reach the browser whole, equal to the text remembered, with one terminal callback, last |
| ChatRuns.HearsPrefix | spa/src/api/chat.ts:182-207 | of any stream in any state, cut anywhere and chunked anyhow, the browser is told the complete frames and nothing else before the flush, and all its callbacks are given exactly |
| Base64Url.Base64UrlEncode | spa/src/auth/pkce.ts:9-16 | the loop over the byte array and the three replacements give the unpadded URL-safe form |
| Base64Url.RandomUrlSafe | spa/src/auth/pkce.ts:19-23 | the random bytes, encoded |
| Base64Url.RoundTrip | spa/src/auth/pkce.ts:9-16 | for every byte sequence, normalising, padding and `atob` recover it from its encoding |
| Base64Url.EncodesBack | spa/src/auth/cognito.ts:93-99 | every URL-safe text decodes if and only if its length is not 1 modulo 4, and is then the encoding of its bytes if and only if no bits are left over |
| Base64Url.Injective | spa/src/auth/pkce.ts:9-43 | distinct byte strings have distinct encodings |
| Base64Url.Shape | spa/src/auth/pkce.ts:19-43 | the length is ceil(4n/3), 43 for a verifier and 22 for a state, and every character is in A-Z a-z 0-9 - _ |
| Base64Url.AppendixA | spa/src/auth/pkce.ts:9-16 | the example of Appendix A of RFC 7636 |
| Base64Url.SpacesIgnored | spa/src/auth/cognito.ts:99 | `atob` ignores white space |
| Jwt.Utf8RoundTrip | spa/src/auth/cognito.ts:98-103 | every text without surrogates survives UTF-8 and the decoder |
| Jwt.Utf8Strict | spa/src/auth/cognito.ts:98-103 | bytes that decode are the encoding of what they decode to: no overlong forms, no surrogates |
| Jwt.ClaimsSurvive | spa/src/auth/cognito.ts:89-108 | the claims shown are those of the JSON text encoded in the token, whatever header and signature are and with or without a signature |
| Jwt.NoClaimsShown | spa/src/auth/cognito.ts:91-92 | a token without a payload, or with one that cannot be base64, shows no claims |
| Jwt.Utf8Examples | spa/src/auth/cognito.ts:98-103 | the encoding of a three-byte and a four-byte character |
| Cognito.SessionStorage.LoginRedirect | spa/src/auth/cognito.ts:116-122 | stores verifier and state together and leaves the tokens |
| Cognito.SessionStorage.BeginCallback | spa/src/auth/cognito.ts:144-170 | error, missing code, state mismatch, missing verifier or an exchange, in the source's order |
| Cognito.SessionStorage.FinishCallback | spa/src/auth/cognito.ts:186-201 | success stores the tokens and drops the one-time material; failure changes nothing |
| Cognito.SessionStorage.BeginAccess | spa/src/auth/cognito.ts:253-266 | no session, a valid token, an unrefreshable session or a refresh |
| Cognito.SessionStorage.FinishAccess | spa/src/auth/cognito.ts:238-271 | success stores the new tokens over the old refresh token; failure clears everything |
| Cognito.SessionStorage.ClearTokens | spa/src/auth/cognito.ts:65-69 | all three keys are gone |
| Cognito.GoodRun | spa/src/auth/cognito.ts:116-272 | every interleaving keeps verifier and state paired, exchanges bound, and stored tokens equal to the latest response |
| Cognito.ExchangesAreBound | spa/src/auth/cognito.ts:160-178 | each exchange ever sent used the verifier of the same login whose state came back |
| Cognito.CodesComeFromUrls | spa/src/auth/cognito.ts:145-178 | over every run each exchange was sent with the code, and checked by the state, of one callback URL |
| Cognito.CallbackCases | spa/src/auth/cognito.ts:150-170 | which URL and storage lead to which of the four refusals, and to which exchange, as if-and-only-ifs |
| Cognito.AccessCases | spa/src/auth/cognito.ts:253-266 | which storage and time lead to no session, a valid token, an unrefreshable session or a refresh |
| Cognito.TokensStoredExactly | spa/src/auth/cognito.ts:65-69 | over every run tokens are stored if and only if some response came in and neither a logout nor a failed refresh came after it |
| Cognito.PairStoredExactly | spa/src/auth/cognito.ts:121-122 | over every run a verifier and state are stored if and only if their login came and no login, logout, success of an exchange or failed refresh came after it |
| Cognito.ExchangeStores | spa/src/auth/cognito.ts:186-201 | what a successful exchange leaves, field by field; a failed one leaves everything |
| Cognito.FailedRefreshClears | spa/src/auth/cognito.ts:265-271 | a failed refresh leaves nothing stored |
| Cognito.HandedOutIsValid | spa/src/auth/cognito.ts:216-259 | a token is handed out without refresh exactly when it is the latest response's and has more than 60 seconds left |
| Cognito.StoredAreLatest | spa/src/auth/cognito.ts:71-80 | whatever overlapped, the stored tokens are the latest response field by field, expiry in milliseconds and `Bearer` for a missing type |
| Cognito.NothingNewAfterSuccess | spa/src/auth/cognito.ts:196-198 | once an exchange of a login has succeeded, no further exchange of it is ever sent |
| Cognito.SecondSuccess | spa/src/auth/cognito.ts:160-198 | after one success a login can succeed again if and only if another of its exchanges is pending |
| Cognito.AtMostOneSuccess | spa/src/auth/useAuth.ts:51-55 | with one callback at a time each login succeeds at most once |
| Cognito.OverlapSucceedsTwice | spa/src/auth/cognito.ts:160-198 | without that guard two callbacks begun together both succeed |
| Cognito.RefreshTokenSurvives | spa/src/auth/cognito.ts:71-80 | the refresh token survives any number of refreshes that return none, and is the last one returned otherwise |
| Cognito.RefreshTokenStays | spa/src/auth/cognito.ts:221-272 | over every run without logout or new login, overlapping refreshes included, the refresh token stays while responses omit it |
| Cognito.LogoutHolds | spa/src/auth/cognito.ts:65-69 | after a logout tokens can come back without a new login if and only if an exchange or a refresh was under way |
| Cognito.ClearedStays | spa/src/auth/cognito.ts:65-69 | with nothing under way, every run without a new login leaves the storage empty |
| Cognito.LateRefreshRestores | spa/src/auth/cognito.ts:238-246 | a run from the first login on in which the late answer to a refresh stores tokens after the logout |
| Cognito.LateCallbackRestores | spa/src/auth/cognito.ts:180-194 | the same with the late answer to the exchange |

## Left out

- httpx, Starlette, asyncio and fetch themselves: upstream is a sequence of lines with
  a failure or disconnect choice at each step; a failure is already one of the three
  kinds, so which exception class is caught by which clause is not modelled; cancellation is a choice at each await.
- The generation timeout firing while the generator is suspended at a yield, and an
  exception while an already answered upstream response is closed: a failure comes at
  the upstream steps only.
- The inner generator after `event_source` was cancelled: it is closed later and
  cannot emit or complete, so it ends with the cancellation here.
- Upstream JSON: `loads` is a parameter that maps a payload to malformed, of the wrong
  shape, or a record of content and counts; non-string deltas and non-integer counts
  are in none of these.
- JavaScript numbers beyond 2^53 and the number grammar's rounding: a number is kept as
  its digits.
- TextDecoder: server frames are ASCII, so chunks are already decoded text.
- Abort during a read is one of the read failures; the `signal` object is not modelled.
- The HTTP part of `streamChatCompletion` before the body, `toHttpError`,
  `forgetSession` in the browser and `newSessionId`: straight-line code around calls.
- `_Session` objects are values in the table: nothing else holds a reference to one, so
  no aliasing is lost. Locks and threads: each store method is one atomic step, and the
  clock never runs backwards.
- Floating-point time and temperature are reals.
- Lines that end in CR alone, and fields other than comment, `event` and `data`, in
  the comparison with the standard.
- `complete_chat`: its result is a content or a failure; its JSON is not modelled.
- Validation of types and unknown fields by pydantic, and the text of its errors.
- `Content-Length` pre-check, request ids, access log, metrics other than the slot
  gauge, health and model routes, JWT verification on the server.
- SHA-256, random bytes and URL building: the random bytes are parameters, the
  challenge and the URLs are not modelled.
- The JSON text of the tokens in `sessionStorage`: tokens are stored as a record, and a
  corrupted entry, which `loadTokens` treats as absent, does not occur.
- The percent-escaping between `atob` and `decodeURIComponent`: the two together are
  modelled as strict UTF-8 decoding.
- `React` components, CDK stacks, manifests and scripts.
