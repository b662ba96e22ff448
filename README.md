# ChatDocs core, modelled in Dafny

ChatDocs is a web application for chatting with uploaded PDF documents.
The backend (FastAPI) does three things:

- It splits a document's text into overlapping chunks and indexes each chunk for retrieval.
- It assembles a prompt from the retrieved text and the recent conversation.
- It streams the language model's answer back as Server-Sent-Events frames, one `data: <json>` line each, followed by a blank line.

The React frontend has three matching parts:

- It reads that stream chunk by chunk into the chat transcript.
- It keeps one transcript per document in the browser's local storage.
- It guards the session with a client-side expiry check of the login token and a forced-logout timer.

The model covers these pieces, one Dafny module per concern:

- `wrappers.dfy` (module `Wrappers`): `Option`, `Result`
- `seqs.dfy` (module `Seqs`): `LastN` (`xs.slice(-n)` / `xs[-n:]`), `Flatten`
- `text.dfy` (module `Text`): white space, `split`/`join`, lower-casing, the `.pdf` test, decimal rendering of integers
- `protocol.dfy` (module `Protocol`): the frames the backend emits and their wire form
- `backend.dfy` (module `Backend`): `chunk_text`, system message and message list, `generate`, `upload_document` bookkeeping
- `token_clock.dfy` (module `TokenClock`): `isTokenExpired`
- `app.dfy` (module `App`): `checkAuth`, the logout-timer effect, login/logout, the `API` base address
- `chat_stream.dfy` (module `ChatStream`): the chat page's reading of a reply as values: lines, events, the transcript fold
- `dashboard.dfy` (module `Dashboard`): the chat page's state as a class: selection, transcript, input, busy flag, local storage
- `end_to_end.dfy` (module `EndToEnd`): what the backend's frames and the frontend's reader do together

Foreign code becomes parameters:

- JSON decoding on the page is `parse: string -> Option<Payload>`.
- `json.dumps` is `dumps: Payload -> string`.
- `atob` plus `JSON.parse` of a token payload is `decode: string -> ExpClaim`.

I/O becomes inputs:

- The network reply is a `Reply`: whether the response was ok, the chunks read, and whether a later read throws.
- The language model's stream is a sequence of optional deltas plus a failure flag.
- The clock is a parameter `now`.
- The outcome of `/auth/me` is a flag.
- Extracted PDF text is a `Result`.
- The set of chunks whose embedding or upsert failed is a parameter.

React is modelled as sequential steps:

- A handler runs to completion.
- Each `setMessages` is followed by the history-save effect.
- The history-load effect runs when the selected document object changes.
- The logout-timer effect re-runs, after cancelling the previous timer, exactly when `isAuthenticated` changes value.

The model follows the code, including three places where it behaves differently from an idealised protocol:

- Each network chunk is split on `"\n"` by itself, with no buffer across chunks. A frame cut by a chunk boundary is therefore lost (`ChatStream.SplitFrameIsLost`).
- A stream that ends without a `done` frame leaves the assistant message marked `streaming` (`ChatStream.NoDoneStaysStreaming`). A later turn then buries that message under newer ones (`ChatStream.StreamingMessageCanBeBuried`).
- A failure removes only the last message. That is the user message when the response was not ok, and the assistant placeholder when a read throws (`ChatStream.TurnTranscript`).

## Model

| member | source | states |
|---|---|---|
| `Protocol.PayloadOf` | backend/app.py:402-427 | a content frame sends only `content`, an error frame only `error`, the done frame only `done: true` |
| `Protocol.Wire` | backend/app.py:402 | `data: ` followed by the dumped payload and a blank line |
| `Backend.ChunkText` | backend/app.py:151-165 | the loop returns exactly the non-blank windows `text[start:start+chunk_size]` for `start = 0, step, 2*step, …` below the length, in order, where `step = chunk_size - overlap`; it is given only `overlap < chunk_size`, the condition under which the loop ends on non-empty text (empty text returns `[]` at once) |
| `Backend.TextChunks` | backend/app.py:151-165 | the chunks are exactly the non-blank windows at `0, step, 2*step, …` with `step = chunk_size - overlap`, in order |
| `Backend.Window` | backend/app.py:157-158 | `text[start:start+chunk_size]`: the slice at `start` of length `min(chunk_size, len - start)` |
| `Backend.WindowsFrom` | backend/app.py:156-163 | the windows the loop visits from `start` on: there is one exactly when `start` is inside the text |
| `Backend.ChunksAreNonBlankWindows` | backend/app.py:156-163 | the chunks are the examined windows with the white-space-only ones filtered out, in order |
| `Backend.NonBlankFilters` | backend/app.py:160-161 | a text is kept if and only if it is one of the windows and not blank |
| `Backend.WindowsAreShort` | backend/app.py:157-158 | no window is longer than the chunk size |
| `Backend.ChunkIsShortAndNotBlank` | backend/app.py:151-165 | every chunk is a window, non-empty, at most `chunk_size` long, and not white space only |
| `Backend.WindowAt` | backend/app.py:156-163 | the k-th window examined starts at `k * step` (below the text length) and is the slice there |
| `Backend.WindowCountBounds` | backend/app.py:156-163 | the number of windows examined is the least `m` with `m * step >= len(text)`, that is `ceil(len / step)` |
| `Backend.EmptyTextHasNoChunks` | backend/app.py:151-165 | empty text yields no chunks |
| `Backend.PromptsDiffer` | backend/app.py:339-363 | the grounded prompt is never the fallback prompt, whatever the context |
| `Backend.GroundedPrompt` | backend/app.py:339-363 | the grounded prompt is its fixed opening text, the context and its fixed closing text, with the context readable back from between them |
| `Backend.JoinContext` | backend/app.py:337 | the `"\n\n"`-joined context is blank if and only if every match text is; a single match is the context itself |
| `Backend.SystemMessage` | backend/app.py:337-363 | role `system`; the fallback prompt exactly when every match text is white space (so the `"\n\n"`-joined context is), otherwise the grounded prompt wrapped around the joined context |
| `Backend.BuildMessages` | backend/app.py:367-371 | the list is the system message, then the last `min(n, 5)` history items in order, then `{user, message}`, and nothing else |
| `Backend.ContentFrames` | backend/app.py:388-406 | every frame is a content frame with non-empty content, there are at most as many frames as deltas, and their contents concatenate to the response text |
| `Backend.DeltaPositions` | backend/app.py:388-401 | the positions of the non-empty deltas, each in range and holding a non-empty delta, strictly increasing |
| `Backend.DeltaPositionsComplete` | backend/app.py:400-401 | every non-empty delta's position is listed |
| `Backend.ContentFramesFollowDeltas` | backend/app.py:388-403 | one content frame per non-empty delta, in order: the k-th frame carries the k-th non-empty delta |
| `Backend.ContentsAppend` | backend/app.py:401-402 | the text carried by frames distributes over concatenation of frame runs |
| `Backend.ResponseText` | backend/app.py:380-401 | `assistant_response`: each delta's text is appended, so the last delta's text ends the response |
| `Backend.EmptyResponse` | backend/app.py:380-401 | the response is empty exactly when no delta carried text |
| `Backend.GeneratedFrames` | backend/app.py:379-427 | content frames, then exactly one terminal frame last; a `done` frame occurs if and only if generation did not fail; an `error` frame occurs if and only if it failed; the content streamed is the whole response |
| `Backend.Generate` | backend/app.py:379-427 | the generator's loop yields those frames, accumulates the response, and saves history plus the user message and the response only when it did not fail |
| `Backend.VectorIdInjective` | backend/app.py:247 | two chunk numbers with the same vector id of one document are equal |
| `Backend.VectorId` | backend/app.py:247 | the id is `{doc_id}#chunk_` followed by decimal digits whose value is the chunk number |
| `Backend.VectorFor` | backend/app.py:245-254 | the vector carries the id, document, user and chunk number; its text is the chunk's first 1000 characters: the prefix of length `min(1000, len(chunk))`, so the whole chunk when that is short enough |
| `Backend.IndexedVectors` | backend/app.py:239-265 | the vectors upserted are for chunks below `n` that did not fail, in strictly increasing chunk order, each with id `{doc_id}#chunk_{i}`, the document and user, the chunk number and the chunk text cut to 1000 characters |
| `Backend.IndexedVectorsComplete` | backend/app.py:239-265 | every chunk that did not fail is indexed |
| `Backend.IndexedVectorsAreDistinctWholeChunks` | backend/app.py:247-253 | with the default sizes, vector ids are pairwise distinct and the cut to 1000 characters never shortens a chunk |
| `Backend.UploadDocument` | backend/app.py:225-274 | a name whose lower-case form lacks the `.pdf` suffix gets 400 "Only PDF files are supported"; failed extraction gets 500 with the extraction error; otherwise the record holds `{uploads}/{doc_id}_{filename}` and `chunk_count = len(chunks)`, counting chunks whose indexing failed, and the vectors are exactly the indexed ones |
| `TokenClock.PayloadSegment` | frontend/src/lib/auth.js:5 | the second `.`-separated segment exists exactly when the token contains a dot |
| `TokenClock.Claim` | frontend/src/lib/auth.js:5-6 | a token without a dot has no decodable claim; otherwise the claim is the decoded payload segment |
| `TokenClock.IsTokenExpired` | frontend/src/lib/auth.js:1-13 | a missing or empty token is expired; an undecodable payload is expired (fail closed); with a numeric claim, expired exactly when `now > exp * 1000` |
| `TokenClock.ExpiryBoundaryIsStrict` | frontend/src/lib/auth.js:7-8 | at exactly `exp * 1000` the token is valid, one millisecond later expired |
| `TokenClock.ExpiryIsMonotone` | frontend/src/lib/auth.js:8 | once expired at `t`, expired at every later time |
| `TokenClock.NonNumericClaimNeverExpires` | frontend/src/lib/auth.js:7-8 | a payload whose `exp` is missing or not convertible to a number (`undefined`, an object, a non-numeric string) makes `exp * 1000` `NaN`, and the token is then never expired; `null`, booleans and numeric strings convert and are numeric claims |
| `TokenClock.PayloadSegmentOf` | frontend/src/lib/auth.js:5 | for `header.payload[.rest]` the segment read is `payload` |
| `TokenClock.OnlyPayloadSegmentMatters` | frontend/src/lib/auth.js:5-8 | tokens that differ only in their header and in what follows the payload get the same verdict |
| `App.TimerDelay` | frontend/src/App.js:50-56 | the delay a browser timer waits is never above `2^31 - 1` ms and equals the computed timeout when that lies in range |
| `App.RawTimeout` | frontend/src/App.js:50 | `exp * 1000 - Date.now()` exists exactly for a numeric claim, and then `now + timeout` is `exp * 1000` |
| `App.ScheduledTimer` | frontend/src/App.js:45-57 | a timer is scheduled if and only if the token is present and not expired, due between now and now plus `2^31 - 1` ms |
| `App.ScheduledTimerFiresAtExpiry` | frontend/src/App.js:46-56 | for a scheduled timer, `exp * 1000 - now` is never negative, and within the 32-bit range the timer fires exactly at `exp * 1000` |
| `App.FarExpiryWrapsAround` | frontend/src/App.js:50-56 | a token valid for another 2^31 seconds gets a timer due immediately, although it is not expired |
| `App.AuthSession.constructor` | frontend/src/App.js:20-21 | starts unauthenticated and loading, with the stored token and no timer |
| `App.AuthSession.RunTimerEffect` | frontend/src/App.js:45-60 | the previous timer is cleared and the new one is the scheduled timer for the current token, so at most one is pending |
| `App.AuthSession.SetAuthenticated` | frontend/src/App.js:19-60 | sets the flag and keeps the session valid when authenticating with a token present; the timer is rescheduled only when the value changes |
| `App.AuthSession.Mount` | frontend/src/App.js:22-43 | a missing or expired token is removed, no `/auth/me` call is made, and no timer is set; otherwise the call decides: success authenticates and reschedules the timer, failure removes the token and leaves the timer scheduled at mount pending; loading is false on every path |
| `App.AuthSession.Tick` | frontend/src/App.js:52-56 | a due timer removes the token, unauthenticates and redirects to `/login`; before that nothing changes |
| `App.AuthSession.Logout` | frontend/src/App.js:91-94 | the token is removed and the session unauthenticated; a pending timer is cancelled by the effect re-run |
| `App.AuthSession.OnLogin` | frontend/src/App.js:81 | the issued token is stored and the session authenticated, with a timer for that token |
| `App.StripTrailingSlashes` | frontend/src/App.js:9 | the result is a prefix of the input, does not end in `/`, and only slashes were removed |
| `App.Api` | frontend/src/App.js:9 | as written, `API` is a prefix of `BACKEND_URL + "/api"` that does not end in `/` |
| `App.ApiStripIsNoOp` | frontend/src/App.js:9 | as written, `API` is always `BACKEND_URL + "/api"`: the strip never removes anything |
| `App.ApiKeepsDoubleSlash` | frontend/src/App.js:9 | a backend address with a trailing slash yields `//api` |
| `App.ApiStripped` | frontend/src/App.js:9 | the corrected address ends in `/api` but not `//api`, and is the stripped backend address plus `/api` |
| `App.StripIgnoresTrailingSlashes` | frontend/src/App.js:9 | stripping ignores how many trailing slashes there were |
| `App.ApiStrippedIgnoresTrailingSlashes` | frontend/src/App.js:9 | with the correction, trailing slashes on the backend address do not change `API` |
| `ChatStream.PayloadEvents` | frontend/src/pages/Dashboard.js:169-193 | a frame with none of `content`, `done`, `error` does nothing; `content` is handled first; at most three events |
| `ChatStream.LineEvents` | frontend/src/pages/Dashboard.js:166-168 | a line yields events only if it starts with `data: ` and the rest parses, and then exactly the parsed frame's events |
| `ChatStream.LinesEvents` | frontend/src/pages/Dashboard.js:165-197 | at most three events per line |
| `ChatStream.ChunkEvents` | frontend/src/pages/Dashboard.js:162-165 | at most three events per line of the chunk split on `\n` |
| `ChatStream.OneLineChunk` | frontend/src/pages/Dashboard.js:163-165 | a chunk without a newline is handled as the single line it is |
| `ChatStream.StreamEvents` | frontend/src/pages/Dashboard.js:158-162 | a reply read in one chunk yields exactly that chunk's events |
| `ChatStream.Step` | frontend/src/pages/Dashboard.js:170-191 | an error notice changes nothing; afterwards the message is settled exactly when the event was `done`, or a notice that found it already settled |
| `ChatStream.Fold` | frontend/src/pages/Dashboard.js:158-194 | the text only grows; without a `done` event a streaming message stays streaming |
| `ChatStream.LinesEventsAppend` | frontend/src/pages/Dashboard.js:165-199 | lines are processed one after another: the events of two runs of lines are those of each |
| `ChatStream.StreamEventsAppend` | frontend/src/pages/Dashboard.js:158-163 | no carry-over: the events of a stream are those of its chunks, each split and decoded on its own |
| `ChatStream.SplitFrameIsLost` | frontend/src/pages/Dashboard.js:162-166 | a frame split as `"dat"` and `"a: {json}\n\n"` across two chunks yields no event at all |
| `ChatStream.FoldPayload` | frontend/src/pages/Dashboard.js:169-194 | a parsed frame appends its content, settles the message on `done`, marks it streaming on non-empty content, and is unchanged by `error` |
| `ChatStream.FoldAppend` | frontend/src/pages/Dashboard.js:158-200 | folding a stream in two parts equals folding it whole |
| `ChatStream.FoldFromPlaceholder` | frontend/src/pages/Dashboard.js:151-194 | from the placeholder, the message holds every delta in order and is settled exactly when the last delta-or-done event was a `done`; errors change nothing |
| `ChatStream.SettledNeedsDone` | frontend/src/pages/Dashboard.js:181-191 | only a `done` event settles the message |
| `ChatStream.NoDoneStaysStreaming` | frontend/src/pages/Dashboard.js:158-160 | end of stream without any `done` leaves the message marked streaming |
| `ChatStream.HistoryWindow` | frontend/src/pages/Dashboard.js:141 | the history sent is the last `min(10, n)` messages of the transcript before the send, in order |
| `ChatStream.ReplaceLast` | frontend/src/pages/Dashboard.js:172-178 | length unchanged; on a non-empty transcript every earlier message is kept and only the last is replaced |
| `ChatStream.ReplaceLastOfTurn` | frontend/src/pages/Dashboard.js:172-178 | replacing the last message of a turn keeps the earlier messages and the user message |
| `ChatStream.DropLast` | frontend/src/pages/Dashboard.js:203 | exactly the last message is removed (nothing from an empty transcript), the rest kept in order |
| `ChatStream.TurnTranscript` | frontend/src/pages/Dashboard.js:123-207 | earlier messages are untouched; a non-ok response leaves the transcript as it was, a read failure leaves only the user message, a completed read leaves the user message and an assistant message with every delta, settled exactly when the last delta-or-done event was `done` |
| `ChatStream.StreamingMessageCanBeBuried` | frontend/src/pages/Dashboard.js:153-160 | after a reply without `done` and a further send, a message marked streaming is no longer the last |
| `Dashboard.HistoryKey` | frontend/src/pages/Dashboard.js:40 | the key is `chat_history_` followed by the id, from which the id can be read back |
| `Dashboard.HistoryKeyInjective` | frontend/src/pages/Dashboard.js:40-53 | different documents have different storage keys |
| `Dashboard.Load` | frontend/src/pages/Dashboard.js:38-47 | no stored entry gives the empty transcript; a non-empty result is the stored one for that document's key |
| `Dashboard.LoadAfterSave` | frontend/src/pages/Dashboard.js:38-57 | loading after saving one document's transcript returns it for that document and the earlier value for every other |
| `Dashboard.PickFile` | frontend/src/pages/Dashboard.js:76-83 | no file does nothing; a file is accepted if and only if its lower-case name ends in `.pdf` |
| `Dashboard.ChatPage.constructor` | frontend/src/pages/Dashboard.js:23-28 | nothing selected, empty transcript and input, not loading, the stored transcripts as given |
| `Dashboard.ChatPage.SetMessages` | frontend/src/pages/Dashboard.js:49-57 | the transcript is replaced and, when a document is selected, saved under its key |
| `Dashboard.ChatPage.TypeInput` | frontend/src/pages/Dashboard.js:412 | the input box holds the text |
| `Dashboard.ChatPage.SelectDocument` | frontend/src/pages/Dashboard.js:289-292 | a different document object loads its stored transcript, or the empty one; the object already selected clears the transcript and overwrites the stored one with `[]` |
| `Dashboard.ChatPage.DeleteDocument` | frontend/src/pages/Dashboard.js:109-121 | a confirmed deletion of the selected document clears selection and transcript; local storage is not touched |
| `Dashboard.ChatPage.ReadReply` | frontend/src/pages/Dashboard.js:145-206 | after an ok response the transcript becomes the turn's transcript, and it is saved |
| `Dashboard.ChatPage.SettleTurn` | frontend/src/pages/Dashboard.js:201-204 | after the read loop the transcript is the turn's transcript: a read that threw drops the assistant message and saves the result; otherwise nothing changes |
| `Dashboard.ChatPage.ReadBody` | frontend/src/pages/Dashboard.js:158-200 | the read loop leaves the fold of every chunk's events in the assistant message, which stays last |
| `Dashboard.ChatPage.ReadChunk` | frontend/src/pages/Dashboard.js:162-199 | one chunk: the fold of its lines' events, in order |
| `Dashboard.ChatPage.ReadLine` | frontend/src/pages/Dashboard.js:166-198 | a line that does not start with `data: ` or does not parse changes nothing |
| `Dashboard.ChatPage.ApplyPayload` | frontend/src/pages/Dashboard.js:169-194 | a parsed frame changes only the last message, as the fold of its events says |
| `Dashboard.ChatPage.SendMessage` | frontend/src/pages/Dashboard.js:123-207 | a blank input, no selection or a pending send makes no request and changes nothing; otherwise the input is cleared, the request carries the document id, the typed text and the last ten prior messages, the transcript becomes the turn's transcript and is saved, and loading ends false |
| `EndToEnd.FrameEventsAppend` | backend/app.py:379-427 | the events of frame runs distribute over concatenation |
| `EndToEnd.SplitWire` | backend/app.py:402 | the wire form of whole frames splits into each frame's `data:` line and a blank line |
| `EndToEnd.SplitFrameLines` | frontend/src/pages/Dashboard.js:163 | a newline-free line followed by a blank line splits off as those two lines, ahead of the rest |
| `EndToEnd.FrameLineEvents` | frontend/src/pages/Dashboard.js:166-194 | one frame's two lines yield exactly that frame's events |
| `EndToEnd.LinesOfFrames` | frontend/src/pages/Dashboard.js:165-199 | the lines of whole frames yield the frames' events in order |
| `EndToEnd.WholeFramesChunk` | frontend/src/pages/Dashboard.js:162-199 | a chunk of whole frames yields exactly their events |
| `EndToEnd.Deliver` | backend/app.py:379-427 | one chunk per group of frames, and each chunk is the wire form of its group |
| `EndToEnd.DeliveredEvents` | frontend/src/pages/Dashboard.js:158-200 | a body cut along frame boundaries yields the events of all frames in order |
| `EndToEnd.ContentFramesFold` | frontend/src/pages/Dashboard.js:169-180 | content frames alone leave their text in the message, still streaming |
| `EndToEnd.TerminalFrameFold` | frontend/src/pages/Dashboard.js:181-194 | a `done` frame settles the message; an `error` frame leaves it streaming |
| `EndToEnd.WholeFramesDeliverResponse` | backend/app.py:379-427 | if every frame arrives whole within one chunk, the page's accumulated text equals the backend's `assistant_response`, and the message is settled exactly when generation did not fail |
| `EndToEnd.WholeFramesTurn` | frontend/src/pages/Dashboard.js:123-207 | for such a reply the transcript gains the user message and an assistant message with the whole response, left streaming after a generation error |
| `EndToEnd.WireHistory` | backend/app.py:88-90 | the history arrives as one `{role, content}` item per message, in order |
| `EndToEnd.PromptSeesLastFive` | backend/app.py:368 | the page sends ten and the backend keeps five, so the prompt sees exactly the last five messages of the transcript |
| `Seqs.LastN` | backend/app.py:368 | `xs[-n:]` / `xs.slice(-n)`: the last `min(len, n)` elements, in order |
| `Text.Split` | frontend/src/pages/Dashboard.js:163 | `split` on one character yields at least one piece |
| `Text.JoinSplit` | frontend/src/pages/Dashboard.js:163 | joining the pieces with the separator gives back the string |
| `Text.SplitAtSeparator` | frontend/src/pages/Dashboard.js:163 | splitting at a separator splits the pieces there |
| `Text.SplitHasTwoPiecesIffSeparator` | frontend/src/lib/auth.js:5 | there is a second piece if and only if the separator occurs |
| `Text.JoinBlankIffAllBlank` | backend/app.py:337-339 | a join with a white-space separator is blank if and only if every part is |
| `Text.IsBlank` | backend/app.py:160 | `not s.strip()` (also `not context.strip()` and `!inputMessage.trim()`): every character is ASCII white space |
| `Text.JoinWith` | backend/app.py:337 | `sep.join(parts)`: the first part opens the result and the last part closes it |
| `Text.PdfExtensionIgnoresCase` | backend/app.py:225 | `.PDF` and `.pdf` pass the extension test, `.pdf.txt` does not |
| `Text.HasPdfExtension` | backend/app.py:225 | true exactly when the last four characters, lower-cased, are `.pdf` |
| `Text.NatToString` | backend/app.py:247 | the decimal rendering is non-empty and made of digits only |
| `Text.NatToStringRoundTrip` | backend/app.py:247 | the decimal rendering of a chunk number reads back as that number |
| `Text.NatToStringInjective` | backend/app.py:247 | distinct chunk numbers render differently |

## Left out

- Rendering, scrolling, toasts, `data-testid` markup and `ChatMarkdown` are not modelled. They have no logic of their own beyond display.
- `LoginPage` is not part of this model. `App.AuthSession.OnLogin` takes the token it stores as an input.
- The document list and `fetchDocuments` are left out. They only copy the server's answer into state.
- The upload request itself (multipart POST, toast, clearing the file input) is left out beyond `Dashboard.PickFile`.
- The Authorization headers and the axios interceptor are left out. They only copy the stored token into each request.
- `TextDecoder` decoding of bytes into text is not modelled. Chunks are given as strings, so a multi-byte character cut by a chunk boundary is not modelled.
- Interleaving is not modelled. Examples: a document switch or a second send while a reply is still streaming, or the fact that React batches the several `setMessages` calls of one read. Each handler is modelled as running to completion.
- JSON values are reduced to the three fields the page reads. A truthy non-string `content` or `error`, or a non-boolean truthy `done`, is not modelled. Neither is a malformed transcript in local storage, which would make `JSON.parse` throw inside the load effect.
- `IsSpace` covers the ASCII white space only (space, tab, `\n`, `\v`, `\f`, `\r`). Python's `str.strip` also removes the separators `\x1c`–`\x1f` and other Unicode white space, and JavaScript's `trim` removes other Unicode white space.
- `LowerChar` folds ASCII letters only. Python's `lower()` folds all of Unicode.
- Token expiry times are whole seconds. A fractional `exp` is not modelled.
- `Date.now()` is an integer parameter. Clock skew and timer drift are left out.
- `Backend.ChunkText` takes `chunk_size` as a natural number. Python's negative-index slicing for a negative size is not modelled.
- For `overlap >= chunk_size` and non-empty text the Python loop never ends; empty text still returns `[]`. `Backend.ChunkText` requires `overlap < chunk_size` and does not model the non-terminating call.
- The chat route's database lookup (404 "Document not found"), the query embedding and the vector search (500 "Search failed") are foreign calls and are not modelled. The model starts from the retrieved match texts.
- The embedding values, the Pinecone namespace and the index statistics call are left out. The upload timestamp, MongoDB writes and the file write are left out too.
- `Backend.UploadDocument` builds the stored path by string concatenation. `pathlib` would also normalise repeated `/` and `.` segments in a client-supplied file name, which is not modelled.
- `Backend.Generate` models the stream of deltas and a single failure point. The OpenRouter client, the model name and the per-chunk parse warnings are inputs folded into the optional deltas.
- The stored transcript of a deleted document stays in local storage. `Dashboard.ChatPage.DeleteDocument` states this (storage is outside its frame) rather than modelling any clean-up.
- `Dashboard.ChatPage.SetMessages` always writes to storage when a document is selected. React skips the save effect when the value is unchanged, but under `Valid()` that write stores the value already there.

## Findings

| source | as written | input that shows it | evidently intended | confidence | as-written member | corrected member |
|---|---|---|---|---|---|---|
| frontend/src/App.js:9 | ``API = `${BACKEND_URL}/api`.replace(/\/+$/, "")`` strips trailing slashes after `/api` has been appended, so it never removes anything | `BACKEND_URL = "http://localhost:8001/"` gives `http://localhost:8001//api` | strip the trailing slashes of `BACKEND_URL`, then append `/api` | not executed | `App.ApiKeepsDoubleSlash` | `App.ApiStripped` |
