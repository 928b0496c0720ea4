# goaiapi relay core in Dafny

This project models the request/response logic of the goaiapi WebSocket server
(`cmd/main.go`). The server relays user text to a remote generative-language
model. It has three endpoints:

- `/ai` sends each message as an independent generation request.
- `/start-chat` keeps one chat session per connection.
- `/ops` runs every model reply as a `bash -c` command line, asks the model once
  for a fix when the command fails, and writes the command output back.

The model has these modules:

- `Render` (`render.dfy`) is the response renderer. It covers `contentString`,
  which joins parts with `;`, and `responseString`, which concatenates candidates
  with an `N:` label when there are several. Both are loop methods proved equal
  to left-fold specification functions. The lemmas cover the split round trip,
  separator count, first/last part and the labelled concatenation form.
- `Decimal` (`decimal.dfy`) is the `%d` text of the candidate index, with a
  parse round trip.
- `Session` (`session.dfy`) is a class `ChatSession` holding the conversation
  `history`. It also has two observation fields: `log`, the log lines the server
  writes, and `asked`, the prompts submitted to the model. The two `send`
  closures are methods on it, specified by the pure functions `ChatSend` and
  `OpsSend`.
- `Frames` (`frames.dfy`) holds the transport events `Ok(content)`,
  `Malformed` and `ReadErr`.
- `AiRelay` (`ai.dfy`), `ChatRelay` (`chat.dfy`) and `OpsRelay` (`ops.dfy`)
  model the three handler loops. Each loop is a `while` method proved equal to a
  right-fold function over the frames.

The oracles are parameters:

- The remote model is `Model = (call number, history, prompt) -> appended entries`.
  The call number is the count of prompts the session has already submitted.
- The `/ai` single-shot call is `(call number, prompt) -> Option<Response>`,
  where `None` is a model error.
- The shell is `(command number, command) -> ShellResult(output, ok)`. The
  command number counts the commands already run on the connection.
- Whether the k-th reply write succeeds is `nat -> bool`.

Because every oracle takes its call number, the same command can succeed once
and fail later, as `mkdir d` does when run twice. A model error can also be
transient.

A `send` that finds an empty history after submission indexes
`History[len-1]` and panics in Go. The model writes this as `IndexPanic`, and
the loops stop with `Panicked`.

Four behaviours that may look unintended are modelled as the code has them:

- The code writes back the **first** command's output on `/ops`, even when a
  repair ran. The repair's `output, err :=` at `cmd/main.go:278` declares new
  variables in the inner block. `OpsRelay.RepairOutputDiscarded` shows a concrete turn
  where the repair succeeds but the first, failing output is written back.
- A failed write on `/start-chat` or `/ops` only ends that connection's loop
  (`return`). It does not abort the process.
- The `/ops` `send` has no empty-message short-circuit. The empty string is
  submitted to the model.
- The sentinel reply is still passed to `bash -c`.

## Model

| member | source | states |
|---|---|---|
| Render.ContentString | cmd/main.go:41-53 | the builder loop returns exactly `ContentText(c)`: "" for nil content or nil parts, otherwise the parts joined by ";" |
| Render.ResponseString | cmd/main.go:30-39 | the builder loop returns exactly `ResponseText(resp)`, calling `contentString` per candidate and writing the `N:` label only when there is more than one candidate |
| Render.ContentAbsent | cmd/main.go:43-45 | nil content, nil parts or an empty parts list all render as "" |
| Render.JoinSingle | cmd/main.go:46-51 | a single part is written without any separator |
| Render.JoinSnoc | cmd/main.go:46-51 | each further part adds exactly one ";" before it |
| Render.SplitJoin | cmd/main.go:41-53 | when no part contains ";", splitting the output at ";" gives back exactly the parts |
| Render.JoinShape | cmd/main.go:46-51 | for n >= 1 parts free of ";", the output has exactly n-1 separators, starts with the first part and ends with the last |
| Render.ResponseEmpty | cmd/main.go:30-39 | zero candidates render as "" |
| Render.ResponseSingle | cmd/main.go:32-37 | one candidate renders as its content text with no "1:" label |
| Render.ResponseLabelled | cmd/main.go:32-37 | with more than one candidate, the output is the concatenation over i of `%d(i+1) + ":" + contentString(cand_i)` with nothing between candidates |
| Render.TwoCandidatesExample | cmd/main.go:30-39 | candidates "A" and "B" render as "1:A2:B" |
| Render.OneCandidateTwoPartsExample | cmd/main.go:41-53 | one candidate with parts "x","y" renders as "x;y" |
| Decimal.FormatWellFormed | cmd/main.go:34 | the `%d` label is a non-empty digit string with no leading zero for positive indexes |
| Decimal.ParseFormat | cmd/main.go:34 | the `%d` label is injective: parsing it gives back the index |
| Session.ChatSession.constructor | cmd/main.go:145 | `StartChat` gives a session with an empty history |
| Session.ChatSession.Submit | cmd/main.go:225-248 | the history becomes the old history plus what the model appended; a growth other than two adds one `HistoryLength(got, want)` log line and changes nothing else; the result is the text of the last entry, or a panic on an empty history |
| Session.ChatSession.SendChat | cmd/main.go:147-176 | the new session state and reply are `ChatSend` of the old state |
| Session.ChatSession.SendOps | cmd/main.go:220-249 | the new session state and reply are `OpsSend` of the old state |
| Session.ChatEmptyMessage | cmd/main.go:149-151 | on `/start-chat` the empty message returns "" and leaves history, log and prompts unchanged; the result does not depend on the model |
| Session.OpsSentinelMessage | cmd/main.go:221-223 | on `/ops` "echo true"/"echo false" come back unchanged with the session untouched; the result does not depend on the model |
| Session.SubmitEffect | cmd/main.go:152-175 | a submission appends the model's entries, records the prompt, logs iff the growth is not exactly two (never an error), panics iff the history ends empty, and otherwise returns `contentString` of the last entry |
| Session.SendSubmits | cmd/main.go:220-225 | every non-empty message is submitted on `/start-chat`; every non-sentinel message, the empty one included, is submitted on `/ops` |
| Session.SubmitWellBehaved | cmd/main.go:169-175 | with a model that appends two entries, the history grows by exactly two, nothing is logged and the reply is the model turn's text |
| Session.SubmitOnNonEmpty | cmd/main.go:175 | on a non-empty history the last-entry read cannot panic, and the old history is kept as a prefix |
| AiRelay.ServeLoop | cmd/main.go:95-134 | the loop's written replies and stop reason equal `Serve` of the frames |
| AiRelay.MalformedSkipped | cmd/main.go:102-106 | a frame that fails JSON decoding gets no reply and the loop continues |
| AiRelay.ReadErrStops | cmd/main.go:96-100 | a read error ends the loop with nothing more written |
| AiRelay.ModelErrorSkipped | cmd/main.go:112-116 | a model error gets no reply and the loop continues |
| AiRelay.WriteErrStops | cmd/main.go:126-129 | a failed write ends the loop |
| AiRelay.AllAnswered | cmd/main.go:95-134 | without transport failures, exactly the frames the model answers get their rendered response back, in order |
| AiRelay.RepliesBounded | cmd/main.go:95-134 | the loop never writes more replies than it received well-formed frames |
| ChatRelay.ServeLoop | cmd/main.go:177-208 | the new session, the written replies and the stop reason equal `Serve` of the old session and the frames |
| ChatRelay.MalformedSkipped | cmd/main.go:184-188 | a malformed frame gets no reply, changes nothing, and the loop continues |
| ChatRelay.ReadErrStops | cmd/main.go:178-182 | a read error ends the loop with the session unchanged |
| ChatRelay.HistoryGrowth | cmd/main.go:147-208 | with a two-entry model and no transport failure, N non-empty messages grow the history by exactly 2N, log nothing, and every well-formed frame gets one reply |
| ChatRelay.HistoryGrowthUnlessLogged | cmd/main.go:147-208 | for any model and no transport failure, the log only grows; if no history mismatch was logged, N non-empty messages grew the history by exactly 2N, nothing panicked, and every well-formed frame got one reply |
| OpsRelay.RunTurn | cmd/main.go:266-286 | the new session, the commands run and the written content equal `TurnOf` of the old session |
| OpsRelay.ServeLoop | cmd/main.go:251-302 | the new session, the replies, the commands run and the stop reason equal `Serve` of the old session and the frames |
| OpsRelay.Handle | cmd/main.go:218-302 | a fresh session gets the instruction first and then runs the loop, as `Connection` states |
| OpsRelay.InitNotSentinel | cmd/main.go:250 | the fixed instruction is not a sentinel, so it always reaches the model |
| OpsRelay.RepairPromptNotSentinel | cmd/main.go:276 | the repair prompt is never a sentinel, so the repair always reaches the model |
| OpsRelay.SentinelTurn | cmd/main.go:266-273 | a sentinel is the first command passed to bash; if it succeeds, the session is untouched and its output is written back |
| OpsRelay.SuccessTurn | cmd/main.go:272-286 | a successful first command is the only command run and its output is written back |
| OpsRelay.RepairTurn | cmd/main.go:274-284 | a failing command makes exactly one repair prompt `"There was an error running the command. Output was: " + output + "\nFix it."`; its reply is run exactly once; a second failure only adds a log line; the first output is still written back |
| OpsRelay.FirstOutputWritten | cmd/main.go:269-286 | the written content is always the output of the first command, which is the reply to the message itself; a second command runs iff the first failed |
| OpsRelay.RepairNeverPanics | cmd/main.go:276 | once the message's send has returned and the history is non-empty, the repair send cannot panic |
| OpsRelay.TurnGrowth | cmd/main.go:225-248 | with a two-entry model, a turn grows the history by 0 for a sentinel or 2 otherwise, plus 2 when a repair ran |
| OpsRelay.RepairOutputDiscarded | cmd/main.go:273-286 | in a concrete turn whose repair succeeds with "fixed\n", the failing first output "fail\n" is written back |
| OpsRelay.SameCommandLaterFails | cmd/main.go:251-302 | on one connection the same reply `mkdir d` succeeds on the first frame and fails on the second, and only the second turn runs a repair |
| OpsRelay.TurnExtends | cmd/main.go:266-284 | a turn only appends to the history and to the prompts asked |
| OpsRelay.ServeExtends | cmd/main.go:251-302 | the loop only appends to the history and to the prompts asked |
| OpsRelay.InitFirst | cmd/main.go:250-251 | the instruction is the first prompt of every connection, submitted before any frame is read; if it panics, no frame is read |
| OpsRelay.MalformedSkipped | cmd/main.go:258-262 | a malformed frame gets no reply, runs no command, and the loop continues |
| OpsRelay.ReadErrStops | cmd/main.go:252-256 | a read error ends the loop with the session unchanged |
| OpsRelay.AllAnswered | cmd/main.go:251-302 | with a two-entry model and no transport failure, no turn panics; every well-formed frame gets exactly one reply and runs one or two commands; the history grows by 2 per non-sentinel message plus 2 per repair |
| OpsRelay.ConnectionAnswered | cmd/main.go:218-302 | the same holds for a whole connection, and the instruction adds its own two history entries |
| OpsRelay.TurnUnlessLogged | cmd/main.go:225-248 | for any model, a turn only appends to the log; when it appended no history-length line, the turn did not panic, ran one or two commands, and grew the history by 0 for a sentinel or 2 otherwise, plus 2 when a repair ran |
| OpsRelay.ServeUnlessLogged | cmd/main.go:251-302 | for any model and no transport failure, the loop only appends to the log; when no history-length line was appended, it did not stop, every well-formed frame got one reply and ran one or two commands, and the history grew by 2 per non-sentinel message plus 2 per repair |
| OpsRelay.ConnectionUnlessLogged | cmd/main.go:218-302 | for any model, a connection whose log holds no history-length line ends as the two-entry case does, with the instruction's two entries added |

## Left out

- WebSocket upgrade, frame read/write and JSON (un)marshalling are library I/O. Frames are the events `Ok | Malformed | ReadErr`, and write success is a parameter.
- The JSON-marshal error branches (`cmd/main.go:120-124`, `194-198`, `288-292`) are left out: marshalling a `Message` holding one string cannot fail.
- The genai client, safety settings, model choice and stream iteration (`cmd/main.go:68-85`, `154-163`, `227-236`) are foreign calls. The model is an oracle returning the entries appended to the history.
- The `streaming` flag of `send` is left out: both submission forms only append to the history here.
- `log.Fatal` on a model error inside `send` (process abort) is left out; the model oracle always returns.
- Running `bash` is process I/O; the shell is an oracle returning output and success.
- Timing and duration logging, and the text of the other log lines, are left out. Only the history-length warning and the two command-failure lines are kept, as `LogLine` values.
- The CORS root handler, `ListenAndServe`, the API-key check and the goroutine per connection are left out. They are plumbing, and no state is shared between connections.
- A `%v` of a part is modelled as the part's own string, as for a text part.
- A nil `Parts` slice is `None`. An empty non-nil slice is `Some([])`; both render as "".
- The client in `ws_client/client.go` is a stdin/stdout test harness; it is not part of this model.
