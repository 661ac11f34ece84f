# Verified model of the matrix-runtime core

This project models the concurrent and algorithmic core of matrix-runtime and proves what it promises,
for all inputs and all interleavings. Run `dafny verify dfyconfig.toml` in this directory.

Where the source changes state in place, the model does too: a class holds the source's fields, every
method states its whole new state as a function of the old one, and the theorems are about those
functions. Concurrent parts are state machines whose steps are single critical sections or channel
operations of any number of goroutines; `Exec` runs a list of steps, and the main results quantify over
every such run.

| file | what it covers |
|---|---|
| McpClient, McpCalls, McpRequests | the JSON-RPC client over stdio: pending map and one-slot channels; callers and reader; requests of the server |
| EventBus | the per-job broadcaster with bounded buffers |
| Jobs, JobStories, JobStore | job lifecycle, semaphore, set-once contexts, retention sweep; what has become of a job told from the steps alone; the objects in place |
| Base64 | base64 with bit arithmetic and a reused output chunk, against section 4 of RFC 4648 |
| LineStream | the newline-delimited decoding stream |
| Pbkdf2, Passwords | key derivation against section 5.2 of RFC 2898; encoded password hashes |
| SqlRewrite, SqlSchema | schema qualification match by match, and the schemas it writes as they are |
| SqlPlaceholders, SqlPipeline | placeholder numbering, and both rewrites together |
| Slug | slugify and uniqueSlug |
| RateLimit, RateSkew, RateRuns | the fixed-window limiter with opportunistic eviction; what it admits with clock readings out of order; the runs that break its bounds |
| JoinTokens | read-then-update redemption of join tokens |
| Command, CommandPolicy | the quote-aware tokenizer and the start-command policy |
| Text, Channels, Prelude | decimal numerals, white space, buffered channels, Option and Result |

## Assumptions

- HMAC-SHA256 is any function from a key and a text to 32 octets; JSON parsing is any partial function;
  `unicode.ToLower` is any function on characters (idempotence of slugify needs that it keeps `a-z`,
  `0-9` and `-`), and which characters beyond ASCII are letters or digits of a template name is any
  predicate, the parameter `letter`. Random ids and token hashes are fresh.
- Clocks are integers and parameters. The limiter reads its clock before it takes the lock, so its runs
  take the readings in any order; a run is at most d late when no reading is more than d behind an earlier
  one.
- Handlers emit any events but those whose step is `expire`, `cancel`, `error` or `complete`, set
  sessions, and return any error.
- A SQL statement is atomic; rows are a map. An INSERT reported as failed added nothing; an UPDATE may be
  reported as failed and have been applied all the same. `Revoke` in JoinTokens stands for whoever else
  writes the `revoked` column.

## Where code and documentation differ

- internal/jobs/store.go:62-64 says that live jobs and those that still own an MCP session are kept.
  `finish` never clears the session, so a job that ever had one is kept for good (`Jobs.SessionPins`).
- internal/jobs/manager.go:147-153 reads `ctx.Err()` twice. A deadline that passes between the two reads
  is not seen (`Jobs.LateDeadlineIsMissed`), a cancellation is (`Jobs.LateEndDecides`).
- internal/mcp/stdio_client.go:67-70 says server-initiated requests are ignored. Exactly the messages
  without a pending id are, whatever their method (`McpRequests.IgnoredExactly`); a request that carries a
  pending id is returned as that call's reply (`McpRequests.RequestTakenForReply`).
- internal/store/cloud.go:172-173 says exhausted tokens are rejected. With c redemptions between their
  read and their update a token can be used max_uses + c - 1 times (`JoinTokens.BoundIsReached`).
- The second check for an empty command (internal/security/commands.go:62-64) never fires
  (`CommandPolicy.EmptyExactly`).
- internal/store/store.go:58-60 says that table names are rewritten to `<schema>.<table>`. They are, for
  every text and schema, exactly when nothing in the schema is a reference of the regexp template syntax
  or the text names no table (`SqlSchema.QualifyIsPrefixed`); the schema `my$schema`, a legal name, turns
  `users` into `my.users` (`SqlSchema.DollarSchemaIsExpanded`).
- internal/store/store.go:68 promises numbered placeholders for what SQLite takes as "?". PostgreSQL reads
  them back exactly when no "?" is directly behind an identifier or a "$", and no digit directly behind a
  "?" or behind a "$" outside identifiers (`SqlPlaceholders.BindingPreserved`); `?1` becomes `$11`
  (`SqlPlaceholders.DigitBehindMark`), and `LIMIT?` the identifier `LIMIT$1`, as with any identifier
  (`SqlPlaceholders.MarkBehindWord`). When the composed rewrite binds what was written is an equivalence for
  every schema and text (`SqlPipeline.RewriteBinds`), and so is when the two rewrites commute
  (`SqlPipeline.QualifyCommutesWithRb`), which `?users` does not let them (`SqlPipeline.TableBehindMark`).
- api/middleware_ratelimit.go:10-11 promises `limit` requests per 60 seconds. A window keeps that whatever
  the order of the readings (`RateLimit.WindowBound`), but 60 seconds can meet two windows: in order the
  best bound is 2 * limit - 1 (`RateRuns.BestBound`). The limiter keeps any bound from there to
  3 * limit - 2 exactly when no reading is late (`RateRuns.OrderDecides`), since a reading one tick late can
  come behind the sweep of its own window. Without eviction, bounds up to 3 * limit - 3 hold exactly when
  no reading is more than 1 late (`RateRuns.OneLateIsHarmless`). Some bound holds exactly when no reading is
  more than a window length late (`RateRuns.BoundedExactly`).

## Model

| member | source | states |
|---|---|---|
| McpClient.Client.Register | internal/mcp/stdio_client.go:84-94 | refuses with the recorded read error, or takes the next id and adds exactly one fresh channel under it |
| McpClient.Client.Forget | internal/mcp/stdio_client.go:96-108 | a failed or expired call removes its own entry and nothing else |
| McpClient.Client.Take | internal/mcp/stdio_client.go:71-76 | hands over the channel pending under the id, if any, and removes that entry |
| McpClient.Client.Send | internal/mcp/stdio_client.go:78 | puts the message in an open channel with room, which is its precondition |
| McpClient.Client.CloseChan | internal/mcp/stdio_client.go:79 | closes a channel that is open, which is its precondition |
| McpClient.Client.Dispatch | internal/mcp/stdio_client.go:66-81 | without interference, delivers to exactly the pending channel of the id and closes it; otherwise nothing changes |
| McpClient.Client.FailAll | internal/mcp/stdio_client.go:54-61 | the closing loop empties pending, closes exactly the channels that were in it, each once, and records the error |
| McpCalls.Reachable | internal/mcp/stdio_client.go:44-118 | every interleaving of callers, timeouts, write failures and the reader keeps the ownership invariant of every call |
| McpCalls.ChannelDiscipline | internal/mcp/stdio_client.go:54-81 | no reachable step sends on or closes a closed channel, closes one twice, or blocks the reader's send |
| McpCalls.NoLostWakeup | internal/mcp/stdio_client.go:44-118 | once readErr is set it stays, pending is empty forever, and every waiting caller can receive |
| McpCalls.AnswerOnItsWay | internal/mcp/stdio_client.go:66-118 | before that, a waiting caller is registered exactly while no message with its id has come; afterwards the first such message is in its channel or in the reader's hands |
| McpCalls.AnswerIsFirst | internal/mcp/stdio_client.go:66-81 | the reply due to a call is the first message with its id among those parsed since it registered |
| McpCalls.Correlation | internal/mcp/stdio_client.go:84-118 | a returned call has left pending for good, and returned that first message, as an error exactly when it has an error member, or saw its channel closed with no such message ever; the channel of a reply is closed or about to be |
| McpCalls.OneCallerPerMessage | internal/mcp/stdio_client.go:84-94 | ids and channels are never reused and no two callers return the same message |
| McpCalls.CallStory | internal/mcp/stdio_client.go:96-117 | on every run the steps about a call settle where it stands: a failed write leads to forgetting the entry and the write's error and nowhere else, a timeout is returned exactly after the context ended the wait, a reply or an early close exactly after a written request and a receive |
| McpCalls.ReadErrorIsMet | internal/mcp/stdio_client.go:52-60 | the recorded read error is the one the reader met, and there is none before |
| McpCalls.LogIsParsed | internal/mcp/stdio_client.go:45-51 | the messages the results speak of are those the reader parsed, in order |
| McpCalls.GoesOnWith | internal/mcp/stdio_client.go:44-118 | exactly which steps can come next; a waiting call can always time out, and receive as soon as its channel has a reply or is closed |
| McpRequests.IgnoredExactly | internal/mcp/stdio_client.go:66-81 | dispatch changes nothing exactly for a message without a pending id; its method makes no difference |
| McpRequests.RequestTakenForReply | internal/mcp/stdio_client.go:66-117 | a run in which a caller returns a server-initiated request as its reply |
| EventBus.Bus.Publish | internal/logs/stream.go:29-44 | appends to the history and to the buffer of exactly the subscribed channels that hold fewer than 64 events; nothing after Close |
| EventBus.Bus.Subscribe | internal/logs/stream.go:49-60 | returns the history so far and a fresh channel, subscribed while the bus is open and closed otherwise |
| EventBus.Bus.Cancel | internal/logs/stream.go:60-67 | unsubscribes and closes the one channel with its buffer kept, whatever was done before, and nothing else |
| EventBus.Bus.Close | internal/logs/stream.go:72-83 | closes exactly the subscribed channels once and leaves no subscriber |
| EventBus.Reachable | internal/logs/stream.go:29-83 | every interleaving keeps subscribed channels exactly the open ones, so no send or close meets a closed channel |
| EventBus.Delivery | internal/logs/stream.go:29-83 | snapshot, received and buffered events are in order part of the history, add up to it with the dropped ones unless the subscriber cancelled, and are all of it exactly when no publish met 64 events in the buffer |
| EventBus.CancelEnds | internal/logs/stream.go:60-67 | on every run a cancel unsubscribes and closes its channel at once and for good and changes no other channel, subscriber or the history; the subscriber sees no more than it had by then, and a second cancel changes nothing |
| EventBus.HistoryIsSaid | internal/logs/stream.go:29-44 | the bus is closed exactly after a Close, and the history is what was published before, in order |
| EventBus.GoesOnWith | internal/logs/stream.go:29-83 | every operation is possible at any time, as far as its channel has been made |
| EventBus.MissedIffFull | internal/logs/stream.go:35-43 | a subscriber misses an event exactly when some publish finds its 64-slot buffer full |
| EventBus.ChansGrow | internal/logs/stream.go:29-83 | the history only grows, and not at all once the bus is closed |
| EventBus.ClosedBusDelivers | internal/logs/stream.go:46-83 | after Close every channel is closed, and a subscriber that missed nothing ends up with the whole history |
| Jobs.FinishAloneEnds | internal/jobs/manager.go:141-164 | the steps of finish, run without interference, settle the status by the two looks and the error, and put the event of that status, in its own words, last on a closed bus |
| Jobs.Reachable | internal/jobs/manager.go:92-164 | every run of any number of jobs keeps the invariant of each job, the semaphore and the registry |
| Jobs.ConcurrencyLimit | internal/jobs/manager.go:121-137 | running jobs <= tokens held <= the limit; a job takes and gives back at most one token, and a finished one, however it ended, holds none |
| Jobs.NeverStuck | internal/jobs/manager.go:121-164 | a job that is not done can take a step of its own, unless its context is live and every slot is taken by another job that is not done |
| Jobs.JobRuns | internal/jobs/manager.go:110-164 | status moves forward and a terminal one never changes; history starts with the queue event, and on a closed bus only its last event has one of the steps expire, cancel, error and complete, the one of the status, with its status word and message |
| Jobs.EndedContextDecides | internal/jobs/manager.go:148-154 | a context that ended before the first look forces expired or cancelled by its cause, whatever happens next |
| Jobs.LateEndDecides | internal/jobs/manager.go:148-163 | a context that ends between the two looks counts only if it was cancelled |
| Jobs.LateDeadlineIsMissed | internal/jobs/manager.go:148-152 | a run in which the deadline has passed and the job is complete |
| Jobs.HandlerDecides | internal/jobs/manager.go:133-163 | with a context that never ends, the job is in error exactly when its handler failed, with that error as its message |
| Jobs.RemovedForGood | internal/jobs/store.go:62-88 | a job the sweep removed is finished, is never listed again, never changes status and never gains a session |
| Jobs.SessionPins | internal/jobs/manager.go:141-145 | a job that ever had a session is never removed |
| Jobs.FinishedSessionStays | internal/jobs/store.go:65-88 | a run in which a finished, old job with a session has been swept and is listed still |
| Jobs.SweepAllRemoves | internal/jobs/store.go:65-88 | the steps of one sweep, in any order, remove together exactly the sweepable jobs and the links to them |
| Jobs.WatcherSeesTheEnd | internal/jobs/manager.go:110-164 | a watcher that misses nothing sees the queue event first and the event of the final status, in its own words, last |
| JobStories.JobStory | internal/jobs/manager.go:92-164 | on every run, from the steps of the job alone: the first step that ends the context decides how; on a closed bus the history is the queue event, exactly the handler's events in order, and the event of the status; an error and its message are what the handler returned, an expiry's message the note of the creation; a session given stays |
| JobStories.JobIsItsActs | internal/jobs/manager.go:117-139 | what other jobs do makes no difference to a job but for the slots |
| JobStories.HandlerReturned | internal/jobs/manager.go:133-138 | a job that has had a slot is in finish or past it exactly when its handler has returned, with that error |
| JobStories.SweepsExactly | internal/jobs/store.go:65-88 | after any run, a job's turn in a sweep removes it exactly if it is finished, has no session and was not created after the cutoff, and then exactly the links to it |
| JobStories.RemovedBySweep | internal/jobs/store.go:65-88 | a job that is gone was swept with a cutoff not before its creation |
| JobStories.LinkLasts | internal/jobs/store.go:36-40 | a link lasts until its session id is linked again or its job is swept |
| JobStories.LinksAreMade | internal/jobs/store.go:36-40 | every link there is has been made |
| JobStories.GoesOnWith | internal/jobs/manager.go:92-164 | exactly which steps can come next |
| JobStore.Job.Emit | internal/jobs/types.go:74-76 | publishes the event on the job's bus |
| JobStore.Job.Finish | internal/jobs/manager.go:141-164 | in place: the status is settled by the two looks and the error, the message changes only for an error, and the event of the status, in its own words, is the last one on a closed bus |
| JobStore.Store.JobForSandbox | internal/jobs/store.go:42-50 | resolves a session id through its link, failing for a missing link or job |
| JobStore.Store.PurgeTerminalBefore | internal/jobs/store.go:65-88 | removes and reports exactly the finished, session-free jobs not created after the cutoff and exactly the links to them; every other session id resolves as before |
| JobStore.Store.SweepOne | internal/jobs/store.go:69-85 | one turn of the loop removes the job and its links exactly when it is finished, has no session and was not created after the cutoff |
| JobStore.Store.DropLinks | internal/jobs/store.go:79-83 | the inner loop removes exactly the links to one job |
| Base64.BuildTables | legacy/matrixhub-ai/api/ts/fetch.pb.ts:12-19 | the loop builds Table 1 of RFC 4648 and its inverse, with no other entry |
| Base64.FillEntry | legacy/matrixhub-ai/api/ts/fetch.pb.ts:18-19 | one turn adds the code of one value and its inverse, and keeps the entries below |
| Base64.EncodeOctet | legacy/matrixhub-ai/api/ts/fetch.pb.ts:28-44 | one turn of the switch writes exactly the symbols the new octet settles and keeps the bits still open |
| Base64.NeverOvershoots | legacy/matrixhub-ai/api/ts/fetch.pb.ts:45-48 | the output index stays aligned with the octets read, so a flush happens at exactly 8192 and between groups |
| Base64.FlushFull | legacy/matrixhub-ai/api/ts/fetch.pb.ts:45-48 | a flush loses and repeats nothing, because the chunk has no stale tail then |
| Base64.EncodeOctets | legacy/matrixhub-ai/api/ts/fetch.pb.ts:26-49 | after the loop, flushed parts and chunk are the settled symbols of the whole range, for any number of flushes and any bounds |
| Base64.PadTail | legacy/matrixhub-ai/api/ts/fetch.pb.ts:50-56 | the end adds exactly the symbols of the bits held and the padding |
| Base64.B64Encode | legacy/matrixhub-ai/api/ts/fetch.pb.ts:21-63 | returns the encoding of RFC 4648 of the octets from start to end, those outside the buffer being zero |
| Base64.DecodeSymbol | legacy/matrixhub-ai/api/ts/fetch.pb.ts:78-97 | one turn of the switch adds exactly the octet the new symbol completes |
| Base64.B64Decode | legacy/matrixhub-ai/api/ts/fetch.pb.ts:67-102 | returns the octets of the text up to its padding, or fails exactly for a foreign character or a lone last symbol |
| Base64.EncodingIsSettledAndTail | legacy/matrixhub-ai/api/ts/fetch.pb.ts:26-56 | the encoding by 24-bit groups is what the byte-wise loop has settled plus the padded tail |
| Base64.RoundTrip | legacy/matrixhub-ai/api/ts/fetch.pb.ts:21-102 | decoding the encoding gives back every octet sequence of every length |
| Base64.CanonicalRoundTrip | legacy/matrixhub-ai/api/ts/fetch.pb.ts:21-102 | re-encoding an accepted text gives it back exactly when it is canonically padded and has no stray bits |
| Base64.EncodingIsItsBits | legacy/matrixhub-ai/api/ts/fetch.pb.ts:21-63 | the symbols hold exactly the bits of the octets, in order, six at a time with zeros to fill, four symbols for every three octets begun, the rest being "=" |
| Base64.DecodingIsItsBits | legacy/matrixhub-ai/api/ts/fetch.pb.ts:67-102 | which texts decode, and that the octets hold exactly the bits of the symbols, in order, as many as they fill |
| Base64.Alphabet | legacy/matrixhub-ai/api/ts/fetch.pb.ts:17-19 | the 64 symbols in full |
| LineStream.CutsGlueBack | legacy/matrixhub-ai/api/ts/fetch.pb.ts:208-220 | lines and remainder are newline-free and glue back to the text |
| LineStream.CutIsUnique | legacy/matrixhub-ai/api/ts/fetch.pb.ts:208-220 | there is no other such cut |
| LineStream.CutContinues | legacy/matrixhub-ai/api/ts/fetch.pb.ts:208-220 | of the text so far, only the remainder matters to the text to come |
| LineStream.Decoder.TakeLine | legacy/matrixhub-ai/api/ts/fetch.pb.ts:210-215 | emits one line's entity and drops that line, or errors the stream where it does not parse |
| LineStream.Decoder.Transform | legacy/matrixhub-ai/api/ts/fetch.pb.ts:201-221 | one chunk takes the decoder from what it owes to the text so far to what it owes to the longer text |
| LineStream.DecodeChunks | legacy/matrixhub-ai/api/ts/fetch.pb.ts:194-223 | however a text is cut into chunks, the entities of its complete lines come out in order up to the first that does not parse, and the unterminated remainder is kept |
| LineStream.EntityPerLine | legacy/matrixhub-ai/api/ts/fetch.pb.ts:211-213 | each entity is what its line parses to, in order, and they stop short only at a line that does not parse |
| Pbkdf2.XorInto | internal/auth/password.go:102-104 | the in-place loop leaves the exclusive or of the two blocks, each bit the sum of the two bits modulo 2 |
| Pbkdf2.WriteCounter | internal/auth/password.go:89-92 | the four bytes behind the salt become INT(i) |
| Pbkdf2.Rounds | internal/auth/password.go:93-105 | the rounds leave F(P, S, c, i) of section 5.2 of RFC 2898 in the block: each bit is the parity of that bit over the chain of outputs |
| Pbkdf2.Derive | internal/auth/password.go:80-107 | the loops return the derived key of section 5.2 of RFC 2898 for every password, salt, length and iteration count, fewer than one counting as one; each bit is the parity of that bit over the outputs of its block, stated with nothing but the pseudorandom function |
| Pbkdf2.BlockBits | internal/auth/password.go:93-105 | each bit of a block is the parity of that bit over the chain of outputs that starts with the salt and the four counter octets |
| Pbkdf2.ShorterIsPrefix | internal/auth/password.go:106 | a shorter key is a prefix of a longer one |
| Pbkdf2.IntValue | internal/auth/password.go:89-92 | the counter bytes stand for i modulo 2^32, most significant first |
| Pbkdf2.CountersFit | internal/auth/password.go:82-92 | every block has its own counter exactly when the key is no longer than (2^32 - 1) * 32 octets |
| Passwords.HexRoundTrip | internal/auth/password.go:31-50 | decoding the hexadecimal form gives back the octets |
| Passwords.HexDecodes | internal/auth/password.go:43-50 | a text decodes to octets exactly when it has two hexadecimal digits for each, the high one first, in either case |
| Passwords.ParseInvertsEncode | internal/auth/password.go:31-50 | every iteration count, salt and key written as a hash is read back as it was |
| Passwords.ParsesExactly | internal/auth/password.go:35-50 | a text is read as a hash exactly when it is pbkdf2, the count, the salt and the key in this order with a $ between any two |
| Passwords.HashPassword | internal/auth/password.go:25-32 | fails as the random source does; otherwise the text pbkdf2$120000$salt$key with the salt and the 32 octets of the standard's key, which reads back as that |
| Passwords.VerifyPassword | internal/auth/password.go:35-54 | true exactly for a text in that form whose key the password derives at that salt, count and length |
| Passwords.HashThenVerify | internal/auth/password.go:25-54 | an attempt is accepted against a stored password exactly when both derive the same key; the password itself always is |
| SqlRewrite.TableNames | internal/store/store.go:48-52 | every table name is a word that starts with no digit |
| SqlRewrite.TemplateIsExpansion | internal/store/store.go:65 | the replacement is the schema as a template expands it, a dot, and the name: nothing behind the schema makes or ends a reference |
| SqlRewrite.TemplateReads | internal/store/store.go:65 | a reference to one of the two groups is the table name, to another name nothing, and two dollars are one |
| SqlRewrite.StandsAlone | internal/store/store.go:54-60 | a table name counts exactly where no letter, digit or underscore is next to it |
| SqlRewrite.QualifyIsMapped | internal/store/store.go:54-66 | match-by-match replacement is a map over maximal word runs that changes exactly the runs that are table names, for every schema and text |
| SqlSchema.ExpandDollars | internal/store/store.go:65 | a schema expands to itself when nothing in it is a reference, and otherwise to a text with fewer dollars |
| SqlSchema.QualifyIsPrefixed | internal/store/store.go:54-66 | table names get exactly the schema and a dot in front, and all else is kept, if and only if nothing in the schema is a reference or no table is named |
| SqlSchema.DollarSchemaIsExpanded | internal/store/store.go:61-66 | the schema my$schema turns users into my.users |
| SqlPlaceholders.Rb | internal/store/store.go:69-85 | the loop numbers the placeholders from 1 and copies all else |
| SqlPlaceholders.ReadingsAgree | internal/store/store.go:69-85 | the same from any number on and whether or not an identifier is open in front |
| SqlPlaceholders.BindingPreserved | internal/store/store.go:68-85 | for every text, PostgreSQL reads in what rb made the placeholders of the text by position and all else as it was, for any number of placeholders, exactly when no "?" is behind an identifier or a "$" and no digit where it would join a parameter |
| SqlPlaceholders.DigitBehindMark | internal/store/store.go:74-81 | the text ?1 becomes $11, parameter 11 |
| SqlPlaceholders.MarkBehindWord | internal/store/store.go:74-81 | behind any identifier a ? becomes the end of that identifier, as in LIMIT?, and is no parameter |
| SqlPlaceholders.MarkBehindDollar | internal/store/store.go:74-81 | the text $? becomes $$1, which has no parameter |
| SqlPipeline.BehindMeans | internal/store/store.go:61-85 | the tables behind a sign are those whose run begins at the next position |
| SqlPipeline.CommutesExactly | internal/store/store.go:61-89 | for any word names and any prefixes, both orders agree exactly when no name is behind a "?" and no name gets a "?" in front |
| SqlPipeline.QualifyCommutesWithRb | internal/store/store.go:61-89 | for every schema and text, the two rewrites commute exactly when no "?" is directly followed by a table name and a schema that is used has no "?" |
| SqlPipeline.QualifyKeepsMarks | internal/store/store.go:61-66 | qualifying loses no placeholder, and adds none exactly when no name gets a "?" in front |
| SqlPipeline.TableBehindMark | internal/store/store.go:61-89 | with schema s the text ?users becomes $1s.users one way and $1users the other |
| SqlPipeline.MappedSafe | internal/store/store.go:61-66 | the qualified text is safe exactly when the text is and every prefix is where its table stands |
| SqlPipeline.RewriteBinds | internal/store/store.go:87-93 | for every schema and text, what exec sends reads as the qualified statement with the placeholders of the statement as written exactly when that is safe, a schema that is used has no "?", and every prefix is safe where its table stands |
| SqlPipeline.PlainSchemaBinds | internal/store/store.go:87-93 | for a schema without references that means: the text is safe, no "?" in a schema that is used, and no digit at its front when a table is directly behind a placeholder or the "$" of a parameter |
| SqlPipeline.Rewrite | internal/store/store.go:87-93 | the composed rewrite, that it binds exactly when the statement is bindable, and then names its parameters in order and no others |
| Slug.Slugify | internal/store/store.go:362-383 | the loop returns the runs of a-z and 0-9 joined by single dashes, or "workspace" |
| Slug.SlugReadsPieces | internal/store/store.go:362-383 | however the trimmed and lowered name is cut into runs of a-z and 0-9 and what is between them, the slug is those runs joined by dashes, or "workspace" if there is none |
| Slug.PiecesExist | internal/store/store.go:362-383 | every text can be cut so |
| Slug.SlugHasForm | internal/store/store.go:362-383 | every slug is dash-separated non-empty groups of a-z and 0-9 |
| Slug.SlugFixesForm | internal/store/store.go:362-383 | a text of that form is its own slug |
| Slug.SlugifyIdempotent | internal/store/store.go:362-383 | a slug's slug is the slug |
| Slug.CandidatesDistinct | internal/store/store.go:341-348 | base, base-1, base-2, ... are pairwise distinct |
| Slug.CandidateKeepsForm | internal/store/store.go:341-348 | every candidate of a slug has the slug form |
| Slug.UniqueSlug | internal/store/store.go:340-350 | the unbounded loop ends within one lookup more than there are slugs, at the first candidate that is free or whose lookup fails; a taken slug only if the last lookup failed |
| RateLimit.RateLimiter.Allow | api/middleware_ratelimit.go:30-52 | decision, new count and retry delay of the key; every other key is as it was, except that a renewal that makes more than 4096 keys drops exactly the stale ones |
| RateLimit.RateLimiter.EvictStale | api/middleware_ratelimit.go:38-42 | the deleting loop removes exactly the stale entries |
| RateLimit.WindowBound | api/middleware_ratelimit.go:36-51 | from the request that opens a window of a key until the next that does, at most limit of its requests are admitted, on every run in any order |
| RateLimit.RefusalMeansFull | api/middleware_ratelimit.go:47-49 | on every run in any order, a refused request is not behind the end of the last window of its key, which has admitted its full number |
| RateSkew.RateBound | api/middleware_ratelimit.go:30-52 | in clock order, any closed interval of one window length admits at most 2 * limit - 1 requests of a key, and at most limit if the key opens a window where it starts |
| RateSkew.TwoWindowBound | api/middleware_ratelimit.go:30-52 | the same 2 * limit - 1 with readings at most 1 late, without eviction |
| RateSkew.SkewedRateBound | api/middleware_ratelimit.go:30-52 | with readings at most d late, an interval of one window length admits at most limit for each window it can meet, a number given as a function of d; with eviction for d up to the window length, behind which there is no bound |
| RateRuns.BestBound | api/middleware_ratelimit.go:30-52 | b bounds every interval of every run in clock order exactly when b >= 2 * limit - 1, for every limit and window |
| RateRuns.OrderDecides | api/middleware_ratelimit.go:30-52 | of the limiter as it is, a bound from 2 * limit - 1 to 3 * limit - 2 holds on every run at most d late exactly when d is 0 |
| RateRuns.OneLateIsHarmless | api/middleware_ratelimit.go:31-52 | without eviction, a bound from 2 * limit - 1 to 3 * limit - 3 holds on every run at most d late exactly when d <= 1 |
| RateRuns.SinglesKept | api/middleware_ratelimit.go:31-52 | without eviction and at limit 1, an interval admits one request however late readings are |
| RateRuns.BoundedExactly | api/middleware_ratelimit.go:30-52 | of the limiter as it is, some bound holds on every run at most d late exactly when d is at most the window length |
| RateRuns.EvictionInvisibleExactly | api/middleware_ratelimit.go:35-43 | eviction changes no decision of any run at most d late exactly when d is 0 |
| JoinTokens.Store.Mint | internal/store/cloud.go:148-170 | adds one unused row with at least one use exactly when the random source and the insert succeed, and nothing otherwise |
| JoinTokens.Expiry | internal/store/cloud.go:158-161 | an expiry only for a positive ttl, in whole seconds and less than a second early |
| JoinTokens.Store.Redeem | internal/store/cloud.go:174-199 | alone, by the row's own fields: succeeds exactly if the statements do and the row exists, is not revoked, not past its expiry and has a use left; otherwise the error of the first check that fails; one use is added exactly when all checks pass and the update is applied, and nothing else changes |
| JoinTokens.JoinBound | internal/store/cloud.go:172-199 | a token with at most c redemptions of its own between read and update has uses plus those in flight <= max_uses - 1 + c, whatever other tokens do; every use is a success or an applied update reported as failed, and one at a time max_uses holds |
| JoinTokens.SelectAdmits | internal/store/cloud.go:178-193 | on every run a read lets one more redemption into flight exactly when it finds its token neither revoked, nor expired, nor used up, and changes nothing else |
| JoinTokens.BoundIsReached | internal/store/cloud.go:191-197 | for every c and max_uses some run uses the token max_uses + c - 1 times |
| JoinTokens.RevokedTokenDrains | internal/store/cloud.go:183-185 | while a token is revoked, uses plus redemptions in flight never grow |
| JoinTokens.RevokeDrains | internal/store/cloud.go:183-185 | that holds from the revocation on, for good |
| JoinTokens.MintedAs | internal/store/cloud.go:148-170 | a row is as it was minted but for its uses and its revocation |
| JoinTokens.GoesOnWith | internal/store/cloud.go:148-199 | exactly which statements can come next |
| Command.SplitCommand | internal/security/commands.go:80-117 | the loop is the scanner the lemmas below are about |
| Command.SplitDecides | internal/security/commands.go:77-117 | every text has a layout of blanks, words and quotations; the answer is the layout's tokens, and it fails exactly when a quotation is never closed |
| Command.SplitReadsLayout | internal/security/commands.go:77-117 | whatever layout a text is written from, that layout's tokens come back |
| Command.BareIsToken | internal/security/commands.go:105-110 | a text without blanks, tabs and quotes is its own token |
| Command.SplitConcat | internal/security/commands.go:80-117 | behind a balanced text and a space, a command splits into that text's tokens and its own, or fails as it would alone |
| Command.WordsSplitBack | internal/security/commands.go:80-117 | words that mix bare characters and both kinds of quotation in any way, joined by spaces, split back into their texts |
| Command.SplitInvertsQuoteAll | internal/security/commands.go:80-117 | every list of strings, quoted and joined by spaces, splits back into itself |
| CommandPolicy.BaseOf | internal/security/commands.go:65-70 | a program is judged by its name whatever directory is in front and whatever slashes are behind |
| CommandPolicy.BaseOfSlashes | internal/security/commands.go:65-70 | an empty path is "." and one of slashes alone "/" |
| CommandPolicy.ValidateCommand | internal/security/commands.go:50-75 | each refusal in the order of the source; what is accepted are the trimmed text's tokens, with an allowed first program, no blocked one, and no metacharacter in any |
| CommandPolicy.TokensWithin | internal/security/commands.go:55-60 | tokens hold no character the text does not have |
| CommandPolicy.VerdictIsAcceptable | internal/security/commands.go:47-75 | an accepted list is not empty, starts with an allowed program, and is harmless in every token |
| CommandPolicy.AcceptedExactly | internal/security/commands.go:47-75 | accepted exactly when no metacharacter occurs, quotations are closed and the tokens are acceptable |
| CommandPolicy.RefusedExactly | internal/security/commands.go:50-75 | each refusal is made exactly for the first check the command does not pass, with the first character, program or token that check meets |
| CommandPolicy.QuotedIsAccepted | internal/security/commands.go:47-117 | a quoted token list is accepted as that list exactly when it is acceptable |
| CommandPolicy.EmptyExactly | internal/security/commands.go:51-64 | refused as empty exactly when there is nothing but white space |
| Text.NumberOfItoa | internal/store/store.go:77-78 | decimal numerals are read back as the number |
| Text.ItoaIsTheNumeral | internal/store/store.go:77-78 | a numeral without leading zero is the one of its number |
| Text.TrimsExactly | internal/security/commands.go:51 | trimming takes everything of a kind from both ends and nothing else |

## Left out

- McpClient: request ids are unbounded, so their wrap-around after 2^64 calls is not modelled; a last line that comes together with a read error is a line followed by the error; an error member is a text without its code; JSON, writing to the pipe, and process handling are outside.
- EventBus: the data field of events, which the bus only carries.
- Jobs: TTL checks and clamping, results, snapshots, listing, the polling loop of Cancel and scratch directories; a job leaves the registry only through the sweep.
- JobStore.Job.Finish: what the two calls of ctx.Err() return is a parameter; the interleavings are in Jobs.
- Base64: the tables are arguments of the methods, as they are module-level constants of the source; loop bodies and switches are methods of their own, and so are the loops of pbkdf2SHA256.
- LineStream: the guards for an undefined buf or pos, which start() has set already.
- Pbkdf2.Derive: overflow of keyLen + 31 and negative lengths, which no caller passes.
- Passwords: bytes of a text that is not ASCII in an encoded hash, and timing.
- SqlPlaceholders: string literals, quoted identifiers, dollar-quoted text and comments of SQL; a "?" in them is a placeholder for rb and for this model. The letter of a number's exponent or base counts as starting an identifier, and a letter directly behind a parameter, which PostgreSQL 15 and later refuse, as the next piece.
- Command: text that is not valid UTF-8, which ranging over a string replaces.
- HTTP handlers, the console, downloads, process launching, encryption of credentials, the remaining queries and the SQL engine.
