# godo, modelled and proved in Dafny

This project models the stateful and the reversible parts of godo, a set of small Go service
packages, and proves what they promise. Each module follows one component of the repository:
what works by changing things is a class or a method with loops, proved against a function
that says what it does, and the promises are lemmas about those functions and about every
run of the protocols built from them.

`dafny verify dfyconfig.toml` checks everything.

## The modules

**Idempotent requests.** `IdempotencyResponse` is the capture of a response and the size it is
accounted with. `IdempotencyStore` is the in-memory store: entries, waiters, the byte budget
and the lazily scheduled cleanup, as functions on a store and as the class whose methods are
the regions under its lock. `IdempotencyProtocol` interleaves any number of requests over it,
and `IdempotencyAnswers` says which answer each of them gets.

**Discord.** `Gateway` is the client's read loop and reconnect loop; `GatewayProtocol` puts it
against a server that keeps a log per session and replays it from a resumed sequence;
`GatewayEndings` and `GatewayProgress` say when the client stops and that it comes back otherwise.
`RestLimits` is the rate limiter's two maps and its deadlines, and `RestProtocol` any number of
goroutines that lock, send, observe and unlock while routes are rebound; `RestDeadlines` says
for each bucket what a request waits for, and `RestLateRuns` is a run in which that is too
little. `RestSharing` says which routes share a bucket, and `RestProgress` what a request does
next. `Interactions` is the bounded filter for repeated events, and `InteractionDispatch`
puts it behind the Gateway.

**WebSocket** (RFC 6455). `WebSocketFrames` is the frame codec, `WebSocketMessages` what is made
of frames: fragmentation, control frames, close frames and UTF-8. `WebSocketConn` is a
connection with its arriving bytes, its outgoing bytes and its close state. `WebSocketBits` and
`WebSocketText` determine bytes and text, `WebSocketRefusals` and `WebSocketAnswers` what is
refused and how.

**Rate limiting.** `RateMemory` is the in-memory limiter with its binary heap, against a plain
map; `RateWindows` what its windows admit; `RateSql` the limiter that counts in a table; and
`RateAnswers` what both answer.

**Schemas and migrations.** `Schemas` says which schemas are valid, which `SchemaRules` spells out,
and which changes are generated; `SchemaGenerator` is the same as loops; `SchemaEngine` executes the statements on a
database, `SchemaRuns` proves what they do, and `SchemaDatabases` what that means for the two
databases. `MigrationFiles` and `MigrationLoading` are the migrations directory, `Migrations`
the history and its transactions, `MigrationRuns` any sequence of generate, migrate and
rollback, and `MigrationAnswers` what one command and one round of them do.

**Passwords.** `Passwords` is the text of a password hash and the hasher, on `Base64`,
`Decimals` and `Splitting`; `PasswordAnswers` writes it out in letters and numbers.

**Managed issues.** `IssueMarkers` is about finding markers in a text, `IssueBodies` about the
block they enclose, `IssuePattern` about the issue marker's regular expression, `IssueValues`
about field values, `IssueEditing` and `IssueMethods` are rendering and updating as functions
and as loops, `IssueUpdates` proves what an update does, `IssueSwallowing` what it does to an
issue marker inside the block, and `IssueAnswers` what is written and how every body is answered.

`Sums` and `Sets` hold helpers.

## What the code does not do

Some expectations turn out to fail for some inputs. The model keeps the code as it is, and the
exact condition is proved.

- A 429 is reported to the bucket its request used, although `observe` may just have moved the
  route to another bucket; the delay then does not reach the route
  (`RestLimits.RetryReachesRoute`, over whole runs `RestProtocol.RetryReachesKeptRoute`, with an
  example in `RestLimits.RetryCanMissRoute`).
- A request waits for the deadlines its bucket had when the request won its lock. One that a
  newly moved route brings to the bucket after that is missed (`RestDeadlines.SendableExactly`,
  `RestDeadlines.LateDeadlineMissed`, with a run in `RestLateRuns.LateDeadlineOccurs`).
- `validateSchema` passes names that a database takes for one or keeps for itself: names that
  differ only in case or begin with `sqlite_` on SQLite, names that agree in 63 bytes or are
  system columns on PostgreSQL. The generated migration then does not apply
  (`SchemaRuns.UpMigrates`, with examples in `SchemaDatabases`).
- `validateSchema` passes a table without columns. SQLite cannot hold it, and the backward
  migration of giving it its first column fails there (`SchemaRuns.DownRestores`,
  `SchemaDatabases.OnlyColumnStays`).
- The SQL limiter rounds windows up to seconds and the in-memory one does not, so they agree
  only for whole seconds (`RateSql.WholeSecondsNeeded`).
- An issue marker that someone moved into the managed block is overwritten by an update, after
  which the body counts as unmanaged (`IssueUpdates.UpdatingTwice`, with examples for
  every template in `IssueSwallowing.SwallowingOccurs`).
- The version after the greatest 64-bit number wraps to a negative one, which no file name may
  carry (`MigrationFiles.NextFollowsAll`, `MigrationFiles.LastNumberTaken`).
- An empty migration blocks `migrate` until someone fills it in; everything pending with it is
  rolled back (`MigrationRuns.MigrateReaches`, `MigrationRuns.EmptyMigrationBlocks`).

## Model

| member | source | states |
|---|---|---|
| IdempotencyProtocol.OneRunningOwner | core/http/plugins/idempotency/idempotency.go:249-336 | over every interleaving of requests a storage key has at most one running owner, and that owner's entry is still the stored one |
| IdempotencyProtocol.InFlightIsOwned | core/http/plugins/idempotency/idempotency.go:296-302 | an entry in flight is never evicted: every uncompleted stored entry has a request executing it |
| IdempotencyProtocol.ReexecutionNeedsExpiry | core/http/plugins/idempotency/idempotency.go:252-264 | two ownerships of one key are of different entries, and between them the first was completed and some acquire presented a time at or past its expiry |
| IdempotencyProtocol.NewOwnerAfterExpiry | core/http/plugins/idempotency/idempotency.go:255-264 | the step that makes a new owner follows such a completion and expiry |
| IdempotencyProtocol.ReplaysAreFaithful | core/http/plugins/idempotency/idempotency.go:266-273 | every replay returns the response with which an execution of the same key and fingerprint was completed |
| IdempotencyProtocol.ReplaysAgree | core/http/plugins/idempotency/idempotency.go:311-336 | all replays of one entry carry one key, one fingerprint and one response |
| IdempotencyProtocol.CompletionTakesOnce | core/http/plugins/idempotency/idempotency.go:167-180 | the owner's completion always takes effect, closing done and storing the fitted response and its expiry; completing again (the panic path) changes nothing |
| IdempotencyProtocol.BudgetsHold | core/http/plugins/idempotency/idempotency.go:311-336 | in every reachable state used bytes are the sum of the stored sizes within the budget, waiters are exactly the blocked requests, and done is closed exactly for completed entries |
| IdempotencyProtocol.LazyStepIsEager | core/http/plugins/idempotency/idempotency.go:252-254 | one step of the store with lazy cleanup is the same step of a store that forgets expired entries on every acquire |
| IdempotencyProtocol.LazyRunIsEager | core/http/plugins/idempotency/idempotency.go:249-309 | lazy cleanup is exact over every run: the eager store takes the same steps, gives the same answers and keeps the same entries |
| IdempotencyProtocol.StepKeepsGood | core/http/plugins/idempotency/idempotency.go:249-336 | every step of every request keeps the whole invariant |
| IdempotencyProtocol.ReachableIsGood | core/http/plugins/idempotency/idempotency.go:249-336 | the invariant holds after any interleaving from the empty store |
| IdempotencyProtocol.StepKeepsWaiters | core/http/plugins/idempotency/idempotency.go:274-292 | every step keeps each entry's waiters equal to the requests blocked on it |
| IdempotencyProtocol.StepKeepsOwnersUnique | core/http/plugins/idempotency/idempotency.go:255-264 | no step gives an entry a second running owner |
| IdempotencyStore.NothingExpiredBeforeDue | core/http/plugins/idempotency/idempotency.go:252-254 | before the scheduled cleanup no completed entry is expired |
| IdempotencyStore.CleanupKeeps | core/http/plugins/idempotency/idempotency.go:296-309 | cleanup keeps the accounts, the entries and a schedule no later than any expiry |
| IdempotencyStore.AcquireKeeps | core/http/plugins/idempotency/idempotency.go:249-280 | acquire keeps the store's invariant |
| IdempotencyStore.AcquireEffect | core/http/plugins/idempotency/idempotency.go:249-280 | acquire evicts only expired entries and adds at most the new one, and every answer, full and too many waiters included, is given only where the entry there calls for it |
| IdempotencyAnswers.NewKeyIsOwned | core/http/plugins/idempotency/idempotency.go:252-264 | a key without a living entry gets an owner and a new entry if fewer entries live than the store may hold, and otherwise the store is full; exactly the living entries are kept |
| IdempotencyAnswers.StoredKeyIsAnswered | core/http/plugins/idempotency/idempotency.go:266-280 | a living entry answers conflict for another fingerprint, replay if it is completed, wait while it has fewer waiters than allowed, and too many waiters otherwise |
| IdempotencyAnswers.AcquireLeads | core/http/plugins/idempotency/idempotency.go:249-280 | over every run, the stored entries decide whether a request runs, waits, replays or is turned away |
| IdempotencyAnswers.FinishStores | core/http/plugins/idempotency/idempotency.go:311-336 | over every run, an owner's completion stores its response under its key, with its fingerprint and expiry, if the budget allows |
| IdempotencyAnswers.RepeatFinds | core/http/plugins/idempotency/idempotency.go:249-273 | a request repeated after the completion and before the expiry finds that response |
| IdempotencyAnswers.WaiterFinds | core/http/plugins/idempotency/idempotency.go:278-287 | so does a request that waited for the owner, when it wakes |
| IdempotencyAnswers.FoundIsReplayed | core/http/plugins/idempotency/idempotency.go:270-273 | a request that finds a response goes on to replay it, whatever else is stored |
| IdempotencyAnswers.ReplayIsDelivered | core/http/plugins/idempotency/idempotency.go:270-273 | and writes the response that is stored |
| IdempotencyStore.CompleteKeeps | core/http/plugins/idempotency/idempotency.go:311-336 | complete keeps the store's invariant, the byte budget and the schedule included |
| IdempotencyStore.LazyAcquireIsEager | core/http/plugins/idempotency/idempotency.go:249-309 | acquire gives the same answer and entries as one that cleans up first, whatever the schedule |
| IdempotencyStore.CompleteIgnoresSchedule | core/http/plugins/idempotency/idempotency.go:311-336 | complete treats stores that differ in their schedule alike |
| IdempotencyStore.EarliestExists | core/http/plugins/idempotency/idempotency.go:296-309 | the next cleanup computed by the sweep exists: the earliest expiry, or a minute |
| IdempotencyStore.VisitStep | core/http/plugins/idempotency/idempotency.go:298-307 | one turn of the sweep keeps the account of what is left to visit |
| IdempotencyStore.MemoryStore.CleanUp | core/http/plugins/idempotency/idempotency.go:296-309 | the sweep of the map is the cleanup function and keeps the invariant |
| IdempotencyStore.MemoryStore.Sweep | core/http/plugins/idempotency/idempotency.go:296-309 | the loop over the entries leaves exactly the cleaned-up store |
| IdempotencyStore.MemoryStore.AcquireLocked | core/http/plugins/idempotency/idempotency.go:249-280 | one locked region of acquire is the function that IdempotencyAnswers determines |
| IdempotencyStore.MemoryStore.DecideLocked | core/http/plugins/idempotency/idempotency.go:255-280 | the decision after cleanup is the function that IdempotencyAnswers determines |
| IdempotencyStore.MemoryStore.LeaveWait | core/http/plugins/idempotency/idempotency.go:281-292 | leaving a wait takes back exactly one waiter |
| IdempotencyStore.MemoryStore.CompleteEntry | core/http/plugins/idempotency/idempotency.go:311-336 | complete changes the store as the function does and keeps the invariant |
| IdempotencyResponse.FittedFits | core/http/plugins/idempotency/idempotency.go:317-326 | the kept response fits what is left of the budget, or weighs nothing |
| IdempotencyResponse.Fit | core/http/plugins/idempotency/idempotency.go:317-326 | the response that is kept, and its exact size |
| IdempotencyAnswers.CompletionKeeps | core/http/plugins/idempotency/idempotency.go:311-336 | the first completion keeps status, body and the replayable headers if they fit the budget, otherwise the problem response that says the response is unavailable, otherwise nothing; with its exact charge, its expiry and done closed |
| IdempotencyAnswers.LaterCompletionIgnored | core/http/plugins/idempotency/idempotency.go:314-316 | any other completion changes nothing |
| IdempotencyAnswers.ProblemSize | core/http/plugins/idempotency/idempotency.go:338-341 | a problem response is charged for its document's text and its one header |
| IdempotencyAnswers.MoreHeaders | core/http/plugins/idempotency/idempotency.go:354-363 | a header is charged for each name once and for all its values |
| IdempotencyAnswers.StoredKeeps | core/http/plugins/idempotency/idempotency.go:343-352 | a stored response has the status and body of the captured one and exactly its headers among the eleven names |
| IdempotencyResponse.HeaderSize | core/http/plugins/idempotency/idempotency.go:354-363 | the loop over names and values adds up the header's bytes |
| IdempotencyResponse.ReplayHeaders | core/http/plugins/idempotency/idempotency.go:343-352 | only the listed header names survive, unchanged |
| IdempotencyResponse.Capture.WriteHeader | core/http/plugins/idempotency/idempotency.go:375-382 | the first final status wins; informational ones are ignored |
| IdempotencyResponse.Capture.Write | core/http/plugins/idempotency/idempotency.go:383-392 | writes accumulate until the limit, past which nothing is written and the overflow is remembered |
| IdempotencyResponse.Capture.Result | core/http/plugins/idempotency/idempotency.go:393-399 | the captured status, header and body, with 200 as the default |
| GatewayProtocol.AcceptedIsLogPrefix | channels/discord/gateway.go:288-326 | against a server that replays its log after the resumed sequence, over every run the numbered events accepted for a session are a prefix of its log, exactly up to the stored sequence for the current session |
| GatewayProtocol.ResumeIsSound | channels/discord/gateway.go:176-188 | RESUME names an existing session, with a stored sequence up to which its events were accepted |
| GatewayProtocol.DeliveredInOrder | channels/discord/gateway.go:137-149 | handlers see every accepted event once and in order, with at most the bounded queue outstanding |
| GatewayProtocol.StepKeepsGood | channels/discord/gateway.go:267-345 | every step of client and server keeps the invariant |
| GatewayProtocol.ReachableIsGood | channels/discord/gateway.go:151-208 | the invariant holds after every run from a new client |
| GatewayProtocol.TurnEffect | channels/discord/gateway.go:288-343 | a turn of the read loop either moves no session forward or accepts exactly one event and its sequence |
| GatewayProtocol.DisconnectKeeps | channels/discord/gateway.go:176-188 | losing a connection loses nothing that was accepted |
| GatewayProtocol.ConnectKeeps | channels/discord/gateway.go:252-260 | resuming and identifying keep the invariant |
| GatewayProgress.BreakResumes | channels/discord/gateway.go:399-417 | over every run, a broken connection stops the client exactly if its end is hopeless; otherwise the client resumes exactly if it has accepted an event and the end did not give the session up, with the stored name and sequence |
| GatewayProgress.ComesBack | channels/discord/gateway.go:151-208 | after such a break the client connects, and the next event of the log is sent and accepted |
| GatewayProgress.ResumeAttaches | channels/discord/gateway.go:252-260 | on resuming, the server continues exactly after the stored sequence |
| GatewayProgress.NextArrives | channels/discord/gateway.go:288-326 | an event of the log that is sent to a waiting client is accepted while its queue has room |
| Gateway.RunKeepsPromises | channels/discord/gateway.go:151-208 | over any number of connections RESUME is sent only for a named session, the queue stays within its bound, and without a refresh the client identifies at most as often as allowed |
| Gateway.IterateKeeps | channels/discord/gateway.go:154-207 | one pass of the reconnect loop keeps resume tied to a named session with a sequence, and the back-off to its steps |
| Gateway.IterateSpends | channels/discord/gateway.go:172-179 | identifying uses up exactly one of the allowance |
| Gateway.SessionIdentifies | channels/discord/gateway.go:252-265 | a connection counts as identified exactly when it was opened without resuming |
| GatewayEndings.StopsExactly | channels/discord/gateway.go:151-208 | the client stops if and only if it may not identify any more or the connection ended by cancellation, an invalid Hello, an invalid Ready, a close with 4004 or 4010 to 4014, or a script that ran out |
| GatewayEndings.ResumesExactly | channels/discord/gateway.go:181-188 | otherwise it resumes if and only if it has a session name and a stored sequence, the close code was none of 4003, 4005, 4007 and 4009 and no InvalidSession with false came; RESUME carries the latest of both |
| GatewayEndings.BacksOff | channels/discord/gateway.go:189-207 | the back-off starts over after an established session and doubles up to 32 seconds, except after Reconnect, InvalidSession and an interaction that found the queue full |
| GatewayEndings.TurnEnds | channels/discord/gateway.go:267-343 | which turn of the read loop ends the connection, and what it leaves of session and queue |
| GatewayEndings.ReadLoopEnds | channels/discord/gateway.go:267-345 | the read loop ends with the first such turn, and the session is what the turns up to it say |
| Gateway.ReadLoopKeepsQueue | channels/discord/gateway.go:267-345 | the read loop never queues more than the bound |
| Gateway.GatewayClient.AcceptReady | channels/discord/gateway.go:378-397 | a Ready event is taken exactly when all four of its fields are there |
| Gateway.GatewayClient.HandlePayload | channels/discord/gateway.go:288-343 | the switch on a payload updates the session and the queue as the function does, storing the sequence only after the event is queued |
| Gateway.GatewayClient.ReadAll | channels/discord/gateway.go:267-345 | the read loop is the recursive function, whose end GatewayEndings determines |
| Gateway.GatewayClient.RunOne | channels/discord/gateway.go:210-345 | one connection is the function of its opening and its script |
| Gateway.GatewayClient.Iteration | channels/discord/gateway.go:154-207 | one pass of the reconnect loop is the function |
| Gateway.GatewayClient.Run | channels/discord/gateway.go:151-208 | the reconnect loop over any connections is the function, whose every pass GatewayEndings determines |
| RestProtocol.OneInWindow | channels/discord/limits.go:48-84 | in every reachable state of any number of goroutines at most one request is between winning lock and observe per route and per bucket, while routes are rebound |
| RestProtocol.PermitsExact | channels/discord/limits.go:21-32 | a permit is taken exactly when one request holds it, so unlock never blocks and never frees another's |
| RestProtocol.SentAfterDeadlines | channels/discord/limits.go:74-77 | no request is sent before a deadline its route was given earlier, whatever rebinding happens in between |
| RestDeadlines.SentAfterPushes | channels/discord/limits.go:63-77 | no request is sent before any deadline its bucket was given before the request won its lock, those of 429s that missed their route included |
| RestDeadlines.SendableExactly | channels/discord/limits.go:63-84 | a request that has won its lock may be sent if and only if every deadline its bucket, and every limit the whole client, had been given before it won has passed; what comes later does not hold it up |
| RestDeadlines.OnlyMoversPush | channels/discord/limits.go:98-117 | while a request is between winning lock and observe, only the response of a request that is moved to its bucket gives that bucket a deadline |
| RestDeadlines.LateDeadlineMissed | channels/discord/limits.go:63-77 | such a deadline comes too late: the request is still sent ahead of it |
| RestLateRuns.LateDeadlineOccurs | channels/discord/limits.go:63-117 | and it occurs: from the empty limiter a run of three requests, for any two routes with one major part, in which a request is sent ahead of the deadline that the other route brings to its bucket |
| RestDeadlines.ReachableRemembers | channels/discord/limits.go:110-135 | in every reachable state a bucket's reset is the latest deadline it was ever given, and a waiting request's is the latest from before it won |
| RestProtocol.SentAfterGlobalLimits | channels/discord/limits.go:78-82 | no request whose lock was won after a global limit is sent before that limit ends |
| RestProtocol.SentBeforeWon | channels/discord/rest.go:58-63 | a request is sent only after its lock was won |
| RestProgress.SecondLookDecides | channels/discord/limits.go:63-73 | with the permit taken, the lock is won exactly if the route still leads to the bucket |
| RestProgress.ReboundStartsOver | channels/discord/limits.go:70-73 | otherwise the permit is let go and the route looked up again |
| RestProgress.ThrottledGoesAround | channels/discord/rest.go:68-90 | after a 429 the permit is let go and the request starts over exactly when the delay has passed |
| RestProgress.AnsweredIsDone | channels/discord/rest.go:91 | after any other answer the permit is let go and the request is done |
| RestProtocol.StepOnlyDelays | channels/discord/limits.go:86-135 | no step moves a deadline backwards or forgets a bucket |
| RestProtocol.StepKeepsGood | channels/discord/rest.go:58-90 | every step of every goroutine keeps the invariant |
| RestProtocol.ReachableIsGood | channels/discord/rest.go:58-90 | the invariant holds after any interleaving |
| RestProtocol.StepKeepsPermits | channels/discord/limits.go:21-32 | each acquired permit is released once, by its holder |
| RestLimits.ObserveEffect | channels/discord/limits.go:86-118 | observe touches only its route, binds it to the bucket known for it, and closes that bucket for as long as the header says |
| RestSharing.SharersAreOneResource | channels/discord/limits.go:91-103 | over every run, two routes that lead to one bucket have the same text after their last space |
| RestSharing.NamedAlikeShare | channels/discord/limits.go:91-103 | over every run, two routes with the same last part whose responses named one bucket lead to one bucket, if no response on the first named another in between |
| RestSharing.ObserveAnswers | channels/discord/limits.go:86-118 | what observe does to the two maps and to every deadline, by the name, the route's last part, and whether no requests remain |
| RestSharing.KeysTell | channels/discord/limits.go:96 | shared keys are equal exactly if the bucket's name and the route's last part are |
| RestSharing.MajorIsLast | channels/discord/limits.go:92-95 | a route with a space is a prefix, a space and its major part |
| RestLimits.RetryReachesRoute | channels/discord/limits.go:120-135 | the delay of a 429 reaches the route if and only if the response did not rebind the route, or the other bucket is closed that long anyway |
| RestLimits.RetryCanMissRoute | channels/discord/rest.go:68-88 | two routes of one path for which the delay of a 429 is lost |
| RestProtocol.RetryReachesKeptRoute | channels/discord/rest.go:64-88 | over every run, when a 429 is reported its route still leads to the request's bucket unless the request's own observe moved it, whatever others did in between; and the delay reaches the route if and only if it leads there or to a bucket closed as long |
| RestLimits.ObserveResets | channels/discord/limits.go:110-117 | observe moves the deadlines of the current and the target bucket, only later, and no others |
| RestLimits.Major | channels/discord/limits.go:92-95 | the major part of a route is what follows its last space |
| RestLimits.RateLimiter.BucketFor | channels/discord/limits.go:50-57 | the lookup creates a bucket for an unknown route and nothing else |
| RestLimits.RateLimiter.ObserveHeader | channels/discord/limits.go:86-118 | observe changes the two maps and the deadlines as the function does, which RestSharing.ObserveAnswers determines |
| RestLimits.RateLimiter.ReportLimited | channels/discord/limits.go:120-135 | a 429 pushes back the global deadline or the bucket's, never forward |
| Interactions.Filter.Claim | channels/discord/client.go:123-144 | an identifier is accepted exactly when it is empty or not among the 4096 most recently accepted ones, and the set and the order keep holding those |
| Interactions.AcceptsExactly | channels/discord/client.go:132-143 | an identifier is accepted if and only if it is none of the last 4096 accepted ones |
| Interactions.AcceptedAreSpaced | channels/discord/client.go:132-143 | over any run an identifier is accepted again only after 4096 others |
| Interactions.RememberSpaced | channels/discord/client.go:132-143 | one event keeps equal identifiers that far apart |
| Interactions.SetRotates | channels/discord/client.go:135-138 | dropping the oldest identifier and adding the new one keeps set and order the same |
| Interactions.FilterBounded | channels/discord/client.go:135-142 | the filter never holds more than 4096 identifiers |
| Interactions.Recent | channels/discord/client.go:135-141 | the most recent identifiers, in order |
| InteractionDispatch.DispatchedOnce | channels/discord/gateway.go:300-318 | if interactions have distinct identifiers and are events of sessions, then over every run, with broken connections, full queues and replays anywhere, none is dispatched twice, and every one that was ever queued was dispatched |
| InteractionDispatch.DispatchesAreSpaced | channels/discord/gateway.go:300-304 | over every run whatever, an identifier is dispatched again only after 4096 others |
| InteractionDispatch.ClaimedKeeps | channels/discord/gateway.go:300-318 | a claimed interaction is the last one dispatched, whether it is queued or its connection is aborted |
| InteractionDispatch.NextClaim | channels/discord/gateway.go:300-318 | an interaction that is received is the next event of the client's session |
| WebSocketFrames.DecodeAllEncodeAll | core/http/websocket.go:380-443 | reading back any stream of written frames within the limit yields the same frames in order |
| WebSocketFrames.EncodeAllDecodeAll | core/http/websocket.go:380-443 | any stream that reads back is the encoding of its frames, so re-encoding gives the consumed bytes |
| WebSocketFrames.DecodeEncode | core/http/websocket.go:514-558 | a written frame reads back as its opcode and payload, and reading stops at the next frame |
| WebSocketFrames.EncodeDecode | core/http/websocket.go:380-443 | whatever readFrame accepts is the one encoding of its frame: only minimal lengths, matching masks and legal control frames |
| WebSocketFrames.LengthRoundTrip | core/http/websocket.go:532-540 | the three length forms are read back |
| WebSocketFrames.LengthCanonical | core/http/websocket.go:398-418 | an accepted length has exactly the form that is written for it |
| WebSocketFrames.MaskedTwice | core/http/websocket.go:437-441 | unmasking undoes masking |
| WebSocketFrames.XorInvolutive | core/http/websocket.go:437-441 | applying a mask byte twice gives the byte back |
| WebSocketBits.XorBits | core/http/websocket.go:437-441 | exclusive or sets exactly the bits in which its arguments differ |
| WebSocketBits.MaskedBits | core/http/websocket.go:437-441 | every bit of a masked payload differs from the payload's exactly where the mask has one |
| WebSocketBits.MaskedHello | core/http/websocket.go:527-551 | the masked frames of the RFC's examples, byte by byte |
| WebSocketBits.UnmaskedHello | core/http/websocket.go:528-551 | the unmasked frames of the RFC's examples, fragments and a ping among them |
| WebSocketBits.LongFrames | core/http/websocket.go:532-540 | the RFC's frames of 256 bytes and 64 KiB |
| WebSocketRefusals.CutIsEnd | core/http/websocket.go:380-443 | a frame within the limit that is cut off anywhere is an end of the input |
| WebSocketRefusals.WrongRoleRefused | core/http/websocket.go:391-394 | a frame of the reader's own role is a protocol violation |
| WebSocketRefusals.TooLongRefused | core/http/websocket.go:422-425 | a frame beyond the limit is refused after its header |
| WebSocketRefusals.BadControlRefused | core/http/websocket.go:418-421 | a fragmented control frame or one of more than 125 bytes is a protocol violation |
| WebSocketRefusals.TwoByteLengthRefused | core/http/websocket.go:398-406 | a two-byte length below 126 is a protocol violation |
| WebSocketRefusals.EightByteLengthRefused | core/http/websocket.go:407-415 | an eight-byte length below 65536 or with the highest bit set is a protocol violation |
| WebSocketMessages.FragmentsRead | core/http/websocket.go:320-378 | any fragmentation of a message, with pings and pongs between the fragments, reads as the message exactly when it is within the limit and valid text; every ping is answered in order and reading stops at the next frame |
| WebSocketMessages.MessageIsFragments | core/http/websocket.go:320-378 | what reads as a message is exactly the frames of one fragmentation of it |
| WebSocketMessages.PeerReadsAll | core/http/websocket.go:320-378 | a peer of the opposite role reads exactly the messages written, in order, and then the close, if one was written |
| WebSocketMessages.PeerAcceptsFrames | core/http/websocket.go:380-443 | no frame a connection writes fails the checks of a peer whose limit covers it |
| WebSocketMessages.ClosePayloadParses | core/http/websocket.go:574-582 | a close payload that is written fits a control frame and is accepted by parseClose |
| WebSocketText.CloseAnswers | core/http/websocket.go:449-478 | which close frames are accepted, with which code and reason: codes from 1000 on but 1004 to 1006, 1015 to 2999 and from 5000 on, and valid text |
| WebSocketText.Utf8Exactly | core/http/websocket.go:461-464 | text is valid exactly if it encodes a sequence of Unicode scalar values |
| WebSocketAnswers.FrameDecides | core/http/websocket.go:320-378 | in the middle of any message, with pings answered in order, the next frame decides between the message, a close and a refusal with 1002, 1009 or 1007 |
| WebSocketAnswers.GoesOn | core/http/websocket.go:320-378 | fragments within the limit, pings and pongs are gathered and answered, and reading goes on |
| WebSocketMessages.MessageStep | core/http/websocket.go:332-360 | what one frame contributes when a message comes of it |
| WebSocketMessages.AsciiIsUtf8 | core/http/websocket.go:462 | ASCII is valid UTF-8 |
| WebSocketConn.Conn.ReadMessage | core/http/websocket.go:320-378 | the loop reports what the function of the arriving bytes says, has written one equal pong per ping in order, closes when it refuses or is closed, and leaves the rest unread |
| WebSocketConn.Conn.Turn | core/http/websocket.go:325-376 | one turn of the loop, and how it relates to the outcome of the whole call |
| WebSocketConn.Conn.TakeData | core/http/websocket.go:332-341 | text, binary and continuation frames: protocol errors and collecting fragments |
| WebSocketConn.Conn.TakeControl | core/http/websocket.go:342-359 | ping, pong, close and unknown frames |
| WebSocketConn.Conn.Collect | core/http/websocket.go:362-376 | the buffer never exceeds the limit, and text that is not UTF-8 is refused |
| WebSocketConn.Conn.ReadFrame | core/http/websocket.go:380-443 | reading a frame piece by piece is decoding the bytes, and a refusal sends a close frame |
| WebSocketConn.Conn.ReadHeader | core/http/websocket.go:380-426 | the header, its length forms and its checks |
| WebSocketConn.Conn.ReadBody | core/http/websocket.go:428-442 | the mask and the payload |
| WebSocketConn.Conn.Unmask | core/http/websocket.go:437-441 | the loop over the buffer takes the mask off, which WebSocketBits.MaskedBits determines bit by bit |
| WebSocketConn.Conn.WriteFrame | core/http/websocket.go:514-558 | what is written, suppressed or refused, depending on the close state; written frames are appended to the wire whole |
| WebSocketConn.Conn.FrameBytes | core/http/websocket.go:528-552 | header, length form and masking give the encoding of the frame |
| WebSocketConn.Conn.Transmit | core/http/websocket.go:528-558 | header and payload reach the wire whole, or a prefix of them and an error |
| WebSocketConn.Conn.WriteAll | core/http/websocket.go:560-572 | short writes are continued; an error leaves a prefix |
| WebSocketConn.Conn.WriteClose | core/http/websocket.go:574-582 | at most one close frame is ever sent |
| WebSocketConn.Conn.WriteMessage | core/http/websocket.go:486-494 | only valid text or binary messages are written, none after a close frame |
| WebSocketConn.Conn.Echo | core/http/websocket.go:349-357 | a close frame is answered with its own payload and ends the connection |
| WebSocketConn.Conn.Close | core/http/websocket.go:606-609 | closing sends a normal close unless one was sent |
| WebSocketConn.Conn.Upgraded | core/http/websocket.go:137-142 | a server connection expects masked frames and writes unmasked ones; zero selects the default limit |
| WebSocketConn.Conn.Dialed | core/http/websocket.go:242 | a client connection writes masked frames and expects unmasked ones |
| WebSocketConn.Conn.PeerReads | core/http/websocket.go:514-558 | after any sequence of writes, reads and closes without a failed write, the peer reads exactly what was written |
| WebSocketConn.DisciplineKept | core/http/websocket.go:517-526 | a frame allowed by the close state keeps at most one close frame and no data after it |
| RateMemory.MemoryStore.Take | core/http/plugins/ratelimit/memory.go:53-89 | Take answers and leaves the buckets as a plain map that forgets expired ones, which RateAnswers determines; heap and map keep agreeing |
| RateAnswers.FullExactly | core/http/plugins/ratelimit/memory.go:75-79 | a call is refused if and only if its key has no open window and there are as many open windows as keys allowed |
| RateAnswers.TakenAnswers | core/http/plugins/ratelimit/memory.go:75-88 | any other call is counted in its open window or opens one, and is allowed while the count is below the limit; remaining and reset say so, and no other open window changes |
| RateMemory.MemoryStore.Evict | core/http/plugins/ratelimit/memory.go:68-73 | after the loop the buckets are exactly those not expired |
| RateMemory.MemoryStore.HeapPush | core/http/plugins/ratelimit/memory.go:30 | pushing keeps a heap of the same entries and the new one |
| RateMemory.MemoryStore.HeapPop | core/http/plugins/ratelimit/memory.go:31-36 | popping returns an entry with the earliest reset and keeps a heap of the others |
| RateMemory.MemoryStore.Up | core/http/plugins/ratelimit/memory.go:27-29 | sifting up makes a heap of the same entries |
| RateMemory.MemoryStore.Down | core/http/plugins/ratelimit/memory.go:27-29 | sifting down makes a heap of the same entries |
| RateMemory.RootIsLeast | core/http/plugins/ratelimit/memory.go:68 | the first entry of a heap resets first |
| RateMemory.UpStep | core/http/plugins/ratelimit/memory.go:28-29 | one swap upwards repairs its place and spoils none but the parent's |
| RateMemory.DownStep | core/http/plugins/ratelimit/memory.go:28-29 | one swap downwards repairs its place and spoils none but the child's |
| RateMemory.AllAlive | core/http/plugins/ratelimit/memory.go:68-73 | when the earliest entry is not expired, no bucket is |
| RateWindows.WindowAdmitsExactly | core/http/plugins/ratelimit/memory.go:75-88 | each window admits exactly the smaller of the limit and its number of calls |
| RateWindows.LiveBucketAdmits | core/http/plugins/ratelimit/memory.go:83-88 | a live bucket admits exactly the smaller of what is left and the calls made |
| RateWindows.AtMostTwiceTheLimit | core/http/plugins/ratelimit/memory.go:75-88 | any interval of one window's length admits at most twice the limit per key, wherever windows fall |
| RateAnswers.FewKeysFit | core/http/plugins/ratelimit/memory.go:76-78 | a run that uses no more keys than allowed never finds the store full |
| RateAnswers.NewStoreAdmitsTwice | core/http/plugins/ratelimit/memory.go:68-88 | so a new store admits at most twice the limit in every interval of one window's length |
| RateAnswers.NewStoreAdmitsExactly | core/http/plugins/ratelimit/memory.go:68-88 | and its first window exactly the smaller of the limit and the calls |
| RateWindows.TwoWindowsSuffice | core/http/plugins/ratelimit/memory.go:75-88 | from any call on, the rest of one bucket and one more limit are the most that is admitted |
| RateWindows.TakeEffect | core/http/plugins/ratelimit/memory.go:75-88 | a call uses up one admission of its own key's bucket and leaves the others |
| RateSql.StoresAgree | core/http/plugins/ratelimit/orm.go:64-75 | fed the same whole-second clock and window, the SQL store and the memory store give the same answers over every run, and SQL counts stay representable |
| RateSql.EmptyStoresAgree | core/http/plugins/ratelimit/orm.go:48-76 | in particular from two empty stores |
| RateAnswers.NewStoresAgree | core/http/plugins/ratelimit/orm.go:64-75 | with few keys, both new stores answer alike over every whole-second run |
| RateAnswers.SqlAnswers | core/http/plugins/ratelimit/orm.go:64-109 | what the SQL store answers, whatever its rows, and which rows it leaves alone |
| RateAnswers.CleaningIsScheduled | core/http/plugins/ratelimit/orm.go:64-109 | expired rows are deleted at most once a window or a minute, and at most once a second |
| RateSql.TakeAgrees | core/http/plugins/ratelimit/orm.go:96-109 | one call is answered alike and leaves the stores corresponding |
| RateSql.WholeSecondsNeeded | core/http/plugins/ratelimit/orm.go:64-67 | already the first answers agree if and only if the window is a whole number of seconds |
| RateSql.CleanedAgrees | core/http/plugins/ratelimit/orm.go:78-94 | deleting expired rows changes nothing that is visible |
| RateSql.ORMStore.Take | core/http/plugins/ratelimit/orm.go:48-76 | cleanup, upsert and answer are the function's |
| RateSql.ORMStore.Cleanup | core/http/plugins/ratelimit/orm.go:78-94 | the scheduled deletion |
| RateSql.WindowSeconds | core/http/plugins/ratelimit/orm.go:64-67 | a window is rounded up to seconds |
| SchemaRuns.UpMigrates | core/orm/schema.go:96-161 | applied to a database of the previous schema, Up gives exactly the current schema's database if and only if the database can hold that schema: it refuses none of its names and columns, tells its names apart and, in SQLite, finds a column in every table; otherwise it fails as a whole |
| SchemaRuns.DownRestores | core/orm/schema.go:119-159 | applied to a database of the current schema, Down gives the previous schema's database back if and only if the database can hold that schema, which only a table without columns in SQLite can prevent; otherwise it fails as a whole |
| SchemaRuns.UpAltersNothing | core/orm/schema.go:143-158 | however far it gets and whatever it is applied to, Up alters no existing column and no primary key |
| SchemaRuns.TakenWas | core/orm/schema.go:121-142 | what a database takes of the current schema it took of the previous one |
| SchemaRuns.CreationRuns | core/orm/schema.go:245-277 | CREATE TABLE makes the table the schema describes, with its keys and constraints |
| SchemaRuns.AutoNeverNull | core/orm/schema.go:260 | NOT NULL may be left out of an auto column because its key excludes NULL already |
| SchemaRuns.ColumnsRun | core/orm/schema.go:143-158 | added columns turn the old table into the new one, or fail exactly when names collide or a column is refused |
| SchemaRuns.ColumnsUndone | core/orm/schema.go:158 | dropping them in reverse order restores the old table, unless the only column would be dropped where a table keeps one |
| SchemaDatabases.PostgresMigrates | core/orm/schema.go:96-161 | on PostgreSQL every generated migration applies and is undone, if the new schema's names have at most 63 bytes, no table's name is taken, no column is named like a system column, and all types are known |
| SchemaDatabases.FromNothing | core/orm/schema.go:96-161 | from an empty database a valid schema is reached if and only if the database can hold it |
| SchemaDatabases.CaseCollides | core/orm/schema.go:195-218 | two table names that differ only in case pass the checks, but SQLite cannot hold both, so the migration does not apply |
| SchemaDatabases.LongNamesCollide | core/orm/schema.go:195-218 | two table names that agree in 63 bytes pass the checks, but are one to PostgreSQL, so the migration does not apply |
| SchemaDatabases.OwnTableRefused | core/orm/schema.go:195-204 | a table name with SQLite's own prefix passes the checks, but is refused |
| SchemaDatabases.OwnColumnRefused | core/orm/schema.go:205-218 | a column named like a system column passes the checks, but PostgreSQL refuses it |
| SchemaDatabases.OnlyColumnStays | core/orm/schema.go:143-158 | a table without columns passes the checks; when it gets one, Down fails on every SQLite database of the new schema |
| SchemaDatabases.StartTaken | core/orm/schema.go:121-142 | what PostgreSQL takes of a schema it took of the previous one |
| Schemas.GenerateAccepts | core/orm/schema.go:96-161 | a migration is generated if and only if both schemas are valid, of one dialect, and the change is purely additive |
| Schemas.NothingToDo | core/orm/schema.go:119-160 | Up is empty if and only if the schemas describe the same tables |
| Schemas.ForTableAccepts | core/orm/schema.go:121-157 | a table is accepted if and only if it is new with columns, or extends the old one by nullable unconstrained columns |
| Schemas.ForColumnsAccepts | core/orm/schema.go:143-153 | columns are accepted if and only if known ones are unchanged and new ones unconstrained |
| SchemaGenerator.GenerateMigration | core/orm/schema.go:96-161 | the loops generate what the function says, or refuse for the same reason |
| SchemaGenerator.MigrateTables | core/orm/schema.go:119-160 | Up grows forward and Down backward over the tables |
| SchemaGenerator.MigrateTable | core/orm/schema.go:121-142 | a new table, or the checks on an old one |
| SchemaGenerator.ExtendTable | core/orm/schema.go:143-159 | the loop over a table's columns |
| SchemaGenerator.CreateTableStatement | core/orm/schema.go:245-277 | the loop over definitions; a table without columns is refused |
| SchemaGenerator.ValidateSchema | core/orm/schema.go:187-243 | the loops with their seen maps accept exactly the valid schemas |
| SchemaRules.SchemaRulesHold | core/orm/schema.go:187-243 | which schemas are valid, spelled out down to the characters of names and types and the two auto types |
| SchemaRules.NameRules | core/orm/dialect.go:145-167 | a name is valid if and only if it can be quoted and has no dot |
| SchemaRules.DialectRules | core/orm/schema.go:175-184 | the four dialect names, in any case |
| SchemaGenerator.ValidateTable | core/orm/schema.go:195-241 | and exactly the valid tables |
| SchemaGenerator.ValidateColumns | core/orm/schema.go:206-218 | column names and types, and no name twice |
| SchemaGenerator.ValidatePrimaryKey | core/orm/schema.go:219-228 | primary keys name existing columns, each once |
| SchemaGenerator.IndexTables | core/orm/schema.go:279-285 | the map by name |
| SchemaGenerator.IndexColumns | core/orm/schema.go:287-293 | the map by name |
| MigrationRuns.DatabaseTracksSchema | cli/godo/database.go:206-263 | over every run of generate, migrate and rollback, with failures anywhere, the applied migrations are a matching prefix of those on disk and the database has the schema that prefix leads to |
| MigrationRuns.MigrateReaches | core/orm/dbtool/migrations.go:136-180 | migrating reaches the last schema exactly when every pending migration has statements and the database can hold the schemas they lead to; otherwise nothing changes |
| MigrationRuns.RollbackReturns | core/orm/dbtool/migrations.go:182-234 | rolling back returns to the schema before the latest applied migration, or changes nothing |
| MigrationRuns.PostgresReachesLock | core/orm/dbtool/migrations.go:136-180 | on PostgreSQL migrating reaches the locked schema unless an empty migration is pending, if the schema's names are short enough, not taken and not PostgreSQL's own, and its types are known |
| MigrationRuns.EmptyMigrationBlocks | core/orm/dbtool/migrations.go:158-168 | an empty migration that is left empty blocks all migrating: whatever models are added after it, the database stays without tables while the locked schema has some |
| MigrationRuns.GenerateKeeps | cli/godo/database.go:219-261 | generating appends a migration from the locked schema, or changes nothing |
| MigrationAnswers.GenerateAnswers | cli/godo/database.go:206-263 | an additive change is appended with its statements and moves the lock; anything else is refused, and an empty migration is appended exactly if asked for and nothing changed |
| MigrationAnswers.RoundTrip | cli/godo/database.go:206-263 | in a project that is up to date, generating and migrating gives the new schema's database if the database can hold it and otherwise changes nothing; rolling back gives the old database back |
| MigrationRuns.StepKeepsGood | core/orm/dbtool/migrations.go:136-234 | every command keeps the invariant |
| MigrationRuns.ForwardLeads | core/orm/dbtool/migrations.go:158-168 | running the pending scripts leads from one schema to the last, or fails |
| MigrationRuns.NextLock | core/orm/schema.go:121-153 | a schema a migration was generated for can be locked |
| Migrations.ValidateHistory | core/orm/dbtool/migrations.go:320-343 | accepts exactly when the applied records are a matching prefix of the migrations on disk |
| Migrations.AppliedAreFirst | core/orm/dbtool/migrations.go:323-336 | in a matching history exactly the first migrations are applied, unmodified |
| Migrations.Database.Migrate | core/orm/dbtool/migrations.go:136-180 | applies all pending scripts and records them, or nothing; succeeds exactly when the history matches, no script is blank, all run and the commit does; this is the function that MigrationRuns runs |
| Migrations.Database.Rollback | core/orm/dbtool/migrations.go:182-234 | undoes exactly the latest applied migration, or nothing, as the function that MigrationRuns runs |
| Migrations.Greatest | core/orm/dbtool/migrations.go:210-215 | the greatest applied version |
| Migrations.LatestIsLast | core/orm/dbtool/migrations.go:210-222 | which is the last migration of the prefix |
| Migrations.OneLess | core/orm/dbtool/migrations.go:361-381 | removing its record leaves the prefix one shorter |
| MigrationFiles.LoadMigrations | core/orm/dbtool/migrations.go:37-101 | loads the migrations directory, with the file names the tool uses |
| MigrationLoading.Load | core/orm/dbtool/migrations.go:37-101 | loads exactly the directories without bad names, conflicts or missing files, and then holds every file in the migration of its version, in ascending order |
| MigrationLoading.Arrange | core/orm/dbtool/migrations.go:79-100 | the migrations in ascending order, if all are complete |
| MigrationLoading.ConflictFound | core/orm/dbtool/migrations.go:60-77 | a version with two names, or two files of one direction, is refused |
| MigrationLoading.CompleteIsLoadable | core/orm/dbtool/migrations.go:79-83 | what loads are the directories where every migration has both files |
| MigrationFiles.ParseName | core/orm/dbtool/migrations.go:103-124 | only positive versions and legal names are read |
| MigrationFiles.NameRoundTrip | core/orm/dbtool/migrations.go:103-124 | generated file names are read back |
| MigrationFiles.ParsedExactly | core/orm/dbtool/migrations.go:103-124 | a file is a migration's if and only if its name is a positive 64-bit number of at least six characters, an underscore, a legal name and one of the two endings |
| MigrationFiles.NextVersion | cli/godo/database.go:400-417 | the loop over the directory gives one more than the greatest number in it, wrapped to 64 bits |
| MigrationFiles.NextFollowsAll | cli/godo/database.go:400-417 | the next version follows every migration in the directory if and only if the greatest number there is not the last 64-bit one, or no file there is a migration |
| MigrationFiles.GreatestIsGreatest | cli/godo/database.go:405-415 | the number the loop keeps is one of the directory's, and none is greater |
| MigrationFiles.NextIsPositive | cli/godo/database.go:400-417 | the next version is positive if and only if the greatest number is not the last one, and then follows every number |
| MigrationFiles.LastNumberTaken | cli/godo/database.go:400-417 | a directory with a migration of the last number loads; the next version is then the least 64-bit number |
| MigrationFiles.PairLoads | core/orm/dbtool/migrations.go:37-101 | the two files of one migration are a directory that loads, and its greatest number is that version |
| MigrationFiles.WrappedNotLoaded | core/orm/dbtool/migrations.go:47-52 | with the file that is then generated the directory does not load any more |
| MigrationFiles.NextFollows | cli/godo/database.go:400-417 | the version given to a generated migration follows all loaded ones, which the runs of commands rely on |
| Passwords.ParsePrint | core/password/password.go:150-196 | parsing a printed hash returns its parameters, salt and key, for all that may be verified |
| Passwords.PrintParse | core/password/password.go:150-196 | printing what was accepted gives back the identical text, and it may be verified |
| PasswordAnswers.AcceptedExactly | core/password/password.go:119-212 | the accepted hashes are exactly the written-out texts of parameters, salts and keys within the bounds, in numbers |
| PasswordAnswers.PrintedText | core/password/password.go:67-83 | the text of a hash, letter by letter |
| Passwords.GenerationImpliesVerification | core/password/password.go:119-148 | the bounds for new hashes imply those for old ones |
| PasswordAnswers.GenerationBounds | core/password/password.go:119-141 | what New accepts, in numbers |
| Passwords.VerifiesItsPassword | core/password/password.go:67-103 | a hash verifies the password it was made from, and only passwords that derive the same key |
| PasswordAnswers.KeyIsDerived | core/password/password.go:78 | the key in a hash is derived from the password, the salt, and the hash's passes, memory, lanes and key length, in this order |
| PasswordAnswers.VerdictAnswers | core/password/password.go:86-104 | verifying derives a key from what the hash says and compares |
| PasswordAnswers.OutdatedAnswers | core/password/password.go:106-117 | a new hash is asked for exactly if a cost or a length differs |
| Passwords.RehashesOthersOnly | core/password/password.go:106-117 | a new hash is asked for if and only if the parameters differ |
| Passwords.ParameterAccepts | core/password/password.go:198-212 | accepted are exactly the numerals in range without leading zeros |
| Passwords.CostRoundTrip | core/password/password.go:161-176 | printed parameters are read back |
| Passwords.CostCanonical | core/password/password.go:161-176 | accepted parameters are the text that is printed |
| Passwords.Hasher.Hash | core/password/password.go:67-83 | every hash, whatever its salt, verifies its password and needs no rehash; only a password too long is refused |
| Passwords.Hasher.Verify | core/password/password.go:86-103 | verification is the function of the password and the parsed text |
| Passwords.Hasher.NeedsRehash | core/password/password.go:106-117 | so is the question whether to rehash |
| Base64.DecodeEncode | core/password/password.go:80 | encoded bytes are decoded (RFC 4648, sections 3.2 and 4) |
| Base64.EncodeDecode | core/password/password.go:180-188 | every accepted text is the one encoding of its bytes (RFC 4648, section 3.5) |
| PasswordAnswers.Alphabet | core/password/password.go:80-82 | the alphabet of the text |
| PasswordAnswers.TestVectors | core/password/password.go:80-82 | the RFC's test vectors |
| Decimals.ValueOfDigits | core/password/password.go:80 | a printed number is read back |
| Decimals.DigitsOfValue | core/password/password.go:207-210 | only leading zeros make a numeral differ from the printed one |
| Splitting.SplitJoin | core/password/password.go:154 | joined fields without separators are split again |
| Splitting.JoinSplit | core/password/password.go:154 | split fields are joined again |
| IssueUpdates.UpdatesBlock | cli/godo/issue.go:686-738 | updating a body with a block recovers its values up to surrounding line breaks, overrides them by the changes, and keeps all text outside the block |
| IssueUpdates.RenderedIsUpdated | cli/godo/issue.go:660-738 | a rendered body with marker-free notes around it is updated to the rendering of its values with the changes; it fails exactly when a change blanks a required field or the body becomes too long |
| IssueUpdates.RenderedBetween | cli/godo/issue.go:660-672 | that body is the rendered text between the notes |
| IssueAnswers.BodyWritten | cli/godo/issue.go:660-684 | the body of a new issue, line by line |
| IssueAnswers.MarkersWritten | cli/godo/issue.go:660-684 | the markers, letter by letter |
| IssueAnswers.AmbiguousExactly | cli/godo/issue.go:686-690 | a body is ambiguous if and only if it has not exactly one issue marker, one start and one end |
| IssueAnswers.UpdateAnswers | cli/godo/issue.go:691-738 | for every other body, the marker's version and template, then the order of the block's markers, then the fields decide the answer |
| IssueAnswers.FieldAnswers | cli/godo/issue.go:706-722 | how a field is read: duplicate, missing or misplaced markers, or the text between them |
| IssueAnswers.TemplateFound | cli/godo/issue.go:695-698 | the template is the first one with the marker's name |
| IssueAnswers.AcceptedRules | cli/godo/issue.go:740-760 | which values are accepted: known fields, allowed characters, no marker, and required fields not blank |
| IssueAnswers.SizeRules | cli/godo/issue.go:668-670 | a body is measured in bytes of UTF-8 |
| IssueUpdates.UpdatingTwice | cli/godo/issue.go:686-738 | for every body that is accepted, applying the same changes again gives the same text if and only if the issue marker is not inside the block |
| IssueSwallowing.MarkerIsSwallowed | cli/godo/issue.go:686-738 | a body whose marker is inside the block is updated like any other, but the result has no marker, so the next update refuses it as ambiguous |
| IssueSwallowing.SwallowingOccurs | cli/godo/issue.go:686-738 | every template of up to six short fields has such a body that is accepted, and whose second update is refused |
| IssueSwallowing.BugSwallows | cli/godo/issue.go:41-52 | the bug template with its six fields is one of them |
| IssueUpdates.UpdateWent | cli/godo/issue.go:686-738 | an accepted update replaced one block and kept everything before and after it |
| IssueUpdates.MergedAccepted | cli/godo/issue.go:723-731 | recovered values with accepted changes are accepted if and only if no change blanks a required field |
| IssueUpdates.MarksAround | cli/godo/issue.go:687-690 | the issue markers of a body with a rendered block are those outside the block |
| IssueUpdates.BlockFound | cli/godo/issue.go:699-704 | the markers of a rendered block are found where they are, once |
| IssueValues.BlockGivesBack | cli/godo/issue.go:705-722 | the block gives back every rendered value, trimmed, and no other |
| IssueValues.RecoveredAt | cli/godo/issue.go:705-722 | which fields are recovered, and as what |
| IssueValues.TrimLines | cli/godo/issue.go:721 | trimming undoes the line breaks a value was rendered with |
| IssueValues.TrimPart | cli/godo/issue.go:721 | a trimmed value is the part between its first and last characters that are no line breaks |
| IssueBodies.ManagedField | cli/godo/issue.go:674-684 | a field is in the block where it was rendered, once, or not at all |
| IssuePattern.FindsOne | cli/godo/issue.go:687-688 | the pattern matches exactly once if and only if there is exactly one issue marker |
| IssuePattern.ParsedIsThere | cli/godo/issue.go:23 | a match is a marker |
| IssuePattern.ThereIsParsed | cli/godo/issue.go:23 | every marker is matched |
| IssueMarkers.CountOnce | cli/godo/issue.go:688 | counting finds one if and only if there is exactly one, the one that is found |
| IssueMarkers.AtSplit | cli/godo/issue.go:680 | no marker comes about where two pieces of text meet |
| IssueMethods.UpdateManagedIssue | cli/godo/issue.go:686-738 | the update is the function, error for error |
| IssueMethods.RenderIssueBody | cli/godo/issue.go:660-672 | rendering is the function |
| IssueMethods.RenderFields | cli/godo/issue.go:674-684 | the loop renders present fields in template order and leaves out empty optional ones |
| IssueMethods.ExtractFields | cli/godo/issue.go:705-722 | the loop over the template's fields |
| IssueMethods.ValidateFields | cli/godo/issue.go:740-760 | accepts exactly known names, legal text without reserved markers, and, if asked, every required field |
| IssueMethods.Override | cli/godo/issue.go:726-728 | changes replace values |

## Left out

- Network, TLS, HTTP handshakes and hijacking: a connection is the bytes that arrive and the bytes it has written; a read that fails is the end of the bytes.
- The HTTP middleware around the idempotency store and the limiters: key and header syntax, request bodies, problem responses and the fingerprint's SHA-256; a request is its storage key, its fingerprint and the time it presents.
- Real time: clocks are numbers that the caller supplies, from zero on in the idempotency store, where zero stands for the zero time; durations do not overflow.
- Timers, jitter, heartbeats and context errors: waiting is a step that is enabled when its time has come, and cancellation is a choice at any wait.
- `complete` adds sizes without 64-bit overflow, and header names are taken to be canonical.
- The Gateway's bot endpoint and its JSON: refreshing the identify allowance supplies a number, and a payload is its decoded value.
- The loops of `rateLimiter.lock` and `requestWithAuth` as methods of their own: other goroutines run between any two of their locked regions, so each region is a method of `RestLimits.RateLimiter` and the loops are the program counters of `RestProtocol`.
- Discord's REST methods, event handlers, and what a dispatched interaction runs.
- `rand.Read` failing: it cannot in the Go version the module requires. Masks and salts are arbitrary bytes.
- `int64(message.Len())+int64(len(payload))` overflowing, which would need a limit beyond 2^62 bytes.
- Concurrent use of one WebSocket connection: each read and each write is one step; `writeMu` keeps the bytes of frames apart.
- The wording of errors. Where a text goes on the wire, as in close frames, it is written out.
- What a column type implies by itself, such as a serial type's NOT NULL: a database column keeps the type's text and the constraints that are stated.
- Indexes and sequences that a database makes for keys and serial columns: PostgreSQL names them after the table, in the namespace of tables, so a name like `a_pkey` beside a table `a` counts as taken in `SchemaDatabases.Catalog`. Limits on the number of columns.
- The statements' text: they are terms, and `migrationSQL` and identifier quoting are not modelled. Hand-written migration scripts are arbitrary in `Migrations`, and empty in `MigrationRuns` until someone fills them in.
- Reflection over models, `Describe`, the query builder and database drivers.
- `status`, file locking, atomic file writes and their failures, and the schema lock's JSON. A command that fails before it writes changes nothing.
- Which characters outside ASCII are letters, digits or white space: the results hold whatever they are.
- Argon2 and SHA-256: any function of the right shape; the derived key has the length asked for.
- The four issue templates: the results hold for any templates whose names and headings break no marker.
- Routing, request identifiers, the agent API, validation, most of the command line, systemd, git and the gh tool.
