# Codex proxy: a verified model

This project models the parts of the Codex proxy that have state and control flow, and proves
what they keep. `dafny verify dfyconfig.toml` checks the whole project.

The proxy lends a pool of ChatGPT accounts to clients that speak the OpenAI Responses and Chat
Completions APIs. The modules follow its files:

- **The streams** (`ChatTranslation`, `ChatStream`, `ChatCollect`, `ChatRefinement`, `ResponseStream`). `streamChat`
  turns Codex events into chunks as they arrive; the non-streaming endpoint collects the same
  events and answers once. The main result is that a client that joins the chunks holds the
  collected answer. Its conditions are exact where the code falls short of it. `ResponseStream`
  does the same for what the Responses API stores.
- **Reading and retrying** (`SseReader`, `RetryStream`). The server-sent event reader (sections 9.2.5
  and 9.2.6 of the WHATWG HTML Living Standard, read the looser way the code does), and the
  speculative buffer that never lets a client see two attempts.
- **The account pool** (`Scheduling`, `AccountOrder`, `AccountPool`, `PoolRuns`, `Cooldowns`,
  `OtherRequests`, `Failover`). Each method of `Pool` is one section the code runs under the
  pool's mutex. What the pool does for a request is logged: its claims with all they read, the
  keys it remembers and the cooldowns; `Valid` says that every claim was the scheduler's choice.
  `OtherRequests.Others` is any number of such steps by other requests and operators;
  `Failover` calls it wherever the lock is free, so its contracts hold in every interleaving,
  and say what a request's whole log is. `PoolRuns` is the pool without others, where runs of
  requests are the runs `Scheduling` speaks of.
- **WebSockets and shutdown** (`WebSockets`), in the same style, over the same pool.
- **Conversations, stores and pages** (`InputItems`, `Stores`, `Conversation`, `CursorPages`).
- **Legacy function calls** (`LegacyCalls`) and the **credential cache** (`CredentialCache`).

Where the source changes state step by step, the model does: classes with `modifies` clauses,
loops with invariants. Such a method is proved against a function on values, and the lemmas are
about that function. Bookkeeping fields that the source does not have (`objects`,
`leases`, `live`, `pending`, `history`, `log`, `holders`, `chains`) record what happened, so that
an invariant can say it.

Items, events and messages are datatypes of each module's own, with the fields its code branches
on. Clocks, files, random numbers, credentials, the answers of Codex and the steps of others are
parameters or arbitrary values. Functions the model cannot see (decoding JSON, reading a token's
expiry) are function values; the reasoning fingerprint is an injective function.

Results where the code falls short of what it promises, each with the condition under which it
does not:

- A function call with neither `call_id` nor `id` is streamed as `call_<n>` but collected with
  an empty id (`UnnamedCallDiffers`; exact condition in `StreamingRefinesCollecting`).
- Two finished messages without text deltas: only the first is streamed
  (`TwoSilentMessagesDiffer`; exact condition in `SilentMessagesAgree`).
- An `added` event after a call's arguments restarts its record while the client keeps what it
  was sent (`RestartedCallDiffers`; exact condition in `FragmentsMatchRecord`).
- An error event before the end fails a stream at once, while collecting waits for what the end
  says: another error, or none (`EarlyErrorHidesTheFailure`, `EarlyErrorFailsTheStreamOnly`;
  exact condition in `FailuresAgree`).
- A 429 that resets in less than a second gives no cooldown at all (`HalfASecondIsNoCooldown`;
  exact condition in `CooldownsLast`).
- A response whose output has values that are not objects, or leaves no item while its
  `output_text` says something, is remembered as something other than its items
  (`PlainValuesAreForgotten`, `TextsStandInForItems`; exact conditions in `ReplayedOutputs`, and
  for whole conversations in `ChainingIsReplaying`).
- A response that failed is stored as it came when streamed, but marked failed, with the error
  reported before it, when not (`ReportedErrorIsStoredOnce`; exact condition in
  `StoredIsCollected`).
- A login written over a refreshed one before its stamp is read is not noticed
  (`LoginWrittenDuringRefreshIsMissed`; exact condition in `DisturbedFills`).
- A cached login is still lent when its file can no longer be read (`UnreadableFileIsMissed`;
  exact condition in `HitsAgree`).

## Model

| member | source | states |
|---|---|---|
| ChatTranslation.ReadResponseText | internal/app/compat.go:379-391 | an explicit `output_text` wins; otherwise the texts of the messages, in output order |
| ChatTranslation.ResponseToChat | internal/app/compat.go:400-464 | every one of max(n, 1) choices carries the message and a finish reason: of an incomplete answer `content_filter` for that reason and `length` for any other; of the others `stop` exactly when no item is a call, else `function_call` for legacy clients and `tool_calls` for the rest; the content is absent exactly when there is a call and no text |
| ChatTranslation.CallsAreTold | internal/app/compat.go:411-424 | the message tells exactly the calls of the output, in order, under their call ids or else their own; a legacy one the first alone |
| ChatTranslation.TextsJoin | internal/app/compat.go:379-391 | the text of an output is the texts of its parts, joined |
| ChatStream.ChatStreamer.LookUpCall | internal/app/server.go:659-670 | a call keeps the index of its first event, a new one gets the next; a legacy client sees index 0 only |
| ChatStream.ChatStreamer.HandleCallDone | internal/app/server.go:717-736 | a finished call is started with its arguments, or sent what they add to what was sent, or nothing |
| ChatStream.ChatStreamer.HandleTerminal | internal/app/server.go:747-775 | the final event fails the stream or writes the finish reason of the response, completed with the finished items |
| ChatStream.ChatStreamer.Handle | internal/app/server.go:678-778 | on every event the fields and the frames written follow the step machine, the role chunk first |
| ChatStream.StreamChat | internal/app/server.go:642-789 | frames stop at the first failure; a failure before the role chunk is an HTTP error with nothing written, a later one an error frame before `[DONE]` |
| ChatRefinement.RoleIsHeld | internal/app/server.go:672-684 | nothing is written exactly while all events so far were lifecycle or failure events |
| ChatRefinement.StreamsTellTheirEnd | internal/app/server.go:755-775 | the last chunk gives every choice, with an empty delta, the finish reason of the final response and its items, as for the non-streaming endpoint; the usage chunk follows when asked for |
| ChatCollect.Collect | internal/app/backend.go:772-808 | the last response, completed with the finished items when it has none, or the failure that was reported |
| ChatCollect.LastResponseIsKept | internal/app/backend.go:783-794 | the last response of any trace is kept, and marked failed with the last error reported before it when it failed without one |
| ChatCollect.ChatCompletion | internal/app/server.go:618-639 | a failed response is refused with its error, any other answered |
| ChatRefinement.IndexesFollowAppearance | internal/app/server.go:655-670 | on any trace, output indexes map one to one onto 0..k-1 in order of first appearance |
| ChatRefinement.FragmentsMatchRecord | internal/app/server.go:696-736 | on any trace, the fragments a client joined equal the record of what was sent, at every point, exactly when no call it can see is added after arguments of it were brought |
| ChatRefinement.AddedFirstNeverRestarts | internal/app/server.go:696-712 | calls that are added before their arguments are never restarted |
| ChatRefinement.RestartedCallDiffers | internal/app/server.go:696-712 | a call added, given arguments and added again has a record the client does not hold |
| ChatRefinement.DoneDelivers | internal/app/server.go:717-735 | a finished item completes the arguments when what was sent begins them, leaves the client's copy alone when not, and sends nothing the second time |
| ChatRefinement.CallsAreTracked | internal/app/server.go:696-736 | along a well-formed trace, each call's id, name and arguments so far are recorded and received, and no other call is touched |
| ChatRefinement.CallsArriveWhole | internal/app/server.go:696-736 | after a complete trace the client holds exactly the final calls, in order, with their arguments |
| ChatRefinement.TextIsStreamed | internal/app/server.go:690-743 | on any trace, the client's text is the leading silent message and then the deltas, and the finished items are all kept |
| ChatRefinement.SilentMessagesAgree | internal/app/server.go:737-743 | without deltas, the streamed text is the collected text exactly when at most one message says anything |
| ChatRefinement.ModeIsKept | internal/app/server.go:842-860 | legacy streams never write tool calls, the others never a function call |
| ChatRefinement.FinalEvent | internal/app/server.go:747-775 | the final event adds the role and the finish reason to the client's answer, and nothing else |
| ChatRefinement.CollectingEnds | internal/app/backend.go:772-808 | the non-streaming endpoint collects the final response of a well-formed trace |
| ChatRefinement.StreamingRefinesCollecting | internal/app/server.go:642-789 | for every well-formed complete trace, each streamed choice joins to the collected message and finish reason, exactly when the client is legacy or every call is named |
| ChatRefinement.FailuresAgree | internal/app/server.go:745-754 | on any trace that ends, both clients get the same error or none, exactly when no error event came first or its detail is what the end says |
| ChatRefinement.FailedResponsesAreErrors | internal/app/server.go:747-754 | without earlier errors a final response is an error to both clients exactly when its event or its status says it failed |
| ChatRefinement.UnfinishedFailuresAgree | internal/app/backend.go:795-807 | the same for a trace that stops without an end, after error events or with an error of the stream |
| ChatRefinement.EarlyErrorHidesTheFailure | internal/app/backend.go:486-490 | an error event before a failure gives the two clients different errors |
| ChatRefinement.EarlyErrorFailsTheStreamOnly | internal/app/server.go:745-746 | an error event before a response fails the stream, and collecting answers |
| ChatRefinement.RoleComesFirst | internal/app/server.go:672-684 | the role chunk is the first frame and is written once, and nothing is written before it |
| ChatRefinement.UnnamedCallDiffers | internal/app/server.go:849-860 | a call without ids makes the two answers differ |
| ChatRefinement.TwoSilentMessagesDiffer | internal/app/server.go:737-743 | two messages without deltas make the two texts differ |
| ResponseStream.StreamResponse | internal/app/server.go:393-447 | every event is passed through in order under its own or the next number, a final response completed with the finished items; the first final response is stored; an error before any event is an HTTP error |
| ResponseStream.PassedOn | internal/app/server.go:407-434 | an event keeps its number or gets its place; only a final response is changed: it gets the finished items when it has none, and `completed` when it has no status |
| ResponseStream.FirstIsStored | internal/app/server.go:421-427 | the response stored is the first final one that was sent |
| ResponseStream.StoredIsCollected | internal/app/server.go:412-427 | both endpoints store the same response, exactly unless it failed without saying so |
| ResponseStream.ReportedErrorIsStoredOnce | internal/app/backend.go:782-793 | a failure after a reported error is stored with it by one endpoint only |
| SseReader.ReadLine | internal/app/backend.go:729-747 | the line read does not depend on where the buffer cuts it; too long a line is refused |
| SseReader.StreamOnce | internal/app/backend.go:681-727 | what is delivered, and how reading ends (the stream closes, breaks or falls idle), depends on the bytes alone, not on the buffer |
| SseReader.OtherLinesArePassedOver | internal/app/backend.go:705-719 | a line that is neither empty nor data changes nothing |
| SseReader.DataLinesJoin | internal/app/backend.go:705-714 | the trimmed text of a data line is pending, after a line feed when something was, unless that exceeds the limit |
| SseReader.SeveralLinesAreOneEvent | internal/app/backend.go:705-714 | an event written over several data lines is their texts joined by line feeds |
| SseReader.EmptyLinesDeliver | internal/app/backend.go:646-704 | an empty line delivers what is pending, unless that is nothing, `[DONE]` or not JSON; a finished or failed response ends the reading |
| SseReader.CutOffLinesCount | internal/app/backend.go:716-727 | at the end of the file, a data line without an end still counts and its event is delivered |
| SseReader.PendingCountsAtTheEnd | internal/app/backend.go:716-727 | and so is an event that is pending there |
| SseReader.CrlfReadsAsLf | internal/app/backend.go:743-745 | a stream with CRLF line ends reads as the same stream with LF |
| SseReader.WhiteSpaceIsTrimmed | internal/app/backend.go:706 | what is trimmed off a payload is exactly Unicode white space in UTF-8 (section 3 of RFC 3629) |
| SseReader.EndingsTell | internal/app/backend.go:682-727 | only an idle transport times out, only a broken one fails, only one that ended closes |
| SseReader.SmallStreamsFit | internal/app/backend.go:705-714 | a stream within the limit never exceeds it |
| SseReader.EventsFit | internal/app/backend.go:705-714 | no event exceeds the size limit |
| SseReader.AttemptsEndOnce | internal/app/backend.go:646-727 | a finishing event is the last one; a clean end means a terminal event was delivered, a closed or failed stream that none was |
| SseReader.PrintedEventsReadBack | internal/app/server.go:1207-1210 | reading printed frames gives back the printed payloads in order, through the first finishing one |
| SseReader.DoneIsIgnored | internal/app/backend.go:653-655 | a `[DONE]` frame anywhere among printed frames changes nothing |
| RetryStream.ParseRetryAfter | internal/app/backend.go:157-165 | accepted advice is never negative, and accepted seconds fit a 64-bit nanosecond count |
| RetryStream.RetryDelay | internal/app/backend.go:559-587 | which failures are retried; advice is obeyed up to 30 s; for every base delay, a computed delay is within 0.9 and 1.1 of its shifted base, and positive exactly when that is at least 2 ns, or 1 ns and rounded up |
| RetryStream.QuietFailuresAreRetried | internal/app/backend.go:559-583 | with retries left and nothing shown, an attempt is tried again exactly for: a 429 called a rate limit, or with advice and no code; an overload with advice; another 5xx but 504; and never against advice beyond 30 s |
| RetryStream.BrokenStreamsAreRetried | internal/app/backend.go:682-726 | a stream that closes or breaks before it shows anything is tried again, a stalled or oversized one is not |
| RetryStream.ShownIsKept | internal/app/backend.go:480-506 | an attempt that showed a response or its output is not tried again |
| RetryStream.FittingBasesGrow | internal/app/backend.go:584-586 | a positive base that fits the largest shift is doubled per attempt up to the cap, and never cut below itself |
| RetryStream.ShippedBaseGrows | internal/app/backend.go:41-45 | which the 200 ms the program comes with does: it is doubled at each of seven retries, then capped at 30 s |
| RetryStream.RunAttempt | internal/app/backend.go:466-506 | an attempt is delivered whole and in order or not at all |
| RetryStream.StreamWithRetries | internal/app/backend.go:465-531 | at most max+1 attempts, all but the last abandoned; the client gets the last one's events only, in order, and nothing after a finishing one; no error means a whole attempt with its terminal event; waiting is bounded |
| RetryStream.FirstShownDecides | internal/app/backend.go:480-506 | an attempt is delivered exactly when its first event that is not kept back is anything but a failure worth retrying |
| RetryStream.AttemptsAreValid | internal/app/backend.go:589-727 | whatever the upstream sends, the reader makes attempts of the shape the retry loop relies on |
| RetryStream.StreamUpstream | internal/app/backend.go:465-727 | the same from the bytes on: whatever the upstream sends in each attempt, the client gets events of one attempt only, nothing after a finishing one, and no error only with a terminal event |
| Scheduling.ChoiceIsSound | internal/app/accounts.go:328-378 | a ready account is chosen by its pin, then by preference if that is at most two requests busier than any other, and otherwise none has less in flight, or as much and every usage window below one of its own, or as much of both and was used earlier; a cooling one only when none is ready, and then one that recovers first; a missed pin is reported |
| Scheduling.StickinessKeepsBalance | internal/app/accounts.go:362-377 | from zero load, preferences never spread the load by more than `stickySlack` + 1, over any run |
| Scheduling.TurnIsARequest | internal/app/accounts.go:302-304 | choosing, claiming and releasing an account leaves only its time of use changed |
| Scheduling.RotationTracksUse | internal/app/accounts.go:380-388 | sequential requests over evenly loaded accounts never repeat one while another is unused |
| Scheduling.RequestsRotate | internal/app/accounts.go:380-388 | any n consecutive sequential requests over n such accounts use each exactly once |
| PoolRuns.ClaimIsAStickyTurn | internal/app/accounts.go:362-377 | a logged claim without reasoning, while an account is ready, is a sticky turn of the ready accounts |
| PoolRuns.ClaimAndReleaseIsATurn | internal/app/accounts.go:302-304 | a logged claim without hints, once released, is a turn of the ready accounts |
| PoolRuns.SequentialRequests | internal/app/accounts.go:286-326 | any number of sequential requests over the pool chooses the accounts of the sequential run of its ready accounts, and leaves the pool as that run does |
| PoolRuns.EveryAccountOnce | internal/app/accounts.go:380-388 | n sequential requests over the n ready accounts of an even pool use each exactly once |
| PoolRuns.StickyRequests | internal/app/accounts.go:286-326 | any run of requests with cache keys that keep their leases takes the pool through the sticky run of its ready accounts; each prefers nothing or the account last remembered for its key, and always the latter while the table has room |
| PoolRuns.RepeatedKeysReturn | internal/app/accounts.go:362-377 | in such a run, a repeated key returns to the account of its latest request, while that is ready and affordable |
| PoolRuns.StickyRequestsStayBalanced | internal/app/accounts.go:362-377 | from an idle pool, whatever such requests prefer, the loads stay within `stickySlack` + 1 of each other |
| AccountOrder.ListingIsUnique | internal/app/accounts.go:199-211 | a set of ids has one listing, so the choice among equals is determined |
| AccountOrder.Listing | internal/app/accounts.go:199-211 | the listing has the default account first and the others by id |
| AccountOrder.LessMeans | internal/app/accounts.go:199-211 | ids compare by the first place where they differ, and a beginning comes first |
| AccountPool.PruningHidesNothing | internal/app/accounts.go:422-432 | dropping dead affinities changes no lookup |
| AccountPool.ChoiceIsEligible | internal/app/accounts.go:328-378 | an account is chosen unless all are excluded or disabled, and never such a one |
| AccountPool.ScheduledMeans | internal/app/accounts.go:328-388 | a logged claim, on all it read: the home if ready; else, without one, the preferred account if affordable; else the first in the listing that no ready one is better than; and with none ready the first to recover |
| AccountPool.FirstHitMeans | internal/app/accounts.go:341-347 | the home is that of the first key remembered within six hours for an account still there |
| AccountPool.LeastLoaded | internal/app/accounts.go:362-367 | the first account that no other beats, by requests, usage and time of use |
| AccountPool.EarliestToRecover | internal/app/accounts.go:355-360 | the first account that recovers earliest |
| AccountPool.GrantBalances | internal/app/accounts.go:302-320 | turning a claim into a lease keeps every object's total |
| AccountPool.Pool.LiftCooldowns | internal/app/accounts.go:177-181 | exactly the accounts in the pool whose file changed since they were cooled lose their cooldown |
| AccountPool.Pool.RenewedMeans | internal/app/accounts.go:177-181 | a file counts as changed exactly when its stamp, or that it is missing, differs from the one it was cooled with |
| AccountPool.Pool.Rescan | internal/app/accounts.go:152-183 | the ids are those on disk; a present account keeps its object, a returning one gets a new one; exactly the renewed logins lose their cooldown; every load stays balanced |
| AccountPool.Pool.LookUp | internal/app/accounts.go:422-432 | a hit is the account of the last thing remembered for the key, within the time to live, still in the pool |
| AccountPool.Pool.MakeRoom | internal/app/accounts.go:438-454 | a full table loses exactly what has expired, and half of it when nothing has; any other keeps everything |
| AccountPool.Pool.Remember | internal/app/accounts.go:434-456 | the key is remembered and logged; other keys keep their entry or lose it, and none does within its time unless the table is full of such |
| AccountPool.Pool.FindPin | internal/app/accounts.go:341-347 | the first reasoning key with a live affinity decides |
| AccountPool.Pool.ChooseAccount | internal/app/accounts.go:328-378 | the decision of the scheduler on the pool's accounts in listing order |
| AccountPool.Pool.Claim | internal/app/accounts.go:289-305 | the scheduler's choice among the pool's accounts in listing order, on the affinities of that moment, is claimed, marked as missed exactly when the home of its first live reasoning key is another; nothing else about the accounts changes, and the decision is logged; none means every id is excluded or disabled |
| AccountPool.Pool.Unclaim | internal/app/accounts.go:309-314 | a failed borrow gives back the claim and the served count |
| AccountPool.Pool.Grant | internal/app/accounts.go:320-324 | a claim becomes a lease on the same object |
| AccountPool.Pool.Release | internal/app/accounts.go:258-264 | the load falls once, however often the lease is released |
| AccountPool.Pool.CoolDown | internal/app/accounts.go:495-506 | an account rests for the given time, at most eight days, and that is logged |
| AccountPool.Pool.SetEnabled | internal/app/accounts.go:664-691 | exactly the id's own mark changes, when it is known and could be written; enabling ends its cooldown |
| AccountPool.Pool.Remove | internal/app/accounts.go:695-726 | the id and exactly its affinities go, unless the file cannot be deleted; leases on its object stay counted |
| Cooldowns.CooldownForStatus | internal/app/accounts.go:518-551 | exactly 401 and 429 condemn an account, for the first advice there is |
| Cooldowns.AdviceInOrder | internal/app/accounts.go:526-545 | the body's seconds, its time, Retry-After, the primary and the secondary window, each when all before it are silent; else five minutes for a usage limit and one otherwise |
| Cooldowns.CooldownsLast | internal/app/accounts.go:529-534 | a refused account rests for a positive time exactly when its reset is not rounded away |
| Cooldowns.HalfASecondIsNoCooldown | internal/app/accounts.go:529-531 | half a second of advice gives no cooldown |
| OtherRequests.Others | internal/app/accounts.go:286-326 | any run of steps of other requests, operators and rescans keeps every object's load equal to its claims and unreleased leases, and every logged claim the scheduler's choice, and leaves this request's claim, leases and log entries alone |
| Failover.HintsForPayload | internal/app/accounts.go:223-237 | the keys of the replayed reasoning, in order, and a cache key that never collides with one |
| Failover.KeysNameTheReasoning | internal/app/accounts.go:223-237 | the keys are those of exactly the encrypted reasoning items, in order |
| Failover.WithoutEncryptedReasoning | internal/app/backend.go:393-408 | the loop computes the stripped body |
| Failover.StrippingKeepsTheRest | internal/app/backend.go:393-408 | everything but encrypted reasoning is kept, in order |
| Failover.StrippedBodiesNameNoReasoning | internal/app/backend.go:393-408 | a stripped body hints at no reasoning; a body is left as it is exactly when it has none |
| Failover.RememberOutput | internal/app/accounts.go:460-467 | in the table it leaves, reasoning the account produced is at home there, until that expires or is evicted |
| Failover.SendOnAccount | internal/app/backend.go:327-356 | one send, and a second one exactly after a 401 with credentials that load again; every body is stripped exactly when the lease missed its pin |
| Failover.SendAndResend | internal/app/backend.go:294-308 | the whole input unless the pin was missed; and the stripped body after it, exactly when reasoning was sent and rejected with a 400; the answer is the one to the last body |
| Failover.TryAccount | internal/app/backend.go:281-321 | the try ends as its last answer says: the lease is kept exactly with an answer that does not condemn the account; otherwise it is given back, and the account rests when the request moves on |
| Failover.VerdictsTell | internal/app/backend.go:276-321 | a broken send, or credentials lost while sending again, end the request; credentials lost before, a 401 and a 429 move it on, with ten minutes of rest or what the 429 says; any other answer is the client's |
| Failover.Acquire | internal/app/accounts.go:286-326 | it ends; each account is borrowed at most once, each time a logged choice of the scheduler for these hints, barred from nothing but the accounts tried before and those switched off; the lease is marked exactly when the home that its logged claim found is another account, and its account is remembered for the cache key; without a lease every account is excluded or disabled |
| Failover.DoAuthenticated | internal/app/backend.go:265-323 | it ends; its log is its tries: each claim the scheduler's choice for the input's hints among all accounts but those tried before and those switched off, each borrowed account remembered for the cache key, each account left after a send given its rest; each account is tried at most once, and sent to again exactly after a 401 that reloads and, without the reasoning, when that was rejected; encrypted reasoning is sent only where the claim found no other home for its first live key; the outcome is the last try's answer or error, or the last refusal once every enabled account was tried; exactly the answered request is left with a lease |
| Failover.StreamRequest | internal/app/backend.go:609-638 | closing the body gives back the one lease there is, whatever others do |
| WebSockets.Server.AcquireRequest | internal/app/server.go:314-329 | with slots, a request is refused exactly when it is already over or every slot is taken; slots never exceed the cap |
| WebSockets.Server.Track | internal/app/websocket.go:381-394 | nothing is added to a closing server; the wait group counts the tracked sockets |
| WebSockets.Server.Untrack | internal/app/websocket.go:395-400 | the socket goes and the wait group follows |
| WebSockets.Server.BeginClose | internal/app/websocket.go:412-417 | every tracked socket is told to stop |
| WebSockets.Server.Abort | internal/app/websocket.go:430-437 | every tracked socket is told to abort |
| WebSockets.OtherHandlers | internal/app/websocket.go:133-216 | in every interleaving the wait group equals the tracked sockets, and a closing server only loses sockets |
| WebSockets.DialWebSocket | internal/app/websocket.go:28-66 | it ends; its log is its tries: each account is claimed at most once, as the scheduler chooses among those not tried and not switched off, dialled again exactly after a 401 that reloads, and rests when it refuses; a refusal means every enabled account was tried; a lease is held exactly when connected |
| WebSockets.WebsocketResponse | internal/app/websocket.go:133-216 | on every path the slot, the lease and the tracking are given back |
| WebSockets.CloseWebSocketsContext | internal/app/websocket.go:411-427 | without an error no socket is left, with one every socket left was told to abort |
| InputItems.NormalizeResponseInput | internal/app/compat.go:81-103 | each form of input becomes its list of items |
| InputItems.CallsNormalized | internal/app/compat.go:124-130 | a replayed call has no own id and status, its call id or else its own, and `{}` for missing arguments |
| InputItems.ResultsNormalized | internal/app/compat.go:131-136 | a replayed result likewise, and `unknown` for a missing call id |
| InputItems.OthersNormalized | internal/app/compat.go:105-123 | reasoning goes exactly when it is not encrypted; an assistant message becomes its text; all else stays |
| InputItems.ListsNormalized | internal/app/compat.go:87-94 | a list is normalized value by value, in order; values that are not objects stay |
| InputItems.ResponseContext | internal/app/compat.go:479-496 | a response contributes its normalized items, or its text when none is left |
| InputItems.ContextsMean | internal/app/compat.go:479-496 | the objects that are left, or else the text as the assistant's, or nothing |
| InputItems.ReplayedOutputs | internal/app/compat.go:479-496 | the remembered context is the output read as input, exactly when the output can be replayed |
| InputItems.PlainValuesAreForgotten | internal/app/compat.go:479-496 | an output value that is not an object is remembered as nothing |
| InputItems.TextsStandInForItems | internal/app/compat.go:479-496 | an output with text and no items is remembered as a message |
| InputItems.NormalizingSettles | internal/app/compat.go:105-139 | normalizing again changes nothing, exactly unless a call has an empty id and no call id |
| Stores.CutOut | internal/app/store.go:38-43 | cutting an id out of the slice removes it and nothing else |
| Stores.Evict | internal/app/store.go:48-51 | the last ids stay, with exactly their values |
| Stores.ResponseStore.Remember | internal/app/store.go:31-52 | the id moves to the end, the earliest give way, order and values agree |
| Stores.ResponseStore.Delete | internal/app/store.go:53-67 | exactly that id goes from both |
| Stores.ResponseStore.Cancel | internal/app/store.go:68-76 | only the status changes |
| Stores.ChatStore.Remember | internal/app/store.go:104-129 | a known id keeps its place, a new one is last, the earliest give way |
| Stores.ChatStore.Update | internal/app/store.go:130-140 | only the metadata changes |
| Stores.ChatStore.Delete | internal/app/store.go:141-155 | exactly that id goes from both |
| Stores.ChatStore.List | internal/app/store.go:156-194 | the page after the cursor of the matching chats, in either order |
| Stores.FiltersMean | internal/app/store.go:172-188 | a chat is listed exactly when it is of the model asked for and has every metadata value asked for, or lacks one that was asked to be empty |
| Stores.WalkChats | internal/app/store.go:156-194 | following the cursor ends with every matching chat once, in order or in reverse |
| Stores.LatestOrderIsByLastUse | internal/app/store.go:37-45 | the order of a store is the order of latest remember |
| Stores.StoreKeepsTheLatest | internal/app/store.go:31-52 | after a run of remembers: exactly the last `max` distinct ids by latest remember, with their latest values |
| Stores.RememberAll | internal/app/store.go:31-52 | remembering any run of responses leaves an empty store in the state these results are about |
| Stores.ChatStoreKeepsTheLastInserted | internal/app/store.go:121-128 | after a run of remembers: exactly the last `max` insertions, with their latest values |
| Stores.RememberAllChats | internal/app/store.go:104-129 | the same for chats |
| Stores.ReuseRefreshesResponsesOnly | internal/app/store.go:121-123 | remembering an id again saves it from eviction in one store and not in the other |
| Conversation.Conversations.Create | internal/app/server.go:349-391 | whatever others store, delete or cancel while Codex answers, the input sent is all the conversation said, however many of its responses are gone, and then the turn's own; the answer is stored last, with that input |
| Conversation.ChainingIsReplaying | internal/app/server.go:361-369 | for a conversation of any length, continuing by id is sending the whole history, exactly when every earlier answer can be replayed |
| CursorPages.ReverseInPlace | internal/app/server.go:1249-1253 | the swaps reverse the list |
| CursorPages.Paginate | internal/app/server.go:1254-1272 | the page after the cursor, and whether there is more |
| CursorPages.PagesFit | internal/app/server.go:1265-1270 | a page begins what is left, holds at most `limit`, and is all of it unless there is more |
| CursorPages.RestMeans | internal/app/server.go:1258-1264 | what is left follows the cursor |
| CursorPages.NextPageContinues | internal/app/server.go:1258-1271 | the page after `last_id` starts where the full page stopped |
| CursorPages.Walk | internal/app/server.go:1254-1280 | the pages add up to every row after the cursor, once and in order |
| CursorPages.DescendingIsTheReverse | internal/app/server.go:1255-1257 | the descending list is the exact reverse |
| LegacyCalls.TranslateMessages | internal/app/compat.go:159-200 | the loop computes the input items and instructions |
| LegacyCalls.MessagesMean | internal/app/compat.go:161-198 | what each message adds: words as their speaker's item, then the legacy call, then the tool calls; instructions apart |
| LegacyCalls.ToolCallsJoin | internal/app/compat.go:189-195 | tool calls are added one by one, in order |
| LegacyCalls.LegacyIdsDiffer | internal/app/compat.go:186 | different numbers give different ids |
| LegacyCalls.CallIsPlaced | internal/app/compat.go:184-189 | each legacy call is in the input under the id counted up for it |
| LegacyCalls.CallIdsAreDistinct | internal/app/compat.go:184-189 | generated ids are distinct, in order |
| LegacyCalls.ResultsFollowTheirCalls | internal/app/compat.go:172-177 | a result whose key names an earlier legacy call gets the id of the latest one, which stands before it; any other keeps its own |
| LegacyCalls.CallsStayNextToTheirResults | internal/app/compat.go:178-189 | a call is next to a result that answers it at once |
| CredentialCache.AuthProvider.Borrow | internal/app/auth.go:84-152 | a file that cannot be inspected is an error, cached or not; a hit lends the cached login, a miss what reading the file gives, and caches it |
| CredentialCache.GoodLoginsAreLent | internal/app/auth.go:110-150 | a token that says nothing of its end, or has more than 30 seconds left, is lent as it is |
| CredentialCache.RunOutLoginsAreRefreshed | internal/app/auth.go:114-148 | one that has not is refreshed: the login saved and lent has the new tokens, and the old ones where there are no new |
| CredentialCache.WhyBorrowsFail | internal/app/auth.go:84-142 | which failure is reported in every other case |
| CredentialCache.AuthProvider.Reload | internal/app/auth.go:167-172 | the cache is dropped, others may borrow, invalidate or write, and then it is borrowed: the state and answer of that run |
| CredentialCache.ReloadReadsTheFile | internal/app/auth.go:167-172 | whatever the cache held and others do, a reload answers what reading the file answered at a borrow since the invalidation, its own or another |
| CredentialCache.CacheIsCoherent | internal/app/auth.go:84-152 | when equal stamps mean equal contents, every borrow of every run of harmless calls, disturbed by other writers or not, answers what reading the file would |
| CredentialCache.NoExpiredTokenIsLent | internal/app/auth.go:92-150 | on any run, disturbed or not, a token with less than 30 seconds left is not lent, unless the refresh endpoint just handed it out |
| CredentialCache.BorrowAfterInvalidate | internal/app/auth.go:75-82 | without that assumption, the next borrow after an invalidation does |
| CredentialCache.DisturbedFills | internal/app/auth.go:134-150 | with other writers in the middle, a call caches what is sound exactly when the file whose stamp was taken holds the login lent: then it is harmless |
| CredentialCache.HitsAgree | internal/app/auth.go:84-94 | a hit answers what the file would while that can be read and still holds the login; with nobody else writing, exactly while it can be read |
| CredentialCache.UndisturbedIsHarmless | internal/app/auth.go:84-152 | calls on a readable file that nobody else touches are harmless |
| CredentialCache.UnreadableFileIsMissed | internal/app/auth.go:92-97 | a cached login is lent on while its file cannot be read |
| CredentialCache.LoginWrittenDuringRefreshIsMissed | internal/app/auth.go:138-150 | a login written over a refreshed one before its stamp is read is not noticed |

## Left out

- HTTP, TLS, WebSocket frames, multipart bodies, the OAuth call and JSON encoding: their outcomes are parameters.
- The operator console, device login, configuration, process control, redaction, images, token estimates, headers: single checks or field copying.
- The names, ids, times, model and usage numbers of chat chunks, and storing a streamed completion: fields that are copied.
- Other functions of `chatToResponse` than the message loop: they copy or rename fields.
- SseReader.StreamOnce: an idle timeout in the middle of a line that is already too long is reported as the line.
- RetryStream.RetryDelay: a date is turned into advice once, when the failure is reported.
- ChatRefinement.StreamingRefinesCollecting: arguments are strings; other JSON values in `arguments` are read as text by both endpoints.
- ChatStream.ChatStreamer.HandleCallDone: the log line for arguments that differ is not modelled.
- AccountPool.Pool.Claim: error texts, `lastError` and `coolReason` are not modelled; usage percentages are reals, without NaN.
- Cooldowns.CooldownForStatus: overflow of huge reset values is not modelled.
- Failover.DoAuthenticated: requests without reasoning (models, audio) are the case of an empty input.
- WebSockets.DialWebSocket: a handshake that is answered 101 and still fails counts as broken, without its usage headers.
- WebSockets.WebsocketResponse: the relays and their close codes are not modelled, only that they end.
- InputItems.NormalizeResponseInput: fields that are copied unchanged are not modelled.
- LegacyCalls.TranslateMessages: ids that are not strings are not modelled.
