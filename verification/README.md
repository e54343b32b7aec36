# Fleet hub and command line: verified models

A Dafny model of the parts of the fleet hub and its command-line tools where the behaviour
is a protocol, a transformation or an algorithm, and proofs about every run, every input or
every interleaving of them. `dafny verify dfyconfig.toml` checks everything.

## What is modelled

**The relay queue** (`Relay*.dfy`). `RelayModel` is a state machine whose steps are the single
SQL statements of the queue, so calls interleave between their statements: an admission is a
check step and an insert step, the sweep expires rows and leaves answers to be admitted one by
one. Instants are microseconds, as the database has them; durations are milliseconds.
`RelayStatements` says in terms of the columns what each statement does to each row;
`RelayInvariants`, `RelayDelivery`, `RelayCaps`, `RelayFailures`, `RelayAnswers` and `RelayIsolation`
prove facts about every run; the two `Witness` modules hold runs that reach a bound or miss a promise.
`RelayService` has the same functions as methods of a class over the table, and
`RelaySequential` shows that uninterrupted calls are runs of the machine.

**The hub's routes** (`Hub*.dfy`). `HubModel` adds presence, membership, revocation and handlers
in progress (announce, heartbeat, submit, stream, acknowledge), one step per statement, and drives
the relay with the relay's own steps. `HubHosting` proves who can see and retire what in every
interleaving; `HubContents` proves that what is stored and streamed is what was posted; `HubRelay` carries the relay's laws over to the routes; `HubAnnounce` says exactly what
concurrent announces leave behind and `HubRacing` shows two that defeat each other; `HubService` is
the handlers as methods, and `HubSequential` shows that they are runs of the hub.

**Tokens** (`Jwt`, `Token*.dfy`). Base64url and JWT text; a machine of issuing, rotating, revoking
and sweeping, with expiry in whole seconds and revocation rows in milliseconds (`TokenLifecycle` on
one token's future, `TokenCounting` on how many a member has); the same as methods.

**Conditional blocks** (`ConditionalBlocks.dfy`). The one-pass stack resolver of agent files, the
block trees its input stands for, a parser and a printer.

**Archives** (`Tar.dfy`, `Zip.dfy`, on `Bytes.dfy`). The single-file readers over byte buffers, and
printers they undo. A read past the end of the buffer is an explicit failure.

**Child environments** (`ChildEnv*.dfy`). PATH merging and deduplication, eviction under the cap
with its running size, the report, and the GOMAXPROCS default applied afterwards; `ChildEnvNames` says
letter by letter which names and entries are meant, `ChildEnvOrder` what becomes of ties.

**Smaller cores**: the chunk splitter and the tailing log reader (`Transcript.dfy`), the
fixed-window rate limiter (`RateLimit.dfy`), the shell quoting of a printed command line
(`ShellQuote.dfy`). `Util.dfy` and `Text.dfy` hold shared functions.

Each method is proved equal to a function of its inputs or of the old state, and the properties
are proved of those functions. Clock readings, fresh identifiers, the keyed hash and JSON, inflation,
and the order in which `UPDATE ... RETURNING` yields rows are parameters or left open.

## Where the code and its promises differ

The models follow the code. These promises hold only under a condition, which is proved exact or
shown necessary by a concrete run:

- The queue depth cap of 1000 and byte cap hold with one admission in flight per inbox. With K in
  flight the bounds are 1000 + K - 1 rows and K times the byte cap, and for every K runs reach
  them (`CapIsReached`, `ByteCapIsReached`).
- Retrying a live envelope is refused exactly when the inbox is already over a cap
  (`RetryRefusedIff`), which two admissions in flight can bring about (`RetryCanBeRefused`).
- "A caller gets a definite answer": once nothing is under way, an expired request is left without
  its answer exactly when a caller's envelope holds the key `<id>.ttl-failed` in the originator's
  inbox, or each time the sweep tried that key it found the inbox full (`AnswerMissingIff`; a run of
  the first kind is `SquattedKey`). Two expired requests share one answer when workspace, originator
  and envelope id agree, so one id sent to two targets is answered once (`SharedAnswer`, `SharedKey`).
- A full announce leaves exactly its snapshot if and only if every unnamed row another handler has
  put since the delete was cleared again and every named row another announce has cleared was put
  again (`SnapshotIff`). Two racing announces can leave a view neither of them named
  (`RacingAnnouncesMerge`).
- A rotated token is rejected for good exactly when its revocation row is stamped in a later whole
  second than its issuance (`RotatedOutIff`). Rotated within the same second, it is accepted again
  in the last second of its life once the sweep has run (`SameSecondRotationRevives`).
- "A member has at most one accepted token": in every interleaving, once no call for the member is
  under way, its accepted tokens are exactly those that no rotation has ever read
  (`AcceptedIffUnread`), so it has at most one if and only if at most one was never read
  (`AtMostOneIff`), and its current token is the only one if and only if every other was read, that
  is, none was overwritten in the members table before a rotation had read it (`OnlyCurrentIff`).
  These count every unexpired token if rotations come in later seconds than the issuances they undo,
  and otherwise every token before the last second of its life. Calls one after the other keep the
  condition (`AtMostOneAccepted`); two rotations that read the same token break it
  (`ConcurrentRotationsLeaveTwo`).
- An operator's GOMAXPROCS is honoured, neither overwritten nor duplicated, exactly when the first
  variable of that name in any spelling is not empty (or some variable is exactly GOMAXPROCS=1, so
  that the default adds nothing): `HonouredIff`. After an empty one, the spelling GOMAXPROCS is overwritten (`OperatorValueLost`) and
  any other is left with the default beside it (`OperatorValueDuplicated`).
- Tailing from the end of a log continues the skipped lines exactly when the log ended at a line
  boundary then, or no line was completed since (`PollsContinueIff`).
- A closing connection costs a stream's running poll one batch at most (`PollLoses`); the rows of
  that batch stay marked as delivered until the acknowledgement timeout.
- The zip reader finds the end record exactly when no later offset reads as its signature
  (`SearchExactIff`); a comment that ends like an empty archive hides every member
  (`CommentHidesMembers`).
- The rate limiter's bound for an interval of one window length is 199, one less than twice the
  maximum (`AcceptedInInterval`), and a trace reaches it (`BoundIsReached`).

## Model

| member | source | states |
|---|---|---|
| RelayInvariants.InvStep | src/hub-service/relay-queue.ts:61-240 | every statement keeps: ids increase, keys are unique, stored instants fit the status |
| RelayInvariants.ReachableInv | src/hub-service/relay-queue.ts:61-240 | so every reachable table has these properties |
| RelayInvariants.LifeCycle | src/hub-service/relay-queue.ts:129-240 | between any two instants of a run no row is lost or rewritten, its status moves only along pending, delivered, acked or expired, and terminal rows never change |
| RelayStatements.SweepExact | src/hub-service/relay-queue.ts:173-182 | for every row: it is expired if and only if it was pending or delivered and its creation plus its time to live is not later than now; otherwise it is unchanged |
| RelayStatements.AckExact | src/hub-service/relay-queue.ts:155-168 | for every row: it is retired now if and only if it was pending or delivered and its workspace, target and envelope id are the given ones; otherwise it is unchanged |
| RelayStatements.FetchExact | src/hub-service/relay-queue.ts:135-147 | for every row: it is stamped now if and only if it is in the inbox, unexpired, and pending or handed out at least the timeout ago; otherwise it is unchanged |
| RelayStatements.InsertExact | src/hub-service/relay-queue.ts:89-101 | one pending row with the request's columns is appended unless a row has its workspace, target and envelope id |
| RelayStatements.AnswerExact | src/hub-service/relay-queue.ts:192-237 | exactly the three request kinds with a named originator are answered, each by its own result kind and time to live |
| RelayStatements.NeverExpiredEarly | src/hub-service/relay-queue.ts:170-179 | in every reachable state nothing is expired before its time to live is over |
| RelayStatements.NothingDueAfterSweep | src/hub-service/relay-queue.ts:170-179 | after a sweep nothing pending or delivered is at or past its deadline |
| RelayStatements.FailureBytes | src/hub-service/relay-queue.ts:84-85 | a failure answer counts with the UTF-8 length of its JSON text |
| RelayDelivery.BatchSorted | src/hub-service/relay-queue.ts:129-149 | a batch is strictly increasing in id, holds only unexpired rows of the asked inbox, stamped now |
| RelayDelivery.FetchLeavesNothingOwed | src/hub-service/relay-queue.ts:129-149 | after a fetch every live unexpired row of the inbox was handed out less than the acknowledgement timeout ago |
| RelayDelivery.RedeliveryBound | src/hub-service/relay-queue.ts:104-149 | over a whole run an envelope is handed out at most ceil(ttl / ackTimeout) times, at least ackTimeout apart, never before admission nor at or after its deadline |
| RelayDelivery.NeverAfterTerminal | src/hub-service/relay-queue.ts:129-182 | nothing acknowledged or swept is ever handed out again |
| RelayDelivery.NeverAfterAck | src/hub-service/relay-queue.ts:129-168 | nothing is handed out after its acknowledgement |
| RelayDelivery.FirstDeliveryOrder | src/hub-service/relay-queue.ts:107-149 | first deliveries within an inbox follow admission order |
| RelayCaps.CapUnderConcurrency | src/hub-service/relay-queue.ts:38-95 | with at most K admissions to an inbox between check and insert, it never holds more than 1000 + K - 1 live rows nor K times the byte cap |
| RelayCaps.CapSequential | src/hub-service/relay-queue.ts:38-95 | one admission at a time keeps 1000 rows and 8 MiB |
| RelayCapsWitness.CapIsReached | src/hub-service/relay-queue.ts:77-95 | for every K a run with at most K in flight ends with exactly 1000 + K - 1 live rows |
| RelayCapsWitness.ByteCapIsReached | src/hub-service/relay-queue.ts:84-95 | and one ends with exactly K times the byte cap |
| RelayFailures.DefiniteAnswer | src/hub-service/relay-queue.ts:206-240 | in every reachable state the answer owed to an expired request is on its way, or was refused as full, or a row has its key in the originator's inbox |
| RelayFailures.RefusedOnlyWhenFull | src/hub-service/relay-queue.ts:85-87 | a refusal is recorded only by a check that found the inbox full |
| RelayFailures.AnswerRow | src/hub-service/relay-queue.ts:224-238 | inserting an answer adds one pending result of the mapped kind under `<id>.ttl-failed` that carries the request's id, or nothing if the key is taken |
| RelayFailures.SharedAnswer | src/hub-service/relay-queue.ts:227-237 | two requests share an answer if and only if workspace, originator and envelope id agree |
| RelayAnswers.UnsignedIsAnswer | src/hub-service/relay-queue.ts:224-238 | in every run fed by callers, whatever has no originator, in the table or under way, is the answer to some expired row |
| RelayAnswers.AnswerIffUnsigned | src/hub-service/relay-queue.ts:227-237 | a row under an answer's key carries the failure and the request's id if and only if no caller is its originator |
| RelayAnswers.RefusalIsTheSweeps | src/hub-service/relay-queue.ts:227-237 | a refused answer was refused by a check of the sweep's own that found the inbox full |
| RelayAnswers.AnswerMissingIff | src/hub-service/relay-queue.ts:206-240 | over every run, once nothing is under way, an expired request has no answer if and only if a caller's envelope holds the answer's key, or the sweep tried and every check of its under that key found the inbox full |
| RelayAnswers.DueIsAnswered | src/hub-service/relay-queue.ts:216-240 | every pending or delivered request owed an answer that a sweep finds past its deadline is expired from then on, its answer on its way, refused or keyed in the table, and once nothing is under way it is there unless its key was taken or every check found no room |
| RelayAnswersWitness.SquattedKey | src/hub-service/relay-queue.ts:227-237 | a run in which a caller's envelope takes the key first and the request gets no answer although nothing was refused |
| RelayAnswersWitness.SharedKey | src/hub-service/relay-queue.ts:227-237 | a run in which one id sent to two targets is answered once |
| RelayFailures.AckedNeverSwept | src/hub-service/relay-queue.ts:155-182 | an acknowledged request stays so and is never swept, so never answered |
| RelayFailures.AnswersDoNotBreed | src/hub-service/relay-queue.ts:192-240 | synthetic envelopes never outnumber the swept requests and are never owed an answer themselves |
| RelayIsolation.NonInterference | src/hub-service/relay-queue.ts:61-240 | erasing the other workspaces' steps from any run leaves a run with the same rows, refusals and delivered batches of this workspace, ids up to order |
| RelayService.RelayQueue.Enqueue | src/hub-service/relay-queue.ts:61-102 | the table and answer after an uninterrupted admission; a taken key keeps and returns the original row |
| RelayService.RelayQueue.FetchDeliverable | src/hub-service/relay-queue.ts:129-149 | stamps exactly the unexpired rows of the inbox that are pending or were handed out at least the timeout ago; whatever order they come back in, the batch is the same |
| RelayService.RelayQueue.Ack | src/hub-service/relay-queue.ts:155-168 | retires the pending or delivered row of the workspace, target and envelope id and leaves every other row as it was |
| RelayService.RelayQueue.SweepExpired | src/hub-service/relay-queue.ts:173-182 | expires exactly the pending and delivered rows at or past creation plus time to live, and counts them |
| RelayService.RelayQueue.SweepExpiredToFailures | src/hub-service/relay-queue.ts:216-240 | expires as the sweep does, then admits the owed answers in some order of the swept rows |
| RelayService.EnqueueIsRun | src/hub-service/relay-queue.ts:61-102 | an uninterrupted admission is a check and an insert of the machine |
| RelaySequential.SweepIsRun | src/hub-service/relay-queue.ts:216-240 | the whole sweep with its loop, in any order of the rows, is a run of the machine |
| RelaySequential.RetryIsNoOp | src/hub-service/relay-queue.ts:45-102 | with one admission at a time, retrying a live envelope with its payload is admitted, returns the original row and changes no row |
| RelaySequential.RetryRefusedIff | src/hub-service/relay-queue.ts:77-87 | such a retry is refused if and only if the inbox is over a cap |
| RelaySequential.RetryCanBeRefused | src/hub-service/relay-queue.ts:77-95 | a run after which a retry of a live envelope is refused |
| HubHosting.PresenceIsVouched | src/hub-service/envelope-routes.ts:90-124 | every presence row was written for a handler of that machine, opened under an accepted token, that found the member in the token's workspace |
| HubHosting.HostedMeansVouched | src/hub-service/envelope-routes.ts:95-112 | the same at every later time for a member that has ever been in the machine's view |
| HubHosting.StreamedOnlyToHost | src/hub-service/http-server.ts:242-288 | a row is stamped as delivered only by a stream opened under an accepted token of the row's workspace, one of whose own listings since showed the target in the machine's view, vouched for |
| HubHosting.BatchOnlyEntitled | src/hub-service/http-server.ts:264-280 | the same of every row of a stream's batch |
| HubHosting.AckedOnlyByHost | src/hub-service/http-server.ts:320-358 | a row is retired only by an acknowledgement of its own workspace, target and envelope id, opened under an accepted token of the workspace, whose own check showed the target in the machine's view, vouched for |
| HubHosting.AdmittedOnlyToMembers | src/hub-service/envelope-routes.ts:126-143 | admission is checked only by a handler opened under a token of the envelope's workspace that found the target there; the request names an originator |
| HubHosting.RelayDriven | src/hub-service/http-server.ts:264-358 | helper of HubRelay.RelayRunIs: a step of the routes is a step of the queue or leaves it alone |
| HubRelay.RelayRunIs | src/hub-service/http-server.ts:264-358 | the queue's part of every interleaving of the routes is a run of the queue, fed by callers that name an originator, fetching with the default timeout, and ends in the hub's queue |
| HubRelay.RelayReachable | src/hub-service/http-server.ts:242-358 | so the hub's queue is always in a reachable state |
| HubRelay.StreamedAtMost | src/hub-service/relay-queue.ts:104-149 | under the routes a row is streamed at most ceil(ttl / 10000) times, ten seconds apart, within its life |
| HubRelay.FailuresDoNotBreed | src/hub-service/relay-queue.ts:192-240 | whatever is submitted, synthetic failures never outnumber the expired requests |
| HubRelay.NoAnswerIff | src/hub-service/relay-queue.ts:206-240 | exactly when a request submitted through the routes is left without its answer |
| HubContents.StoredAsPosted | src/hub-service/envelope-routes.ts:126-143 | in every interleaving each stored row, and each admission in flight, that names an originator is an envelope posted earlier under an accepted token of its workspace: same id, kind, target, correlation, payload, time to live or its kind's default, sender or the token's subject |
| HubContents.StreamedAsPosted | src/hub-service/http-server.ts:274-278 | so is each such row of a stream's batch |
| HubContents.DefaultTtlIff | src/hub-service/envelope-routes.ts:25-36 | the kinds that are relayed and how long each lives by default |
| HubContents.AnswersLiveAsResults | src/hub-service/relay-queue.ts:198-204 | the time to live of each failure answer is the default of its result kind |
| HubAnnounce.LastTouchDecides | src/hub-service/presence.ts:22-58 | in every interleaving a row is there if and only if the last step that touched it was an upsert, or none did and it was there before |
| HubAnnounce.SnapshotIff | src/hub-service/presence.ts:37-58 | in every interleaving, after a full announce's last upsert the view is exactly the verified snapshot if and only if what others put beside it was cleared again and what they cleared of it was put again |
| HubAnnounce.AnnounceIsSnapshot | src/hub-service/presence.ts:37-58 | in particular if no other handler of the machine writes presence meanwhile |
| HubAnnounce.StaleRowsGo | src/hub-service/presence.ts:37-58 | in every interleaving a row the snapshot leaves out is gone and seen again only if written since |
| HubRacing.RacingAnnouncesMerge | src/hub-service/presence.ts:45-58 | two racing announces, of {x} and of {y}, leave the view {x, y} |
| HubService.SnapshotExact | src/hub-service/presence.ts:45-58 | a snapshot names exactly the list, each member with its last status, and leaves other machines alone |
| HubService.VerifiedNames | src/hub-service/envelope-routes.ts:106-111 | the verified list names exactly the announced members of the workspace |
| HubService.AlwaysNamed | src/hub-service/envelope-routes.ts:136-138 | helper of HubRelay.RelayRunIs: a stored envelope always names an originator and the token's workspace |
| HubService.PollScope | src/hub-service/http-server.ts:264-279 | a poll hands out only rows of the stream's workspace for the listed members |
| HubService.PollLoses | src/hub-service/http-server.ts:264-285 | what a poll stamps is what it writes and, if the connection closes, the batch of the last member it reaches |
| HubService.HubServer.Announce | src/hub-service/presence.ts:22-35 | upserts one row |
| HubService.HubServer.AnnounceSnapshot | src/hub-service/presence.ts:45-58 | the table after a full snapshot |
| HubService.HubServer.ListForMachine | src/hub-service/presence.ts:61-70 | each member in the machine's view, once |
| HubService.HubServer.HandlePresence | src/hub-service/envelope-routes.ts:90-124 | the table after an announce of the verified list or a heartbeat of a resolved member |
| HubService.HubServer.HandleRelay | src/hub-service/envelope-routes.ts:126-143 | the status of every case; an accepted envelope is stored as it was posted, pending from now, unless its key was taken |
| HubService.DepthFullIff | src/hub-service/relay-queue.ts:77-85 | the depth query refuses by count if and only if a thousand other envelopes of the inbox are pending or delivered |
| HubService.HubServer.SubmitEnvelope | src/hub-service/envelope-routes.ts:70-88 | which handler runs, with its effect, or refusal without effect; what is accepted is stored as it was posted |
| HubService.HubServer.Poll | src/hub-service/http-server.ts:264-285 | the members a poll reaches, the rows it stamps and the rows it writes, wherever the connection closes |
| HubService.HubServer.AckRoute | src/hub-service/http-server.ts:320-358 | exactly when it answers 200, 401 or 403; only 200 changes the queue, and only the pending or delivered row of the given envelope id and member |
| HubSequential.PresenceIsRun | src/hub-service/envelope-routes.ts:90-124 | an uninterrupted presence handler is a run of the hub with the same effect |
| HubSequential.RelayIsRun | src/hub-service/envelope-routes.ts:126-143 | so is a relay handler |
| HubSequential.PollIsRun | src/hub-service/http-server.ts:264-285 | so is a poll, wherever the connection closes |
| HubSequential.AckIsRun | src/hub-service/http-server.ts:320-358 | so is the ack route |
| Jwt.B64UrlRoundTrip | src/hub-service/hub-jwt.ts:67-75 | decoding undoes encoding for all bytes, padding removed and recovered (section 5 of RFC 4648) |
| Jwt.B64UrlIs | src/hub-service/hub-jwt.ts:67-70 | the text is the digits of the six-bit groups and holds no padding, plus, slash or dot |
| Jwt.B64UrlInjective | src/hub-service/hub-jwt.ts:67-70 | no two byte strings have the same text |
| Jwt.SignedVerifiesUntilExpiry | src/hub-service/hub-jwt.ts:92-129 | a signed token verifies to its claims exactly up to its expiry second, null afterwards |
| Jwt.VerifiesIff | src/hub-service/hub-jwt.ts:103-129 | a token verifies to claims if and only if it is two parts without dots and the hash over them, and the second decodes to a body with those claims and an expiry of zero or not past |
| Jwt.VerifiedIsSigned | src/hub-service/hub-jwt.ts:103-129 | whatever verifies is three parts with the matching hash over the first two and an unexpired body with those claims |
| TokenLifecycle.InvStep | src/hub-service/member-tokens.ts:29-61 | every step keeps: a revocation row outlives its token's issuance by seven days, and current tokens belong to their member |
| TokenLifecycle.RejectedForeverIff | src/hub-service/jwt-revocation.ts:17-45 | no later run accepts a token again if and only if it has expired or its row outlives its expiry second |
| TokenLifecycle.RotatedOutIff | src/hub-service/member-tokens.ts:51-58 | a rotation kills the token for good if and only if its row is stamped in a later whole second than the issuance, or the token has expired |
| TokenLifecycle.RevokedAcceptedOnlyInLastSecond | src/hub-service/jwt-revocation.ts:40-45 | in every interleaving a token once revoked is accepted again at most in the last second of its life |
| TokenCounting.AcceptedIffUnread | src/hub-service/member-tokens.ts:43-61 | in every interleaving, with no call for its member under way, an unexpired token is accepted if and only if no rotation has ever read it (before its last second, or throughout if rotations come in later seconds) |
| TokenCounting.AtMostOneIff | src/hub-service/member-tokens.ts:43-61 | so a member has at most one accepted token if and only if at most one was never read by a rotation |
| TokenCounting.CurrentIsAccepted | src/hub-service/member-tokens.ts:29-61 | in every interleaving the current token has not been read and is accepted once no call for its member is under way |
| TokenCounting.OnlyCurrentIff | src/hub-service/member-tokens.ts:29-61 | it is the only one accepted if and only if every other token was read by a rotation |
| TokenLifecycle.AtMostOneAccepted | src/hub-service/member-tokens.ts:43-61 | with calls for a member one at a time and rotations in later seconds, no member ever has two accepted tokens, not even during a call |
| TokenLifecycle.TwoAcceptedOnlyInLastSecond | src/hub-service/member-tokens.ts:43-61 | without the condition on seconds, of two accepted tokens one is in its last second |
| TokenLifecycle.SameSecondRotationRevives | src/hub-service/member-tokens.ts:51-58 | a run in which a rotated token is refused, then accepted after the sweep beside its successor |
| TokenLifecycle.ConcurrentRotationsLeaveTwo | src/hub-service/member-tokens.ts:43-61 | a run of two concurrent rotations, in a later second than the issuance, that leaves the old token dead and two accepted ones |
| TokenLifecycle.RotationIsRun | src/hub-service/member-tokens.ts:43-61 | an uninterrupted rotation is a run of the machine |
| TokenLifecycle.IssuanceIsRun | src/hub-service/member-tokens.ts:29-37 | so is an issuance |
| TokenLifecycle.AuthorizedIffAccepted | src/hub-service/http-server.ts:57-63 | the text of an issued token is authorized, with its claims, if and only if its state accepts it and its workspace is asked for |
| TokenService.AfterRotationInv | src/hub-service/member-tokens.ts:43-61 | helper of TokenService.TokenHub.RotateMemberToken: an uninterrupted rotation keeps the invariant |
| TokenService.TokenHub.Revoke | src/hub-service/jwt-revocation.ts:17-28 | inserts the row unless one exists |
| TokenService.TokenHub.SweepExpired | src/hub-service/jwt-revocation.ts:40-45 | takes the sweep step and counts the rows gone |
| TokenService.TokenHub.IssueMemberToken | src/hub-service/member-tokens.ts:29-37 | the new text and the tables after it |
| TokenService.TokenHub.RotateMemberToken | src/hub-service/member-tokens.ts:43-61 | none without effect if the member is unknown, else the new text and the tables of a whole rotation |
| TokenService.TokenHub.Authorized | src/hub-service/http-server.ts:57-63 | the verdict on a bearer token |
| ConditionalBlocks.ResolveIsMeaning | src/cli/agent-transform.ts:155-225 | one pass over the tokens evaluates the parsed block tree, and its faults are the parser's |
| ConditionalBlocks.ResolvePrinted | src/cli/agent-transform.ts:155-225 | resolving the printing of any block tree gives the tree's meaning |
| ConditionalBlocks.ResolvesIffPrinted | src/cli/agent-transform.ts:188-223 | resolution succeeds if and only if the tokens print some tree |
| ConditionalBlocks.PrintOfParse | src/cli/agent-transform.ts:178-224 | what parses is the printing of its tree |
| ConditionalBlocks.ParseOfPrint | src/cli/agent-transform.ts:178-224 | a printed tree parses back to itself |
| ConditionalBlocks.FaultsIndependent | src/cli/agent-transform.ts:188-223 | whether resolution throws, and what, does not depend on the provider |
| ConditionalBlocks.OnlyMentionedToolsMatter | src/cli/agent-transform.ts:212-213 | providers that agree on the tools named by if markers get the same text |
| ConditionalBlocks.DeclarationEquivalence | src/cli/agent-transform.ts:253-276 | a wildcard, no declaration, and one naming every supported tool mentioned resolve alike |
| ConditionalBlocks.BranchTaken | src/cli/agent-transform.ts:253-276 | a block keeps its first branch if and only if the tool is declared (or a wildcard or nothing is) and supported (or everything is); otherwise its else branch |
| ConditionalBlocks.ResolveConditionalBody | src/cli/agent-transform.ts:155-225 | the loop over text and markers computes that resolution |
| Tar.TarRoundTrip | src/cli/dolt-install.ts:163-189 | at any offset of any buffer, reading a printed archive gives the bytes of the first regular member with the wanted base name, whatever the others contain |
| Tar.TarArchive | src/cli/dolt-install.ts:163-189 | the same for members, two zero blocks and any trailer |
| Tar.RegularFileReadBack | src/cli/dolt-install.ts:174-183 | the bytes of the first member with type flag 0 or NUL and the wanted base name, or not found if there is none |
| Tar.PaddedIs | src/cli/dolt-install.ts:177 | data occupies the least number of whole 512-byte blocks that holds it |
| Tar.ParseOctalIs | src/cli/dolt-install.ts:172-173 | a size is blanks, at most one sign and octal digits up to the first byte that is none |
| Tar.CutAtFirst | src/cli/dolt-install.ts:171-172 | a field of one line is cut at its first NUL |
| Tar.CutNowhere | src/cli/dolt-install.ts:171-172 | a field that ends in a line end is not cut |
| Tar.EndsForward | src/cli/dolt-install.ts:167-186 | with size fields above -512 the loop always advances and ends |
| Tar.BackwardsIff | src/cli/dolt-install.ts:167-186 | the loop does not advance at a header if and only if the walk comes to that header, it is to be passed over and its size is -512 or less |
| Tar.ReadHeader | src/cli/dolt-install.ts:168-185 | one turn of the loop |
| Tar.NegativeSize | src/cli/dolt-install.ts:182 | helper of Tar.ReadHeader: a negative size takes nothing, or all but the tail of the buffer once the data would end before it |
| Bytes.BasenameIsTail | src/cli/dolt-install.ts:181 | the base name is the longest tail without a separator |
| Tar.ExtractSingleFile | src/cli/dolt-install.ts:163-189 | the loop computes that reading |
| Zip.ZipRoundTrip | src/cli/dolt-install.ts:104-157 | reading a printed archive behind any stub gives what the first member with the wanted base name holds |
| Zip.StoredFileReadBack | src/cli/dolt-install.ts:134-151 | the first member with the wanted base name is read back as its stored bytes with method 0 and as their inflation with method 8 |
| Zip.LookupFirst | src/cli/dolt-install.ts:144-150 | what such a member holds for every method: stored bytes, inflation, or an error |
| Zip.SignatureBytes | src/cli/dolt-install.ts:105-136 | the three signatures as bytes (sections 4.3.7, 4.3.12 and 4.3.16 of PKWARE APPNOTE.TXT) |
| Zip.Concatenated | src/cli/dolt-install.ts:104-157 | helper of Zip.ZipRoundTrip: writing the parts behind one another gives such an archive |
| Zip.SearchExactIff | src/cli/dolt-install.ts:105-115 | helper of Zip.ZipRoundTrip: the backward search ends at a true end record if and only if no later offset reads as its signature |
| Zip.CommentHidesMembers | src/cli/dolt-install.ts:105-121 | whatever members are printed, a comment that ends like an empty archive makes the reader find none |
| Zip.FindEnd | src/cli/dolt-install.ts:105-115 | the last offset that reads as the signature, or none |
| Zip.WalkDirectory | src/cli/dolt-install.ts:120-156 | the loop over the central directory |
| Zip.ExtractSingleFile | src/cli/dolt-install.ts:104-157 | the whole reading |
| ChildEnv.EnvBlockSize | src/os/child-env-bound.ts:79-83 | the block's size in UTF-16 units |
| Text.UnitsAre | src/os/child-env-bound.ts:74-78 | a text has one unit a character and one more for each beyond the basic plane |
| ChildEnv.FirstsAre | src/os/child-env-bound.ts:86-98 | the deduplicated entries are, in order, those no earlier entry equals after normalisation |
| ChildEnvNames.NormIff | src/os/child-env-bound.ts:92-93 | two entries are the same if and only if without trailing slashes they agree up to the case of letters |
| ChildEnvNames.IsPathIff | src/os/child-env-bound.ts:133 | the PATH variables are those spelled PATH in any case |
| Text.TrimIs | src/os/child-env-bound.ts:90 | trimming cuts out a stretch with no white space at its ends and nothing but white space outside it |
| Text.TrimPadded | src/os/child-env-bound.ts:90 | blanks, tabs and line ends around printing characters go |
| ChildEnv.DedupedSplit | src/os/child-env-bound.ts:86-98 | splitting a deduplicated value gives its entries back, and deduplicating again changes nothing |
| ChildEnv.DedupedShorter | src/os/child-env-bound.ts:86-98 | deduplication never lengthens a value |
| ChildEnv.DedupePathValue | src/os/child-env-bound.ts:86-98 | the loop computes the joined first entries |
| ChildEnv.MergedSmaller | src/os/child-env-bound.ts:129-146 | merging the PATH variables never enlarges the block |
| ChildEnv.MergedTwice | src/os/child-env-bound.ts:129-146 | merging again changes nothing |
| ChildEnv.BoundSize | src/os/child-env-bound.ts:149-166 | the size kept by subtraction is the recomputed one and not above the size before |
| ChildEnv.BoundFits | src/os/child-env-bound.ts:150-160 | over the cap only protected variables remain |
| ChildEnv.BoundMinimal | src/os/child-env-bound.ts:154-159 | restoring the last dropped variable would exceed the cap |
| ChildEnv.BoundLargestFirst | src/os/child-env-bound.ts:151-159 | each dropped variable is at least as large as every unprotected one kept, and they are listed largest first |
| ChildEnvOrder.TiesInOrder | src/os/child-env-bound.ts:151-159 | of the unprotected variables of one size, those dropped are the first in the environment's order |
| ChildEnv.KeptOrDropped | src/os/child-env-bound.ts:148-160 | a merged variable is kept if and only if it is not dropped, and only unprotected ones are |
| ChildEnv.BoundKeeps | src/os/child-env-bound.ts:118-173 | apart from PATH nothing is changed or invented, and protected variables stay |
| ChildEnvNames.ProtectedIff | src/os/child-env-bound.ts:44-72 | protected, letters in any case, are exactly the listed names, what begins with a listed prefix and what mentions a credential |
| ChildEnvNames.DroppedIffNotNeeded | src/os/child-env-bound.ts:150-160 | so none of these is ever dropped, and over the cap nothing else remains |
| ChildEnv.BoundIdempotent | src/os/child-env-bound.ts:118-173 | bounding a bounded environment changes and drops nothing |
| ChildEnv.BoundMonotone | src/os/child-env-bound.ts:150-160 | a larger cap's drop list is a prefix of a smaller cap's |
| ChildEnvBounding.MergePaths | src/os/child-env-bound.ts:129-146 | the merged environment and both entry counts |
| ChildEnvBounding.Evict | src/os/child-env-bound.ts:148-160 | the loop drops what the specification drops, with its running size |
| ChildEnvBounding.BoundChildEnv | src/os/child-env-bound.ts:118-173 | the bounded environment and every field of the report |
| ChildEnvBounding.DefaultGrowth | src/os/go-concurrency.ts:41-48 | the default adds at most 13 units |
| ChildEnvBounding.BoundedThenDefaulted | src/os/windows.ts:120-123 | a block within the cap stays within the cap plus 13 |
| ChildEnvBounding.CleanEnvFits | src/os/windows.ts:120-123 | with the default cap, 32767 units and at most 32780 with the default added |
| ChildEnvBounding.UntouchedIff | src/os/go-concurrency.ts:41-48 | the environment is left alone if and only if the first variable of the name, in any spelling, is there and not empty |
| ChildEnvBounding.HonouredIff | src/os/go-concurrency.ts:36-48 | if an operator gave a non-empty value, none such is overwritten and no default is written beside one if and only if that first variable is not empty, or some variable is exactly GOMAXPROCS=1 |
| ChildEnvBounding.OperatorValueKept | src/os/go-concurrency.ts:41-48 | after an empty first variable exactly the value in the default's own spelling is overwritten |
| ChildEnvBounding.OperatorValueLost | src/os/go-concurrency.ts:41-48 | an environment in which it is overwritten |
| ChildEnvBounding.OperatorValueDuplicated | src/os/go-concurrency.ts:36-48 | an environment in which the default appears beside it |
| Transcript.ChunkingIndependent | src/cli/watch.ts:505-518 | however a stream is cut, the lines and leftover are those of splitting it whole |
| Transcript.LinesAre | src/cli/watch.ts:505-509 | splitting at line ends gives the parts between line feeds, each without its one trailing carriage return, and the last part as it is |
| Transcript.Follower.ProcessRemoteChunk | src/cli/watch.ts:512-518 | what a follower has emitted are the trimmed parts between the line feeds of the whole stream so far, and what it has kept is the part behind the last one |
| Transcript.LogReader.Poll | src/cli/watch.ts:319-348 | one poll, with a file that is missing, shrunk, unreadable or grown |
| Transcript.EveryLineOnce | src/cli/watch.ts:319-348 | over any schedule of polls of an append-only file every complete line behind the start is emitted once, in order |
| Transcript.PollsContinueIff | src/cli/watch.ts:319-348 | over any schedule of polls of an append-only file, what is emitted continues the complete lines of the skipped text if and only if that text ended at a line boundary or no line was completed since |
| Transcript.SkipIsExactIff | src/cli/watch.ts:345-347 | the same of splitting two texts apart and together |
| RateLimit.RateLimiter.CheckRateLimit | src/commands/kb-server.ts:42-51 | the bucket and answer after one request |
| RateLimit.OwnBucket | src/commands/kb-server.ts:40-51 | an address's bucket is a function of its own requests |
| RateLimit.OthersDoNotMatter | src/commands/kb-server.ts:40-51 | other addresses have no influence on an answer |
| RateLimit.GrantedIff | src/commands/kb-server.ts:42-51 | a request is accepted if and only if it is among the first hundred of its window |
| RateLimit.RefusedOnlyAfterHundred | src/commands/kb-server.ts:42-51 | a refusal follows a hundred acceptances within the window length before it |
| RateLimit.AcceptedInInterval | src/commands/kb-server.ts:33-51 | no interval of a window length accepts more than 199 requests of an address |
| RateLimit.BoundIsReached | src/commands/kb-server.ts:33-51 | a trace in which 199 requests of two milliseconds are accepted |
| ShellQuote.QuotingRoundTrip | src/cli/install-guard.ts:302-326 | a POSIX shell reads the printed line back as exactly the words (section 2.2 of the Shell Command Language, IEEE Std 1003.1) |
| ShellQuote.SelfInvocationLine | src/cli/install-guard.ts:316-327 | the printed line stands for the executable, the script unless bundled, and the arguments |
| ShellQuote.BareIff | src/cli/install-guard.ts:300-304 | a word is printed as it is if and only if it is not empty and made of letters, digits and _ - . : = / + |
| ShellQuote.PrintedApart | src/cli/install-guard.ts:323-326 | no two word lists print alike |

## Left out

- RelayDelivery.RedeliveryBound: assumes fetches wait at least the given timeout; HubRelay.StreamedAtMost drops the assumption for the routes.
- RelayFailures.AnswersDoNotBreed and RelayAnswers.AnswerMissingIff: assume callers' admissions name an originator and carry posted text, which HubRelay.RelayRunIs shows of the routes.
- TokenLifecycle.AtMostOneAccepted: assumes a first issuance followed by rotations one at a time in later seconds; TokenCounting.AtMostOneIff says exactly which interleavings leave one token.
- TokenCounting.AcceptedIffUnread: while a call for the member is under way, a token it has read may still be accepted, until its revocation row is written.
- RelayService.RelayQueue.Enqueue: the payload's byte length is a number carried with it, and a payload read back from its column is taken to serialise to the same length.
- RelayModel.FailureResultKind and HubModel.DefaultTtl: hold the tables' own entries; a kind that names a property every JavaScript object inherits is treated as unknown, where the source's look-ups find the inherited property and hand it to the database driver, whose conversions are not part of this model.
- HubService.HubServer.ListForMachine: the collation order of the listed members is left open.
- HubModel.Envelope: the time to live is a whole number (a fractional one is an error of the database in the source), and from and to are objects with or without a member (a null one makes the source's handler fail, with an internal error and no effect).
- HubModel: a stream's token is checked when it opens, as in the source; revocation later does not close it.
- Jwt.SignedVerifiesUntilExpiry: assumes JSON decoding undoes encoding; what the keyed hash computes, and that it cannot be forged, is not modelled, and an expiry that is not a whole number does not occur.
- TokenModel: deleting a member is not a step (no route calls it), and identifiers are new when made.
- ConditionalBlocks.ResolveConditionalBody: the markers found in the text are given, in order and without overlap; the scanning expression is not modelled.
- Tar.ExtractSingleFile: a header with a size of -512 or less would not advance the source's loop; the model reports it as `Backwards` and does not follow it. A size that is not a number ends the loop, as its offset does in the source.
- Tar and Zip: names are compared as bytes (the source decodes them as UTF-8); gunzip is applied beforehand and inflation is a parameter.
- ChildEnvNames.ProtectedIff and ChildEnvNames.NormIff: letter case is mapped for ASCII letters only, and the separator is one character.
- ChildEnv.Env: the order of an object's entries is as given; integer-like names, which JavaScript moves to the front, are not reordered.
- Transcript.EveryLineOnce: files rewritten in place, shrunk files and multi-byte characters cut between reads are outside it.
- ShellQuote.QuotingRoundTrip: covers word splitting and quoting; assignments, reserved words and aliases at the start of a line are not interpreted. The PowerShell and cmd lines are not modelled.
- Request parsing, server-sent events, timers, the database's crashes and migrations.
- Retrying an envelope that is already acknowledged or expired.
- The text of messages, the warning line of a bounded environment, frontmatter rewriting.
- Installing, updating, services, shell command builders, providers and plain record keeping, which would only add easy members.
