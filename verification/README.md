# Verified model of the NKN SDK core

This project models, in Dafny, the parts of the NKN Go SDK that carry state,
branching or arithmetic, and proves what they keep over whole runs:

- **NanoPay** (`NanoPaySpec`, `NanoPay`, `NanoPayChecks`, `NanoPayHistory`,
  `NanoPaySettlement`, `NanoPayConservation`): the payer's channel and the claimer.
  `NanoPaySpec` says what one call does to the fields, `NanoPay` holds the two
  objects proved against it, `NanoPayChecks` says check by check what comes of a
  call, `NanoPayHistory` runs a claimer through any sequence of Claim, Flush and
  Close, and `NanoPayConservation` runs payer, network and claimer together.
- **RPC worker pool** (`RpcPool`): `RPCCall` as a transition system over the
  feeder, the workers, the mutex, the one-slot channel and cancellation.
- **Outbound pipeline** (`Batching`, `Outbound`, `Encryption`, `Pipeline`):
  payload encryption, size-bounded batches, signed metadata, writes.
- **Client lifecycle** (`Lifecycle`): connection state and stability counters.
- **Multi-client** (`Identifier`, `Policy`, `Sessions`): sub-client names, cross
  send, client selection, session demultiplexing.
- **Name resolution** (`Resolver`).

Conventions. A method holding a lock is one atomic step; where a lock is released
in between (session messages, the RPC workers) the pieces are separate steps.
Answers of the chain, of other nodes and of the network, random draws, clock
readings and Go's map iteration order are arguments, so every statement holds
for all of them. Amounts are unbounded integers; block heights are `uint32` and
wrap around. Objects that the program updates in place are classes whose methods
are proved equal to a step function; the statements over runs are about that
function. Cryptography, address parsing and marshalling are arbitrary functions;
`Encryption.Lawful` lists the laws assumed of them (opening a sealed message,
unmarshalling a marshalled one, symmetry of shared keys).

Where the code and its comments differ, the model follows the code:

- the first successful setClient already counts as a reconnection
  (`Lifecycle.FirstConnectionIsCounted`);
- `Reconnect` moves even a closed client back to Connecting
  (`Lifecycle.ClosedFieldIsNotStable`): the field stays Disconnected exactly until
  the next Reconnect or connection attempt (`Lifecycle.ClosedFieldExactly`), while
  the client is never Connected again and always reported Disconnected;
- the stable policy uses -1 for "none" although -1 is the original client's
  index. The first best client in iteration order wins; if that is the original
  client, everybody is selected (`Policy.StablePolicyExactly`);
- sending with an empty client map reports no error although nothing is sent
  (`Policy.Send`);
- a channel id that returns after being superseded is counted again
  (`NanoPaySettlement.ReturningIdIsCountedAgain`); each id is counted once exactly
  if none on which something was accepted returns
  (`NanoPaySettlement.ChannelsCountedOnce`), hence the fresh ids in the
  conservation results;
- session keys are plain concatenations, so a sender that the listener refuses can
  reach the session of an allowed one (`Sessions.TwoSendersOneSession`). A message
  carries the base address of the session it reaches exactly if its id has the size
  of the session's id (`Sessions.OwnSender`);
- a session whose creating message is not received, or finds the accept queue full,
  stays in the table and is never offered (`Sessions.OfferedExactly`);
- `RPCCall` can be left waiting for ever, exactly if there are fewer workers than
  addresses and either no worker or no dial context (`RpcPool.ReturnsExactly`);
  a concurrency of zero, which means a worker per address, never is. Without a dial
  context a call that does return reports "all rpc request failed" although no
  request was made (`RpcPool.NothingRequested`);
- a node that replies with the JSON value null makes a worker of `RPCCall` panic
  (`RpcPool.NullReplyCrashes`). A call can still return exactly if no worker has
  panicked or is bound to (`RpcPool.ReturnsUnlessDoomed`); whatever the nodes reply
  it can only if it makes no request at all (`RpcPool.ReturnsWhateverTheReplies`).

Assumptions. Requests of `RPCCall` end, with a reply or an error: the configured RPC
timeout is positive, since without one a silent node holds its worker for ever. A
Claim is one step: its checks before the lock, and a failing background flush, close
the claimer without holding the lock (nanopay.go:246, 349-376), and two of them at
once may close its channel twice, which is outside this model.

## Model

| member | source | states |
|---|---|---|
| NanoPay.PaymentChannel.IncrementAmount | nanopay.go:104-153 | new state and reply of one call for every height, id, delta, fee, build and signing outcome; a call that fails late keeps the raised amount |
| NanoPay.NanoPayClaimer.ClaimTx | nanopay.go:343-428 | state, reply and log of one Claim equal the step function, on every error path |
| NanoPay.NanoPayClaimer.ClaimVetted | nanopay.go:382-403 | the locked part: closed claimer, same channel, superseded channel with its flush |
| NanoPay.NanoPayClaimer.AdmitTx | nanopay.go:405-427 | balance and expiration checks, then acceptance |
| NanoPay.NanoPayClaimer.FlushUnlessSmall | nanopay.go:291-321 | what is submitted, and the state left by a small amount, no transaction, a failed or a successful submission |
| NanoPay.NanoPayClaimer.FlushNow | nanopay.go:323-328 | Flush as one step of the history |
| NanoPay.NanoPayClaimer.Close | nanopay.go:261-275 | Close as one step of the history |
| NanoPay.NanoPayClaimer.AmountSoFar | nanopay.go:330-336 | the reported total, which for a consistent claimer is the sum of the last accepted amounts of all its channel epochs |
| NanoPayChecks.IncrementExactly | nanopay.go:104-153 | with more than five blocks left the payer stays on its channel and adds to its amount, otherwise it opens the fresh id with the new expiration; parties, expirations and fee of the transaction; each error with its condition |
| NanoPayChecks.StaysAndAccumulates | nanopay.go:117-133 | any number of calls before the last five blocks stay on one channel, whose amount grows by exactly their increments |
| NanoPayChecks.FirstFailingCheckDecides | nanopay.go:343-428 | of the fourteen checks of a Claim the first that fails decides the error and whether the claimer closes; without one the transaction is accepted |
| NanoPayChecks.ClosesExactly | nanopay.go:343-412 | a failing Claim closes an open claimer exactly if the height was known and it was not just the balance request that failed |
| NanoPayChecks.FieldsBefore | nanopay.go:343-393 | no field changes before a superseded channel is flushed |
| NanoPayChecks.FieldsAfter | nanopay.go:389-427 | every field after it, for accepted and for refused transactions |
| NanoPayChecks.FlushExactly | nanopay.go:291-321 | when a flush submits, when it fails, and the fields it leaves |
| NanoPayChecks.ClosedExactly | nanopay.go:261-428 | over every run the claimer is closed exactly if there was a Close, or a Claim whose first failing check closes |
| NanoPayHistory.FlushKeepsConsistent | nanopay.go:291-321 | a flush keeps the invariant tying transaction, expiration, id, amount, flushed amount and the log together |
| NanoPayHistory.RollOverKeepsConsistent | nanopay.go:389-398 | superseding a channel leaves less than minFlush of it unsent, nothing if minFlush is not positive, and keeps the invariant, stale transaction included |
| NanoPayHistory.ClaimKeepsConsistent | nanopay.go:343-428 | every Claim keeps it, including those failing after the rollover |
| NanoPayHistory.RunKeepsConsistent | nanopay.go:291-428 | it holds after every sequence of Claim, Flush and Close with any outcomes |
| NanoPayHistory.ClaimFailsInPlace | nanopay.go:343-393 | a Claim failing before the rollover submits nothing and at most closes the claimer |
| NanoPaySettlement.ShortfallBound | nanopay.go:291-321 | over every run each superseded channel leaves at most max(0, minFlush - 1) unsubmitted, and k of them at most k times that |
| NanoPaySettlement.TotalIsOwed | nanopay.go:330-336 | Amount() is the sum of the last accepted amounts of all channels |
| NanoPaySettlement.StepAccounting | nanopay.go:382-427 | a successful Claim raises the total by its amount less the same channel's previous one; a failing one leaves it unchanged even after a rollover |
| NanoPaySettlement.AcceptedIsCovered | nanopay.go:359-412 | an accepted transaction names this recipient, was verified, and balance plus settled amount cover it |
| NanoPaySettlement.TotalMonotone | nanopay.go:261-289 | the total never falls along a run and is frozen once the claimer is closed |
| NanoPaySettlement.SubmissionsPerEpoch | nanopay.go:291-321 | each submission is the transaction accepted right before it, submissions of a channel strictly grow by at least minFlush, none is repeated |
| NanoPaySettlement.WindowsCompose | nanopay.go:117-133 | a transaction issued at a known height is reported expired by no claimer up to two blocks later |
| NanoPaySettlement.ExpiredExactly | nanopay.go:343-420 | refused for expiration exactly if height, validity, recipient, sender, open claimer, amount, flush and balance are all in order and an expiration is within the margin; accepted exactly if they are and none is |
| NanoPaySettlement.WindowIsTight | nanopay.go:114-133 | for every duration and height, a fresh channel opened at height h that passes the earlier checks is reported expired from height h + duration - 3 on and not before |
| NanoPaySettlement.AcceptedBeforeForceFlush | nanopay.go:414-427 | an accepted transaction has more than three blocks left, so its force-flush threshold is ahead |
| NanoPaySettlement.ChannelsCountedOnce | nanopay.go:382-427 | over every run Amount() is at least the sum in which each channel id counts once, with its last epoch, and equal to it exactly if no epoch owing anything is followed by another on the same id |
| NanoPaySettlement.ReturningIdIsCountedAgain | nanopay.go:389-403 | an example: 10 and then 12 on one returning channel are reported as 22 |
| NanoPayConservation.PayKeepsPurse | nanopay.go:117-133 | positive increments on fresh ids issue contiguous, strictly growing channels whose final amounts never exceed what was paid |
| NanoPayConservation.NextOnCurrentChannel | nanopay.go:384-388 | in-order delivery always finds a larger amount on the current channel |
| NanoPayConservation.DeliverKeepsInv | nanopay.go:343-428 | delivering any transaction with any outcome keeps payer and claimer books aligned |
| NanoPayConservation.RunKeepsInv | nanopay.go:104-428 | every joint run keeps them aligned |
| NanoPayConservation.Conservation | nanopay.go:104-428 | in every joint run the claimer's total is at most the sum of the channels' final amounts, hence of the increments, with equality to the former exactly if the last transaction of every channel was accepted |
| NanoPayConservation.ExactConservation | nanopay.go:104-428 | if every increment produced a transaction, the total equals the sum of increments exactly if the last transaction of every channel was accepted |
| NanoPayConservation.NeverInvalidAmount | nanopay.go:384-388 | no transaction delivered in such a run is refused with ErrInvalidAmount |
| NanoPayConservation.NextIsAccepted | nanopay.go:343-428 | in every joint run the next transaction is accepted if and only if the claimer is open, the chain data and validity are in order, the balance with what this channel settled covers amount and fee, the expiration is beyond the margin, and the pending submission of a superseded channel is taken |
| NanoPayConservation.AcceptedExactly | nanopay.go:343-428 | the same for any consistent claimer and any transaction of the payer with a growing amount |
| NanoPayConservation.SettledWithinPaid | nanopay.go:104-428 | in every joint run the chain takes at most what was claimed, hence what was paid; superseded channels miss at most max(0, minFlush - 1) each, and after a flush that does not fail so does the current one |
| RpcPool.StepKeepsWinner | rpc.go:187-259 | every step of every goroutine keeps the lock, slot and log invariant |
| RpcPool.SingleWinner | rpc.go:187-293 | in every interleaving at most one response is placed, a sender never finds the slot full, and a nil or error return is the reply decoded last |
| RpcPool.PlacedIsFinal | rpc.go:226-256 | after a response is placed, slot and result never change |
| RpcPool.OutcomeExactly | rpc.go:270-293 | over every run a returning call reports its caller's cancellation exactly if there was one, and otherwise nil, the node's error or "all rpc request failed" exactly by what was placed |
| RpcPool.LeavesForGood | rpc.go:201-259 | a worker that decoded a response takes no further address, nor, once the call is cancelled, does one with a request under way |
| RpcPool.MayGiveUp | rpc.go:238-256 | after a cancellation a worker may place its response or give up |
| RpcPool.ExhaustiveFailover | rpc.go:194-283 | each address is handed out at most once; "all rpc request failed" only if every address was, and then each of them failed with a dial context and none without |
| RpcPool.Progress | rpc.go:194-272 | with a worker per address, or a worker and a dial context, every reachable state before the return in which no worker panicked has an enabled step of the call itself |
| RpcPool.StepDecreases | rpc.go:194-272 | every step lowers a measure of addresses left and worker phases |
| RpcPool.Termination | rpc.go:187-272 | every run has at most 8 * addresses + workers + 3 steps, with or without a dial context and workers |
| RpcPool.Completion | rpc.go:194-272 | under the same condition every run, cancelled or not, that is neither crashed nor bound to crash can be continued until the call returns |
| RpcPool.Stuck | rpc.go:194-207 | without that condition some uncancelled run can not, whatever the nodes reply: the workers are used up and the feeder waits |
| RpcPool.ReturnsExactly | rpc.go:187-283 | as long as no node replies null, every uncancelled run can be continued until the call returns if and only if addresses do not exceed workers, or there are a dial context and a worker |
| RpcPool.NothingRequested | rpc.go:203-207 | without a dial context nothing is requested, decoded or placed, and a returning call reports "all rpc request failed" unless cancelled |
| RpcPool.CrashedExactly | rpc.go:226-237 | over every run the process crashed exactly if a null reply was decoded, and then nothing was placed and the call has not returned |
| RpcPool.NullReplyCrashes | rpc.go:219-237 | a run of five steps that crashes, for any positive numbers of addresses and workers |
| RpcPool.NullReplyDooms | rpc.go:219-237 | with one address and worker the call can not return after a null reply, before anything panicked |
| RpcPool.DoomedStays | rpc.go:213-256 | a doomed call stays doomed or crashes under every step but a cancellation by its caller |
| RpcPool.ReturnsUnlessDoomed | rpc.go:187-283 | with enough workers a run can be continued until it returns if and only if it did not crash, no worker holds the lock with a null reply it will decode, and no null reply waits for the lock without another worker that may answer first |
| RpcPool.ReturnsWhateverTheReplies | rpc.go:187-283 | with null replies allowed every uncancelled run can be continued until it returns if and only if there is no address, or no dial context and a worker per address |
| Batching.GreedyOptimal | client.go:1311-1331 | greedy cutting needs no more batches than any other cutting into consecutive batches within the limit |
| Batching.GreedyMonotone | client.go:1313-1330 | a fuller open batch costs at most one batch more |
| Outbound.NewOutboundMessage | client.go:1185-1255 | succeeds exactly if keys and addresses parse; one signature per destination over the size of what it receives |
| Outbound.AddItem | client.go:1313-1330 | one turn of the batching loop: oversize exactly for a too large item, cut on overflow, otherwise append |
| Outbound.SplitPayloads | client.go:1308-1347 | batches concatenate to the input in order, none is empty, each is within the limit and signed, and their number is greedy's |
| Outbound.Plan | client.go:1308-1348 | both branches: fails exactly if an address does not parse or something is oversized, with ErrMessageOversize if all addresses parse |
| Outbound.OversizeMeans | client.go:1314-1338 | what is refused: a payload that with its address and 64 bytes exceeds 4000000, or the one message for all that does |
| Outbound.EveryMessageFits | client.go:1311-1339 | payloads, addresses and 64 bytes per address of every message add up to at most 4000000 |
| Outbound.Connection.WriteAll | client.go:1354-1376 | one frame after the other up to the first failed marshalling or write |
| Outbound.Connection.SendTimeout | client.go:1299-1379 | all batches are formed before the first write; the frames written are the plan up to the first failed marshalling or write; only a failed write is counted, once |
| Outbound.MinimalBatches | client.go:1311-1331 | no partition of the payloads into consecutive batches within the limit is shorter |
| Outbound.MinimumIsAttained | client.go:1311-1331 | the sizes of the batches built are themselves such a partition, so their number is the minimum |
| Outbound.SignaturesMatchRouting | client.go:1223-1250 | across all batches the j-th signature covers destination j and the untruncated length of its own payload |
| Encryption.Client.GetOrComputeSharedKey | client.go:273-300 | the memo always agrees with recomputation, also for keys of a wrong size |
| Encryption.Client.SealOne | client.go:320-345 | one hybrid message for one destination, or its first error |
| Encryption.Client.EncryptHybrid | client.go:318-349 | all hybrid messages in order, or the first error |
| Encryption.Client.Encrypt | client.go:302-378 | both formats, on every error path |
| Encryption.Client.DecryptFrom | client.go:380-426 | format told apart by the encrypted key's length, nonces split at 24 bytes |
| Encryption.RoundTrip | client.go:302-426 | every destination recovers the payload from its own message in both formats |
| Encryption.EncryptionSucceeds | client.go:302-378 | encryption succeeds exactly if every destination has a usable key and the random reads succeed |
| Encryption.KeysAgree | client.go:290-293 | both ends derive the same key |
| Encryption.OpensHybrid | message.go:52-70 | concatenated nonces and the wrapped key open again |
| Encryption.WireFormat | client.go:302-378 | what each message holds: payload, nonces and wrapped key in either format |
| Encryption.EarlyErrors | client.go:302-366 | which comes first of a bad key and a failed random read |
| Encryption.FirstBadDestination | client.go:318-349 | with several destinations the first bad one decides the error |
| Encryption.DecryptsExactly | client.go:380-426 | decryption gives a payload if and only if the sender has a usable key and the message opens to it, in either format |
| Encryption.OnlyWhatOpens | message.go:62-70 | nothing but an opened payload is returned; a message that nothing opens is refused |
| Encryption.DecryptionErrors | message.go:62-70 | panic exactly on a message or nonce too short to be cut up, otherwise ErrDecryptFailed |
| Encryption.NoKeyErrors | client.go:380-400 | errors for an address that does not parse and for an unusable key |
| Pipeline.PayloadCount | client.go:1162-1183 | as many payloads as destinations if encrypted, one otherwise |
| Pipeline.EveryDestinationReads | client.go:1286-1358 | however a send is batched, each destination of each message reads exactly the payload sent, or refuses a plain one |
| Pipeline.SealedIsBuildable | client.go:1185-1255 | with one address parser, encrypted payloads fail to be put into a message only for the node's own keys |
| Pipeline.SignedForReader | client.go:1223-1250 | the public key named by a destination's signature is the one paired with its reader's secret |
| Pipeline.ReadsExactly | client.go:552-567 | what a client reads from a message, plain or encrypted, if and only if |
| Lifecycle.Client.ConnectToNode | client.go:721-744 | locked section of connecting, with the counters reset on a node change |
| Lifecycle.Client.SetClientSucceeded | client.go:473-492 | successful setClient reply |
| Lifecycle.Client.StartReconnect | client.go:903-907 | state set before the closed check |
| Lifecycle.Client.CloseClient | client.go:232-241 | closing, idempotent |
| Lifecycle.Client.RecordSendFailure | client.go:1366-1372 | failed write counted |
| Lifecycle.CountersAreExact | client.go:473-492 | over all interleavings ReconnectCount is the number of transitions into Connected, and SendFailureCount the failed writes, since the node last changed |
| Lifecycle.TimesAreExact | client.go:729-744 | ConnectTime is when the current node was first connected to, LastReconnect the last counted connection or node change |
| Lifecycle.ClosedForGood | multiclient.go:1561-1577 | once closed never Connected again and always reported Disconnected, in any sequence of events |
| Lifecycle.ClosedExactly | client.go:232-241 | closed exactly if Close was called, and what is then reported |
| Lifecycle.StateIsLastSet | client.go:473-492 | over every run the connection state is what the last Connect, Reconnect, setClient reply or Close says, the latter two only before any Close |
| Lifecycle.NodeIsLast | client.go:721-744 | the node is the one connected to last |
| Lifecycle.ClosedFieldExactly | client.go:903-907 | after the Close that closed the client the field is Disconnected exactly if no Connect and no Reconnect came since |
| Lifecycle.ClosedFieldIsNotStable | client.go:903-909 | an example: Reconnect moves a closed client's field to Connecting |
| Lifecycle.FirstConnectionIsCounted | client.go:482-490 | the first connection is counted |
| Identifier.PrintParse | multiclient.go:79-94 | parsing a printed sub-client address gives address and label back exactly for non-empty addresses |
| Identifier.AddIdentifierInjective | multiclient.go:79-84 | different ids of one address print differently, the original client included, for every address |
| Identifier.PrintedName | multiclient.go:79-84 | the exact text of a sub-client's name |
| Identifier.StripsExactly | multiclient.go:86-94 | exactly the names with digits between double underscores before the first dot are stripped |
| Identifier.AddMultiClientPrefix | multiclient.go:56-62 | prefixes each destination with one id |
| Identifier.AddMultiClientPrefixForAllSubClients | multiclient.go:66-77 | destinations times ids in order, or the destinations if there are no ids |
| Identifier.FinalDests | multiclient.go:540-572 | destinations used with and without cross send |
| Identifier.CrossSend | multiclient.go:66-77 | the expansion has destinations times ids pairwise distinct entries, each stripping back to its base |
| Identifier.CrossSendExactly | multiclient.go:546-563 | addressed are exactly the sub-clients 0 to n - 1 of every destination, and the destination itself with an original client |
| Policy.Score | multiclient.go:777-827 | scores lie between 0.3 and 0.9 |
| Policy.CalculateClientScore | multiclient.go:777-827 | the step-by-step computation, whose final clamp never applies |
| Policy.ScoreMonotone | multiclient.go:770-776 | uptime never lowers, reconnections and failures never raise the score |
| Policy.ScoreExtremes | multiclient.go:788-816 | the extremes are reached exactly by an hour of flawless uptime and by five reconnections, ten failures and no uptime |
| Policy.ScoreSteps | multiclient.go:777-827 | what each reconnection, failed send and millisecond of uptime is worth |
| Policy.EveryConnected | multiclient.go:862-879 | exactly the open connected clients, each once |
| Policy.MostStable | multiclient.go:881-905 | the first client in iteration order that no other open connected one outscores, or -1 if none is connected |
| Policy.GetClientsByPolicy | multiclient.go:830-916 | for every map iteration order, what each policy selects, the first of several candidates included: duplicate-free, existing, non-empty |
| Policy.StablePolicyExactly | multiclient.go:906-911 | the first best client is selected exactly if it is a sub-client or the only client; if it is the original client, everybody is |
| Policy.SelectsUsable | multiclient.go:845-912 | while some client is open and connected, the policies select only such, the stable one up to the original client |
| Policy.Send | multiclient.go:918-954 | success and fail are never both signalled; nil exactly if some selected client's send succeeded or there is no client |
| Sessions.SessionTable.LookupOrCreate | multiclient.go:1032-1052 | locked half of a session message; a session is created only for an allowed address |
| Sessions.SessionTable.ReceiveAndOffer | multiclient.go:1054-1068 | unlocked half; only the creating message offers the session |
| Sessions.SessionTable.DialInsert | multiclient.go:1118-1130 | table insert of a dial |
| Sessions.SessionTable.AcceptOne | multiclient.go:1150-1161 | takes the oldest offered session |
| Sessions.SameSessionIffSameKey | multiclient.go:1032-1052 | in every interleaving two messages reach the same session exactly if their keys agree |
| Sessions.Demultiplexing | multiclient.go:1032-1052 | exactly if base address and session id agree or one base is the other extended by the surplus of the longer id; the latter never for ids of one size |
| Sessions.AnswersReachDialer | multiclient.go:1118-1130 | an answer reaches the dialed session exactly under that condition; with the dialed id's size, exactly if id and base address are those dialed |
| Sessions.AnySubClient | multiclient.go:1033-1034 | every sub-client of a base address strips to it |
| Sessions.KeysMeet | util.go:393-395 | exactly when two session keys agree, for ids of any sizes |
| Sessions.TwoSendersOneSession | multiclient.go:1032-1052 | the clients p and p.q, for any two hexadecimal public keys, reach one session with ids ".q" + x and x, even if the second is not allowed a session |
| Sessions.OfferedAtMostOnce | multiclient.go:1054-1068 | a session enters the accept queue at most once, a dialed one never, and the queue stays within 128 and is served in order |
| Sessions.OfferedExactly | multiclient.go:1054-1068 | over every run a session is offered exactly if its creating message was received while the queue had room, whatever follows |
| Sessions.OfferedOnlyThen | multiclient.go:1054-1068 | an offered session was offered by the message that created it |
| Sessions.StaysInTable | multiclient.go:1037-1052 | offered or not, a created session stays in the table |
| Sessions.InboundWasLetIn | multiclient.go:1023-1052 | over every run each session in the table that was not dialed, and each offered one, goes back to an allowed message from its base address with its id |
| Sessions.OwnSender | multiclient.go:1032-1052 | an answered message has its session's base address exactly if its id has the size of the session's; then its address was let in unless the session was dialed |
| Sessions.RefusedExactly | multiclient.go:1037-1051 | over every run a message is refused exactly if nothing before introduced its key and it is not allowed or the session cannot be made, and creates the session exactly if nothing before did |
| Sessions.NothingLost | multiclient.go:1032-1068 | every answered message is handed over or still pending |
| Sessions.ServedInOrder | multiclient.go:1150-1161 | over every run the queue is what was offered less one session per successful Accept, oldest first |
| Resolver.ResolveDest | resolver.go:15-29 | the first resolver that fails or answers decides |
| Resolver.FirstAnswerDecides | resolver.go:15-29 | the first resolver that does not decline decides, failures included |
| Resolver.ResolveDestN | resolver.go:31-43 | the first iterate that no resolver maps, the first failure, or the limit |
| Resolver.LimitExactly | resolver.go:31-43 | each of the three outcomes with its exact condition on the iterates |
| Resolver.CycleIsLimit | resolver.go:31-43 | names that come round again are reported as the limit at every depth |
| Resolver.DepthOnlyExtends | resolver.go:31-43 | a larger depth never changes a successful answer |
| Resolver.ResultIsFixpoint | resolver.go:31-43 | an answer resolves to itself |
| Resolver.ResolveDests | resolver.go:45-62 | the order-preserving filter of the per-name successes |
| Resolver.SuccessesAt | resolver.go:45-62 | the filter keeps every success in order and nothing else |

## Left out

- Overflow of the 64-bit Fixed64 amounts: amounts are unbounded integers.
- The claimer's background goroutine, its timers and the linger loop after closing: they only call Flush and Close, which happen at any time in the model.
- A forced flush: no caller passes force, so `NanoPay.NanoPayClaimer` has none.
- The nonce, block hash and holding time of an outbound message: copied without a decision.
- processDests and the registrant lookup (client.go:1125-1160): sends start from processed destinations.
- The reconnection that a failed write triggers is a separate event in `Lifecycle` and not part of `Outbound.Connection.SendTimeout`.
- Real cryptography, signatures as byte strings, protobuf, zlib, HTTP, JSON, WebSocket and WebRTC.
- Transaction validation, of which only non-negative amounts are used.
- Session internals: a session is a handle with its address and id, and local sub-client labels are not modelled.
- Rounding of floating-point scores: `Policy` computes over the reals.
- Replies through the message cache and the pagination of subscribers in publish: not modelled.
- NewMultiClient's choice between its success and fail channels, wallets, configuration merging, transaction-building RPC helpers and event reporting.
