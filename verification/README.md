# Verification of landscape-client-core

landscape-client-core is a store-and-forward client: plugins queue messages, an
exchange loop posts them to the Landscape server in its own wire format
(bpickle), and identity, sequence numbers and plugin state survive restarts in a
file. This project models the parts of it that hold state over time and proves
what they promise, for all inputs and over all runs.

| files | component |
|---|---|
| `Queue`, `Exchange`, `Identity` | the outbound queue, its bound, and one whole exchange, as a class and as a function |
| `Delivery`, `Ledger`, `Wakeup`, `Backoff`, `Restart` | runs of exchanges: delivery over a lossy network, accounting of every message, wake-ups, waiting, and restarts from the state file and the spool |
| `BpickleValue`, `BpickleEncoder`, `BpickleDecoder`, `BpickleGrammar`, `BpickleRoundTrip`, `BpickleLocality`, `BpickleCode`, `BpickleTheorems`, `Decimal`, `KeyOrder` | the wire format: the printer's and parser's loops, the functions that specify them, a grammar of its bytes, and their laws |
| `Persist`, `Spool` | the state file with crashes between any two disk operations, and the message spool |
| `Replica`, `ActiveProcessInfo`, `Users` | tables reported as differences, and the server's mirror of them |
| `NetworkActivity`, `Accumulator`, `LimitWriter` | counters that wrap, points buffered over a window, capped output |

Code that works step by step is a class or a method with loops, proved equal to a
specification function; the laws are lemmas about those functions. What such a
function computes is stated once more without it, by places in a sequence, by kinds and
by literal bytes and numbers (`Queue.Bounds`, `Exchange.Takes`, `Identity.ResponseState`,
`Persist.LoadReadsLast`, `BpickleGrammar.DecodesIff`, `ActiveProcessInfo.Shows`,
`Users.MirrorShows`). Where a
property does not hold of the code for every input, there is a lemma for exactly
when it does:

- Dropping telemetry from an overlong queue breaks delivery exactly when a dropped
  message is one that the server has already processed, or that a request still on
  the wire carries (`Delivery.OverflowIsSafeIff`).
- A response that cannot be decoded breaks delivery exactly when the batch was not
  empty, and a payload that cannot be marshalled exactly when a queued message is
  processed already or still on the wire (`Delivery.UndecodableIsSafeIff`,
  `Delivery.MarshalErrorIsSafeIff`).
- An acknowledgement of a resynchronize, put in front of the queue, breaks delivery
  exactly when a queued message is processed already or still on the wire
  (`Delivery.ResynchronizeIsSafeIff`).
- A restart loses a message in some run after it exactly when the restored sequence
  number and the restored queue make the server take a message for seen that it has
  not processed (`Restart.RestartIsSafeIff`; the dead process's requests have arrived
  by then, have expired, or carry no other than the restored messages). If the restored number is not below the
  one that the front of the spool has, and no request on the way reaches past the
  server's number, this happens exactly when the server has gone on past the end of the
  restored queue (`Restart.SafeByNumbers`). Two such runs are shipped: the state could
  not be saved but the spool was (`Restart.StaleStateLoses`), and the process died
  before saving what the server had taken (`Restart.ServerAheadLoses`).
- The backoff lengthens the timer only. A wake token that is in the channel when the
  wait begins, or arrives during it, starts the next exchange before the delay is over,
  and nothing else does (`Wakeup.StartsEarlyIffWoken`).
- A table that missed a difference, dropped by the bound or by the type filter, is put
  right by the next one exactly where that one mentions what is wrong
  (`Replica.ReportOnStale`, `ActiveProcessInfo.DroppedDifference`).
- A value whose floats are not all finite, or that is nested too deeply, does not
  round-trip (`BpickleTheorems.UnmarshalMarshal`); a `uint` above the int64 range
  is read back as a negative number (`BpickleTheorems.UintPreserved`).
- A message comes back from the spool with the same bytes exactly when it holds no
  whole float, no byte string, no tuple and no entry under a byte-string key
  (`Spool.SpoolThenWire`). Operation results do; no network-activity message does
  (`Spool.OperationResultSurvives`, `Spool.NetworkActivityChanges`).
- A wrapped counter that was not within 2^24 of the wrap counts as a reset
  (`NetworkActivity.CounterDeltaExact`).
- After unknown-id the ping loop keeps an insecure id that the state has given up,
  if it had one (`Identity.UnknownIdLeavesPingId`).
- After any history of updates from any disk, damage to the state file is beyond
  recovery exactly when the last update that got as far as overwriting the backup was
  interrupted there, or failed half-way, which it only logs; or when none got that far
  and there was no whole backup before (`Persist.BackupWindow`). So it is after the
  first save of all (`Persist.FirstSaveHasNoBackup`).
- After a failed exchange the loop waits without a new wake token, and owes exactly
  what the exchange neither confirmed nor gave up (`Wakeup.FailureLeavesOwed`, and
  `Wakeup.HeldUntilReleased` for any interleaving;
  `Wakeup.FailureLeavesUrgentWaiting` is such a run).

Where the code and its documentation disagree, the model follows the code. The
example in `docs/protocol.md` line 41 ends strings with `;`; the encoder writes
none. The comment at `internal/exchange/exchange.go:617` says that plugin state is
reset; the save that follows copies the entries back from disk
(`Persist.ResetIsUndone`). The comment at `internal/exchange/exchange.go:268` says that
a failing server is not polled at the urgent interval because an operation result is
queued; the select at line 291 takes a wake token all the same
(`Wakeup.StartsEarlyIffWoken`). The comment at line 153 says that a restart loses at
most what was queued since the last exchange; `Restart.StaleStateLoses` loses a message
that the spool holds.

What comes from outside is a parameter: the outcome of a POST, disk faults and
crashes, clock readings, the text of a float (`BpickleValue.FloatText`) and of a
string in JSON (`Spool.Platform`), with the laws that the Go library guarantees
stated as `Lawful` predicates. A message is its type and a tag that stands for the
rest of its body; the three types that the client treats specially are
constructors of their own.

## Model

| member | source | states |
|---|---|---|
| `Queue.EnforceQueueBound` | internal/exchange/queue.go:124-142 | a queue of at most 1000 stays as it is; of a longer one, the oldest messages other than operation results go until 1000 messages or only operation results are left; all else stays in order, and the number dropped is returned |
| `Queue.QueueBound` | internal/exchange/queue.go:119-142 | all operation results stay, in order; the dropped ones are the oldest other messages, no more of them than the excess; at most max(1000, number of operation results) are left |
| `Queue.TrimShape` | internal/exchange/queue.go:129-141 | what is left is the operation results of a front part of the queue followed by everything behind it |
| `Queue.BoundedIdempotent` | internal/exchange/queue.go:124-142 | bounding a bounded queue changes nothing |
| `Exchange.Coordinator.TriggerExchange` | internal/exchange/exchange.go:176-181 | afterwards the one-slot channel holds a token, whether or not it did before |
| `Exchange.Coordinator.Send` | internal/exchange/exchange.go:329-334 | the message joins the end of the queue and the loop is not woken |
| `Exchange.Coordinator.SendUrgent` | internal/exchange/exchange.go:338-344 | the message joins the end of the queue and the wake token is set |
| `Exchange.Coordinator.PersistQueue` | internal/exchange/exchange.go:155-164 | the queue becomes its bounded form, in the same terms |
| `Exchange.Coordinator.FilterAccepted` | internal/exchange/exchange.go:430-451 | of each message as many copies stay as there were if no types are declared, its type is declared, or it is register, resynchronize or operation-result, and none otherwise; order is kept |
| `Exchange.Coordinator.Drain` | internal/exchange/exchange.go:392-451 | an unregistered client puts a register message first; the first hundred messages, or all of fewer, leave the queue, and those that the server takes form the snapshot |
| `Exchange.SnapshotDrains` | internal/exchange/exchange.go:392-451 | the same of the batch and the rest that whole exchanges are stated with |
| `Exchange.Coordinator.ReadResponse` | internal/exchange/exchange.go:550-582 | the messages at or above the server's next-expected sequence return to the front of the queue; sequence numbers and token follow the response |
| `Exchange.Coordinator.Receive` | internal/exchange/exchange.go:592-670 | one message changes identity, accepted types, plugin state and queue as its switch case does; `Identity.ReceivingDecides` and `Identity.ReceivingQueues` say what that is |
| `Exchange.Coordinator.ReceiveAll` | internal/exchange/exchange.go:592-686 | the loop over the server's messages handles them in order and leaves the wake token alone |
| `Exchange.Coordinator.Requeue` | internal/exchange/exchange.go:559-571 | what the server has not confirmed goes back to the front of the queue, and nothing does if it confirmed more than was sent |
| `Exchange.Coordinator.Conclude` | internal/exchange/exchange.go:690-719 | unless the file cannot be read, the plugin entries on disk join those in memory, even if the write fails; only a save that succeeds turns a backlog into a wake token |
| `Exchange.Coordinator.PerformExchange` | internal/exchange/exchange.go:390-722 | the client after a whole exchange, its plugin entries included, on every path including the early returns, with senders adding to the queue meanwhile |
| `Identity.UnknownIdLeavesPingId` | internal/exchange/exchange.go:596-622 | for any messages: the ping loop's id is stale exactly when it has one and the server's last word on the identity is unknown-id; if every set-id carries both ids, a registered client stays registered exactly when that is not the last word |
| `Identity.ReceivingKeepsNumbers` | internal/exchange/exchange.go:592-686 | no message from the server changes sequence numbers or token |
| `Identity.ReceivingDecides` | internal/exchange/exchange.go:592-670 | over any messages: the secure id is the `id` of the last set-id that carries one, unless unknown-id came later; types and their hash are those of the last accepted-types that lists any; plugin entries are reset exactly by a set-id or a resynchronize |
| `Identity.ReceivingQueues` | internal/exchange/exchange.go:641-658 | over any messages: each resynchronize puts its acknowledgement in front of the queue, and nothing else changes queue or wake token |
| `Identity.EarlyEnd` | internal/exchange/exchange.go:498-534 | an exchange without a response changes the queue only: a failed POST puts the batch back in front, the other two ends give it up |
| `Identity.ResponseState` | internal/exchange/exchange.go:550-670 | after a response: sequence numbers and token from its head (the old token if it names none), ids and types from its messages |
| `Identity.ResponsePlugins` | internal/exchange/exchange.go:688-695 | after a response: no plugin entries in memory if they were reset or there were none; otherwise memory's joined by those on disk, which win, unless the file cannot be read |
| `Identity.ResponseQueue` | internal/exchange/exchange.go:550-719 | after a response the queue is acknowledgements, the part of the batch at or above the server's number, the rest and the arrivals; the wake token is set exactly if it was or the state was saved with a backlog |
| `Identity.RegistersFirst` | internal/exchange/exchange.go:392-411 | an unregistered client sends a register message first, whatever types are declared |
| `Identity.FreshClientRegisters` | internal/persist/persist.go:68-74 | without a state file the client is unregistered, its numbers are zero, and it sends a register message first |
| `Delivery.StepKeepsInv` | internal/exchange/exchange.go:416-572 | every step of sender, client, network and server keeps log, queue and everything on the wire consistent with one numbering of the messages |
| `Delivery.ExactlyOnceInOrder` | internal/exchange/exchange_test.go:363-364 | over any run with lost, delayed and repeated requests and responses: the server's log followed by the accepted messages queued behind the overlap is the accepted messages sent, in order; the overlap is the front of the queue and the end of the log |
| `Delivery.ExchangeIsBeginThenSettle` | internal/exchange/exchange.go:498-572 | the client's steps of that protocol, early returns included, are what `PerformExchange` does |
| `Delivery.OverflowIsSafeIff` | internal/exchange/queue.go:124-142 | with any requests still on the wire, delivery goes on unharmed if and only if the queue is within its bound or everything processed or still carried by a request is operation results; otherwise the server comes to skip an unseen message |
| `Delivery.UndecodableIsSafeIff` | internal/exchange/exchange.go:526-534 | after an undecodable response delivery goes on unharmed if and only if the batch was empty; otherwise the server comes to skip a message or runs ahead of the queue |
| `Delivery.MarshalErrorIsSafeIff` | internal/exchange/exchange.go:498-501 | after a marshal error delivery goes on unharmed if and only if nothing queued is processed already or on the wire |
| `Delivery.ResynchronizeIsSafeIff` | internal/exchange/exchange.go:644-669 | with the acknowledgement of a resynchronize in front of the queue, delivery goes on unharmed if and only if nothing queued is processed already or on the wire |
| `Ledger.ExchangeConserves` | internal/exchange/exchange.go:390-722 | each message queued or arriving is still queued, confirmed, rejected by type, or given up by an early return, and is counted once |
| `Ledger.Conservation` | internal/exchange/exchange.go:153-172 | the same over any run of sends, exchanges with any acknowledgement, and queue bounds |
| `Ledger.ResultsNeverLost` | internal/exchange/queue.go:119-142 | an operation result is queued or confirmed after any run; the only other exits are the early returns |
| `Ledger.NothingForfeited` | internal/exchange/exchange.go:498-534 | without a marshal error or an undecodable response nothing is given up |
| `Ledger.EventSettles` | internal/exchange/exchange.go:390-722 | no send, exchange or bound takes an operation result out of the queue unless the server confirms it or an early return gives it up |
| `Ledger.InboundCounted` | internal/exchange/exchange.go:574-575 | over any run the next-expected sequence counts the messages received |
| `Ledger.ResponseCounts` | internal/exchange/exchange.go:552-575 | an acknowledgement alone decides the next sequence number, whatever the response's messages do |
| `Ledger.BacklogProgress` | internal/exchange/exchange.go:229-235 | with the bound after every exchange: L queued messages, all accepted, leave in exactly ceil(L/100) confirmed turns if L is at most 1100, and otherwise in one turn more than what the bound leaves takes; they are numbered consecutively, and the wake token is set while any remain |
| `Wakeup.StepKeepsInv` | internal/exchange/exchange.go:712-719 | no step of sender, ping or loop breaks the link between an empty wake channel and the queue found empty |
| `Wakeup.NoLostWakeup` | internal/exchange/exchange.go:288-293 | in every interleaving: the loop waiting with an empty channel after a successful exchange means that no message whose SendUrgent returned is queued |
| `Wakeup.LoopIsExchange` | internal/exchange/exchange.go:390-722 | undisturbed, the loop's steps leave the same queue and wake token as one exchange, for every client, reply and message from the server |
| `Wakeup.FailureLeavesOwed` | internal/exchange/exchange.go:498-534 | after a failed exchange of any kind, taken alone, the loop waits with the token it had and owes exactly the urgent messages that the exchange neither confirmed nor gave up; after a failed POST, exactly those it owed before |
| `Wakeup.FailureLeavesUrgentWaiting` | internal/exchange/exchange.go:516-524 | a run of two failed exchanges that ends with an urgent message queued and no token |
| `Wakeup.HeldUntilReleased` | internal/exchange/exchange.go:498-572 | over any run, with any failures in any interleaving with senders, pings, answers and the timer: an operation result in the queue or in a batch under way stays there until an answer confirms it or an early return gives its batch up, and a loop that waits before that owes each one whose SendUrgent has returned |
| `Wakeup.StartsEarlyIffWoken` | internal/exchange/exchange.go:288-293 | before the timer's deadline the loop can go on if and only if a wake token was in the channel when the wait began or has arrived since; from the deadline on it always can |
| `Restart.StepKeepsInv` | internal/exchange/exchange.go:231-235 | every step of senders, client, network and server, each of the two saves, and every safe restart keep the restored numbering consistent with what the server has processed |
| `Restart.AtLeastOnce` | internal/exchange/exchange.go:153-172 | over any run in which every restart is safe, whatever the spool has once held and the server takes has been processed by the server, or is both due and in the spool |
| `Restart.RestartIsSafeIff` | internal/exchange/exchange.go:214-225 | a restart, from the state file or its backup, is safe if and only if no run after it loses a message, neither one that the spool holds nor one sent later |
| `Restart.SafeByNumbers` | internal/exchange/exchange.go:214-225 | with a restored number not below that of the front of the spool and no request on the way past the server's number, a restart is safe if and only if the server has not gone on past the end of the restored queue |
| `Restart.SafeUnderOwnNumber` | internal/exchange/exchange.go:214-225 | the same under the spool's own number while requests on the way still carry part of it |
| `Restart.LateRequestLoses` | internal/exchange/exchange.go:214-225 | a request of the dead process that arrives late and brings the server to take unseen messages for seen makes the restart lose one |
| `Restart.OrderKept` | internal/exchange/exchange.go:229-235 | saving the state before the spool keeps the number in the state file from falling below the front of the spool, as long as no response confirms more than its batch |
| `Restart.ConfirmedSentAgain` | internal/exchange/exchange.go:690-721 | after any restart a message confirmed since the last spool save is due again although the server has processed it |
| `Restart.StaleStateLoses` | internal/exchange/exchange.go:690-710 | a run in which the state save fails, the spool save does not, and the restart loses a saved operation result that the server never processed |
| `Restart.ServerAheadLoses` | internal/exchange/exchange.go:231-235 | a run in which the process dies after the server took a message and before any save, and the restart loses one sent later |
| `Backoff.Backoff.Record` | internal/exchange/exchange.go:231-253 | over any history of outcomes the delay is min(300 s * 2^(k-1), 7200 s), where k counts the overload reports since the last success; a success ends it, and other errors leave it |
| `Backoff.DelayTable` | internal/exchange/exchange.go:31-32 | the delays are 300, 600, 1200, 2400, 4800 and then 7200 seconds |
| `Backoff.Backoff.Failure` | internal/exchange/exchange.go:49-61 | only 429 and 5xx change the delay |
| `Backoff.Backoff.Current` | internal/exchange/exchange.go:69-75 | the wait is at least the delay and less than a fifth more |
| `Backoff.Backoff.NextInterval` | internal/exchange/exchange.go:259-274 | the timer of the next wait is set to no less than the delay, urgent queue or not; when a wake token ends the wait earlier is `Wakeup.StartsEarlyIffWoken` |
| `Decimal.DigitTextValue` | internal/bpickle/bpickle.go:113-115 | the digits of a number read back as that number |
| `Decimal.ParseIntText` | internal/bpickle/bpickle.go:271-282 | every int64 survives its decimal text, and the text holds no terminator |
| `BpickleGrammar.ParseIntDenotes` | internal/bpickle/bpickle.go:277-280 | a numeral is read exactly if it is an optional sign and digits within 64 bits, as the number that they denote |
| `BpickleGrammar.IntTextShortest` | internal/bpickle/bpickle.go:113-115 | numbers are written with no more digits than they need |
| `KeyOrder.SortForgetsOrder` | internal/bpickle/bpickle.go:206-210 | sorting the keys of a map gives one listing, whatever order the map yields them in |
| `KeyOrder.LeqMeans` | internal/bpickle/bpickle.go:184 | the order is Go's on strings: the first differing byte decides, and a prefix comes first |
| `KeyOrder.SortedAscending` | internal/bpickle/bpickle.go:206-210 | the sorted listing is strictly ascending in that order |
| `BpickleEncoder.MarshalValue` | internal/bpickle/bpickle.go:37-110 | accepts exactly the values without unsupported types and overlarge uint64, and writes the wire format |
| `BpickleEncoder.MarshalSeq` | internal/bpickle/bpickle.go:146-169 | the loop writes the items between tag and terminator, or refuses if one of them is refused |
| `BpickleEncoder.MarshalPairs` | internal/bpickle/bpickle.go:178-226 | the result does not depend on the order in which the map yields its keys; `BpickleTheorems.KeysRead` says what it holds |
| `BpickleTheorems.KeysRead` | internal/bpickle/bpickle.go:187-212 | at the place of each key of an encoded map a reader finds that key as a string if the map is a dict, and as bytes if it is a BytesDict |
| `BpickleTheorems.KeysInOrder` | internal/bpickle/bpickle.go:206-210 | these are the map's keys, each once, in ascending order |
| `BpickleGrammar.EncodeSpells` | internal/bpickle/bpickle.go:37-226 | byte for byte, the printer writes the grammar's term for the value: which letter stands for which kind, and the .0 of whole floats |
| `BpickleValue.EncodableTells` | internal/bpickle/bpickle.go:37-110 | case by case, which values are accepted |
| `BpickleDecoder.UnmarshalValue` | internal/bpickle/bpickle.go:229-258 | the parser's loops return exactly what the recursive grammar says, errors included, and terminate on every input |
| `BpickleDecoder.UnmarshalList` | internal/bpickle/bpickle.go:340-377 | lists and tuples read up to their terminator |
| `BpickleDecoder.UnmarshalDict` | internal/bpickle/bpickle.go:379-414 | dicts read up to their terminator; a repeated key keeps its last value |
| `BpickleDecoder.DecodeValue` | internal/bpickle/bpickle.go:229-258 | a successful decode advances strictly and ends within the data |
| `BpickleGrammar.DecodesIff` | internal/bpickle/bpickle.go:229-414 | the parser accepts exactly the grammar: it returns a value if and only if the bytes consumed spell a well-formed term with that meaning, no part of it more than a hundred levels deep |
| `BpickleRoundTrip.RoundTripAt` | internal/bpickle/bpickle.go:229-414 | an encoding that stands anywhere in the data reads back as the normal form of its value, and the position after it |
| `BpickleTheorems.RoundTripInContext` | internal/bpickle/bpickle.go:21-34 | for every prefix and suffix, decoding behind the prefix gives normal form and position exactly for the finite values within the depth limit, and an error for the others |
| `BpickleTheorems.UnmarshalMarshal` | internal/bpickle/bpickle.go:21-34 | Unmarshal after Marshal succeeds if and only if all floats are finite and the depth is at most a hundred |
| `BpickleTheorems.DecodedShape` | internal/bpickle/bpickle.go:14-16 | whatever the input, a decoded value is in normal form, encodable and no deeper than the limit |
| `BpickleTheorems.Canonicalisation` | internal/bpickle/bpickle.go:271-295 | re-encoding what was decoded from any accepted bytes gives the same value, exactly when its floats are finite |
| `BpickleTheorems.TrailingBytesIgnored` | internal/bpickle/bpickle.go:28-34 | bytes behind an accepted value never change the result |
| `BpickleCode.CodeSplit` | internal/bpickle/bpickle.go:37-226 | from where two encodings start together they end together, whatever follows, for every encodable value |
| `BpickleTheorems.PrefixFree` | internal/bpickle/bpickle.go:37-226 | no encoding is a proper prefix of another, for every encodable value; finite values with the same encoding have the same normal form |
| `BpickleTheorems.UintPreserved` | internal/bpickle/bpickle.go:57-58 | a uint sent over the wire is read back as itself exactly within the int64 range, and as itself minus 2^64 above it |
| `BpickleLocality.DecodeLocal` | internal/bpickle/bpickle.go:229-414 | a decode depends on no byte outside the range it consumed |
| `Persist.Store.SaveLocked` | internal/persist/persist.go:96-144 | every disk state that a save passes through, on success and on each fault; the file is the new state exactly on success, and no temporary file stays |
| `Persist.Store.Update` | internal/persist/persist.go:149-161 | nothing is written if the file does not decode or the callback refuses; otherwise the callback is given what the file holds, and what it returns is saved |
| `Persist.Store.SaveExchange` | internal/exchange/exchange.go:690-710 | on success the file holds memory's exchange fields and the plugin entries of both, those of the file winning; memory gains the file's entries even if the write fails |
| `Persist.Store.SetPluginState` | internal/persist/persist.go:214-236 | on success the file holds the exchange fields and plugin entries that it held, with one plugin's entry replaced; otherwise it is as it was |
| `Persist.SaveAll` | internal/exchange/exchange.go:688-710 | the store under any interleaving of exchange saves and plugin saves with any faults: the file holds the exchange fields of the last exchange save that worked and each plugin's last saved value |
| `Persist.SaveTraceTells` | internal/persist/persist.go:96-144 | the rename is the last step, and what it puts in place stood whole in the temporary file; the backup is only ever truncated or a copy of the file |
| `Persist.AttemptIsAtomic` | internal/persist/persist.go:96-144 | a crash between any two disk operations leaves the old state or the new one |
| `Persist.CrashConsistency` | internal/persist/persist.go:46-66 | after any history of updates, faults and crashes, Load returns what the committed updates alone give |
| `Persist.LoadReadsLast` | internal/persist/persist.go:46-87 | after any such history Load returns, field by field and entry by entry, the last state written, or what was there before; no file reads as an unregistered client with zero numbers |
| `Persist.BackupRecovery` | internal/persist/persist.go:46-66 | damage to the file after two completed saves, whatever became of the first one's backup and with any interrupted saves between them: Load returns the state of the first, field by field, and no later updates lose it |
| `Persist.InterruptedKeepMain` | internal/persist/persist.go:107-143 | saves that fail or are interrupted before the rename leave the file as it was, whatever becomes of the backup |
| `Persist.UpdatesSpareBackup` | internal/persist/persist.go:149-156 | updates on a damaged file leave the disk alone |
| `Persist.BackupWindow` | internal/persist/persist.go:131-143 | for every disk and every history of updates, faults and crashes, exactly when damage to the file is then beyond recovery: the last update that reached the backup left it broken, or none did and there was no whole backup before |
| `Persist.FirstSaveHasNoBackup` | internal/persist/persist.go:131-143 | after the first save from an empty disk, however it ends, damage to the file is beyond recovery |
| `Persist.SaveDestroysBackup` | internal/persist/persist.go:90-94 | Save, unlike Update, copies a damaged file over the backup |
| `Persist.SavesDoNotInterfere` | internal/exchange/exchange.go:688-710 | after any interleaving the file holds the last exchange's fields and each plugin's last value |
| `Persist.SavesCommute` | internal/persist/persist.go:210-226 | an exchange save and a plugin save give the same file in either order |
| `Persist.ResetIsUndone` | internal/exchange/exchange.go:618 | a reset of plugin state in memory never reaches the file |
| `Spool.NormalizeNumbers` | internal/exchange/queue.go:61-81 | whole floats become ints throughout the tree, and nothing else changes |
| `Spool.NormalizeFloat` | internal/exchange/queue.go:63-67 | a float in the range of int64 becomes that integer exactly if it is whole |
| `Spool.SpoolThenWire` | internal/exchange/queue.go:47-57 | a restored value marshals to the same bytes if and only if it holds no whole float, no byte string, no tuple and no entry under a byte-string key |
| `Spool.OperationResultSurvives` | internal/exchange/exchange.go:354-368 | every operation result marshals to the same bytes after a restart |
| `Spool.NetworkActivityChanges` | internal/monitor/networkactivity.go:84-90 | no network-activity message does |
| `Replica.AnyOrder` | internal/monitor/activeprocessinfo.go:129-150 | a report's parts may be carried out in any order |
| `Replica.ReportTells` | internal/monitor/users.go:228-240 | a report creates exactly the keys that are new, updates exactly those that count as changed, and deletes exactly those gone |
| `Replica.ReportCarries` | internal/monitor/users.go:223-325 | carrying out creates, updates and deletes turns the old table into the new one |
| `Replica.ReportOnStale` | internal/monitor/users.go:223-325 | a table that missed earlier reports is put right by the next one if and only if that mentions every key at which the table is wrong |
| `ActiveProcessInfo.DiffProcesses` | internal/monitor/activeprocessinfo.go:376-393 | new pids, pids whose reported fields changed, and vanished pids, each exactly |
| `ActiveProcessInfo.Plugin.BuildMessage` | internal/monitor/activeprocessinfo.go:84-151 | the two maps swap and never alias; a failed read keeps the last reported table; the message is the introduction, the difference, or nothing exactly when only the load changed |
| `ActiveProcessInfo.DifferenceTells` | internal/monitor/activeprocessinfo.go:359-393 | a difference adds exactly the new pids, updates exactly those of which one of six fields changed, and kills exactly those gone |
| `ActiveProcessInfo.IntroductionTells` | internal/monitor/activeprocessinfo.go:108-121 | the introduction kills all and adds every process |
| `ActiveProcessInfo.Plugin.ReadAllProcessesInto` | internal/monitor/activeprocessinfo.go:205-228 | a pid is in the map exactly if some entry is a readable process with that pid that is not dead, with the record of the last such entry |
| `ActiveProcessInfo.MirrorFollows` | internal/monitor/activeprocessinfo.go:359-393 | a difference carries the server's table from the last to the new one, up to the load |
| `ActiveProcessInfo.MirrorStarts` | internal/monitor/activeprocessinfo.go:108-121 | the first message makes the server's table right whatever it held |
| `ActiveProcessInfo.SilenceKeepsMirror` | internal/monitor/activeprocessinfo.go:126-128 | the server's table stays right without a message if and only if nothing but the load changed |
| `ActiveProcessInfo.DroppedDifference` | internal/monitor/activeprocessinfo.go:126-150 | after a dropped difference, the next one puts the server's table right if and only if it mentions every process about which the server is behind |
| `ActiveProcessInfo.Run` | internal/monitor/activeprocessinfo.go:64-80 | over any run of ticks, failed ones included, the server's table has the live processes of the last listing that could be read, each with its last record but for the load; nothing is sent before one could be |
| `Users.BuildUsersDiff` | internal/monitor/users.go:223-325 | there is no message if and only if the server's view is unchanged; otherwise it tells who is new, changed and gone, and who joined and left each group |
| `Users.DiffGroups` | internal/monitor/users.go:254-302 | groups created, renumbered and deleted, and the members that each surviving or new group gained and lost |
| `Users.MirrorFollows` | internal/monitor/users.go:223-325 | a message turns a mirror of the old tables into a mirror of the new ones |
| `Users.SilentIffUnchanged` | internal/monitor/users.go:321-324 | the message is empty exactly when users, group ids and memberships are all the same |
| `Users.ParsedWellKeyed` | internal/monitor/users.go:157-166 | the parsed tables are keyed by the names in their records |
| `Users.ParsedUsersShown` | internal/monitor/users.go:113-163 | an account is in the table exactly if a line names it, with the last such line |
| `Users.ParsedGroupsShown` | internal/monitor/users.go:165-219 | a group is in the table exactly if a line names it, with the gid of the last such line and its members that have an account, sorted |
| `Users.MessageTells` | internal/monitor/users.go:228-252 | which accounts a message creates, updates and deletes |
| `Users.GroupsTell` | internal/monitor/users.go:260-313 | which groups it creates, renumbers and deletes |
| `Users.MembersTell` | internal/monitor/users.go:260-300 | who it says has joined and left each group |
| `Users.Run` | internal/monitor/users.go:80-109 | over any run of ticks, with unreadable ones skipped, the mirror shows the accounts, groups and memberships of the last databases read, line by line |
| `NetworkActivity.CounterDeltaExact` | internal/monitor/networkactivity.go:153-169 | the difference is in [0, 2^32) and is the traffic exactly when the counter did not wrap or was within 2^24 of wrapping |
| `NetworkActivity.TrafficConserved` | internal/monitor/networkactivity.go:58-66 | over any run the points of an interface add up to the bytes received and transmitted since the baseline |
| `NetworkActivity.TrafficAccounted` | internal/monitor/networkactivity.go:47-96 | over any run, the bytes in the messages sent and in the points still buffered add up to the bytes that passed since the baseline |
| `NetworkActivity.Plugin.Delta` | internal/monitor/networkactivity.go:174-191 | one point for each known interface that was not idle |
| `NetworkActivity.PointsTell` | internal/monitor/networkactivity.go:174-191 | no point for an interface that the last reading lacked or that was idle; otherwise one with the new reading's time and both differences |
| `NetworkActivity.PointTimes` | internal/monitor/networkactivity.go:58-66 | over any run an interface's points carry times of readings, in order and each at most once |
| `NetworkActivity.Plugin.Tick` | internal/monitor/networkactivity.go:58-94 | per interface, what is sent and what stays buffered is what was buffered and the new point; without a new point nothing goes out; with one everything does if the window was over when the tick began, and nothing if it is not over when the tick ends |
| `NetworkActivity.Run` | internal/monitor/networkactivity.go:47-96 | over any run each point of each interface is sent once or still buffered, in order, accumulators are not shared, and no message is empty |
| `Accumulator.Accumulator.Add` | internal/monitor/accumulator.go:29-31 | the point joins the buffer |
| `Accumulator.Accumulator.DrainIfDue` | internal/monitor/accumulator.go:35-46 | all points go out or none, exactly if the window is over; the next window begins then, and none go out within a window of the last drain |
| `LimitWriter.LimitWriter.Write` | internal/manager/system.go:111-135 | what is kept depends on everything written and not on how it was cut up; the full length is reported |
| `LimitWriter.Capture` | internal/manager/system.go:99-135 | any sequence of writes keeps the concatenation, or its first n bytes and one marker |

## Left out

- Delivery.ExactlyOnceInOrder: for a registered client with fixed accepted types and no resynchronize, because a registration or its acknowledgement goes in at the front of the queue and shifts the numbering on purpose (`Delivery.ResynchronizeIsSafeIff` says when that harms); a change of the accepted types in mid-run is not modelled.
- Delivery.OverflowIsSafeIff: assumes that the accepted messages sent differ from one another, so that a lost one can be told from its neighbours; likewise `Delivery.UndecodableIsSafeIff`, `Delivery.MarshalErrorIsSafeIff` and `Restart.RestartIsSafeIff`.
- Delivery.StepKeepsInv: sequence numbers are mathematical integers; int64 overflow and the 32-bit truncation at internal/exchange/exchange.go:561 are not modelled.
- Exchange.Coordinator.PerformExchange: senders that interleave with the exchange are one batch of arrivals, which suffices since they append and the exchange inserts at the front; `Wakeup` takes the lock sections one at a time.
- Exchange.Coordinator.PersistQueue: the spool file itself is in `Spool`; a missing or corrupt spool and I/O errors on it are not modelled.
- Wakeup.NoLostWakeup: the shutdown branch with its final exchange is not modelled.
- Wakeup.FailureLeavesOwed: assumes that only operation results are sent urgently, as the only caller of SendUrgent does (internal/exchange/exchange.go:367).
- Restart.StepKeepsInv: for a registered client with fixed accepted types, a spool that reads back as it was saved, and a queue within its bound; early returns that give a batch up are counted in `Ledger`.
- Restart.AtLeastOnce: messages queued since the last save are lost in a crash, as the comment at internal/exchange/exchange.go:153 says.
- Restart.RestartIsSafeIff: the dead process's requests have arrived, have expired, or carry no other than the restored messages at their numbers; `Restart.LateRequestLoses` is about one that does not.
- BpickleEncoder.MarshalValue: the reflection fallback is folded into the list and dict cases; integers of the smaller widths are one constructor; data longer than the int64 range does not exist.
- BpickleDecoder.UnmarshalValue: the length of a run is read as an int64; on a 32-bit platform a longer one fails as out of range instead of as truncated.
- BpickleDecoder.DecodeValue: which error a refused input gets is stated by the parser's own definition only.
- Backoff.Backoff.NextInterval: whether the urgent interval applies is a parameter.
- Spool.NormalizeNumbers: works on values, so rewriting the tree in place is not captured; the tree comes fresh from the JSON decoder and nothing shares it.
- Spool.SpoolThenWire: integers up to 2^53, valid UTF-8, finite floats within the int64 range; beyond it Go leaves the conversion to the platform.
- Persist.CrashConsistency: a crash of the process, with a file system whose operations take effect in order; power loss and fsync, file permissions and the creation of the directory are not modelled.
- Persist.Store.SetPluginState: a plugin's cached copy of the state is only read by the plugin itself and is not modelled.
- ActiveProcessInfo.Plugin.ReadAllProcessesInto: entries arrive parsed; the text of /proc is not modelled.
- Users.BuildUsersDiff: database lines arrive split into fields; new and changed records may be listed in any order, as in Go.
- ActiveProcessInfo.DroppedDifference: which messages the queue drops is in `Queue` and `Delivery`; it is not tied to a plugin's run.
- NetworkActivity.TrafficConserved: for an interface in every reading that could be taken, with 32-bit counters; resets of 64-bit counters above 2^32 are outside the wrap rule.
- LimitWriter.LimitWriter.Write: the buffer behind the writer never fails, as an in-memory one never does.
- Message bodies, registration contents, subscribers' handlers, logging, and the API downgrade (which has no older version to go to).
- HTTP, TLS and proxies, the ping loop, D-Bus, snapd, process execution, hooks, configuration and the setup wizard.
- The other monitor and manager plugins: parsing and straight-line reporting.
