# CoAkka Swift host: verified model

This project models the Swift host side of the CoAkka runtime and proves what it
promises to its native runtime ("Core") and to its callers. Core ships as a
binary, so it appears only as an environment: the order in which its functions
may be called, what its answers may be, and what it may do between calls.

| file | what it models |
|---|---|
| `Wire.dfy`, `WireReader.dfy`, `WireLaws.dfy`, `WireFields.dfy` | the envelope and deadletter wire format as functions, the cursor-based parser proved against them, their laws, and what each field number takes and refuses |
| `NativeCore.dfy` | Core's preconditions for the calls of one session, as an automaton that judges a log of calls |
| `Session.dfy` | the session object and the ask ticket: one method per critical section |
| `SessionProtocol.dfy`, `SessionInvariant.dfy`, `SessionTheorems.dfy`, `SessionSteps.dfy`, `SessionProgress.dfy` | the retirement protocol: runner, asks, closers and releases in every interleaving, and what each step decides |
| `Startup.dfy` | starting a host and rolling a failed start back |
| `CallbackTable.dfy`, `CallbackOwners.dfy` | the stream callback ownership table, as functions on values and as the mutable object proved against them |
| `LaneGate.dfy`, `Lane.dfy`, `LaneProtocol.dfy` | a lane's critical sections as functions and as an object, and the borrow/drain/mutation protocol over any number of threads |
| `LaneInvariant.dfy`, `LaneScopes.dfy`, `LaneTheorems.dfy`, `LaneProgress.dfy` | counting, closing, where deinits run, and termination of that protocol |
| `LaneOwners.dfy`, `LaneRecords.dfy`, `LaneSafety.dfy`, `LaneCapacity.dfy` | Core's callback records against the table, over whole runs |
| `Dispatch.dfy`, `Identity.dfy` | the handler registry with its dispatch projection, and message identities |

Objects that the source updates in place are classes whose methods are proved
against functions on values. The two protocols are transition systems over those
same functions: an `Action` per critical section or native answer, `Enabled` and
`Do`, runs as sequences of actions. Thread counts, run lengths and
tables are unbounded; a thread of the lane protocol is a stack of calls, on which the deinit of
a callback may call the lane again. Native statuses, timeouts, cancellations, spurious wake-ups
and Core's own record removals are parameters that may take any value the headers allow.

## What the proofs found

- **Callback ids are compared in two ways.** The ownership table is keyed by a Swift
  `String`, whose equality is canonical equivalence; Core compares the bytes of the
  C string it is given. `LaneSafety.NoDanglingCallback` proves that no run ever leaves
  Core with a callback nobody keeps alive *if and only if* the ids in use are
  told apart by the canonical form. `LaneSafety.TwoSpellings` is the failing run: two
  spellings of one string share an entry but have two records.
- **A host that is dropped without a close can leak its session.** The runner tries native
  stop once and the asks never do; only `RuntimeHost.close` stops again, and `deinit` does not call it.
  `SessionProgress.RetirementNeverLost` proves that a session can still be retired *if and
  only if* its host is referenced or no stop is on record as refused.
  `SessionProgress.DroppedHostLeaks` is the failing run: the last reference goes, Core refuses
  the runner's stop, and the session keeps itself and every native owner alive for good. The
  comment at RuntimeSession.swift:165-167 keeps a "recoverable owner" there that nothing can
  reach. A close that succeeds before the last reference is dropped avoids it.
- **Startup's rollback stop is best effort.** The catch clause ignores the status of the
  stop and destroys the runtime regardless, unlike a session, which keeps every owner after a
  refused stop. `Startup.AllOrNothing` therefore states legality with `NativeCore` allowing
  a destroy after an attempted stop.
- **Codec.** A known field with the wrong wire type is an error, a repeated nested
  envelope replaces the earlier one, and group wire types are refused. The
  Protocol Buffers Encoding specification ("Message Structure", "Last One Wins") would skip,
  merge and skip; the model follows the code.
- The `shift >= 64` refusal of the varint loop is never taken: the guard on the tenth byte
  comes first. `WireLaws.VarintExactness` gives the exact condition under which a read succeeds.

## Model

| member | source | states |
|---|---|---|
| WireReader.FieldReader.ReadVarintRaw | Sources/CoAkkaRuntime/RuntimeEnvelopeCodec.swift:138-155 | the shift-and-or loop over 64-bit words returns exactly the sum of the 7-bit groups and consumes exactly that varint, or fails where the format says |
| WireReader.FieldReader.NextTag | Sources/CoAkkaRuntime/RuntimeEnvelopeCodec.swift:87-94 | the end of the frame, a tag of a nonzero field number, or an error; a tag strictly advances the cursor |
| WireReader.FieldReader.ReadVarint | Sources/CoAkkaRuntime/RuntimeEnvelopeCodec.swift:96-101 | a wire type other than varint is refused without reading |
| WireReader.FieldReader.ReadBytes | Sources/CoAkkaRuntime/RuntimeEnvelopeCodec.swift:103-114 | a length that is representable and within the frame gives exactly the following bytes; the cursor stays inside the frame |
| WireReader.FieldReader.ReadString | Sources/CoAkkaRuntime/RuntimeEnvelopeCodec.swift:116-121 | the same as a byte field, and refused when the bytes are not UTF-8 |
| WireReader.FieldReader.Skip | Sources/CoAkkaRuntime/RuntimeEnvelopeCodec.swift:123-136 | consumes exactly one body of wire type 0, 1, 2 or 5 and refuses every other type |
| WireReader.ReadEnvelopeField | Sources/CoAkkaRuntime/RuntimeEnvelopeCodec.swift:21-38 | one turn of the switch reads the field body that the schema describes and assigns it to its envelope field |
| WireReader.DecodeEnvelope | Sources/CoAkkaRuntime/RuntimeEnvelopeCodec.swift:17-41 | the loop computes the frame's meaning: the field sequence read to its end, last mention of each field wins, first error otherwise |
| WireReader.DecodeDeadletter | Sources/CoAkkaRuntime/RuntimeEnvelopeCodec.swift:43-70 | the loop computes the deadletter's meaning, with every nested envelope decoded where it occurs and a reason of at least 2^32 refused at the end |
| WireReader.GroupStep | Sources/CoAkkaRuntime/RuntimeEnvelopeCodec.swift:144-149 | or-ing in the next shifted group loses no bit as long as a tenth byte is at most one |
| WireLaws.VarintExactness | Sources/CoAkkaRuntime/RuntimeEnvelopeCodec.swift:138-155 | a read succeeds exactly when a byte below 128 occurs within ten bytes and a tenth byte is at most one; the value is then below 2^64, and the two errors are told apart |
| WireLaws.FieldPrefix | Sources/CoAkkaRuntime/RuntimeEnvelopeCodec.swift:87-136 | a field that was read does not depend on what follows it |
| WireLaws.FieldsConcat | Sources/CoAkkaRuntime/RuntimeEnvelopeCodec.swift:20-39 | the fields of two frames end to end are the fields of the first followed by those of the second, errors included |
| WireLaws.EnvelopeConcat | Sources/CoAkkaRuntime/RuntimeEnvelopeCodec.swift:17-41 | if the first frame decodes, both end to end decode to the second's mentioned fields laid over the first, or to the second's error |
| WireLaws.DeadletterConcat | Sources/CoAkkaRuntime/RuntimeEnvelopeCodec.swift:43-70 | if the fields of the first frame read, both end to end decode field by field to the last mention, a later nested envelope replacing the whole earlier one, or fail as the second frame's fields fail |
| WireLaws.EnvelopeIgnoresUnknown | Sources/CoAkkaRuntime/RuntimeEnvelopeCodec.swift:36-37 | inserting any well-formed field of a number other than 1, 2, 3, 4, 6, 7 and 9 at a field boundary changes neither the result nor the error |
| WireLaws.DeadletterIgnoresUnknown | Sources/CoAkkaRuntime/RuntimeEnvelopeCodec.swift:56-57 | the same for deadletters and numbers other than 1, 2 and 3 |
| WireLaws.EncodedUnknown | Sources/CoAkkaRuntime/RuntimeEnvelopeCodec.swift:123-136 | every encoded field of an unnamed number, of each skippable wire type, is such a field |
| WireLaws.VarintRoundTrip | Sources/CoAkkaRuntime/RuntimeEnvelopeCodec.swift:138-155 | every number below 2^64 reads back from its base-128 encoding, whatever follows |
| WireLaws.FieldsRoundTrip | Sources/CoAkkaRuntime/RuntimeEnvelopeCodec.swift:87-136 | every sequence of encoded fields reads back as itself |
| WireLaws.EnvelopeRoundTrip | Sources/CoAkkaRuntime/RuntimeEnvelopeCodec.swift:17-41 | decoding inverts the specification encoder on every envelope a Swift value can hold |
| WireLaws.DeadletterRoundTrip | Sources/CoAkkaRuntime/RuntimeEnvelopeCodec.swift:43-70 | the nested form round trips for every reason below 2^32 and is refused for every larger one |
| WireFields.EnvelopeTakesText | Sources/CoAkkaRuntime/RuntimeEnvelopeCodec.swift:22-29 | numbers 1 to 4 set message id, correlation id, source and target, each its own field and no other |
| WireFields.EnvelopeTakesRest | Sources/CoAkkaRuntime/RuntimeEnvelopeCodec.swift:30-35 | number 6 sets the kind, 7 whether its value is not zero, 9 the payload to any bytes |
| WireFields.EnvelopeRefusesText | Sources/CoAkkaRuntime/RuntimeEnvelopeCodec.swift:116-121 | text that is not UTF-8 in field 1, 2, 3 or 4 is refused, whatever follows |
| WireFields.EnvelopeRefusesType | Sources/CoAkkaRuntime/RuntimeEnvelopeCodec.swift:96-108 | each known number with another wire type than its own is refused |
| WireFields.EnvelopeRefusesGroup | Sources/CoAkkaRuntime/RuntimeEnvelopeCodec.swift:133-135 | an unknown number of a wire type other than 0, 1, 2 and 5 is refused |
| WireFields.EnvelopeSkips | Sources/CoAkkaRuntime/RuntimeEnvelopeCodec.swift:123-132 | an unknown number is passed over with its body: a varint, a delimited run, eight bytes of wire type 1, four of wire type 5 |
| WireFields.NumberlessRefused | Sources/CoAkkaRuntime/RuntimeEnvelopeCodec.swift:92 | a tag of field number zero is refused |
| WireFields.CutFieldRefused | Sources/CoAkkaRuntime/RuntimeEnvelopeCodec.swift:107-109 | a frame that ends inside a field is refused wherever it is cut, with the error of the part that is missing |
| WireFields.DeadletterTakesPayload | Sources/CoAkkaRuntime/RuntimeEnvelopeCodec.swift:50-55 | number 3 sets the detail, and number 1 the three texts of an original that decodes |
| WireFields.DeadletterTakesReason | Sources/CoAkkaRuntime/RuntimeEnvelopeCodec.swift:60-65 | number 2 sets code and name of a reason that fits 32 bits and has a name, and fails the deadletter otherwise |
| WireFields.DeadletterRefusesPayload | Sources/CoAkkaRuntime/RuntimeEnvelopeCodec.swift:50-55 | a detail that is not UTF-8 and an original that does not decode are refused where they stand, the latter with its own error |
| WireFields.DeadletterRefusesType | Sources/CoAkkaRuntime/RuntimeEnvelopeCodec.swift:96-108 | each known number with another wire type than its own is refused |
| WireFields.DeadletterRefusesGroup | Sources/CoAkkaRuntime/RuntimeEnvelopeCodec.swift:133-135 | an unknown number of a wire type other than 0, 1, 2 and 5 is refused |
| NativeCore.ReleasedOnce | Sources/CoAkkaRuntimeC/include/coakka_runtime_bridge.h:480-494 | in a log that Core accepts no release occurs twice |
| NativeCore.ReleaseOrder | Sources/CoAkkaRuntimeC/include/coakka_runtime_bridge.h:245-249 | in a log that Core accepts the reader goes before any stop, and client, handles, runtime and library go in that order |
| NativeCore.StopSeals | Sources/CoAkkaRuntimeC/include/coakka_runtime_bridge.h:245-249 | after a stop attempt no operation uses the runtime, and after a successful one there is no further stop |
| NativeCore.TicketsBeforeClient | Sources/CoAkkaRuntimeC/include/coakka_runtime_bridge.h:490-494 | every ticket that was begun is destroyed before its client is |
| Sessions.RuntimeSession.WithOpen | Sources/CoAkkaRuntime/RuntimeSession.swift:90-99 | the operation runs exactly while the session is not closing and holds its runtime, and fails as closed otherwise |
| Sessions.RuntimeSession.BeginAsk | Sources/CoAkkaRuntime/RuntimeSession.swift:101-111 | closed and the limit of 64 are told without asking Core, exactly when they apply; otherwise Core is asked once and its failure, a missing ticket or the ticket is the answer; only a ticket is counted |
| Sessions.RuntimeSession.EndBorrowedAsk | Sources/CoAkkaRuntime/RuntimeSession.swift:113-118 | one borrow fewer, and the retirement if it was the last thing waited for |
| Sessions.RuntimeSession.RequestRetirement | Sources/CoAkkaRuntime/RuntimeSession.swift:131-135 | seals admission and touches nothing native |
| Sessions.RuntimeSession.FinishRunner | Sources/CoAkkaRuntime/RuntimeSession.swift:45-54 | the runner's exit seals, tries the stop and retires, in that order |
| Sessions.RuntimeSession.CloseLocked | Sources/CoAkkaRuntime/RuntimeSession.swift:150-153 | a close stops and retires only if no earlier stop succeeded, and reports the failure that is on record |
| Sessions.RuntimeSession.StopLocked | Sources/CoAkkaRuntime/RuntimeSession.swift:160-168 | one native stop at most, only after the reader retired; its answer decides whether the runtime counts as stopped and what failure is on record |
| Sessions.RuntimeSession.RetireLocked | Sources/CoAkkaRuntime/RuntimeSession.swift:170-178 | the five releases in order, or none |
| Sessions.NativeAskTicket.AwaitResult | Sources/CoAkkaRuntime/RuntimeHostClient.swift:117-151 | a second await touches nothing; the first destroys the ticket once and then ends the borrow on every path; cancelled, Core's failure, timed out, not copied and delivered each happen exactly for the answers and cancellation reads that call for it |
| SessionInvariant.InvKept | Sources/CoAkkaRuntime/RuntimeSession.swift:41-178 | every step of every thread keeps the session invariant |
| SessionTheorems.RetirementExact | Sources/CoAkkaRuntime/RuntimeSession.swift:170-178 | in every interleaving the runtime is gone exactly when reader, stop and asks are done; each release has then happened, and none happens twice |
| SessionTheorems.CallsLegal | Sources/CoAkkaRuntime/RuntimeSession.swift:41-111 | every native call of every run meets Core's precondition; no use or begin after a stop attempt, no stop after a success, tickets before the client |
| SessionTheorems.StopBeforeRelease | Sources/CoAkkaRuntime/RuntimeSession.swift:160-178 | a successful stop precedes the release of the client in every run |
| SessionTheorems.RankFalls | Sources/CoAkkaRuntime/RuntimeSession.swift:55-75 | once closing is set it stays set; the rank never rises and falls on runner progress, a successful stop and each ended borrow |
| SessionTheorems.RankBounded | Sources/CoAkkaRuntime/RuntimeSession.swift:101-118 | the rank is never negative |
| SessionTheorems.RankZero | Sources/CoAkkaRuntime/RuntimeSession.swift:170-178 | at rank zero the session is retired and the runner gone |
| SessionTheorems.FailedStopRetryable | Sources/CoAkkaRuntime/RuntimeSession.swift:160-168 | a refused stop releases nothing, keeps every owner and fails the close that made it |
| SessionTheorems.CloseOutcomes | Sources/CoAkkaRuntime/RuntimeSession.swift:140-158 | a close that returns implies a retired session; a re-entrant or contended one changes nothing; any other failure keeps admission sealed and owners held while needed |
| SessionTheorems.CloseAgain | Sources/CoAkkaRuntime/RuntimeSession.swift:140-158 | after retirement a close makes no native call and succeeds |
| SessionTheorems.TicketConservation | Sources/CoAkkaRuntime/RuntimeSession.swift:101-118 | the counter is the number of begun tickets whose borrow has not ended, within 0 to 64; an ended ticket was destroyed; each outcome is that of exactly the recorded answer, cancellation and copy |
| SessionSteps.RunnerDecides | Sources/CoAkkaRuntime/RuntimeSession.swift:57-73 | a read goes round again exactly on would-block, leaves on closed, delivers a readable frame of some size on success, and fails otherwise |
| SessionSteps.IterationEnds | Sources/CoAkkaRuntime/RuntimeSession.swift:58-73 | a failure is recorded and leaves the loop, a delivered frame goes round again, every frame is released |
| SessionSteps.RunnerStops | Sources/CoAkkaRuntime/RuntimeSession.swift:45-54 | the runner's exit seals, tries the stop and puts its answer on record |
| SessionSteps.UseDecides | Sources/CoAkkaRuntime/RuntimeSession.swift:95-99 | an operation reaches the runtime exactly while the session is open |
| SessionSteps.BeginDecides | Sources/CoAkkaRuntime/RuntimeSession.swift:101-111 | Core is asked exactly while the session is open with fewer than 64 asks, and a ticket starts exactly if it hands one out |
| SessionSteps.TakeDecides | Sources/CoAkkaRuntime/RuntimeHostClient.swift:125-132 | a ticket is awaited exactly if its task had not been cancelled |
| SessionSteps.ConcludeDecides | Sources/CoAkkaRuntime/RuntimeHostClient.swift:133-150 | each outcome of an awaited ticket, if and only if, by Core's answer, the cancellation flag then and the copy; Core's ticket is cancelled exactly for a cancellation |
| SessionSteps.ReentrantCloseRefused | Sources/CoAkkaRuntime/RuntimeSession.swift:141-143 | over all runs, a close called on the request queue is only ever entering or refused |
| SessionSteps.EntryDecides | Sources/CoAkkaRuntime/RuntimeSession.swift:141-144 | a close is refused on entry exactly if it was called on the request queue or another one is running, and refusal changes nothing else |
| SessionSteps.CloseJoinsReader | Sources/CoAkkaRuntime/RuntimeSession.swift:147-149 | a close goes on to stop exactly if the runner has left |
| SessionSteps.CloseStops | Sources/CoAkkaRuntime/RuntimeSession.swift:150-154 | a close stops the runtime exactly if no stop succeeded yet and fails exactly with what that stop answers |
| SessionSteps.CloseJoinsAsks | Sources/CoAkkaRuntime/RuntimeSession.swift:155-157 | a close that stopped returns exactly if every borrowed ask has ended |
| SessionProgress.RetirementNeverLost | Sources/CoAkkaRuntime/RuntimeSession.swift:137-158 | for every reachable state: some continuation retires the session if and only if the host is referenced or no stop is on record as refused |
| SessionProgress.DroppedHostLeaks | Sources/CoAkkaRuntime/RuntimeSession.swift:45-54 | the last reference goes and the runner's stop is refused: no continuation retires that session |
| SessionProgress.FailedStopRetried | Sources/CoAkkaRuntime/RuntimeSession.swift:150-153 | while the host is referenced, a refused stop can be repeated and an accepted one then counts |
| SessionProgress.StuckMeansRetired | Sources/CoAkkaRuntime/RuntimeSession.swift:55-75 | a closing session whose runner, asks and closes can do nothing more is retired, unless its stop was refused |
| Startup.Start | Sources/CoAkkaRuntime/RuntimeHost.swift:59-82 | a start succeeds exactly if network, security, routes, handles, start, client and reader all do, fails with the first step that does not, and then makes the calls of that failure and no others |
| Startup.RollBack | Sources/CoAkkaRuntime/RuntimeHost.swift:79-87 | the catch clause releases what is owned, as a subsequence of a session's retirement |
| Startup.RetirementOrderIsSession | Sources/CoAkkaRuntime/RuntimeSession.swift:160-178 | the rollback's order is that of a session's last runner step and retirement, without the signal |
| Startup.AllOrNothing | Sources/CoAkkaRuntime/RuntimeHost.swift:59-88 | every start ends with everything adopted or nothing live, by calls Core allows, each release made once |
| CallbackTable.PublishValid | Sources/CoAkkaRuntime/StreamCallbackOwners.swift:32-45 | publishing keeps every resolved entry accepted and free of a predecessor, every unresolved one at depth two at most, and the count within the limit |
| CallbackTable.SettleValid | Sources/CoAkkaRuntime/StreamCallbackOwners.swift:46-54 | so does settling a candidate on any outcome |
| CallbackTable.ExhaustedUnchanged | Sources/CoAkkaRuntime/StreamCallbackOwners.swift:36-41 | a storage refusal happens only at the limit with no entry absent, and leaves the table as it was |
| CallbackTable.RefusedExactly | Sources/CoAkkaRuntime/StreamCallbackOwners.swift:32-41 | an admission is refused without a call exactly for a key whose outcome is unresolved, or for a new key and a full table in which nothing is absent |
| CallbackTable.AdmissionOwnEntry | Sources/CoAkkaRuntime/StreamCallbackOwners.swift:43-54 | what an admission leaves under its key: the accepted root alone, what was there before on a refusal, the candidate over it when the outcome is lost |
| CallbackTable.AdmissionOtherEntries | Sources/CoAkkaRuntime/StreamCallbackOwners.swift:57-66 | every other entry stays as it was, and is dropped only if resolved and reported absent, after acceptance always then |
| CallbackOwners.StreamCallbackOwners.Create | Sources/CoAkkaRuntime/StreamCallbackOwners.swift:21-28 | a table of one entry more than the capacity, refused for a capacity that is not positive or not representable |
| CallbackOwners.StreamCallbackOwners.Admit | Sources/CoAkkaRuntime/StreamCallbackOwners.swift:30-55 | answers unresolved, exhausted, lost or Core's own status, each exactly when it applies; the dictionary and its entry objects become what admission on values says; old entries and the candidate are split between table and handed-out entries, each once, at most limit + 1 handed out; no root is lost |
| CallbackOwners.StreamCallbackOwners.Prepare | Sources/CoAkkaRuntime/StreamCallbackOwners.swift:32-45 | the part before Core is called publishes or refuses as on values; each root that leaves the table is handed out |
| CallbackOwners.StreamCallbackOwners.SettleAccepted | Sources/CoAkkaRuntime/StreamCallbackOwners.swift:50-53 | after acceptance every root the table no longer keeps, replaced or pruned, is that of a handed-out entry |
| CallbackOwners.StreamCallbackOwners.SettleRefused | Sources/CoAkkaRuntime/StreamCallbackOwners.swift:47-49 | after a refusal the candidate's root is handed out and what it hid is back |
| CallbackOwners.RootsAreCells | Sources/CoAkkaRuntime/StreamCallbackOwners.swift:11-17 | the roots of a table are exactly those of the entry objects its dictionary keeps alive |
| CallbackOwners.StreamCallbackOwners.PruneEntries | Sources/CoAkkaRuntime/StreamCallbackOwners.swift:57-66 | drops exactly the resolved entries Core reports absent and hands out each |
| CallbackOwners.StreamCallbackOwners.Forget | Sources/CoAkkaRuntime/StreamCallbackOwners.swift:68-70 | drops the key's entry with what it hides and hands it out, with every root that leaves the table |
| CallbackOwners.StreamCallbackOwners.Detach | Sources/CoAkkaRuntime/StreamCallbackOwners.swift:72-76 | hands out the whole table and leaves it empty |
| Lanes.StreamLane.EnterCall | Sources/CoAkkaRuntime/StreamLane.swift:716-723 | the counter stays the number of calls inside; a call goes in exactly while the lane is open and nobody has sealed it |
| Lanes.StreamLane.LeaveCall | Sources/CoAkkaRuntime/StreamLane.swift:724-729 | the counter stays the number of calls inside, and sleepers are signalled exactly when nobody is left inside |
| Lanes.StreamLane.StartClose | Sources/CoAkkaRuntime/StreamLane.swift:671-683 | over the life of a lane exactly one caller seals it; one that finds it closed returns at once, any other waits |
| Lanes.StreamLane.FinishClose | Sources/CoAkkaRuntime/StreamLane.swift:689-696 | with nobody inside, the table and every root it kept go to the closing caller and the lane is closed; the caller learns of a stop answer other than 0 and -7 |
| Lanes.StreamLane.OfferCallback | Sources/CoAkkaRuntime/StreamLane.swift:554-563 | publishing or subscribing succeeds exactly if Core was called and answered zero; any other answer reaches the caller as it is |
| Lanes.StreamLane.FinishControl | Sources/CoAkkaRuntime/StreamLane.swift:643-646 | only a successful forget lets go of the callback; a failure reaches the caller and changes nothing |
| LaneInvariant.ProtocolKept | Sources/CoAkkaRuntime/StreamLane.swift:671-731 | every step of every thread keeps the counting, locking and closing invariant |
| LaneScopes.StacksKept | Sources/CoAkkaRuntime/StreamLane.swift:704-731 | every step keeps each thread's calls in order: only the running one is inside the lane |
| LaneRecords.LaneKept | Sources/CoAkkaRuntime/StreamLane.swift:510-715 | every step keeps the relation between table and Core's records |
| LaneTheorems.CallsCounted | Sources/CoAkkaRuntime/FileLane.swift:536-551 | the counter is the number of calls that hold a borrow, at most one to a thread; the condition and the effective close have one holder each |
| LaneTheorems.NoCallAfterSeal | Sources/CoAkkaRuntime/FileLane.swift:512-524 | once sealed a lane stays sealed and no thread becomes a borrower |
| LaneTheorems.DestroyedOnce | Sources/CoAkkaRuntime/StreamLane.swift:682-692 | native destroy runs once, after native stop returned, with no call inside |
| LaneTheorems.CloseReturnsClosed | Sources/CoAkkaRuntime/StreamLane.swift:671-692 | every close that found the lane open returns only when it is stopped, destroyed and detached |
| LaneTheorems.DetachedForGood | Sources/CoAkkaRuntime/StreamLane.swift:689-690 | after detaching, no continuation has an entry, a record or a borrower again |
| LaneTheorems.ReleasedOutside | Sources/CoAkkaRuntime/StreamLane.swift:513-517 | the deinit of a callback root, set off by whichever step drops its last reference, starts only on a scope exit, with no call of that thread inside the lane |
| LaneTheorems.CloseNeverWaitsForItself | Sources/CoAkkaRuntime/StreamLane.swift:693 | whatever a thread's running call does, a close called by a deinit included, no call below it on that thread holds a borrow or the condition or takes part in closing |
| LaneScopes.DiesAtExit | Sources/CoAkkaRuntime/StreamLane.swift:704-715 | no step but letting go of a local at a scope exit takes a root's last reference: what admission, pruning, forgetting and detaching drop is handed out |
| LaneScopes.DoIs | Sources/CoAkkaRuntime/StreamLane.swift:704-715 | a step sets a deinit off only when it releases a local |
| LaneSafety.DeinitMayClose | Sources/CoAkkaRuntime/StreamLane.swift:513-516 | a run in which a refused callback's deinit closes the lane from within the call that offered it |
| LaneProgress.NoLostWakeup | Sources/CoAkkaRuntime/StreamLane.swift:677-692 | a sleeping closer has a borrow to wait for, a sleeping late closer a close in progress |
| LaneProgress.NoDeadlock | Sources/CoAkkaRuntime/FileLane.swift:512-551 | while any thread is inside the lane, one of them can go on |
| LaneProgress.ExitsFreely | Sources/CoAkkaRuntime/StreamLane.swift:709 | a call that leaves its scope waits for nobody |
| LaneProgress.AdvanceLowers | Sources/CoAkkaRuntime/StreamLane.swift:687-692 | each step of a thread inside the lane lowers the rank of work and watchers |
| LaneProgress.SealedNeverRises | Sources/CoAkkaRuntime/StreamLane.swift:716-721 | after sealing, no other step but a spurious wake-up raises it |
| LaneProgress.StuckMeansClosed | Sources/CoAkkaRuntime/StreamLane.swift:671-692 | when no thread can go on, a sealed lane is closed and every close has returned |
| LaneProgress.CloseCompletes | Sources/CoAkkaRuntime/StreamLane.swift:670-697 | however a sealed lane is left, letting its threads go on closes it |
| LaneSafety.NoDanglingCallback | Sources/CoAkkaRuntime/StreamCallbackOwners.swift:30-76 | over all runs, every callback Core may call is the root of its key's entry or of what that entry would replace, if and only if the canonical form tells the ids in use apart |
| LaneSafety.TwoSpellings | Sources/CoAkkaRuntime/StreamCallbackOwners.swift:3-6 | for any two ids that are spelled differently and equal as strings, a run that ends with a dangling record |
| LaneCapacity.AlwaysAdmitted | Sources/CoAkkaRuntime/StreamCallbackOwners.swift:36-41 | with an exact Core of that capacity, one entry more is enough: no admission is ever refused by the table |
| LaneCapacity.TableMirrorsCore | Sources/CoAkkaRuntime/StreamCallbackOwners.swift:50-53 | with an exact Core, after each accepted admission the table names exactly Core's records |
| Dispatch.HandlerRegistry.Register | Sources/CoAkkaRuntime/RuntimeHost.swift:114-128 | accepted, closed and out of budget exactly when they apply, with 256 targets and 65536 bytes as the budget; otherwise an invalid argument; one new binding or none, no old one changed |
| Dispatch.HandlerRegistry.ProjectDispatchTarget | Sources/CoAkkaRuntime/RuntimeHost.swift:237-256 | hit or miss, with registrations interleaved around the lookup: refused exactly without bytes or UTF-8, and answered with exactly the handler bound then; exactly the found handlers of at most 256 bytes are cached |
| Dispatch.RegisteredFound | Sources/CoAkkaRuntime/RuntimeHost.swift:249-255 | dispatch finds a handler for exactly the registered targets |
| Identity.MessageIds.Next | Sources/CoAkkaRuntime/RuntimeHostClient.swift:51-58 | an id per request of valid source and target while the counter lasts, starting with the source and ending in the counter; a refusal consumes none |
| Identity.CounterRecovered | Sources/CoAkkaRuntime/RuntimeHostClient.swift:57 | the counter can be read back from the digits after the last dash, for every source |
| Identity.IdInjective | Sources/CoAkkaRuntime/RuntimeHostClient.swift:57 | an id determines its source and its counter |
| Identity.IdsDistinct | Sources/CoAkkaRuntime/RuntimeHostClient.swift:51-58 | no two ids of one host are equal over any run, for arbitrary sources |

## Left out

- Core itself: routing, queues, TLS, transfers and deadlines are in a binary; only its documented call order and answers enter.
- The request runner's loop and the waits of `close` as methods: they need not terminate, so their steps are actions of the protocols.
- Wall-clock durations: the 100 ms read and the 1 s joins are timeouts that may or may not happen.
- Fairness: `LaneProgress` and `SessionProgress` assume that a native call returns and that an enabled thread is eventually scheduled.
- What callbacks and handlers do: they may run, fail, register, and close from a root's deinit; a close called inside a Core callback on a Core worker is up to Core's stop.
- UTF-8 validity and canonical equivalence of strings: an abstract predicate and an abstract canonical form; text is its byte sequence where bytes matter.
- Native buffer releases after copies, and the zero-based `Data` slice index: values have no owner and no base index here.
- Bridge forwarding and symbol loading in the C bridge: plumbing of foreign calls.
- Lane creation, options, snapshots, statistics, grants and JSON: field copies or single-branch facts.
- Library path resolution and process-wide loading: file system and environment.
- RuntimeAskExecutor: its job runs once, later, on another thread; the ticket's phases say no more.
- What an ask makes of its result: response, deadletter or unknown kind is a three-way test after the await.
- The dispatch and match counters of the host: wrapping diagnostics that decide nothing.
- Registration while a request handler runs, and reply building: a registration is a step before or after the lookup; replies are native calls under `WithOpen`.
- Late acceptance after a lost outcome: Core may accept a callback only while the call that offers it is in progress.
