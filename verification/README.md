# Verified model of kirby's OCPP 1.6J engine and tools

This project models the parts of the kirby workspace that carry state over many steps, and proves
what they promise. `dafny verify dfyconfig.toml` checks all of it.

- **Registry and sessions** (`registry.dfy`, `bytheevents.dfy`, `engine.dfy`, `latecalls.dfy`,
  `session.dfy`, `submissions.dfy`, `callsession.dfy`): any number of connections register, replace
  each other, end, are forgotten or shut down, while stale sessions keep running; each session writes
  one CALL at a time and settles it by answer, deadline or end (OCPP-J 1.6, section 4.1.1). Locked
  sections and socket events are atomic steps; a run is any sequence of them.
- **Per-station records** (`stationrecord.dfy`, `windows.dfy`, `transactions.dfy`, `stoppedcap.dfy`,
  `readings.dfy`, `faults.dfy`): bounded counters, frame history, transaction list and fault script,
  each against an unbounded reference.
- **Logs** (`logview.dfy`, `logpairing.dfy`, `alllog.dfy`): numbered rows, CALL and answer pairing, and station tags.
- **Names and text** (`statefile.dfy`, `fnv.dfy`, `collisions.dfy`, `fleet.dfy`,
  `fleetrefusals.dfy`, `decimal.dfy`, `pem.dfy`, `pemerrors.dfy`, `text.dfy`): state file names, id
  templates and the PEM normaliser.
- **Bounded input and output** (`linepump.dfy`, `linereader.dfy`) and **script matching**
  (`script.dfy`, `json.dfy`).

What the program updates in place is a class or a method with loops; beside it stands a function of
the whole history (a `Step` and a `Run`, or an independent reference such as a ledger, a parser
grammar or a split), the method is proved equal to it, and the promises are lemmas about it. Among
them are laws that say what each step does without naming the functions it is made of: by the events
and operations so far, by the rows that are held, by the way a text is spelled.

Where code and comments disagree the model follows the code:

- `file_name` promises a distinct name for every id. The empty id and NUL followed by `empty` share
  one (`StateFiles.EmptyIdSharesItsFile`), and so do some long ids
  (`Collisions.SomeLongIdsShareAFile`); `StateFiles.SharedFiles` says exactly which ids share a file.
  `StationConfig::validate` refuses an empty id, so among the ids of accepted configurations only
  shortened names can be shared (`StateFiles.SharedFilesOfNonEmptyIds`).
- `send` promises that an empty queue accepts any line. A line the writer took but has not uncounted
  can prevent it (`LinePump.EmptyQueueMayRefuse`); `LinePump.EmptyQueueAcceptsExactlyWhen` says when
  the promise holds.
- Ends, frames and answered CALLs act for the current session only, but the failures and answers of
  the engine's own calls are folded into whatever record the station id has by then
  (`LateCalls.LateFailuresMayLandElsewhere`); `LateCalls.LateCallsLandByTheEvents` says which.
- `docs/csms.md` promises the last `--transaction-history-cap` stopped transactions. The cap drops by
  start, not by stop, so the transaction just stopped can be the one that goes
  (`StoppedCap.JustStoppedMayGo`). It goes exactly if `cap` transactions started after it are stopped
  already (`StoppedCap.JustStoppedGoesExactlyWhen`; `StoppedCap.StopKeepsExactlyWhen` for a list of
  any shape).

## Model

| member | source | states |
|---|---|---|
| Registry.EveryRunIsConsistent | crates/kirby-csms-core/src/server.rs:491-566 | over every interleaving of any number of connections: at most `max_stations` records; per station the events alternate Connected, Disconnected (each end names the session that began last) and end with Connected exactly while a session is linked; session ids are 1, 2, 3, ...; no session is ended twice; exactly the replaced and forgotten sessions were told to close, in order |
| Registry.RunKeepsInv | crates/kirby-csms-core/src/server.rs:491-566 | the same from any consistent state: the phase an observer reads off the events alone is the link the registry holds, and a session is linked to one station at most and only until it is ended |
| Registry.UnbrokenAlternates | crates/kirby-csms-core/src/server.rs:528-546 | a station whose events an observer never finds broken has strictly alternating Connected and Disconnected events |
| Registry.StaleSessionsChangeNothing | crates/kirby-csms-core/src/server.rs:551-575 | an end, a frame or a tracked answer of a session changes the state if and only if that session is the current one of its station |
| Registry.SweepUnlinks | crates/kirby-csms-core/src/server.rs:393-404 | sweeping a list of stations clears exactly their links and changes nothing else of any record |
| Registry.StoppingConnectsNobody | crates/kirby-csms-core/src/server.rs:498-501 | from the stop flag alone, before any sweep: no later step announces a session, gives out a session id, creates a record or links one anew |
| Registry.ShutdownIsFinal | crates/kirby-csms-core/src/server.rs:381-404 | once stopping and swept, every later run keeps all stations unlinked and adds no Connected and no Disconnected event |
| Registry.NobodyConnectsAfterAShutdown | crates/kirby-csms-core/src/server.rs:381-404 | a whole shutdown at any point of any run, with any steps while sessions close and after the sweep of the registered stations: nobody is connected from the stop flag on, all are idle from the sweep on, and no session ends after it |
| ByTheEvents.RegistersExactlyWhen | crates/kirby-csms-core/src/server.rs:491-548 | in every run a registration succeeds if and only if no shutdown has begun and the station is known from the events or fewer than `max_stations` are; then it replaces the linked session, keeps a known station's record and is announced under the next number; otherwise nothing changes, and the refusal names the shutdown exactly if one has begun |
| ByTheEvents.EndsExactlyWhen | crates/kirby-csms-core/src/server.rs:551-566 | a session ends if and only if it is the one the events announced last and have not ended, and the end is announced with the reason it gives |
| ByTheEvents.ForgetsExactlyWhen | crates/kirby-csms-core/src/server.rs:245-264 | a station that the events know is removed, after the end of its session, which is told to close; any other `forget` changes nothing |
| ByTheEvents.SweepsExactlyWhen | crates/kirby-csms-core/src/server.rs:393-404 | the sweep of a station ends exactly a session that is still linked, because of the shutdown |
| ByTheEvents.LinkedSessionsAreRecorded | crates/kirby-csms-core/src/server.rs:568-651 | frames and answered CALLs are recorded, and announced if there is somebody to tell or something to tell, if and only if the events say the session is linked |
| ByTheEvents.LateChangesAreAnnounced | crates/kirby-csms-core/src/server.rs:653-677 | what the engine's own calls come back with is announced exactly for a known station; an answer that changes nothing is not |
| LateCalls.LateCallsLandByTheEvents | crates/kirby-csms-core/src/server.rs:653-677 | in every run, a failure or an answer of a call sent through an announced session is folded into the record that session wrote to if and only if the station was not forgotten since; into a record created later if and only if it was and has connected again; and is dropped otherwise |
| LateCalls.LandingInWords | crates/kirby-csms-core/src/server.rs:245-264 | the three cases, read off the events after the session was announced: not forgotten; forgotten, connected after that and not forgotten again; neither |
| LateCalls.RecordsGoOnUntilForgotten | crates/kirby-csms-core/src/server.rs:245-264 | from any state a record goes on, its frames, tracked calls, failures and answers only growing, exactly as long as no step forgets the station, and the events show it |
| LateCalls.LateFailuresMayLandElsewhere | crates/kirby-csms-core/src/server.rs:653-661 | a run in which a failure is counted on a record its session never wrote to |
| LateCalls.TargetsComeFromTheEvents | crates/kirby-csms-core/src/server.rs:288-310 | in every run a call goes through the session the events announced last, or is refused: not connected once that session ended, unknown station if it never connected or was forgotten |
| Engine.Core.Register | crates/kirby-csms-core/src/server.rs:491-548 | takes the step `Register`, with the two refusals in the program's order; the result is the new session id; as in every method, each record is marked connected exactly while it is linked |
| Engine.Core.TakeSession | crates/kirby-csms-core/src/server.rs:528-537 | ends the session of one record, if it has one: one Disconnected event, a Close command exactly for a replaced or forgotten session; no other record is touched |
| Engine.Core.SessionEnded | crates/kirby-csms-core/src/server.rs:551-566 | ends the session only if it is the current one; no other record is touched |
| Engine.Core.Forget | crates/kirby-csms-core/src/server.rs:245-264 | ends the session, then removes the record; the result says whether it existed; no other record is touched |
| Engine.Core.RecordFrame | crates/kirby-csms-core/src/server.rs:568-631 | takes the step `RecordFrame`: counters and bounded history keep standing for the whole past of the station, other records stay as they are |
| Engine.Core.Track | crates/kirby-csms-core/src/server.rs:634-651 | folds the answered CALL into one record, for its current session only; no other record is touched |
| Engine.Core.NoteFailedCall | crates/kirby-csms-core/src/server.rs:653-661 | counts on whatever record the id has, for any session; no other record is touched |
| Engine.Core.TrackResult | crates/kirby-csms-core/src/server.rs:663-677 | folds an answer into whatever record the id has, for any session; no other record is touched |
| Engine.Core.FindSession | crates/kirby-csms-core/src/server.rs:290-300 | where a call goes: an unknown station, one that is not connected, or through the linked session |
| Engine.Core.Sweep | crates/kirby-csms-core/src/server.rs:393-404 | a shutdown leaves no station linked or marked connected, by sweeping every registered station exactly once |
| StationRecords.CountersAddUp | crates/kirby-csms-core/src/server.rs:576-588 | the counters always sum to the number of received CALLs |
| StationRecords.CountersAreBounded | crates/kirby-csms-core/src/server.rs:579-587 | at most 65 counters, 65 only with `other`; no key is longer than 64; an action without a counter came when all were taken |
| StationRecords.NamedCountersAreExact | crates/kirby-csms-core/src/server.rs:579-587 | a counter other than `other` is the exact number of CALLs with that action |
| StationRecords.OtherIsTheRest | crates/kirby-csms-core/src/server.rs:584-587 | `other` counts exactly the CALLs that have no counter of their own |
| StationRecords.StoredIsTheFrameOrItsMarker | crates/kirby-csms-core/src/server.rs:596-604 | a frame is stored as it is unless it exceeds the byte cap, and then as its marker; it counts as what is stored |
| StationRecords.CountCall | crates/kirby-csms-core/src/server.rs:576-588 | the in-place update of the counters is the specified count of one more action |
| StationRecords.MakeRoom | crates/kirby-csms-core/src/server.rs:605-611 | the eviction loop ends, keeps the byte sum exact and stops at the longest tail that leaves room for the new item |
| StationRecords.AppendHistory | crates/kirby-csms-core/src/server.rs:596-623 | the history is the longest suffix of everything recorded that fits both caps, for every cap (0 included), and `history_bytes` is its sum |
| StationRecords.LogFrame | crates/kirby-csms-core/src/server.rs:576-623 | counters and history together keep summarising the unbounded past of a station; one received CALL raises the count and one counter by one, any other frame neither |
| Windows.LongestTailIsMaximal | crates/kirby-csms-core/src/server.rs:605-622 | a tail of the recorded items fits both caps if and only if it is no longer than what is kept |
| Windows.NewestWindowIsMaximal | crates/kirby-ocpp-tui/src/logview.rs:243-260 | in a buffer that never drops its newest item, every later start that fits lies inside the window, and the window fits unless it is one item |
| Session.AtMostOneOutstanding | crates/kirby-csms-core/src/server.rs:1013-1036 | in every run, before a CALL is written each earlier one has been answered, timed out or cut off |
| Session.WrittenInOrderOnlyCancelledSkipped | crates/kirby-csms-core/src/server.rs:1013-1018 | CALLs are written in submission order; an overtaken call was given up by its caller and is never written |
| Session.FatesComeFromTheWire | crates/kirby-csms-core/src/server.rs:1019-1046 | a written call carries the request the session holds under its ticket and a fresh id, and its outcome is the first later event on the wire that concerns it; a timeout is never early |
| Session.EverythingIsSettledByTheEnd | crates/kirby-csms-core/src/server.rs:923-983 | only submitted calls are settled; after the end all are; what was never written was abandoned or cut off |
| Session.OutcomesAreFinal | crates/kirby-csms-core/src/server.rs:1038-1046 | no later step takes an outcome back or changes it |
| Session.AnswersNeverCross | crates/kirby-csms-core/src/server.rs:1086-1097 | the frame that answered a call came after it was written and carries an id that no other written call has, so late, duplicate and unsolicited answers settle nothing else (ids within 2^64 messages) |
| Session.MessageIdsRepeatWithTheCounter | crates/kirby-csms-core/src/server.rs:482-487 | two message ids are equal if and only if their numbers are equal modulo 2^64 |
| Session.VerdictIsFirstJudgement | crates/kirby-csms-core/src/server.rs:1086-1097 | the reference outcome of a call is what the first event after its write that concerns it says |
| Session.VerdictComesLater | crates/kirby-csms-core/src/server.rs:1086-1097 | conversely every outcome comes from such a first event |
| Session.RunKeepsInv | crates/kirby-csms-core/src/server.rs:925-983 | the invariant behind these, for every interleaving of callers, station, clock and session |
| Submissions.WhatGoesIn | crates/kirby-csms-core/src/server.rs:286-310 | in every run, up to the point where the session ends, it takes exactly the requests that callers submit, in order, each with its action and payload and its own timeout or 24 hours, whichever is shorter, and hears exactly what the station sends; afterwards neither |
| Submissions.CallsGoOutAsAsked | crates/kirby-csms-core/src/server.rs:1013-1046 | a written call is the caller's submission with its number, as asked; its outcome is what the wire says, and it never times out before its time |
| Submissions.PumpDoesItsWork | crates/kirby-csms-core/src/server.rs:1013-1036 | a turn of the pump abandons a cancelled call, writes any other under the next number, ends the session if the write fails, and does nothing while a call is open or none was received |
| Submissions.TimersDoTheirWork | crates/kirby-csms-core/src/server.rs:1038-1046 | the first timer from its deadline on settles a written call, and timers do nothing else |
| Submissions.EndsExactlyWhen | crates/kirby-csms-core/src/server.rs:925-983 | a session ends if and only if its socket does, a close command is received or a write fails |
| Submissions.CancelledExactlyWhen | crates/kirby-csms-core/src/server.rs:1015-1018 | the calls given up are those cancelled after they were submitted |
| Submissions.CancelledCallsAreNotWritten | crates/kirby-csms-core/src/server.rs:1015-1018 | a call that its caller gave up before its turn is never written |
| Submissions.NothingIsStuck | crates/kirby-csms-core/src/server.rs:925-1046 | wherever a run stands, receiving what is in the channel and letting as many days pass as there are calls, and one more, settles every call ever submitted |
| Submissions.KnownMessageIds | crates/kirby-csms-core/src/server.rs:482-487 | message 12 is `csms-12`, and the counter wraps at 2^64 |
| CallSession.Runner.Submit | crates/kirby-csms-core/src/server.rs:286-310 | hands the caller's action and payload to the session with the caller's timeout or 24 hours, whichever is shorter; refused exactly when the session has ended |
| CallSession.Runner.NextMessageId | crates/kirby-csms-core/src/server.rs:482-487 | an id that none of the 2^64 - 1 messages before it had |
| CallSession.Runner.PumpCalls | crates/kirby-csms-core/src/server.rs:1013-1036 | the pump loop is the repeated step `Pump`, and ends with a call in flight, nothing queued or the session |
| CallSession.Runner.Drop | crates/kirby-csms-core/src/server.rs:923-925 | the end of the session fails the call in flight, the queue and the channel with `ConnectionClosed` |
| CallSession.EndFailsTheRest | crates/kirby-csms-core/src/server.rs:923-925 | dropping the queues call by call settles exactly the calls the specification settles |
| Faults.ScriptIsOneQueuePerAction | crates/kirby-csms-core/src/server.rs:351-355 | over any interleaving of injections and CALLs the fault list is one FIFO of replies per action |
| Faults.CallTakesTheHead | crates/kirby-csms-core/src/server.rs:682-693 | a CALL takes the head of its action's queue if there is one, and otherwise leaves the script alone; only a default-answered StartTransaction touches the allocator |
| Faults.DecidedInOrder | crates/kirby-csms-core/src/server.rs:694-731 | without a scripted fault: the schema's complaint if it has one, else the responder's answer if there is one, else NotSupported or NotImplemented for an action that is not a charge point's, told apart by whether it is known, else the default answer, with an id if and only if it is StartTransaction |
| Faults.UseFirstPops | crates/kirby-csms-core/src/server.rs:684-692 | using the first fault that applies pops that queue, leaves every other action's queue and lowers the total by one |
| Faults.FaultsAreConserved | crates/kirby-csms-core/src/server.rs:351-377 | occurrences injected are remaining, have answered a CALL or were cleared |
| Faults.RemainingIsTheTotalLength | crates/kirby-csms-core/src/server.rs:358-365 | `faults_remaining` is the length of the whole flattened script, of which each action's queue is the part for that action |
| Faults.IssuedIdsAreSequential | crates/kirby-csms-core/src/policy.rs:77-86 | the k-th default-answered StartTransaction gets `first + k` wrapped to 32 bits, or always the fixed id |
| Faults.EveryStartTakesAnId | crates/kirby-csms-core/src/server.rs:682-731 | over every run the ids given out are as many as the StartTransaction CALLs that found their action's queue empty, no complaint and no responder, and were a charge point's to send |
| Faults.IncrementingIdsRepeatAfterWrap | crates/kirby-csms-core/src/policy.rs:77-86 | two incrementing ids are equal if and only if 2^32 divides their distance |
| Faults.FaultScript.InjectFault | crates/kirby-csms-core/src/server.rs:351-355 | appends a fault that has occurrences left |
| Faults.FaultScript.ClearFaults | crates/kirby-csms-core/src/server.rs:374-377 | drops the whole script and nothing else |
| Faults.FaultScript.DecideReply | crates/kirby-csms-core/src/server.rs:682-731 | search, use and removal in place give the specified decision: fault, schema, responder, unknown action, default |
| Faults.FaultScript.DropUsedUp | crates/kirby-csms-core/src/server.rs:691 | keeps exactly the faults with occurrences left, in order |
| Faults.FaultScript.AllocateId | crates/kirby-csms-core/src/policy.rs:77-86 | hands out the next id and wraps at the largest 32-bit integer |
| Transactions.ListIsAViewOfTheLedger | crates/kirby-csms-core/src/state.rs:401-506 | over every run the list is the unbounded ledger's live transactions in start order, trimmed to the latest-started `cap` stopped ones, and the unknown stops agree, also when ids repeat |
| Transactions.ListIsExact | crates/kirby-csms-core/src/state.rs:401-462 | the list holds every active transaction, at most 256, and of all ever stopped exactly the `cap` started last |
| Transactions.TrimKeepsEveryActive | crates/kirby-csms-core/src/state.rs:450-460 | trimming keeps every active transaction, in order |
| Transactions.TrimKeepsLatestStopped | crates/kirby-csms-core/src/state.rs:450-460 | trimming keeps exactly the last `cap` stopped ones |
| StoppedCap.JustStoppedMayGo | crates/kirby-csms-core/src/state.rs:435-462 | counterexample to "the last stopped transactions": with cap 1, of two that run the later stops first, and the earlier is gone as soon as it stops |
| StoppedCap.JustStoppedGoesExactlyWhen | crates/kirby-csms-core/src/state.rs:435-462 | after any run a stop drops the transaction it stops, and nothing else, exactly if `cap` of those started after it are stopped; otherwise it and everything started after it stay |
| StoppedCap.StopKeepsExactlyWhen | crates/kirby-csms-core/src/state.rs:435-462 | the same for a list of any shape: the transaction stays exactly if fewer than `cap` of those started after it are stopped, and what else is kept on either side of it |
| StoppedCap.TrimSplit | crates/kirby-csms-core/src/state.rs:450-460 | the cap serves the later part of a list first and leaves the earlier part what is over |
| Transactions.StoppedTransactionsNeverChange | crates/kirby-csms-core/src/state.rs:509-514 | a stopped or dropped transaction never changes again, and the k-th ledger entry is the k-th start for ever |
| Transactions.EntriesAreTheStarts | crates/kirby-csms-core/src/state.rs:401-418 | the ledger holds the starts, in order, with their data |
| Transactions.EveryStartAndStopIsAccountedFor | crates/kirby-csms-core/src/state.rs:401-462 | starts = active + ever stopped + evicted, and stops = ever stopped + unknown stops |
| Readings.TransactionsHoldTheirReadings | crates/kirby-csms-core/src/state.rs:401-514 | in every run the i-th transaction ever started holds its start data, the last energy, power and time reading meant for it, and its stop exactly if one was |
| Readings.StartsMakeRoom | crates/kirby-csms-core/src/state.rs:401-433 | a start is added at the end; with 256 active ones already, the active one started first goes, and nothing else |
| Transactions.StationState.OnStart | crates/kirby-csms-core/src/state.rs:401-433 | push, count and removal of the oldest active one are the specified step |
| Transactions.StationState.OnStop | crates/kirby-csms-core/src/state.rs:435-462 | marking and the eviction loop are the specified step |
| Transactions.StationState.OnMeter | crates/kirby-csms-core/src/state.rs:466-507 | readings change the latest active transaction with the id and nothing else; the result says whether a reading counted |
| Transactions.StationState.ActiveIndex | crates/kirby-csms-core/src/state.rs:509-514 | finds the latest active transaction with the id, or none |
| Transactions.FirstWith | crates/kirby-csms-core/src/state.rs:425-430 | finds the first transaction with a status; removing it is the specified drop |
| Transactions.CountWith | crates/kirby-csms-core/src/state.rs:419-423 | the exact number of transactions with a status |
| Transactions.DroppingIsTrimming | crates/kirby-csms-core/src/state.rs:450-460 | dropping the oldest stopped one while there are too many does not change what is kept in the end |
| LogView.EveryReachableLogIsConsistent | crates/kirby-ocpp-tui/src/logview.rs:237-261 | in every reachable log rows are numbered without gaps, `pending[id]` is exactly the newest retained CALL with the id if it is unanswered, CALLs and answers point at each other, and the window is the longest that fits rows and bytes or just the newest row |
| LogView.PairingIsOneToOne | crates/kirby-ocpp-tui/src/logview.rs:308-328 | no two rows have the same partner |
| LogView.AnswersOutliveTheirCalls | crates/kirby-ocpp-tui/src/logview.rs:243-260 | a retained answered CALL points at a retained later answer with the same id that points back |
| LogView.NoRowIsRepaired | crates/kirby-ocpp-tui/src/logview.rs:308-328 | a row keeps its number and contents, and its partner once it has one, through every later run |
| LogView.RecordingKeepsInv | crates/kirby-ocpp-tui/src/logview.rs:263-342 | recording an event keeps numbering, pending map and pairing |
| LogView.EvictingKeepsInv | crates/kirby-ocpp-tui/src/logview.rs:247-259 | dropping the oldest row keeps them too: no pending entry dangles |
| LogPairing.AnswersArePaired | crates/kirby-ocpp-tui/src/logview.rs:308-328 | from any consistent log, a CALLRESULT or CALLERROR whose newest held CALL has no partner becomes its partner: both rows point at each other, the answer knows the time since (never negative), nothing waits for the id any more, and no other row changes |
| LogPairing.OthersPairNothing | crates/kirby-ocpp-tui/src/logview.rs:308-328 | any other event adds its row without a partner and changes no row |
| LogPairing.CallsWait | crates/kirby-ocpp-tui/src/logview.rs:312-314 | a CALL waits for its answer from then on |
| LogPairing.ClearForgetsEverything | crates/kirby-ocpp-tui/src/logview.rs:229-235 | clearing lets go of every row and every waiting CALL, and numbers go on |
| LogPairing.PartnersComeFromTheEvents | crates/kirby-ocpp-tui/src/logview.rs:308-328 | an answer pushed anywhere in any run, looked at in the end: its partner is the newest CALL with its id that was still held and that no other answer came after, and it has none if and only if there was no such CALL |
| LogPairing.RowsAreTheEvents | crates/kirby-ocpp-tui/src/logview.rs:263-342 | in every run row k tells the k-th event that makes a row |
| LogView.LogStore.Build | crates/kirby-ocpp-tui/src/logview.rs:263-342 | the new row and the edit of the CALL it answers, in place, are the specified ones |
| LogView.LogStore.Record | crates/kirby-ocpp-tui/src/logview.rs:237-242 | appends the row with its size and number |
| LogView.LogStore.PushEvent | crates/kirby-ocpp-tui/src/logview.rs:237-261 | takes the step `Push`; only the longest window that fits is held and `bytes` is its sum |
| LogView.LogStore.EvictOldest | crates/kirby-ocpp-tui/src/logview.rs:247-259 | drops one row, its size and its pending entry, if that is its own |
| LogView.LogStore.ClearAll | crates/kirby-ocpp-tui/src/logview.rs:229-235 | drops all rows and pending entries; numbers go on |
| LogView.LogStore.IndexOf | crates/kirby-ocpp-tui/src/logview.rs:344-348 | the place of a row from its number, or none |
| LogView.LogStore.Get | crates/kirby-ocpp-tui/src/logview.rs:355-357 | precisely the row that was given that number, or nothing if it is not held |
| AllLog.KeysTellStationsApart | crates/kirby-csms-tui/src/app.rs:586 | keys of two stations are equal if and only if station and message id are (ids hold no U+001F) |
| AllLog.PairsStayWithinAStation | crates/kirby-csms-tui/src/app.rs:581-588 | a CALL and its answer belong to the same station |
| AllLog.Tags.Push | crates/kirby-csms-tui/src/app.rs:180-186 | keeps the last `capacity` tags |
| AllLog.Tags.Get | crates/kirby-csms-tui/src/app.rs:188-195 | the tag pushed with that number, or nothing if it was dropped or never pushed |
| AllLog.AllStationsLog.PushFrame | crates/kirby-csms-tui/src/app.rs:581-588 | pushes row and tag together and keeps them aligned |
| AllLog.AllStationsLog.PushLine | crates/kirby-csms-tui/src/app.rs:597-604 | the same for a log line |
| AllLog.AllStationsLog.PushRow | crates/kirby-csms-tui/src/app.rs:581-606 | whatever is pushed, every row ever pushed keeps the station it was pushed for |
| AllLog.AllStationsLog.TagOf | crates/kirby-csms-tui/src/app.rs:412-418 | for every row still held, the station it was pushed for, although the log also drops rows by bytes and the tags only by count |
| Pem.NormalizePem | crates/kirby-csms-tui/src/form.rs:1210-1248 | the loop computes `Normalize`: parse, print, and the same error in each failing case |
| Pem.ReadOne | crates/kirby-csms-tui/src/form.rs:1217-1234 | reads one block or gives the first error |
| Pem.WriteBlock | crates/kirby-csms-tui/src/form.rs:1235-1241 | appends header, lines and footer |
| Pem.WriteLines | crates/kirby-csms-tui/src/form.rs:1236-1239 | cuts the data into lines of 64 characters |
| Pem.AcceptsExactlyPem | crates/kirby-csms-tui/src/form.rs:1216-1243 | a text is accepted (or only too long) if and only if it spells blocks, with white space anywhere in the data and around the blocks |
| Pem.ParseIsComplete | crates/kirby-csms-tui/src/form.rs:1216-1243 | whatever spells a list of blocks is read as that list |
| Pem.ParseIsSound | crates/kirby-csms-tui/src/form.rs:1216-1243 | whatever is read as a list of blocks spells it |
| Pem.NormalizeIsIdempotent | crates/kirby-csms-tui/src/form.rs:1210-1248 | the normal form of an accepted text is its own normal form |
| Pem.PasteIsUndone | crates/kirby-csms-tui/src/form.rs:1207-1209 | flattening any accepted text with safe titles to one line does not change its normal form |
| Pem.PasteIsUndoneExactlyForSafeTitles | crates/kirby-csms-tui/src/form.rs:1207-1209 | for every accepted text, flattening it to one line leaves its normal form unchanged if and only if no title holds a control, separator or bidirectional character |
| Pem.UnsafeTitlesAreAccepted | crates/kirby-csms-tui/src/form.rs:1220-1222 | there are accepted texts with such a title, which a paste changes |
| PemErrors.FirstBrokenBlockIsNamed | crates/kirby-csms-tui/src/form.rs:1216-1234 | a text of proper blocks and then a broken one is refused with the complaint about that one: no header, an open header, a missing footer (named), or a body that is empty or not base64 |
| PemErrors.RefusedTextsHaveABrokenBlock | crates/kirby-csms-tui/src/form.rs:1216-1234 | conversely every refused text is of that form |
| PemErrors.BlankTextsAreRequired | crates/kirby-csms-tui/src/form.rs:1212-1215 | a text is refused as missing if and only if it is white space |
| PemErrors.KnownBlock | crates/kirby-csms-tui/src/form.rs:1235-1241 | one block, letter by letter |
| Pem.LinesBreakEvery64 | crates/kirby-csms-tui/src/form.rs:1236-1239 | line breaks stand after every 64 characters and at the end, and nowhere else |
| Pem.LinesHoldTheData | crates/kirby-csms-tui/src/form.rs:1228-1239 | the printed lines without their white space are the data |
| Text.FlattenKeepsStripped | crates/kirby-ocpp-tui/src/text.rs:190-198 | where only white space is unsafe, flattening changes nothing but white space |
| Text.FlattenOne | crates/kirby-ocpp-tui/src/text.rs:190-198 | a pasted line break or tab leaves a space, any other unsafe character nothing, any safe one itself |
| StateFiles.SharedFiles | crates/kirby-ocpp-core/src/store.rs:399-430 | exactly when two ids share a state file: they are equal, or the empty id and NUL followed by `empty`, or both shortened with the same kept prefix and the same hash |
| StateFiles.SharedFilesOfNonEmptyIds | crates/kirby-ocpp-core/src/config.rs:306-318 | with the empty id refused, two ids share a state file exactly when they are equal or both shortened with the same kept prefix and the same hash |
| StateFiles.EmptyIdSharesItsFile | crates/kirby-ocpp-core/src/store.rs:425-427 | counterexample to "any id maps to a distinct name" |
| StateFiles.DecodeEscaped | crates/kirby-ocpp-core/src/store.rs:403-411 | escaping has a decoder, so it is injective for ids of any length |
| StateFiles.ShortNamesAreDistinct | crates/kirby-ocpp-core/src/store.rs:403-427 | ids whose escapes fit have distinct names, but for that one pair |
| StateFiles.LongNamesAreDistinct | crates/kirby-ocpp-core/src/store.rs:412-424 | shortened names are equal exactly when kept prefix and hash are |
| StateFiles.LongNamesHaveATilde | crates/kirby-ocpp-core/src/store.rs:396-398 | a name holds a tilde exactly when it is shortened, so it never equals a plain one |
| StateFiles.KeepIsLongest | crates/kirby-ocpp-core/src/store.rs:412-420 | a prefix fits if and only if it is no longer than the one kept |
| StateFiles.KeptIsAWholeEscape | crates/kirby-ocpp-core/src/store.rs:412-424 | a shortened name keeps 98 to 100 bytes that decode to a prefix of the id, and one byte more would not fit |
| StateFiles.FewBytesChangeTheName | crates/kirby-ocpp-core/src/store.rs:399-430 | ids of equal length that differ within four adjacent bytes have different files, whatever their length |
| Collisions.SomeLongIdsShareAFile | crates/kirby-ocpp-core/src/store.rs:421-424 | counterexample to distinct names for long ids: two different ids of plain bytes with one state file exist |
| StateFiles.NamesAreSafe | crates/kirby-ocpp-core/src/store.rs:387-394 | names hold only `[A-Za-z0-9_.%~-]`, do not start with a dot and are at most 130 bytes |
| StateFiles.SecretsLieBesideTheState | crates/kirby-ocpp-core/src/store.rs:251-255 | the secrets file has the directory and stem of the state file |
| StateFiles.SecretsAreNeverState | crates/kirby-ocpp-core/src/store.rs:251-255 | no state file path equals any secrets file path |
| StateFiles.SecretsAreSharedWithTheState | crates/kirby-ocpp-core/src/store.rs:251-255 | two ids share a secrets file if and only if they share a state file |
| StateFiles.PlainIdsKeepTheirNames | crates/kirby-ocpp-core/src/store.rs:403-411 | of the ids that fit, exactly those of plain bytes and inner dots are their own names, up to 100 bytes |
| StateFiles.PiecesInWords | crates/kirby-ocpp-core/src/store.rs:403-411 | each of the 256 bytes is kept if it is one of the 64 listed or a dot that does not come first, and otherwise written as a percent sign and two capital hexadecimal digits |
| StateFiles.KnownNames | crates/kirby-ocpp-core/src/store.rs:399-430 | the names of `CP-001`, of an id that needs escapes and of the empty id, byte by byte |
| StateFiles.FileName | crates/kirby-ocpp-core/src/store.rs:399-430 | the loop over the bytes computes that name |
| Fnv1a.FewBytesChangeTheHash | crates/kirby-ocpp-core/src/store.rs:433-437 | changing up to four adjacent bytes, in any way, changes the 64-bit hash |
| Fnv1a.XorReachesTheLowByteOnly | crates/kirby-ocpp-core/src/store.rs:435 | on 64-bit words, exclusive or with a byte is the exclusive or of the lowest bytes and keeps the rest, which is what the hash on numbers computes |
| Fnv1a.KnownHashes | crates/kirby-ocpp-core/src/store.rs:433-437 | the published values of the hash for nothing and for `a` |
| Fnv1a.EqualEndingsKeepHashes | crates/kirby-ocpp-core/src/store.rs:433-437 | equal endings neither create nor remove a collision |
| Fnv1a.MultiplyingIsInvertible | crates/kirby-ocpp-core/src/store.rs:435 | multiplying by the prime modulo 2^64 has an inverse |
| Fnv1a.Hex16Denotes | crates/kirby-ocpp-core/src/store.rs:423 | the 16 digits are the hash in hexadecimal |
| Fnv1a.Hex16IsInjective | crates/kirby-ocpp-core/src/store.rs:423 | 16 hexadecimal digits determine the hash |
| StateFiles.HexDigitsArePlain | crates/kirby-ocpp-core/src/store.rs:423 | the digits are lower-case hexadecimal and need no escape |
| Fleet.Ids | crates/kirby-ocpp-core/src/fleet.rs:91-112 | the ids of the specification in order, or the first of its errors in the program's order |
| Fleet.FleetIdsAreDistinct | crates/kirby-ocpp-core/src/fleet.rs:109-111 | a fleet's ids are pairwise distinct |
| Fleet.FleetFilesAreDistinct | crates/kirby-ocpp-core/src/fleet.rs:9-10 | two stations of a fleet share a state file exactly when both names are shortened, keep the same prefix and have the same hash |
| Fleet.NeighboursHaveTheirOwnFiles | crates/kirby-ocpp-core/src/fleet.rs:9-10 | with one placeholder, stations of the same ten thousand whose ids are equally long have files of their own, however long the ids are |
| Fleet.OneTenThousandHasItsOwnFiles | crates/kirby-ocpp-core/src/fleet.rs:9-10 | so in a fleet with one placeholder, within one ten thousand, whose first and last ids are equally long, every station has its own file |
| Fleet.ExpansionIsInjective | crates/kirby-ocpp-core/src/fleet.rs:198-209 | with a placeholder, different indices expand to different ids, however literals, widths and placeholders are mixed |
| Fleet.OneIdWithoutHole | crates/kirby-ocpp-core/src/fleet.rs:103-108 | without a placeholder all indices expand to the same id |
| Fleet.TemplatesAreExactlyTheSpellings | crates/kirby-ocpp-core/src/fleet.rs:133-192 | a text is read as a template if and only if it is its spelling: doubled braces, literal bytes, `{n}` and `{n:WIDTH}` up to 9 |
| FleetRefusals.WidthsAreExactlyTheirSpellings | crates/kirby-ocpp-core/src/fleet.rs:160-181 | a placeholder says width w if and only if it is `n`, for none, or `n:` and w in decimal with any leading zeros, at most 9; otherwise the error tells an unknown placeholder from a bad width |
| FleetRefusals.RefusedTemplatesHaveAFault | crates/kirby-ocpp-core/src/fleet.rs:133-192 | a refused template is well-formed up to its first fault, which is what the error says: a closing brace alone, an opening one that is never closed, or a bad placeholder |
| FleetRefusals.FaultsAreRefused | crates/kirby-ocpp-core/src/fleet.rs:133-192 | conversely a template with a fault is refused for its first one |
| FleetRefusals.SpecsAreAcceptedExactlyWhen | crates/kirby-ocpp-core/src/fleet.rs:91-112 | with a well-formed template: refused for a count outside 1 to 1000, then for a last index beyond 32 bits, then for more than one station without a placeholder, and else accepted |
| FleetRefusals.FaultySpecsAreRefused | crates/kirby-ocpp-core/src/fleet.rs:91-112 | with a faulty template: the same ranges first, then the fault |
| FleetRefusals.KnownFleet | crates/kirby-ocpp-core/src/fleet.rs:91-112 | `CP-{n:02}` from 9: `CP-09`, `CP-10` |
| Fleet.PartsKeepTheMeaning | crates/kirby-ocpp-core/src/fleet.rs:182-190 | collecting literal runs changes neither the expansion nor whether there is a placeholder |
| Fleet.Parse | crates/kirby-ocpp-core/src/fleet.rs:133-192 | the loop gives the parts of the template, or its first error |
| Fleet.ReadPlaceholder | crates/kirby-ocpp-core/src/fleet.rs:152-181 | reads one placeholder and its width, or its error |
| Fleet.ReadInner | crates/kirby-ocpp-core/src/fleet.rs:153-160 | the bytes up to the next closing brace, or none |
| Fleet.ExpandTemplate | crates/kirby-ocpp-core/src/fleet.rs:198-209 | the loop over the parts concatenates their expansions |
| Fleet.ExpandAll | crates/kirby-ocpp-core/src/fleet.rs:109-111 | one id for each index, in order |
| Fleet.PaddedDenotesItsNumber | crates/kirby-ocpp-core/src/fleet.rs:203-205 | what is written for an index are digits, and they denote it, whatever the padding |
| Fleet.PaddedIsInjective | crates/kirby-ocpp-core/src/fleet.rs:203-205 | so no two indices are written alike |
| Decimal.DigitsAreMonotone | crates/kirby-ocpp-core/src/fleet.rs:204 | a larger number is at least as long in decimal |
| Decimal.DecimalIsInjective | crates/kirby-csms-core/src/server.rs:482-487 | decimal text determines the number |
| LinePump.EveryInterleavingIsAccounted | crates/kirby-ocpp-tui/src/stdout_pump.rs:84-139 | in every interleaving of senders, writer and finish at the atomic operations: written, held and queued lines are the accepted ones in send order; notes, counters and pending drops add up to the refused lines; the byte counter is exact and never negative; the queue holds at most `max_bytes`, or one line among empty ones that found the counter at zero; each note stands directly before the next line or at the end |
| LinePump.DrainedOutputIsComplete | crates/kirby-ocpp-tui/src/stdout_pump.rs:93-106 | when the writer is done the output is every accepted line in send order and the notes report exactly the refused lines |
| LinePump.EmptyQueueAcceptsExactlyWhen | crates/kirby-ocpp-tui/src/stdout_pump.rs:122-133 | whatever the writer does between the counting of a line and the decision on it, an empty queue accepts the line if and only if the writer was not holding a line it took and has not uncounted, or holds an empty one, or both fit |
| LinePump.AcceptedExactlyWhen | crates/kirby-ocpp-tui/src/stdout_pump.rs:119-139 | for any queue and any operations in between: a line is accepted if and only if the counter was zero before it or the line fits on top, and there is room for a line when it is decided |
| LinePump.EmptyQueueMayRefuse | crates/kirby-ocpp-tui/src/stdout_pump.rs:122-128 | counterexample to "always accepted by an empty queue": the writer may hold a line it has not uncounted |
| LinePump.DropsAreReportedBeforeTheNextLine | crates/kirby-ocpp-tui/src/stdout_pump.rs:93-106 | whatever senders do between its operations, the writer takes the oldest line and writes it after one note of all lines dropped until then, if there are any |
| LinePump.TakingKeepsInv | crates/kirby-ocpp-tui/src/stdout_pump.rs:93-94 | taking a line from the queue keeps all of that |
| LinePump.QueueingKeepsInv | crates/kirby-ocpp-tui/src/stdout_pump.rs:124-133 | accepting or refusing a counted line keeps all of that |
| LinePump.Pump.SendLine | crates/kirby-ocpp-tui/src/stdout_pump.rs:119-139 | one whole `send` is the specified run of its atomic operations |
| LinePump.Pump.CloseAndDrain | crates/kirby-ocpp-tui/src/stdout_pump.rs:143-158 | after closing, the writer ends, having written everything accepted and reported everything dropped |
| LineReader.ReadLines | crates/kirby-csms/src/stdin_cmd.rs:42-86 | the items sent are those of the whole input split at newlines, up to the one the consumer refuses, however the reads cut it; a failed read loses only the unfinished line; at most `limit` bytes are ever buffered |
| LineReader.EveryLineIsTold | crates/kirby-csms/src/stdin_cmd.rs:42-86 | the items are the terminated lines and then the rest after the last newline, if it is not empty and the input did not fail; each as it is up to the limit and otherwise as too long |
| LineReader.InputIsWhatIsRead | crates/kirby-csms/src/stdin_cmd.rs:46-50 | the input is what the reads bring up to the first empty one or the first failure |
| LineReader.CutsDoNotMatter | crates/kirby-csms/src/stdin_cmd.rs:46-50 | cutting a chunk in two or interrupting the reader does not change the input |
| LineReader.PiecesJoin | crates/kirby-csms/src/stdin_cmd.rs:60-63 | the pieces hold no newline and joined with newlines are the input |
| LineReader.PiecesAreUnique | crates/kirby-csms/src/stdin_cmd.rs:60-63 | it is the only such split |
| Json.SubsetIsReflexive | crates/kirby-csms/src/script.rs:732-742 | every value is a part of itself |
| Json.SubsetIsTransitive | crates/kirby-csms/src/script.rs:732-742 | parts of parts are parts, at any nesting |
| Json.SubsetIsAntisymmetric | crates/kirby-csms/src/script.rs:732-742 | two values that are parts of each other are equal |
| Json.PartsAreSeenByPaths | crates/kirby-csms/src/script.rs:732-742 | a value is a part of another if and only if every path of keys and places in it leads, in the other, to an object for an object, an array of the same length for an array, and the same value otherwise |
| Json.KeysMayBeLeftOut | crates/kirby-csms/src/script.rs:732-742 | leaving out keys gives a part, and a part stays one when keys are added |
| Script.WeakerWishesSucceedEarlier | crates/kirby-csms/src/script.rs:449-464 | asking for less of a payload, or for any station, succeeds whenever asking for more does, at the same CALL or an earlier one |
| Script.EveryCallIsTakenAtMostOnce | crates/kirby-csms/src/script.rs:408-464 | in every run each remembered CALL is consumed at most once, and the memory is the longest tail that fits or the newest CALL alone |
| Script.TheOldestIsTaken | crates/kirby-csms/src/script.rs:449-464 | a step takes the oldest held CALL not taken before whose action, station and payload suit it, and nothing if there is none |
| Script.CallsAreRemembered | crates/kirby-csms/src/script.rs:408-446 | in every run the i-th entry stands for the i-th CALL whose action some step waits for |
| Script.TakingIsFinal | crates/kirby-csms/src/script.rs:449-464 | what was taken stays taken |
| Script.RememberedIsEnough | crates/kirby-csms/src/script.rs:382-395 | leaving out CALLs and payloads no step looks at changes no match of any step |
| Script.CollectWanted | crates/kirby-csms/src/script.rs:383-393 | the loop over the steps collects the wanted actions |
| Script.WantedIsExact | crates/kirby-csms/src/script.rs:383-393 | the collected actions are those of the steps, with the payload if and only if a step for the action looks at it |
| Script.Backlog.RecordCall | crates/kirby-csms/src/script.rs:408-446 | takes the step `Record`, with the byte sum exact |
| Script.Backlog.Find | crates/kirby-csms/src/script.rs:451-456 | the oldest unconsumed CALL that matches, or none |
| Script.Backlog.TakeCall | crates/kirby-csms/src/script.rs:449-464 | takes the step `Take`: marks that CALL and no other |

## Left out

- Sockets, TLS, the HTTP handshake, authentication and tokio: a session sees commands, texts,
  deadlines and the end of its socket as steps; who wins a race is the order of a run.
- JSON parsing, schemas, redaction and serialised sizes: frames and payloads are values, sizes are
  parameters, and a schema's complaint or a responder's answer is a fact given to `Faults.Decide`.
- CallSession.Runner.Submit: does not include the lookup of the session, which is
  `Engine.Core.FindSession`; that lookup and hand-over happen under one lock is not captured.
- Fleet.NeighboursHaveTheirOwnFiles: does not cover several placeholders, ids of unequal length or
  indices of different ten thousands, where the 64-bit hash decides; `Fleet.FleetFilesAreDistinct`
  says for every fleet exactly when two stations share a file.
- Fleet.OneTenThousandHasItsOwnFiles: covers the same fleets.
- Malformed texts, which are answered or dropped outside the modelled state, and the watchdog pings.
- The fields of `StationState` other than transactions and unknown stops, and meter conversion:
  readings arrive converted, and of each message only what it finally writes.
- Timestamps, peer address and subprotocol of a record.
- The engine's locked state is one object in the program and two here, `Engine.Core` and
  `Faults.FaultScript`, which share nothing.
- Order of the shutdown sweep: the program goes by station id, `Engine.Core.Sweep` in any order.
- Machine integers that cannot fill up in practice: 64-bit session and row numbers and saturating
  byte sums are unbounded; the 64-bit message counter, the 32-bit transaction and station indices
  and the 64-bit hash wrap or overflow as in the program.
- `LinePump`: a writer thread that could not be started or died, and the time limit of `finish`.
- Selection, filter, search and texts of log rows, and the parts of the user interfaces around the
  logs and forms.
- The file system side of the store: atomic writes, quarantine and versions.
- The step runner and file format of scripts; reconnect backoff; the testkit server.
