# leveldb-daemon: a verified model

leveldb-daemon is a key-value server with master/slave replication, built on the bundled
faslib. This project models its core in Dafny and proves what the core is for:

- **Replication.** A master remembers one record per slave and takes it through
  `not_ready`, `syncing`, `sync_finishing` and `running`: a pipelined copy of the store in
  key order, 100 portions of up to 1000 keys in flight, then a windowed queue of updates.
  Master store, client record, wire and slave store are one transition system
  (`ReplicationSystem`). Proved over whole runs: no exception, the books of portions and
  window, a window as full as it can be (`ReplicationWindow`), convergence across writes and
  reconnects with the exact condition on a write made during the copy, key by key what the
  slave will have after any run, safe or not, what becomes of a slave that held keys of its
  own, and that the bulk copy is exact and ends. The registry of slaves is tied to the start and the resumption of that system
  (`ReplicationRegistry`).
- **Store operations.** `set`, `del`, `add`, `inc`, `inc_add`, `update_packed` and
  `get_range` as methods on a store (`Handlers`), what they emit for replication
  (`StoreOps`), and the same operations as interleaved steps of many threads under 1024
  hash-selected spinlocks (`StripedLocks`, `LockedCounters`, `LockedBatches`), with plain
  writes that take no lock in between (`UnlockedWrites`). What each batch leaves, reports and
  emits is also said key by key, and for packed records field by field.
- **JSON codec.** The printers and readers of numbers, strings, pairs, pair lists and maps,
  each reader shown to undo its printer, and for strings, pairs and lists exactly when
  (`JsonNumber`, `JsonString`, `JsonStringExact`, `JsonContainer`, `JsonContainerExact`,
  `Wire`), and which other texts the readers take or refuse, with blanks, comments, escapes and
  bare words (`JsonForms`).
- **Stream framing.** CR LF messages through a buffered writer and a splitter, under any
  partial writes and any fragmentation (`Framing`).
- **Connection life.** Two-stage release (`Release`, and what it does as seen from outside in
  `ReleaseEffects`), the object pool with its deferred queue (`Pool`), and two multiplexers
  with one meaning (`Multiplexers`).
- **LRU cache.** The cache against its history (`LruCache`).

Code that changes state in place is a class whose methods are proved to do exactly what a
function on values says; whole-run theorems are proved about those functions.

`dafny verify dfyconfig.toml` checks the whole project.

## Results that need a condition

Some laws one would like to have do not hold of the code without a condition. Each is
stated with its exact condition and a partner that shows the condition is needed.

- A write made while the copy is under way reaches the slave if and only if it leaves the
  frontier key as it is while `syncing` (the forwarding filter is strict, and the next
  portion starts after the frontier key) or changes nothing while `sync_finishing`
  (`WriteConvergesIffSafe`). Such a write exists right after every start on a store with a
  non-empty key (`FrontierWriteIsLost`); deleting the frontier key loses the key after it
  too (`GoneKeySkipsNext`, `FrontierDeleteLosesTwo`). Whatever was written, the slave will
  have each key as it was when a forwarded write or a portion last carried it (`KeyByKey`).
- After a connection lost during the copy and resumed with "continue", slave and master end
  equal if and only if they would have been equal at the moment of the loss, had the slave
  run the queue alone (`ContinueDuringCopy`, `CopyCutShort`).
- The copy ends unless the store holds the empty key and nothing else (`CopyEndsIff`): an
  empty `from` means "from the beginning", so that key is sent for ever.
- A copy onto a slave that holds keys of its own leaves exactly those that no command sent
  mentions (`RestartConvergence`).
- The replicated effect of `inc` equals its local effect if and only if every counter named
  can be read, or the part of the batch before the first that cannot leaves every named key
  with the text it had (`IncReplicatesIff`, with the batch of `AbortLosesUpdates` as
  partner).
- A plain `set` or `del`, which takes no lock, leaves the history serial in every
  continuation if and only if every operation that has read the key and not yet written it
  does the same whether it saw the old or the new content (`PlainWriteSerialIff`). What that
  means for `inc` and `inc_add`, for every content read and found, is stated in
  `IncIndifferentIff` and `IncAddIndifferentIff` (with `PlainSetIsLost` as partner).
- A string, a pair, a list of pairs and a list of keys read back as themselves if and only if
  every string is framed: free of NUL and made of symbols whose continuation bytes need no
  escaping (`QuotedRoundTripIff`, `LooseRoundTripIff`, `PairsRoundTripIff`,
  `KeysRoundTripIff`, with the strings of `RoundTripNeedsBoth` as partners). Well-formed UTF-8
  without NUL is framed.
- A buffered write answered by "closed" drops the buffer (`WriteConservesIff`,
  `CloseLoses`).
- A connection object may be put to use exactly between being given out by the pool and being
  used, or if its new use ends inside the assignment while it is active and no thread is about
  to pool it: otherwise some clearing of the queue pools an object in use or does not find its
  object (`AssignInTurnIff`).
- An object is never handed back more often than it was put to use, and every finished use has
  been handed back exactly once if and only if none was lost: `lost` counts the releases whose
  callback left the object in use and the assignments that met it in use
  (`EveryUseIsAccountedFor`, `FreedOncePerFinishedUseIff`, `LostForGood`). Nothing is lost as
  long as no release callback assigns, nor any callback of the releases an assignment begins
  with (`CalmLosesNothing`, `ReleaseFailsIff`, with `AssignInReleaseIsForgotten` as partner). An object is handed
  back while in use exactly when the close callback put it to use once more often than uses
  ended in it (`HandBackInUseIff`, `AssignInCloseHandsBackInUse`).
- The epoll multiplexer throws if and only if a reset finds its descriptor unwatched
  (`MultiplexersAgree`).

## Model

| member | source | states |
|---|---|---|
| ReplicationClient.Client.DoPushPortion | src/replication.hpp:119-152 | pushes exactly the up to 1000 entries after `from` in key order, remembers the key the next portion continues from, and turns to `sync_finishing` on an empty portion |
| ReplicationClient.CollectPortion | src/replication.hpp:124-133 | the iterator loop gathers exactly that portion of the listing |
| ReplicationClient.Client.DoSyncInitial | src/replication.hpp:191-197 | a fresh copy sends 100 portions, each continuing where the last ended, and leaves the record `syncing` |
| ReplicationClient.Client.DoPushQueue | src/replication.hpp:157-186 | sends the queue entries beyond those already sent, as many as the window of 100 allows; schedules a poll on an empty queue; throws exactly on an empty queue with entries counted as sent |
| ReplicationClient.PushFillsWindow | src/replication.hpp:157-186 | after a push min(100, queue length) entries are sent, and what was sent by it are exactly the next ones of the queue |
| ReplicationWindow.StepFilled | src/replication.hpp:79-206 | every step keeps the window filled with all that was queued before the last push |
| ReplicationWindow.WindowIsFull | src/replication.hpp:79-206 | over every possible run from "start", connected and `running`: every entry queued before the last push is sent, up to 100 |
| ReplicationClient.Client.DoSyncQueue | src/replication.hpp:202-206 | resuming forgets what was in flight and sends the queue again from its head |
| ReplicationClient.Client.DoOnConfirm | src/replication.hpp:79-98 | what a confirmation does in each phase, and exactly when it throws |
| ReplicationClient.Client.DoForward | src/replication.hpp:265-303 | what a write adds to a slave's queue: all of it while `running`, the part strictly below the frontier while `syncing`, nothing otherwise |
| ReplicationClient.ForwardQueuesOne | src/replication.hpp:265-303 | a write changes nothing of a record but its queue, by at most one command, never an empty one |
| ReplicationClient.FilterBelow | src/replication.hpp:283-303 | the filter loop keeps exactly the entries or keys strictly below the frontier, in order |
| Bytes.LessIsLexicographic | src/replication.hpp:283-303 | "below" is the order of byte strings: the first byte that differs is smaller, or one is a proper prefix |
| ReplicationConvergence.PortionRange | src/replication.hpp:119-152 | a portion holds exactly the keys after `from` up to its own last key, as long as `from` is still stored |
| ReplicationConvergence.PortionIsFull | src/replication.hpp:124-133 | and it has 1000 of them, or every key after `from` |
| ReplicationSystem.PushQueueBook | src/replication.hpp:157-186 | filling the window never throws and keeps the books of a running client |
| ReplicationSystem.StepBook | src/replication.hpp:79-206 | every step of writes, slave, confirmations, polls and connection keeps the books, and none throws |
| ReplicationSystem.NoRunThrows | src/replication.hpp:79-206 | from "start" on, over every possible run, neither "fail" nor a queue exception is ever thrown and the books hold |
| ReplicationSystem.StalePollBook | src/replication.hpp:102-114 | a look at the queue left over from an earlier connection keeps the books, whether it finds its connection closed or taken over |
| ReplicationSystem.WindowAndNoStall | src/replication.hpp:91-186 | while `running`: 0 <= `queue_pipelined` <= min(100, queue length); what was sent is exactly the first `queue_pipelined` queue entries in order; with the connection up a confirmation is awaited or a look at the queue scheduled on this very connection |
| ReplicationSystem.SyncBookkeeping | src/replication.hpp:79-152 | during the copy `current_keys` never decreases, has one key per outstanding portion and exactly 100 while `syncing`; the queue is entered with none outstanding |
| Store.RunAllIsOverlay | src/fas_methods.hpp:178-210 | any sequence of set and del batches amounts to overlaying each touched key's last value |
| Store.PutAllGivesLast | src/fas_methods.hpp:178-186 | a batch of puts leaves each key it names with the last value given and every other key alone |
| Store.DeleteAllRemoves | src/fas_methods.hpp:202-210 | a batch of deletes removes exactly the keys it names |
| Store.ReplayChangesNothing | src/fas_methods.hpp:178-210 | running an already applied prefix again and then the whole sequence gives what the whole sequence gives |
| ReplicationConvergence.BelowEffect | src/replication.hpp:283-303 | the forwarded part of a write has exactly the write's effect on the keys below the frontier |
| ReplicationConvergence.CoverStep | src/replication.hpp:119-152 | one more portion extends the range on which slave and master will agree to that portion's last key |
| ReplicationConvergence.ConfirmSyncingEventual | src/replication.hpp:79-86 | a portion sent while updates are queued acts as if sent after them |
| ReplicationConvergence.WriteKeepsConvergentIffSafe | src/replication.hpp:265-303 | in every phase a write keeps the slave on course if and only if it is safe |
| ReplicationConvergence.WriteElsewhereIsSafe | src/replication.hpp:283-303 | while `syncing`, a write that leaves out the frontier key is safe |
| ReplicationConvergence.StepConverges | src/replication.hpp:79-303 | every safe step keeps the slave on course |
| ReplicationConvergence.Convergence | src/replication.hpp:79-303 | from "start" on an empty slave, over every safe run, whenever the record is `running` the wire followed by the unsent queue turns the slave's store into the master's; with an empty queue the stores are equal |
| ReplicationConvergence.RunningConvergence | src/replication.hpp:91-206 | from a running state on course, over every run of writes, slave steps, confirmations, polls, lost connections and "continue", the whole queue still turns the slave's store into the master's |
| ReplicationConvergence.RunningMeaning | src/replication.hpp:157-186 | while connected, the requests not yet run and the unsent queue tail have the same result as the whole queue |
| ReplicationRestart.RunApart | src/replication.hpp:79-303 | the slave's store never influences the rest: with another store there, the same run ends alike |
| ReplicationRestart.RestartConvergence | src/replication.hpp:79-303 | from "start" on any slave, over every safe run, whenever the record is `running` the queue turns the slave's store into the master's plus exactly those of its own keys that no command sent mentions |
| ReplicationQuiet.WriteConvergesIffSafe | src/replication.hpp:265-303 | a write during the copy followed by any quiet run to `running`: slave and master agree if and only if the write was safe |
| ReplicationQuiet.MissedForever | src/replication.hpp:119-152 | a key the slave has missed stays missed over every quiet run |
| ReplicationQuiet.FrontierWriteIsLost | src/replication.hpp:283-303 | for every store with a non-empty key, another value for the frontier key right after the start never reaches the slave, over every quiet run to `running` |
| ReplicationQuiet.GoneKeySkipsNext | src/replication.hpp:125-133 | seeking a key that is gone and stepping on leaves the next stored key out of the portion |
| ReplicationQuiet.SkippedForever | src/replication.hpp:119-152 | when the frontier key is gone, the next key stays wrong on the slave over every quiet run to `running` |
| ReplicationQuiet.FrontierDeleteLosesTwo | src/replication.hpp:119-152 | deleting the frontier key right after the start leaves it on the slave and keeps the next key from it, over every quiet run to `running` |
| ReplicationAccount.StepCarries | src/replication.hpp:79-303 | each event changes what the slave will have of a key only by carrying it: a forwarded write or a portion that holds it |
| ReplicationAccount.StartCarries | src/replication.hpp:191-197 | the start carries to an empty slave exactly the keys up to the frontier |
| ReplicationAccount.KeyByKey | src/replication.hpp:79-303 | after every run onto any slave, with any writes, whose connection lasts until the copy is done: the slave will have each key as it was on the master when last carried |
| ReplicationQuiet.ContinueDuringCopy | src/replication.hpp:232-262 | a connection lost anywhere in the copy and resumed with "continue": after every quiet run slave and master agree if and only if the queue alone would have made them agree at the loss |
| ReplicationQuiet.CopyCutShort | src/replication.hpp:232-262 | for any non-empty store, cut right after the start, nothing ever comes over any quiet run |
| ReplicationQuiet.QuietStepSmaller | src/replication.hpp:79-152 | on a quiet master every step of the copy makes (phase, keys ahead, pending work) lexicographically smaller |
| ReplicationQuiet.SomeoneCanMove | src/replication.hpp:79-152 | as long as the copy is under way slave or master can move |
| ReplicationQuiet.CopyEnds | src/replication.hpp:79-152 | on a quiet master every run of as many steps as a computed budget has reached `running`, whatever the turns |
| ReplicationQuiet.CopyEndsIff | src/replication.hpp:119-152 | it can do so if and only if the store is not the empty key alone with nothing else sent |
| ReplicationExact.BulkCopyIsExact | src/replication.hpp:119-152 | on a quiet master the portions pushed are together the sorted store, every key once; the slave ends with the master's store over its own, equal to it exactly when it held no other key |
| ReplicationRegistry.OthersUntouched | src/replication.hpp:232-262 | one slave's request changes no other slave's record |
| ReplicationRegistry.Replication.Locate | src/replication.hpp:232-254 | the record worked on is the registered one, or a new one if there is none or "start" renews it; all others stay |
| ReplicationRegistry.Replication.Join | src/replication.hpp:250-262 | starting or resuming changes one record, a new one if there is none or it starts over, and sends what that record's operation sends |
| ReplicationRegistry.Replication.DoAddClient | src/replication.hpp:232-262 | "stop", "start", "auto" and "continue" for known and unknown slaves: all records afterwards and all that is sent and scheduled |
| ReplicationRegistry.StartBeginsCopy | src/replication.hpp:232-262 | "start" of any slave and "auto" of an unknown one: the record is that of the replication system at its start, and what is sent is what is on its wire |
| ReplicationRegistry.ResumeContinues | src/replication.hpp:232-262 | "continue" and "auto" of a known slave: record, requests and polls are those of that system when it resumes |
| ReplicationRegistry.UnknownAndStop | src/replication.hpp:232-262 | "continue" of an unknown slave makes a `running` record with an empty queue; "stop" leaves none and sends nothing |
| ReplicationRegistry.Replication.SendToClients | src/replication.hpp:265-303 | a write is forwarded to every record by its own phase and frontier, and no record twice |
| StoreOps.IncCompletesIff | src/fas_methods.hpp:252-274 | an `inc` batch runs to its end if and only if every stored counter it names can be read |
| StoreOps.IncReplicates | src/fas_methods.hpp:252-274 | the emitted pairs, run on the store as it was, give the store as it is, repeated keys included |
| StoreOps.IncAdds | src/fas_methods.hpp:252-274 | each stored counter moves by the sum of its deltas; absent keys stay absent |
| StoreOps.IncFinalText | src/fas_methods.hpp:252-274 | the text a completed batch leaves in each stored key: the canonical sum if named, what it was if not |
| StoreOps.IncReports | src/fas_methods.hpp:252-274 | each delta of a stored key adds one pair to what is reported and emitted: the key with the number so far |
| StoreOps.IncStops | src/fas_methods.hpp:252-274 | a batch leaves exactly what its part before the first unreadable counter leaves, and that part by itself completes |
| StoreOps.IncReplicatesIff | src/fas_methods.hpp:252-274 | replicated effect equals local effect if and only if every named counter is readable or the attempted part adds nothing |
| StoreOps.AbortLosesUpdates | src/fas_methods.hpp:252-274 | a batch stopped by an unreadable counter that has changed the store and emitted nothing |
| StoreOps.IncAddReplicates | src/fas_methods.hpp:282-311 | replicated effect equals local effect for `inc_add` |
| StoreOps.IncAddAdds | src/fas_methods.hpp:282-311 | each key ends at its stored number, default or zero plus the sum of its deltas |
| StoreOps.IncAddFinalText | src/fas_methods.hpp:282-311 | the text in each key afterwards: the canonical sum if named, what it was if not |
| StoreOps.IncAddReports | src/fas_methods.hpp:282-311 | each delta adds one pair to what is reported and emitted: the key with the number so far |
| StoreOps.AddReplicates | src/fas_methods.hpp:224-244 | replicated effect equals local effect for `add` |
| StoreOps.AddKeepsFirst | src/fas_methods.hpp:224-244 | `add` never overwrites, and of several pairs for an absent key the first wins |
| Handlers.AddReports | src/fas_methods.hpp:224-244 | each pair adds itself to what is put and emitted if it is the first of an absent key, and nothing otherwise |
| StoreOps.PackedCallReadsBack | src/fas_methods.hpp:319-364 | after one `update_packed` the stored text reads back as the updated record |
| StoreOps.PackedRecordIsMap | src/fas_methods.hpp:319-364 | after any sequence of `update_packed` calls, whatever the printing orders, the stored text reads as the map the same calls make of the record the first one found |
| StoreOps.UpdatedField | src/fas_methods.hpp:339-351 | one call, field by field: first the last value `set` for the field, else what it was; then, if it is incremented, the canonical decimal of that number plus its increments, absent, empty or unreadable counting as zero |
| StoreOps.PackedFieldByField | src/fas_methods.hpp:319-364 | after any sequence of calls each field of the stored record is what each call in turn makes of it in that order, from the stored record or the first default |
| StoreOps.IncrementedAdds | src/fas_methods.hpp:342-351 | a counter field moves by the sum of its increments from what the overlay left, absent or unreadable counting as zero |
| StoreOps.CounterRoundTrip | src/fas_methods.hpp:262-266 | a counter printed by one handler is read by the next as the same number |
| Handlers.Daemon.DoSet | src/fas_methods.hpp:178-186 | stores every pair in order and emits the batch; running what is emitted on the old store gives the new one |
| Handlers.Daemon.DoDel | src/fas_methods.hpp:202-210 | deletes every key and emits the list; likewise |
| Handlers.Daemon.DoAdd | src/fas_methods.hpp:224-244 | what is stored, reported and emitted: a pair is reported as added exactly when its key was absent and it is the first of its key; running the emitted command on the old store gives the new one |
| Handlers.AddFlagsAreNew | src/fas_methods.hpp:224-244 | the reported flags are those of the first pairs of absent keys |
| Handlers.Daemon.DoInc | src/fas_methods.hpp:252-274 | throws if and only if a named counter is unreadable, emitting nothing and leaving the store as it was exactly when the attempted part adds nothing; otherwise the emitted command reproduces the new store |
| Handlers.Daemon.DoIncAdd | src/fas_methods.hpp:282-311 | store, result and emitted command agree |
| Handlers.Daemon.DoUpdatePacked | src/fas_methods.hpp:319-364 | one step of the packed record, overlay before increments, its result stored and emitted; running the emitted command gives the new store |
| Handlers.Daemon.GetRange | src/fas_methods.hpp:102-130 | refuses negative bounds and more than 11000 in all; otherwise exactly the page of the sorted entries in range |
| Handlers.Scan | src/fas_methods.hpp:119-127 | the loop visits wanted elements only, and stops at the end, at the first unwanted one or at the total |
| Handlers.ScanPage | src/fas_methods.hpp:109-128 | the iterator loop returns exactly the keys with `from` <= key and (`to` empty or key <= `to`), `skip` dropped, `limit` taken |
| Handlers.SelectedMembers | src/fas_methods.hpp:109-128 | a key is selected exactly when stored and in range |
| Handlers.ScanIsExact | src/fas_methods.hpp:109-128 | the result is cut out of the increasing list of all stored keys with `from` <= key and (`to` empty or key <= `to`): those after the first `skip`, at most `limit` |
| Handlers.PagesTile | src/fas_methods.hpp:102-130 | consecutive pages join to one page without gap or overlap |
| StripedLocks.StepInv | src/db.hpp:107-117 | every thread step keeps exclusion, fresh copies, the serial history and each thread's own order |
| StripedLocks.Serializable | src/fas_methods.hpp:224-364 | every interleaving leaves the store the logged operations leave when run one after another, each thread's in its own order |
| StripedLocks.MutualExclusion | common/lock_atomic.hpp:8-28 | no stripe ever has two holders |
| LockedCounters.HandlersAreOps | src/fas_methods.hpp:224-311 | single `inc`, `inc_add` and `add` steps as operations under the locks: run alone they do what the handlers do, `inc` throwing when the handler does |
| LockedCounters.PackedAlone | src/fas_methods.hpp:319-364 | so does a single `update_packed`, for any order of visiting the hash map |
| LockedCounters.IncIsIncrement | src/fas_methods.hpp:252-274 | `inc` adds to a readable counter and leaves every other key alone |
| LockedCounters.IncAddIsIncrement | src/fas_methods.hpp:282-311 | `inc_add` always adds: to the stored number, zero if it is unreadable, the default if the key is absent |
| LockedCounters.NoLostUpdate | src/fas_methods.hpp:252-311 | for any key, absent or unreadable at the start included, any threads, hash and interleaving of `inc` and `inc_add`, each with its own default: a counter present is the number counting started from plus the increments carried out, and while the key is absent none has been |
| LockedCounters.OriginIsFirst | src/fas_methods.hpp:291-301 | counting starts from the stored number, or from the default of the first logged increment that puts the key |
| LockedCounters.EveryIncrementCounts | src/fas_methods.hpp:252-311 | once all threads are done and none has thrown, it is that number plus every increment in every batch except those refused; none is refused when the counter was readable or only `inc_add` touches it |
| LockedBatches.WaitsIff | common/lock_atomic.hpp:8-28 | a thread waits if and only if another one is busy with a key of the same stripe of 1024 |
| LockedBatches.ThrowEndsBatch | src/fas_methods.hpp:252-274 | over every run: once an operation of a batch has thrown, nothing of that batch is done any more |
| LockedBatches.SoloBatch | src/fas_methods.hpp:252-311 | a batch run by one thread alone leaves what its operations leave one after another |
| LockedBatches.IncInTurn | src/fas_methods.hpp:252-274 | and that is what the `inc` handler leaves, also when it throws |
| LockedBatches.IncAddInTurn | src/fas_methods.hpp:282-311 | and what the `inc_add` handler leaves |
| StripedLocks.SomeoneMoves | common/lock_atomic.hpp:8-28 | while a thread is unfinished some thread can take a step that is not a spin |
| StripedLocks.MovesAreBounded | common/lock_atomic.hpp:8-28 | steps that are not spins use up a bounded supply |
| StripedLocks.CanFinish | common/lock_atomic.hpp:8-28 | from every state that keeps exclusion some schedule finishes all threads |
| UnlockedWrites.PlainWriteSerialIff | src/fas_methods.hpp:178-210 | an unlocked write leaves the store serial in every continuation if and only if each operation that has read the key and not yet written it is indifferent to the write |
| UnlockedWrites.IncrementIndifferentIff | src/fas_methods.hpp:252-311 | for every increment, every content it has read and every `set` or `del`: the exact condition for being indifferent |
| UnlockedWrites.IncAddIndifferentIff | src/fas_methods.hpp:282-311 | for `inc_add`: both contents, absent and unreadable included, stand for the same number |
| UnlockedWrites.IncIndifferentIff | src/fas_methods.hpp:252-274 | for `inc`: equal numbers if it has read one, otherwise nothing to add to or nothing changed by adding |
| UnlockedWrites.PlainWritesAmongOps | src/fas_methods.hpp:178-364 | over every run of threads and plain writes that nobody minds, the store is that of a serial history |
| UnlockedWrites.PlainSetIsLost | src/fas_methods.hpp:178-186 | a set between an increment's read and its write leaves no trace in the store |
| JsonNumber.RoomSuffices | fas/misc/json/json_number.hpp:55-59 | n bytes never need more than 2n + n/2 + n%2 decimal digits: 256^n <= 10^(2n + ceil(n/2)) |
| JsonNumber.XorSwap | fas/misc/json/json_number.hpp:89-90 | three exclusive ors exchange two bytes |
| JsonNumber.SwapBytes | fas/misc/json/json_number.hpp:90 | the three assignments exchange two buffer bytes and touch no other |
| JsonNumber.ReverseInPlace | fas/misc/json/json_number.hpp:89-90 | the swap loop reverses the digits and touches nothing else |
| JsonNumber.WriteDigits | fas/misc/json/json_number.hpp:78-87 | the digit loop of either sign writes the digits, least significant first, inside the buffer |
| JsonNumber.Serialize | fas/misc/json/json_number.hpp:70-96 | every signed or unsigned n-byte value, the least included, is printed inside the buffer as its canonical decimal |
| JsonNumber.ReadInteger | fas/misc/json/json_parser.hpp:354-378 | the reading loop computes the digit fold, with its error cases |
| JsonNumber.FoldThen | fas/misc/json/json_number.hpp:102-124 | folding printed digits shifts the accumulator and adds the number |
| JsonNumber.NumberRoundTrip | fas/misc/json/json_number.hpp:70-124 | reading the canonical decimal gives the value back and stops at the following text |
| JsonForms.ReadsAllDigits | fas/misc/json/json_parser.hpp:354-378 | a run of digits that does not start with zero is read to its end as its decimal value, with or without a sign |
| JsonForms.LeadingZero | fas/misc/json/json_parser.hpp:354-378 | a zero ends the number at once, whatever follows |
| JsonForms.NumberStarts | fas/misc/json/json_parser.hpp:354-378 | a number is read if and only if the text starts with a digit, or a minus sign and a digit |
| JsonForms.MachineSizes | fas/misc/json/json_number.hpp:55-68 | the ranges of 8-bit and 64-bit integers and the buffer sizes they get |
| JsonString.SkipSpaceStops | fas/misc/json/json_parser.hpp:13-49 | what is left after blanks and comments is the end of the text, empty or starting with neither a blank nor a slash |
| JsonString.SkipSpaceKeepsIff | fas/misc/json/json_parser.hpp:13-49 | text is left alone if and only if it is empty or starts so |
| JsonForms.SkipsBlanks | fas/misc/json/json_parser.hpp:13-49 | blanks, tabs, CR and LF in front of any text are skipped and nothing else with them |
| JsonForms.SkipsOnlyBlanks | fas/misc/json/json_parser.hpp:13-49 | in text free of slashes nothing but those is skipped |
| JsonForms.SkipsComment | fas/misc/json/json_parser.hpp:13-49 | a comment in front of any text that does not start with a star is skipped |
| JsonString.WriteString | fas/misc/json/json_string.hpp:13-47 | the escape loop prints the quoted, escaped text up to the first NUL |
| JsonString.RunLoop | fas/misc/json/json_string.hpp:49-91 | the reading loop computes what its recursive definition says, error cases included |
| JsonString.EscapedToken | fas/misc/json/json_string.hpp:93-178 | every escaped single byte, `\u00XX` included, is read back as that byte |
| JsonForms.EncodesCodePoint | fas/misc/json/json_string.hpp:93-178 | the bytes written for the number of a four-digit escape are its one well-formed sequence (section 3 of RFC 3629) if and only if it is no surrogate |
| JsonForms.HexEscapeReads | fas/misc/json/json_string.hpp:93-178 | a four-digit escape reads as the bytes of the code point its digits spell |
| JsonForms.BrokenHexEscape | fas/misc/json/json_string.hpp:93-178 | one that is cut short or holds anything but hexadecimal digits is refused |
| JsonForms.OtherEscapesFail | fas/misc/json/json_string.hpp:93-178 | so is any other letter after a backslash |
| JsonForms.Unterminated | fas/misc/json/json_string.hpp:49-91 | and a string without its closing quote |
| JsonForms.NoRawControls | fas/misc/json/json_string.hpp:13-47 | the first codec never writes a raw control byte |
| JsonForms.PlainText | fas/misc/json/json_string.hpp:13-47 | text that needs no escapes is printed between two quotes as it is |
| JsonString.QuotedRoundTrip | fas/misc/json/json_string.hpp:13-178 | the first codec reads back every framed string and stops after the closing quote |
| JsonStringExact.QuotedRoundTripIff | fas/misc/json/json_string.hpp:13-178 | for every string and every following text it does so if and only if the string is framed |
| JsonStringExact.NoStrayBackslashes | fas/misc/json/json_string.hpp:93-178 | no run of backslashes in front of a printed string goes unnoticed by the reader |
| JsonString.LooseRoundTrip | src/strvalue.hpp:19-183 | the second codec does the same |
| JsonStringExact.LooseRoundTripIff | src/strvalue.hpp:19-183 | with the same exact condition |
| JsonString.Utf8RoundTrip | src/strvalue.hpp:19-183 | both codecs, for every NUL-free well-formed UTF-8 string (section 4 of RFC 3629) and every following text |
| JsonForms.BareWordReads | src/strvalue.hpp:19-183 | the second codec takes a bare word of whole symbols up to a closing brace or bracket, a blank or a comma |
| JsonString.RoundTripNeedsBoth | fas/misc/json/json_string.hpp:13-178 | a string with a NUL and one with a lone lead byte, and what becomes of them |
| JsonContainer.WriteContainer | fas/misc/json/json_array.hpp:155-169 | the printing loop separates elements by single commas inside the brackets |
| JsonContainer.ReadContainer | fas/misc/json/json_array.hpp:119-153 | the reading loop computes the container's definition, error cases included, and always consumes input |
| JsonContainer.ContainerRoundTrip | fas/misc/json/json_array.hpp:108-169 | for any element codec that fits, the same elements in the same order, stopping after the bracket |
| JsonForms.LaidOutItems | fas/misc/json/json_array.hpp:108-153 | elements with any blanks and line ends around them read as the same elements |
| JsonForms.LaidOutPairReads | fas/misc/json/json_array.hpp:8-40 | so does a pair with blanks around its colon |
| JsonForms.LaidOutPairsRead | src/aj_pairvector.hpp:11-54 | so does a whole list of pairs, with blanks around every string, colon, comma and bracket |
| JsonForms.NullReads | src/aj_pairvector.hpp:11-54 | the word null reads as no pairs, no keys or the empty string, and empty brackets as no pairs |
| JsonForms.MissingColon | fas/misc/json/json_array.hpp:8-40 | a pair without a colon or without a value behind it is refused |
| JsonForms.MissingComma | fas/misc/json/json_array.hpp:119-153 | a pair followed by neither a comma nor the closing brace is refused |
| JsonForms.TrailingComma | fas/misc/json/json_array.hpp:119-153 | a comma before the closing brace is let pass |
| JsonForms.PrintedForms | fas/misc/json/json_array.hpp:155-169 | two pairs and two keys, byte by byte as printed |
| JsonContainerExact.PairRoundTripIff | fas/misc/json/json_array.hpp:8-40 | a printed key/value pair is read back, whatever follows, if and only if key and value are framed |
| JsonContainerExact.PairsRoundTripIff | src/aj_pairvector.hpp:11-54 | a printed vector of pairs is read back with the same pairs in the same order, whatever follows, if and only if all are framed |
| JsonContainerExact.KeysRoundTripIff | fas/misc/json/json_array.hpp:108-169 | likewise a list of keys |
| JsonContainer.MapRoundTrip | fas/misc/json/json_array.hpp:108-169 | whatever order a map is printed in, it is read back as the same map |
| JsonContainer.MapOfFirst | fas/misc/json/json_array.hpp:108-153 | of several pairs for a key the first counts |
| Wire.CommandRoundTrip | src/replication.hpp:135-141 | the parameter text of a replication request is read as the same command, whatever follows, if and only if its strings are framed |
| Wire.BodyBreakless | fas/misc/json/json_string.hpp:13-47 | whatever the keys and values, that text contains neither CR nor LF |
| Wire.CommandsSurviveFraming | common/aspect/rn_json_aspect.hpp:33-46 | any sequence of commands, each in any envelope free of line breaks, terminated, joined and cut again: one frame each, in order, whose parameters read as the same command and end where the envelope goes on |
| Framing.Splitter.ScanBreaks | fas/adv/io/ad_binary_splitter.hpp:116-139 | the scan emits exactly the frames of the buffer and returns where the last one ended, or, when a receiver clears the splitter, exactly the frames up to that one |
| Framing.Splitter.Parse | fas/adv/io/ad_binary_splitter.hpp:116-139 | the same with -1 for no frame and 0 for a cleared splitter |
| Framing.Splitter.Receive | fas/adv/io/ad_binary_splitter.hpp:77-112 | one block: the kept tail and the block are cut together, the frames emitted in order, the unterminated rest kept; a receiver that clears gets the last frame and nothing is kept; the buffer never holds a separator |
| Framing.SplitConcat | fas/adv/io/ad_binary_splitter.hpp:77-139 | cutting block by block is cutting the whole stream, for every fragmentation |
| Framing.SplitTerminated | common/aspect/rn_json_aspect.hpp:33-46 | terminated messages free of CR LF are cut exactly where they were joined |
| Framing.Writer.Write | fas/adv/io/ad_binary_write.hpp:145-184 | for every answer: the socket takes the first bytes of what is buffered and what is new, as many as it says; the rest stays buffered, nothing after "closed" |
| Framing.Writer.Flush | fas/adv/io/ad_binary_write.hpp:190-212 | the same for a flush, whose answer is handed on; a closed socket leaves the buffer alone |
| Framing.Writer.Send | common/aspect/rn_json_aspect.hpp:33-46 | message and CR LF are written as one |
| Framing.TakenAsAnswered | fas/adv/io/ad_binary_write.hpp:145-212 | a write and a flush hand over exactly as many bytes as the socket says it has taken |
| Framing.WriteConservesIff | fas/adv/io/ad_binary_write.hpp:145-184 | bytes are conserved in order if and only if the answer is not "closed" or there was nothing to write |
| Framing.FlushConserves | fas/adv/io/ad_binary_write.hpp:190-212 | a flush always conserves bytes in order |
| Framing.MessagesSurvive | fas/adv/io/ad_binary_splitter.hpp:77-139 | over every run of sends, partial or refused writes, flushes and deliveries, the socket putting on the net as many bytes as it answers: the emitted frames are an initial part of the messages sent, in order, each once; all of them once nothing is buffered or in transit |
| Framing.CloseLoses | fas/adv/io/ad_binary_write.hpp:145-184 | a send answered by "closed" loses bytes |
| Release.MuxConnection.LeaveUse | fas/mux/mux_filter.hpp:578-606 | the flags of a soft release while output waits and of a hard one otherwise |
| Release.MuxConnection.FilterRelease | fas/mux/mux_filter.hpp:569-617 | a hard release runs its callback and reports whether the object is still released then |
| Release.MuxConnection.Read | fas/mux/mux_filter.hpp:684-704 | a read whose side has closed releases, unless already on the way out |
| Release.MuxConnection.Write | fas/mux/mux_filter.hpp:706-729 | nothing while releasing, handlers reset when the side is closed, otherwise output and what follows it |
| Release.MuxConnection.Flush | fas/mux/mux_filter.hpp:731-757 | the same for buffered output, also while releasing |
| Release.MuxConnection.Assign | fas/inet/connection.hpp:188-215 | whatever was there is released, twice if need be, before the object is put to use; it counts as closed at the end unless open both ways |
| Release.MuxConnection.Release | fas/inet/pooled_item.hpp:30-37 | a successful release closes the socket and hands the object back once |
| Release.MuxConnection.Close | fas/inet/connection.hpp:217-237 | closing is done once |
| Release.MuxConnection.SetWriteHandler | fas/mux/mux_filter.hpp:619-636 | each request for write readiness is counted |
| Release.MuxConnection.ResetWriteHandler | fas/mux/mux_filter.hpp:638-655 | the handler goes when the count does, or at once |
| Release.MuxConnection.SetWriteHandlerIfReady | fas/mux/mux_filter.hpp:763-787 | after output: wait for write readiness while some is left, otherwise withdraw and complete a soft release; with the write side closed release |
| Release.ReleaseOnce | fas/inet/connection.hpp:361-370 | with callbacks that assign nothing, release reports success exactly when it takes the object out of use, and hands it back then and only then |
| Release.PerformSteady | fas/mux/mux_filter.hpp:537-787 | every action, whatever its callbacks and those of its releases and closes do, keeps uses handed back, going on and lost equal to the times put to use |
| Release.PerformLossless | fas/mux/mux_filter.hpp:537-787 | and loses no use as long as no release callback assigns, nor any callback of the releases an assignment begins with |
| Release.EveryUseIsAccountedFor | fas/mux/mux_filter.hpp:537-787 | over any sequence of actions with any callbacks, each time put to use has been handed back, is going on, or was lost; and the write hook is set exactly while requests for it are counted |
| Release.FreedAtMostOncePerAssign | fas/mux/mux_filter.hpp:537-787 | so an object is handed back at most once per assign, and a use that goes on has not been handed back |
| Release.FreedOncePerFinishedUseIff | fas/mux/mux_filter.hpp:537-787 | every finished use has been handed back exactly once if and only if none was lost |
| Release.LostForGood | fas/mux/mux_filter.hpp:537-787 | a lost use is not handed back by anything done later |
| Release.CalmLosesNothing | fas/mux/mux_filter.hpp:537-787 | in runs where no release callback assigns, nor any callback of the releases an assignment begins with, every finished use has been handed back exactly once |
| Release.ReleaseFailsIff | fas/mux/mux_filter.hpp:569-617 | a hard release reports failure, and its use is lost, exactly when its callback put the object to use once more often than uses ended in it |
| Release.AssignInReleaseIsForgotten | fas/mux/mux_filter.hpp:569-617 | an assignment inside the release callback makes the release report failure, and that use is lost for good |
| Release.HandBackInUseIff | fas/inet/pooled_item.hpp:30-37 | a successful release hands the object back in use exactly when its close callback put it to use once more often than uses ended in it |
| Release.AssignInCloseHandsBackInUse | fas/inet/connection.hpp:217-237 | an assignment inside the close callback loses nothing, but the object goes to the pool in use |
| Release.StrictHandsBackReleased | fas/mux/mux_filter.hpp:537-787 | in runs where no release or close callback assigns, no object is ever handed back in use |
| Release.ReleasePattern | fas/mux/mux_filter.hpp:935-941 | repeated calls answer false for ever if not in use, false, true and then false while output waits and is watched for, and true and then false otherwise, whatever callbacks that assign nothing do |
| ReleaseEffects.FlushCompletesRelease | fas/mux/mux_filter.hpp:731-787 | a flush that leaves nothing buffered takes a softly released object out of use and hands it back exactly once, whatever callbacks that assign nothing do |
| ReleaseEffects.ReadyCompletes | fas/mux/mux_filter.hpp:763-787 | so does the look after any output that is gone or cannot be written any more |
| ReleaseEffects.OutputWaits | fas/mux/mux_filter.hpp:706-787 | output that leaves something buffered counts one request more and sets the write hook |
| ReleaseEffects.OutputDone | fas/mux/mux_filter.hpp:706-787 | output that leaves nothing counts one request less, and the hook goes with the last |
| ReleaseEffects.OutputBroken | fas/mux/mux_filter.hpp:706-787 | output that finds the receiver gone lets the object go, softly if output lingers |
| ReleaseEffects.ClosedSideForgetsHandlers | fas/mux/mux_filter.hpp:706-757 | with the write side closed nothing is written and nobody waits to write |
| ReleaseEffects.ReadAtEnd | fas/mux/mux_filter.hpp:684-704 | a read that finds the end lets the object go, softly if output lingers; any other changes nothing |
| ReleaseEffects.ReleasedState | fas/inet/pooled_item.hpp:30-37 | a successful release leaves a closed socket, nothing buffered and nothing watched |
| ReleaseEffects.SoftenedState | fas/mux/mux_filter.hpp:578-606 | a soft one stops the reading only: output keeps waiting, the socket stays open, nothing is handed back |
| ReleaseEffects.HardUnlessOutputWaits | fas/mux/mux_filter.hpp:578-617 | in every other case the release of an object in use is hard |
| ReleaseEffects.ClosedState | fas/inet/connection.hpp:217-237 | closing closes both sides, once |
| ReleaseEffects.SetAndResetCancel | fas/mux/mux_filter.hpp:619-655 | one request for write readiness and one withdrawal cancel out |
| ReleaseEffects.AssignedState | fas/inet/connection.hpp:188-215 | an assignment leaves the object in use, open both ways, nothing buffered, watched for input |
| ReleaseEffects.ClosedDuringAssign | fas/inet/connection.hpp:188-237 | one closed in the course of its assignment stays closed and in use, and the close callback runs |
| Pool.ConnectionPool.Free | fas/inet/pool.hpp:98-102 | hands an item to the queue |
| Pool.ConnectionPool.ProcessFree | fas/inet/pool.hpp:109-134 | moves the whole queue from active to pooled; throws if and only if an item is not active |
| Pool.ConnectionPool.Create | fas/inet/pool.hpp:76-96 | reuses a pooled item, else makes one below the limit |
| Pool.CreateIff | fas/inet/pool.hpp:76-96 | an object can be had if and only if one is pooled or fewer than the limit are active |
| Pool.CreateGives | fas/inet/pool.hpp:76-96 | it is a pooled one if there is one, otherwise new, and becomes active |
| Pool.SwapThenMerge | fas/inet/pool.hpp:109-134 | a clearing moves exactly what was queued from active to pooled |
| Pool.StepInv | fas/inet/pool.hpp:76-134 | every event keeps the pool's invariant, also between queue swap and merge, and none throws |
| Pool.PoolIsSound | fas/inet/pool.hpp:76-134 | over every interleaving of in-turn assignments, uses, swaps and merges: no "item not found", active and pooled partition all items, never more than the limit, no pooled item in use |
| Pool.AssignHandsBack | fas/mux/mux_filter.hpp:537-567 | an assignment whose callbacks assign nothing hands back the use it finds going on and, if that ends inside it, its own |
| Pool.AssignInTurnIff | fas/inet/pool.hpp:76-134 | for every reachable pool, every object and every such assignment: no clearing of the queue pools an object in use or misses its object if and only if the assignment comes in turn |
| LruCache.Cache.DoGet | common/lrucache.hpp:45-62 | a hit returns the value and moves the entry to the recent end; a miss changes nothing |
| LruCache.Cache.DoInsert | common/lrucache.hpp:78-99 | replaces or appends, dropping the least recent entry of a full cache |
| LruCache.Cache.Call | common/lrucache.hpp:117-124 | the wrapper always returns the function's value |
| LruCache.CacheAgreesWithHistory | common/lrucache.hpp:45-99 | after any trace the cache holds exactly the last `capacity` distinct keys touched, in recency order, with their latest values |
| LruCache.CallsFollowHistory | common/lrucache.hpp:117-124 | so it does after any trace of cached calls, hits and misses alike |
| LruCache.SmallerIsRecentPart | common/lrucache.hpp:117-124 | on one trace a smaller cache is always the most recent part of a larger one |
| Multiplexers.EpollMux.SetHandler | fas/mux/epoller.hpp:132-173 | adds or modifies the registration as the slot's state asks |
| Multiplexers.EpollMux.ResetHandler | fas/mux/epoller.hpp:175-197 | modifies or deletes it, or throws |
| Multiplexers.SelectMux.SetHandler | fas/mux/selector.hpp:50-137 | one handler slot, one descriptor set and the bound |
| Multiplexers.SelectMux.SetFdSize | fas/mux/selector.hpp:211-227 | the shrinking loop stops at the highest descriptor still watched |
| Multiplexers.EpollKeeps | fas/mux/epoller.hpp:132-197 | ready, non-empty mask and registered stay the same thing; every kernel call is accepted; exactly one interest changes |
| Multiplexers.SelectKeeps | fas/mux/selector.hpp:50-227 | the bound stays one more than the highest watched descriptor; exactly one interest changes |
| Multiplexers.LastObserver | fas/mux/epoller.hpp:132-173 | both remember the observer given last for a descriptor, and no other's changes |
| Multiplexers.MultiplexersAgree | fas/mux/epoller.hpp:132-197 | over any call sequence: epoll throws if and only if a reset finds its descriptor unwatched; until then both hold the same interests |

## Left out

- leveldb itself: an ordered map; an iterator is a snapshot, and `Next` on an iterator that is not valid leaves it so. Store writes succeed, so the branches for a failed `Put` or `Delete` and their `false` results are not modelled.
- A master write and its forwarding to the client records are one step; with several handler threads the real order of two forwards can differ from the order of the two store writes.
- JSON-RPC method names and request ids: a confirmation always belongs to an outstanding request of the same connection.
- Pool.PoolIsSound: runs hold assignments that come in turn and callbacks that assign nothing; Pool.AssignInTurnIff and Release.HandBackInUseIff show what happens else.
- Polls of a record that was deleted while they slept, polls whose connection object has been taken for another client's connection, and a second connection of the same slave at the same time.
- `set_range`: never registered as a method; the slave handles the portions with `set`.
- Machine overflow of 64-bit counters and of `limit + skip`.
- JsonString.Utf8RoundTrip: the readers' optional length limit is not modelled; with its default it is never reached.
- JsonContainerExact.PairsRoundTripIff: the reader's look at the byte after a lone opening bracket at the end of the text is taken as a failed read.
- JsonContainer.MapRoundTrip: stated for maps of framed strings, one way only, since a misread list of pairs might still insert into the same map.
- Wire.CommandsSurviveFraming: the envelope is any text free of line breaks; how it is printed and how its parameters are found in it is not modelled.
- Pairs of raw, boolean and integer values and nested request objects: the same container code with easier element codecs.
- Eventual release of a connection whose peer closes during a flush with data waiting: the flush keeps its buffer, so only the at-most-once property is stated.
- Spinlock back-off and sleeping: a failed exchange is a step that changes nothing.
- The notification loops and FD_SETSIZE in the multiplexers.
- `multispinlock`, `multiserver`, the HTTP advices, `ad_smart_write`, MySQL and comet helpers, sockets, option parsing, logging and statistics.
