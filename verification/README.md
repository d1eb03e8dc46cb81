# CoreCDTL: a verified model of the runtime core

CoreCDTL is a C plugin runtime. This project models its five stateful pieces in Dafny 4.11 and
proves what they guarantee over every input, every interleaving and every run.

* **Timer scheduler** (`Clock`, `TimerOrder`, `SchedulerCore`, `SchedulerChain`, `SchedulerRuns`,
  `SchedulerTheorems`, `SchedulerContinuations`, `SchedulerOrder`). The timer list is a pointer chain in a class,
  `SchedulerChain.Scheduler`. Each of its methods is one critical section and computes a function of
  `SchedulerCore`; the transition system of `SchedulerRuns` is built from the same functions, and
  keeps the registering thread's read of `t->id` behind its critical section as a step of its own.
  Theorems: ownership of nodes, wake-ups, firing times, firing order and shutdown, and, from any
  state of any run, exactly which cancels miss, which timers can still fire, which fire too early,
  which can fire before which, and which reads of `t->id` find the node freed.
* **Event bus** (`BusCore`, `BusShared`, `BusRuns`, `BusTheorems`, `BusCalls`). The task ring is an array with
  head, tail and count, and the subscription list a chain. Five workers, the publisher inside
  `bus_publish` and the shutdown step in any order. Theorems: first-in first-out delivery, one owner
  for each payload buffer, no lost wake-up, live subscription pointers, a shutdown that drains, and
  callbacks that are what was subscribed, on what was published.
* **HeapKit** (`Layout`, `PluginLoader`, `HeapCore`, `HeapText`, `HeapTextTheorems`, `HeapBytes`,
  `TextScan`, `HeapKit`, `HeapFields`). Types are laid out from a plugin's data file, instances are raw bytes, and
  `HeapKit.Kit` stores into them, prints them and reads them back with an in-place `strtok` loop.
  Theorems: the layout tiles the instance, stores are independent, reading is an order-free set of
  updates, what the bytes of each field print as and what each text stores, and exactly which
  instances the reader restores from what the printer made of them.
* **Gateway dispatcher** (`Dispatcher`). A bounded arena whose batches conserve every accepted
  message, and exactly those that found room, under any interleaving of adds and flushes.
* **Block-wise string equality** (`BlockCompare`). The vector loop, for any block size, against
  `strcmp` (section 7.24.4.2 of ISO C11). The event bus matches names by what this function
  computes.

## How concurrency is modelled

A run is a sequence of actions, each one critical section (or one unlocked read that matters)
together with everything the code cannot predict: clock readings, which waiting thread a signal
wakes, whether a callback crashed. `Enabled` says when an action may happen, `Next` what it does,
`Exec` folds a run. A condition-variable wait gives up the mutex and sleeps in one step; a signal
wakes one waiter of the environment's choice, a broadcast all; any waiter may also wake for no
reason. Theorems speak of every run from `INIT`, or from `Init` of the parameters that never change.

## Assumptions

* `g_next_id++` and `event_count++` happen outside their locks; they are taken as atomic and
  `g_next_id` as never overflowing. A node's id stands for the node.
* A crashing callback is one more way for a callback to end: control comes back to the same cleanup.
  Callbacks hold none of the runtime's locks when they crash, and they do eventually end.
* Event bus callbacks do not publish, subscribe or shut the bus down from inside a worker.
* Clock readings in milliseconds, and the `ms` of a registration, fit 64 bits. Due times do wrap: the
  sums with `ms` and `interval` are truncated as `uint64_t` is.
* Runs start after initialisation and end with the joins and the cleanup; shutdown is called once.
* Chars are bytes. `atoi` is taken as `(int)strtol(...)`, saturating at 64 bits and keeping the low
  32; ISO C leaves out-of-range values undefined.
* `malloc` succeeds inside `strdup` and in the loader; elsewhere its failure is a parameter.

## Where the code does not do what one might expect

* A repeating timer whose callback is running escapes `scheduler_cancel`, which returns -1, and is
  put back on the list afterwards (`InFlightEscapesCancel`, reached by `EscapeIsReachable`). The
  owner's cancel misses exactly while the callback is running, of a one-shot timer too, before the
  registration's critical section, or once the node is freed (`CancelHitsExactly`). While the
  scheduler is up, a call leaves the timer able to fire exactly if the registration was not yet
  past its critical section or the callback running was that of a repeating timer
  (`CancelSilencesExactly`).
* A delay whose sum with the clock overflows 64 bits can fire early, and no other can, for
  registrations and re-armings alike (`EarlyFiringExactlyOnOverflow`).
* A registering thread reads `t->id` after giving up the lock. That is a read of a freed node exactly
  when the timer is neither listed nor in its callback by then (`ReturnIdReadsLiveNodeExactly`), and
  every accepted registration can come to it (`FreedReadIsReachable`).
* If the clock steps back between the two readings of a timed wait, the wait ends before the timer is
  due and the loop simply waits again (`ExpiryMakesDue`).
* Equal strings of 16 or more characters can compare unequal by blocks (`EqualStringsMayDiffer`,
  exactly when: `BlocksAgreeExactly`). `bus_publish` looks subscriptions up with this function, so a
  long name can miss the plugin's own subscription to it (`PublishCanMiss`, exactly when:
  `FindsTheNamedSubscription`).
* A string or character containing `;` does not survive printing and reading (`SeparatorIsLost`). A
  character field that is still NUL, as every fresh one is, takes the separator behind it away, so
  that it and the next printed field are misread (`FreshCharIsMisread`). Within the sizes of the two
  buffers those are the only losses (`RoundTripExactly`).
* With a gateway connected a store to a pointer or struct field succeeds but is reported as a missing
  field, unless a later field of the same name has a text form (`ConnectedCode`); and a repeated name
  is stored to more than once (`ConnectedWrites`).
* An eleventh `field` line of one struct is written behind the array of ten. The model stops there
  with `Overrun`, for exactly the files in which no struct that ends before it has a name already
  taken or comes when the registry is full (`OverrunsExactly`).
* The unlocked check in `gateway_d_flush` lets a second flushing thread deliver an empty batch
  (`EmptyBatchesNeedTwoFlushers`); the repository has one.

## Model

| member | source | states |
|---|---|---|
| `Clock.Deadline` | src/core/scheduler.c:126-134 | one carry normalises the deadline, and it is exactly the wait after the reading, in nanoseconds |
| `Clock.MillisFloors` | src/core/scheduler.c:47-52 | the millisecond reading is the floor of the reading in nanoseconds |
| `Clock.DeadlineMillis` | src/core/scheduler.c:47-52 | the deadline read in milliseconds is the reading in milliseconds plus the wait |
| `Clock.ExpiryMakesDue` | src/core/scheduler.c:83-135 | every clock past the deadline makes the timer due if and only if the millisecond clock did not step back between the two readings |
| `TimerOrder.FiringOrderIsStableSort` | src/core/scheduler.c:54-69 | the order timers leave the list is a permutation, sorted by due time, first-in first-out among equal due times |
| `TimerOrder.StableSortUnique` | src/core/scheduler.c:54-69 | those facts leave only one possible firing order |
| `TimerOrder.InsertSplice` | src/core/scheduler.c:62-68 | where in the list a timer is linked in |
| `TimerOrder.InsertCounts` | src/core/scheduler.c:54-69 | insertion adds one timer and keeps the rest |
| `TimerOrder.RemoveCounts` | src/core/scheduler.c:259-272 | cancelling takes out one timer, the one matched |
| `SchedulerChain.Scheduler.InsertTimer` | src/core/scheduler.c:54-69 | the chain stays acyclic and holds the stably inserted queue; the walk terminates |
| `SchedulerChain.Scheduler.NewNode` | src/core/scheduler.c:184-196 | the node a registration prepares before it takes the lock: the next id, the call's arguments, and a due time `ms` after the reading, or 2^64 less on overflow |
| `SchedulerChain.Scheduler.Register` | src/core/scheduler.c:179-247 | refused arguments change nothing; otherwise a fresh id, due time and list, when no other thread runs between the unlock and the return; the read of `t->id` in that gap is the step `ReturnId` of the runs |
| `SchedulerChain.Scheduler.CancelTimer` | src/core/scheduler.c:249-282 | 0 exactly when the plugin owns a listed timer under the id, which is then unlinked and freed; -1 leaves the chain alone |
| `SchedulerChain.Scheduler.Evaluate` | src/core/scheduler.c:81-136 | what one pass decides, the deadline it computes, and that a fired node has left the chain |
| `SchedulerChain.Scheduler.FinishCallback` | src/core/scheduler.c:113-120 | re-armed for the interval after the reading and re-inserted if repeating and running, freed otherwise |
| `SchedulerChain.Scheduler.FreeAll` | src/core/scheduler.c:165-176 | every listed node is freed once, in order |
| `SchedulerRuns.OwnersStep` | src/core/scheduler.c:94-121 | no step creates, loses or duplicates a node, except the allocating one |
| `SchedulerRuns.WakeStep` | src/core/scheduler.c:76-136 | every step keeps: a sleeping thread has nothing it should be doing |
| `SchedulerRuns.LogStep` | src/core/scheduler.c:91-118 | every step keeps: each event of a timer is justified by the events before it |
| `SchedulerRuns.InvRun` | src/core/scheduler.c:76-282 | the invariant holds in every state of every run |
| `SchedulerTheorems.NodesConserved` | src/core/scheduler.c:94-177 | every allocated node is with its registering thread, listed, in flight or freed: one of the four, once |
| `SchedulerTheorems.CleanupFreesEverything` | src/core/scheduler.c:154-177 | after the cleanup every node not still held by a registering thread has been freed exactly once |
| `SchedulerTheorems.SleepIsSafe` | src/core/scheduler.c:76-136 | no lost wake-up: a sleeping thread has an empty list, or a target no later than every due time, and the scheduler is running |
| `SchedulerTheorems.ExpiredWaitFires` | src/core/scheduler.c:83-92 | after a timed wait runs out the next pass fires the head, given a clock that did not step back |
| `SchedulerTheorems.FreedIsSilent` | src/core/scheduler.c:94-121 | nothing ever happens again under a freed id |
| `SchedulerTheorems.CancelIsFinal` | src/core/scheduler.c:249-268 | after a cancel returned 0 no continuation of the run fires that id |
| `SchedulerContinuations.CancelHitsExactly` | src/core/scheduler.c:249-282 | in every reachable state the owner's cancel of a registered timer returns 0 if and only if its callback is not running, it is not freed, and its registration is past its critical section |
| `SchedulerContinuations.InFlightEscapesCancel` | src/core/scheduler.c:94-118 | a cancel of a running repeating timer misses, changes nothing, and the timer is listed again on return |
| `SchedulerContinuations.EscapeIsReachable` | src/core/scheduler.c:94-118 | every accepted registration of a repeating timer has a continuation in which its callback runs in a running scheduler |
| `SchedulerContinuations.CanStillFireExactly` | src/core/scheduler.c:76-136 | a timer can fire again if and only if the scheduler is up and the timer is pending, listed, or repeating with its callback running |
| `SchedulerContinuations.CancelSilencesExactly` | src/core/scheduler.c:249-282 | after the owner's cancel, whatever it returned, no continuation fires the timer if and only if the scheduler is stopping, or the registration was past its critical section and no callback of it as a repeating timer was running |
| `SchedulerContinuations.RegistrationCanFire` | src/core/scheduler.c:179-247 | a registration is refused only for a null callback or a repeating interval of 0; from every state of a running scheduler every other one has a continuation that calls its callback with its argument |
| `SchedulerTheorems.FiresNoEarlierThanArmed` | src/core/scheduler.c:83-118 | every firing answers one arming of its own, at a reading no earlier than that reading plus the delay |
| `SchedulerTheorems.HeadFiresExactlyOnTime` | src/core/scheduler.c:83-136 | in every reachable running state, evaluating fires the head of the list if and only if its delay has passed since it was last armed or re-armed, and nothing else; a sum that overflows counts 2^64 less |
| `SchedulerTheorems.ArmedByACall` | src/core/scheduler.c:179-247 | every registration the log records is one call of the run, with its arguments and its clock reading |
| `SchedulerTheorems.RefiringNeedsRearming` | src/core/scheduler.c:114-118 | between two firings of a timer it was re-armed with its registered interval, and the second is at least that interval after the re-arming unless the sum overflowed |
| `SchedulerTheorems.FiresWhatWasRegistered` | src/core/scheduler.c:179-247 | a timer fires the callback and argument it was registered with, and is re-armed with its registered interval |
| `SchedulerContinuations.OnlyTheOwnerCancels` | src/core/scheduler.c:260 | a cancel succeeds only for the plugin that registered the timer |
| `SchedulerTheorems.OneShotFiresOnce` | src/core/scheduler.c:179-196 | a one-shot timer fires at most once |
| `SchedulerContinuations.EarlyFiringExactlyOnOverflow` | src/core/scheduler.c:113-191 | in every reachable state of a running scheduler, a pending or listed timer can next fire before its delay has passed since it was last armed or re-armed, at a clock that has not stepped back behind that moment, if and only if that sum overflows 64 bits |
| `SchedulerContinuations.GuardedReadsAreLive` | src/core/scheduler.c:81-121 | a node that is pending, listed or in its callback is never a freed one |
| `SchedulerContinuations.ReturnIdReadsLiveNodeExactly` | src/core/scheduler.c:198-247 | the read of `t->id` after the unlock finds an allocated node if and only if the timer is listed or in its callback; while it is listed one cancel is enough to break that |
| `SchedulerContinuations.FreedReadIsReachable` | src/core/scheduler.c:198-247 | every accepted registration has a continuation in which that read is of a freed node |
| `SchedulerTheorems.ShutdownStopsTheThread` | src/core/scheduler.c:154-163 | after the flag is set no callback starts, and the thread is never asleep and exits within two of its own steps |
| `SchedulerContinuations.ShutdownCanFinish` | src/core/scheduler.c:154-177 | from every reachable state some continuation sets the flag, ends the thread and runs the cleanup |
| `SchedulerOrder.NoOvertaking` | src/core/scheduler.c:54-121 | in every continuation a listed timer does not fire while one before it on the list is still waiting |
| `SchedulerOrder.FirstOnTheListExactly` | src/core/scheduler.c:54-121 | of two listed timers the one can fire while the other is still waiting if and only if it stands before it |
| `SchedulerOrder.EntersBehindExactly` | src/core/scheduler.c:54-69 | a registered or re-armed timer comes to stand behind exactly the listed ones due no later |
| `SchedulerOrder.FirstInFirstOut` | src/core/scheduler.c:54-121 | a timer that comes onto the list due no earlier than a listed one does not fire before that one has fired or been cancelled, whatever else is registered, cancelled or re-armed |
| `BusCore.PutAppends` | src/core/event_bus.c:164-166 | writing at the tail modulo the size appends to the queue read from the head |
| `BusCore.TakeRemovesFirst` | src/core/event_bus.c:233-236 | reading at the head takes the first queued task |
| `BusCore.FindSubNewest` | src/core/event_bus.c:181-200 | the search fails exactly when nothing matches under `optimized_strcmp`'s equality and otherwise finds the newest match |
| `BusShared.TaskQueue.Enqueue` | src/core/event_bus.c:150-171 | full, refused or accepted, and what each does to the queue |
| `BusShared.TaskQueue.Dequeue` | src/core/event_bus.c:220-239 | sleep, quit or run, and what is run is the oldest queued task |
| `BusShared.TaskQueue.Leftovers` | src/core/event_bus.c:91-94 | the shutdown loop frees the payloads of what is still queued |
| `BusShared.Subscriptions.Subscribe` | src/core/event_bus.c:116-147 | error codes in the order tested, and a new newest subscription with the call's plugin, name, callback and argument |
| `BusShared.Subscriptions.Find` | src/core/event_bus.c:181-200 | the chain walk returns the node the list search names |
| `BusShared.Subscriptions.Prepare` | src/core/event_bus.c:173-209 | every return code in the order tested, and the task the others enqueue: the caller's bytes for the newest subscription of that name |
| `BusRuns.FifoStep` | src/core/event_bus.c:150-171 | every step keeps: accepted is handed out followed by queued |
| `BusRuns.WakeStep` | src/core/event_bus.c:75-88 | every step keeps: queued work has an active worker, a waiting publisher a full queue |
| `BusRuns.HandedStep` | src/core/event_bus.c:233-255 | every step keeps: a task handed out is being run or has been freed |
| `BusRuns.LiveStep` | src/core/event_bus.c:130-138 | every step keeps: tasks point at listed subscriptions |
| `BusRuns.InvRun` | src/core/event_bus.c:75-258 | the invariant holds in every state of every run |
| `BusTheorems.DeliveredInOrder` | src/core/event_bus.c:150-255 | the accepted tasks are those handed out followed by the ring's contents, none accepted twice |
| `BusTheorems.BufferHasOnePlace` | src/core/event_bus.c:184-255 | each copied payload is in exactly one place and is freed at most once, crash or not |
| `BusTheorems.NothingDroppedBeforeShutdown` | src/core/event_bus.c:154-162 | no payload is refused before the shutdown flag is set |
| `BusTheorems.AcceptsForNewestSubscriber` | src/core/event_bus.c:179-197 | an accepted task carries the latest of the subscriptions matching at that moment, names compared as `optimized_strcmp` compares them |
| `BusCore.FindsTheNamedSubscription` | src/core/event_bus.c:181-200 | a publish finds a subscription if and only if the plugin has one of that name and the target has no vectors, or the name is shorter than 16 characters, or the bytes behind the two terminators agree; what is found is the newest of these |
| `BusTheorems.PublishCanMiss` | src/core/event_bus.c:181-200 | a run of one subscription and a publish to that very name that finds nothing |
| `BusTheorems.DeliversWhatWasPublished` | src/core/event_bus.c:184-193 | a callback gets the bytes of one publish call and belongs to a subscription to its event |
| `BusCalls.SubscriptionsAreCalls` | src/core/event_bus.c:116-138 | every subscription on the list was made by one call of the run and carries its plugin, name, callback and argument; it is numbered by that call, with a 16-bit event id |
| `BusCalls.CallsWhatWasSubscribed` | src/core/event_bus.c:116-251 | every callback invoked is the function and argument of one subscribe call, on the bytes of one later publish call by the same plugin under the same name |
| `BusCalls.EveryTaskIsCalled` | src/core/event_bus.c:233-251 | the callbacks invoked are one for one, in order, those of the tasks handed out |
| `BusCalls.PublishHoldsTask` | src/core/event_bus.c:173-193 | a publish takes effect exactly if a subscription of the name is found, and then holds a task with the caller's bytes for it |
| `BusCalls.PublishCanBeDelivered` | src/core/event_bus.c:173-251 | before shutdown every publish that finds a subscription has a continuation in which a worker calls that subscription's callback, with its argument, on the published bytes |
| `BusTheorems.TaskPointersLive` | src/core/event_bus.c:83-109 | queued and running tasks point at subscriptions still on the list |
| `BusTheorems.NoLostWakeups` | src/core/event_bus.c:150-239 | queued work, and a publisher waiting for room, always have a worker that can step |
| `BusTheorems.DequeueReleasesPublisher` | src/core/event_bus.c:233-239 | each dequeue lets a waiting publisher go on to a queue with room |
| `BusTheorems.ShutdownDrains` | src/core/event_bus.c:75-94 | after the flag is set the queue only shrinks, the workers take at most 310 steps, one can always step until all have exited, and then the queue is empty and no publisher waits |
| `BusTheorems.ShutdownCanFinish` | src/core/event_bus.c:75-109 | from every reachable state some continuation sets the flag, drains the queue, ends the workers, lets the publisher go and frees the subscriptions |
| `BusTheorems.NoLeftovers` | src/core/event_bus.c:91-94 | the loop over leftover tasks finds nothing |
| `Layout.LayoutTiles` | src/plugin/plugin_loader.c:235-245 | a byte is inside the instance if and only if exactly one field holds it |
| `Layout.TiledAppend` | src/plugin/plugin_loader.c:235-245 | declaring a field keeps the layout tiled |
| `PluginLoader.PluginDataSet` | src/plugin/plugin_loader.c:192-263 | on lines already split into words, the line loop computes the registry the file describes, or stops where an eleventh field would be written |
| `PluginLoader.OverrunsExactly` | src/plugin/plugin_loader.c:204-258 | the loop writes an eleventh field if and only if the file has one and every struct ending before it has a new name and a free slot, told from the lines, the names registered and their number |
| `PluginLoader.LimitSuffices` | src/plugin/plugin_loader.c:209-236 | a file with at most ten fields in each struct never overruns, and one that loads to its end has no more |
| `PluginLoader.LoadedLayoutsTile` | src/plugin/plugin_loader.c:197-259 | everything loaded is tiled, zeroed and the plugin's own; the rest of the registry stays |
| `PluginLoader.BlockRegistersItsType` | src/plugin/plugin_loader.c:204-258 | a struct block registers exactly the declared fields, each with the type and size its word means, or loading stops; more than ten fields overrun |
| `PluginLoader.UnfinishedBlockIsDropped` | src/plugin/plugin_loader.c:202-262 | a struct still open at the end of the file is not registered, and the load succeeds |
| `PluginLoader.StrayLinesIgnored` | src/plugin/plugin_loader.c:204-258 | lines outside a struct that mean nothing there, blank lines and comments change nothing |
| `HeapCore.GetAfterSet` | src/core/heapkit.c:79-137 | a stored value is read back whole |
| `HeapCore.SetLeavesOthers` | src/core/heapkit.c:79-137 | a store changes no other field, type or plugin's instance |
| `HeapCore.RegisterExtends` | src/core/heapkit.c:43-67 | registering adds a zeroed instance under a new key, once, and moves no other lookup |
| `HeapCore.LocateExactly` | src/core/heapkit.c:69-137 | a field is found if and only if the plugin has a type of that name with a field of that name; a missing type is -1, a missing field -2 |
| `HeapKit.Kit.TypeRegister` | src/core/heapkit.c:43-67 | every return code in the order tested, null types and null names included, and the new table |
| `HeapKit.Kit.FindRegistered` | src/core/heapkit.c:69-77 | the first entry with the plugin and type name |
| `HeapCore.ConnectedCode` | src/core/heapkit.c:84-123 | with a gateway connected, for every type, a store returns 0 if and only if some field of the name has a text form |
| `HeapCore.ConnectedWrites` | src/core/heapkit.c:84-123 | it writes every field of the name up to the first that has a text form, and no other |
| `HeapCore.ConnectedStore` | src/core/heapkit.c:84-123 | with distinct field names it stores what a store without a gateway does, and a pointer or struct store returns -2 |
| `HeapKit.Kit.SetFieldValue` | src/core/heapkit.c:79-124 | the return code and the bytes after the copy, with or without a gateway connected |
| `HeapKit.Kit.GetFieldValue` | src/core/heapkit.c:126-140 | the return code and the bytes copied out |
| `HeapKit.Kit.SerializeType` | src/core/heapkit.c:201-240 | every return code; on success all printed fields one behind the other, and on overflow those before the first that does not fit |
| `HeapText.SerializesExactlyWhatFits` | src/core/heapkit.c:201-240 | a print succeeds if and only if all of it fits with its NUL |
| `HeapFields.PrintShowsTheBytes` | src/core/heapkit.c:209-237 | the print is, field by field, what the bytes show: the decimal of four little-endian bytes, `true` or `false` by whether the byte is 0, the character, the string in quotes or empty quotes for null, nothing for pointers and structs; each cut to 255 characters |
| `HeapFields.PrintsTheDecimal` | src/core/heapkit.c:215 | `%d` prints the one decimal of its argument that has no superfluous zero and no `-0` |
| `HeapFields.DeclaredIntPrints` | src/plugin/plugin_loader.c:232-245 | a field declared `int` in the data file prints as its name and the decimal of the four bytes at its place |
| `HeapFields.ReadsOneField` | src/core/heapkit.c:246-300 | reading `name=value;` puts into the field of that name, and no other, what the value means for its type |
| `HeapFields.AtoiMeans` | src/core/heapkit.c:280 | for every text, `atoi` skips blanks, takes at most one sign, and gives the number of the digits up to the first other character, saturated at 64 bits and cut to 32 |
| `HeapKit.Kit.StoreToken` | src/core/heapkit.c:276-300 | one token's bytes change the instance, seen as a row, in that one field |
| `HeapKit.Kit.DeserializeType` | src/core/heapkit.c:242-306 | the in-place token loop equals the left fold of updates over the text's tokens |
| `HeapKit.Kit.PrintThenRead` | src/core/heapkit.c:201-306 | printing one instance and reading the text into another, on bytes: every printed field is restored, the others keep their bytes, no other instance changes |
| `TextScan.StrTok` | src/core/heapkit.c:250-302 | the in-place scanner yields the next token and leaves the text behind it intact |
| `HeapText.AtoiUndoesPrint` | src/core/heapkit.c:214-280 | `atoi` undoes `%d` on every 32-bit integer |
| `HeapBytes.StoreUpdatesRow` | src/core/heapkit.c:276-300 | writing one field's bytes changes that field's value and no other |
| `HeapBytes.FreshIsReadable` | src/core/heapkit.c:57-62 | a freshly loaded instance has sound, disjoint fields and only null strings, so it can be seen as a row |
| `HeapTextTheorems.ReadingMeaning` | src/core/heapkit.c:246-303 | per field, the last well-formed token with its name decides; malformed and unknown tokens decide nothing |
| `HeapTextTheorems.ReadingIgnoresOrder` | src/core/heapkit.c:246-303 | tokens that do not disagree may come in any order |
| `HeapTextTheorems.TokensOfText` | src/core/heapkit.c:201-250 | the tokens `strtok` finds in a printed text without stray separators are the fields' texts, a NUL character's run together with the next one |
| `HeapTextTheorems.RoundTrip` | src/core/heapkit.c:201-306 | reading a printed instance into any other restores every printed field and keeps the rest; for distinct names free of `=`, `;` and NUL, each field within the 256-byte buffer and the text within 1023 bytes, a float conversion that prints neither `;` nor NUL, no `;` in a value, and no NUL character but in the last printed field |
| `HeapTextTheorems.RoundTripExactly` | src/core/heapkit.c:201-306 | under those conditions on names, sizes and floats, it does so for every instance read into if and only if no string or character is or contains `;` and no character is NUL except in the last printed field |
| `HeapTextTheorems.SeparatorIsLost` | src/core/heapkit.c:201-306 | the string `a;b` comes back as a quote and an `a` |
| `HeapTextTheorems.FreshCharIsMisread` | src/core/heapkit.c:201-306 | a fresh character and integer print as `c=n=0;`, which sets the character to `n` and leaves the integer |
| `HeapTextTheorems.ReadingKeepsClean` | src/core/heapkit.c:246-303 | no text can put a separator into a value |
| `Dispatcher.Arena.MsgAdd` | src/gateway/gateway_dispatcher.c:67-88 | a non-empty message is appended whole with a newline if and only if the arena then holds less than 65536 bytes; otherwise nothing changes |
| `Dispatcher.Arena.FlushLocked` | src/gateway/gateway_dispatcher.c:94-103 | everything gathered is delivered in one piece and the arena is empty |
| `Dispatcher.Arena.Flush` | src/gateway/gateway_dispatcher.c:90-104 | an empty or missing arena delivers nothing |
| `Dispatcher.BytesConserved` | src/gateway/gateway_dispatcher.c:67-104 | batches followed by the arena are the accepted messages in order, batches never split a message, the offset stays in range |
| `Dispatcher.KeepsExactlyWhatFits` | src/gateway/gateway_dispatcher.c:67-104 | over whole runs, batches followed by the arena are exactly the offered messages that were non-empty and found room when offered, where room is worked out from lengths alone |
| `Dispatcher.EmptyBatchesNeedTwoFlushers` | src/gateway/gateway_dispatcher.c:27-41 | an empty batch is possible if and only if two threads flush |
| `BlockCompare.BlockStrcmp` | src/utils/utils_string.c:39-61 | 0 exactly when the blocks agree; the loop terminates and reads no further than the block where it stops |
| `BlockCompare.BlocksAgreeExactly` | src/utils/utils_string.c:39-61 | the blocks agree if and only if the strings are equal and the bytes behind their terminators agree up to the block's end |
| `BlockCompare.OptimizedStrcmp` | src/utils/utils_string.c:122-140 | 0 if and only if the strings are equal and, where the blocks are used, the bytes behind the terminators agree; short strings and targets without vectors get the sign of `strcmp` |
| `BlockCompare.StrCmpOrders` | src/utils/utils_string.c:122-140 | that sign orders strings by the first byte in which they differ, a prefix first |
| `BlockCompare.EqualStringsMayDiffer` | src/utils/utils_string.c:39-61 | equal 16-character strings that the 16-byte block loop calls different |

## Left out

- Enqueue rejection at shutdown: `bus_publish` still returns 0 and the buffer is never freed; the model counts such buffers as dropped.
- Subscription and task pointers of the bus: tasks carry the subscription's value and allocation number, and payload buffers are values with an identity, so aliasing of the buffers is not captured.
- The event bus from inside callbacks: a callback that publishes on a full ring can block for ever with its worker.
- Initialisation races, reuse after shutdown and calls after the mutexes are destroyed.
- The type registry is a growing sequence whose limit of 128 is tested, not a fixed array.
- Splitting a data-file line into words (trimming, comments, `sscanf`, `strtok` on blanks) and reading the file; lines arrive already split.
- SchedulerChain.Scheduler.Register: covers a call with nothing running between its unlock and its return; what other threads can do there is in the runs.
- PluginLoader.PluginDataSet: takes lines already split into words, and does not say what happens behind an eleventh field of one struct, where the source writes past its array; the result is `Overrun` there.
- HeapKit.Kit.SetFieldValue: does not model the telemetry text sent with a gateway connected; neither do the other calls that send one.
- FLOAT text: the conversions are parameters, so a float comes back as whatever they make of it.
- Strings replaced by `hk_deserialize` are leaked by the source; the model's string heap only grows.
- `scheduler_get_list`, `event_bus_get_list` and `hk_get_list`: listings for the controller, of the same shape as `hk_serialize`.
- `gateway_dispatcher_close` discards what is still in the arena; conservation is stated before it.
- The SVE, RISC-V and AVX2-named variants of the string comparison, the critical-error slots of the log, crash-handler stack scanning, the plugin manager, manifests, JIT stubs, the CLI and the gateway library's lifecycle.
