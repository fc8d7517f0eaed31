# A verified model of lzmq's own algorithms

lzmq binds ZeroMQ to Lua. Most of it forwards calls, but some of it has state and algorithms of its own. This
project models those parts in Dafny and proves what they are for. `dafny verify dfyconfig.toml` checks all of it.

## What is modelled

**The timer scheduler** (`src/lua/lzmq/impl/loop.lua`, on the timers of `src/ztimer.c`). A pass of `event_list:fire`
walks a list by index while callbacks add events, stop and re-arm them, and run whole passes themselves. `Timers`,
`IdLists` and `Scheduler` define a run on values: it is driven by a finite tree that says when each event is looked at
and what its callback does, nested passes included. `EventLoop` holds the objects and loops as they are written, and
each method is proved to do what the value-level definition says. `SchedulerInvariants` proves what every run keeps,
`SchedulerTheorems` the safety and progress theorems, `SchedulerDepartures` what becomes of events that leave the
list, `SchedulerActions` what single actions do and that the record of a run says what happened, `SchedulerTiming` the
deadlines. `MainLoop` is `zmq_loop:poll`. The comment at `src/lua/lzmq/impl/loop.lua:166-191` concedes that a pass may
step over an event after a nested pass removed one below its index; `SchedulerTheorems.NothingSkipped` shows that the
nested pass has then examined it.

**The poller of the C library** (`src/poller.c`, `src/zpoller.c`, `src/lua/lzmq/poller.lua`). `CPoller` is the array
with free tags, compaction in place and a downward cursor; `LuaPoller` is the callback table that shifts beside it.
Together they refine a plain sequence of registrations (`PollerModel`), and `PollerDispatch` proves that a poll serves
exactly the ready entries whatever its callbacks do within the rules.

**The poller of the FFI library** (`src/lua/lzmq/ffi.lua`). `FfiModel` and `FfiPoller`: removal swaps with the last
item, a map from handles to indices, an array that is reallocated without updating `size`; `FfiReallocated` is the
poll that goes on with the old one. `PollerSimulation` proves that the two pollers hold the same registrations and
call back for the same keys with the same revents. `PollerEffects` says what a poll of either leaves registered, and
`PollerCallbacks` exactly when they also call the same callbacks: they serve in different orders, and a callback may
give another registration a new one before its turn.

**Framing and messages** (`src/zsocket.c`, `src/zmsg.c`, `src/lua/lzmq/ffi.lua`). `Framing` defines what writes leave
in a FIFO of frames and what reads get back; `Pipes`, `CFraming` and `FfiFraming` are the send and receive loops;
`Exchange` runs them together: any run of send calls of either library on one socket, then calls of recv_all of either.
`Messages` is the byte buffers of messages.

**Contexts and sockets** (`src/zcontext.c`, `src/zsocket.c`). `Lifecycle` on values, `Contexts` as objects: the socket
count, closing on failed construction, autoclose in any order a traversal may take, on_close callbacks that close other
sockets.

**Z85 lengths** (`src/lzmq.c`). `Z85`: the length check through a double-precision product, which is right for all
lengths below 3 * 2^49 and goes wrong there, at first for every fifth length.

Where the environment decides, it is a parameter: clock readings, what `zmq_poll`, `zmq_msg_send`, `zmq_msg_recv`,
`zmq_ctx_term`, `zmq_ctx_shutdown`, `zmq_socket`, options, bind and connect reply, and what callbacks do.

## What is demanded of callers

The properties hold under these conditions, most of which the library does not check.

- Timer callbacks do not raise and do not destroy the loop. Handles that do not exist, and resets of events that are
  not started (a Lua error in the library), do nothing in the model. Clock readings are below 2^53 and do not go back.
- A registration's events, stored as a C short, are not -1, which is the free tag (`src/poller.c:28`).
- File descriptors registered with the C poller are not 0 (`src/poller.c:91` compares descriptors only), and `modify`
  is for sockets (`src/zpoller.c:89`) unless it is a removal.
- The FFI poller is not given a key twice (`src/lua/lzmq/ffi.lua:1115` overwrites the map entry).
- Socket callbacks do not call `poll`, and while a poll dispatches they remove only the current item or ones already
  visited. An action outside these rules is skipped by the model's callbacks, so the theorems are about exactly the
  callbacks that keep to them. `PollerDispatch.RemovalIsSafeIff` says exactly which other removals do no harm in the C
  stack; for the FFI poller `FfiModel.FfiRemovalIsSafeIff` does as long as the array is the one the poll began with,
  and `FfiReallocated.ReallocatedRemovalIsSafeIff` once an add has replaced it.
- `poller:remove` of a key that is not registered, and `modify` without events or without a callback for one, are not
  excluded, nor are events that become 0 as a C short: `LuaPoller.PollerTable.Remove`, `Modify` and `Change` say exactly
  when the callback table stays aligned. For a key that is not registered that is so only when the poller is empty.
- `set_data` is not given position 0: the message at `src/zmsg.c:180` excludes it, but the check lets it through, and
  `Messages.CopyInBoundsIff` says that it is the only such position whose copy, if of any data, leaves the buffer.
  Positions fit a C int,
  and the elements of a table given to `msg_init_data_array` are strings (`src/zmsg.c:76`).
- An on_close callback closes no socket whose close is under way and makes no socket: the closed flag is set last
  (`src/zsocket.c:633-651`). Here too a close that is not allowed is skipped.

## Model

| member | source | states |
|---|---|---|
| Timers.U64Delta | src/ztimer.c:61-64 | the signed difference of two 64-bit readings is exact if and only if they are less than 2^63 apart |
| Timers.Timer.Rest | src/ztimer.c:303-314 | what is left is 0 exactly from the deadline on, and otherwise is the distance to it, for both kinds of timer |
| SchedulerInvariants.LoopFollows | src/lua/lzmq/impl/loop.lua:162-214 | whatever callbacks do at any depth: the list stays duplicate-free, an event is locked exactly while its callback is on the stack, a locked event stays in the list, and no running event is fired again |
| SchedulerInvariants.FireFollows | src/lua/lzmq/impl/loop.lua:162-226 | the same for a whole pass with its purge; only stopped, unlocked events leave the list |
| SchedulerTheorems.AtMostOncePerPass | src/lua/lzmq/impl/loop.lua:162-214 | one pass never looks at, hence never fires, the same event twice, although the list changes under its index |
| SchedulerTheorems.NothingSkipped | src/lua/lzmq/impl/loop.lua:162-226 | an event in the list before and after a pass was examined by the pass or by one nested in it |
| SchedulerTheorems.DueEventsFire | src/lua/lzmq/impl/loop.lua:162-226 | an event unlocked, started and due at the start fires before the pass ends unless a callback changed it |
| SchedulerTheorems.EventsAreConserved | src/lua/lzmq/impl/loop.lua:138-226 | the list afterwards is the list before and the events created, in order, minus events that were stopped and unlocked when they left; what remains is started or still running |
| SchedulerTheorems.OutermostPass | src/lua/lzmq/impl/loop.lua:162-226 | after an outermost pass nothing is locked and every event in the list is started; an event that left it was fired, was changed or was stopped before |
| SchedulerDepartures.ListedIffStarted | src/lua/lzmq/impl/loop.lua:162-226 | after an outermost pass an event that was in the list or is new is in the list exactly when it is started, if and only if it is not so that the last thing callbacks did to it, once it was out of the list, was to set it going |
| SchedulerDepartures.ExactlyStarted | src/lua/lzmq/impl/loop.lua:162-226 | in particular, if no callback changed it |
| SchedulerDepartures.StartedTooLate | src/lua/lzmq/impl/loop.lua:57-63 | one set going too late: an event is reset, a pass drops it, and a later callback of that pass calls set_interval on it; it ends started outside the list |
| SchedulerDepartures.LeftForGood | src/lua/lzmq/impl/loop.lua:162-226 | an event outside the list is never fired by a pass, at any depth, and never comes back, whatever is done to its timer |
| SchedulerDepartures.LeftForEver | src/lua/lzmq/impl/loop.lua:50-226 | the same over any run |
| SchedulerDepartures.AfterItsCallback | src/lua/lzmq/impl/loop.lua:197-204 | after its callback an event is unlocked, and is started if and only if the callback left it started and not one-shot |
| SchedulerDepartures.RearmingCountsIff | src/lua/lzmq/impl/loop.lua:92-102 | a callback that ends by arming its own event again is heeded, and the event kept by the next purge, if and only if it does so with set_interval and not with set_time or set_interval_once |
| SchedulerDepartures.ResetInCallbackEnds | src/lua/lzmq/impl/loop.lua:84-86 | a callback that ends by resetting its own event stops it for good, be it repeating or not |
| SchedulerTheorems.VisitAdvances | src/lua/lzmq/impl/loop.lua:193-213 | whatever its callback does, an iteration gets closer to the end of the list, but for the events it creates |
| SchedulerTheorems.PassEnds | src/lua/lzmq/impl/loop.lua:162-214 | a pass takes no more iterations than there are events in the list at its start and events created while it runs |
| SchedulerActions.NestedIsFire | src/lua/lzmq/impl/loop.lua:319-330 | a pass started by a callback does what an outermost pass does to the same state, purge included |
| SchedulerActions.NestedPurges | src/lua/lzmq/impl/loop.lua:162-226 | when a nested pass ends, every event in the list is started or its callback is running |
| SchedulerActions.LastPassPurges | src/lua/lzmq/impl/loop.lua:162-226 | the same after any script that ends with a nested pass |
| SchedulerActions.VisitFiresIff | src/lua/lzmq/impl/loop.lua:193-205 | a visit fires its event if and only if it is unlocked, started and nothing is left of its timer at the clock reading of the visit, and records it so |
| SchedulerActions.CountIsNumber | src/lua/lzmq/impl/loop.lua:162-214 | the number returned is that of the visits that fired |
| SchedulerActions.UnnamedEventsFire | src/lua/lzmq/impl/loop.lua:162-226 | a due event fires unless an action of a callback, at any depth, names it |
| SchedulerActions.CallbacksNest | src/lua/lzmq/impl/loop.lua:197-204 | over any run callbacks nest: none begins again while it runs, each ends before the one it interrupted goes on, all end, clock readings in order, and the events recorded as fired are those whose callback began |
| SchedulerTheorems.EveryRun | src/lua/lzmq/impl/loop.lua:50-226 | over every run from an empty list nothing is locked at the end, and every event created is in the list, in order, or left it stopped and unlocked |
| SchedulerTheorems.PlainPassIsExact | src/lua/lzmq/impl/loop.lua:162-214 | without nested passes every entry, then every appended one, is visited once in list order and fires if and only if it is unlocked, started and due when visited |
| SchedulerTiming.DeadlinesAreKept | src/lua/lzmq/impl/loop.lua:149-158 | no event is due before the computed interval has passed since the scan began, although the clock is read anew for each event |
| SchedulerTiming.LateByTheScan | src/lua/lzmq/impl/loop.lua:304-307 | a wait of no more than the interval, begun after the scan, ends no later after a deadline than the scan went on after that event was looked at |
| SchedulerTiming.WaitIsExact | src/lua/lzmq/impl/loop.lua:149-158 | nothing is due a given time after the scan if and only if every event had more left, when it was looked at, than that time and the rest of the scan |
| SchedulerTiming.ShortWaitReachesNothing | src/lua/lzmq/impl/loop.lua:149-158 | waiting less than the interval reaches no deadline if the clocks did not move during the scan |
| SchedulerTiming.TickDuringScan | src/lua/lzmq/impl/loop.lua:149-158 | and may reach one if they did, by however little: for any tick and interval, two events |
| SchedulerTiming.FullWaitFires | src/lua/lzmq/impl/loop.lua:304-315 | after a full wait, begun when the scan is over, the pass serves the event that limited the wait |
| SchedulerTiming.RepeatingEventsKeepTheirDistance | src/lua/lzmq/impl/loop.lua:92-102 | callbacks of a repeating event that nobody changes begin at least one interval after it was armed or its previous callback ended, at any nesting |
| SchedulerActions.TimeIsDue | src/lua/lzmq/impl/loop.lua:50-55 | armed with a time at any clock reading, an event has nothing left exactly from that time of day on, and before it what is missing |
| SchedulerActions.IntervalIsDue | src/lua/lzmq/impl/loop.lua:57-68 | armed with an interval, once or repeating, exactly when that has passed on the monotonic clock since it was armed |
| SchedulerActions.AddedIsDue | src/lua/lzmq/impl/loop.lua:402-423 | add_time, add_interval and add_once in a callback append one started event, due then, and only the last is one-shot by its mark |
| SchedulerActions.SetIsDue | src/lua/lzmq/impl/loop.lua:50-68 | set_time, set_interval and set_interval_once in a callback start that event anew, due then, with its lock kept and nothing else changed |
| SchedulerActions.ResetStops | src/lua/lzmq/impl/loop.lua:84-86 | a reset stops its event, locked or not, and leaves all else |
| SchedulerActions.WaitPasses | src/lua/lzmq/impl/loop.lua:319-330 | waiting only moves the clocks, never back |
| EventLoop.TimeEvent.SetTime | src/lua/lzmq/impl/loop.lua:50-55 | a relative timer is replaced by an absolute one, and nothing is left of it exactly from the given time on |
| EventLoop.TimeEvent.SetInterval | src/lua/lzmq/impl/loop.lua:57-63 | an absolute timer is replaced by a relative one, the event becomes repeating, and nothing is left exactly when the interval has passed since |
| EventLoop.TimeEvent.SetIntervalOnce | src/lua/lzmq/impl/loop.lua:65-68 | the same for a one-shot interval |
| EventLoop.TimeEvent.Reset | src/lua/lzmq/impl/loop.lua:84-86 | a started event is stopped and otherwise unchanged |
| EventLoop.TimeEvent.Restart | src/lua/lzmq/impl/loop.lua:92-102 | a one-shot event ends stopped, a repeating one ends started; the result says which |
| EventLoop.EventList.Add | src/lua/lzmq/impl/loop.lua:138-141 | a new event goes to the end of the list |
| EventLoop.EventList.SleepInterval | src/lua/lzmq/impl/loop.lua:149-158 | the minimum of the argument and the rest of every unlocked started event, each at its own clock reading |
| EventLoop.EventList.Purge | src/lua/lzmq/impl/loop.lua:218-226 | the downward loop removes exactly the stopped unlocked events and keeps the order of the others |
| EventLoop.EventList.AddTime | src/lua/lzmq/impl/loop.lua:402-407 | adds an event that is due from the time on |
| EventLoop.EventList.AddInterval | src/lua/lzmq/impl/loop.lua:409-415 | adds a repeating event that is due when the interval has passed |
| EventLoop.EventList.AddOnce | src/lua/lzmq/impl/loop.lua:417-423 | adds a one-shot event that is due when the interval has passed |
| EventLoop.EventList.Hold | src/lua/lzmq/impl/loop.lua:200-201 | locks the event and puts its callback on the stack |
| EventLoop.EventList.Release | src/lua/lzmq/impl/loop.lua:202-203 | unlocks and re-arms; both assertions after a callback hold whatever it did to its own timer |
| EventLoop.EventList.Visit | src/lua/lzmq/impl/loop.lua:193-213 | one iteration does to the objects what it does to the values, and moves the index accordingly |
| EventLoop.EventList.Scan | src/lua/lzmq/impl/loop.lua:162-214 | the index loop over the changing list, for all callbacks; it counts the events it fired |
| EventLoop.EventList.Fire | src/lua/lzmq/impl/loop.lua:162-226 | a pass ends in the state and with the trace the theorems are about, and returns how many events it fired itself |
| MainLoop.ZmqLoop.Poll | src/lua/lzmq/impl/loop.lua:293-315 | asks to wait for the minimum over the deadlines, and serves sockets and events if and only if the loop was not interrupted, the poller replied and no socket callback interrupted; otherwise no event fires after the wait and the loop ends interrupted |
| MainLoop.RoundServesIff | src/lua/lzmq/impl/loop.lua:304-315 | the same on values, with the number served: that of the sockets and of the events fired |
| MainLoop.RoundServesTheDue | src/lua/lzmq/impl/loop.lua:304-315 | an event due when the wait is over is served by the round, and the round keeps every invariant |
| PollerModel.ToShortIsCongruent | src/zpoller.c:52-53 | a Lua integer stored in a C short keeps its value modulo 2^16; `ToShort` is in range, and the same number when that is in range |
| CPoller.UntaggedKeepsOrder | src/poller.c:164-201 | what compaction keeps is untagged and in its original order, for any set of tagged slots |
| CPoller.UntaggedLosesNothing | src/poller.c:164-201 | compaction keeps every untagged slot |
| CPoller.UntaggedButOne | src/poller.c:99-125 | with one tagged slot, compaction takes out exactly that one |
| CPoller.Poller.constructor | src/poller.c:50-56 | an empty poller of any length |
| CPoller.Poller.FindItem | src/poller.c:67-95 | the first slot in use that holds the key, or -1 if none does |
| CPoller.Poller.Resize | src/poller.c:32-48 | never shrinks, keeps the old slots and zeroes the new ones |
| CPoller.Poller.GetFreeItem | src/poller.c:127-162 | the head of the free list, cleared, or a zero slot at the end, with one slot to spare afterwards |
| CPoller.Poller.Compact | src/poller.c:164-201 | with a nonnegative free list, exactly the untagged items in order, followed by zeros |
| CPoller.Poller.Slide | src/poller.c:182-192 | the second loop of compaction, in place |
| CPoller.Poller.RemoveItem | src/poller.c:99-125 | tags a slot and squeezes out every tagged one; an index beyond the count does nothing |
| CPoller.Poller.RemoveLive | src/poller.c:99-125 | between calls, takes out exactly that item and keeps the order |
| CPoller.Poller.Fill | src/zpoller.c:62-65 | writes socket, descriptor and events of a slot and leaves its revents |
| CPoller.Poller.Add | src/zpoller.c:50-68 | appends an item with revents 0 and returns its index |
| CPoller.Poller.Modify | src/zpoller.c:71-99 | changes the first item of the socket or appends one, and removes the first item of any key when there are no events as a short |
| CPoller.Poller.Remove | src/zpoller.c:102-122 | removes the first item of the key and returns its index, or changes nothing and returns -1 |
| CPoller.Poller.Poll | src/zpoller.c:125-143 | every slot in use gets its revents; the cursor goes to the last slot if any is ready |
| CPoller.Poller.NextRevents | src/poller.c:215-238 | the highest ready slot at or below the cursor, or -1, always below the count, even when removals made the cursor stale |
| LuaPoller.PollerTable.Add | src/lua/lzmq/poller.lua:46-51 | appends a registration to the sequence |
| LuaPoller.PollerTable.Modify | src/lua/lzmq/poller.lua:53-61 | updates the first registration of the key, appends one, or removes it; callbacks stay aligned if and only if a removal found its key or an empty poller, and an update has events that are not 0 as a short |
| LuaPoller.PollerTable.Change | src/lua/lzmq/poller.lua:55-57 | with events and a callback: aligned afterwards if and only if the events are not 0 as a short, and then the update or the append |
| LuaPoller.PollerTable.Remove | src/lua/lzmq/poller.lua:63-69 | deletes the first registration of the key and keeps the order; callbacks stay aligned with items if and only if the key was registered or the poller is empty |
| LuaPoller.PollerTable.Shift | src/lua/lzmq/poller.lua:65-68 | the shifting loop, for any start index the C side can give |
| LuaPoller.Removal | src/lua/lzmq/poller.lua:63-69 | the exact condition for alignment, on values |
| LuaPoller.PollerTable.Poll | src/lua/lzmq/poller.lua:71-83 | as many callbacks as zmq_poll reported ready, each ready entry once, from the last down, with its own revents; then the cursor finds nothing more, and what is registered is what was, changed by all that the callbacks were allowed to do |
| PollerDispatch.ObeyKeepsBelow | src/lua/lzmq/poller.lua:46-69 | whatever a callback adds, modifies or removes among visited entries, pending ones keep place, key and revents |
| PollerDispatch.ReadyDownIsExact | src/poller.c:215-238 | the positions served are all the ready ones, in strictly descending order |
| PollerDispatch.DispatchGoesOn | src/lua/lzmq/poller.lua:78-81 | while fewer callbacks were called than entries are ready, the cursor finds another one |
| PollerDispatch.DispatchServesReady | src/lua/lzmq/poller.lua:71-83 | k steps serve exactly the k ready entries, once each, in descending order, with their own revents, and the next cursor call gives -1 |
| PollerDispatch.ObeyingSparesPending | src/lua/lzmq/poller.lua:71-83 | callbacks that keep to the rules leave pending entries alone |
| PollerDispatch.ServedAsRegistered | src/lua/lzmq/poller.lua:77-81 | an entry no earlier callback modified is served with the callback it had when the poll began |
| PollerDispatch.RemovalIsSafeIff | src/lua/lzmq/poller.lua:63-83 | when just one callback, the n-th for any n, touches what is pending, by removing an entry, while all may act on visited ones, the ready entries are served right if and only if that entry is not below the current one or the current one is the last that is ready |
| PollerEffects.AllowedIff | src/lua/lzmq/poller.lua:46-69 | the rules of dispatch in full |
| PollerEffects.ObeyApplies | src/lua/lzmq/poller.lua:46-81 | a callback whose actions keep to the rules has all of them done, in order; others have those done that do |
| PollerEffects.NewIsNotReady | src/zpoller.c:50-68 | what is registered anew comes last, is not ready, and leaves the others as they are |
| PollerEffects.PollLeaves | src/lua/lzmq/poller.lua:71-83 | a poll leaves what was registered, changed by what its callbacks were allowed to do, in order; key by key when none is added twice |
| FfiPoller.Poller.constructor | src/lua/lzmq/ffi.lua:1040-1054 | an empty poller |
| FfiPoller.Poller.Ensure | src/lua/lzmq/ffi.lua:1057-1066 | room for n more items although `size` stays as it is; the items in use are kept |
| FfiPoller.Poller.Add | src/lua/lzmq/ffi.lua:1099-1118 | appends; map and items stay mutual inverses, and the write is inside the allocation |
| FfiPoller.Poller.Remove | src/lua/lzmq/ffi.lua:1120-1148 | the last item takes the place of the removed one; its map entry is never missing, and the inverse is kept |
| FfiPoller.Poller.Modify | src/lua/lzmq/ffi.lua:1150-1160 | updates, appends or removes; the inverse is kept |
| FfiPoller.Poller.Poll | src/lua/lzmq/ffi.lua:1166-1184 | each ready item's callback is called once, from the last down, with its own revents, and the number ready is returned, under swapping removals and reallocating adds |
| FfiPoller.Poller.Callee | src/lua/lzmq/ffi.lua:1173-1180 | the callback, key and revents of an item of the captured array are those of the registration at its index |
| FfiModel.FfiObeyingSparesPending | src/lua/lzmq/ffi.lua:1120-1184 | swap-with-last removals of visited entries leave pending ones in place |
| PollerEffects.FfiAllowedIff | src/lua/lzmq/ffi.lua:1099-1160 | the rules of dispatch of the FFI poller in full |
| PollerEffects.FfiObeyApplies | src/lua/lzmq/ffi.lua:1099-1184 | a callback whose actions keep to them has all of them done, in order, and each key has the registration these give it |
| PollerEffects.FfiPollLeaves | src/lua/lzmq/ffi.lua:1166-1184 | a poll leaves each key with the registration it had, changed by what the callbacks were allowed to do, in order |
| FfiModel.FfiServedAsRegistered | src/lua/lzmq/ffi.lua:1173-1180 | an entry no earlier callback modified is served with the callback it had when the poll began |
| FfiModel.FfiRemovalIsSafeIff | src/lua/lzmq/ffi.lua:1120-1184 | as long as the array is the one the poll began with, the same question has another answer: the removed entry is not below the current one or is not ready, since the entry moved into its place does not bring its revents |
| FfiReallocated.ReallocatedRemovalIsSafeIff | src/lua/lzmq/ffi.lua:1166-1184 | in a poll that goes on with a replaced array the condition is the same, and the removed entry alone is counted without being called |
| PollerSimulation.StepSimulates | src/lua/lzmq/ffi.lua:1099-1160 | one operation on pollers that hold the same registrations leaves them holding the same |
| PollerSimulation.HistoriesSimulate | src/lua/lzmq/poller.lua:46-69 | after any duplicate-free history both pollers hold the same map from keys to events and callbacks, and the same count |
| PollerSimulation.CallsAreTheReadyKeys | src/lua/lzmq/poller.lua:71-83 | the callbacks called are those of the ready keys, each with the revents of its key |
| PollerSimulation.DispatchSimulates | src/lua/lzmq/ffi.lua:1166-1184 | with the same registrations and readiness, both polls call back for the same multiset of keys and revents, whatever else callbacks do within the rules |
| PollerCallbacks.InvocationsAgreeIff | src/lua/lzmq/ffi.lua:1166-1184 | with the same registrations and readiness, the multisets of keys, revents and callbacks called are equal if and only if, for each ready key, the scripts run before its turn leave it the same callback on both sides |
| PollerCallbacks.CallsThat | src/lua/lzmq/poller.lua:53-83 | the callback called for a ready entry is the last one that an accepted update in those scripts gave its key, for either poller |
| PollerCallbacks.InvocationsSimulate | src/lua/lzmq/ffi.lua:1166-1184 | in particular they are equal if no callback modifies a registration still pending |
| PollerCallbacks.ModifyingPendingDiffers | src/lua/lzmq/ffi.lua:1166-1184 | otherwise they need not be: two keys are ready, the callback of one replaces that of the other, and the pollers, which hold them in different orders, call different callbacks |
| Framing.WritesAreReadBack | src/zsocket.c:316-465 | any run of writes, by any mix of send_all, sendx, sendv and their _more forms, refused ones included, is recovered exactly by successive recv_all calls; what is left is the message under way |
| Framing.EachWriteIsAMessage | src/zsocket.c:316-465 | without _more forms the messages read are the writes, one each |
| Framing.WriteExtends | src/zsocket.c:316-417 | one more write extends what a queue holds |
| Framing.ReadingLosesNothing | src/zsocket.c:435-465 | the frames read are exactly those that carry the messages returned |
| Framing.RefusedWriteIsAMoreWrite | src/zsocket.c:333-354 | a write refused at part k leaves exactly the earlier parts, all with MORE |
| Framing.JoinedIsOneFrame | src/zsocket.c:382-417 | what sendv writes is one frame with all the parts |
| Bytes.ConcatJoin | src/zmsg.c:44-68 | joining takes one string after another |
| Pipes.FailedAt | src/zsocket.c:333-354 | a part is named in the error if and only if it is the first one refused and all before it were sent; those are queued with MORE |
| Pipes.DeliveryIsAWrite | src/zsocket.c:316-380 | a range sent whole is one write of its parts, and a refused one is a write of the earlier parts with MORE |
| Pipes.SendAllAgreesIff | src/lua/lzmq/ffi.lua:547-564 | the C and the FFI send_all leave the same frames and give the same reply, except exactly when the range is empty and its end was left out |
| Pipes.DeliversIff | src/zsocket.c:333-356 | a range passes exactly when all its parts are there and accepted, and raises an error exactly when those before its first nil are accepted |
| Pipes.EmptyRange | src/zsocket.c:318-331 | of an empty range nothing is sent: C passes exactly when its end was left out and the flags are good, FFI never |
| Pipes.GoodRange | src/lua/lzmq/ffi.lua:547-564 | for a range that is not empty, both refuse bad flags, and otherwise send as far as they can |
| Pipes.ResumedReadCompletes | src/zsocket.c:435-465 | a read that stopped short and the next one make up the message |
| Pipes.Pipe.MsgSend | src/zsocket.c:341-354 | an accepted frame goes to the end of the queue, a refused one leaves it alone |
| Pipes.Pipe.MsgRecv | src/zsocket.c:446-452 | the frame at the head of the queue, or nothing |
| CFraming.SendAll | src/zsocket.c:316-356 | the argument checks in their order, then the parts up to the first that is refused or nil |
| CFraming.Sendx | src/zsocket.c:358-380 | the same for arguments; the error names a stack index |
| CFraming.Sendv | src/zsocket.c:382-417 | one frame with the concatenation |
| CFraming.RecvAll | src/zsocket.c:435-465 | one whole message; on an error, all the parts taken so far |
| CFraming.Recvx | src/zsocket.c:467-502 | one whole message; on an error, nil, the error, and the stack below it: the socket, then all parts but the last |
| CFraming.FailureIsDocumentedIff | src/zsocket.c:474-491 | these are the documented results, nil, the error and the parts received (`doc/lzmq.ldoc:593-595`), if and only if no part was received |
| CFraming.FailureAt | src/zsocket.c:474-491 | the socket stands in the place of the first part, and every part but the last one place further on |
| FfiFraming.SendAll | src/lua/lzmq/ffi.lua:547-564 | the loop up to the last part, then the last: the same parts, replies and error indices |
| FfiFraming.Sendx | src/lua/lzmq/ffi.lua:568-574 | no arguments raise an error, otherwise send_all of the arguments |
| FfiFraming.Sendv | src/lua/lzmq/ffi.lua:576-584 | one frame with the concatenation |
| FfiFraming.RecvAll | src/lua/lzmq/ffi.lua:595-604 | one whole message; on an error the parts taken are gone |
| Exchange.Sending | src/zsocket.c:316-417 | after any run of calls of send_all, sendx and sendv of either library, with any flags, ranges and refusals, the queue holds exactly what each call wrote |
| Exchange.Receiving | src/zsocket.c:435-465 | repeated recv_all calls, each of either library, return the messages of the queue in order until none is whole |
| Exchange.SendThenReceive | src/zsocket.c:316-465 | the messages received are exactly those written by the calls, and what is not returned is the message still under way |
| Messages.Gather | src/zmsg.c:44-97 | both passes: exactly the concatenation, every copy in bounds |
| Messages.Message.InitSize | src/zmsg.c:26-32 | a message of that size, whatever its bytes |
| Messages.Message.InitDataMulti | src/zmsg.c:44-97 | a message holding the concatenation of its parts |
| Messages.Message.SetData | src/zmsg.c:174-197 | a splice: size max(old, position - 1 + length), the given bytes in place, all others kept; a negative position is refused |
| Messages.CopyInBoundsIff | src/zmsg.c:178-194 | of the positions the check lets through, a copy of some data stays in the buffer exactly for those from 1 on |
| Messages.Message.SetSize | src/zmsg.c:199-219 | the new size with the common prefix kept |
| Messages.Message.Move | src/zmsg.c:116-134 | the content goes to the destination and the source is left empty |
| Messages.SpliceIsDetermined | src/zmsg.c:174-197 | without a gap the splice has exactly one result |
| Messages.AppendingIsConcatenating | src/zmsg.c:174-197 | appending parts one by one with set_data to an empty message gives what msg_init_data_multi gives |
| Messages.DisjointSplicesCommute | src/zmsg.c:174-197 | writes to disjoint ranges may be made in either order |
| Messages.CuttingBackUndoes | src/zmsg.c:199-219 | set_size back to the old size undoes a write past the end |
| Lifecycle.CloseCloses | src/zsocket.c:600-654 | a close, with whatever its on_close callback closes in turn, closes open sockets only, runs each callback once, and lowers the count by their number |
| Lifecycle.CloseIsExact | src/zsocket.c:600-654 | a close closes exactly the least set of sockets that holds its own and, with every open socket, those its on_close callback closes |
| Lifecycle.FailedCreateRestores | src/zcontext.c:321-376 | a constructor that fails on an option, bind or connect leaves the context as it was but for a closed socket |
| Lifecycle.CreatesIff | src/zcontext.c:321-376 | a constructor passes if and only if the context is neither closed nor shut down, libzmq makes the socket and no option, bind or connect is refused, and then there is one more open socket, in the autoclose table; it raises an error exactly on a closed or shut down context |
| Lifecycle.FreshMakesSockets | src/zcontext.c:321-376 | so it does on a new context |
| Lifecycle.HookIsSet | src/zsocket.c:614-626 | on_close on an open socket makes that its callback, or none, and changes nothing else |
| Lifecycle.EveryRunAccounts | src/zcontext.c:207-268 | over every run of a new context the count is the number of open sockets, never negative; every open socket is in the autoclose table; no callback runs twice, in whatever order tables are traversed |
| Lifecycle.ClosedForGood | src/zsocket.c:628-654 | a closed socket stays as it is over every run, so its callback never runs again |
| Lifecycle.DestroyClosesEverything | src/zcontext.c:256-268 | a successful destroy leaves every socket closed and the count 0, runs each open socket's callback exactly once, and is idempotent; a failed one can be tried again |
| Lifecycle.ShutdownClosesEverything | src/zcontext.c:236-245 | so does a shutdown; when it succeeds no sockets are made any more, when it fails it can be tried again, and a destroy can follow |
| Contexts.Socket.Close | src/zsocket.c:628-654 | closes this object, with its callback, as on values |
| Contexts.Socket.BeforeClose | src/zsocket.c:600-612 | the callback runs, then is dropped |
| Contexts.Socket.SetOnClose | src/zsocket.c:614-626 | registers, replaces or drops the callback; an error on a closed socket |
| Contexts.Context.NewSocket | src/zcontext.c:321-376 | creation with its error paths, as on values; the object is the new socket |
| Contexts.Context.Apply | src/zcontext.c:26-85 | the socket is closed at the first setting refused |
| Contexts.Context.Autoclose | src/zcontext.c:188-205 | the socket goes into the autoclose table, made when missing |
| Contexts.Context.CloseSockets | src/zcontext.c:207-222 | every socket in the table is closed, then the table is dropped |
| Contexts.Context.Shutdown | src/zcontext.c:236-245 | sockets are closed first; a failure leaves the context usable |
| Contexts.Context.Destroy | src/zcontext.c:256-268 | sockets are closed first; nothing happens a second time |
| Z85.PointEightIsRounded | src/lzmq.c:387 | the constant is 0.8 rounded to double precision |
| Z85.TruncatedProduct | src/lzmq.c:387 | below 3 * 2^49 the product, rounded to double precision and truncated, is the floor of four fifths of the length |
| Z85.DecodedLengthIsExact | src/lzmq.c:383-393 | below 3 * 2^49 the decoder accepts exactly multiples of 5 and gives four fifths |
| Z85.FirstWrongProduct | src/lzmq.c:387 | at 3 * 2^49 the truncated product is one too large |
| Z85.FirstWrongIsAccepted | src/lzmq.c:387-388 | so the check lets 3 * 2^49 through, which is not a multiple of 5 |
| Z85.DecodesExactlyBelowIff | src/lzmq.c:383-393 | the decoder is right for every length below a bound if and only if the bound is at most 3 * 2^49 |
| Z85.DecodesExactlyIff | src/lzmq.c:383-393 | from there to 5 * 2^49 it is right for a length if and only if that is not one more than a multiple of 5 |
| Z85.EncodedLengthIsExact | src/lzmq.c:362-373 | the encoder accepts exactly multiples of 4 and gives five fourths |
| Z85.DecodingInvertsEncoding | src/lzmq.c:362-393 | decoding gives back the length that was encoded |
| Z85.EncodingInvertsDecoding | src/lzmq.c:362-393 | encoding gives back the length that was decoded |

## Left out

- libzmq and the Lua virtual machine: stack handling, metatables, registry references and the collector; a socket may
  be closed at any time, which is all the model says of collection.
- Errors raised inside callbacks, failing allocations, and destroying a loop or a poller from its own callback.
- Timer set, get, reset, elapsed and the Windows tick-count timer: the scheduler uses start, stop and rest; a timer is
  a value in the field of the event that owns it.
- `zmq_loop:sleep_ex`, `flush` and `start`: loops around `poll` that end when the clock says so; inside callbacks they
  appear as waits and nested passes. `add_socket` and `remove_socket` forward to the poller.
- `pfire` and `on_error` of events: callbacks do not raise.
- `poller:start` and `stop`: a flag around `poll`.
- FfiFraming.Sendv: the concatenation of table.concat is taken as one step.
- Messages.Message.SetData: position 0 is excluded, where the copy of the source leaves the buffer
  (`Messages.CopyInBoundsIff`); what a gap between the old end and the position holds is left open, as it is in C.
- Message copy, which shares buffers inside libzmq, and the FFI library's message writes.
- Contexts of the FFI library: the same counting with a Lua table, and a destroy that ignores the reply of libzmq.
- on_close callbacks that set or drop the callbacks of other sockets, or that destroy or shut down the context.
- Contexts.Context.NewSocket: several contexts whose callbacks close each other's sockets are not modelled; nor are
  `init_socket` and `reset_handle`, which take native ownership away from the context.
- Z85: the encoding itself is libzmq's; encoded lengths are unbounded integers.
- Option tables, error codes, constants, monitors, CURVE keys, proxies, `bind_to_random_port`, threads and actors.
