# cassobee: models and proofs

This project models the self-contained protocols and codecs of the cassobee C++ server framework
in Dafny and proves what they are for.

* **Left-Right** (`LeftRight.dfy`): readers that never wait, two copies of a structure, a writer
  that changes one copy at a time. Every interleaving of the atomic steps of any number of
  threads, with the read indicators scanned one cell at a time.
* **Lock-free object pool** (`LockfreePool.dfy`): a Treiber stack with a counted head, with
  separate steps for loading the head, loading `next` and the weak compare-and-swap.
* **Ticket lock** (`TicketLock.dfy`): counters that wrap.
* **Timing wheel** (`TimeWheel.dfy`, `TimerList.dfy`, `TimerWheelImpl.dfy`,
  `TimerWheelRun.dfy`): the wheel on values with its firing theorem, the intrusive circular list,
  the wheel as it is written - linked lists walked and relinked in place - proved to compute the
  value-level tick, and whole runs of it.
* **RPC** (`Rpc.dfy`): nodes that exchange packets which may be lost, delayed, repeated and
  reordered, with requests forwarded through any number of nodes.
* **Wire format** (`CompactInt.dfy`, `FrobSize.dfy`, `Octets.dfy`, `Marshal.dfy`, `Stream.dfy`,
  `Frames.dfy`, `Receive.dfy`): variable-length integers, the growing buffer, the typed codec on
  values and as stream methods, the frame encoder that patches a guessed length field in place,
  the incremental decoder, and the receive loop over arbitrary chunks.
* **Session output** (`SessionOutput.dfy`): senders under a lock against a reactor thread that
  sends in parts without it.
* **Thread pool** (`ThreadPool.dfy`): worker loops, essential tasks, stealing, stopping a group.
* **URI** (`Uri.dfy`), **ring buffer** (`RingBuffer.dfy`), **token bucket** (`TokenBucket.dfy`).

`Arith.dfy`, `Machine.dfy` and `Options.dfy` hold shared facts and types. Run
`dafny verify dfyconfig.toml` to check everything.

## How the models are made

Concurrent code is a state, a step function and runs over all schedules, under sequential
consistency; code inside one critical section of a mutex is one step where nothing else can be
observed in between, and is split where it can (the session lock, the two drain waits, the
compare-and-swap loops). History that no step looks at (logs of operations, who a packet is
sent for) is part of the state, so that properties of runs can be stated. Code that changes an
object in place is a class with its fields, and its methods are proved against functions on
values, about which the properties of runs are then proved.

Clocks, randomness, sockets, handlers' results and what `unpack` makes of a body are parameters.

## Where the code differs from what one would expect

These are proved as they are, each with the exact condition under which the code does what its
surroundings promise.

* `set_request` (`source/bee/io/rpc.cpp:183`) passes the timeout where `set_timeout_timer`
  (`source/bee/io/rpc.cpp:197`) expects the trace id, and the trace id where it expects the
  timeout. When every call uses the timeout k, a pending call can be timed out if and only if its
  trace id is k: with the default of 30 seconds, only the thirtieth call of a node. The delay of
  the timer, the trace id in thousands of milliseconds, is not modelled.
* The comments beside the size table count seven bits a byte (8 to 14 bits in two bytes), its
  entries eight (15 bits in two bytes too, `source/bee/common/varint.h:71-82`); they are right for
  the bit lengths of `CompactInt.TableAgrees` only. A frame whose body length has another bit
  length, the shortest being 2^14 bytes, is not read back.
* A complete frame of a protocol that is not known is neither skipped nor refused
  (`source/bee/io/protocol.cpp:109-154`): the cursor stays before it, and the session delivers
  nothing more, without being closed for it.
* A session buffer is compacted only when the cursor is beyond 0x100000
  (`source/bee/common/marshal.h:67-75`), and `on_recv` does not let it grow
  (`source/bee/io/session.cpp:93-95`). Streams of frames up to a length are delivered to their
  ends if and only if the buffer has room for 0x100000 bytes and one such frame; a buffer of at
  most 0x100000 bytes takes in no more bytes than that in all.
* A header cut by the end of a chunk sets the state of the session to CLOSING, although an
  incomplete body does not (`source/bee/io/protocol.cpp:109-154`). The next `on_recv` or `on_send`
  overwrites that (`source/bee/io/session.cpp:91`, `:118`); the event loop acts on it only at the
  end of an event that leaves it so (`source/bee/io/ioevent.cpp:211-224`).
* `is_writeos_empty` compares how far `_writebuf` is sent with the size of `_writeos`
  (`source/bee/io/session.cpp:188-191`), so `handle_close`, which is to send the rest before it
  disconnects (`source/bee/io/ioevent.cpp:211-224`), may delete a session whose output is not
  sent. It loses output exactly when `_writebuf` is not empty then.
* A timer that is loaded after its time is never fired, because the unsigned difference wraps
  (`source/bee/common/timewheel.cpp:56`). A repeating timer whose period is less than one tick
  fires twice, 4096 ticks apart, and then never again, although it stays in the wheel.
* When the workers of a stopped group have been joined, a task that the group accepted may still
  be in the hand of a thief (`source/bee/thread/threadpool.cpp:90-105`), unless nobody can steal
  from it.
* A lazy pool reads the flag that tells whether an object is constructed from memory that nothing
  has written (`source/bee/common/objectpool.h:206-222`); an object whose flag happens to be true
  is handed out unconstructed.
* The default port of `http` and `ws` is 8080, not 80 (`source/bee/http/uri.cpp:168-171`).
* The token bucket divides before it multiplies (`source/bee/io/traffic_shaper.h:21`), so a second
  earns the rate rounded down to a multiple of 1000. A caller who waits is granted every request
  that fits if and only if the rate is at least 1000 bytes a second (or 0); below, the bucket is
  never refilled.

## Model

| member | source | states |
|---|---|---|
| `LeftRight.WritersNeverTouchHeldCopies` | source/bee/thread/left_right.h:134-194 | In every reachable state, the copy a writer is changing is held by no reader between its load of `_left_right` and its `depart`, late arrivals on a stale version index included |
| `LeftRight.HeldCopyIsFrozen` | source/bee/thread/left_right.h:134-162 | No step of any thread changes the copy a reader holds |
| `LeftRight.CopiesAgreeWhenUnlocked` | source/bee/thread/left_right.h:143-162 | Whenever the writer lock is free, both copies are the fold of all writes in lock order |
| `LeftRight.ReadsAreAtomic` | source/bee/thread/left_right.h:134-141 | Each completed read saw the state after exactly k writes, k at least the writes done before it began and at most those begun before it ended, and later reads never go backwards |
| `LeftRight.HistoryOnlyGrows` | source/bee/thread/left_right.h:134-162 | The order of writes and the completed reads are never revised |
| `LeftRight.ZeroCellIsEmpty` | source/bee/thread/left_right.h:81-94 | An indicator cell that reads zero has no reader between `arrive` and `depart` on it |
| `LeftRight.StepInv` | source/bee/thread/left_right.h:134-194 | Every atomic step of every thread keeps the invariant: each indicator cell counts the readers that stand on it, the copies are the writes so far or the one before, and a reader on the copy to be changed next can still be met by the scan |
| `LeftRight.LateReadersShrink` | source/bee/thread/left_right.h:165-194 | After a step of the writer, a reader that still holds the side about to be changed stands in a cell the scan has yet to pass |
| `LeftRight.WaitStep` | source/bee/thread/left_right.h:177-194 | During a drain wait each step of a waited-for reader uses up one of its remaining steps and no other step adds any; once none remain the scan advances with every step of the writer |
| `LeftRight.WaitHasBoundedDrain` | source/bee/thread/left_right.h:177-194 | Over any schedule during a wait, the steps taken by waited-for readers and those still to come are exactly those there were at its start |
| `LeftRight.DrainedWaitEnds` | source/bee/thread/left_right.h:81-94 | Once those readers are done, the writer leaves the wait within one sweep over the cells |
| `LeftRight.WriteTakesEffect` | source/bee/thread/left_right.h:143-162 | Under any schedule, a write that finds the lock free returns once it has been given 2 * cells + 8 steps in which no reader keeps it waiting: the lock is free again, the write is the next in lock order, and both copies are the fold of the writes before it and this one |
| `LeftRight.WriteAlone` | source/bee/thread/left_right.h:143-162 | From any reachable state with the lock free and no read under way, a thread that runs alone completes its write so within 2 * cells + 9 steps |
| `LeftRight.WriteCanReturn` | source/bee/thread/left_right.h:143-194 | With any reads under way, the write can complete so with no more than the steps of these readers and its own |
| `LeftRight.ReadsAreWaitFree` | source/bee/thread/left_right.h:134-141 | Under any schedule, whatever writers and other readers do, a read ends with the steps of its own that it has left, at most four, and its result is recorded |
| `LeftRight.ReadAlone` | source/bee/thread/left_right.h:134-141 | A read while the lock is free sees all writes and changes nothing else |
| `LockfreePool.CasInstallsCurrentSuccessor` | source/bee/common/objectpool.h:244-269 | A compare-and-swap of `alloc` that succeeds installs the current successor of the head, whatever was popped and pushed since the head was loaded |
| `LockfreePool.EveryNodeInOnePlace` | source/bee/common/objectpool.h:201-303 | Every node is on the free chain, with one holder or in the hand of one thread, and in one of these places only |
| `LockfreePool.ChainIsTheStack` | source/bee/common/objectpool.h:201-303 | The completed operations form a legal history of a stack, and the chain from the head is exactly that stack, without repetition; the counter is the number of operations |
| `LockfreePool.FailureMeansProgress` | source/bee/common/objectpool.h:254-255 | A compare-and-swap that fails for a reason fails because another operation completed since the head was loaded |
| `LockfreePool.AllocPopsTheTop` | source/bee/common/objectpool.h:244-269 | A thread that wins a node has popped the top of the stack |
| `LockfreePool.AllocFailsOnlyIfEmptied` | source/bee/common/objectpool.h:244-269 | Under any schedule, an `alloc` that ends without a node found the pool empty at a moment, between its start and its end, when the stack was empty |
| `LockfreePool.AllocFailsOnlyWhenEmpty` | source/bee/common/objectpool.h:246-268 | The head that `alloc` loads is null exactly when the stack is empty at that moment |
| `LockfreePool.AllocAlone` | source/bee/common/objectpool.h:244-269 | From any reachable state with a free node, an undisturbed `alloc` hands the top of the stack to its caller, and the rest is the stack |
| `LockfreePool.AllocAloneFails` | source/bee/common/objectpool.h:249 | With an empty stack it ends at once, hands out nothing and changes nothing |
| `LockfreePool.FreeAlone` | source/bee/common/objectpool.h:271-286 | An undisturbed `free` puts the node on top of the stack and takes it from its holder |
| `LockfreePool.AloneFinishes` | source/bee/common/objectpool.h:244-303 | From any reachable state, with the other threads stopped anywhere, a thread finishes its operation within five steps |
| `LockfreePool.HandedOutObjectsAreBuiltOnce` | source/bee/common/objectpool.h:206-266 | In every run an object that is handed out was constructed exactly once if and only if the pool is eager or the memory of its flag held false at first; otherwise it was never constructed |
| `LockfreePool.GarbageFlagIsBelieved` | source/bee/common/objectpool.h:206-266 | In a lazy pool whose first flag held true at first, the first `alloc` hands out an object that was never constructed |
| `LockfreePool.LogOnlyGrows` | source/bee/common/objectpool.h:244-303 | The order of operations is never revised |
| `TicketLock.ExclusiveIffThreadsFit` | source/bee/thread/lock.h:143-175 | Mutual exclusion holds in every run of a number of threads if and only if there are no more threads than values of a counter |
| `TicketLock.ExclusiveUnlessCrowded` | source/bee/thread/lock.h:143-175 | With any number of threads, mutual exclusion holds in every run in which no more threads hold or wait at once than a counter has values |
| `TicketLock.FirstComeFirstServed` | source/bee/thread/lock.h:146-161 | In every such run threads get the lock in the order in which they drew tickets, through wrap-around |
| `TicketLock.SafeWithUnsignedCounters` | source/bee/thread/lock.h:172-175 | With 32-bit counters both hold in every run in which at most 2^32 threads hold or wait at once |
| `TicketLock.ServedIsFirst` | source/bee/thread/lock.h:149 | Only the first waiting thread finds its own ticket in `_serving` |
| `TicketLock.ReleaseAdmitsNext` | source/bee/thread/lock.h:156-161 | `unlock` leaves the others in their order, and the next one enters with its next step |
| `TicketLock.EveryoneGetsIn` | source/bee/thread/lock.h:146-161 | With k threads before it a thread gets the lock within 2k + 1 steps, those of the threads before it and its own |
| `TicketLock.LockIsTaken` | source/bee/thread/lock.h:146-161 | So does a thread that calls `lock`, when fewer threads hold or wait than a counter has values |
| `TimeWheel.FiresExactlyOnSchedule` | source/bee/common/timewheel.cpp:54-193 | Over any run, among any other timers, a timer of a positive period loaded in time whose handler keeps returning true fires in a tick if and only if the tick is first + k * period for a k within its repetitions, and then once |
| `TimeWheel.TickRefinesBag` | source/bee/common/timewheel.cpp:97-193 | For timers of any period, a tick of the wheel fires exactly the due timers of the bag of all timers, rearms those that go on and keeps the others |
| `TimeWheel.TickInv` | source/bee/common/timewheel.cpp:97-193 | Every tick keeps every timer, whatever its period, in the slot of its time modulo 4096 or in the overflow list |
| `TimeWheel.DueExactly` | source/bee/common/timewheel.cpp:122-126 | The current slot holds each timer that is due now as often as the wheel does, and no other |
| `TimeWheel.LoadedLateNeverFires` | source/bee/common/timewheel.cpp:54-70 | A timer of any period loaded after its time is fired by no tick of any run, among any other timers |
| `TimeWheel.AddedInTime` | source/bee/common/timewheel.cpp:17-33 | However many ticks pass before it is loaded, a timer is loaded in time if and only if it is delayed by at least that time, or not delayed and loaded in the very tick |
| `TimeWheel.ZeroPeriodFiresTwice` | source/bee/common/timewheel.cpp:54-70 | Over any run, among any other timers, a repeating timer whose period is below one tick fires at its time and once more 4096 ticks later, and at no other tick |
| `TimeWheel.OnScheduleIffPeriod` | source/bee/common/timewheel.cpp:54-193 | A timer loaded in time keeps its schedule in all runs if and only if its period is at least one tick or it fires at most once |
| `TimeWheel.RegroupBag` | source/bee/common/timewheel.cpp:164-181 | Regrouping loses and repeats no timer |
| `TimeWheel.FollowTick` | source/bee/common/timewheel.cpp:183-193 | In a tick, a timer among any others moves and fires as it would alone |
| `TimeWheel.NewWheelFires` | source/bee/common/timewheel.cpp:17-193 | In any run from a new wheel, every timer that is added, of whatever period, fires in the ticks that its time, period and repetitions give (two ticks for a repeating timer of period 0), and never before it is added |
| `TimerList.TimerList.PushBack` | source/bee/common/timewheel.h:58-75 | The linked ring holds the old nodes in order and then the new one |
| `TimerList.TimerList.Pop` | source/bee/common/timewheel.h:76-97 | The linked ring holds the other nodes in order |
| `TimerList.TimerList.Clear` | source/bee/common/timewheel.h:98-102 | The list is empty |
| `TimerList.TimerList.Swap` | source/bee/common/timewheel.h:103-107 | The two rings are exchanged |
| `TimerList.RingWithout` | source/bee/common/timewheel.h:85-94 | Relinking the two neighbours of a node leaves a ring of the others in order |
| `TimerWheelImpl.Wheel.constructor` | source/bee/common/timewheel.h:138-151 | A new wheel is the empty wheel at tick 0 |
| `TimerWheelImpl.Wheel.AddTimer` | source/bee/common/timewheel.cpp:17-33 | On linked lists: refused when stopped, without handler or without a free node, and otherwise the value-level addition |
| `TimerWheelImpl.Wheel.Readd` | source/bee/common/timewheel.cpp:54-70 | On linked lists: the node goes to the end of the list of its time and to no other |
| `TimerWheelImpl.Wheel.WalkOne` | source/bee/common/timewheel.cpp:101-118 | One turn of the walk that saves the successor before it relinks the node visits the next node of the original chain |
| `TimerWheelImpl.Wheel.LoadTimers` | source/bee/common/timewheel.cpp:97-120 | Every node of the change list is visited once and moved to its list, which leaves the change list empty |
| `TimerWheelImpl.Wheel.FireOne` | source/bee/common/timewheel.cpp:129-155 | The handler of the node is the one called; its result decides whether the node is unlinked, counted and put back, and the walk goes on behind it |
| `TimerWheelImpl.Wheel.HandleTimer` | source/bee/common/timewheel.cpp:122-156 | The walk over the due nodes calls the handlers of the due timers, each once and in their order, and computes the value-level handling |
| `TimerWheelImpl.Wheel.RegroupOne` | source/bee/common/timewheel.cpp:167-180 | One turn of the walk over the overflow list moves the node or leaves it, and goes on behind it |
| `TimerWheelImpl.Wheel.RegroupTimers` | source/bee/common/timewheel.cpp:164-181 | The walk over the overflow list computes the value-level regrouping |
| `TimerWheelImpl.Wheel.SwitchChangelist` | source/bee/common/timewheel.cpp:158-162 | Front and back change list change places and nothing else changes |
| `TimerWheelImpl.Wheel.Tick` | source/bee/common/timewheel.cpp:183-193 | A tick on linked lists calls the handlers that the value-level tick fires, in that order, computes the value-level tick, and keeps every node in at most one list |
| `TimerWheelRun.RunTurns` | source/bee/common/timewheel.cpp:17-193 | Over any run of additions and ticks of the linked wheel from its construction on, the handlers called in each tick are those the wheel on values fires; and every timer of a period of at least a tick (or that fires once) whose handler keeps returning true is called once in the ticks of its schedule and in no other, among any other timers |
| `Rpc.CompletedAtMostOnce` | source/bee/io/rpc.cpp:58-86 | In every run, with loss, delay, repetition and reordering, each call runs `client` or `timeout` at most once in total |
| `Rpc.ResultBelongsToCall` | source/bee/io/rpc.cpp:45-87 | A result given to `client` was computed by a server for that very call and its own argument, through any number of forwarding nodes |
| `Rpc.CallCompletes` | source/bee/io/rpc.cpp:43-184 | From any reachable state and through any number of forwarding servers: a call, the delivery of its request to each server, the answer of the last one and the delivery of each reply add exactly one event, the `client` of that call with its own argument and that result |
| `Rpc.ResultGoesBack` | source/bee/io/rpc.cpp:58-86 | Through any number of forwarding nodes, a reply that has reached the last of them is brought back by one delivery each to the call it started from, which completes with the result and its own argument |
| `Rpc.ClaimInv` | source/bee/io/rpc.cpp:60-68 | Erasing a pending call under the lock keeps all invariants, and nothing was reported for it before |
| `Rpc.SetRequestInv` | source/bee/io/rpc.cpp:164-184 | A new request, forwarded or not, gets an unused trace id and keeps all invariants |
| `Rpc.RunClientInv` | source/bee/io/rpc.cpp:58-86 | A reply completes the call, or goes back to the caller under the caller's trace id, and keeps all invariants |
| `Rpc.TimesOutIffTraceIsTimeout` | source/bee/io/rpc.cpp:181-218 | When every call uses the timeout k, a pending call is timed out in some continuation if and only if its trace id is k |
| `Rpc.LostReplyNeverTimesOut` | source/bee/io/rpc.cpp:181-218 | The first call of a node, with the default timeout: no continuation times it out, and as long as no packet is delivered it stays pending |
| `Rpc.OnlyThirtiethTimesOut` | source/bee/io/rpc.cpp:181-184 | With the default timeout everywhere, no call but the thirtieth of a node is ever timed out |
| `CompactInt.ZigzagRoundTrip` | source/bee/common/varint.h:9-37 | Every signed number of a width is restored from its zigzag code, which fits the width |
| `CompactInt.ZigzagBack` | source/bee/common/varint.h:9-37 | Every unsigned number of a width is the zigzag code of the number it decodes to |
| `CompactInt.WriteVarint` | source/bee/common/varint.h:40-48 | The loop appends the base-128 encoding |
| `CompactInt.ReadVarint` | source/bee/common/varint.h:50-65 | The loop finds the value and end that reading the bytes ahead defines, and fails exactly when that fails |
| `CompactInt.VarintRoundTrip` | source/bee/common/varint.h:40-65 | Every 64-bit value is read back, and reading stops where its encoding ends |
| `CompactInt.TruncatedVarint` | source/bee/common/varint.h:50-65 | No proper prefix of an encoding is read as a value |
| `CompactInt.VarintLength` | source/bee/common/varint.h:40-48 | An encoding has one byte for every seven bits of its value |
| `CompactInt.SmallNumbersAreShort` | source/bee/common/varint.h:9-48 | A signed number of any width takes at most k bytes in zigzag and base 128 if and only if it is a signed number of 7k bits |
| `CompactInt.CompactSizeIsLength` | source/bee/common/varint.h:67-100 | The size table never exceeds the length of the encoding, and equals it exactly for the listed bit lengths |
| `CompactInt.CompactSizeRanges` | source/bee/common/varint.h:67-100 | Below 2^21 the table is right if and only if the value is below 2^14 or at least 2^15 |
| `FrobSize.Compute` | source/bee/common/octets.h:12-28 | The six or-shifts compute the capacity without overflow, and sizes above 2^63 are refused |
| `FrobSize.SizeIsLeast` | source/bee/common/octets.h:12-28 | That capacity is the least power of two that is at least the size and at least 16 |
| `ByteBuffer.Octets.Reserve` | source/bee/common/octets.h:185-189 | The contents stay; the buffer is replaced only if it is too small |
| `ByteBuffer.Octets.Append` | source/bee/common/octets.h:162-168 | The contents are the old ones and the new bytes |
| `ByteBuffer.Octets.Replace` | source/bee/common/octets.h:169-177 | The bytes at a position are overwritten, at most to the end, and no others |
| `ByteBuffer.Octets.Erase` | source/bee/common/octets.h:178-184 | The bytes of a range, cut at the end, are removed |
| `Marshal.PopAfterPush` | source/bee/common/marshal.h:88-291 | For every type, what was pushed is popped into any variable as the merge with what it held, and the bytes behind it stay unread |
| `Marshal.RoundTrip` | source/bee/common/marshal.h:88-291 | Popped into a new variable, every value of every type comes back, whatever bytes follow |
| `Marshal.MergeEmpty` | source/bee/common/marshal.h:132-143 | Merging into a new variable changes nothing |
| `Marshal.PrefixFree` | source/bee/common/marshal.h:88-291 | No encoding of a type is a prefix of another |
| `Marshal.TruncatedIsRefused` | source/bee/common/marshal.h:100-143 | An encoding that is cut anywhere is refused |
| `Marshal.PopIntoContainer` | source/bee/common/marshal.h:232-291 | From any bytes, into any container: a list grows by the elements that were read; a set or map keeps what it had and takes each new key once, with the first element of that key, and all keys that were read are in it; it throws exactly if the count or an element is cut |
| `Marshal.MergeTook` | source/bee/common/marshal.h:271-289 | The merge of `PopAfterPush` keeps what a container had and takes in the new keys in the same way |
| `Marshal.PoppedIntFits` | source/bee/common/marshal.h:100-110 | Whatever 64-bit number was read, the variable gets a number of its type whose code is the lower bits of what was read |
| `Stream.OctetsStream.Push` | source/bee/common/marshal.h:88-230 | The stream's buffer grows by exactly the encoding of the value |
| `Stream.OctetsStream.Pop` | source/bee/common/marshal.h:100-291 | Value and cursor are those of the codec on values, and it throws exactly when that fails, for announced lengths whose sum with the cursor is below 2^64 (`LengthCheckIsExact`) |
| `Stream.OctetsStream.PopItems` | source/bee/common/marshal.h:271-289 | The element loop of containers reads the elements the format gives and leaves the container as `PopIntoContainer` says, for any bytes; it throws exactly if one is cut |
| `Stream.OctetsStream.PopCompact` | source/bee/common/marshal.h:381-392 | The cursor moves behind the number that was read |
| `Stream.OctetsStream.TryShrink` | source/bee/common/marshal.h:67-75 | The unread bytes stay; the read ones go exactly when the cursor is beyond 0x100000 |
| `Stream.LengthCheckIsExact` | source/bee/common/marshal.h:132-143 | The check of an announced length, whose sum wraps at 64 bits, refuses exactly the lengths that do not fit if and only if the sum of cursor and length is below 2^64 |
| `Frames.Encode` | source/bee/io/protocol.cpp:57-107 | Whatever stood in the guessed length field and however far the body moved, exactly the frame is appended: id, the length field of the table's size, body |
| `Frames.Shift` | source/bee/io/protocol.cpp:83-90 | The overlapping move and the wrapping resize put the body behind a gap of the right size and keep all bytes before it |
| `Frames.ResizeBy` | source/bee/io/protocol.cpp:85-90 | Adding the wrapped difference to the size undoes the wrap-around: the buffer ends behind the moved body whether the length field grew or shrank |
| `Frames.Decode` | source/bee/io/protocol.cpp:109-154 | A complete frame of a known protocol is taken; in every other case the cursor stays, and a header that cannot be read is told apart |
| `Frames.FrameRoundTrip` | source/bee/io/protocol.cpp:57-154 | A frame whose length field is whole is read back with its id and body, and the bytes behind it stay unread |
| `Frames.ReadBackIffFieldIsWhole` | source/bee/io/protocol.cpp:57-154 | An encoded frame is read back if and only if the size table is right for its length |
| `Frames.ShortestLostBody` | source/bee/io/protocol.cpp:80-101 | Below 2^21 bytes a body is read back if and only if it is shorter than 2^14 or at least 2^15 bytes long |
| `Frames.UnknownFrameStays` | source/bee/io/protocol.cpp:109-154 | A complete frame of a protocol that is not known is neither taken nor an error, whatever follows it |
| `Receive.Session.Recv` | source/bee/io/session.cpp:87-112 | The call appends what fits, delivers the frames that are complete, compacts, and leaves the state CLOSING or not, as defined on values |
| `Receive.DrainStream` | source/bee/io/session.cpp:98-110 | The first bytes of a stream yield exactly the frames complete in them, and an incomplete body leaves the cursor before its frame |
| `Receive.PartialFrame` | source/bee/io/protocol.cpp:109-154 | A cut inside the header is an error, a cut inside the body is waited for |
| `Receive.DeliversWholeFramesInOrder` | source/bee/io/session.cpp:87-112 | For every split into chunks, the delivered frames are the first of the stream, and with the unread and unappended bytes they make up what was received |
| `Receive.ClosingIffLastCallCutsHeader` | source/bee/io/session.cpp:87-112 | After any run of calls the state is CLOSING if and only if the last call left unread bytes that end inside a header |
| `Receive.EventDeletes` | source/bee/io/ioevent.cpp:24-36 | An event ends in CLOSING if and only if nothing was sent in it and its last call cut a header (or none was made and the state was CLOSING), and deletes the session if then `is_writeos_empty` holds |
| `Receive.DeletedIffCutIsRemembered` | source/bee/io/ioevent.cpp:24-36 | Over any run of events and any chunks of a stream, the session is deleted if and only if some event's last call leaves a cut header and nothing is sent in it, and some event from there on finds `is_writeos_empty` before anything is received or sent again |
| `Receive.AllAppendedAllDelivered` | source/bee/io/session.cpp:87-112 | Once the whole stream is appended, all its frames have been delivered |
| `Receive.SmallBufferTakesItsSize` | source/bee/common/marshal.h:67-75 | Over a whole session a buffer of at most 0x100000 bytes takes in the lesser of its size and what was received |
| `Receive.SmallBufferDeliversIffFits` | source/bee/io/session.cpp:93-111 | With such a buffer a stream is delivered to its end, in any chunks, if and only if it is no longer than the buffer |
| `Receive.DeliversAllIffRoomBehind` | source/bee/io/session.cpp:93-111 | For any buffer: all streams of frames no longer than a given one are delivered to their ends if and only if the buffer has room for 0x100000 bytes and that frame |
| `Receive.StuckForever` | source/bee/io/session.cpp:93-111 | A full buffer with an incomplete frame ahead and the cursor not beyond 0x100000 delivers nothing more, whatever is received |
| `Receive.UnknownBlocks` | source/bee/io/session.cpp:87-112 | Behind a complete frame of an unknown protocol nothing is delivered, whatever is received in any chunks, and no call leaves the state CLOSING |
| `SessionOutput.NothingLostOrReordered` | source/bee/io/ioevent.cpp:441-494 | Under any interleaving, bytes sent, unsent rest of `_writebuf` and `_writeos` make up the accepted messages in order |
| `SessionOutput.SendEventIsSet` | source/bee/io/session_manager.cpp:223-279 | While the event is not deleted, whatever the state of the session, whenever its lock is free and bytes are left, EVENT_SEND is in the mask |
| `SessionOutput.OneInside` | source/bee/io/session_manager.cpp:238-246 | At most one thread is inside a critical section of the session lock |
| `SessionOutput.UnsentIsBounded` | source/bee/io/session_manager.cpp:223-279 | In every run, whatever is accepted, the bytes not yet sent fit in the two buffers with which the session started |
| `SessionOutput.CloseSendsAllIffBufferIsEmpty` | source/bee/io/ioevent.cpp:211-224 | `handle_close` deletes a closing session whose output is all sent; and when it deletes one, all that was accepted is ever sent if and only if `_writebuf` was empty |
| `SessionOutput.AcceptedOutputIsLost` | source/bee/io/session.cpp:188-191 | A run of a new session after which an accepted message, whatever it is, is sent in no continuation |
| `SessionOutput.HandleWriteSendsAll` | source/bee/io/ioevent.cpp:441-494 | An undisturbed call with a socket that takes what it is given sends all accepted bytes and removes EVENT_SEND |
| `SessionOutput.SentMessageArrives` | source/bee/io/session_manager.cpp:223-246 | Whatever happened before, a message that fits, sent while nobody disturbs, is given to the socket by the next `handle_write`, behind all messages before it |
| `SessionOutput.LongMessageIsRefused` | source/bee/io/session_manager.cpp:239-243 | A message that is longer than the free space of `_writeos` is refused and leaves no trace |
| `SessionOutput.FailedSendIsTheLast` | source/bee/io/ioevent.cpp:466-479 | In any run a send that fails deletes the event: no continuation sends anything, and some accepted bytes stay unsent |
| `SessionOutput.ReactorConserves` | source/bee/io/session.cpp:172-186 | Swapping and clearing the buffers loses and reorders no byte |
| `ThreadPool.EveryTaskInOnePlace` | source/bee/thread/threadpool.cpp:23-86 | In every state of every run an accepted task is in a queue, with a worker or finished, in one of these places and once |
| `ThreadPool.TakenInOrder` | source/bee/thread/threadpool.cpp:49-62 | In every run, own workers and thieves take the tasks of a group in the order in which it accepted them |
| `ThreadPool.QueuesAreBounded` | source/bee/thread/threadpool.cpp:107-124 | In every run no queue holds more tasks than the `maxsize` of its group |
| `ThreadPool.WorkerFinishesAll` | source/bee/thread/threadpool.cpp:23-86 | From any reachable state a worker, awake or asleep, that is given steps finishes the task in its hand, its essential tasks and all tasks in the queue of its group |
| `ThreadPool.AddedTaskIsFinished` | source/bee/thread/threadpool.cpp:31-124 | From any reachable state a task added to a group that is not stopped and has room is accepted, and any worker of the group that is given steps finishes it |
| `ThreadPool.AddedEssentialIsFinished` | source/bee/thread/threadpool.cpp:217-226 | A task that is run may add an essential one, and its worker finishes it, whether or not the group is stopped or full |
| `ThreadPool.JoinedGroupIsDone` | source/bee/thread/threadpool.cpp:90-105 | When the joins of a group with at least one worker can complete, every task it accepted is finished or is being run by a thief of another group |
| `ThreadPool.JoinedGroupIsDoneWithoutStealing` | source/bee/thread/threadpool.cpp:90-124 | Without stealing every such task is finished |
| `ThreadPool.DoneIffNobodySteals` | source/bee/thread/threadpool.cpp:31-105 | A group that is stopped and joined has finished its tasks in every run if and only if it accepts none, or it has a worker and stealing is off or no worker belongs to another group |
| `ThreadPool.StolenWhileJoined` | source/bee/thread/threadpool.cpp:90-105 | With stealing on and a worker of another group, a run that joins the group while a thief still has its task |
| `ThreadPool.EssentialTasksAreDone` | source/bee/thread/threadpool.cpp:31-62 | A worker that has left has finished all its essential tasks |
| `ThreadPool.ExitedQueue` | source/bee/thread/threadpool.cpp:31-33 | Once a worker has left, the queue of its group is empty and stays so |
| `ThreadPool.ProbesAreAPermutation` | source/bee/thread/threadpool.cpp:238-246 | From any start, the indices of the stealing loop visit every group exactly once |
| `ThreadPool.FailedStealProbedEveryGroup` | source/bee/thread/threadpool.cpp:238-260 | In every run a worker that found nothing to steal has visited every group exactly once |
| `Uri.ParseOfToString` | source/bee/http/uri.cpp:27-241 | Printed and parsed, a well-formed hierarchical URI keeps every component, but for a default port |
| `Uri.UnchangedIffPortIsPrinted` | source/bee/http/uri.cpp:99-177 | It comes back unchanged if and only if it has no port or one that is not the default |
| `Uri.ParseIsTheFormat` | source/bee/http/uri.cpp:27-241 | For every text, with or without scheme and authority: `parse` finds the components that the format defines, and no other components fit the text |
| `Uri.RelativeRoundTrip` | source/bee/http/uri.cpp:72-97 | Path, query and fragment of a relative reference are told apart again, with everything else empty |
| `Uri.OpaqueRoundTrip` | source/bee/http/uri.cpp:27-70 | Behind a scheme and a rest that does not start with two slashes, the rest is the path and everything else is empty |
| `Uri.HttpDefaultIsNotEighty` | source/bee/http/uri.cpp:165-177 | With scheme http, port 8080 is lost and port 80 is kept |
| `Uri.Uri.ParseFrom` | source/bee/http/uri.cpp:27-97 | For every text the assignments of `parse` leave the components that the format defines for it |
| `Uri.Uri.SetHostport` | source/bee/http/uri.cpp:210-241 | The assignments of `parse_hostport`, with and without brackets, compute what is defined on values |
| `Uri.AtoiDecimal` | source/bee/http/uri.cpp:135-234 | A printed port is read back |
| `Uri.AtoiReads` | source/bee/http/uri.cpp:221-234 | White space and a sign before the digits of a port are accepted, and what follows them is ignored |
| `Uri.AtoiOfNothing` | source/bee/http/uri.cpp:221-234 | A port without digits behind its sign is 0 |
| `Uri.AuthorityRoundTrip` | source/bee/http/uri.cpp:113-192 | User, password, host (in brackets if it has colons) and port are told apart again |
| `RingBuffer.RingBuffer.Write` | source/bee/utility/ring_buffer.h:29-43 | The longest prefix that fits is appended, across the end of the array |
| `RingBuffer.RingBuffer.Read` | source/bee/utility/ring_buffer.h:50-63 | The oldest bytes are removed and returned, across the end of the array |
| `RingBuffer.FirstInFirstOut` | source/bee/utility/ring_buffer.h:29-90 | Over any run of writes, reads and resets the bytes handed out and those held are the bytes accepted and not dropped by a reset, in order |
| `RingBuffer.RunOps` | source/bee/utility/ring_buffer.h:29-90 | Any such run on the array hands out what the bounded queue hands out |
| `RingBuffer.WrapIsRemainder` | source/bee/utility/ring_buffer.h:37-58 | The cursor equation of the class is `write_cursor = (read_cursor + size) % N` |
| `TokenBucket.Serve` | source/bee/io/traffic_shaper.h:14-31 | Any run of calls on a new shaper grants what the bucket on values does, and no more than the capacity and what the time of the run earns |
| `TokenBucket.WindowIsBounded` | source/bee/io/traffic_shaper.h:14-31 | In any window of any run, with a clock that does not go back in it and no overflow, at most the capacity plus what the time from its first to its last call earns is granted |
| `TokenBucket.Balance` | source/bee/io/traffic_shaper.h:14-31 | What was granted and what is left never exceed what was there and what was earned |
| `TokenBucket.ExactBalance` | source/bee/io/traffic_shaper.h:14-31 | In a run in which no refill is cut off at the capacity, what was granted and what is left is exactly what was there and what was earned |
| `TokenBucket.NeverOverfull` | source/bee/io/traffic_shaper.h:22 | The tokens never exceed the capacity, whatever the clock does |
| `TokenBucket.WaitingHelps` | source/bee/io/traffic_shaper.h:17-30 | A request is granted if and only if it fits the bucket and what was left and earned covers it |
| `TokenBucket.SlowBucketNeverRefills` | source/bee/io/traffic_shaper.h:21 | Below 1000 bytes a second a run grants at most what the bucket held at its start |
| `TokenBucket.WaitingIsEnoughIffThousand` | source/bee/io/traffic_shaper.h:14-31 | Whatever is left in the bucket, every request that fits it is granted at some later time, if and only if the rate is at least 1000 bytes a second (or 0, where only empty requests fit) |
| `TokenBucket.SecondEarnsThousands` | source/bee/io/traffic_shaper.h:21 | A second earns the rate rounded down to a multiple of 1000, so all of it if and only if it is one |

## Left out

- LeftRight.WritersNeverTouchHeldCopies: weak-memory reordering is not modelled (the scan of the indicators is relaxed with fences in the source); write functions are repeatable and reads are pure.
- LeftRight.WriteTakesEffect: bounds the steps of the threads; that the scheduler runs each thread again is assumed, not proved.
- LockfreePool.HandedOutObjectsAreBuiltOnce: what the unwritten flags hold is a parameter; destroying the objects with the pool is not modelled.
- LockfreePool.EveryNodeInOnePlace: only the holder of a node frees it, once; the 64-bit counter is unbounded.
- TicketLock.ExclusiveIffThreadsFit: `try_lock` is not modelled, and only a thread that has the lock releases it.
- TimeWheel.FiresExactlyOnSchedule: ticks and timeouts stay below 2^62; timeouts are not negative; reading the tick and pushing the timer in `add_timer` are one step (`AddedInTime` says what a delay between them does), and handlers add no timer while they run.
- TimerWheelImpl.Wheel.HandleTimer: a node whose handler returns false stays linked in the discarded list of due nodes, as in the source, until its next use; the lock of each node is not modelled.
- TimerWheelImpl.Wheel.AddTimer: that the timer pool hands out a node that is in no list is a precondition; in `TimerWheelRun.RunTurns` every node is a new one.
- TokenBucket.WaitingIsEnoughIffThousand: for capacities that leave room for one more millisecond below 2^64.
- Timer deletion (`del_timer`, `remove_timer`) is not modelled.
- Rpc.ResultBelongsToCall: packets are values, so the ownership of rpc objects is not modelled; that a forwarding node sends the request on with the same argument after `set_request` is part of the step, because that code is in the application.
- Rpc.TimesOutIffTraceIsTimeout: timers fire at any time; their delay is not modelled.
- FrobSize.Compute: buffers above 2^63 bytes do not exist in the other modules, so sums of sizes do not wrap there.
- Marshal.PopAfterPush: the order of an ordered set or map is the order of insertion; failed allocation for absurd element counts is not modelled, nor is overflow of `_pos` plus a length (`Stream.LengthCheckIsExact`).
- Marshal.RoundTrip: arrays of non-pod elements are not modelled; `pop_container` has no insertion for them.
- Stream.OctetsStream.Pop: the sum of cursor and announced length is unbounded, while the source's wraps for lengths near 2^64, which are then not refused (`Stream.LengthCheckIsExact`); after a failed pop the cursor is only known to be inside the buffer.
- Frames.Decode: `unpack` is taken to read exactly the announced number of bytes; the source does not bound it.
- Receive.Session.Recv: `readbuf` is a sequence of bytes; the size of the socket read is not bounded, and protocols are recorded instead of run.
- Receive.EventDeletes: whether `on_send` is called and whether `is_writeos_empty` holds are parameters of an event; `SessionOutput` models both.
- SessionOutput.SendEventIsSet: after the event is deleted nothing is claimed about the mask; wakeups of the reactor and epoll are not modelled, and whether a session is closing is read in one step.
- SessionOutput.NothingLostOrReordered: both buffers are values and the interleaving is of steps, not of methods on shared objects.
- ThreadPool.EveryTaskInOnePlace: one critical section of a queue lock is one step, and a `try_to_lock` may fail at any time; lost or spurious wakeups are not told apart; essential tasks are queued by workers only.
- ThreadPool.JoinedGroupIsDone: `threadpool::stop` over several groups, whose flag makes the pool refuse new tasks, and the lifetime of group objects are not modelled.
- Uri.ParseOfToString: negative ports, and texts that `to_string` changes by adding a slash, are outside the well-formed URIs; `atoi` beyond 32 bits is not modelled.
- RingBuffer.RingBuffer.Read: the overload that writes to a file stream is not modelled; its loop is the same.
- TokenBucket.WindowIsBounded: the lock is not modelled; calls are taken one at a time.
- The locked object pool, double buffers, the HTTP parser and client, TLS, MySQL, logging, monitoring, command line and configuration are not part of this model.
