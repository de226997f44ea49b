# Verified models of the game-loop timers and the network servers

Six C programs of the repository are modelled here: the ones that keep state under
concurrency, change arrays in place, or rely on counting arguments. For each of them there are
two layers.

* A **specification layer** of datatypes, functions and lemmas. The threaded programs become step
  systems: one program counter per thread, one step per call on the mutex, the semaphore or the
  shared data, and runs that are arbitrary sequences of enabled steps. The properties are proved
  for every reachable state and every run, for any number of workers, receivers or clients.
* A **program layer** of classes and methods on the real fields: linked nodes, arrays that grow
  and are shifted or swap-removed in place, loops with invariants. Each method is proved to do to
  its fields what the specification says, so that the theorems hold of the program.

| program | specification | program layer |
|---|---|---|
| linked FIFO, `networking/epoll_example/queue.c` | `LinkedQueue.dfy` (`Run`, `FifoOrder`) | `LinkedQueue.dfy` (`Queue`) |
| worker pool, `networking/epoll_example/server.c` | `WorkerPool.dfy` | `WorkerPoolProgram.dfy` |
| timers, `game_loops/simple_array_based_timer/main.c` | `TimerWheel.dfy`, `TimerRuns.dfy` | `TimerProgram.dfy` |
| channel chat, `networking/threaded_chat_server_with_channels/server.c` | `ChannelMessages.dfy`, `ChannelProtocol.dfy`, `ChannelRuns.dfy` | `ChannelRegistry.dfy`, `ChannelProgram.dfy` |
| epoll chat, `networking/epoll_chat_server/server.c` | `ClientTable.dfy`, `ChatSession.dfy`, `ChatInbox.dfy`, `ChatCalls.dfy` | `ClientArray.dfy`, `ChatBuffer.dfy`, `ChatProgram.dfy` |
| broadcast with controller, `networking/inte_server_broadcast_with_controller/server.c` | `BroadcastServer.dfy`, `BroadcastBuffer.dfy` | `BroadcastProgram.dfy` |

`GrowArray.dfy` is the growing array that three of the programs write out by hand, `Text.dfy` is
`atoi`, `%d` and C strings, `Posix.dfy` is `sem_post` as in POSIX.1-2017, System Interfaces,
section 3, and `Basics.dfy` holds sums and counting.

## What the code does not do

Some properties that one would expect are false of the code. For each there is the condition under
which it holds, and an input or a run for which it fails.

* A tick passes over due events: the last event moves into the slot of a fired one. It passes over
  exactly the slots before which as many events are due as there are slots left, and so it fires
  every due event exactly when none stands in such a slot (`SkippedSlots`, `AllDueFireIff`,
  `DueEventSkipped`). Lateness is still bounded (`BoundedLateness`, `FiresByDeadline`).
* The channel chat manager takes the newest event of the log, not the next one. It takes the next
  one exactly when no other token waits and no post was refused (`TakesNextIff`); a run of two
  messages handles the second twice and the first never (`EventPassedOver`).
* A message with a channel and no space makes the text pointer leave the message (`PastEndIff`), and
  its text is whatever lies there (`NoSpaceTakesAnything`).
* The receive buffer of the epoll chat is zeroed once for a whole call, so a short message can be
  read together with the tail of a longer one before it. A message is read as it was sent, up to a zero
  in it and trimmed, exactly when it has such a zero or all that is left behind it is white space and
  unprintable (`ShownIff`); after "hello", "x" is read as "xello" (`StaleTailShown`).
* The epoll chat reads the name of a missing client exactly when a message comes from a socket
  that was turned away when it was accepted, because the table was full (`CrashIff`,
  `OneClientTooMany`).
* A receive error leaves the client in the table. The clients keep different sockets exactly as long as
  no client joins on the descriptor of one that was left behind (`DistinctIff`). The end of a session
  destroys its client as often as its socket occurs in the table, and so twice exactly when another
  client was left behind on it (`CountIsOne`, `CrashIff`, `SocketReused`).
* The line that the epoll chat broadcasts fills its buffer, so the zero that `sprintf` writes behind
  it always goes one byte past the end (`LineFillsBuffer`).
* A controller command can be lost: exactly when it arrives after the sender's test for it and before
  the signal is cleared, or when another command arrives before the next message is made
  (`LosesCommandIff`, `CommandLost`).
* The sender of the broadcasts copies "exit" into its buffer without a terminating zero. It goes out
  alone exactly if the last number of four digits or more that was sent had four, or there was none and
  the buffer was clean (`TextIff`); after 10000 it goes out as "exit0" (`DirtyExit`).
* `sem_post` fails at the largest semaphore value and nobody looks. Workers still never park on a job
  and the pool still drains (`AwakeKept`, `PoolDrains`). Only the count of `NoLostWakeup` needs a term
  for it: the count alone holds throughout a run exactly if no post is refused while the queue is
  longer than the tokens and the woken workers account for (`BareCountIff`, `BareCountFails`).

## Model

| member | source | states |
|---|---|---|
| LinkedQueue.Queue.constructor | networking/epoll_example/queue.c:18-22 | a new queue is well formed and empty |
| LinkedQueue.Queue.Add | networking/epoll_example/queue.c:24-41 | appends the value and returns 0, or, when the node cannot be allocated, changes nothing and returns -1; the chain stays well formed: `next` and `prev` inverse, head and tail at the ends, both null when empty, size the length |
| LinkedQueue.Queue.Pop | networking/epoll_example/queue.c:43-59 | removes and returns the first value, or returns -1 on an empty queue; the chain stays well formed |
| LinkedQueue.FifoOrder | networking/epoll_example/queue.c:24-59 | for any calls in any order, the values taken followed by those left are the values at the start followed by those added |
| LinkedQueue.AddsThenPops | networking/epoll_example/queue.c:24-59 | n adds to an empty queue and n pops give the values back in order and leave it empty |
| LinkedQueue.Execute | networking/epoll_example/queue.c:18-59 | the linked nodes answer any run of calls exactly as the sequence does |
| WorkerPool.WorkerStepMutex | networking/epoll_example/server.c:71-84 | a worker's step keeps the mutex owned by exactly the thread between lock and unlock, and a worker about to pop always finds a job |
| WorkerPool.WorkerStepWakeup | networking/epoll_example/server.c:71-81 | a worker's step keeps every queued job matched by a token, a post to come or a woken worker |
| WorkerPool.WorkerStepCustody | networking/epoll_example/server.c:80-84 | a worker's step keeps every popped job either processed or in the hands of the worker that popped it |
| WorkerPool.AwakeKept | networking/epoll_example/server.c:71-81 | every step keeps: with jobs queued, no token and no post to come, some worker will test the queue before it parks, even after posts that failed |
| WorkerPool.StepInv | networking/epoll_example/server.c:71-86 | every step of any thread keeps the six invariants together |
| WorkerPool.MutualExclusion | networking/epoll_example/server.c:72-81 | in every reachable state at most one thread is between lock and unlock, and a worker that pops has a job to pop |
| WorkerPool.NoLostWakeup | networking/epoll_example/server.c:71-81 | queue length ≤ semaphore + post to come + workers woken and not yet past their test, in every reachable state for any number of workers; plus the posts refused while the queue was longer than tokens and woken workers account for, a term that is 0 exactly in the runs where the bound holds without it (`BareCountIff`) |
| WorkerPool.NoSleepOnJobs | networking/epoll_example/server.c:187-190 | in every reachable state with jobs queued, no token and no post to come, some worker will test the queue before it parks; one that was woken for it, unless posts have failed |
| WorkerPool.BareCountIff | networking/epoll_example/server.c:187-190 | the bound without that term holds in every state of a run exactly if no post of the run is refused while the queue is longer than the tokens and the woken workers account for |
| WorkerPool.AllCounted | networking/epoll_example/server.c:187-190 | one way, in terms of the queue alone: no such post occurs in a run whose queue never outgrows the largest semaphore value |
| WorkerPool.BareCountFails | networking/epoll_example/server.c:187-190 | a reachable state, for any number of workers, in which the bound without that term fails: one job more than a semaphore can count |
| WorkerPool.TokensConserved | networking/epoll_example/server.c:187-190 | over every run, the semaphore, the returns from `sem_wait`, the posts at its largest value and the post to come make up one token for every ready descriptor, also for one that could not be queued |
| WorkerPool.HandOverInOrder | networking/epoll_example/server.c:187-190 | over every interleaving, the popped descriptors followed by the queued ones are the accepted ones in order |
| WorkerPool.EachJobOnce | networking/epoll_example/server.c:80-84 | every accepted job is queued, or was popped by exactly one worker that still holds it or has processed it once; nothing else is processed |
| WorkerPool.WorkerStepFalls | networking/epoll_example/server.c:71-86 | 5·(queue + semaphore) plus the workers' ranks strictly falls on every worker step |
| WorkerPool.WorkersStop | networking/epoll_example/server.c:71-86 | while the producer is quiet no schedule of the workers is longer than that measure |
| WorkerPool.QuietMeansDrained | networking/epoll_example/server.c:71-77 | with the producer idle, no worker can step exactly when all wait in `sem_wait` on a zero semaphore; then the mutex is free and the queue is empty |
| WorkerPool.QuietMeansProcessed | networking/epoll_example/server.c:71-86 | in such a state every accepted job has been popped in order and processed exactly once |
| WorkerPool.PoolDrains | networking/epoll_example/server.c:65-87 | from any reachable state with a quiet producer every worker schedule is bounded, and where it cannot go on every accepted job has been processed exactly once |
| WorkerPoolProgram.Pool.constructor | networking/epoll_example/server.c:90-102 | the program starts in the initial state of the step system |
| WorkerPoolProgram.Pool.TakeJob | networking/epoll_example/server.c:80 | popping the linked queue into the worker's local variable is the pop of the step system |
| WorkerPoolProgram.Pool.WorkerLine | networking/epoll_example/server.c:71-86 | each line of the worker loop, on the real queue, mutex, semaphore and line numbers, is the worker's step |
| WorkerPoolProgram.Pool.EnqueueFd | networking/epoll_example/server.c:188 | queueing a ready descriptor is the producer's step, also when the allocation fails |
| WorkerPoolProgram.Pool.ProducerStep | networking/epoll_example/server.c:187-190 | lock, post and unlock are the producer's steps |
| WorkerPoolProgram.Pool.Serve | networking/epoll_example/server.c:164-193 | any schedule of the threads takes the program where it takes the step system |
| WorkerPoolProgram.RunServer | networking/epoll_example/server.c:89-193 | at the end of any run, the descriptors handed out followed by those in the linked queue are the accepted ones in order, and all invariants hold |
| TimerWheel.SubtractMs | game_loops/simple_array_based_timer/main.c:130-143 | the remaining milliseconds are reduced, not below 0, and the timer is left normalised: 0 ≤ nsec < 10^9, a multiple of 10^6 |
| TimerWheel.NormalTimer | game_loops/simple_array_based_timer/main.c:126-128 | a normalised timer is determined by its milliseconds, and passes the expiry test exactly at 0 ms |
| TimerWheel.TickPartition | game_loops/simple_array_based_timer/main.c:186-196 | a tick splits the events into fired, reduced and skipped, each event in exactly one; the array keeps the reduced (reduced once) and the skipped; skipped ≤ fired ≤ skipped + 1; only expired events fire |
| TimerWheel.TickFate | game_loops/simple_array_based_timer/main.c:186-196 | an event still armed after a tick either lost exactly the elapsed ms once, or is unchanged and the tick fired some event |
| TimerRuns.MsExact | game_loops/simple_array_based_timer/main.c:176-192 | a tick of ns nanoseconds takes off the whole milliseconds: ms·10^6 ≤ ns < (ms + 1)·10^6 |
| TimerRuns.ExactRemaining | game_loops/simple_array_based_timer/main.c:130-143 | after any run an armed event has left max(0, what it had − the ms of exactly the ticks that visited it) |
| TimerRuns.NoOverflow | game_loops/simple_array_based_timer/main.c:126-143 | over any run the timespec stays normalised, and its milliseconds fit 64 bits if those of the wait do |
| TimerRuns.NeverEarly | game_loops/simple_array_based_timer/main.c:186-192 | an event armed for w seconds fires only after ticks of together at least w·10^9 elapsed nanoseconds |
| TimerRuns.MissedTicks | game_loops/simple_array_based_timer/main.c:107-118 | while an event stays armed, the ticks are at most ceil(remaining / m) plus one for each firing of another event |
| TimerRuns.BoundedLateness | game_loops/simple_array_based_timer/main.c:186-196 | if each tick lasts at least m·10^6 nanoseconds, m ≥ 1, an event with wait w fires no later than tick ceil(1000·w/m) + 1 + the number of other events fired since |
| TimerRuns.FiresInTime | game_loops/simple_array_based_timer/main.c:186-196 | a run with more ticks than ceil(1000·w/m) and the firings since has fired the event |
| TimerRuns.FiresByDeadline | game_loops/simple_array_based_timer/main.c:186-196 | a deadline known beforehand: ceil(1000·w/m) + the events armed before or during the run + 1 ticks have fired the event |
| TimerRuns.NothingSkippedIff | game_loops/simple_array_based_timer/main.c:107-118 | a tick skips no event, due or not, exactly when no event but the last of the array is due |
| TimerRuns.SkippedSlots | game_loops/simple_array_based_timer/main.c:107-118 | a tick skips the last events of the array from the end backwards: exactly the slots before which as many events are due as there are slots left |
| TimerRuns.AllDueFireIff | game_loops/simple_array_based_timer/main.c:186-196 | every due event fires in a tick exactly when none of them stands in such a slot |
| TimerRuns.FiredSlots | game_loops/simple_array_based_timer/main.c:186-190 | a tick fires the due events of the slots that it does not skip, in their order |
| TimerRuns.SlotAfterTick | game_loops/simple_array_based_timer/main.c:186-196 | after a tick each slot holds the event it held, reduced, or, if that fired, the last event that was still behind it, unchanged |
| TimerRuns.DueEventSkipped | game_loops/simple_array_based_timer/main.c:186-196 | of two due events one tick fires only the first and skips the second |
| TimerRuns.RunInv | game_loops/simple_array_based_timer/main.c:82-118 | over any run the fired and the armed events together are exactly the added ones |
| TimerRuns.TickLightens | game_loops/simple_array_based_timer/main.c:186-196 | the sum of (remaining ms + 1) over the array strictly falls on every tick of at least 1 ms over a nonempty array |
| TimerRuns.WheelDrains | game_loops/simple_array_based_timer/main.c:165-203 | once additions stop, ticks of at least 10^6 nanoseconds empty the array within that sum |
| TimerRuns.AllFireOnce | game_loops/simple_array_based_timer/main.c:154-203 | after any additions and ticks, and then enough ticks, every added event has fired exactly once |
| TimerRuns.AddedByRun | game_loops/simple_array_based_timer/main.c:82-105 | the added events are the additions of the run in order, with their waits |
| TimerProgram.Event.constructor | game_loops/simple_array_based_timer/main.c:15-36 | a new event has its whole wait left |
| TimerProgram.Event.TimerMs | game_loops/simple_array_based_timer/main.c:126-128 | the milliseconds of the timespec fields, with C's division |
| TimerProgram.Event.Subtract | game_loops/simple_array_based_timer/main.c:130-143 | the timespec fields become those of the saturating subtraction |
| TimerProgram.Timers.Add | game_loops/simple_array_based_timer/main.c:82-105 | appends a freshly armed event, on a buffer that doubles when full |
| TimerProgram.Timers.Fire | game_loops/simple_array_based_timer/main.c:187-190 | logs the due event and takes it out, with the last event in its slot |
| TimerProgram.Timers.Reduce | game_loops/simple_array_based_timer/main.c:191-195 | reduces exactly the event in the slot |
| TimerProgram.Timers.Tick | game_loops/simple_array_based_timer/main.c:186-196 | the in-place loop that removes while iterating leaves the array, and fires the events in the order, that the recursive sweep gives |
| TimerProgram.ArmAll | game_loops/simple_array_based_timer/main.c:156-158 | arming the events of `main` is the run of additions |
| TimerProgram.TickAll | game_loops/simple_array_based_timer/main.c:165-203 | the loop of `main` is the run of ticks, and logs exactly its callbacks |
| TimerProgram.RunTimers | game_loops/simple_array_based_timer/main.c:145-203 | after as many ticks of at least 10^6 nanoseconds as the sum of 1000·w + 1 over the waits, the array is empty and the callbacks that ran are exactly the armed events |
| GrowArrays.SwapRemovedKeeps | game_loops/simple_array_based_timer/main.c:107-118 | a swap-removal takes out exactly the element at the index |
| GrowArrays.SwapRemovedAt | game_loops/simple_array_based_timer/main.c:113-115 | every other element keeps its place, but the last one, which takes the place of the removed one |
| GrowArrays.GrowArray.Push | networking/threaded_chat_server_with_channels/server.c:180-195 | appends the element and keeps the others; the capacity doubles exactly when the buffer was full |
| GrowArrays.GrowArray.SwapRemove | game_loops/simple_array_based_timer/main.c:107-118 | -1 and no change out of bounds; otherwise the element goes and the last one takes its place |
| Text.AtoiReads | networking/threaded_chat_server_with_channels/server.c:100 | what `atoi` answers for every string: behind white space and a sign or none, the number that the digits stand for, whatever follows them; 0 if there are none |
| Text.AtoiOfDecimal | networking/threaded_chat_server_with_channels/server.c:100 | `atoi` reads back every number printed in decimal, negative ones included |
| Text.DecimalShape | networking/threaded_chat_server_with_channels/server.c:411 | a printed number has a minus sign if it is negative, and decimal digits without leading zeros |
| ChannelMessages.ParseRoundTrip | networking/threaded_chat_server_with_channels/server.c:90-109 | a nonzero channel, a space and any text, spaces included, parse to exactly that channel and text |
| ChannelMessages.ReceiveRoundTrip | networking/threaded_chat_server_with_channels/server.c:125-143 | the same through a received buffer and into the log, whatever lies behind the message |
| ChannelMessages.ParsedIff | networking/threaded_chat_server_with_channels/server.c:90-109 | a message parses to a channel and a text exactly when it is a prefix without spaces that `atoi` reads as that nonzero channel, a space, and the text |
| ChannelMessages.ParseReads | networking/threaded_chat_server_with_channels/server.c:90-109 | what every message stands for, part by part: the number at its start is the channel, the text is what follows the first space, and with number 0 or none the message is refused |
| ChannelMessages.NoNumberRefused | networking/threaded_chat_server_with_channels/server.c:100-104 | a message that does not begin with a number is refused, with a sign or without |
| ChannelMessages.WordRefused | networking/threaded_chat_server_with_channels/server.c:100-104 | "hello world" is refused |
| ChannelMessages.PlusRead | networking/threaded_chat_server_with_channels/server.c:96-107 | "+7 x" names channel 7 with text "x" |
| ChannelMessages.LettersIgnored | networking/threaded_chat_server_with_channels/server.c:96-107 | "7abc x" names channel 7 with text "x" |
| ChannelMessages.PastEndIff | networking/threaded_chat_server_with_channels/server.c:96-107 | the text pointer leaves the message exactly when it has a channel and no space |
| ChannelMessages.NoSpaceTakesAnything | networking/threaded_chat_server_with_channels/server.c:96-107 | the message "7" is logged for channel 7 with whatever lies behind it as the text |
| ChannelMessages.ParseMessage | networking/threaded_chat_server_with_channels/server.c:90-109 | the copying loop and `atoi` on the zeroed buffer compute the parse |
| ChannelRegistry.TargetsExact | networking/threaded_chat_server_with_channels/server.c:412-436 | the fan-out goes once each, in table order, to precisely the connections on other sockets that hold the channel, however often they registered |
| ChannelRegistry.Conns.Add | networking/threaded_chat_server_with_channels/server.c:254-275 | appends a new connection with an empty channel list of its own |
| ChannelRegistry.Conns.Remove | networking/threaded_chat_server_with_channels/server.c:277-284 | takes out the first connection on the socket, whose place the last one takes, or none |
| ChannelRegistry.WithoutAt | networking/threaded_chat_server_with_channels/server.c:277-284 | the connection on the socket goes, the last one takes its place, and all others keep theirs |
| ChannelRegistry.Conns.SendIfListening | networking/threaded_chat_server_with_channels/server.c:415-433 | the inner loop sends once if the channel is in the list, otherwise not |
| ChannelRegistry.Conns.FanOut | networking/threaded_chat_server_with_channels/server.c:411-437 | the nested loops send the labelled text to exactly the targets, in order |
| ChannelRegistry.QueueAdd | networking/threaded_chat_server_with_channels/server.c:111-145 | -1 and an unchanged log for a message without a channel; otherwise the parsed event is appended |
| ChannelRegistry.QueuePeek | networking/threaded_chat_server_with_channels/server.c:147-153 | the newest event, if there is one |
| ChannelProtocol.DropExact | networking/threaded_chat_server_with_channels/server.c:277-284 | dropping an open connection takes exactly that one out of the table, and sockets stay distinct |
| ChannelProtocol.StepInv | networking/threaded_chat_server_with_channels/server.c:355-438 | every step of any receiver or the manager keeps the mutex, counting, peeking, freshness, table, registration and sending invariants |
| ChannelProtocol.NeverPeeksEmpty | networking/threaded_chat_server_with_channels/server.c:395-401 | semaphore + completed waits = posts ≤ log size in every reachable state, so the event that is peeked and handled always exists |
| ChannelProtocol.PeeksMoveForward | networking/threaded_chat_server_with_channels/server.c:147-153 | the positions peeked never decrease, and the k-th is at least k − 1 |
| ChannelProtocol.LastHandledIsNewest | networking/threaded_chat_server_with_channels/server.c:395-399 | with semaphore 0, no post to come and the manager outside its wait-to-peek window, the event peeked last, and handled last once it waits, is the newest |
| ChannelProtocol.FanOutExact | networking/threaded_chat_server_with_channels/server.c:412-436 | an event is sent exactly to the clients in the table on other sockets that registered its channel, once each |
| ChannelProtocol.HandledEventReaches | networking/threaded_chat_server_with_channels/server.c:404-437 | in every reachable state: an event whose text begins with "$reg" adds its channel to its sender's list and sends nothing; any other event changes no list and is sent exactly to the clients in the table on other sockets that have its channel, once each |
| ChannelProtocol.ListsAndMessages | networking/threaded_chat_server_with_channels/server.c:404-437 | over every run each channel list is that client's handled registrations, repeats included, and every message went to a registered client on another socket, for a handled event |
| ChannelProtocol.TakesNextIff | networking/threaded_chat_server_with_channels/server.c:147-153 | the manager's next peek takes the next event exactly when no further token waits and no post was refused; otherwise it passes over as many as there are |
| ChannelProtocol.EventPassedOver | networking/threaded_chat_server_with_channels/server.c:395-399 | a reachable state where of two messages the second was handled twice and the first never |
| ChannelRuns.RefusedDropsSender | networking/threaded_chat_server_with_channels/server.c:362-366 | in every reachable state, logging a message that begins with no number, or with 0, takes exactly its sender out of the table, and logs and posts nothing |
| ChannelRuns.NumberedIsLogged | networking/threaded_chat_server_with_channels/server.c:362-369 | logging any other message with a space appends the number, the text behind the space and the sender to the log, and keeps the connection |
| ChannelRuns.RegisteredHears | networking/threaded_chat_server_with_channels/server.c:404-437 | a run: one client sends "7 $reg", another "7 hello"; the first has channel 7 and is sent the second message |
| ChannelRuns.RegisteredIsSent | networking/threaded_chat_server_with_channels/server.c:411-426 | what the program has then sent: "[6] hello" on socket 5 |
| ChannelRuns.LabelReadsBack | networking/threaded_chat_server_with_channels/server.c:411 | the sender's socket and the text can be read back from what is sent |
| ChannelProgram.DropMatches | networking/threaded_chat_server_with_channels/server.c:363-366 | removing a connection from the array is dropping the client from the table |
| ChannelProgram.FanOutMatches | networking/threaded_chat_server_with_channels/server.c:411-437 | the deliveries that the loops make are the step system's sends, with the receiver's socket and the labelled text |
| ChannelProgram.RegistrationMatches | networking/threaded_chat_server_with_channels/server.c:404-410 | pushing the channel on the event's connection is the step system's registration of its client |
| ChannelProgram.Server.constructor | networking/threaded_chat_server_with_channels/server.c:292-316 | the program starts with an empty log and table and a free mutex |
| ChannelProgram.Server.AcceptClient | networking/threaded_chat_server_with_channels/server.c:503-520 | a new connection in the table and a new receiver on it, with a channel list that no other shares |
| ChannelProgram.Server.HandleEvent | networking/threaded_chat_server_with_channels/server.c:404-437 | what the manager does with its event, on the arrays, is the step system's handling of it |
| ChannelProgram.Server.ReceiverLine | networking/threaded_chat_server_with_channels/server.c:361-369 | each line of a receiver, on the arrays, is its step |
| ChannelProgram.Server.ManagerLine | networking/threaded_chat_server_with_channels/server.c:396-437 | each line of the manager, on the arrays, is its step |
| ChannelProgram.Server.Serve | networking/threaded_chat_server_with_channels/server.c:352-439 | any schedule of the threads takes the program where it takes the step system |
| ChannelProgram.ReachedValue | networking/threaded_chat_server_with_channels/server.c:404-437 | in what the program's variables hold at any reachable state, every channel list is the client's handled registrations |
| ChannelProgram.RunServer | networking/threaded_chat_server_with_channels/server.c:441-521 | after any schedule the program's variables stand for the state that the step system reaches |
| ClientTable.RefusedIff | networking/epoll_chat_server/server.c:94-98 | the capacity never exceeds 1,638,400, and an add is refused exactly when the length equals it |
| ClientTable.AddedKeeps | networking/epoll_chat_server/server.c:94-122 | an add keeps the capacity a doubling of 100 and the length within it |
| ClientTable.GrowthBounds | networking/epoll_chat_server/server.c:94-156 | whatever removals are interleaved, the capacity is 100·2^k ≤ 1,638,400 and all reallocations copy fewer than twice as many slots as clients were added |
| ClientTable.FindIsLookup | networking/epoll_chat_server/server.c:124-132 | searching the table agrees with looking the socket up in the map |
| ClientTable.WithoutMembers | networking/epoll_chat_server/server.c:134-156 | a disconnect removes exactly the client on the socket |
| ClientTable.CountIsOne | networking/epoll_chat_server/server.c:141-146 | a socket occurs once in the table exactly if its client shares it with no other |
| ClientTable.WithoutIsRemoval | networking/epoll_chat_server/server.c:134-156 | a disconnect is removal from the map |
| ClientTable.WithoutOrdered | networking/epoll_chat_server/server.c:141-155 | a disconnect keeps the order of the remaining clients |
| ClientTable.AddIsInsertion | networking/epoll_chat_server/server.c:115-121 | an add is insertion into the map |
| ClientTable.RenameIsUpdate | networking/epoll_chat_server/server.c:56-64 | naming a client updates the map at its socket |
| ClientTable.TableRefinesMap | networking/epoll_chat_server/server.c:94-156 | after any sequence of operations the table stands for the map after them, in order of connection |
| ClientTable.Clip | networking/epoll_chat_server/server.c:62 | the first 100 characters of a name |
| ClientArray.Client.UpdateName | networking/epoll_chat_server/server.c:56-64 | a nonempty name stays unless overwriting is asked for; otherwise the name becomes the text cut at 100 |
| ClientArray.Clients.constructor | networking/epoll_chat_server/server.c:66-84 | an empty table of capacity 100 |
| ClientArray.Clients.Add | networking/epoll_chat_server/server.c:94-122 | appends a new client, doubling the array when it is full, or refuses with -1 exactly at the largest capacity and changes nothing |
| ClientArray.Clients.GetBySocket | networking/epoll_chat_server/server.c:124-132 | the first client on the socket, or null |
| ClientArray.Clients.ShiftDown | networking/epoll_chat_server/server.c:141-151 | the scan destroys the client as often as its socket occurs, and moves exactly the clients behind the first found one down by one |
| ClientArray.Clients.Disconnect | networking/epoll_chat_server/server.c:134-156 | exactly the client's slot goes from the list and the capacity stays, and the client is destroyed as often as its socket occurs; nothing changes if it is not there |
| ChatBuffer.ShownIff | networking/epoll_chat_server/server.c:219-226 | the message read is the data sent, up to a zero in it and trimmed, exactly when there is such a zero or nothing but junk is left of older messages behind the data |
| ChatBuffer.DataAloneIff | networking/epoll_chat_server/server.c:221-224 | before trimming, the buffer holds the data alone exactly when the byte behind it is zero, and otherwise the data and the old tail |
| ChatBuffer.StaleTailShown | networking/epoll_chat_server/server.c:219-226 | "hello" and then "x" in one call are read as "hello" and "xello" |
| ChatBuffer.FirstShown | networking/epoll_chat_server/server.c:221-226 | the first message of a call is read as it was sent, up to a zero in it, trimmed |
| ChatBuffer.JunkIff | networking/epoll_chat_server/server.c:177-179 | what is taken off the end is everything but the characters 33 to 126 |
| ChatBuffer.TrimmedShows | networking/epoll_chat_server/server.c:174-184 | cutting the buffer leaves the trimmed text in it |
| ChatBuffer.TrimInPlace | networking/epoll_chat_server/server.c:174-184 | the backward scan writes one terminator, behind the last character that is neither white space nor unprintable, and never removes the first character |
| ChatSession.OrderKept | networking/epoll_chat_server/server.c:218-260 | every step keeps the clients in order of connection and the growth invariant |
| ChatSession.SocketKept | networking/epoll_chat_server/server.c:218-260 | every step keeps: without receive errors the table has one client per socket, only open ones, and none is destroyed twice; without refusals, and with any receive errors, every open socket is in the table and no missing client has been read |
| ChatSession.NameOnce | networking/epoll_chat_server/server.c:56-64 | over any run a connected client keeps its socket, and its name once it is nonempty |
| ChatSession.NamesAreFirstWords | networking/epoll_chat_server/server.c:230-243 | over any run a client's name is its first nonempty message, cut at 100, and every message is handled under the name that the messages before it gave |
| ChatSession.MessagesOfRun | networking/epoll_chat_server/server.c:202-216 | over any run every broadcast carries the name and text of a message of a named client and goes to another client; a naming message is never sent |
| ChatSession.SaidToAllOthers | networking/epoll_chat_server/server.c:186-200 | in every state, after receive errors too, a broadcast goes once each to every client in the table on another socket; without receive errors those are all the others |
| ChatSession.OthersInOrder | networking/epoll_chat_server/server.c:192-199 | the clients that a broadcast goes to stand in the order of the table |
| ChatSession.LineReadsBack | networking/epoll_chat_server/server.c:190 | the receiver can read the line back: the name, if it has no closing bracket, up to the first one, and the text between the blank behind it and the final newline |
| ChatSession.LineFillsBuffer | networking/epoll_chat_server/server.c:187-190 | the bytes sent are exactly the line, and with its terminating zero it is one byte longer than its buffer |
| ChatSession.EntriesExact | networking/epoll_chat_server/server.c:94-98 | over any run the clients on an open socket are those left behind on it at its last accept, and the accepted one unless the table was full |
| ChatSession.MissingIff | networking/epoll_chat_server/server.c:94-98 | over any run, receive errors included, an open socket is missing from the table exactly when the table was full, and held no client on it, when it was last accepted |
| ChatSession.CrashIff | networking/epoll_chat_server/server.c:230-250 | after any run, a message makes the server read a missing client exactly when its socket was turned away at its last accept, and the end of a session destroys a client twice exactly when another was left behind on the socket; no other step does either |
| ChatSession.FaultsNeedLoss | networking/epoll_chat_server/server.c:218-260 | over any run without refusals no missing client is read and every open socket is in the table; over any run without receive errors no client is destroyed twice and only open sockets are in the table |
| ChatSession.OneClientTooMany | networking/epoll_chat_server/server.c:94-98 | a run without receive errors in which a missing client is read: the table fills to its largest capacity, one more client connects and speaks |
| ChatSession.ErrorLeavesStaleClient | networking/epoll_chat_server/server.c:251-257 | in any state, after a receive error the socket can be handed out again, and then two clients in the table share it |
| ChatSession.DistinctIff | networking/epoll_chat_server/server.c:251-257 | the clients of the table have different sockets in every state of a run exactly if none joins on a socket on which one was left behind |
| ChatSession.SocketReused | networking/epoll_chat_server/server.c:251-257 | the run accept, receive error, accept on one descriptor: two clients share it, and the end of the session destroys one twice |
| ChatSession.SessionOnMap | networking/epoll_chat_server/server.c:224-250 | as long as no receive error happened, each step is the stated change of the map from sockets to names and nothing else |
| ChatInbox.InboxExact | networking/epoll_chat_server/server.c:186-200 | over any run each connected client has been sent, once and in order, exactly the messages said on other sockets since it joined, each under its sender's name |
| ChatProgram.StepsRunnable | networking/epoll_chat_server/server.c:218-260 | a call of the request loop on an open socket is a run of the session machine |
| ChatProgram.Server.AcceptClient | networking/epoll_chat_server/server.c:338 | an accepted connection is the session's accept, also when the table refuses it |
| ChatProgram.Server.BroadcastMessage | networking/epoll_chat_server/server.c:186-200 | one send of the formatted line to each client on another socket, in table order |
| ChatProgram.Server.ProcessMessage | networking/epoll_chat_server/server.c:202-216 | a named client's message ends its session exactly if it starts with "exit", and is broadcast otherwise |
| ChatProgram.Server.OnText | networking/epoll_chat_server/server.c:230-243 | the branches on the client and its name are the session's step |
| ChatProgram.Server.Receive | networking/epoll_chat_server/server.c:224-226 | the array after receiving and trimming, and the text then in it, stale tails included |
| ChatProgram.Server.OnEof | networking/epoll_chat_server/server.c:244-250 | the end of a connection takes its client out, if it is there |
| ChatProgram.Server.HandleRequest | networking/epoll_chat_server/server.c:218-260 | the receive loop over the reused buffer takes exactly the session steps that the received bytes stand for |
| ChatCalls.EachReceiveDone | networking/epoll_chat_server/server.c:223-258 | each step of a call is what the receive at its place means: for data one message, with the text the buffer then shows, in order |
| ChatCalls.GoesOnUnlessFinal | networking/epoll_chat_server/server.c:223-258 | the call goes on behind a step exactly if that was a message, more is received, somebody in the table is on the socket, and it was no "exit" of a client with a name |
| ChatCalls.EveryMessageHandled | networking/epoll_chat_server/server.c:223-243 | a call that first receives data k times handles k messages, if none of them ends it |
| ChatCalls.BobSaysHello | networking/epoll_chat_server/server.c:186-243 | a run: in one call a client sends its name and a text, and the other client is sent "[bob] hello" |
| ChatProgram.AllStepsRunnable | networking/epoll_chat_server/server.c:316-343 | whatever is reported and received, what the server does is a run of the session machine |
| ChatProgram.Server.Serve | networking/epoll_chat_server/server.c:316-343 | accepts and requests in any order take the program where they take the session machine |
| ChatProgram.RunServer | networking/epoll_chat_server/server.c:262-343 | at the end of any run of the program the clients go by their first words, and each connected client has been sent exactly the messages said on other sockets since it joined |
| BroadcastServer.SuffixKept | networking/inte_server_broadcast_with_controller/server.c:42-49 | every step keeps each client's log the broadcasts since it joined, but for the one going out |
| BroadcastServer.StepInv | networking/inte_server_broadcast_with_controller/server.c:30-111 | every step of the three threads keeps the mutex, suffix, numbering and command invariants |
| BroadcastServer.LogsAreSuffixes | networking/inte_server_broadcast_with_controller/server.c:42-49 | in every reachable state a client's log is exactly the broadcasts since it joined; while one is going out, those not reached yet lack just that one; at most 5 clients |
| BroadcastServer.FirstFiveTakenOn | networking/inte_server_broadcast_with_controller/server.c:59-73 | over every run the clients of the list, with the one on its way there, are the first five that connected, with their descriptors and in that order |
| BroadcastServer.NumbersConsecutive | networking/inte_server_broadcast_with_controller/server.c:32-39 | after a number, past any exit messages, comes the next one, or 0 after 2^64 − 1 or if a restart was taken |
| BroadcastServer.FirstNumberIsZero | networking/inte_server_broadcast_with_controller/server.c:28-39 | the first number ever sent is 0, whatever exit messages came before |
| BroadcastServer.CommandsAccountedFor | networking/inte_server_broadcast_with_controller/server.c:101-107 | every accepted command is exactly one of taken, lost and waiting; exits and restarts are as many as commands taken, never more than accepted |
| BroadcastServer.LosesCommandIff | networking/inte_server_broadcast_with_controller/server.c:32-40 | over every run after a command arrives: it is lost exactly if the sender had passed its test for it and not yet cleared the signal, or another command arrives before the next message is made; otherwise it is taken and the next message made is its answer |
| BroadcastServer.CommandLost | networking/inte_server_broadcast_with_controller/server.c:32-40 | a reachable state where the only command was cleared unanswered |
| BroadcastBuffer.TextIff | networking/inte_server_broadcast_with_controller/server.c:31-45 | a number goes out as its decimal digits; "exit" goes out with the digits from the fifth on of the last number of four digits or more, or what the buffer held at the start, and alone exactly when that is empty |
| BroadcastBuffer.DirtyExit | networking/inte_server_broadcast_with_controller/server.c:31-45 | a run in which an exit command after 10000 makes "exit0" go out |
| BroadcastProgram.Server.constructor | networking/inte_server_broadcast_with_controller/server.c:185-191 | the program starts in the initial state of the step system |
| BroadcastProgram.Server.TestSignal | networking/inte_server_broadcast_with_controller/server.c:32-39 | each test of the shared integer, the writing over the start of the buffer, with a terminating zero for numbers only, and the counter are the sender's step |
| BroadcastProgram.Server.SenderThread | networking/inte_server_broadcast_with_controller/server.c:30-51 | each line of the sender, on the signal, the counter and the descriptors, is its step |
| BroadcastProgram.Server.ConnectClient | networking/inte_server_broadcast_with_controller/server.c:59-73 | a connection is taken on or refused by the unlocked test of the count |
| BroadcastProgram.Server.AcceptorThread | networking/inte_server_broadcast_with_controller/server.c:66-71 | adding the descriptor under the mutex is the acceptor's steps |
| BroadcastProgram.CommandOfText | networking/inte_server_broadcast_with_controller/server.c:101-107 | the bytes are an exit command exactly if they begin with "exit", and a reset command exactly if they begin with "reset" |
| BroadcastProgram.Server.ControllerThread | networking/inte_server_broadcast_with_controller/server.c:94-107 | the received bytes set the signal that the step system's command sets |
| BroadcastProgram.Server.Serve | networking/inte_server_broadcast_with_controller/server.c:184-240 | any schedule of the threads takes the program where it takes the step system |
| BroadcastProgram.RunServer | networking/inte_server_broadcast_with_controller/server.c:22-112 | after any schedule, whatever the buffer held at the start, while no broadcast is going out, each descriptor has been sent the texts, as `TextIff` gives them, of exactly the broadcasts since its client joined |

## Left out

- ChatProgram.Server.BroadcastMessage: what the byte written past the line buffer overwrites; that it is written is `ChatSession.LineFillsBuffer`.
- LinkedQueue.Queue.Pop: freeing the node; memory is garbage-collected in the model.
- TimerRuns.Op: the clock, the float in which the elapsed time is kept, `rand` and `__rdtsc`; a tick has any number of elapsed nanoseconds, of which whole milliseconds are subtracted.
- TimerProgram.Timers.Fire: callbacks that themselves add or remove events; the only callback in the source prints.
- GrowArrays.GrowArray: a start capacity of 0, which the source never uses, and allocation failure of the arrays, their buffers and their elements.
- Text.Atoi: values outside `int`, for which the C standard defines no result; the model gives the mathematical value.
- ChannelMessages.Receive: what lies behind a message without a space is an arbitrary input `beyond`.
- ChannelRegistry.Conns.Remove: the unlocked calls on the receive-error and hang-up paths, the unlocked registrations and the unlocked reads of the fan-out; each change of the table and each fan-out is one atomic step.
- ChannelProtocol.Apply: closing a socket and taking its connection out of the table is one step, and a descriptor is handed out again only after it.
- ChannelProgram.Server.AcceptClient: the fixed array of 24 receivers, which the source indexes without a bound.
- ClientArray.Clients.Disconnect: the source goes on reading the client it has just freed and the slot behind the last; the model compares with a saved socket and stops at the last live slot, and counts the destroys. A run ends where a missing client is read or a client is destroyed twice.
- BroadcastProgram.Server.TestSignal: the sender's buffer is a local of the loop body, whose bytes the C standard leaves open in each round; the model takes it to keep them from one round to the next, and reads no further than its end.
- BroadcastServer.AcceptorStep: the test of the connection count before the lock is one step with the accept; only that thread changes the count.
- ChatProgram.Server.AcceptClient: a failed `epoll_ctl`, and the batching of events by `epoll_wait`.
- Sockets, `epoll`, `accept`, `recv` and `fcntl`: arrivals and received bytes are inputs of the steps; sends are appended to a log and always succeed.
- `sem_wait` interrupted by a signal, and mutex calls that fail.
- Thread creation, `pthread_join`, shutdown paths and printing.
- `q_idx` of the channel chat's manager, which is never used.
- The Go programs, the clients, `address_resolution`, `inet_server_broadcast`, `client_client_over_server` and `c_server_go_client_tcp`, which are plumbing around sockets or smaller copies of the programs above.
