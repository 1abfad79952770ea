# Getd and nanomsg 1.1.5, verified

A Dafny model of a small file daemon (getd) and of the parts of the nanomsg 1.1.5 library it runs
on, with proofs of what they keep over whole runs. `dafny verify dfyconfig.toml` checks it.

What the C code does in place is, with the exceptions listed at the end, a class here. A socket, a
timer and a pipe are objects that embed list items and event structures and link them into the
lists and queues of modules List and Queue, as the hash table and the timer set do with what they
are given; references and chunks are byte arrays on one heap; the daemon works on character
arrays, a stream, a receive buffer and a reply buffer. Each method is tied to a function on
values, which sees sequences where the object has links, membership where it has marks, and
strings where it has arrays. Runs are proved over those functions, and what a function means is
stated beside it without naming it: which endpoint a call stops, when a timeout is due, where a
property lies, what earns which reply, how a line is spelled. In the socket, the timer and the
pipe a failed `nn_assert` or `nn_fsm_bad_*` call is recorded in a field `aborted`, so that its
absence is a theorem; in the containers and in message memory, what the C code asserts of its
callers is a precondition.

| files | subject |
|---|---|
| SocketCore, CoreInvariant, Lifetime, EndpointRuns, Teardown, Socket, SocketLife | the life of one socket under any interleaving of calls, closes, workers and transports |
| Descriptors | the table of open sockets and the stack of unused descriptors |
| Wire, Chunk, ChunkRef, MsgStore, MsgData, MsgParts, MsgHeap | message memory down to the bytes, conservation of reference counts and of what references stand for, what the calls on whole messages do, and the one on top of the other |
| List, Queue | intrusive linked structures on the heap |
| HashKey, Hash, HashTable | the doubling hash table and its hash function |
| TimerSet, Timer, TimerObject | ordered timeouts, and a timer against its worker |
| Pipe, PipeObject | the hand-over between protocol and transport |
| Cmsg, Layout, Message, Iovec | ancillary data, the walk over properties laid end to end, scatter and gather, and the forwarding device |
| Getd, Dialogue, Incoming, Daemon | the transfer protocol, when it answers what, what is received into the buffer, and the daemon's arrays, stream and handlers |
| Nanocat, Options, Spelling | output encodings, command-line parsing, and how uses of options are spelled |
| Util | option and result types, sequences without repeats, the pigeonhole principle |

Assumptions. One step of a run is one locked section. An nn_bind or nn_connect adds at most one
endpoint, an nn_shutdown removes the one it names, other calls do neither. A transport reports
stopped once, and only after being asked; the scalability protocol likewise; a pipe raises an
event only until the transport of its endpoint has reported, and only while the event is not
queued; the owner of a timer starts it only when it is idle; a transport reports one completion
for each message it did not finish inside the call. Sizes are those of a little-endian machine
with 64-bit pointers and size_t.

Where the code does not meet what it is for, an input is given and the exact condition proved:

- nn_sock_add_ep (nanomsg-1.1.5/src/core/sock.c:495-525) does not look at the socket's state. A
  bind that races with a close can fail the assertion of nn_sock_shutdown
  (`Lifetime.LateEndpointAborts`) or leave its endpoint behind (`Lifetime.LateEndpointHappens`);
  exactly when is `Lifetime.FailsIffLate`, and for one drained queue `CoreInvariant.DrainKeeps`;
  without such a bind neither happens: `EndpointRuns.OnlyRacingBindsFail`.
  Once such an endpoint is there the close completes without a failed check exactly if an
  nn_shutdown that names it is already inside and comes to it in time: `Teardown.CloseCanFinish`;
  after two binds and a close nothing completes it: `Teardown.TwoBindsNeverClose`.
- The walk over ancillary data does not end for a property of length 0, or of a length so large
  that rounding it up wraps (`Cmsg.StaysPut`, `Cmsg.WalkStalls`); exactly when it ends is
  `Cmsg.WalkEndsIff`. Over properties laid end to end it meets each, `Layout.WalkMeetsAll`, but for
  a last one that lacks its padding, `Layout.UnpaddedIsMissed`.
- nn_sendmsg reads past the control buffer for an SP_HDR property of a length below 16
  (`Message.ExtractOverruns`); exactly when is `Message.ExtractOverrunsIff`.
- type0Ver (requestVerify.c:13-28) lets a user name through that has no null in its 33 bytes, and
  strcpy (requestHandlers.c:46) then runs past the state (`Getd.NameCanOverrun`); exactly when is
  `Getd.FitsIff`, and over runs `Getd.OverrunsIff`.
- main receives into 4000 bytes (main.c:43 and 63) and type 3 requests are 4244 bytes long: of a
  path, the bytes from the 3856th on are not received, and type3Ver and fopen read whatever lies
  after the buffer (`Getd.PathCanReach`). Exactly when is `Getd.OutsideIff`, for an accepted
  request `Getd.ReachesIff`; exactly when it decides the verdict is `Incoming.BeyondDecidesIff`.
- The 32-bit count of a chunk wraps when more holders are added than it can tell:
  `MsgStore.ConservedIffRoom`. The wait of the worker is truncated to an int:
  `TimerSet.WaitIsExact`.

Where code and comments disagree the code is followed: "--" is commented as the end of options
(nanomsg-1.1.5/tools/options.c:709) but the loop goes on after it.

## Model

| member | source | states |
|---|---|---|
| Lifetime.NoAbort | nanomsg-1.1.5/src/core/sock.c:842-925 | in any run of any number of calls, closes, transports and workers on one socket, an assertion or a nn_fsm_bad_* call of the lifetime code fails only if some step came too late |
| Lifetime.HoldsCountCalls | nanomsg-1.1.5/src/core/global.c:1124-1157 | in every run whatever: holds is the number of calls inside plus one until the close begins, plus two during its first piece, and the number of calls inside after it; relesem is posted at most once, exactly when the close has begun and the last call has left |
| Lifetime.OneCloseSucceeds | nanomsg-1.1.5/src/core/global.c:504-553 | in every run whatever: of any number of nn_close calls on an open descriptor at most one gets past its first locked piece, and the socket stays holdable exactly while none has |
| Lifetime.FreedIsUntouched | nanomsg-1.1.5/src/core/global.c:536-549 | in every run whatever, short of a failed check: the socket is freed only with no call inside, no endpoint left and the slot cleared; afterwards no enabled step reads or writes the socket |
| Lifetime.EndpointsAccounted | nanomsg-1.1.5/src/core/sock.c:842-925 | in every run in which no step comes too late: every endpoint ever created is on exactly one of eps and sdeps or was terminated exactly once; STOPPING and FINI have both lists empty; termsem is posted exactly once, on reaching FINI |
| Lifetime.FailsIffLate | nanomsg-1.1.5/src/core/sock.c:495-525 | exactly when the lifetime code fails: over every valid run from every state it can be in, a check has failed or an endpoint is left behind after the shutdown has passed them, if and only if some step came too late, that is created an endpoint in STOPPING or FINI, or let the last stopping endpoint be freed while another was active |
| Lifetime.LateFalls | nanomsg-1.1.5/src/core/sock.c:892-898 | a step too late is fatal at once |
| Lifetime.FallenForGood | nanomsg-1.1.5/src/core/sock.c:892-925 | what has failed or been left behind stays so in every continuation |
| Lifetime.LateEndpointIsFatal | nanomsg-1.1.5/src/core/sock.c:189-248 | a socket with an endpoint left behind is never torn down without a failed check, in any continuation |
| Lifetime.LateNeverReaps | nanomsg-1.1.5/src/core/sock.c:189-248 | nor is it in any run that has a late step |
| Lifetime.GateStepKeeps | nanomsg-1.1.5/src/core/sock.c:1104-1125 | every step whatever keeps the account of holds and closes, whatever has become of the endpoints |
| Lifetime.LateEndpointHappens | nanomsg-1.1.5/src/core/sock.c:495-525 | a run that leaves an endpoint behind: a bind inside its hold while another thread closes the descriptor |
| Lifetime.LateEndpointAborts | nanomsg-1.1.5/src/core/sock.c:892-898 | a run in which the assertion of nn_sock_shutdown fails: of two binds the second races with the close; it reaches the state in which the last stopping endpoint has been reported and another is active, and one event later the assertion has failed |
| Lifetime.StepKeeps | nanomsg-1.1.5/src/core/sock.c:1104-1125 | every locked piece of every call, worker or transport that does not come too late keeps the invariant of the core and of the hold count |
| Lifetime.HoldKeeps | nanomsg-1.1.5/src/core/sock.c:1104-1117 | taking a hold keeps the account of holds, whether the socket is still usable or not |
| Lifetime.LeaveKeeps | nanomsg-1.1.5/src/core/sock.c:1119-1125 | releasing a hold keeps the account, and posts relesem only when the last one goes |
| Lifetime.TaskDone | nanomsg-1.1.5/src/core/global.c:615-680 | a call that has added its one endpoint, or removed the one it names, stays inside with nothing more to do, and the account is kept |
| Lifetime.CloseBeginKeeps | nanomsg-1.1.5/src/core/global.c:504-531 | the first locked piece of nn_close keeps the account: it takes a hold, stops the socket, and becomes the only closer |
| Lifetime.ClosePieceKeeps | nanomsg-1.1.5/src/core/global.c:531-553 | each later piece of nn_close keeps the account and changes nothing of the endpoint machinery but for the checks of nn_sock_term |
| Lifetime.ReapFinds | nanomsg-1.1.5/src/core/sock.c:189-248 | in a run without a late step all the checks of nn_sock_term hold |
| EndpointRuns.RemoveTakesOne | nanomsg-1.1.5/src/core/sock.c:527-563 | in every state of a run the step of an nn_shutdown takes the endpoint it names, and no other, from the active ones, and asks it to stop |
| EndpointRuns.ActiveUntilStopped | nanomsg-1.1.5/src/core/sock.c:527-563 | in every run whatever else happens an endpoint stays active until an nn_shutdown names it or a close begins |
| EndpointRuns.OnlyRacingBindsFail | nanomsg-1.1.5/src/core/sock.c:495-525 | in every run in which no endpoint is created after the close has begun, no check of the lifetime code fails and no endpoint is left behind |
| EndpointRuns.NoRaceNoneLate | nanomsg-1.1.5/src/core/sock.c:842-925 | without such an endpoint no step comes too late |
| EndpointRuns.ProtocolIsHeard | nanomsg-1.1.5/src/core/sock.c:902-921 | in every run in time a protocol with a stop callback is destroyed only after it has said that it has stopped |
| Teardown.CloseCanFinish | nanomsg-1.1.5/src/core/sock.c:842-925 | exactly when a close can still be carried to its end without a failed check: in every state a run can reach once a close has begun, short of one that has fallen, a schedule of any steps that frees the socket exists if and only if no endpoint is active, or each that is has an nn_shutdown inside that names it and has not come to it, while a transport is still stopping; and if any does, one exists for every kind of protocol and transport, answering at once or later |
| Teardown.CloseFinishes | nanomsg-1.1.5/src/core/global.c:504-553 | such a schedule, constructed step by step from any of those states, for either kind of protocol and any set of transports that report at once |
| Teardown.NobodyRemoves | nanomsg-1.1.5/src/core/global.c:659-680 | once no nn_shutdown is left inside, a close that finds an active endpoint is never carried to its end |
| Teardown.TwoBindsNeverClose | nanomsg-1.1.5/src/core/global.c:615-635 | so it is after the race of two binds and a close, whatever happens afterwards |
| Teardown.Advance | nanomsg-1.1.5/src/aio/ctx.c:51-96 | in each of those states some step, which leaves the protocol and the transports their own ways, keeps the close possible and brings its end strictly nearer |
| Teardown.StuckForGood | nanomsg-1.1.5/src/core/sock.c:892-921 | from all other states no continuation without a late step ever frees the socket |
| Teardown.LateNeverFrees | nanomsg-1.1.5/src/core/sock.c:189-248 | and none with a late step does without a failed check |
| Teardown.HandleFrame | nanomsg-1.1.5/src/aio/fsm.c:64-87 | handling an event of a stopping socket asks no transport and answers for none, leaves eps alone, and never sets the protocol's stop back |
| CoreInvariant.ProcessKeeps | nanomsg-1.1.5/src/aio/fsm.c:64-87 | handling any queued event but the one of `Forgets` keeps the whole invariant: lists, endpoint handshakes, queue and socket state |
| CoreInvariant.Forgetting | nanomsg-1.1.5/src/core/sock.c:892-898 | the one event that does not keep it, the last stopping endpoint reported while another is active, fails the assertion of finish2 |
| CoreInvariant.ShutdownEnds | nanomsg-1.1.5/src/core/sock.c:842-925 | once no endpoint is active and every transport has reported, draining the event queue empties sdeps and ends the shutdown, but for the protocol's own stop |
| CoreInvariant.StuckMeansUnreported | nanomsg-1.1.5/src/core/sock.c:842-925 | with the queue empty, what a stopping socket still waits for is exactly a transport or the protocol that was asked and has not reported: no stop event is lost |
| CoreInvariant.StopSockKeeps | nanomsg-1.1.5/src/core/sock.c:182-187 | nn_sock_stop keeps the invariant, asks exactly the active endpoints to stop, and waits in STOPPING_EPS exactly when there is an endpoint to wait for |
| CoreInvariant.StopAllKeeps | nanomsg-1.1.5/src/core/sock.c:863-873 | every active endpoint moves to sdeps in order and its transport is asked, with one event for each that has reported at once; no other record changes and the structure is kept |
| CoreInvariant.RmEpKeeps | nanomsg-1.1.5/src/core/sock.c:527-563 | an nn_shutdown of an active endpoint takes that one, and no other, out of eps without disturbing the order, puts it at the end of sdeps and asks it to stop, its transport asked or already reported; of any other id it changes nothing; every endpoint stays on exactly one list |
| CoreInvariant.AddEpKeeps | nanomsg-1.1.5/src/core/sock.c:495-525 | one endpoint more, the last of eps, running, with an id never used before; everything else as it was, and nothing changes if it is refused; every endpoint stays on exactly one list |
| CoreInvariant.ReportKeeps | nanomsg-1.1.5/src/core/ep.c:103-111 | a transport that reports when asked keeps the handshake and never finds its event queued already |
| CoreInvariant.FeedEpKeeps | nanomsg-1.1.5/src/core/ep.c:138-159 | the endpoint's own stop event takes it to IDLE and raises exactly one NN_EP_STOPPED |
| CoreInvariant.TermEpKeeps | nanomsg-1.1.5/src/core/sock.c:886-890 | an endpoint reported stopped is on sdeps, idle, unqueued, and is terminated without a failed check |
| CoreInvariant.Finish2Keeps | nanomsg-1.1.5/src/core/sock.c:892-921 | the wait for the endpoints ends exactly when none is stopping; then a protocol with a stop callback is asked, and nothing but its own report is queued, else the socket is finished at once |
| CoreInvariant.DrainKeeps | nanomsg-1.1.5/src/aio/ctx.c:51-96 | exactly when leaving the context with the queue as it is fails an assertion: the socket waits for stopping endpoints, all have reported, and another is active; in every other state draining keeps the whole invariant |
| CoreInvariant.ProcessShrinks | nanomsg-1.1.5/src/aio/ctx.c:51-96 | every event handled leaves strictly less to handle, so the draining loop ends |
| CoreInvariant.WithoutAt | nanomsg-1.1.5/src/core/sock.c:551-554 | taking the found endpoint out of the list is the deletion the specification means |
| CoreInvariant.MoveKeeps | nanomsg-1.1.5/src/core/sock.c:551-556 | moving an endpoint to sdeps and asking it to stop changes its record alone, queues its report exactly if its transport reports at once, and keeps the structure |
| Socket.Sock.Hold | nanomsg-1.1.5/src/core/sock.c:1104-1117 | refused with EBADF unless the socket is ACTIVE or INIT, else one hold more |
| Socket.Sock.Rele | nanomsg-1.1.5/src/core/sock.c:1119-1125 | one hold less, and relesem posted exactly at zero |
| Socket.Sock.RaiseEvent | nanomsg-1.1.5/src/aio/ctx.c:103-106 | on event structures linked in a queue: the assertion, asked of the structure's own mark, fails exactly when the specification sees the event queued, else the event is last in the queue; lists, marks and embedding stay right |
| Socket.Sock.SeenBy | nanomsg-1.1.5/src/utils/queue.c:105-108 | the mark of an event structure tells exactly whether the specification's queue holds that event |
| Socket.SeenIn | nanomsg-1.1.5/src/aio/fsm.c:143-148 | one event structure per endpoint: it is in the queue exactly if one of the two events that use it is |
| Socket.Sock.ReportStopped | nanomsg-1.1.5/src/core/ep.c:103-111 | the report writes the endpoint's one event structure and queues it |
| Socket.Sock.StopEndpoint | nanomsg-1.1.5/src/core/ep.c:98-101 | on endpoint objects that embed their list item and event: only the endpoint, the queue and the abort flag change, a transport reporting inside the callback included, and the records seen by the specification are as it says |
| Socket.Sock.RemoveEndpoint | nanomsg-1.1.5/src/core/sock.c:527-563 | EINVAL exactly if the endpoint is not active, and then nothing changes; else its item, and no other, leaves the one linked list and joins the end of the other, that endpoint alone is asked to stop, and the structure is kept |
| Socket.Sock.FindEndpoint | nanomsg-1.1.5/src/core/sock.c:534-543 | the walk along the linked list finds the endpoint of that id exactly if it is active |
| Socket.Sock.Move | nanomsg-1.1.5/src/core/sock.c:551-554 | erasing an item from eps and inserting it in sdeps, by pointers, takes its endpoint out of the one sequence and appends it to the other |
| Socket.Sock.StopEndpoints | nanomsg-1.1.5/src/core/sock.c:863-873 | the loop over eps, which takes the successor before it unlinks the item, refines the recursive specification |
| Socket.Sock.Stop | nanomsg-1.1.5/src/core/sock.c:851-876 | nn_sock_stop on the linked structures asks exactly the active endpoints to stop, ends in the state of the specification and keeps the invariant |
| Socket.Sock.Finish | nanomsg-1.1.5/src/core/sock.c:892-921 | finish2 decides by the ends of the two linked lists, and hands over to the protocol or to finish1 |
| Socket.Sock.TermEndpoint | nanomsg-1.1.5/src/core/sock.c:886-890 | the checks of nn_list_erase, nn_ep_term, nn_list_item_term and nn_fsm_term, asked of the marks of the endpoint's own item and event, fail exactly when the specification's do; else the endpoint's structures leave the heap |
| Socket.Sock.Free | nanomsg-1.1.5/src/core/ep.c:84-91 | freeing an endpoint whose structures are unlinked leaves lists, queue and embedding right |
| Socket.Sock.Listed | nanomsg-1.1.5/src/utils/list.c:119-127 | the mark of an endpoint's list item tells exactly whether the specification has it on sdeps |
| Socket.Sock.FeedEndpoint | nanomsg-1.1.5/src/core/ep.c:138-159 | the endpoint's own stop event, fed to the object, raises its event structure a second time |
| Socket.Sock.PopEvent | nanomsg-1.1.5/src/aio/ctx.c:59-64 | the structure popped from the queue holds the event the specification handles, and leads back to its endpoint |
| Socket.Sock.HandleShutdown | nanomsg-1.1.5/src/core/sock.c:876-925 | the shutdown function on an event, state by state |
| Socket.Sock.ProcessEvent | nanomsg-1.1.5/src/core/sock.c:927-1011 | one event popped from the linked queue, by the endpoint, the handler or the shutdown function, ends in the state of the specification and leaves the holds alone |
| Socket.Sock.Leave | nanomsg-1.1.5/src/aio/ctx.c:51-96 | the draining loop ends, and an assertion fails exactly if the socket waits for endpoints that have all reported while another is active; else it ends in the state of the recursive specification with the invariant kept |
| Socket.Sock.AddEndpoint | nanomsg-1.1.5/src/core/sock.c:495-525 | a new endpoint object with fresh item and event goes to the end of eps with an id never used before, whatever the socket's state, and no other endpoint changes; a refused one leaves no trace |
| Socket.Sock.NewPipe | nanomsg-1.1.5/src/core/pipe.c:50-64 | a pipe brings two event structures of its own, NN_PIPE_IN and NN_PIPE_OUT, neither queued, and nothing else changes |
| Socket.Sock.ProtocolHasStopped | nanomsg-1.1.5/src/core/sock.c:169-177 | the protocol's report raises the socket's one stop event, the assertion asked of its own mark |
| SocketLife.Descriptor.Take | nanomsg-1.1.5/src/core/global.c:504-553 | any step of the runs whatever, taken on the linked structures: calls and closes with their holds, worker, transports and protocol; every mark and link stays right and the object ends where the run does; a step in time keeps the whole invariant and fails no assertion, one too late leaves an endpoint behind or fails one, and the forgetting event fails the assertion on the linked structures |
| SocketLife.Descriptor.BeginClose | nanomsg-1.1.5/src/core/global.c:504-531 | the first locked piece of nn_close, hold and nn_sock_stop on the linked lists, is the step of the runs |
| SocketLife.Descriptor.EnterCall | nanomsg-1.1.5/src/core/global.c:1124-1150 | a call enters exactly if the descriptor is open and the socket holdable, and then holds it once more, with its task before it |
| SocketLife.Descriptor.LeaveCall | nanomsg-1.1.5/src/core/global.c:1152-1157 | a call that leaves gives up its hold and posts relesem if it was the last |
| SocketLife.Descriptor.ReleaseClose | nanomsg-1.1.5/src/core/global.c:525-531 | both holds go, and the global lock |
| SocketLife.Descriptor.ReapSocket | nanomsg-1.1.5/src/core/sock.c:189-248 | the checks at the end of nn_sock_term, asked of the ends of the real lists and queue, hold in time |
| SocketLife.Descriptor.Machine | nanomsg-1.1.5/src/core/sock.c:842-1011 | a step of the worker, a transport, the protocol, an nn_bind or an nn_shutdown on the linked structures is the step of the runs, in time or late |
| Descriptors.PopKeeps | nanomsg-1.1.5/src/core/global.c:441-467 | the descriptor popped names an empty slot, and filling it keeps the stack exactly the empty slots |
| Descriptors.PushKeeps | nanomsg-1.1.5/src/core/global.c:539-545 | clearing an open slot and pushing its descriptor keeps the stack exactly the empty slots |
| Descriptors.InitialTable | nanomsg-1.1.5/src/core/global.c:237-255 | the stack as first filled is exactly the empty slots, without repeats |
| Descriptors.Global.Init | nanomsg-1.1.5/src/core/global.c:208-266 | initialising twice changes nothing; the first time all slots are empty |
| Descriptors.Global.CreateSocket | nanomsg-1.1.5/src/core/global.c:426-470 | success exactly when domain, room, socket type and nn_sock_init allow, else the error of the first test that fails; then one slot that was empty holds the new socket, held once, and no other slot changes |
| Descriptors.Global.OpenSocket | nanomsg-1.1.5/src/core/global.c:472-502 | under the global lock the call fails exactly if the library is terminating or the creation is refused, with the error of the first test that fails; a new socket never overwrites a live one, and a failed creation leaves the table as it was |
| Descriptors.Global.Release | nanomsg-1.1.5/src/core/global.c:539-553 | the closed slot alone is cleared, its descriptor is the next handed out, and the library terminates exactly when it was the last |
| Wire.GetPut | nanomsg-1.1.5/src/utils/wire.c:31-82 | what nn_puts, nn_putl and nn_putll write reads back as the same number |
| Wire.PutGet | nanomsg-1.1.5/src/utils/wire.c:31-82 | every byte string is the encoding of what it reads as |
| Wire.PutLBytes | nanomsg-1.1.5/src/utils/wire.c:51-57 | the shifted and masked bytes are the big-endian digits |
| Wire.PutLLBytes | nanomsg-1.1.5/src/utils/wire.c:71-81 | the same for 64 bits |
| Wire.WriteS | nanomsg-1.1.5/src/utils/wire.c:37-41 | two bytes are written in place and no other byte changes |
| Wire.WriteL | nanomsg-1.1.5/src/utils/wire.c:51-57 | four bytes are written in place and no other byte changes |
| Wire.WriteLL | nanomsg-1.1.5/src/utils/wire.c:71-81 | eight bytes are written in place and no other byte changes |
| Chunk.TrimKeeps | nanomsg-1.1.5/src/utils/chunk.c:203-225 | a trim of any length, shorter than the prefix included, leaves a tag and offset that lead back to the block and touch neither header nor remaining data |
| Chunk.TrimsKeep | nanomsg-1.1.5/src/utils/chunk.c:203-241 | after any sequence of in-range trims the pointer leads back to the original block and the live bytes are exactly the untrimmed suffix |
| Chunk.Chunk.Trim | nanomsg-1.1.5/src/utils/chunk.c:203-225 | the trim in place: new pointer, size, live bytes, header struct |
| Chunk.Chunk.AddRef | nanomsg-1.1.5/src/utils/chunk.c:188-196 | the counter grows by n modulo 2^32 |
| Chunk.Chunk.Free | nanomsg-1.1.5/src/utils/chunk.c:166-186 | deallocated exactly when the counter was at most one; then the tag is destroyed and the data not |
| Chunk.Alloc | nanomsg-1.1.5/src/utils/chunk.c:61-97 | success exactly when the size does not wrap, the type is known and memory is there; then one reference and a well-laid block |
| ChunkRef.Ref.Init | nanomsg-1.1.5/src/utils/chunkref.c:42-56 | a reference of the asked size, in heap form exactly from 32 bytes on |
| ChunkRef.Ref.InitChunk | nanomsg-1.1.5/src/utils/chunkref.c:58-65 | the reference stands for the chunk's bytes |
| ChunkRef.Ref.Term | nanomsg-1.1.5/src/utils/chunkref.c:67-75 | a heap reference gives up exactly one count; an inline one touches nothing |
| ChunkRef.Ref.GetChunk | nanomsg-1.1.5/src/utils/chunkref.c:77-94 | the chunk holds exactly the bytes the reference stood for, whichever form it had, and the reference is empty |
| ChunkRef.Ref.Size | nanomsg-1.1.5/src/utils/chunkref.c:120-125 | the size is that of the contents in either form |
| ChunkRef.Ref.Data | nanomsg-1.1.5/src/utils/chunkref.c:113-118 | the bytes at the data pointer are the contents in either form |
| ChunkRef.Ref.Trim | nanomsg-1.1.5/src/utils/chunkref.c:127-140 | the first n bytes of the contents are gone in either form, and the form stays |
| ChunkRef.MoveDown | nanomsg-1.1.5/src/utils/chunkref.c:135-139 | the overlapping move of the inline bytes is exact |
| ChunkRef.Mv | nanomsg-1.1.5/src/utils/chunkref.c:96-100 | the destination stands for what the source stood for, in the same form |
| ChunkRef.Cp | nanomsg-1.1.5/src/utils/chunkref.c:102-111 | both references stand for the contents; a heap chunk has one count more |
| ChunkRef.BulkCopyStart | nanomsg-1.1.5/src/utils/chunkref.c:142-150 | a heap chunk gets the announced counts at once; contents unchanged |
| ChunkRef.BulkCopyCp | nanomsg-1.1.5/src/utils/chunkref.c:152-155 | a bulk copy stands for the contents and takes no further count |
| MsgStore.RefcountsConserved | nanomsg-1.1.5/src/utils/chunk.c:166-196 | over any sequence of reference operations a chunk's counter is its heap-form references plus user pointers plus bulk copies announced and not made; it is deallocated exactly once, when that reaches zero, and never touched afterwards |
| MsgStore.MessagesConserved | nanomsg-1.1.5/src/utils/msg.c:27-80 | the same over any sequence of message operations |
| MsgStore.OpKeeps | nanomsg-1.1.5/src/utils/chunkref.c:42-155 | every reference operation keeps the account of every chunk exactly when the 32-bit counter has room for the holders it adds |
| MsgStore.ConservedIffRoom | nanomsg-1.1.5/src/utils/chunkref.c:42-155 | the same over any sequence: the account is right all the way exactly when every operation finds room |
| MsgStore.OverflowLoses | nanomsg-1.1.5/src/utils/chunk.c:188-196 | without room some live chunk's counter no longer tells its holders |
| MsgStore.HeldIsLive | nanomsg-1.1.5/src/utils/chunkref.c:67-75 | a heap-form reference always points at a live chunk |
| MsgStore.MsgCpCounts | nanomsg-1.1.5/src/utils/msg.c:55-60 | copying a message adds one holder for each of its parts that is a chunk, and copies all three parts |
| MsgStore.BulkIsManyCopies | nanomsg-1.1.5/src/utils/chunkref.c:142-155 | announcing n copies and making them leaves the same store as n single copies |
| MsgStore.CounterNeedsRoom | nanomsg-1.1.5/src/utils/chunk.c:166-186 | the deallocation test is right exactly while the 32-bit counter has not wrapped to 0 or 1 |
| MsgData.CopyStands | nanomsg-1.1.5/src/utils/chunkref.c:102-155 | a copy, single or bulk, stands for what its source stood for when it was made, through any run until it is itself given away, whatever becomes of the source and of the chunk they share |
| MsgData.TextStays | nanomsg-1.1.5/src/utils/chunkref.c:42-155 | no operation changes what another reference stands for, over any run |
| MsgData.BodyStays | nanomsg-1.1.5/src/utils/chunk.c:166-196 | over any run a live chunk holds what it held, and its name is not used again |
| MsgData.ChunkStands | nanomsg-1.1.5/src/utils/chunkref.c:77-94 | the chunk handed to the user holds what the reference stood for, over any run while it lives |
| MsgData.OpSound | nanomsg-1.1.5/src/utils/chunkref.c:42-155 | every operation that finds room keeps reference and chunk in agreement: a reference in heap form stands for what its chunk holds |
| MsgData.RunSound | nanomsg-1.1.5/src/utils/chunkref.c:42-155 | so does any sequence of operations, and the account is that of the runs |
| MsgParts.MvMoves | nanomsg-1.1.5/src/utils/msg.c:48-53 | nn_msg_mv moves protocol header, ancillary headers and body, each to its own place, and leaves the source uninitialised and every other reference alone |
| MsgParts.CpCopies | nanomsg-1.1.5/src/utils/msg.c:55-60 | nn_msg_cp copies all three, the source keeps them, and every other reference is left alone |
| MsgParts.BulkCpCopies | nanomsg-1.1.5/src/utils/msg.c:69-74 | and so does nn_msg_bulkcopy_cp |
| MsgParts.BulkStartKeeps | nanomsg-1.1.5/src/utils/msg.c:62-67 | nn_msg_bulkcopy_start changes what no reference stands for |
| MsgParts.TermEnds | nanomsg-1.1.5/src/utils/msg.c:41-46 | nn_msg_term leaves no part of the message initialised and touches no other |
| MsgParts.InitMakes | nanomsg-1.1.5/src/utils/msg.c:27-32 | nn_msg_init gives a message without headers and with a body of the asked size |
| MsgParts.InitChunkMakes | nanomsg-1.1.5/src/utils/msg.c:34-39 | nn_msg_init_chunk gives one whose body is what the chunk holds |
| MsgParts.ReplaceBodyReplaces | nanomsg-1.1.5/src/utils/msg.c:76-80 | nn_msg_replace_body exchanges the body for the reference given, which is used up |
| MsgHeap.Do | nanomsg-1.1.5/src/utils/chunkref.c:42-155 | any operation of the runs, carried out on the bytes of the references and chunks on the heap, keeps heap and books in step: every reference has the form and chunk the store names, every live chunk its counter and well-laid header, no two share memory, and the bytes are those of the books |
| MsgHeap.DoAll | nanomsg-1.1.5/src/utils/chunkref.c:42-155 | any sequence of operations on the heap is the run over the books |
| MsgHeap.StandsFor | nanomsg-1.1.5/src/utils/chunkref.c:113-125 | what a reference on the heap stands for, read off its bytes or its chunk, is what the books say |
| MsgHeap.CounterTells | nanomsg-1.1.5/src/utils/chunk.c:166-196 | what that says of the bytes: a block that has not been deallocated counts exactly the references whose bytes point to it, the user's pointers and the copies announced |
| MsgHeap.NothingKept | nanomsg-1.1.5/src/utils/chunkref.c:42-56 | it is so at the start |
| MsgHeap.FreeMsg | nanomsg-1.1.5/src/utils/chunk.c:166-186 | the block leaves the heap exactly when the account has the last holder go, and else counts one less |
| MsgHeap.Init | nanomsg-1.1.5/src/utils/chunkref.c:42-56 | a new reference of the asked size and, from 32 bytes on, a new block counting one |
| MsgHeap.InitChunk | nanomsg-1.1.5/src/utils/chunkref.c:58-65 | the reference takes over one of the user's pointers |
| MsgHeap.Term | nanomsg-1.1.5/src/utils/chunkref.c:67-75 | the reference goes, and its block with the last holder |
| MsgHeap.GetChunk | nanomsg-1.1.5/src/utils/chunkref.c:77-94 | the holder moves from the reference to the user, or a new block is made with its bytes; the reference is empty |
| MsgHeap.Mv | nanomsg-1.1.5/src/utils/chunkref.c:96-100 | holder and bytes move from one reference to another |
| MsgHeap.Cp | nanomsg-1.1.5/src/utils/chunkref.c:102-111 | a holder with the same bytes joins, and the counter in the block says so |
| MsgHeap.BulkStart | nanomsg-1.1.5/src/utils/chunkref.c:142-150 | the announced copies are counted in the block at once |
| MsgHeap.BulkCp | nanomsg-1.1.5/src/utils/chunkref.c:152-155 | a copy announced becomes a reference with the same bytes and the counter stays |
| List.Spliced | nanomsg-1.1.5/src/utils/list.c:72-87 | four pointer updates make the list the sequence with the item inserted |
| List.Unspliced | nanomsg-1.1.5/src/utils/list.c:89-111 | the pointer updates of an erase make it the sequence without the item |
| List.LinkedList.Insert | nanomsg-1.1.5/src/utils/list.c:72-87 | insertion before an item or at the end, on linked heap items, is sequence insertion |
| List.LinkedList.Erase | nanomsg-1.1.5/src/utils/list.c:89-111 | erasing is sequence deletion; the item is marked and its successor returned |
| List.LinkedList.Bypass | nanomsg-1.1.5/src/utils/list.c:89-111 | the neighbours, first and last, are relinked around the item |
| List.LinkedList.Relink | nanomsg-1.1.5/src/utils/list.c:72-87 | exactly the item, its two neighbours and the ends are written |
| List.InsertIn | nanomsg-1.1.5/src/utils/list.c:72-87 | among any number of lists an insertion changes one, and the not-in-list mark keeps telling membership |
| List.EraseIn | nanomsg-1.1.5/src/utils/list.c:89-127 | among any number of lists an erase changes one, and the item may be inserted anywhere afterwards |
| Queue.Fifo.Push | nanomsg-1.1.5/src/utils/queue.c:45-55 | push appends |
| Queue.Fifo.Pop | nanomsg-1.1.5/src/utils/queue.c:81-93 | pop takes the first, or nothing of an empty queue |
| Queue.Fifo.Remove | nanomsg-1.1.5/src/utils/queue.c:57-79 | removal from the middle is sequence deletion; an item of no queue, or of another, changes nothing |
| Queue.Fifo.Unlink | nanomsg-1.1.5/src/utils/queue.c:62-77 | head, tail and the predecessor are relinked around the item |
| Queue.PushIn | nanomsg-1.1.5/src/utils/queue.c:45-55 | among any number of queues a push changes one, and the mark keeps telling membership |
| Queue.PopIn | nanomsg-1.1.5/src/utils/queue.c:81-93 | among any number of queues a pop changes one, and the item may be pushed again |
| Queue.RemoveIn | nanomsg-1.1.5/src/utils/queue.c:57-79 | removing an item that is in a different queue changes nothing at all |
| HashKey.KeyIsPermutation | nanomsg-1.1.5/src/utils/hash.c:142-153 | nn_hash_key is a permutation of the 32-bit integers |
| HashKey.Undone | nanomsg-1.1.5/src/utils/hash.c:142-153 | an explicit inverse undoes the hash, so distinct keys never share one |
| HashKey.Inverse1 | nanomsg-1.1.5/src/utils/hash.c:146-146 | the first xor step is invertible |
| HashKey.Inverse2 | nanomsg-1.1.5/src/utils/hash.c:147-147 | the multiplication by nine is invertible modulo 2^32 |
| HashKey.Inverse3 | nanomsg-1.1.5/src/utils/hash.c:148-148 | the xor with a right shift by four is invertible |
| HashKey.Inverse4 | nanomsg-1.1.5/src/utils/hash.c:149-149 | the odd multiplication is invertible modulo 2^32 |
| HashKey.Inverse5 | nanomsg-1.1.5/src/utils/hash.c:150-150 | the xor with a right shift by fifteen is invertible |
| HashTable.Table.Get | nanomsg-1.1.5/src/utils/hash.c:123-140 | the walk along the linked list of the hash finds the item of a key exactly if the finite map has it |
| HashTable.Table.Insert | nanomsg-1.1.5/src/utils/hash.c:90-112 | on linked lists: the map gains the key; the table doubles exactly when it is too full and below 2^31 slots; links, marks and every invariant stay right |
| HashTable.Table.Erase | nanomsg-1.1.5/src/utils/hash.c:114-121 | the map loses the key and nothing else, and the item is in no list |
| HashTable.Table.Rehash | nanomsg-1.1.5/src/utils/hash.c:55-88 | twice the slots on fresh lists, the same map, and each new list stands for the subsequence of its one old bucket in its old order |
| HashTable.Redistribute | nanomsg-1.1.5/src/utils/hash.c:72-84 | the loop over the old lists, each emptied from its front by unlinking and relinking, deals out exactly what the specification of the redistribution says |
| HashTable.MoveList | nanomsg-1.1.5/src/utils/hash.c:74-81 | one old list is emptied onto the ends of the new ones in order |
| HashTable.MoveFirst | nanomsg-1.1.5/src/utils/hash.c:75-80 | its first item is unlinked and linked at the end of the list of its new hash, and what is still to come completes what has been dealt out |
| HashTable.UnlinkIn | nanomsg-1.1.5/src/utils/hash.c:119-119 | an erase from one of the lists takes the item out of the bucket it stands for and leaves the others |
| HashTable.LinkIn | nanomsg-1.1.5/src/utils/hash.c:104-105 | an insertion at the end of one of the lists appends the item to the bucket it stands for and leaves the others |
| HashTable.NewTable | nanomsg-1.1.5/src/utils/hash.c:33-44 | an empty table hashed by nn_hash_key |
| Hash.DoubledBucket | nanomsg-1.1.5/src/utils/hash.c:78-80 | doubling sends an item of bucket i only to i or to i plus the old size |
| Hash.FeedsTwo | nanomsg-1.1.5/src/utils/hash.c:73-84 | bucket i keeps nothing for any other new bucket |
| Hash.RehashPlaced | nanomsg-1.1.5/src/utils/hash.c:55-88 | redistribution keeps every item in the bucket of its hash, once |
| Hash.RehashOrder | nanomsg-1.1.5/src/utils/hash.c:72-84 | items that share a bucket after the doubling stand in the order they had before it, and only the items of its hash are there |
| Hash.SelectOrder | nanomsg-1.1.5/src/utils/hash.c:73-84 | dealing a bucket out keeps the order of what goes to the same place |
| Hash.SelectMembers | nanomsg-1.1.5/src/utils/hash.c:73-84 | what a new bucket receives is exactly the items of its hash |
| Hash.SelectDistinct | nanomsg-1.1.5/src/utils/hash.c:73-84 | no item is dealt out twice |
| Hash.AppendPlaced | nanomsg-1.1.5/src/utils/hash.c:90-106 | inserting keeps items and map in agreement |
| Hash.RemovePlaced | nanomsg-1.1.5/src/utils/hash.c:114-121 | erasing keeps items and map in agreement |
| Hash.OneMore | nanomsg-1.1.5/src/utils/hash.c:106-111 | the wrapping 32-bit counter triggers the doubling exactly when 2*items exceeds the slots, and the load bound is kept |
| Hash.RoomToDouble | nanomsg-1.1.5/src/utils/hash.c:110-110 | below 2^31 slots there is room to double: slots is 32 times a power of two |
| TimerSet.Set.Add | nanomsg-1.1.5/src/aio/timerset.c:40-64 | on the linked list of handles: the handles stay in order of deadline and insertion; returns 1 exactly when the earliest deadline changes |
| TimerSet.Set.NewHndl | nanomsg-1.1.5/src/aio/timerset.c:114-117 | a new handle is in no list, and may be given to the set from now on |
| TimerSet.Set.Place | nanomsg-1.1.5/src/aio/timerset.c:51-57 | the walk stops at the first handle that is due later |
| TimerSet.Set.Link | nanomsg-1.1.5/src/aio/timerset.c:62-62 | linking the item there inserts its handle at that place of the order |
| TimerSet.Set.Rm | nanomsg-1.1.5/src/aio/timerset.c:66-79 | a handle whose mark says it is in no list is ignored; else it alone is unlinked; a return of 0 means the earliest deadline is unchanged |
| TimerSet.Set.Marked | nanomsg-1.1.5/src/utils/list.c:119-127 | an item's own mark tells exactly whether its handle is in the set |
| TimerSet.Set.Event | nanomsg-1.1.5/src/aio/timerset.c:93-112 | unlinks and returns the handle before all others if its deadline has passed, else nothing has expired |
| TimerSet.Set.Timeout | nanomsg-1.1.5/src/aio/timerset.c:81-91 | -1 exactly when no timer is pending; else the number of milliseconds below 2^31 congruent to the distance to the earliest deadline modulo 2^32, or 0 if there is none |
| TimerSet.Set.ProcessExpired | nanomsg-1.1.5/src/aio/worker_posix.inc:180-190 | at a fixed clock exactly the expired handles come out, in order of deadline and then of insertion, and the rest stays |
| TimerSet.WaitIsExact | nanomsg-1.1.5/src/aio/timerset.c:88-90 | the exact condition on which that number is the right wait |
| TimerSet.OrderedUnique | nanomsg-1.1.5/src/aio/timerset.c:40-112 | the list is determined by which handles are in it |
| TimerSet.Parted | nanomsg-1.1.5/src/aio/worker_posix.inc:180-190 | an instant splits the ordered list into the handles that have expired and those that have not |
| TimerSet.TakeFirst | nanomsg-1.1.5/src/aio/timerset.c:108-111 | taking the first handle out takes out its timer and no other |
| TimerSet.InsertedOk | nanomsg-1.1.5/src/aio/timerset.c:50-63 | insertion before the first later deadline keeps order, ties in order of insertion |
| TimerSet.RemovedOk | nanomsg-1.1.5/src/aio/timerset.c:66-79 | removal keeps order |
| TimerSet.SameDeadline | nanomsg-1.1.5/src/aio/timerset.c:40-79 | what other handles do in the set does not change when a timer is due |
| Timer.OwnerSeesProtocol | nanomsg-1.1.5/src/aio/timer.c:60-177 | in every run against the worker no assertion fails, and the owner sees start, at most one timeout, stop, stopped, in that order: none after the stop was asked for, and a timeout only when the instant it is due has been reached |
| Timer.IdleCanTerm | nanomsg-1.1.5/src/aio/timer.c:60-69 | whenever nn_timer_isidle holds, neither task is queued or held, the timer is due at no instant, and nn_timer_term's checks hold |
| Timer.StopIsAnswered | nanomsg-1.1.5/src/aio/timer.c:90-113 | a requested stop is answered: the worker can always carry on to it, and raises exactly the stopped event on the way |
| Timer.NoMoreTimeoutsThanStarts | nanomsg-1.1.5/src/aio/timer.c:155-164 | timeouts never outnumber starts, and stops are answered in turn |
| Timer.TimeoutIsDue | nanomsg-1.1.5/src/aio/timer.c:147-164 | in every log a run can write, a timeout comes only after the start it belongs to, the instant at which the timer was armed, and an instant at which it was found expired that is at least arming instant plus the time asked for, modulo 2^64 |
| Timer.LogIsTrue | nanomsg-1.1.5/src/aio/worker_posix.inc:180-240 | in every run the times in the log are those the owner asked for and the instants those at which the worker looked, each in order; a timer is armed only at an instant at which the worker feeds it |
| Timer.TimeoutComes | nanomsg-1.1.5/src/aio/timer.c:147-164 | and it does come: whatever a started timer that has not fired yet is waiting for, a worker that arms it at one instant and looks again at any other late enough raises the timeout |
| Timer.StepGives | nanomsg-1.1.5/src/aio/worker_posix.inc:180-240 | what each single step adds to those times and instants |
| Timer.StepKeeps | nanomsg-1.1.5/src/aio/timer.c:90-177 | every step of owner, worker and context keeps the invariant |
| Timer.FeedKeeps | nanomsg-1.1.5/src/aio/timer.c:90-177 | what the worker feeds, at whatever moment, keeps the invariant |
| Timer.OwnerKeeps | nanomsg-1.1.5/src/aio/timer.c:76-88 | start and stop never find their task queued already |
| Timer.WorkShrinks | nanomsg-1.1.5/src/aio/worker_posix.inc:200-240 | every piece the worker does leaves it strictly less to do |
| TimerObject.Timer.Take | nanomsg-1.1.5/src/aio/timer.c:76-177 | any step of the owner, the worker or the context on the linked queues and the timer set, each at its instant, keeps the invariant of the runs, fails no assertion, and ends in the state that the step of the runs gives; only a firing has to wait while another handle is first in the set |
| TimerObject.Timer.Term | nanomsg-1.1.5/src/aio/timer.c:60-69 | on an idle timer the checks of nn_timer_term hold of the real marks and of the timer set |
| TimerObject.Timer.Seen | nanomsg-1.1.5/src/utils/queue.c:105-108 | an item's mark tells exactly whether the task or event is on its way in the specification |
| TimerObject.Timer.Execute | nanomsg-1.1.5/src/aio/worker_posix.inc:141-147 | the assertion on the task's own mark fails exactly when the specification has it queued; else it is last in the worker's linked queue |
| TimerObject.Timer.Raise | nanomsg-1.1.5/src/aio/fsm.c:191-198 | the same for an event and the context's linked queue |
| TimerObject.Timer.Start | nanomsg-1.1.5/src/aio/timer.c:76-83 | idleness is read off the marks; a start queues the start task |
| TimerObject.Timer.Stop | nanomsg-1.1.5/src/aio/timer.c:85-88 | a stop queues the stop task, once |
| TimerObject.Timer.Handler | nanomsg-1.1.5/src/aio/timer.c:115-177 | the start task puts the handle into the real timer set, due the asked milliseconds after the instant at which it is fed, modulo 2^64; a timeout raises its event |
| TimerObject.Timer.Arm | nanomsg-1.1.5/src/aio/timer.c:151-153 | the handle is in the timer set, due at this instant plus the time asked for, and the time is used up |
| TimerObject.Timer.Shutdown | nanomsg-1.1.5/src/aio/timer.c:90-113 | the stop task takes the handle out of the real timer set and raises the stopped event |
| TimerObject.Timer.Feed | nanomsg-1.1.5/src/aio/fsm.c:80-87 | what the worker holds goes to the handler or the shutdown function, by the state of the machine; after the start task the timer set holds an entry of this timer due the asked time later |
| TimerObject.Timer.Grab | nanomsg-1.1.5/src/aio/worker_posix.inc:209-212 | the worker's local copy takes over the links of the queue, and the marks stay right |
| TimerObject.Timer.Fire | nanomsg-1.1.5/src/aio/worker_posix.inc:180-190 | the worker gets this timer from the set at an instant exactly if its handle is the first there and due by then; then it is gone from the set, else nothing changes |
| TimerObject.Timer.Deliver | nanomsg-1.1.5/src/aio/ctx.c:59-64 | the context pops the first event and tells it by its structure |
| Pipe.WakeupsBalance | nanomsg-1.1.5/src/core/pipe.c:75-121 | in every run PIPE_OUT events minus sends that returned RELEASE is 1 exactly in IDLE and 0 exactly in ASYNC, likewise for receiving, and no assertion fails |
| Pipe.NoWakeupLost | nanomsg-1.1.5/src/core/pipe.c:177-214 | in each direction the turn is always in exactly one place: the transport, the event queue or the protocol |
| Pipe.ResultTells | nanomsg-1.1.5/src/core/pipe.c:177-214 | in every run a send or receive returns the result of the transport with its PARSED bit kept, and RELEASE added exactly if the transport has not completed the call inside it; the protocol keeps its turn exactly if it has |
| Pipe.StepKeeps | nanomsg-1.1.5/src/core/pipe.c:75-121 | every call and completion, inside or after the call, keeps the balance |
| PipeObject.Pipebase.Begins | nanomsg-1.1.5/src/core/pipe.c:75-92 | starting keeps the balance of wakeups, fails no assertion, and raises PIPE_OUT exactly if the protocol accepts |
| PipeObject.Pipebase.ProtocolSends | nanomsg-1.1.5/src/core/pipe.c:177-194 | a send on the linked queue and its event's mark, the transport's callback inside, keeps the balance and fails no assertion; it returns the transport's result, with RELEASE added exactly if the transport still owes the completion |
| PipeObject.Pipebase.ProtocolReceives | nanomsg-1.1.5/src/core/pipe.c:196-214 | the same for receiving |
| PipeObject.Pipebase.TransportHasSent | nanomsg-1.1.5/src/core/pipe.c:112-121 | a completion owed keeps the balance and fails no assertion |
| PipeObject.Pipebase.TransportHasReceived | nanomsg-1.1.5/src/core/pipe.c:101-110 | the same for receiving |
| PipeObject.Pipebase.TakeEvent | nanomsg-1.1.5/src/aio/ctx.c:59-64 | the event popped from the linked queue gives the turn of its direction to the protocol, and keeps the balance |
| PipeObject.Pipebase.Raise | nanomsg-1.1.5/src/aio/fsm.c:191-198 | the assertion fails exactly if the event's mark says it is queued; the other event's mark does not change |
| PipeObject.Pipebase.Send | nanomsg-1.1.5/src/core/pipe.c:177-194 | with the callback inside the call, the re-entrant state changes collapse to the one-step specification; RELEASE exactly if the message is still on its way |
| PipeObject.Pipebase.Recv | nanomsg-1.1.5/src/core/pipe.c:196-214 | the same for receiving |
| Queue.TakeOverIn | nanomsg-1.1.5/src/aio/worker_posix.inc:209-212 | among any number of queues, moving the links of one into an empty one keeps every mark right |
| Cmsg.AlignRounds | nanomsg-1.1.5/src/nn.h:286-287 | alignment rounds up to whole words except where the sum wraps, and then gives 0 |
| Cmsg.NextStaysInside | nanomsg-1.1.5/src/core/global.c:407-420 | on the walk the bounds test never wraps: it holds exactly if a header fits |
| Cmsg.AdvancesIff | nanomsg-1.1.5/src/core/global.c:407-420 | the walk moves forward exactly when the length is positive and no greater than the buffer |
| Cmsg.StaysPut | nanomsg-1.1.5/src/core/global.c:407-420 | the failing family: a zero length, or one within 7 of 2^64, is its own successor |
| Cmsg.WalkStalls | nanomsg-1.1.5/src/core/global.c:807-824 | a concrete family: one header of positive length 2^64-1 is walked round for ever, so positive lengths alone do not end the walk |
| Cmsg.WalkEndsIff | nanomsg-1.1.5/src/core/global.c:381-424 | exactly when the walk ends, on any buffer: when no header is met twice; and as many steps as the buffer has bytes decide it |
| Cmsg.StopsSoon | nanomsg-1.1.5/src/core/global.c:804-824 | if the search loop ends at all it ends within as many turns as the buffer has bytes |
| Cmsg.WalkIsShort | nanomsg-1.1.5/src/core/global.c:381-424 | when every length met is positive and fits, the walk has at most one header for every 8 bytes |
| Layout.WalkMeetsAll | nanomsg-1.1.5/src/core/global.c:381-424 | for any properties laid end to end, each padded to whole words, and whatever follows them that is not another one: step k of the walk is at the sum of the first k padded sizes, and after the last property it has ended |
| Layout.FirstFound | nanomsg-1.1.5/src/core/global.c:804-824 | so the first SP header is found whichever property it is, and none if there is none |
| Layout.OneFirst | nanomsg-1.1.5/src/core/global.c:804-824 | there is only one first SP header on a walk |
| Layout.DataFound | nanomsg-1.1.5/src/core/global.c:807-820 | and what is extracted there is the header that this property holds, or nothing if its size word is missing or too large |
| Layout.SphdrOf | nanomsg-1.1.5/src/core/global.c:804-824 | the search and the extraction, on any such layout, end with the header of its first SP header property |
| Layout.ShortTail | nanomsg-1.1.5/src/core/global.c:407-420 | less than a header at the end is no property |
| Layout.UnpaddedIsMissed | nanomsg-1.1.5/src/core/global.c:407-420 | a last property that lacks its padding is not met by the walk, although all its bytes are there |
| Cmsg.Search | nanomsg-1.1.5/src/core/global.c:804-824 | the search stops at the first SP_HDR of the walk or at its end; given as many turns as the buffer has bytes, it finishes exactly if the C loop does; which header that is in a buffer of properties is `Layout.FirstFound` |
| Cmsg.GetPutLittle | nanomsg-1.1.5/src/nn.h:277-281 | the stored lengths and types read back |
| Message.RecvThenSend | nanomsg-1.1.5/src/core/global.c:921-968 | for every header length, zero included, and any control buffer with room, what nn_recvmsg writes passes every bounds test of nn_sendmsg and gives the SP header back |
| Message.MvMsg | nanomsg-1.1.5/src/devices/device.c:284-319 | a device hands on the protocol header and the body unchanged, for every header length, and the ancillary headers after its own |
| Message.ManyHops | nanomsg-1.1.5/src/devices/device.c:284-319 | the same through any number of devices |
| Message.HopKeeps | nanomsg-1.1.5/src/devices/device.c:284-319 | one hop, whatever the fresh control chunk held |
| Message.FillControl | nanomsg-1.1.5/src/core/global.c:946-967 | the control buffer written field by field is the header, the bytes, its old padding and as many headers as fit |
| Message.ControlBody | nanomsg-1.1.5/src/core/global.c:946-967 | byte by byte: a buffer too small for the SP header property stays as it was; in any other the ancillary headers follow the property, as many as fit, and the bytes between and after are the old ones |
| Message.SpTotalIs | nanomsg-1.1.5/src/core/global.c:924-925 | the aligned total is a multiple of 8 and leaves less than a word of padding |
| Message.ExtractOverrunsIff | nanomsg-1.1.5/src/core/global.c:807-820 | exactly when nn_sendmsg reads past the control buffer, for every property its walk accepts: its length is below that of its own header or above that of the buffer, and the size word is missing, or small enough for the wrapped bound and too large for the buffer |
| Message.ExtractOverruns | nanomsg-1.1.5/src/core/global.c:807-820 | such a buffer: one SP_HDR whose length is 8 |
| Message.UniqueFirst | nanomsg-1.1.5/src/core/global.c:804-824 | a buffer that starts with the SP header is searched no further |
| Iovec.Gather | nanomsg-1.1.5/src/core/global.c:743-785 | the body is the pieces joined, or the chunk of a single NN_MSG element; it fails exactly on a bad element or a total past 2^64, with the error of the first fault |
| Iovec.JoinedAt | nanomsg-1.1.5/src/core/global.c:775-783 | byte k of piece i is in the body after all the bytes of the pieces before it, and the body has no other bytes |
| Iovec.Size | nanomsg-1.1.5/src/core/global.c:755-772 | the wrap-around test of the size loop is exact |
| Iovec.Scatter | nanomsg-1.1.5/src/core/global.c:900-918 | the bytes of the body fill the buffers in order, every buffer keeps its place and size, and nothing else changes; it fails exactly if it meets an NN_MSG element |
| Iovec.EachByte | nanomsg-1.1.5/src/core/global.c:900-918 | byte k of buffer i is then the byte of the body at that place counted over the buffers before it, or what it was if the body is too short |
| Iovec.LastPiece | nanomsg-1.1.5/src/core/global.c:910-913 | the buffer in which the body ends keeps its remaining bytes |
| Iovec.FullPiece | nanomsg-1.1.5/src/core/global.c:914-916 | a buffer filled whole takes the next bytes of the body |
| Getd.TransferIsExact | requestHandlers.c:65-192 | for any requests in any order: a user name overran the state exactly if some accepted type 0 request carried one that does not fit, and a path was looked for outside the receive buffer exactly if some type 3 request that reached that check had no null in its part of the buffer; and if no name overran, what was sent of the accepted file is a prefix of it, and type 5 comes only when it is the whole file, after exactly size/4096+1 pieces; the stream is open whenever it is used |
| Getd.OverrunsIff | requestHandlers.c:44-46 | over every run, the 33 bytes of the user name were overrun exactly if they were before or some accepted type 0 request had no null in its 33 bytes |
| Getd.FitsIff | requestVerify.c:13-28 | what type0Ver lets through fits exactly if its counted length is below 32 or byte 32 is a null |
| Getd.NameCanOverrun | requestHandlers.c:44-46 | such a request: 36 bytes without a null, counted as 32 |
| Getd.FittingNames | requestHandlers.c:44-46 | requests whose names pass that test never overrun |
| Getd.OutsideIff | requestVerify.c:31-43 | over every run, bytes after the receive buffer were read exactly if they were before or some type 3 request of the right length and session id had no null among the 3855 bytes of its path that are in the buffer |
| Getd.ReachesIff | requestVerify.c:31-43 | a type 3 request that is accepted has had such bytes read exactly if its path length is 3855 or more |
| Getd.PathCanReach | requestVerify.c:40-40 | such a request: a path of 4096 bytes, all accepted, of which 241 were never received |
| Getd.AcksFinish | requestHandlers.c:113-146 | acknowledging every piece brings type 5 after one acknowledgement a piece |
| Getd.RefusalLosesNothing | requestHandlers.c:24-36 | a request refused with the session still at 4 changes nothing |
| Getd.PieceInStep | requestHandlers.c:157-176 | a piece sent is the next 4096 bytes; a short one, possibly empty, is the last |
| Getd.StepKeeps | main.c:61-91 | every turn of the loop keeps stream, file position and history in step |
| Getd.AckStep | requestHandlers.c:113-146 | a good acknowledgement is answered with the next piece, or at the end with type 5 |
| Getd.WellFormed0 | requestVerify.c:13-28 | the additive code is 0 exactly for a right message length and a counted name |
| Getd.WellFormed6 | requestVerify.c:47-79 | an acknowledgement passes exactly when its length is right and its id is null-terminated, counted, at most 128 long and the session's |
| Dialogue.EveryAnswer | requestHandlers.c:24-146 | in every run, whatever is asked in whatever order, each reply is decided by its request and the exchanges before it: type 1 exactly for a well-formed type 0 request when no session is open; the first piece exactly for a well-formed type 3 request that comes right after the opening, carries the id drawn for it and names a regular file; the next piece, type 5 or silence exactly for a well-formed acknowledgement with that id, by the pieces sent so far; a file is accepted exactly when its first piece is sent |
| Dialogue.StateIsLast | requestHandlers.c:44-56 | in every run the id and the name held are those of the last session opened |
| Dialogue.AnswerStep | main.c:69-91 | one turn of the dispatch answers so and keeps track of it |
| Dialogue.Answer0 | requestHandlers.c:24-60 | the same of a type 0 request |
| Dialogue.Answer3 | requestHandlers.c:65-109 | the same of a type 3 request |
| Dialogue.Answer6 | requestHandlers.c:113-146 | the same of an acknowledgement |
| Dialogue.StrNEqIs | requestHandlers.c:74-74 | strncmp finds no difference exactly if the strings agree at every place up to the first null or the limit |
| Incoming.BeyondDecidesIff | requestVerify.c:31-43 | exactly when memory that nobody sent decides whether a path is accepted: no null in the buffer's part of the path, the rest of the request right, and a path length that can be reached only beyond |
| Incoming.OutsideIsIgnored | main.c:61-91 | in every other case what follows the buffer changes nothing, neither reply nor state |
| Incoming.CannotDecide | requestVerify.c:31-43 | outside those cases no memory changes the verdict |
| Incoming.RequestAt | main.c:61-66 | each turn sees the message over what earlier messages left in the buffer |
| Incoming.Parse0 | requests.h:18-27 | a type 0 request as requests.h lays it out is parsed as that request, whatever the buffer held |
| Incoming.Parse6 | requests.h:63-67 | and so is an acknowledgement |
| Incoming.Parse3 | requests.h:41-47 | a type 3 request is parsed with its lengths, its id and the first 3855 bytes of its path; the whole path exactly if what lies after the buffer happens to be the rest |
| Incoming.KindIs | main.c:65-89 | the first byte received decides which handler gets the message, and no other byte does |
| Incoming.ReceivedAt | main.c:63-63 | byte i of the buffer is byte i of the message, or what it was beyond the end of it |
| Daemon.Server.Turn | main.c:69-91 | one turn of the dispatch on the arrays, the stream and the reply buffer keeps the invariant over the whole history and is the step of the runs |
| Daemon.Server.Serve | main.c:61-91 | the loop over whatever arrives, received into the 4000-byte buffer that is never cleared, ends in the state of the run over the requests this amounts to, with the invariant kept |
| Daemon.Server.Listen | main.c:61-91 | one receipt into the buffer, short, over-long or failed, and the turn it leads to |
| Daemon.Server.Receive | main.c:63-63 | the message fills the buffer from its start, cut to its size; the rest keeps what was there |
| Daemon.Server.Type3Verify | requestVerify.c:31-43 | the checks in order, with the counting loop along the path; the loop leaves the buffer exactly if the specification says so |
| Daemon.Server.Dispatch | main.c:61-91 | the switch hands the request to the handler of its type and touches the history not |
| Daemon.Server.BuildType4 | requestHandlers.c:157-176 | the reply is the next 4096 bytes of the stream or what is left of it; the position moves past them, and the end is noted exactly on a short piece |
| Daemon.Server.Handle0 | requestHandlers.c:24-60 | strcpy and the drawing loop, character by character, store the name and the id the specification says, or note the overrun |
| Daemon.Server.Handle3 | requestHandlers.c:65-109 | only a request that passes every check, those of the dialogue, opens a stream; what is not a regular file is refused with the stream left open, else the first piece is sent |
| Daemon.Server.Handle6 | requestHandlers.c:113-146 | the next piece comes exactly while the end has not been read, then type 5 and the stream is closed |
| Daemon.Server.Type6Verify | requestVerify.c:47-79 | the counting loop and the additive codes compute the specified code |
| Daemon.Server.DrawSessionId | requestHandlers.c:50-56 | the loop from the end fills all 128 places, and a null follows |
| Daemon.Stream.Read | requestHandlers.c:161-162 | a byte-by-byte fread moves the next bytes of the file into the buffer, fewer exactly at the end |
| Daemon.StringsEqual | requestHandlers.c:74-74 | the comparison loop stops at the first difference or a common null, and decides equality of the strings |
| Daemon.StringCopy | requestHandlers.c:46-46 | the copying loop stores the string and its null, and overruns exactly if no null comes in time |
| Daemon.StringLength | requestVerify.c:19-19 | the counting loop finds the first null, or stops at the bound |
| Nanocat.ReadBack | nanomsg-1.1.5/tools/nanocat.c:402-451 | the quoted, hexadecimal and MessagePack output of any stream of messages reads back as exactly that stream |
| Nanocat.ReadEncoded | nanomsg-1.1.5/tools/nanocat.c:402-451 | one printed message is self-delimiting: it reads back whatever follows it |
| Nanocat.ReadWhole | nanomsg-1.1.5/tools/nanocat.c:404-424 | the escapes are unambiguous |
| Nanocat.ReadPacked | nanomsg-1.1.5/tools/nanocat.c:426-444 | the length prefixes of all three classes lead to the right bytes |
| Nanocat.Output.EchoQuoted | nanomsg-1.1.5/tools/nanocat.c:402-451 | the printing loop writes the encoding |
| Nanocat.Output.EchoMsgpack | nanomsg-1.1.5/tools/nanocat.c:426-444 | the length class and its bytes are written as encoded |
| Nanocat.Output.PutHead | nanomsg-1.1.5/tools/nanocat.c:427-441 | the shifted length bytes are big-endian |
| Options.FindLong | nanomsg-1.1.5/tools/options.c:605-644 | a long name resolves to the first exact match, else to the one option it abbreviates, else it is ambiguous or unknown |
| Options.ResolvesOnce | nanomsg-1.1.5/tools/options.c:605-644 | at most one result meets that description |
| Options.Compare | nanomsg-1.1.5/tools/options.c:622-640 | the character loop decides prefix and equality up to the equals sign |
| Options.ParseOptions | nanomsg-1.1.5/tools/options.c:748-780 | a command line is accepted exactly when it can be read, no option named after the program takes an argument, every use is allowed after those before it, and the final mask satisfies all requirements |
| Options.Pairwise | nanomsg-1.1.5/tools/options.c:389-393 | the mask test along a line is pairwise compatibility of later uses with earlier ones |
| Options.NoConflictPrefix | nanomsg-1.1.5/tools/options.c:389-393 | a line refused at some use is refused however it goes on |
| Options.DashesAreSkipped | nanomsg-1.1.5/tools/options.c:705-711 | "--" does not end the options: it is skipped and the loop goes on |
| Spelling.WrittenIsRead | nanomsg-1.1.5/tools/options.c:595-722 | uses spelled in any mixture of "--name", "--name=arg", "--name arg", unambiguous abbreviations, bundles of short options, "-xarg", "-x arg" and "--" are read as exactly those uses, in order, each with its own argument |
| Spelling.ReadIsWritten | nanomsg-1.1.5/tools/options.c:595-722 | every line that is read is spelled so |
| Spelling.ReadIffWritten | nanomsg-1.1.5/tools/options.c:595-722 | a line is read as given uses exactly if it is a spelling of them |
| Spelling.AcceptableIffWritten | nanomsg-1.1.5/tools/options.c:748-780 | a command line is accepted exactly if it is a spelling of uses that, after those the program name stands for, are allowed, do not conflict and leave no requirement open |
| Spelling.PieceRead | nanomsg-1.1.5/tools/options.c:705-722 | each piece is read as its uses whatever comes after it |
| Spelling.Arg0UsesAre | nanomsg-1.1.5/tools/options.c:542-552 | exactly the options named after the program are used, each once, in the order of the table |
| Spelling.BasenameIs | nanomsg-1.1.5/tools/options.c:534-539 | the program's name is what follows the last slash, or all of it |
| Options.Context.Process | nanomsg-1.1.5/tools/options.c:376-393 | a use is refused exactly when it conflicts or its value is bad; else its bits are set |
| Options.Context.GetArg | nanomsg-1.1.5/tools/options.c:595-603 | the next argument, if there is one |
| Options.Context.ParseOne | nanomsg-1.1.5/tools/options.c:643-662 | an option is used with the argument given with it, else with the next one, which is then used up, or is refused; that this is the argument meant is `Spelling.WrittenIsRead` |
| Options.Context.ParseLong | nanomsg-1.1.5/tools/options.c:605-668 | a long option does what the argument says or is refused |
| Options.Context.ParseShort | nanomsg-1.1.5/tools/options.c:670-702 | one short option of a bundle |
| Options.Context.ParseShorts | nanomsg-1.1.5/tools/options.c:715-719 | a bundle of short options, up to one that takes an argument |
| Options.Context.ParseArg | nanomsg-1.1.5/tools/options.c:705-722 | one argument |
| Options.Context.ParseNext | nanomsg-1.1.5/tools/options.c:772-774 | one turn of the loop over the arguments |
| Options.Context.ParseArgs | nanomsg-1.1.5/tools/options.c:772-774 | the loop processes exactly what the arguments say, or refuses |
| Options.Context.ParseArg0 | nanomsg-1.1.5/tools/options.c:528-553 | options named after the program are used first; refused exactly if the assertion that they take no argument fails or one of them is refused |
| Options.Context.CheckRequires | nanomsg-1.1.5/tools/options.c:724-746 | accepted exactly if every used option's requirements and the global ones are in the mask |

## Left out

- nn_chunk_realloc: on a trimmed chunk it returns the old pointer, and it copies from the untrimmed base; content is not preserved there.
- Trimming a chunk that other references share: `ChunkRef.Ref.Trim` and `Chunk.Chunk.Trim` speak of the one pointer they move; the size word is shared.
- MsgStore.MessagesConserved: message operations are sequences of reference operations on three named references; the three references of a message are not fields of one object.
- MsgHeap.Do: memory for a new chunk is there and its size does not wrap, which nn_chunkref_init and nn_chunkref_getchunk assert; what a user writes into a message through its pointer is not an operation.
- HashTable.Table.Insert: nn_cont, from a list item to the key and owner around it, is a map, and the array of lists is a sequence; that the key is new, which the loop of nn_hash_insert asserts, is a precondition.
- TimerSet.Set.Add: nn_cont, from a list item to the deadline beside it, is a map; nn_clock_ms is a parameter. A handle carries the number of its insertion, which the code does not have and never asks for.
- Socket.Sock.StopEndpoint: last_errno, addresses and options of endpoints are not modelled; nn_cont is a map from an embedded item to its endpoint, and what an event structure holds is a map from the structure.
- Lifetime.NoAbort: one socket; several sockets share only the descriptor table, which is module Descriptors. nn_sock_term never returns EINTR, so the branch of nn_close for it is not modelled, nor are nn_ctx_raiseto and the queue of external events.
- Teardown.CloseCanFinish: states that a schedule exists, not a fairness assumption under which it comes about.
- Socket.Sock.Leave: the onleave callback and the external events are left out.
- Timer.OwnerSeesProtocol: one timer; tasks of other timers in the same worker queue are left out, their order does not matter to it. nn_worker_cancel and the worker's own stop task are not modelled.
- Timer.TimeoutIsDue: the clock counts 64 bits, so a start whose deadline passes 2^64 is due as early as the code has it; that the clock does not go backwards is not assumed.
- Pipe.WakeupsBalance: one start of a pipe; nn_pipebase_stop and a second start are not modelled.
- Message.MvMsg: nn_device_rewritemsg always forwards, as the default does; the loops of nn_device_oneway and nn_device_forwarder repeat the same step for ever.
- Iovec.Scatter: buffers are values, so overlapping buffers are not modelled; the conversion of the returned size to int is left out.
- Layout.WalkMeetsAll: for control buffers of at most 2^63 bytes.
- Cmsg.Search: takes the number of turns as a parameter, because the loop need not end.
- Getd.TransferIsExact: the file does not change and reads do not fail; the text of error replies is left out; what an overrun user name overwrites is not modelled, only that it happened; that memory after the receive buffer can be read at all is assumed.
- Daemon.Server.Handle0: the 128 characters drawn for a session id are a parameter, and so are the file a path opens and the memory after the receive buffer; sending the reply is left out.
- Options.Context.Process: whether a value suits its option's type, and the printing of help, are one given predicate; where the value is stored is not modelled. Masks are sets of bits.
- Options.ParseOptions: the C code prints a message and exits where this returns false.
- Nanocat.Output.EchoQuoted: isprint is that of the C locale; the raw and ASCII formats do not keep message boundaries and are left out.
- Pollers, usock, efd, threads, mutexes, semaphores, condition variables, sleep: operating-system calls; locks are the boundaries of steps and semaphores are counts.
- Transports and scalability protocols: environments that act when they like, under the assumptions above.
- nn_poll, symbol and option tables, statistics, error strings, demos and performance programs, help text, Windows variants: tables, wrappers and user interface.
