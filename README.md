# sysprog core, modelled and verified in Dafny

A model of the sequential core of the systems-programming exercises in this repository,
with the properties the code promises proved about it. Each source file of the core becomes
one module:

- `CoroBus` (corobus.dfy), for 1/corobus.c: the coroutine channel bus: a table of bounded FIFO channels of `unsigned` values, each with a FIFO wake-up queue of senders and one of receivers; open, close, try-send, try-receive, the blocking send and receive as one step each plus the step a woken coroutine takes, and the all-or-nothing try-broadcast.
- `ByteBuffer` (buffer.dfy), for 5/buffer.c: the growable byte buffer: init, free, doubling growth, append with a NUL terminator, consume with a shift.
- `UserFs` (userfs.dfy), for 3/userfs.c: the in-memory file system: files made of 512-byte blocks, a file list with reference counts and deferred deletion, a growable descriptor table with a block/offset cursor per descriptor; open, write, read, close and delete with their error codes.
- `ChatServer` (chat_server.dfy), for 5/chat_server.c: the chat server's peer array (bounded add, order-preserving remove), broadcast into every other peer's output buffer, input framing, `feed`, `get_events` and the output-drain bookkeeping.
- `ChatClient` (chat_client.dfy), for 5/chat_client.c: the chat client's argument checks and `host:port` split, the interest mask and event bits, input framing, `feed`, and the teardown and return logic of `update`.
- `Framing`, `MessageQueue` (framing.dfy, msgqueue.dfy), for 5/chat_server.c, 5/chat_client.c: the newline framing and the linked FIFO message queue the server and client share.
- `Chat` (chat.dfy), for 5/chat_server.c, 5/chat_client.c: the result codes and event bits the chat code shares.
- `ThreadPool` (thread_pool.dfy), for 4/thread_pool.c: the thread pool as a state machine over task statuses: push, a worker taking a task, a worker finishing it, join, detach, task delete, pool creation and pool delete.
- `Shell` (shell.dfy), for 2/solution.c: `unquote` and `exec_exit`.
- `ChatServerExe` (port.dfy), for 5/chat_server_exe.c: `port_from_str`.
- `Decimal` (decimal.dfy): the decimal grammar of the C library's `strtol` and `atoi`, as specification functions.
- `Common` (common.dfy): `Option`, bytes and 32-bit words.

Objects whose fields the C code updates in place are classes (`Bus` and `Channel`, `Buffer`,
`FileSystem` and `File`, `Server` and `Peer`, `Client`, `Queue` and `Node`, `Pool` and
`Task`). Each class keeps a `Valid()` invariant. Each method states its new state in terms of
specification functions of the old state, and the lemmas beside those functions prove what
the code promises: round trips, FIFO order, bounds and the outcome of every error path.

Sockets, epoll, name resolution, `send` and `recv` results, coroutine switches and threads
are not run. Their outcomes are parameters of the methods that use them.

## Model

| member | source | states |
|---|---|---|
| ByteBuffer.GrownCapacityFits | 5/buffer.c:31-33 | the doubling loop reaches the needed size and never shrinks; starting below the target it ends under twice the target, or at the initial 1024 |
| ByteBuffer.Consumed | 5/buffer.c:57-67 | consuming never lengthens the data and keeps the processed mark within it |
| ByteBuffer.ConsumeUndoesPrefix | 5/buffer.c:44-71 | consuming exactly the bytes that were there before an append leaves the appended bytes, with the processed mark back at 0 |
| ByteBuffer.ConsumeAdds | 5/buffer.c:55-71 | two consumes in a row are one consume of the sum of their counts |
| ByteBuffer.Buffer.constructor | 5/buffer.c:4-13 | an initialised buffer is empty, NUL-terminated, with the requested capacity |
| ByteBuffer.Buffer.Free | 5/buffer.c:16-23 | a freed buffer has no allocation and every counter is 0 |
| ByteBuffer.Buffer.EnsureSpace | 5/buffer.c:26-41 | nothing changes when the bytes fit; otherwise the capacity doubles (from 1024 when 0) until `needed` more bytes fit, and the old bytes are kept |
| ByteBuffer.Buffer.Append | 5/buffer.c:44-52 | the new bytes follow the old ones, a NUL follows them, and the capacity is the grown one |
| ByteBuffer.Buffer.Put | 5/buffer.c:48-50 | the copy into reserved space appends the bytes and touches nothing past them |
| ByteBuffer.Buffer.Consume | 5/buffer.c:55-71 | the buffer's view after the call is `Consumed` of the view before it: the first `count` bytes are gone and the processed mark moves back by as much, not below 0 |
| Decimal.Strtol | 5/chat_server_exe.c:18 | the end index lies within the string, the value fits a `long`, and ERANGE comes only with a clamped value |
| Decimal.Atoi | 2/solution.c:74 | the result of `atoi` is a 32-bit int |
| Decimal.DigitsValueOfDecimal | 5/chat_server_exe.c:18 | reading back the decimal spelling of a number gives the number |
| Decimal.StrtolReadsNumber | 5/chat_server_exe.c:18 | white space, a sign and digits followed by a non-digit are read to the end of the digits, with the value clamped to `long` and ERANGE exactly when clamped |
| Decimal.StrtolShape | 5/chat_server_exe.c:18 | whenever `strtol` consumes anything, what it consumed is white space, a sign and at least one digit, and its value is theirs, clamped |
| ChatServerExe.PortFromStr | 5/chat_server_exe.c:14-27 | an accepted port lies in 0..65535, the whole string was consumed, and the port is the value read |
| ChatServerExe.PortFromStrAccepts | 5/chat_server_exe.c:14-27 | every spelling of a number in 0..65535, with leading white space and a sign, is accepted with its value |
| ChatServerExe.PortFromStrRejectsTrailing | 5/chat_server_exe.c:21-22 | a number followed by anything but the terminator is refused |
| ChatServerExe.PortFromStrRejectsLarge | 5/chat_server_exe.c:23-24 | a number above 65535 is refused |
| ChatServerExe.PortFromStrShape | 5/chat_server_exe.c:14-27 | an accepted string is white space, a sign and the digits of the port; the only accepted string without digits is the empty one, read as 0 |
| ChatServerExe.PortFromEmpty | 5/chat_server_exe.c:16-25 | the empty string passes every check and yields port 0 |
| Shell.ExecExitCodes | 2/solution.c:69-80 | `exit` returns 0 without arguments, -1 with more than one, and the number itself with one argument spelling a 32-bit integer |
| Shell.AtoiOfInt | 2/solution.c:74 | `atoi` of a string whose `strtol` value fits 32 bits is that value |
| Shell.ScanBounds | 2/solution.c:92-100 | the loop emits at most one character per input character and never a NUL |
| Shell.Unquote | 2/solution.c:84-102 | the imperative copy loop returns `UnquoteSpec` of the word, no longer than the word |
| Shell.UnquoteDropsEdgeQuotes | 2/solution.c:93-94 | quotes at the first and last position are dropped, matched or not, and a word without quotes or backslashes comes back unchanged |
| Shell.UnquoteOfQuoted | 2/solution.c:84-102 | a word quoted with `"` or `'`, its backslashes and that quote escaped, comes back as the word |
| Shell.ScanEscaped | 2/solution.c:95-96 | a backslash before the opening quote or before a backslash emits the second character only |
| Shell.UnquoteOfBare | 2/solution.c:84-102 | a word that does not open with a quote comes back as `Bare` of it: only a doubled backslash is an escape and only a quote in the last position is dropped |
| Shell.ScanBare | 2/solution.c:92-100 | from any position, the loop over a word that does not open with a quote emits `Bare` of the rest |
| Shell.BareKeepsEscapedQuote | 2/solution.c:89-96 | in a word that does not open with a quote, a backslash before a quote is not an escape: both are kept |
| Framing.NewlineFromFinds | 5/chat_server.c:352-354 | the `memchr` search stops at the first newline and skips only non-newlines |
| Framing.FramedLinesFrom | 5/chat_server.c:351-381 | the lines cut from the input, each framed again with its newline, are exactly the input up to its last newline |
| Framing.FramingSplits | 5/chat_server.c:351-384 | cutting loses nothing: framed lines followed by the pending bytes give back the input, and the pending bytes hold no newline |
| Framing.LinesOfFramed | 5/chat_client.c:318-345 | cutting framed newline-free messages followed by a partial line gives back the messages and leaves the partial line |
| Framing.FramedSnoc | 5/chat_server.c:328-330 | framing one more message appends it and a newline |
| Framing.ScanStep | 5/chat_server.c:351-381 | one pass of the receive loop, cutting the line that ends at the next newline, keeps the loop's state |
| Framing.ScanDone | 5/chat_server.c:352-354 | where the loop finds no more newline it has cut every line, and the partial line starts at its position |
| Framing.CStr | 5/chat_server.c:314 | `strlen` gives the bytes before the first NUL, which hold no NUL |
| MessageQueue.Tagged | 5/chat_server.c:61 | every queued message carries the same `is_server_message` flag and its line |
| MessageQueue.Queue.Push | 5/chat_server.c:52-68 | the message is appended at the tail and the old contents stay ahead of it |
| MessageQueue.Queue.Pop | 5/chat_server.c:71-83 | an empty queue gives NULL; otherwise the oldest message is returned and removed |
| ChatClient.Interest | 5/chat_client.c:76-117 | a mask is registered exactly while connecting or connected; it always has edge-triggering and peer hang-up, output exactly while connecting or with unsent bytes, input exactly once connected, and no other bit |
| ChatClient.EventsOf | 5/chat_client.c:555-573 | no events before a connection starts; input exactly once connected; output while connecting, or while connected with unsent bytes |
| ChatClient.LastIndexOf | 5/chat_client.c:197 | `strrchr` finds the last occurrence, with none after it, and reports none only when the character is absent |
| ChatClient.SplitAddress | 5/chat_client.c:196-204 | a split address is host, ':' and port, both non-empty and the port without ':' |
| ChatClient.SplitAddressOfJoin | 5/chat_client.c:196-204 | every non-empty host joined by ':' to a non-empty port without ':' splits back into the two |
| ChatClient.FirstWorking | 5/chat_client.c:220-257 | the address kept is the first whose socket, connect and registration all succeed; none is kept only when none of them succeeds |
| ChatClient.Remaining | 5/chat_client.c:376-391 | after error or hang-up bits no input or output is handled; after a peer hang-up neither is; otherwise both are kept |
| ChatClient.Client.constructor | 5/chat_client.c:120-153 | a new client has no socket, no connection, no error and empty queue and buffers |
| ChatClient.Client.PopNext | 5/chat_client.c:61-74 | an empty queue gives NULL; otherwise the oldest message is returned and removed |
| ChatClient.Client.UpdateEvents | 5/chat_client.c:76-117 | without a socket the call fails and unregisters; with nothing to wait for it unregisters and succeeds; otherwise it registers `Interest` of the state and records the outcome of `epoll_ctl` in the last error |
| ChatClient.Client.Connect | 5/chat_client.c:183-270 | a null address is an invalid argument and a started client already started, both changing nothing; an address that does not split is an invalid argument and a failed resolution a system error; otherwise the first working address is kept, or the client ends without a socket and with a system error |
| ChatClient.Client.TryAddresses | 5/chat_client.c:219-266 | after the loop the socket belongs to `FirstWorking` of the addresses, or there is none |
| ChatClient.Client.TryAddress | 5/chat_client.c:221-256 | an address is kept exactly when it connects or starts to and its registration succeeds; otherwise its socket is closed and the flags cleared |
| ChatClient.Client.Attempt | 5/chat_client.c:226-250 | a connected or connecting socket is kept exactly when its registration succeeds, with the flags of its phase set |
| ChatClient.Client.CheckConnection | 5/chat_client.c:273-306 | with no connection under way it is a system error and nothing changes; otherwise the attempt ends and the client is connected exactly when the socket reports no error and the registration succeeds |
| ChatClient.Client.DrainOutput | 5/chat_client.c:397-440 | accepted bytes count as processed; a failed send is a system error; blocking turns `needs_write` on; a fully sent buffer is emptied and `needs_write` turned off |
| ChatClient.Client.ReceiveInput | 5/chat_client.c:444-493 | received chunks go to the end of the input buffer; a failed receive is a system error and queues nothing; otherwise the complete lines are queued |
| ChatClient.Client.ReadChunks | 5/chat_client.c:450-460 | the input buffer grows by the received chunks, in order |
| ChatClient.Client.Teardown | 5/chat_client.c:495-508 | after an error the socket is closed and unregistered, every connection flag cleared and the error recorded |
| ChatClient.Client.HandleEvents | 5/chat_client.c:376-493 | the event handling ends in success or a recorded system error; without readable bits nothing is received, and a successful read of some chunks queues the complete lines of the input plus the chunks and keeps only the partial last line; on a connected client that is only writable and readable the unsent output is drained: a failed send is a system error, blocking keeps the unsent bytes, and a full send empties the buffer |
| ChatClient.Client.CheckHangUp | 5/chat_client.c:376-391 | error or hang-up bits settle a connection in progress or fail; a peer hang-up fails; the bits left are `Remaining` of the events |
| ChatClient.Client.HandleWritable | 5/chat_client.c:393-442 | a connection in progress ends, failing unless the socket is established and re-registered; a client then connected with unsent output drains it: a failed send is a system error, blocking keeps the unsent bytes and turns `needs_write` on, a full send empties the buffer and turns it off, each reporting whether the registration must follow; with neither nothing changes |
| ChatClient.Client.Update | 5/chat_client.c:351-545 | a client that never started reports its last error or not-started; an interrupted wait is success, a failed wait a system error, an empty wait a timeout; otherwise a failure tears the connection down and the result is success exactly when a message, input or unsent output is pending; received lines are queued as `HandleEvents` says and unsent output drained, a failed send ending in a system error |
| ChatClient.Client.Settle | 5/chat_client.c:495-544 | an error, or a failed re-registration, tears down and is returned; otherwise the result is success exactly when a message, input bytes or unsent output are pending, and a timeout when nothing is |
| ChatClient.Client.Feed | 5/chat_client.c:576-608 | a null or empty message is refused; a client that never started reports its last error or not-started; a sticky error other than timeout is repeated; otherwise the bytes join the output verbatim, the buffer grown for them and a NUL without a 32-bit wrap, and `needs_write` is set |
| ChatClient.FeedSpaceAsWritten | 5/chat_client.c:588 | as written the space asked for is `msg_size + 1` modulo 2^32: one more than the size, except 0 at the largest size |
| ChatClient.FeedOverrunsAsWritten | 5/chat_client.c:588-591 | at `msg_size` 0xFFFFFFFF the request is 0, a buffer under 4 GiB is not grown, and the message and its NUL run past the allocation |
| ChatClient.Client.ProcessInputBuffer | 5/chat_client.c:309-347 | every complete line of the input is queued in order without its newline, and only the partial last line stays in the buffer |
| ChatClient.Client.QueueLines | 5/chat_client.c:318-342 | the loop queues `Lines` of the bytes and returns how many bytes they and their newlines take |
| ChatServer.GrownPeerCapacityFits | 5/chat_server.c:153-164 | growing a full array from 0 gives 16, then doubles; below `MAX_PEERS` (1024) it grows and never passes that bound |
| ChatServer.CStrs | 5/chat_server.c:314 | every broadcast line is sent up to its first NUL |
| ChatServer.OutgoingRoundTrip | 5/chat_server.c:312-340 | a peer that cuts the broadcast bytes into lines gets back the lines broadcast, when they hold no NUL |
| ChatServer.WithoutKeepsOthers | 5/chat_server.c:179-193 | removing a peer from an array without repetitions keeps every other peer and only those, still without repetitions, one shorter when the peer was there |
| ChatServer.WithoutAt | 5/chat_server.c:179-193 | the `memmove` at the first position holding the peer gives the array without it; without such a position the array is unchanged |
| ChatServer.SendAll | 5/chat_server.c:402-429 | the send loop never counts more accepted bytes than were unsent, and stops with everything sent exactly when everything was accepted |
| ChatServer.DrainedKeepsUnsent | 5/chat_server.c:402-445 | after a send loop that keeps the peer, the bytes still to send are exactly those not accepted, and the write flag is set exactly when some are left |
| ChatServer.SentUpToStep | 5/chat_server.c:317-339 | passing one more peer in the broadcast loop changes that peer's state and no other |
| ChatServer.SentUpToSource | 5/chat_server.c:319-320 | the source of a broadcast is passed over unchanged |
| ChatServer.SentEachDelivers | 5/chat_server.c:312-340 | broadcasting several lines leaves the source as it was and gives every other peer the lines, each with a newline and in order, after its pending bytes, marking it as needing a write; a peer that had nothing to write is re-registered once, by the first line, and its registration flag is what its epoll answer gives |
| ChatServer.MarkedNeverFail | 5/chat_server.c:333-338 | once a broadcast has marked every destination as needing a write, later broadcasts re-register nobody, so none of their registrations fails, whatever epoll would answer |
| ChatServer.FirstError | 5/chat_server.c:673-675 | keeping the first error of a run of broadcasts fails exactly when the first broadcast's registrations fail |
| ChatServer.Peer.constructor | 5/chat_server.c:114-133 | a new peer holds its socket, is unregistered, needs no write and has empty buffers |
| ChatServer.Peer.UpdateEvents | 5/chat_server.c:86-111 | a peer without a socket fails and keeps its registration flag; a registered peer whose `EPOLL_CTL_DEL` fails other than with `ENOENT` fails and stays registered; otherwise the call succeeds, and the peer ends registered, exactly when `EPOLL_CTL_ADD` succeeds |
| ChatServer.ReregisteredMeans | 5/chat_server.c:86-111 | a successful re-registration leaves the peer registered; a failed one leaves it registered only when it was registered and the call returned before its ADD |
| ChatServer.Peer.Deliver | 5/chat_server.c:322-338 | the text and a newline go after the output bytes and the peer is marked as needing a write; a peer that had nothing to write is re-registered as its own epoll answer decides, its registration flag being the outcome, and the step fails exactly when that re-registration fails |
| ChatServer.Peer.Send | 5/chat_server.c:403-429 | the send loop moves only the processed mark, by the bytes accepted, as `SendAll` says |
| ChatServer.Peer.Flush | 5/chat_server.c:402-445 | a drained buffer is emptied and the write flag cleared, a partly sent one keeps the flag set, and whether the flag changed is reported |
| ChatServer.Server.constructor | 5/chat_server.c:199-226 | a new server does not listen, has no peers, no capacity, an empty queue and an empty input buffer |
| ChatServer.Server.Listen | 5/chat_server.c:260-309 | a listening server is refused with already-started; otherwise the server listens on the bound socket, or reports a system error with no socket |
| ChatServer.Server.PopNext | 5/chat_server.c:71-83 | an empty queue gives NULL; otherwise the oldest message is returned and removed |
| ChatServer.Server.GetEvents | 5/chat_server.c:610-625 | no events while not listening; otherwise input, and output exactly when some peer has bytes in its output buffer |
| ChatServer.Server.AddPeer | 5/chat_server.c:151-169 | refused exactly when `MAX_PEERS` peers are there; otherwise the peer goes after the others and a full array grows as `GrownPeerCapacity` says |
| ChatServer.Server.RemovePeer | 5/chat_server.c:172-196 | the peer leaves the array, the later peers shifted down in order; an absent peer leaves the array unchanged |
| ChatServer.Server.RemoveAt | 5/chat_server.c:184-189 | the peers after the position move down by one |
| ChatServer.Server.IndexOf | 5/chat_server.c:179-180 | the search finds the first position holding the peer, or the end |
| ChatServer.Server.Broadcast | 5/chat_server.c:312-340 | every peer but the source gets the text and a newline and is marked as needing a write; each one that had nothing to write is re-registered with its own epoll answer, which sets its registration flag; the result is a system error exactly when one of those re-registrations fails |
| ChatServer.Server.BroadcastStep | 5/chat_server.c:317-339 | one pass of the broadcast loop advances the peers' states to `SentUpTo` one more peer and keeps the error exactly when some registration so far failed |
| ChatServer.Server.DeliverAt | 5/chat_server.c:322-338 | delivering to one peer changes its state and no other peer's |
| ChatServer.Server.HandleWritable | 5/chat_server.c:402-445 | a peer whose connection closed, was reset or failed is removed, only the failure giving a system error; any other has its unsent bytes and write flag updated as `Drained` says |
| ChatServer.Server.FlushAt | 5/chat_server.c:402-445 | flushing one peer changes its state and no other peer's |
| ChatServer.Server.RelayLines | 5/chat_server.c:645-681 | every complete line is queued with the message flag and broadcast in order up to its first NUL; the result is a system error exactly when there is a line and some registration fails |
| ChatServer.Server.RelayFrom | 5/chat_server.c:645-681 | the loop runs until no newline is left after the position, keeping the loop's state: the lines cut so far are queued and broadcast, with the first error kept |
| ChatServer.RelayedStep | 5/chat_server.c:646-680 | queuing the line up to the next newline and broadcasting it moves the loop's state past that newline, keeping the first broadcast error |
| ChatServer.Server.Enqueue | 5/chat_server.c:52-68 | the message goes to the back of the queue and no peer changes |
| ChatServer.Server.BroadcastLine | 5/chat_server.c:673-675 | broadcasting one more line keeps the first error and leaves the queue alone |
| ChatServer.Server.RelayLine | 5/chat_server.c:646-680 | one pass of the line loop queues the line and broadcasts it, keeping the loop's state |
| ChatServer.Server.ProcessPeerInput | 5/chat_server.c:343-387 | the peer's complete lines are queued as client messages and broadcast to every other peer in order, and only the partial last line stays in its input |
| ChatServer.Server.ConsumeInput | 5/chat_server.c:383-384 | consuming a peer's input changes no peer's output |
| ChatServer.Server.Feed | 5/chat_server.c:628-687 | a null or empty message is refused, a server not listening is not started, and otherwise the bytes join the pending input, whose complete lines are queued as server messages and broadcast to every peer; the result is a system error exactly when there is a line and a re-registration fails |
| ChatServer.Server.FeedBytes | 5/chat_server.c:636-686 | after the checks, the lines of the pending input plus the bytes are relayed and only the partial last line stays |
| ChatServer.Server.AppendInput | 5/chat_server.c:636-637 | the bytes join the server's input and no peer changes |
| ChatServer.Server.ConsumeServerInput | 5/chat_server.c:683-684 | what is left of the server's input is what follows the consumed bytes |
| CoroBus.First | 1/corobus.c:98-105 | the coroutine woken is the head of the queue, and there is one exactly when the queue is not empty |
| CoroBus.Unlinked | 1/corobus.c:93 | unlinking an absent coroutine changes nothing, a present one shortens the queue by one, and the head unlinks to the tail |
| CoroBus.UnlinkedRemovesOne | 1/corobus.c:93 | unlinking takes exactly one entry of the coroutine out of the queue and no other coroutine's |
| CoroBus.ApplyIsFifo | 1/corobus.c:283-364 | one non-blocking call takes from the head of the channel or adds at its tail, never both |
| CoroBus.RanIsFifo | 1/corobus.c:283-364 | over any series of `try_send`/`try_recv`, what was received followed by what is left equals what was there followed by what was sent: the channel is first-in first-out |
| CoroBus.RanWithinLimit | 1/corobus.c:292-297 | no series of non-blocking calls takes a channel past its limit or changes the limit |
| CoroBus.BroadcastIsTrySendEach | 1/corobus.c:440-450 | a broadcast over a table with room everywhere does to each open channel what `try_send` would, and keeps each within its limit |
| CoroBus.AppendedUpTo | 1/corobus.c:440-450 | after the first slots are passed, exactly the open ones among them have the value at their tail, and the rest are unchanged |
| CoroBus.AppendedStep | 1/corobus.c:441-449 | passing one more slot changes that slot only |
| CoroBus.OpenAfterCloseAliases | 1/corobus.c:175-252 | as written, open, open, close of handle 0, open hands out handle 1 a second time while it is still open |
| CoroBus.ResumeAfterCloseContinues | 1/corobus.c:264-272 | as written, a coroutine woken by the close of its own channel while another channel of the bus stays open does not fail, and goes round its loop on the freed channel |
| CoroBus.Channel.constructor | 1/corobus.c:182-199 | a new channel has the given limit, no values and empty wake-up queues |
| CoroBus.Channel.Push | 1/corobus.c:297-300 | the value joins the tail and the first waiting receiver is woken |
| CoroBus.Channel.Pop | 1/corobus.c:354-361 | the oldest value is taken, the rest keep their order, and the first waiting sender is woken |
| CoroBus.Channel.Suspend | 1/corobus.c:87-92 | the caller joins the tail of the queue of its side |
| CoroBus.Channel.Unlink | 1/corobus.c:93 | the woken caller's first entry leaves the queue of its side |
| CoroBus.Channel.WakeAll | 1/corobus.c:224-236 | every sender, then every receiver, is woken in queue order, and both queues end empty |
| CoroBus.Bus.State | 1/corobus.c:120-124 | the table holds, slot by slot, the state of each open channel and `None` for a closed one |
| CoroBus.Bus.constructor | 1/corobus.c:141-154 | a new bus has no channels |
| CoroBus.Bus.Open | 1/corobus.c:175-214 | a zero limit fails with `NO_CHANNEL` and changes nothing; otherwise a new empty channel with that limit takes a new slot at the end, under a handle no open channel has |
| CoroBus.Bus.Close | 1/corobus.c:217-252 | a negative handle or a bus with no open channel is ignored; otherwise every waiting sender, then receiver, is woken in order, the error becomes `NO_CHANNEL` when anyone was woken, and the slot closes |
| CoroBus.Bus.PushAt | 1/corobus.c:297-300 | appending to one open channel with room changes that channel only and wakes its first receiver |
| CoroBus.Bus.PopAt | 1/corobus.c:354-361 | taking from one non-empty open channel changes that channel only and wakes its first sender |
| CoroBus.Bus.SuspendAt | 1/corobus.c:264-324 | the caller joins a wake-up queue of one open channel; nothing else changes |
| CoroBus.Bus.UnlinkAt | 1/corobus.c:93 | the caller leaves a wake-up queue of one open channel; nothing else changes |
| CoroBus.Bus.TrySend | 1/corobus.c:283-303 | a negative handle or a bus with no open channel fails with `NO_CHANNEL`, a full channel with `WOULD_BLOCK`, both changing nothing; otherwise the value joins the tail and the first receiver is woken |
| CoroBus.Bus.TryRecv | 1/corobus.c:339-364 | a negative handle or no open channel fails with `NO_CHANNEL`, an empty channel with `WOULD_BLOCK`, both changing nothing; otherwise the oldest value is returned, the rest keep their order, and the first sender is woken |
| CoroBus.Bus.Send | 1/corobus.c:255-280 | on a full channel the caller joins the tail of the send queue and suspends; otherwise the value goes in and the first receiver is woken |
| CoroBus.Bus.Recv | 1/corobus.c:306-336 | on an empty channel the caller joins the tail of the receive queue and suspends; otherwise the oldest value is taken and the first sender is woken |
| CoroBus.Bus.Resume | 1/corobus.c:264-324 | a woken caller unlinks its entry, then fails with `NO_CHANNEL` exactly when its own channel has been closed; otherwise its call goes round its loop again |
| CoroBus.Bus.TryBroadcast | 1/corobus.c:420-453 | a bus with no open channel fails with `NO_CHANNEL`; if any open channel is full it fails with `WOULD_BLOCK` before anything changes; otherwise every open channel gets the value and wakes its first receiver |
| CoroBus.Bus.AllHaveRoom | 1/corobus.c:429-438 | the first loop finds room exactly when no open channel is full |
| CoroBus.Bus.AppendAll | 1/corobus.c:440-452 | the second loop appends the value to every open channel, wakes each one's first receiver, and counts a send exactly when some channel is open |
| CoroBus.Bus.AppendStep | 1/corobus.c:441-449 | one pass of the second loop keeps its state |
| CoroBus.Bus.AppendOpen | 1/corobus.c:445-449 | at an open slot the value goes in, one send is counted and the first receiver is woken |
| CoroBus.Bus.ClosedSlotPassed | 1/corobus.c:442-443 | the second loop skips a closed slot and keeps its state |
| ThreadPool.StepKeepsSound | 4/thread_pool.c:60-377 | one step of the status table keeps a task's life sound, and a step that frees the task finds it neither freed already nor held by the pool, unless it is the worker's own last step |
| ThreadPool.RunIsSound | 4/thread_pool.c:60-377 | along any series of enabled steps the pool never holds a freed task, and a task is freed at most once, and not at all if it was freed before |
| ThreadPool.Task.constructor | 4/thread_pool.c:235-260 | a new task is `TASK_NEW`, held by nobody and not freed |
| ThreadPool.Task.PickUp | 4/thread_pool.c:66-73 | a worker takes the task: it runs unless its owner detached it, and the worker holds it |
| ThreadPool.Task.Join | 4/thread_pool.c:283-311 | a task that is new, detached or joined gives `TASK_NOT_PUSHED`; a finished one becomes joined and hands over its result; one still in the pool makes the caller wait |
| ThreadPool.Task.Rejoin | 4/thread_pool.c:300-306 | once signalled, a finished task becomes joined and a finished or joined one hands over its result; the caller waits on for any other |
| ThreadPool.Task.Detach | 4/thread_pool.c:341-377 | the new status, error and freeing are those of the status table: a detached task stays so, a new or joined one gives `TASK_NOT_PUSHED`, a finished one is freed, one in the pool becomes detached |
| ThreadPool.Task.Delete | 4/thread_pool.c:314-338 | a detached task is left to its worker, a new or joined one is freed, one in the pool gives `TASK_IN_POOL` |
| ThreadPool.Pool.constructor | 4/thread_pool.c:145-150 | a new pool has its thread limit, no workers, an empty queue and is not shutting down |
| ThreadPool.Pool.ThreadCount | 4/thread_pool.c:155-159 | the number of workers started never exceeds `max_threads` |
| ThreadPool.Pool.Push | 4/thread_pool.c:202-232 | no task gives `INVALID_ARGUMENT`, a full queue `TOO_MANY_TASKS`, a task neither new nor joined `TASK_IN_POOL`, all changing nothing; otherwise the task joins the tail of the queue as pushed, and a worker is started when fewer than `max_threads` exist and all are busy |
| ThreadPool.Pool.Enqueue | 4/thread_pool.c:219-220 | the task is marked pushed and joins the tail of the queue |
| ThreadPool.Pool.Take | 4/thread_pool.c:60-75 | a worker takes the oldest task, the rest move up in order, the task runs unless detached, and one more worker is busy |
| ThreadPool.Pool.Dequeue | 4/thread_pool.c:60-64 | the oldest task leaves the queue and the rest keep their order |
| ThreadPool.Pool.ShiftLeft | 4/thread_pool.c:61-62 | every queued task but the first moves one slot toward the front; the slots past the queue are untouched |
| ThreadPool.Pool.Finish | 4/thread_pool.c:82-101 | the result is recorded; a running task becomes finished, a detached one is freed by the worker; the worker is idle again |
| ThreadPool.Pool.Exit | 4/thread_pool.c:54-57 | an idle worker of a pool shutting down stops, and one fewer worker exists |
| ThreadPool.Pool.Delete | 4/thread_pool.c:162-199 | a pool with queued tasks or busy workers gives `HAS_TASKS` and stays usable; otherwise it shuts down and every worker stops |
| ThreadPool.NewPool | 4/thread_pool.c:107-153 | a thread limit outside 1..`TPOOL_MAX_THREADS` gives `INVALID_ARGUMENT` and no pool; otherwise an empty pool with that limit |
| UserFs.AddBlockKeeps | 3/userfs.c:138-162 | adding an empty block after a full last block keeps the file well formed, loses no byte and leaves the content as it was |
| UserFs.ContentAppend | 3/userfs.c:301-323 | the content of two runs of blocks laid end to end is the two contents concatenated |
| UserFs.FullBlocksLength | 3/userfs.c:292-296 | blocks that are all full hold exactly `BLOCK_SIZE` bytes each |
| UserFs.SizeIsLength | 3/userfs.c:292-296 | the size computed from the block count and the last block's occupied bytes is the length of the content |
| UserFs.Around | 3/userfs.c:301-323 | the content is the blocks before a block, that block, and the blocks after it, and the first part is exactly the bytes before the block's position |
| UserFs.CursorInContent | 3/userfs.c:102-116 | a descriptor's cursor within its block's occupied bytes stands within the file's content |
| UserFs.OverwrittenMeans | 3/userfs.c:301-323 | after a write at p the content is as long as the larger of the old length and the write's end, keeps the bytes before p and past the write, and holds the written bytes at p |
| UserFs.ReadAtMeans | 3/userfs.c:350-370 | a read at p returns as many bytes as asked for or as remain, whichever is fewer, each the content's byte at p onward |
| UserFs.OverwrittenThen | 3/userfs.c:301-323 | two writes where the second starts where the first ended equal one write of both pieces |
| UserFs.ReadAfterWrite | 3/userfs.c:268-374 | reading as many bytes as were written, from where they were written, gives back exactly those bytes |
| UserFs.WriteInBlock | 3/userfs.c:313-322 | copying a chunk into one block at an offset writes the file's content at that block position, and the file stays well formed and loses no byte |
| UserFs.Inside | 3/userfs.c:313-322 | overwriting inside one piece of a concatenation is overwriting the whole at that piece's offset |
| UserFs.BlockBytes | 3/userfs.c:358-368 | the occupied bytes of a block at an offset are the file's content at the matching position |
| UserFs.CursorStays | 3/userfs.c:102-116 | the cursors of other descriptors stay valid while a file only grows |
| UserFs.WriteStaysWithinMax | 3/userfs.c:292-296 | the size check on the cursor's block end plus the bytes to write keeps the whole file within `MAX_FILE_SIZE` |
| UserFs.Stored | 3/userfs.c:260 | a descriptor keeps the read and write bits of the open flags exactly and never the create bit |
| UserFs.OpenModes | 3/userfs.c:90-100 | no mode bit and `UFS_READ_WRITE` allow reading and writing, `UFS_READ_ONLY` forbids writing, `UFS_WRITE_ONLY` forbids reading |
| UserFs.File.constructor | 3/userfs.c:212-219 | a created file has its name, no blocks, no references and is not deleted |
| UserFs.File.AddBlock | 3/userfs.c:138-162 | an empty block joins the end of the file and nothing else of it changes |
| UserFs.File.WriteFrom | 3/userfs.c:301-323 | the copy loop writes the data into the content at the cursor's position, keeps the file well formed and every cursor valid, and leaves the cursor past the last byte written |
| UserFs.File.WriteStep | 3/userfs.c:302-322 | one pass of the copy loop copies at least one byte and keeps the loop's invariant |
| UserFs.WriteStepKeeps | 3/userfs.c:302-322 | moving to the next block (adding one after the last) and copying what fits keeps the copied prefix written at the start position of the content |
| UserFs.File.ReadFrom | 3/userfs.c:350-370 | the copy loop returns the content's bytes from the cursor's position, as many as asked for or as remain, and leaves the cursor past them |
| UserFs.ReadStep | 3/userfs.c:351-369 | one pass of the read loop either finds the last block exhausted at the end of the content or makes progress, keeping the loop's invariant |
| UserFs.RefsUpdate | 3/userfs.c:263 | replacing one slot of the descriptor table changes a file's open-descriptor count by what left and what entered that slot |
| UserFs.RefsZero | 3/userfs.c:389-392 | a file with no open descriptors has none in any slot |
| UserFs.RefsNone | 3/userfs.c:389-392 | a file that is in no slot has no open descriptors |
| UserFs.Lookup | 3/userfs.c:79-88 | the lookup finds the first file with the name that is not deleted, and finds nothing exactly when no such file is in the list |
| UserFs.Without | 3/userfs.c:164-185 | unlinking a file leaves every other file of the list and only those |
| UserFs.Grow | 3/userfs.c:239-249 | a full table grows to hold one more descriptor and to at most twice its capacity plus ten |
| UserFs.FileSystem.constructor | 3/userfs.c:13-77 | the file system starts with no files, no descriptors, no capacity and no error |
| UserFs.FileSystem.FindDesc | 3/userfs.c:129-136 | a descriptor is found exactly when its number is within the table and the slot holds one |
| UserFs.FileSystem.FindFile | 3/userfs.c:79-88 | returns the file the lookup names, or null when there is none |
| UserFs.FileSystem.FreeFile | 3/userfs.c:164-185 | the file leaves the list, and the descriptors and error code stay |
| UserFs.FileSystem.Open | 3/userfs.c:193-266 | a null name, or a missing file without `UFS_CREATE`, fails with no-file; otherwise the found file, or a new file at the head of the list, gets a descriptor appended to the table with its cursor at the start, and its reference count goes up by one |
| UserFs.FileSystem.SetError | 3/userfs.c:13 | the error code becomes the given one and nothing else changes |
| UserFs.FileSystem.Create | 3/userfs.c:203-226 | a fresh empty file with the name goes to the head of the list |
| UserFs.FileSystem.Attach | 3/userfs.c:239-265 | the table grows when full, the new descriptor takes the next number, and the file gains one reference |
| UserFs.FileSystem.NoDescOn | 3/userfs.c:164-185 | a file not in the list has no open descriptor |
| UserFs.FileSystem.OpenKeeps | 3/userfs.c:262-265 | appending a descriptor on a file adds one to its count and none to any other file's |
| UserFs.FileSystem.Write | 3/userfs.c:268-327 | a bad descriptor fails with no-file, a read-only one with no-permission, a write past `MAX_FILE_SIZE` with no-memory; otherwise the data is written into the content at the cursor, the cursor moves past it, and the byte count is returned |
| UserFs.FileSystem.FirstBlock | 3/userfs.c:279-287 | an empty file gets its first, empty block |
| UserFs.FileSystem.CopyIn | 3/userfs.c:298-326 | the data is written at the descriptor's cursor, the cursor moves past it, and the other descriptors keep their cursors |
| UserFs.FileSystem.Read | 3/userfs.c:329-374 | a bad descriptor fails with no-file, a write-only one with no-permission; an empty file gives nothing; otherwise the bytes at the cursor, as many as asked for or as remain, and the cursor moves past them |
| UserFs.FileSystem.MoveCursor | 3/userfs.c:316-319 | only the given descriptor's cursor changes |
| UserFs.FileSystem.Close | 3/userfs.c:376-395 | a bad descriptor fails with no-file; otherwise the slot is emptied, the file loses one reference, and a deleted file with no reference left is freed |
| UserFs.FileSystem.Release | 3/userfs.c:385-392 | the descriptor's slot is emptied and its file loses a reference, and leaves the list when it was deleted and is no longer referenced |
| UserFs.FileSystem.Delete | 3/userfs.c:397-416 | a null or unknown name fails with no-file; otherwise the file is marked deleted, freed at once when no descriptor is open on it, and no longer found by name |
| UserFs.FileSystem.Retire | 3/userfs.c:410-413 | the file is marked deleted, no file in the list answers to its name any more, and it is freed when unreferenced |
| UserFs.FileSystem.Unlist | 3/userfs.c:391-392 | a deleted file with no descriptor left leaves the list and the file system stays consistent |

## Left out

Coroutine bus (1/corobus.c):
- The coroutine runtime (`coro_suspend`, `coro_wakeup`, `coro_this`) is not run. A waiter is an id in a wake-up queue. A blocking send or receive ends its step when it suspends, and `CoroBus.Bus.Resume` is the step the woken coroutine takes next.
- The process-wide error cell is a value each call returns, or `None` when the call leaves it alone. The C code never resets it on success, and neither does the model.
- The blocking `coro_bus_broadcast` is not modelled. It is optional, and it suspends and retries across several channels. The non-blocking `coro_bus_try_broadcast` is modelled.
- `coro_bus_delete` is not modelled. It only frees the bus.
- The `NEED_BATCH` stubs at 1/corobus.c:457-507 only return not-implemented, so they are not modelled.
- CoroBus.Bus.Close: the closed slot becomes `None`. The C code instead frees the channel and leaves its pointer in the table, then shrinks the table with `realloc`, which drops the last slot rather than the closed one (1/corobus.c:238-250). Neither the dangling pointer nor the shrink is modelled.
- CoroBus.Bus.Send, CoroBus.Bus.Recv, CoroBus.Bus.TrySend, CoroBus.Bus.TryRecv, CoroBus.Bus.Close: the handle must name an open channel. The C code checks only that the handle is non-negative and that the table exists, and indexes the table without a bound check. A handle past the table is undefined behaviour, not an outcome.
- Allocation failures (`calloc`/`realloc` returning NULL in open) are not modelled.

Byte buffer (5/buffer.c):
- The allocation is a `seq<Byte>` of length `capacity`, and growing it reassigns it. So the aliasing of the old `data` pointer across `realloc` is not captured.
- A failed `realloc` is not modelled. Every growth succeeds.
- The bytes `realloc` adds are uninitialised in C. In the model they are 0, and no contract depends on their value.

File system (3/userfs.c):
- Blocks and files are sequences rather than linked lists, and a block is only its occupied bytes. Block memory and its release are not modelled.
- `ufs_destroy` is not modelled. It hands `file_list->next` to `free_file`, which dereferences NULL on a one-file list (3/userfs.c:420-424), so it has no contract worth stating.
- Allocation failures are not modelled: `malloc` in open and in `ufs_add_block`, and `realloc` of the descriptor table. The only no-memory error modelled is the `MAX_FILE_SIZE` check of write.
- The branch for a deleted file opened with `UFS_CREATE` (3/userfs.c:233-237) is not modelled. `find_file` never returns a deleted file (3/userfs.c:83), so the branch cannot be reached.
- The walk of `ufs_read` to the cursor's block returns 0 when it runs out of blocks (3/userfs.c:340-344). That is not modelled: a descriptor's cursor always names an existing block, so it cannot happen.
- A descriptor is a value in the table, and a read or write stores the moved cursor back into its slot. The C code updates the heap record in place, with the same observable effect.
- `int` and `size_t` widths are not modelled. Sizes are bounded by `MAX_FILE_SIZE` anyway.
- The flag values come from userfs.h, which is not part of this model. They are taken as `UFS_CREATE` = 1, `UFS_READ_ONLY` = 2, `UFS_WRITE_ONLY` = 4 and `UFS_READ_WRITE` = 8.
- UserFs.FileSystem.Open: the comment at 3/userfs.c:68-73 says a closed descriptor's slot can be taken by the next open. The code instead always appends and returns the old count. The model follows the code, so slots are never reused.

Chat server and client (5/chat_server.c, 5/chat_client.c):
- Sockets, epoll, `getaddrinfo`, `accept4`, `send` and `recv` are not run. Their results (descriptors, byte counts, `errno`) are parameters.
- The receive loops are not modelled: a received chunk is a parameter. `handle_listen_event` is not modelled, nor is the `chat_server_update(server, 0)` call inside `chat_server_feed` (5/chat_server.c:639).
- The floating-point timeout given to `epoll_wait` is not modelled.
- ChatServer.Server.RemovePeer: `peer_free` (closing the socket and freeing its buffers) is not modelled. The peer only leaves the array.
- The numeric values of the result codes and event bits come from chat.h, which is not part of this model. The codes are named values. `CHAT_EVENT_INPUT` = 1 and `CHAT_EVENT_OUTPUT` = 2.
- Allocation failures are not modelled: `malloc` of peers, messages and the peer array, and buffer growth.
- ChatServer.Peer.UpdateEvents: the test of the server's epoll descriptor (5/chat_server.c:88) is not modelled. A server exists only once `epoll_create1` has succeeded (5/chat_server.c:218-223), and only `chat_server_delete` sets the descriptor back to -1.
- ChatClient.Client.Feed: the model grows the buffer for `msg_size + 1` bytes computed without the 32-bit wrap of the C code. At `msg_size` 0xFFFFFFFF the C code overruns the buffer instead (see "## Findings"). The failure of that growth is not modelled either.

Thread pool (4/thread_pool.c):
- Threads, mutexes, condition variables and `__atomic_*` operations are not modelled. Each locked region is one atomic step.
- The task function is not run. Its result is a parameter of the finishing step.
- Who frees a task is the ghost flag `freed`.
- Allocation failures are not modelled. A failed `pthread_create` is: it is the `spawned` parameter of `ThreadPool.Pool.Push`, and no worker is added.
- A null pool, task or result pointer gives `TPOOL_ERR_INVALID_ARGUMENT` in the C code. The model has this outcome only for the task of `thread_pool_push_task`. Elsewhere the pool or task is the receiver of a method and cannot be null.
- `thread_pool_delete` checks the queue again after joining the workers (4/thread_pool.c:185-189). That check is not modelled: the delete is one atomic step that found the queue empty. Freeing the pool's memory is not modelled either.
- The limits come from thread_pool.h, which is not part of this model. They are taken as `TPOOL_MAX_THREADS` = 20 and `TPOOL_MAX_TASKS` = 100000.

Shell and server executable:
- The process plumbing of 2/solution.c is not modelled: `execute_pipeline`, `execute_command_line`, `main`, `exec_cd` and the commented-out versions. It is fork, exec, pipe and wait work.
- `main` of 5/chat_server_exe.c is not modelled. It is a poll loop over stdin and the server.
- `strtol` and `atoi` are library calls. `Decimal` gives them as specification functions over the decimal grammar: optional white space, an optional sign, then digits. `errno` is the range error that grammar implies.

## Findings

| source | as written | input that shows it | evidently intended | confidence | as-written member | corrected member |
|---|---|---|---|---|---|---|
| 1/corobus.c:212-241 | open returns `channel_count` as the new handle and close decrements the count, so a handle can be handed out while it is still open | open, open (handles 0 and 1), close 0, open: handle 1 again | a new handle never names a channel that is still open; the model appends a slot per open and never reuses a handle | high, not executed | CoroBus.OpenAfterCloseAliases | CoroBus.Bus.Open |
| 1/corobus.c:264-272 | a sender woken by `close` checks only that `bus->channels` is not NULL before looping on its channel, which close has freed | two open channels, a sender suspended on channel 0, close 0: the sender goes round its loop on freed memory | a woken sender or receiver fails with `CORO_BUS_ERR_NO_CHANNEL` exactly when its own channel was closed | high, not executed | CoroBus.ResumeAfterCloseContinues | CoroBus.Bus.Resume |
| 5/chat_client.c:588 | `msg_size + 1` is computed in 32-bit `uint32_t` arithmetic before it widens to `size_t` | `chat_client_feed` with `msg_size` 0xFFFFFFFF: the request is 0, the buffer is not grown, and the `memcpy` of nearly 4 GiB runs past the allocation | the buffer is grown to hold the message and its NUL for every `msg_size` | high, not executed | ChatClient.FeedOverrunsAsWritten | ChatClient.Client.Feed |
