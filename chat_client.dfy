/**
 * The sequential logic of the chat client in 5/chat_client.c: the received-message
 * queue, newline framing of the input buffer, argument checks and the `host:port`
 * split of `connect`, `feed`, the interest mask and event bits derived from the
 * connection state, and the teardown and return logic of `update`. Sockets, name
 * resolution and epoll are outcomes passed in as parameters.
 */
module ChatClient {
  import opened Common
  import opened Chat
  import opened ByteBuffer
  import opened Framing
  import opened MessageQueue

  const EPOLLIN: bv32 := 0x001
  const EPOLLOUT: bv32 := 0x004
  const EPOLLRDHUP: bv32 := 0x2000
  const EPOLLET: bv32 := 0x8000_0000

  /**
   * The mask `client_update_events` registers for a connection state, or `None` when it
   * unregisters and returns 0 without calling epoll.
   */
  function Interest(connecting: bool, connected: bool, needsWrite: bool): (mask: Option<bv32>)
    ensures mask.Some? <==> connecting || connected
    ensures mask.Some? ==> mask.value & (EPOLLET | EPOLLRDHUP) == EPOLLET | EPOLLRDHUP
    ensures mask.Some? ==> (mask.value & EPOLLOUT != 0 <==> connecting || needsWrite)
    ensures mask.Some? ==> (mask.value & EPOLLIN != 0 <==> !connecting)
    ensures mask.Some? ==> mask.value & !(EPOLLET | EPOLLRDHUP | EPOLLIN | EPOLLOUT) == 0
  {
    var always := EPOLLET | EPOLLRDHUP;
    if connecting then Some(always | EPOLLOUT)
    else if connected then Some(if needsWrite then always | EPOLLIN | EPOLLOUT else always | EPOLLIN)
    else None
  }

  /**
   * `chat_client_get_events`: nothing before a connection is started, output only while
   * connecting, input once connected plus output exactly when unsent bytes are waiting.
   */
  function EventsOf(socketOpen: bool, connecting: bool, connected: bool, unsent: bool): (e: Events)
    ensures !socketOpen && !connecting ==> e == NoEvents
    ensures e.input <==> (socketOpen || connecting) && !connecting && connected
    ensures e.output <==> (socketOpen || connecting) && (connecting || (connected && unsent))
  {
    if !socketOpen && !connecting then NoEvents
    else if connecting then Events(false, true)
    else if connected then Events(true, unsent)
    else NoEvents
  }

  /** The index of the last occurrence of `c` (`strrchr`). */
  function LastIndexOf(s: string, c: char): (r: Option<nat>)
    ensures r.Some? ==> r.value < |s| && s[r.value] == c && c !in s[r.value + 1..]
    ensures r.None? ==> c !in s
  {
    if s == [] then None
    else if s[|s| - 1] == c then Some(|s| - 1)
    else
      var r := LastIndexOf(s[..|s| - 1], c);
      assert s == s[..|s| - 1] + [s[|s| - 1]];
      r
  }

  /**
   * The split of `connect`'s address at its last ':'; `None` when there is no ':', the
   * host is empty or the port is empty.
   */
  function SplitAddress(addr: string): (r: Option<(string, string)>)
    ensures r.Some? ==> addr == r.value.0 + ":" + r.value.1
    ensures r.Some? ==> r.value.0 != [] && r.value.1 != [] && ':' !in r.value.1
  {
    match LastIndexOf(addr, ':')
    case None => None
    case Some(i) =>
      if i == 0 || i == |addr| - 1 then None
      else
        assert addr == addr[..i] + ":" + addr[i + 1..];
        Some((addr[..i], addr[i + 1..]))
  }

  /** Every non-empty host joined to a non-empty port without ':' splits back into the two. */
  lemma {:induction false} SplitAddressOfJoin(host: string, port: string)
    requires host != [] && port != [] && ':' !in port
    ensures SplitAddress(host + ":" + port) == Some((host, port))
  {
    var addr := host + ":" + port;
    var i := |host|;
    assert addr[i] == ':' && addr[i + 1..] == port;
    LastColonIs(addr, i);
    assert addr[..i] == host;
  }

  lemma {:induction false} LastColonIs(s: string, i: nat)
    requires i < |s| && s[i] == ':' && ':' !in s[i + 1..]
    ensures LastIndexOf(s, ':') == Some(i)
    decreases |s|
  {
    if i < |s| - 1 {
      assert s[|s| - 1] == s[i + 1..][|s| - i - 2];
      assert s[..|s| - 1][i + 1..] == s[i + 1..|s| - 1];
      LastColonIs(s[..|s| - 1], i);
    }
  }

  /** What `socket` and `connect` do with one resolved address. */
  datatype AddressOutcome =
    | SocketFailed
    | Refused(sock: nat)
    | ConnectedAt(sock: nat, addOk: bool)
    | InProgressAt(sock: nat, addOk: bool)
  {
    /** The address connects (or starts to) and its epoll registration succeeds. */
    predicate Works() {
      (ConnectedAt? || InProgressAt?) && addOk
    }
  }

  /** The first address from `i` on that `connect`'s loop keeps. */
  function FirstWorking(addrs: seq<AddressOutcome>, i: nat): (k: Option<nat>)
    requires i <= |addrs|
    ensures k.Some? ==> i <= k.value < |addrs| && addrs[k.value].Works()
    ensures k.Some? ==> forall j :: i <= j < k.value ==> !addrs[j].Works()
    ensures k.None? ==> forall j :: i <= j < |addrs| ==> !addrs[j].Works()
    decreases |addrs| - i
  {
    if i == |addrs| then None
    else if addrs[i].Works() then Some(i)
    else FirstWorking(addrs, i + 1)
  }

  /** How `getsockopt(SO_ERROR)` reports a connection that was in progress. */
  datatype SocketStatus = QueryFailed | Established(addOk: bool) | ConnectFailed

  /** The bytes `send` accepted in one writable event, and why the send loop stopped. */
  datatype SendOutcome = SendOutcome(accepted: nat, stop: SendStop)
  datatype SendStop = AllSent | WouldBlock | SendFailed

  /** The chunks `recv` returned in one readable event, and whether the loop stopped on an error. */
  datatype ReceiveOutcome = ReceiveOutcome(chunks: seq<seq<Byte>>, failed: bool)

  /** What `epoll_wait` returned and what the socket calls of `update` do. */
  datatype WaitOutcome =
    | Interrupted
    | WaitFailed
    | NothingReady
    | Ready(revents: bv32, status: SocketStatus, send: SendOutcome, recv: ReceiveOutcome, addOk: bool)

  const EPOLLERR: bv32 := 0x008
  const EPOLLHUP: bv32 := 0x010

  /** `EPOLLERR` or `EPOLLHUP` is set. */
  predicate ErrorBits(revents: bv32) {
    revents & (EPOLLERR | EPOLLHUP) != 0
  }

  /**
   * The event bits `update` still handles after the error checks: an error or hang-up
   * clears input, output and peer hang-up, a peer hang-up clears input and output.
   */
  function Remaining(revents: bv32): (events: bv32)
    ensures events & EPOLLIN != 0 <==> revents & EPOLLIN != 0 && !ErrorBits(revents) && revents & EPOLLRDHUP == 0
    ensures events & EPOLLOUT != 0 <==> revents & EPOLLOUT != 0 && !ErrorBits(revents) && revents & EPOLLRDHUP == 0
  {
    if ErrorBits(revents) then revents & !(EPOLLIN | EPOLLOUT | EPOLLRDHUP)
    else if revents & EPOLLRDHUP != 0 then revents & !(EPOLLIN | EPOLLOUT)
    else revents
  }

  /** The bytes of several chunks, in order. */
  function Concat(chunks: seq<seq<Byte>>): seq<Byte>
  {
    if chunks == [] then [] else Concat(chunks[..|chunks| - 1]) + chunks[|chunks| - 1]
  }

  /**
   * The space `chat_client_feed` asks `buffer_ensure_space` for, as written: `msg_size + 1`
   * with `msg_size` a `uint32_t`, so the sum is taken modulo 2^32 before it widens to `size_t`.
   */
  function FeedSpaceAsWritten(msgSize: nat): (needed: nat)
    requires msgSize < 0x1_0000_0000
    ensures needed < 0x1_0000_0000
    ensures needed == msgSize + 1 || (msgSize == 0xFFFF_FFFF && needed == 0)
  {
    (msgSize + 1) % 0x1_0000_0000
  }

  /**
   * At the largest `msg_size` the sum wraps to 0: `buffer_ensure_space` then leaves any
   * buffer smaller than 4 GiB as it is, and the message and its NUL, written from
   * `length` on, run past the end of the allocation.
   */
  lemma FeedOverrunsAsWritten(capacity: nat, length: nat)
    requires length <= capacity < 0x1_0000_0000
    ensures FeedSpaceAsWritten(0xFFFF_FFFF) == 0
    ensures GrownCapacity(capacity, length + FeedSpaceAsWritten(0xFFFF_FFFF)) == capacity
    ensures capacity < length + 0xFFFF_FFFF + 1
  {
  }

  class Client {
    /** The socket descriptor, negative when there is none. */
    var socket: int
    var connected: bool
    var connectInProgress: bool
    var epollRegistered: bool
    var needsWrite: bool
    var lastError: ChatCode
    const input: Buffer
    const output: Buffer
    const queue: Queue

    ghost predicate Valid()
      reads this, input, output
    {
      Parts() && Flags()
    }

    /**
     * The buffers are well formed and distinct. (The queue's own `Valid` is
     * required separately, by the members that touch it.)
     */
    ghost predicate Parts()
      reads input, output
    {
      && input != output
      && input.Valid() && output.Sized()
    }

    /** Without a socket nothing is registered or connected, and the two phases exclude each other. */
    predicate Flags()
      reads this
    {
      && (socket < 0 ==> !epollRegistered && !connected && !connectInProgress)
      && !(connected && connectInProgress)
    }

    /** Whether the client has a socket or a connection under way. */
    predicate Started()
      reads this
    {
      socket >= 0 || connectInProgress
    }

    /** `chat_client_new` once its allocations succeed. */
    constructor ()
      ensures Valid() && queue.Valid() && fresh(input) && fresh(output) && fresh(queue)
      ensures socket == -1 && !connected && !connectInProgress && !epollRegistered && !needsWrite
      ensures lastError == Ok && queue.Contents() == [] && input.Contents() == [] && output.Contents() == []
    {
      socket := -1;
      connected, connectInProgress, epollRegistered, needsWrite := false, false, false, false;
      lastError := Ok;
      input := new Buffer(INITIAL_BUFFER_SIZE);
      output := new Buffer(INITIAL_BUFFER_SIZE);
      queue := new Queue();
    }

    /** `chat_client_get_events`, as `EventsOf` the connection state. */
    function GetEvents(): Events
      reads this, output
      requires output.Sized()
    {
      EventsOf(socket >= 0, connectInProgress, connected, output.length > output.processed)
    }

    /** `chat_client_pop_next`: the oldest received message, or `None` when there is none. */
    method PopNext() returns (m: Option<Message>)
      requires queue.Valid()
      modifies queue
      ensures queue.Valid()
      ensures old(queue.Contents()) == [] ==> m == None && queue.Contents() == []
      ensures old(queue.Contents()) != [] ==>
        m == Some(old(queue.Contents())[0]) && queue.Contents() == old(queue.Contents())[1..]
    {
      m := queue.Pop();
    }

    /**
     * `client_update_events`, `addOk` being whether `epoll_ctl(ADD)` succeeds: without a
     * socket it fails, in a state with nothing to wait for it unregisters and succeeds,
     * otherwise it registers `Interest(...)` and records the outcome in `lastError`.
     */
    method UpdateEvents(addOk: bool) returns (ok: bool)
      modifies this
      ensures socket == old(socket) && connected == old(connected) && connectInProgress == old(connectInProgress)
      ensures needsWrite == old(needsWrite)
      ensures socket < 0 ==> !ok && !epollRegistered && lastError == old(lastError)
      ensures socket >= 0 && !connectInProgress && !connected ==>
        ok && !epollRegistered && lastError == old(lastError)
      ensures socket >= 0 && (connectInProgress || connected) ==>
        ok == addOk && epollRegistered == addOk && lastError == (if addOk then Ok else Sys)
    {
      if socket < 0 {
        epollRegistered := false;
        return false;
      }
      if Interest(connectInProgress, connected, needsWrite).None? {
        epollRegistered := false;
        return true;
      }
      if !addOk {
        epollRegistered := false;
        lastError := Sys;
        return false;
      }
      epollRegistered := true;
      lastError := Ok;
      return true;
    }

    /**
     * `chat_client_connect`: a null address is `InvalidArgument` and a started client
     * `AlreadyStarted`, both leaving everything as it was; an address that does not split
     * is `InvalidArgument` and a failed resolution `Sys`, both recorded in `lastError`;
     * otherwise the client keeps the first address that connects and registers, or ends
     * with no socket and `Sys`.
     */
    method Connect(addr: Option<CString>, resolved: Option<seq<AddressOutcome>>) returns (r: ChatCode)
      requires Valid()
      modifies this
      ensures Valid()
      ensures addr.None? || old(socket) >= 0 || old(connectInProgress) || old(connected) ==> unchanged(this)
      ensures addr.None? ==> r == InvalidArgument
      ensures addr.Some? && (old(socket) >= 0 || old(connectInProgress) || old(connected)) ==> r == AlreadyStarted
      ensures addr.Some? && old(socket) < 0 && !old(connectInProgress) && !old(connected) ==>
        && r == lastError
        && (SplitAddress(addr.value).None? ==> r == InvalidArgument && socket == old(socket))
        && (SplitAddress(addr.value).Some? && resolved.None? ==> r == Sys && socket == old(socket))
        && (SplitAddress(addr.value).Some? && resolved.Some? ==>
              match FirstWorking(resolved.value, 0)
              case None => r == Sys && socket == -1 && !connected && !connectInProgress
              case Some(k) =>
                && r == Ok && socket == resolved.value[k].sock && epollRegistered
                && connected == resolved.value[k].ConnectedAt?
                && connectInProgress == resolved.value[k].InProgressAt?
                && needsWrite == (connected && output.length > output.processed))
    {
      if addr.None? {
        return InvalidArgument;
      }
      if socket >= 0 || connectInProgress || connected {
        return AlreadyStarted;
      }
      lastError := Ok;
      if SplitAddress(addr.value).None? {
        lastError := InvalidArgument;
        return lastError;
      }
      if resolved.None? {
        lastError := Sys;
        return lastError;
      }
      TryAddresses(resolved.value);
      if socket == -1 {
        if lastError == Ok {
          lastError := Sys;
        }
        return lastError;
      }
      lastError := Ok;
      return Ok;
    }

    /**
     * The loop of `chat_client_connect` over the resolved addresses: an address whose
     * socket or connect fails, or whose epoll registration fails, is closed and the next
     * one tried; the first that works is kept.
     */
    method TryAddresses(addrs: seq<AddressOutcome>)
      requires Valid() && socket < 0 && lastError == Ok
      modifies this
      ensures Valid() && (lastError == Ok || lastError == Sys)
      ensures match FirstWorking(addrs, 0)
        case None => socket == -1 && !connected && !connectInProgress
        case Some(k) =>
          && socket == addrs[k].sock && epollRegistered
          && connected == addrs[k].ConnectedAt?
          && connectInProgress == addrs[k].InProgressAt?
          && needsWrite == (connected && output.length > output.processed)
    {
      socket := -1;
      var i := 0;
      while i < |addrs|
        invariant i <= |addrs| && Valid()
        invariant socket == -1 && !connected && !connectInProgress
        invariant lastError == Ok || lastError == Sys
        invariant FirstWorking(addrs, i) == FirstWorking(addrs, 0)
        decreases |addrs| - i
      {
        var kept := TryAddress(addrs[i]);
        if kept {
          return;
        }
        i := i + 1;
      }
    }

    /**
     * One turn of `connect`'s loop: the address is kept when it connects or starts to and
     * its registration succeeds; otherwise its socket is closed and the flags cleared.
     */
    method TryAddress(a: AddressOutcome) returns (kept: bool)
      requires Valid() && socket == -1 && !connected && !connectInProgress
      requires lastError == Ok || lastError == Sys
      modifies this
      ensures Valid() && (lastError == Ok || lastError == Sys)
      ensures kept == a.Works()
      ensures kept ==>
        && socket == a.sock && epollRegistered
        && connected == a.ConnectedAt? && connectInProgress == a.InProgressAt?
        && needsWrite == (connected && output.length > output.processed)
      ensures !kept ==> socket == -1 && !connected && !connectInProgress
    {
      match a {
        case SocketFailed =>
          socket := -1;
          return false;
        case Refused(_) =>
          socket := -1;
          return false;
        case ConnectedAt(sock, addOk) =>
          kept := Attempt(sock, false, addOk);
        case InProgressAt(sock, addOk) =>
          kept := Attempt(sock, true, addOk);
      }
    }

    /**
     * A socket that connected (or, with `connecting`, started to): the flags are set, the
     * socket registered, and on a failed registration closed again.
     */
    method Attempt(sock: nat, connecting: bool, addOk: bool) returns (kept: bool)
      requires Valid() && socket == -1 && !connected && !connectInProgress
      requires lastError == Ok || lastError == Sys
      modifies this
      ensures Valid() && (lastError == Ok || lastError == Sys)
      ensures kept == addOk
      ensures kept ==>
        && socket == sock && epollRegistered && connected == !connecting && connectInProgress == connecting
        && needsWrite == (connected && output.length > output.processed)
      ensures !kept ==> socket == -1 && !connected && !connectInProgress
    {
      socket := sock;
      connected, connectInProgress := !connecting, connecting;
      needsWrite := !connecting && output.length > output.processed;
      kept := UpdateEvents(addOk);
      if !kept {
        socket := -1;
        connected, connectInProgress := false, false;
      }
    }

    /**
     * `check_connection_status` once a connection in progress signals: with no connection
     * under way it is `Sys` and nothing changes; otherwise the attempt is over and the
     * client is connected exactly when the socket reports no error and the re-registration
     * succeeds.
     */
    method CheckConnection(status: SocketStatus) returns (r: ChatCode)
      requires Valid()
      modifies this
      ensures Valid()
      ensures socket == old(socket) && (r == Ok || r == Sys)
      ensures !old(connectInProgress) || old(socket) < 0 ==> r == Sys && unchanged(this)
      ensures old(connectInProgress) && old(socket) >= 0 ==>
        && !connectInProgress && lastError == r
        && (connected <==> r == Ok)
        && (r == Ok <==> status == Established(true))
        && (r == Ok ==> epollRegistered && needsWrite == (output.length > output.processed))
    {
      if !connectInProgress || socket < 0 {
        return Sys;
      }
      if status.QueryFailed? {
        lastError := Sys;
        connectInProgress := false;
        return lastError;
      }
      connectInProgress := false;
      if status.Established? {
        connected := true;
        lastError := Ok;
        needsWrite := output.length > output.processed;
        var ok := UpdateEvents(status.addOk);
        if !ok {
          connected := false;
          return lastError;
        }
        return Ok;
      }
      connected := false;
      lastError := Sys;
      return lastError;
    }

    /**
     * The send loop of `update` on a connected client with unsent bytes: the accepted bytes
     * count as processed; a failure is `Sys`; blocking turns on `needsWrite`; once every
     * byte is sent the buffer is emptied in place and `needsWrite` turned off. The flag
     * says whether the epoll registration must follow a change of `needsWrite`.
     */
    method DrainOutput(send: SendOutcome) returns (r: ChatCode, needsUpdate: bool)
      requires Valid() && connected && output.length > output.processed
      requires send.accepted <= output.length - output.processed
      requires send.stop.AllSent? <==> send.accepted == output.length - output.processed
      modifies this, output
      ensures Valid()
      ensures socket == old(socket) && connected == old(connected) && connectInProgress == old(connectInProgress)
      ensures epollRegistered == old(epollRegistered)
      ensures send.stop.SendFailed? ==>
        && r == Sys && lastError == Sys && !needsUpdate && needsWrite == old(needsWrite)
        && output.Viewed() == View(old(output.Contents()), old(output.processed) + send.accepted)
      ensures send.stop.WouldBlock? ==>
        && r == Ok && lastError == old(lastError) && needsWrite && needsUpdate == !old(needsWrite)
        && output.Viewed() == View(old(output.Contents()), old(output.processed) + send.accepted)
      ensures send.stop.AllSent? ==>
        && r == Ok && lastError == old(lastError) && !needsWrite && needsUpdate == old(needsWrite)
        && output.Contents() == [] && output.processed == 0
    {
      r, needsUpdate := Ok, false;
      output.processed := output.processed + send.accepted;
      match send.stop {
        case SendFailed =>
          lastError := Sys;
          r := Sys;
        case WouldBlock =>
          if !needsWrite {
            needsWrite := true;
            needsUpdate := true;
          }
        case AllSent =>
      }
      if r == Ok && output.processed == output.length {
        output.length, output.processed := 0, 0;
        if needsWrite {
          needsWrite := false;
          needsUpdate := true;
        }
      }
    }

    /**
     * The receive loop of `update`: every chunk goes to the end of the input buffer; a
     * failure is `Sys` and leaves the queue alone; otherwise, when anything arrived, the
     * complete lines are queued as by `ProcessInputBuffer`.
     */
    method ReceiveInput(recv: ReceiveOutcome) returns (r: ChatCode)
      requires Valid() && queue.Valid()
      requires forall k :: 0 <= k < |recv.chunks| ==> 0 < |recv.chunks[k]| <= 4096
      modifies this, input, queue, queue.Repr
      ensures Valid() && queue.Valid()
      ensures socket == old(socket) && connected == old(connected) && connectInProgress == old(connectInProgress)
      ensures epollRegistered == old(epollRegistered) && needsWrite == old(needsWrite)
      ensures recv.failed ==>
        && r == Sys && lastError == Sys && queue.Contents() == old(queue.Contents())
        && input.Contents() == old(input.Contents()) + Concat(recv.chunks)
      ensures !recv.failed && recv.chunks == [] ==>
        r == Ok && lastError == old(lastError) && queue.Contents() == old(queue.Contents())
        && input.Contents() == old(input.Contents())
      ensures old(queue.Contents()) <= queue.Contents()
      ensures !recv.failed && recv.chunks != [] ==>
        && r == Ok && lastError == old(lastError)
        && queue.Contents() == old(queue.Contents()) + Tagged(Lines(old(input.Contents()) + Concat(recv.chunks)), false)
        && input.Contents() == Pending(old(input.Contents()) + Concat(recv.chunks))
    {
      ReadChunks(recv.chunks);
      if recv.failed {
        lastError := Sys;
        return Sys;
      }
      if recv.chunks != [] {
        ProcessInputBuffer();
      }
      return Ok;
    }

    /** The `recv` loop of `update`: each chunk received goes to the end of the input buffer. */
    method ReadChunks(chunks: seq<seq<Byte>>)
      requires input.Valid()
      modifies input
      ensures input.Valid()
      ensures input.Contents() == old(input.Contents()) + Concat(chunks)
    {
      var i := 0;
      while i < |chunks|
        invariant i <= |chunks| && input.Valid()
        invariant input.Contents() == old(input.Contents()) + Concat(chunks[..i])
        decreases |chunks| - i
      {
        assert chunks[..i + 1][..i] == chunks[..i];
        input.Append(chunks[i]);
        i := i + 1;
      }
      assert chunks[..i] == chunks;
    }

    /**
     * The teardown of `update` after an error: the socket is closed and unregistered,
     * every connection flag is cleared and the error becomes `lastError`.
     */
    method Teardown(result: ChatCode)
      requires Valid()
      modifies this
      ensures Valid()
      ensures socket < 0 && !connected && !connectInProgress && !needsWrite && !epollRegistered
      ensures lastError == result
    {
      if socket >= 0 {
        epollRegistered := false;
        socket := -1;
      }
      connected, connectInProgress, needsWrite := false, false, false;
      lastError := result;
    }

    /**
     * The event handling of `chat_client_update`: error or hang-up bits end a connection
     * in progress through `CheckConnection` and any other with `Sys`, a peer hang-up is
     * `Sys`; then a writable socket finishes a connection in progress and drains the
     * output, and a readable one is read. Each step runs only while the result is `Ok`.
     * Without readable bits nothing is received; when the handling ends well after
     * reading some chunks, their complete lines are queued and only the partial last line
     * stays. On a connected client whose socket signalled only writability and readability
     * the unsent output is drained as `DrainOutput` says.
     */
    method HandleEvents(revents: bv32, status: SocketStatus, send: SendOutcome, recv: ReceiveOutcome)
      returns (result: ChatCode, needsUpdate: bool)
      requires Valid() && queue.Valid()
      requires forall k :: 0 <= k < |recv.chunks| ==> 0 < |recv.chunks[k]| <= 4096
      requires send.accepted <= output.length - output.processed
      requires send.stop.AllSent? <==> send.accepted == output.length - output.processed
      modifies this, input, output, queue, queue.Repr
      ensures Valid() && queue.Valid() && old(queue.Contents()) <= queue.Contents()
      ensures result == Ok || (result == Sys && lastError == Sys)
      ensures Remaining(revents) & EPOLLIN == 0 ==>
        queue.Contents() == old(queue.Contents()) && input.Contents() == old(input.Contents())
      ensures result == Ok && Remaining(revents) & EPOLLIN != 0 && recv.chunks != [] ==>
        var s := old(input.Contents()) + Concat(recv.chunks);
        queue.Contents() == old(queue.Contents()) + Tagged(Lines(s), false) && input.Contents() == Pending(s)
      ensures Remaining(revents) & EPOLLOUT != 0 && old(connected) && old(output.length) > old(output.processed) ==>
        && (send.stop.SendFailed? ==> result == Sys)
        && (!send.stop.AllSent? ==> output.Viewed() == View(old(output.Contents()), old(output.processed) + send.accepted))
        && (send.stop.AllSent? ==> output.Contents() == [] && output.processed == 0 && !needsWrite)
    {
      var events;
      result, events := CheckHangUp(revents, status);
      needsUpdate := false;
      if result == Ok && events & EPOLLOUT != 0 {
        result, needsUpdate := HandleWritable(status, send);
      }
      if result == Ok && events & EPOLLIN != 0 {
        result := ReceiveInput(recv);
      }
    }

    /**
     * The first step of the event handling: error or hang-up bits settle a connection in
     * progress through `CheckConnection` and make any other `Sys`, a peer hang-up is `Sys`,
     * and the bits left to handle are returned.
     */
    method CheckHangUp(revents: bv32, status: SocketStatus) returns (result: ChatCode, events: bv32)
      requires Valid()
      modifies this
      ensures Valid() && events == Remaining(revents)
      ensures result == Ok || (result == Sys && lastError == Sys)
      ensures output.length == old(output.length) && output.processed == old(output.processed)
      ensures !ErrorBits(revents) && revents & EPOLLRDHUP != 0 ==> result == Sys
      ensures !ErrorBits(revents) && revents & EPOLLRDHUP == 0 ==> result == Ok && unchanged(this)
    {
      result := Ok;
      if ErrorBits(revents) {
        if connectInProgress {
          result := CheckConnection(status);
        } else {
          lastError := Sys;
          result := Sys;
        }
      } else if revents & EPOLLRDHUP != 0 {
        lastError := Sys;
        result := Sys;
      }
      events := Remaining(revents);
    }

    /**
     * A writable socket: a connection in progress is settled first, by `CheckConnection`,
     * and it fails unless the socket is established and re-registered; then a client that
     * is connected and has unsent output drains it as `DrainOutput` says. A connection
     * settled here turned `needsWrite` on for pending output, so draining that output
     * entirely needs a re-registration and blocking does not.
     */
    method HandleWritable(status: SocketStatus, send: SendOutcome) returns (result: ChatCode, needsUpdate: bool)
      requires Valid()
      requires send.accepted <= output.length - output.processed
      requires send.stop.AllSent? <==> send.accepted == output.length - output.processed
      modifies this, output
      ensures Valid()
      ensures result == Ok || (result == Sys && lastError == Sys)
      ensures !old(connectInProgress) && !(old(connected) && old(output.length) > old(output.processed)) ==>
        result == Ok && !needsUpdate && unchanged(this, output)
      ensures socket == old(socket)
      ensures old(connectInProgress) ==> !connectInProgress
      ensures old(connectInProgress) && status != Established(true) ==>
        && result == Sys && !connected && !needsUpdate && output.Viewed() == old(output.Viewed())
      ensures old(connectInProgress) && status == Established(true) && old(output.length) == old(output.processed) ==>
        && result == Ok && connected && epollRegistered && !needsWrite && !needsUpdate
        && output.Viewed() == old(output.Viewed())
      ensures (old(connected) || (old(connectInProgress) && status == Established(true)))
              && old(output.length) > old(output.processed) ==>
        && connected && connectInProgress == false
        && (send.stop.SendFailed? ==>
              && result == Sys && !needsUpdate
              && output.Viewed() == View(old(output.Contents()), old(output.processed) + send.accepted))
        && (send.stop.WouldBlock? ==>
              && result == Ok && needsWrite && needsUpdate == (!old(connectInProgress) && !old(needsWrite))
              && output.Viewed() == View(old(output.Contents()), old(output.processed) + send.accepted))
        && (send.stop.AllSent? ==>
              && result == Ok && !needsWrite && needsUpdate == (old(connectInProgress) || old(needsWrite))
              && output.Contents() == [] && output.processed == 0)
    {
      result, needsUpdate := Ok, false;
      if connectInProgress {
        result := CheckConnection(status);
      }
      if result == Ok && connected && output.length > output.processed {
        result, needsUpdate := DrainOutput(send);
      }
    }

    /**
     * `chat_client_update` for one `epoll_wait`: a client that never started reports its
     * last error or `NotStarted`; an interrupted wait is `Ok`, a failed one `Sys` and an
     * empty one `Timeout`. After the events are handled a failure, or a failed
     * re-registration, tears the connection down and is returned; otherwise the result is
     * `Ok` exactly when a message, input bytes or unsent output are pending, and `Timeout`
     * when nothing is. Received messages are only ever added behind the queued ones.
     */
    method Update(wait: WaitOutcome) returns (r: ChatCode)
      requires Valid() && queue.Valid()
      requires wait.Ready? ==> forall k :: 0 <= k < |wait.recv.chunks| ==> 0 < |wait.recv.chunks[k]| <= 4096
      requires wait.Ready? ==> wait.send.accepted <= output.length - output.processed
      requires wait.Ready? ==> (wait.send.stop.AllSent? <==> wait.send.accepted == output.length - output.processed)
      modifies this, input, output, queue, queue.Repr
      ensures Valid() && queue.Valid() && old(queue.Contents()) <= queue.Contents()
      ensures !old(Started()) ==> r == (if old(lastError) != Ok then old(lastError) else NotStarted) && unchanged(this)
      ensures old(Started()) && wait.Interrupted? ==> r == Ok && unchanged(this)
      ensures old(Started()) && wait.WaitFailed? ==> r == Sys && lastError == Sys
      ensures old(Started()) && wait.NothingReady? ==> r == Timeout && unchanged(this)
      ensures old(Started()) && wait.Ready? ==> r == Ok || r == Timeout || r == Sys
      ensures old(Started()) && wait.Ready? && r == Sys ==>
        socket < 0 && !connected && !connectInProgress && !needsWrite && lastError == Sys
      ensures old(Started()) && wait.Ready? && r != Sys ==>
        (r == Ok <==> queue.Contents() != [] || input.length > 0 || needsWrite)
      ensures old(Started()) && wait.Ready? && Remaining(wait.revents) & EPOLLIN == 0 ==>
        queue.Contents() == old(queue.Contents()) && input.Contents() == old(input.Contents())
      ensures old(Started()) && wait.Ready? && r != Sys && Remaining(wait.revents) & EPOLLIN != 0 && wait.recv.chunks != [] ==>
        var s := old(input.Contents()) + Concat(wait.recv.chunks);
        queue.Contents() == old(queue.Contents()) + Tagged(Lines(s), false) && input.Contents() == Pending(s)
      ensures old(Started()) && wait.Ready? && Remaining(wait.revents) & EPOLLOUT != 0 && old(connected)
              && old(output.length) > old(output.processed) ==>
        && (wait.send.stop.SendFailed? ==> r == Sys)
        && (wait.send.stop.WouldBlock? ==>
              output.Viewed() == View(old(output.Contents()), old(output.processed) + wait.send.accepted))
        && (wait.send.stop.AllSent? ==> output.Contents() == [] && output.processed == 0)
    {
      if !Started() {
        return if lastError != Ok then lastError else NotStarted;
      }
      match wait {
        case Interrupted =>
          return Ok;
        case WaitFailed =>
          lastError := Sys;
          return Sys;
        case NothingReady =>
          return Timeout;
        case Ready(revents, status, send, recv, addOk) =>
          var result, needsUpdate := HandleEvents(revents, status, send, recv);
          r := Settle(result, needsUpdate, addOk);
      }
    }

    /**
     * The end of `chat_client_update`: an error tears the connection down; a needed
     * re-registration that fails does too, with the registration's error; otherwise the
     * result is `Ok` when something is pending and `Timeout` when nothing is.
     */
    method Settle(result: ChatCode, needsUpdate: bool, addOk: bool) returns (r: ChatCode)
      requires Valid() && queue.Valid()
      requires result == Ok || (result == Sys && lastError == Sys)
      modifies this
      ensures Valid()
      ensures r == Ok || r == Timeout || r == Sys
      ensures r == Sys ==> socket < 0 && !connected && !connectInProgress && !needsWrite && lastError == Sys
      ensures r != Sys ==> (r == Ok <==> queue.Contents() != [] || input.length > 0 || needsWrite)
      ensures result == Sys ==> r == Sys
    {
      r := result;
      if r != Ok && r != Timeout {
        Teardown(r);
        return r;
      }
      if needsUpdate && socket >= 0 {
        var ok := UpdateEvents(addOk);
        if !ok {
          if r == Ok {
            r := lastError;
          }
          Teardown(r);
          return r;
        }
      }
      if r == Ok {
        return if queue.head != null || input.length > 0 || needsWrite then Ok else Timeout;
      }
    }

    /**
     * `chat_client_feed`, `addOk` being the outcome of a re-registration: a null or empty
     * message is refused, a client that never started reports its last error or
     * `NotStarted`, a sticky error other than a timeout is reported again, and otherwise
     * the bytes are appended to the output buffer verbatim and `needsWrite` is set. The
     * buffer grows to hold the message and a NUL for every `msg_size`, the sum taken
     * without the 32-bit wrap of `FeedSpaceAsWritten`.
     */
    method Feed(msg: Option<seq<Byte>>, addOk: bool) returns (r: ChatCode)
      requires Valid()
      requires msg.Some? ==> |msg.value| < 0x1_0000_0000
      modifies this, output
      ensures Valid()
      ensures msg.None? || msg.value == [] ==> r == InvalidArgument && output.Viewed() == old(output.Viewed())
      ensures msg.Some? && msg.value != [] && old(socket) < 0 && !old(connectInProgress) ==>
        r == (if old(lastError) != Ok then old(lastError) else NotStarted) && output.Viewed() == old(output.Viewed())
      ensures msg.Some? && msg.value != [] && (old(socket) >= 0 || old(connectInProgress)) ==>
        && (old(lastError) != Ok && old(lastError) != Timeout ==> r == old(lastError) && output.Viewed() == old(output.Viewed()))
        && (old(lastError) == Ok || old(lastError) == Timeout ==>
              && output.Contents() == old(output.Contents()) + msg.value && needsWrite
              && output.capacity == GrownCapacity(old(output.capacity), old(output.length) + |msg.value| + 1)
              && output.capacity > output.length
              && r == (if !old(needsWrite) && (old(connected) || old(connectInProgress)) && !addOk then Sys else Ok))
    {
      if msg.None? || msg.value == [] {
        return InvalidArgument;
      }
      if socket < 0 && !connectInProgress {
        return if lastError != Ok then lastError else NotStarted;
      }
      if lastError != Ok && lastError != Timeout {
        return lastError;
      }
      output.Append(msg.value);
      var needsUpdate := false;
      if !needsWrite {
        needsWrite := true;
        needsUpdate := true;
      }
      if needsUpdate && (connected || connectInProgress) && socket >= 0 {
        var ok := UpdateEvents(addOk);
        if !ok {
          return lastError;
        }
      }
      return Ok;
    }

    /**
     * `process_input_buffer`: every complete line of the input buffer is queued as one
     * message, newline stripped and in order, and the framed bytes are consumed so that
     * only the partial last line stays.
     */
    method ProcessInputBuffer()
      requires Valid() && queue.Valid()
      modifies input, queue, queue.Repr
      ensures Valid() && queue.Valid()
      ensures queue.Contents() == old(queue.Contents()) + Tagged(Lines(old(input.Contents())), false)
      ensures input.Viewed() == Consumed(old(input.Viewed()), FramedEnd(old(input.Contents()), 0))
      ensures input.Contents() == Pending(old(input.Contents()))
    {
      var pos := QueueLines(input.data[..input.length]);
      if pos > 0 {
        input.Consume(pos);
      }
    }

    /**
     * The loop of `process_input_buffer` over the bytes `s`: each complete line is pushed
     * as a message, and the result is the number of bytes those lines and their newlines
     * take.
     */
    method QueueLines(s: seq<Byte>) returns (pos: nat)
      requires queue.Valid()
      modifies queue, queue.Repr
      ensures queue.Valid()
      ensures pos == FramedEnd(s, 0) == |s| - |Pending(s)|
      ensures queue.Contents() == old(queue.Contents()) + Tagged(Lines(s), false)
    {
      ghost var emitted: seq<seq<Byte>> := [];
      pos := 0;
      while pos < |s|
        invariant Scanned(s, pos, emitted) && queue.Valid()
        invariant fresh(queue.Repr - old(queue.Repr))
        invariant queue.Contents() == old(queue.Contents()) + Tagged(emitted, false)
        decreases |s| - pos
      {
        var nl := NewlineFrom(s, pos);
        if nl == |s| {
          break;
        }
        var line := s[pos..nl];
        queue.Push(Message(line, false));
        TaggedSnoc(old(queue.Contents()), emitted, line, false);
        ScanStep(s, pos, emitted);
        emitted := emitted + [line];
        pos := nl + 1;
      }
      ScanDone(s, pos, emitted);
    }
  }
}
