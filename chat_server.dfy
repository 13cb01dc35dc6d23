/**
 * The sequential logic of the chat server in 5/chat_server.c: the peer array (bounded
 * add with doubling capacity, order-preserving remove), broadcasting a line into every
 * other peer's output buffer, newline framing of peer input and of the server's own
 * `feed`, the output-drain bookkeeping after a writable event, and `get_events`.
 * Sockets and epoll are outcomes passed in as parameters.
 */
module ChatServer {
  import opened Common
  import opened Chat
  import opened ByteBuffer
  import opened Framing
  import opened MessageQueue

  const MAX_PEERS: nat := 1024
  const INITIAL_PEER_CAPACITY: nat := 16

  /** A capacity the peer array can have: none yet, or 16 doubled some number of times. */
  predicate PeerCapacity(c: nat)
    decreases c
  {
    c == 0 || c == INITIAL_PEER_CAPACITY || (c > INITIAL_PEER_CAPACITY && c % 2 == 0 && PeerCapacity(c / 2))
  }

  /** The capacity `server_add_peer` grows to when the array is full. */
  function GrownPeerCapacity(c: nat): nat {
    if c == 0 then INITIAL_PEER_CAPACITY else c * 2
  }

  /** Growing keeps the shape and, below `MAX_PEERS`, never overshoots it. */
  lemma {:induction false} GrownPeerCapacityFits(c: nat)
    requires PeerCapacity(c) && c < MAX_PEERS
    ensures PeerCapacity(GrownPeerCapacity(c)) && c < GrownPeerCapacity(c) <= MAX_PEERS
  {
    if c > 0 {
      assert (c * 2) / 2 == c;
      HalfOfCapacity(c);
    }
  }

  /** The capacities in the doubling chain below 1024 are 16 through 512. */
  lemma {:induction false} HalfOfCapacity(c: nat)
    requires PeerCapacity(c) && 0 < c < MAX_PEERS
    ensures c in {16, 32, 64, 128, 256, 512}
    decreases c
  {
    if c > INITIAL_PEER_CAPACITY {
      HalfOfCapacity(c / 2);
    }
  }

  /** What `broadcast_message` sends of each line: the bytes before its first NUL (`strlen`). */
  function CStrs(lines: seq<seq<Byte>>): (texts: seq<seq<Byte>>)
    ensures |texts| == |lines| && forall k :: 0 <= k < |lines| ==> texts[k] == CStr(lines[k])
  {
    seq(|lines|, k requires 0 <= k < |lines| => CStr(lines[k]))
  }

  lemma CStrsSnoc(lines: seq<seq<Byte>>, line: seq<Byte>)
    ensures CStrs(lines + [line]) == CStrs(lines) + [CStr(line)]
  {
    assert CStrs(lines + [line])[..|lines|] == CStrs(lines);
  }

  /** The bytes a broadcast of some lines appends: each up to its first NUL, then a newline. */
  function Outgoing(lines: seq<seq<Byte>>): seq<Byte> {
    Framed(CStrs(lines))
  }

  /** A peer that cuts the broadcast bytes into lines gets back the lines, when they hold no NUL. */
  lemma OutgoingRoundTrip(lines: seq<seq<Byte>>)
    requires forall k :: 0 <= k < |lines| ==> IsLine(lines[k]) && 0 !in lines[k]
    ensures Lines(Outgoing(lines)) == lines
  {
    var texts := seq(|lines|, k requires 0 <= k < |lines| => CStr(lines[k]));
    forall k | 0 <= k < |lines|
      ensures texts[k] == lines[k]
    {
      CStrWithoutNul(lines[k]);
    }
    assert texts == lines;
    LinesOfFramed(lines, []);
    assert Framed(lines) + [] == Framed(lines);
  }

  lemma {:induction false} CStrWithoutNul(s: seq<Byte>)
    requires 0 !in s
    ensures CStr(s) == s
  {
    if s != [] {
      assert 0 !in s[1..];
      CStrWithoutNul(s[1..]);
    }
  }

  /** `ps` without its first occurrence of `p`; `ps` itself when `p` is not in it. */
  function Without(ps: seq<Peer>, p: Peer): (r: seq<Peer>)
  {
    if ps == [] then []
    else if ps[0] == p then ps[1..]
    else [ps[0]] + Without(ps[1..], p)
  }

  /** In a list without repetitions, removing `p` keeps every other peer, in order, and only those. */
  lemma {:induction false} WithoutKeepsOthers(ps: seq<Peer>, p: Peer)
    requires forall i, j :: 0 <= i < j < |ps| ==> ps[i] != ps[j]
    ensures forall q :: q in Without(ps, p) <==> q in ps && q != p
    ensures |Without(ps, p)| == if p in ps then |ps| - 1 else |ps|
    ensures forall i, j :: 0 <= i < j < |Without(ps, p)| ==> Without(ps, p)[i] != Without(ps, p)[j]
  {
    if ps != [] {
      WithoutKeepsOthers(ps[1..], p);
      if ps[0] != p {
        assert ps[0] !in ps[1..];
      }
    }
  }

  /** The `errno` values the send loop of a writable peer tells apart (`EWOULDBLOCK` is `EAGAIN`). */
  datatype SendErrno = EAgain | EPipe | EConnReset | EOther

  /** What one `send` call returns: a byte count (0 when the peer has closed), or -1 and an `errno`. */
  datatype SendReply = Sent(count: nat) | Error(errno: SendErrno)

  /** How the send loop of a writable peer ended. */
  datatype SendStop = AllSent | WouldBlock | Closed | Reset | SendFailed

  /** The bytes `send` accepted in one writable event, and why the loop stopped. */
  datatype SendOutcome = SendOutcome(accepted: nat, stop: SendStop)

  /** The stops after which `handle_peer_event` removes the peer. */
  predicate Drops(stop: SendStop) {
    stop == Closed || stop == Reset || stop == SendFailed
  }

  /**
   * The send loop of `handle_peer_event` on `remaining` unsent bytes, the kernel giving
   * `replies` in turn (past their end the socket would block): it goes on while bytes
   * remain, and never counts more accepted than were offered. It stops with everything
   * sent exactly when everything was accepted.
   */
  function SendAll(remaining: nat, replies: seq<SendReply>): (o: SendOutcome)
    ensures o.accepted <= remaining
    ensures o.stop == AllSent <==> o.accepted == remaining
    decreases |replies|
  {
    if remaining == 0 then SendOutcome(0, AllSent)
    else if replies == [] then SendOutcome(0, WouldBlock)
    else match replies[0]
      case Sent(n) =>
        if n == 0 then SendOutcome(0, Closed)
        else
          var taken := if n < remaining then n else remaining;
          var rest := SendAll(remaining - taken, replies[1..]);
          SendOutcome(taken + rest.accepted, rest.stop)
      case Error(e) =>
        SendOutcome(0, if e == EAgain then WouldBlock else if e == EPipe || e == EConnReset then Reset else SendFailed)
  }

  /**
   * What `epoll_ctl` answers to one `server_update_events`: whether the `EPOLL_CTL_DEL` of
   * a registered peer succeeds (or fails with `ENOENT`, which is let through), and whether
   * the `EPOLL_CTL_ADD` succeeds.
   */
  datatype EpollReply = EpollReply(delOk: bool, addOk: bool)

  /** Whether `server_update_events` returns 0 for a peer with this socket and registration flag. */
  predicate Reregisters(socket: int, registered: bool, reply: EpollReply) {
    socket >= 0 && (!registered || reply.delOk) && reply.addOk
  }

  /** The registration flag after `server_update_events`: kept when the call returns before the ADD. */
  function RegisteredAfter(socket: int, registered: bool, reply: EpollReply): bool {
    if socket < 0 || (registered && !reply.delOk) then registered else reply.addOk
  }

  /**
   * A successful re-registration leaves the peer registered; a failed one leaves it
   * registered only when it was before and the call returned before its ADD.
   */
  lemma ReregisteredMeans(socket: int, registered: bool, reply: EpollReply)
    ensures Reregisters(socket, registered, reply) ==> RegisteredAfter(socket, registered, reply)
    ensures !Reregisters(socket, registered, reply) && RegisteredAfter(socket, registered, reply) ==>
      registered && (socket < 0 || !reply.delOk)
  {
  }

  class Peer {
    var socket: int
    const input: Buffer
    const output: Buffer
    var epollRegistered: bool
    var needsWrite: bool

    ghost predicate Valid()
      reads input, output
    {
      input != output && input.Valid() && output.Sized()
    }

    /** `peer_new` once its allocations succeed. */
    constructor (sock: nat)
      ensures Valid() && fresh(input) && fresh(output) && socket == sock && !epollRegistered && !needsWrite
      ensures input.Contents() == [] && output.Contents() == []
    {
      socket := sock;
      epollRegistered, needsWrite := false, false;
      input := new Buffer(INITIAL_BUFFER_SIZE);
      output := new Buffer(INITIAL_BUFFER_SIZE);
    }

    /**
     * `server_update_events`, `reply` being what `epoll_ctl` answers. A peer without a
     * socket fails; a registered peer whose `EPOLL_CTL_DEL` fails (other than with
     * `ENOENT`) fails and stays registered; otherwise the peer is registered exactly when
     * `EPOLL_CTL_ADD` succeeds, and so is the call. The server's epoll descriptor is
     * never negative here: a server exists only once `epoll_create1` has succeeded.
     */
    method UpdateEvents(reply: EpollReply) returns (ok: bool)
      modifies this
      ensures socket == old(socket) && needsWrite == old(needsWrite)
      ensures socket < 0 || (old(epollRegistered) && !reply.delOk) ==> !ok && epollRegistered == old(epollRegistered)
      ensures socket >= 0 && (!old(epollRegistered) || reply.delOk) ==> ok == reply.addOk && epollRegistered == reply.addOk
    {
      if socket < 0 {
        return false;
      }
      if epollRegistered && !reply.delOk {
        return false;
      }
      epollRegistered := reply.addOk;
      return reply.addOk;
    }

    /**
     * The per-destination step of `broadcast_message`: `text` and a newline go after the
     * output bytes (no NUL follows them), and a peer that had nothing to write is marked
     * and re-registered as `reply` decides; the result is `false` only when that
     * re-registration fails.
     */
    method Deliver(text: seq<Byte>, reply: EpollReply) returns (ok: bool)
      requires Valid()
      modifies this, output
      ensures Valid()
      ensures output.Contents() == old(output.Contents()) + (text + [NEWLINE])
      ensures output.processed == old(output.processed) && needsWrite && socket == old(socket)
      ensures epollRegistered == if old(needsWrite) then old(epollRegistered) else RegisteredAfter(socket, old(epollRegistered), reply)
      ensures ok == (old(needsWrite) || Reregisters(socket, old(epollRegistered), reply))
    {
      output.EnsureSpace(|text| + 1);
      output.Put(text + [NEWLINE]);
      ok := true;
      if !needsWrite {
        needsWrite := true;
        ok := UpdateEvents(reply);
      }
    }

    /** The send loop itself: only the processed mark of the output buffer moves. */
    method Send(replies: seq<SendReply>) returns (o: SendOutcome)
      requires output.Sized()
      modifies output
      ensures output.Sized() && output.Contents() == old(output.Contents())
      ensures o == SendAll(old(output.length - output.processed), replies)
      ensures output.processed == old(output.processed) + o.accepted
    {
      var toSend := output.length - output.processed;
      var accepted, k, stop := 0, 0, AllSent;
      while toSend > 0 && stop == AllSent
        invariant k <= |replies| && output.Sized() && output.processed + toSend == output.length
        invariant output.Contents() == old(output.Contents()) && output.processed == old(output.processed) + accepted
        invariant SendAll(old(output.length - output.processed), replies) ==
          if stop == AllSent then
            var rest := SendAll(toSend, replies[k..]);
            SendOutcome(accepted + rest.accepted, rest.stop)
          else SendOutcome(accepted, stop)
        decreases toSend, |replies| - k, if stop == AllSent then 1 else 0
      {
        if k == |replies| {
          stop := WouldBlock;
        } else {
          match replies[k]
          case Sent(n) =>
            if n == 0 {
              stop := Closed;
            } else {
              var taken := if n < toSend then n else toSend;
              output.processed := output.processed + taken;
              accepted, toSend, k := accepted + taken, toSend - taken, k + 1;
            }
          case Error(e) =>
            stop := if e == EAgain then WouldBlock else if e == EPipe || e == EConnReset then Reset else SendFailed;
        }
      }
      o := SendOutcome(accepted, stop);
    }

    /**
     * The `EPOLLOUT` part of `handle_peer_event`, `replies` being what `send` returns:
     * bytes are sent from the processed mark while any remain. When the loop stops on a
     * closed or failed connection the peer is left for removal; otherwise a drained
     * buffer is emptied and the write flag cleared, or a partly sent one keeps the flag
     * set, and `update` says whether the flag changed (`needs_epoll_update`).
     */
    method Flush(replies: seq<SendReply>) returns (o: SendOutcome, update: bool)
      requires Valid()
      modifies this, output
      ensures Valid() && socket == old(socket) && epollRegistered == old(epollRegistered)
      ensures o == SendAll(old(output.length - output.processed), replies)
      ensures Drops(o.stop) ==>
        && output.Contents() == old(output.Contents()) && output.processed == old(output.processed) + o.accepted
        && needsWrite == old(needsWrite) && !update
      ensures !Drops(o.stop) ==>
        && (o.stop == AllSent ==> output.Contents() == [] && output.processed == 0 && !needsWrite)
        && (o.stop != AllSent ==> output.Contents() == old(output.Contents())
                                  && output.processed == old(output.processed) + o.accepted && needsWrite)
        && update == (needsWrite != old(needsWrite))
    {
      o := Send(replies);
      update := false;
      if Drops(o.stop) {
        return;
      }
      if output.processed == output.length {
        output.length, output.processed := 0, 0;
        if needsWrite {
          needsWrite := false;
          update := true;
        }
      } else if !needsWrite {
        needsWrite := true;
        update := true;
      }
    }
  }

  /**
   * What a broadcast can change in one peer, or depends on: its output bytes, how far
   * they were sent, its write flag, its socket and whether it is registered with epoll.
   */
  datatype Outbox = Outbox(contents: seq<Byte>, processed: nat, needsWrite: bool, socket: int, epollRegistered: bool)

  /**
   * A peer's state after a send loop that `o` describes and that did not drop it: a
   * drained buffer is emptied and the write flag cleared, a partly sent one is marked.
   */
  function Drained(ob: Outbox, o: SendOutcome): Outbox {
    if ob.processed + o.accepted == |ob.contents| then ob.(contents := [], processed := 0, needsWrite := false)
    else ob.(processed := ob.processed + o.accepted, needsWrite := true)
  }

  /**
   * After a send loop, the bytes still to send are exactly those the kernel did not
   * accept, and the peer waits to be writable again exactly when some are left, that is
   * when the loop stopped before sending everything.
   */
  lemma DrainedKeepsUnsent(ob: Outbox, replies: seq<SendReply>)
    requires ob.processed <= |ob.contents|
    ensures var o := SendAll(|ob.contents| - ob.processed, replies);
      var d := Drained(ob, o);
      && d.processed <= |d.contents|
      && d.contents[d.processed..] == ob.contents[ob.processed + o.accepted..]
      && (d.needsWrite <==> o.stop != AllSent)
      && (d.contents == [] <==> o.stop == AllSent)
  {
  }

  /**
   * The state of one destination after `broadcast_message` has passed it, `reply` being
   * what epoll answers should it need re-registering.
   */
  function SentTo(ob: Outbox, dest: Peer, source: Peer?, text: seq<Byte>, reply: EpollReply): Outbox {
    if dest == source then ob
    else ob.(contents := ob.contents + (text + [NEWLINE]), needsWrite := true, epollRegistered := Marked(ob, reply))
  }

  /** The registration flag of a destination once it is marked as needing a write. */
  function Marked(ob: Outbox, reply: EpollReply): bool {
    if ob.needsWrite then ob.epollRegistered else RegisteredAfter(ob.socket, ob.epollRegistered, reply)
  }

  /**
   * The peers' states once the broadcast loop has passed the first `i` of them, `regs[k]`
   * being what epoll answers should peer `k` need re-registering.
   */
  function SentUpTo(obs: seq<Outbox>, ps: seq<Peer>, source: Peer?, text: seq<Byte>, regs: seq<EpollReply>, i: nat)
    : (r: seq<Outbox>)
    requires |obs| == |ps| == |regs| && i <= |ps|
  {
    seq(|obs|, k requires 0 <= k < |obs| => if k < i then SentTo(obs[k], ps[k], source, text, regs[k]) else obs[k])
  }

  /** Passing one more peer changes that peer's state and no other. */
  lemma {:induction false} SentUpToStep(obs: seq<Outbox>, ps: seq<Peer>, source: Peer?, text: seq<Byte>,
                                        regs: seq<EpollReply>, i: nat)
    requires |obs| == |ps| == |regs| && i < |ps|
    ensures SentUpTo(obs, ps, source, text, regs, i + 1)
         == SentUpTo(obs, ps, source, text, regs, i)[i := SentTo(obs[i], ps[i], source, text, regs[i])]
  {
  }

  /** The source itself is passed over unchanged. */
  lemma {:induction false} SentUpToSource(obs: seq<Outbox>, ps: seq<Peer>, source: Peer?, text: seq<Byte>,
                                          regs: seq<EpollReply>, i: nat)
    requires |obs| == |ps| == |regs| && i < |ps| && ps[i] == source
    ensures SentUpTo(obs, ps, source, text, regs, i + 1) == SentUpTo(obs, ps, source, text, regs, i)
  {
    SentUpToStep(obs, ps, source, text, regs, i);
  }

  /** Reaching `dest` must re-register it (it had nothing to write), and that fails. */
  predicate RegistrationFails(ob: Outbox, dest: Peer, source: Peer?, reply: EpollReply) {
    dest != source && !ob.needsWrite && !Reregisters(ob.socket, ob.epollRegistered, reply)
  }

  /** Some re-registration among the first `n` destinations fails. */
  predicate SomeRegistrationFails(obs: seq<Outbox>, ps: seq<Peer>, source: Peer?, regs: seq<EpollReply>, n: nat)
    requires |obs| == |ps| == |regs| && n <= |ps|
  {
    exists k :: 0 <= k < n && RegistrationFails(obs[k], ps[k], source, regs[k])
  }

  /**
   * The peers' states after `broadcast_message` of each of `texts` in turn, from `source`.
   * A destination is re-registered at most once, by the first line that reaches it, since
   * that line marks it as needing a write; `regs[k]` is the answer to that one call.
   */
  function SentEach(obs: seq<Outbox>, ps: seq<Peer>, source: Peer?, texts: seq<seq<Byte>>, regs: seq<EpollReply>)
    : (r: seq<Outbox>)
    requires |obs| == |ps| == |regs|
    ensures |r| == |ps|
    decreases |texts|
  {
    if texts == [] then obs
    else SentUpTo(SentEach(obs, ps, source, texts[..|texts| - 1], regs), ps, source, texts[|texts| - 1], regs, |ps|)
  }

  lemma SentEachSnoc(obs: seq<Outbox>, ps: seq<Peer>, source: Peer?, texts: seq<seq<Byte>>, text: seq<Byte>,
                     regs: seq<EpollReply>)
    requires |obs| == |ps| == |regs|
    ensures SentEach(obs, ps, source, texts + [text], regs)
         == SentUpTo(SentEach(obs, ps, source, texts, regs), ps, source, text, regs, |ps|)
  {
    assert (texts + [text])[..|texts|] == texts;
  }

  /**
   * Broadcasting several lines from `source` leaves the source as it was and gives every
   * other peer the lines, each followed by a newline and in order, after the bytes it
   * already had, marking it as needing a write; a peer that had nothing to write was
   * re-registered once, as its epoll answer decides. How much was sent and the socket stay.
   */
  lemma {:induction false} SentEachDelivers(obs: seq<Outbox>, ps: seq<Peer>, source: Peer?, texts: seq<seq<Byte>>,
                                            regs: seq<EpollReply>, k: nat)
    requires |obs| == |ps| == |regs| && k < |ps|
    ensures SentEach(obs, ps, source, texts, regs)[k] ==
      if ps[k] == source || texts == [] then obs[k]
      else obs[k].(contents := obs[k].contents + Framed(texts), needsWrite := true, epollRegistered := Marked(obs[k], regs[k]))
    decreases |texts|
  {
    if texts != [] {
      var init, last := texts[..|texts| - 1], texts[|texts| - 1];
      assert init + [last] == texts;
      var mid := SentEach(obs, ps, source, init, regs);
      assert SentEach(obs, ps, source, texts, regs)[k] == SentTo(mid[k], ps[k], source, last, regs[k]);
      SentEachDelivers(obs, ps, source, init, regs, k);
      FramedSnoc(init, last);
      if ps[k] != source {
        assert mid[k].contents + (last + [NEWLINE]) == obs[k].contents + Framed(texts) by {
          if init == [] {
            assert Framed(init) == [];
          }
        }
        assert Marked(mid[k], regs[k]) == Marked(obs[k], regs[k]);
      }
    }
  }

  /**
   * Once one broadcast has marked every destination as needing a write, a later broadcast
   * from the same source re-registers none of them, so none of its registrations fails,
   * whatever epoll would answer.
   */
  lemma {:induction false} MarkedNeverFail(obs: seq<Outbox>, ps: seq<Peer>, source: Peer?, texts: seq<seq<Byte>>,
                                           regs: seq<EpollReply>, later: seq<EpollReply>)
    requires |obs| == |ps| == |regs| == |later| && texts != []
    ensures !SomeRegistrationFails(SentEach(obs, ps, source, texts, regs), ps, source, later, |ps|)
  {
    forall k | 0 <= k < |ps|
      ensures !RegistrationFails(SentEach(obs, ps, source, texts, regs)[k], ps[k], source, later[k])
    {
      SentEachDelivers(obs, ps, source, texts, regs, k);
    }
  }

  /**
   * Keeping the first error of a run of broadcasts: the run fails exactly when the first
   * broadcast's registrations fail, since the later ones register nobody.
   */
  lemma FirstError(before: seq<Outbox>, ps: seq<Peer>, source: Peer?, regs: seq<EpollReply>, texts: seq<seq<Byte>>,
                   r0: ChatCode, sent: ChatCode, r: ChatCode)
    requires |before| == |ps| == |regs|
    requires r0 == Sys <==> texts != [] && SomeRegistrationFails(before, ps, source, regs, |ps|)
    requires r0 == Ok || r0 == Sys
    requires sent == Sys <==> SomeRegistrationFails(SentEach(before, ps, source, texts, regs), ps, source, regs, |ps|)
    requires sent == Ok || sent == Sys
    requires r == if r0 == Ok then sent else r0
    ensures r == Sys <==> SomeRegistrationFails(before, ps, source, regs, |ps|)
    ensures r == Ok || r == Sys
  {
    if texts != [] {
      MarkedNeverFail(before, ps, source, texts, regs, regs);
    }
  }

  lemma {:induction false} SomeRegistrationFailsStep(obs: seq<Outbox>, ps: seq<Peer>, source: Peer?,
                                                     regs: seq<EpollReply>, n: nat)
    requires |obs| == |ps| == |regs| && n < |ps|
    ensures SomeRegistrationFails(obs, ps, source, regs, n + 1)
      <==> SomeRegistrationFails(obs, ps, source, regs, n) || RegistrationFails(obs[n], ps[n], source, regs[n])
  {
  }

  /** The state of a peer a broadcast can change. */
  ghost function OutboxOf(p: Peer): Outbox
    reads p, p.output
    requires p.output.Sized()
  {
    Outbox(p.output.Contents(), p.output.processed, p.needsWrite, p.socket, p.epollRegistered)
  }

  ghost predicate OutputsSized(ps: seq<Peer>)
    reads Outputs(ps)
  {
    forall k :: 0 <= k < |ps| ==> ps[k].output.Sized()
  }

  /** The states of some peers, in order. */
  ghost function Outboxes(ps: seq<Peer>): (obs: seq<Outbox>)
    reads ps, Outputs(ps)
    requires OutputsSized(ps)
    ensures |obs| == |ps| && forall k {:trigger obs[k]} :: 0 <= k < |ps| ==> obs[k] == OutboxOf(ps[k])
  {
    seq(|ps|, k requires 0 <= k < |ps| && ps[k].output.Sized() reads ps, Outputs(ps) => OutboxOf(ps[k]))
  }

  /** The buffers of some peers. */
  ghost function Buffers(ps: seq<Peer>): set<object> {
    (set i | 0 <= i < |ps| :: ps[i].input) + (set i | 0 <= i < |ps| :: ps[i].output)
  }

  /** The output buffers of some peers, which a broadcast writes. */
  ghost function Outputs(ps: seq<Peer>): set<object> {
    set i | 0 <= i < |ps| :: ps[i].output
  }

  /** Two different peers, whose buffers are all different. */
  predicate Separate(p: Peer, q: Peer) {
    p != q && p.input != q.input && p.input != q.output && p.output != q.input && p.output != q.output
  }

  /**
   * The line loop's state as values: `contents` is the message queue and `outboxes` the
   * peers' output state once the lines `emitted` of `s` before `pos` are queued after
   * `queued` and broadcast from `source` to the peers `ps` that were `before`, `regs[k]`
   * answering peer `k`'s one re-registration, with `r` the first broadcast error.
   */
  ghost predicate Relayed(s: seq<Byte>, pos: nat, emitted: seq<seq<Byte>>, queued: seq<Message>, isServer: bool,
                          before: seq<Outbox>, ps: seq<Peer>, source: Peer?, regs: seq<EpollReply>, r: ChatCode,
                          contents: seq<Message>, outboxes: seq<Outbox>)
  {
    // Bound to one name, so that the loop checks the state as one fact rather than
    // conjunct by conjunct.
    var holds :=
      && Scanned(s, pos, emitted) && |before| == |ps| == |regs|
      && contents == queued + Tagged(emitted, isServer)
      && outboxes == SentEach(before, ps, source, CStrs(emitted), regs)
      && (r == Sys <==> emitted != [] && SomeRegistrationFails(before, ps, source, regs, |ps|))
      && (r == Ok || r == Sys);
    holds
  }

  /**
   * One pass of the line loop keeps its state: the line up to the next newline is queued
   * and broadcast, and the first error is kept.
   */
  lemma RelayedStep(s: seq<Byte>, pos: nat, emitted: seq<seq<Byte>>, queued: seq<Message>, isServer: bool,
                    before: seq<Outbox>, ps: seq<Peer>, source: Peer?, regs: seq<EpollReply>, r0: ChatCode,
                    contents: seq<Message>, outboxes0: seq<Outbox>, line: seq<Byte>,
                    next: nat, emitted': seq<seq<Byte>>, r: ChatCode, contents': seq<Message>, outboxes: seq<Outbox>)
    requires Relayed(s, pos, emitted, queued, isServer, before, ps, source, regs, r0, contents, outboxes0)
    requires NewlineFrom(s, pos) < |s| && line == s[pos..NewlineFrom(s, pos)]
    requires next == NewlineFrom(s, pos) + 1 && emitted' == emitted + [line]
    requires contents' == contents + [Message(line, isServer)]
    requires outboxes == SentEach(before, ps, source, CStrs(emitted) + [CStr(line)], regs)
    requires r == Sys <==> SomeRegistrationFails(before, ps, source, regs, |ps|)
    requires r == Ok || r == Sys
    ensures Relayed(s, next, emitted', queued, isServer, before, ps, source, regs, r, contents', outboxes)
  {
    CStrsSnoc(emitted, line);
    TaggedSnoc(queued, emitted, line, isServer);
    ScanStep(s, pos, emitted);
  }

  class Server {
    var socket: int
    /** `peers[0 .. peer_count]`; `peerCapacity` is the size of the allocated array. */
    var peers: seq<Peer>
    var peerCapacity: nat
    const queue: Queue
    const serverInput: Buffer

    ghost predicate Valid()
      reads this, serverInput, Buffers(peers)
    {
      && PeersValid(peers)
      && |peers| <= peerCapacity <= MAX_PEERS && PeerCapacity(peerCapacity)
      && serverInput.Valid()
    }

    /** Each peer is valid, and no two peers or a peer and the server's input share an object. */
    ghost predicate PeersValid(ps: seq<Peer>)
      reads serverInput, Buffers(ps)
    {
      && (forall i, j :: 0 <= i < j < |ps| ==> Separate(ps[i], ps[j]))
      && (forall i :: 0 <= i < |ps| ==> ps[i].Valid() && ApartFromInput(ps[i]))
    }

    /** A peer that is in no array position and shares nothing with the server. */
    ghost predicate Apart(p: Peer)
      reads this, serverInput, Buffers(peers), p.input, p.output
    {
      && ApartFromInput(p)
      && forall i :: 0 <= i < |peers| ==> Separate(p, peers[i])
    }

    predicate ApartFromInput(p: Peer) {
      p.input != serverInput && p.output != serverInput
    }

    /** `chat_server_new` once its allocations and `epoll_create1` succeed. */
    constructor ()
      ensures Valid() && queue.Valid() && fresh(queue) && fresh(serverInput)
      ensures socket == -1 && peers == [] && peerCapacity == 0
      ensures queue.Contents() == [] && serverInput.Contents() == []
    {
      socket := -1;
      peers, peerCapacity := [], 0;
      queue := new Queue();
      serverInput := new Buffer(INITIAL_BUFFER_SIZE);
    }

    /**
     * `chat_server_listen`, `bound` being the listening socket when `socket`, `bind`,
     * `listen` and the epoll registration all succeed: a started server is refused.
     */
    method Listen(bound: Option<nat>) returns (r: ChatCode)
      modifies this
      ensures peers == old(peers) && peerCapacity == old(peerCapacity)
      ensures old(socket) >= 0 ==> r == AlreadyStarted && socket == old(socket)
      ensures old(socket) < 0 && bound == None ==> r == Sys && socket == -1
      ensures old(socket) < 0 && bound.Some? ==> r == Ok && socket == bound.value
    {
      if socket >= 0 {
        return AlreadyStarted;
      }
      if bound == None {
        socket := -1;
        return Sys;
      }
      socket := bound.value;
      return Ok;
    }

    /** `chat_server_pop_next`. */
    method PopNext() returns (m: Option<Message>)
      requires queue.Valid()
      modifies queue
      ensures queue.Valid() && queue.Repr == old(queue.Repr)
      ensures old(queue.Contents()) == [] ==> m == None && queue.Contents() == []
      ensures old(queue.Contents()) != [] ==> m == Some(old(queue.Contents())[0]) && queue.Contents() == old(queue.Contents())[1..]
    {
      m := queue.Pop();
    }

    /**
     * `chat_server_get_events`: nothing while not listening, otherwise input, and output
     * exactly when some peer has bytes in its output buffer.
     */
    method GetEvents() returns (e: Events)
      ensures socket < 0 ==> e == NoEvents
      ensures socket >= 0 ==> e == Events(true, exists k :: 0 <= k < |peers| && peers[k].output.length > 0)
    {
      if socket < 0 {
        return NoEvents;
      }
      e := Events(true, false);
      var i := 0;
      while i < |peers|
        invariant i <= |peers|
        invariant forall k :: 0 <= k < i ==> peers[k].output.length == 0
      {
        if peers[i].output.length > 0 {
          e := Events(true, true);
          break;
        }
        i := i + 1;
      }
    }

    /**
     * `server_add_peer`: refused once `MAX_PEERS` peers are there; a full array grows to
     * 16 and then doubles; the peer goes after the others.
     */
    method AddPeer(p: Peer) returns (ok: bool)
      requires Valid() && p.Valid() && Apart(p)
      modifies this
      ensures Valid() && socket == old(socket)
      ensures ok == (old(|peers|) < MAX_PEERS)
      ensures ok ==> peers == old(peers) + [p]
      ensures !ok ==> peers == old(peers) && peerCapacity == old(peerCapacity)
      ensures ok && old(|peers|) < old(peerCapacity) ==> peerCapacity == old(peerCapacity)
      ensures ok && old(|peers|) >= old(peerCapacity) ==> peerCapacity == GrownPeerCapacity(old(peerCapacity))
    {
      if |peers| >= MAX_PEERS {
        return false;
      }
      if |peers| >= peerCapacity {
        GrownPeerCapacityFits(peerCapacity);
        peerCapacity := GrownPeerCapacity(peerCapacity);
      }
      peers := peers + [p];

      return true;
    }

    /**
     * `server_remove_peer`: a peer in the array is taken out of it, the later peers
     * shifted down in order; the array is unchanged when the peer is not in it.
     */
    method RemovePeer(p: Peer)
      requires Valid()
      modifies this
      ensures Valid() && socket == old(socket) && peerCapacity == old(peerCapacity)
      ensures peers == Without(old(peers), p)
    {
      var i := IndexOf(p);
      WithoutAt(peers, p, i);
      if i < |peers| {
        RemoveAt(i);
      }
    }

    /** The `memmove` of `server_remove_peer`: the peers after position `i` move down by one. */
    method RemoveAt(i: nat)
      requires Valid() && i < |peers|
      modifies this
      ensures Valid() && socket == old(socket) && peerCapacity == old(peerCapacity)
      ensures peers == old(peers[..i] + peers[i + 1..])
    {
      RemovalKeepsValid(peers, i);
      peers := peers[..i] + peers[i + 1..];
    }

    /**
     * `broadcast_message`: every peer but the source (every peer when it is NULL) gets
     * the text and a newline after its pending output and is marked as needing a
     * write, a peer that had nothing to write being re-registered as its own epoll answer
     * `regs[k]` decides; the result is `CHAT_ERR_SYS` exactly when one of those
     * re-registrations fails.
     */
    method Broadcast(source: Peer?, text: seq<Byte>, regs: seq<EpollReply>) returns (r: ChatCode)
      requires Valid() && |regs| == |peers|
      modifies peers, Outputs(peers)
      ensures Valid() && peers == old(peers)
      ensures Outboxes(peers) == SentUpTo(old(Outboxes(peers)), peers, source, text, regs, |peers|)
      ensures r == Sys <==> SomeRegistrationFails(old(Outboxes(peers)), peers, source, regs, |peers|)
      ensures r == Ok || r == Sys
    {
      r := Ok;
      var ps := peers;
      ghost var before := Outboxes(ps);
      var i := 0;
      while i < |ps|
        invariant i <= |ps| && peers == ps && Valid()
        invariant Outboxes(ps) == SentUpTo(before, ps, source, text, regs, i)
        invariant r == Sys <==> SomeRegistrationFails(before, ps, source, regs, i)
        invariant r == Ok || r == Sys
      {
        r := BroadcastStep(i, before, source, text, regs, r);
        i := i + 1;
      }
    }

    /**
     * One pass of the loop of `broadcast_message`, which has passed the first `i` peers
     * and whose result so far is `r0`: peer `i` gets the text unless it is the source,
     * and a failed re-registration makes the result `CHAT_ERR_SYS`.
     */
    method BroadcastStep(i: nat, ghost before: seq<Outbox>, source: Peer?, text: seq<Byte>, regs: seq<EpollReply>, r0: ChatCode)
      returns (r: ChatCode)
      requires Valid() && i < |peers| == |before| == |regs|
      requires Outboxes(peers) == SentUpTo(before, peers, source, text, regs, i)
      requires (r0 == Sys <==> SomeRegistrationFails(before, peers, source, regs, i)) && (r0 == Ok || r0 == Sys)
      modifies peers[i], peers[i].output
      ensures Valid() && peers == old(peers)
      ensures Outboxes(peers) == SentUpTo(before, peers, source, text, regs, i + 1)
      ensures (r == Sys <==> SomeRegistrationFails(before, peers, source, regs, i + 1)) && (r == Ok || r == Sys)
    {
      SomeRegistrationFailsStep(before, peers, source, regs, i);
      r := r0;
      if peers[i] == source {
        SentUpToSource(before, peers, source, text, regs, i);
        return;
      }
      ghost var mid := Outboxes(peers);
      assert mid[i] == OutboxOf(peers[i]) == before[i];
      var ok := DeliverAt(i, text, regs[i]);
      if !ok {
        r := Sys;
      }
      SentUpToStep(before, peers, source, text, regs, i);
      ghost var after := Outboxes(peers);
      assert after[i] == OutboxOf(peers[i]);
      forall k | 0 <= k < |peers| && k != i
        ensures after[k] == mid[k]
      {
        assert after[k] == OutboxOf(peers[k]);
      }
      assert after == mid[i := after[i]];
    }

    /** Delivering to peer `i` changes its state and no other peer's. */
    method DeliverAt(i: nat, text: seq<Byte>, reply: EpollReply) returns (ok: bool)
      requires Valid() && i < |peers|
      modifies peers[i], peers[i].output
      ensures Valid() && peers == old(peers)
      ensures OutboxOf(peers[i]) == SentTo(old(OutboxOf(peers[i])), peers[i], null, text, reply)
      ensures ok == !RegistrationFails(old(OutboxOf(peers[i])), peers[i], null, reply)
      ensures forall k :: 0 <= k < |peers| && k != i ==> OutboxOf(peers[k]) == old(OutboxOf(peers[k]))
    {
      ok := peers[i].Deliver(text, reply);
      forall k | 0 <= k < |peers| && k != i
        ensures OutboxOf(peers[k]) == old(OutboxOf(peers[k]))
      {
        assert if k < i then Separate(peers[k], peers[i]) else Separate(peers[i], peers[k]);
      }
    }

    /**
     * The `EPOLLOUT` part of `handle_peer_event` for peer `i`, `replies` being what `send`
     * returns: a peer whose connection closed, was reset or failed is removed, the failure
     * alone giving `Sys`; any other peer has its unsent bytes and write flag updated as
     * `Drained` says, and `update` says whether the flag changed.
     */
    method HandleWritable(i: nat, replies: seq<SendReply>) returns (r: ChatCode, removed: bool, update: bool)
      requires Valid() && i < |peers|
      modifies this, peers[i], peers[i].output
      ensures Valid() && socket == old(socket) && peerCapacity == old(peerCapacity)
      ensures var o := SendAll(old(peers[i].output.length - peers[i].output.processed), replies);
        && removed == Drops(o.stop)
        && r == (if o.stop == SendFailed then Sys else Ok)
        && (removed ==> peers == Without(old(peers), old(peers[i])) && !update)
        && (!removed ==> peers == old(peers) && Outboxes(peers) == old(Outboxes(peers))[i := Drained(old(Outboxes(peers))[i], o)]
                         && update == (peers[i].needsWrite != old(peers[i].needsWrite)))
    {
      var p := peers[i];
      var o;
      o, update := FlushAt(i, replies);
      removed := Drops(o.stop);
      r := if o.stop == SendFailed then Sys else Ok;
      if removed {
        RemovePeer(p);
      }
    }

    /** Flushing peer `i` changes its state and no other peer's. */
    method FlushAt(i: nat, replies: seq<SendReply>) returns (o: SendOutcome, update: bool)
      requires Valid() && i < |peers|
      modifies peers[i], peers[i].output
      ensures Valid() && peers == old(peers)
      ensures o == SendAll(old(peers[i].output.length - peers[i].output.processed), replies)
      ensures Drops(o.stop) ==> !update
      ensures !Drops(o.stop) ==>
        && Outboxes(peers) == old(Outboxes(peers))[i := Drained(old(Outboxes(peers))[i], o)]
        && update == (peers[i].needsWrite != old(peers[i].needsWrite))
    {
      ghost var before := Outboxes(peers);
      o, update := peers[i].Flush(replies);
      forall k | 0 <= k < |peers| && k != i
        ensures OutboxOf(peers[k]) == old(OutboxOf(peers[k]))
      {
        assert if k < i then Separate(peers[k], peers[i]) else Separate(peers[i], peers[k]);
      }
      if !Drops(o.stop) {
        ghost var after := Outboxes(peers);
        assert after[i] == Drained(before[i], o);
        assert after == before[i := Drained(before[i], o)];
      }
    }

    /**
     * The line loop that `process_peer_input` and `chat_server_feed` share, over the bytes
     * `s`: each complete line is queued with the given `is_server_message` flag and then
     * broadcast from `source` up to its first NUL. The result is the first broadcast error,
     * and `pos` the number of bytes the lines and their newlines take.
     */
    method RelayLines(s: seq<Byte>, source: Peer?, isServer: bool, regs: seq<EpollReply>) returns (pos: nat, r: ChatCode)
      requires Valid() && queue.Valid() && |regs| == |peers|
      modifies peers, Outputs(peers), queue, queue.Repr
      ensures Valid() && queue.Valid() && peers == old(peers)
      ensures pos == FramedEnd(s, 0) == |s| - |Pending(s)|
      ensures queue.Contents() == old(queue.Contents()) + Tagged(Lines(s), isServer)
      ensures Outboxes(peers) == SentEach(old(Outboxes(peers)), peers, source, CStrs(Lines(s)), regs)
      ensures r == Sys <==> Lines(s) != [] && SomeRegistrationFails(old(Outboxes(peers)), peers, source, regs, |peers|)
      ensures r == Ok || r == Sys
    {
      ghost var before := Outboxes(peers);
      ghost var queued := queue.Contents();
      RelayStart(s, isServer, source, regs);
      ghost var emitted;
      pos, r, emitted := RelayFrom(s, source, isServer, regs, queued, before);
      RelayDone(s, pos, emitted, queued, isServer, before, source, regs, r);
    }

    /**
     * The line loop itself: it cuts, queues and broadcasts line after line until no
     * newline is left after `pos`.
     */
    method RelayFrom(s: seq<Byte>, source: Peer?, isServer: bool, regs: seq<EpollReply>, ghost queued: seq<Message>,
                     ghost before: seq<Outbox>) returns (pos: nat, r: ChatCode, ghost emitted: seq<seq<Byte>>)
      requires Valid() && Relaying(s, 0, [], queued, isServer, before, source, regs, Ok)
      modifies peers, Outputs(peers), queue, queue.Repr
      ensures Valid() && Relaying(s, pos, emitted, queued, isServer, before, source, regs, r)
      ensures pos <= |s| && NewlineFrom(s, pos) == |s|
      ensures peers == old(peers) && fresh(queue.Repr - old(queue.Repr))
    {
      var ps := peers;
      emitted := [];
      r := Ok;
      pos := 0;
      while NewlineFrom(s, pos) < |s|
        invariant Valid() && Relaying(s, pos, emitted, queued, isServer, before, source, regs, r) && peers == ps && pos <= |s|
        invariant fresh(queue.Repr - old(queue.Repr))
        decreases |s| - pos
      {
        pos, r, emitted := RelayLine(s, pos, emitted, queued, isServer, before, source, regs, r);
      }
    }

    /** Before the line loop nothing is cut, queued or broadcast. */
    lemma RelayStart(s: seq<Byte>, isServer: bool, source: Peer?, regs: seq<EpollReply>)
      requires Valid() && queue.Valid() && |regs| == |peers|
      ensures Relaying(s, 0, [], queue.Contents(), isServer, Outboxes(peers), source, regs, Ok)
    {
      assert queue.Contents() + Tagged([], isServer) == queue.Contents();
    }

    /** Where the line loop finds no more newline, it has queued and broadcast every line. */
    lemma RelayDone(s: seq<Byte>, pos: nat, emitted: seq<seq<Byte>>, queued: seq<Message>, isServer: bool,
                    before: seq<Outbox>, source: Peer?, regs: seq<EpollReply>, r: ChatCode)
      requires Valid() && Relaying(s, pos, emitted, queued, isServer, before, source, regs, r)
      requires pos == |s| || NewlineFrom(s, pos) == |s|
      ensures Valid() && queue.Valid() && pos == FramedEnd(s, 0) == |s| - |Pending(s)|
      ensures queue.Contents() == queued + Tagged(Lines(s), isServer)
      ensures Outboxes(peers) == SentEach(before, peers, source, CStrs(Lines(s)), regs)
      ensures r == Sys <==> Lines(s) != [] && SomeRegistrationFails(before, peers, source, regs, |peers|)
      ensures r == Ok || r == Sys
    {
      ScanDone(s, pos, emitted);
    }

    /**
     * The state of the line loop over `s` at `pos`: `emitted` are the lines cut so far,
     * each queued after `queued` and broadcast from `source` to the peers that were
     * `before`, and `r` is the first broadcast error.
     */
    ghost predicate Relaying(s: seq<Byte>, pos: nat, emitted: seq<seq<Byte>>, queued: seq<Message>, isServer: bool,
                             before: seq<Outbox>, source: Peer?, regs: seq<EpollReply>, r: ChatCode)
      reads this, serverInput, peers, Buffers(peers), queue, queue.Repr
    {
      && OutputsSized(peers) && queue.Valid()
      && Relayed(s, pos, emitted, queued, isServer, before, peers, source, regs, r, queue.Contents(), Outboxes(peers))
    }

    /** `server_queue_push`: the message goes to the back of the queue; no peer changes. */
    method Enqueue(m: Message)
      requires Valid() && queue.Valid()
      modifies queue, queue.Repr
      ensures Valid() && queue.Valid() && fresh(queue.Repr - old(queue.Repr))
      ensures queue.Contents() == old(queue.Contents()) + [m]
      ensures Outboxes(peers) == old(Outboxes(peers))
    {
      queue.Push(m);
    }

    /**
     * The `broadcast_message` call of the line loop, `texts` being the lines broadcast
     * before: the first error is kept, and the message queue is left alone.
     */
    method BroadcastLine(text: seq<Byte>, source: Peer?, regs: seq<EpollReply>,
                         ghost before: seq<Outbox>, ghost texts: seq<seq<Byte>>, r0: ChatCode) returns (r: ChatCode)
      requires Valid() && queue.Valid() && |before| == |peers| == |regs|
      requires Outboxes(peers) == SentEach(before, peers, source, texts, regs)
      requires r0 == Sys <==> texts != [] && SomeRegistrationFails(before, peers, source, regs, |peers|)
      requires r0 == Ok || r0 == Sys
      modifies peers, Outputs(peers)
      ensures Valid() && peers == old(peers)
      ensures queue.Valid() && queue.Repr == old(queue.Repr) && queue.Contents() == old(queue.Contents())
      ensures Outboxes(peers) == SentEach(before, peers, source, texts + [text], regs)
      ensures r == Sys <==> SomeRegistrationFails(before, peers, source, regs, |peers|)
      ensures r == Ok || r == Sys
    {
      var sent := Broadcast(source, text, regs);
      r := if r0 == Ok then sent else r0;
      FirstError(before, peers, source, regs, texts, r0, sent, r);
      SentEachSnoc(before, peers, source, texts, text, regs);
    }

    /** One pass of the line loop: queue the line at `pos`, then broadcast it, keeping the first error. */
    method RelayLine(s: seq<Byte>, pos: nat, ghost emitted: seq<seq<Byte>>, ghost queued: seq<Message>, isServer: bool,
                     ghost before: seq<Outbox>, source: Peer?, regs: seq<EpollReply>, r0: ChatCode)
      returns (next: nat, r: ChatCode, ghost emitted': seq<seq<Byte>>)
      requires Valid() && Relaying(s, pos, emitted, queued, isServer, before, source, regs, r0)
      requires pos <= |s| && NewlineFrom(s, pos) < |s|
      modifies peers, Outputs(peers), queue, queue.Repr
      ensures next == NewlineFrom(s, pos) + 1 && pos < next <= |s| && emitted' == emitted + [s[pos..NewlineFrom(s, pos)]]
      ensures Valid() && Relaying(s, next, emitted', queued, isServer, before, source, regs, r)
      ensures peers == old(peers) && fresh(queue.Repr - old(queue.Repr))
    {
      var nl := NewlineFrom(s, pos);
      var line := s[pos..nl];
      ghost var contents, outboxes := queue.Contents(), Outboxes(peers);
      Enqueue(Message(line, isServer));
      r := BroadcastLine(CStr(line), source, regs, before, CStrs(emitted), r0);
      next, emitted' := nl + 1, emitted + [line];
      RelayedStep(s, pos, emitted, queued, isServer, before, peers, source, regs, r0, contents, outboxes, line,
                  next, emitted', r, queue.Contents(), Outboxes(peers));
    }

    /**
     * `process_peer_input` for peer `i`: its complete lines are queued as client messages
     * and broadcast to every other peer, in order, and only the partial last line stays in
     * its input buffer. Broadcast errors are ignored.
     */
    method ProcessPeerInput(i: nat, regs: seq<EpollReply>)
      requires Valid() && queue.Valid() && i < |peers| == |regs|
      modifies peers, Outputs(peers), peers[i].input, queue, queue.Repr
      ensures Valid() && queue.Valid() && peers == old(peers)
      ensures queue.Contents() == old(queue.Contents()) + Tagged(Lines(old(peers[i].input.Contents())), false)
      ensures Outboxes(peers) == SentEach(old(Outboxes(peers)), peers, peers[i], CStrs(Lines(old(peers[i].input.Contents()))), regs)
      ensures peers[i].input.Viewed() == Consumed(old(peers[i].input.Viewed()), FramedEnd(old(peers[i].input.Contents()), 0))
      ensures peers[i].input.Contents() == Pending(old(peers[i].input.Contents()))
    {
      var p := peers[i];
      InputApart(i);
      var s := p.input.data[..p.input.length];
      var pos, _ := RelayLines(s, p, false, regs);
      if pos > 0 {
        ConsumeInput(i, pos);
      }
    }

    /** Peer `i`'s input buffer is no output buffer and no other peer's input buffer. */
    lemma InputApart(i: nat)
      requires Valid() && i < |peers|
      ensures peers[i].input !in Outputs(peers)
      ensures forall k :: 0 <= k < |peers| && k != i ==> peers[k].input != peers[i].input
    {
      forall k | 0 <= k < |peers| && k != i
        ensures peers[k].output != peers[i].input && peers[k].input != peers[i].input
      {
        assert if k < i then Separate(peers[k], peers[i]) else Separate(peers[i], peers[k]);
      }
    }

    /** `buffer_consume` on peer `i`'s input buffer, which shares nothing with the other buffers. */
    method ConsumeInput(i: nat, count: nat)
      requires Valid() && i < |peers|
      modifies peers[i].input
      ensures Valid() && peers == old(peers) && Outboxes(peers) == old(Outboxes(peers))
      ensures peers[i].input.Viewed() == Consumed(old(peers[i].input.Viewed()), count)
    {
      InputApart(i);
      peers[i].input.Consume(count);
    }

    /**
     * `chat_server_feed`, its inner `chat_server_update(server, 0)` call left out: a null
     * or empty message is refused, a server that is not listening is `NotStarted`, and
     * otherwise the bytes go after the server's pending input, whose complete lines are
     * queued as server messages and broadcast to every peer, the partial last line
     * staying. The result is the first broadcast error: `Sys` exactly when there is a line
     * and re-registering some peer that had nothing to write fails.
     */
    method Feed(msg: Option<seq<Byte>>, regs: seq<EpollReply>) returns (r: ChatCode)
      requires Valid() && queue.Valid() && |regs| == |peers|
      modifies serverInput, peers, Outputs(peers), queue, queue.Repr
      ensures Valid() && queue.Valid() && peers == old(peers)
      ensures msg.None? || msg.value == [] || socket < 0 ==>
        && r == (if msg.None? || msg.value == [] then InvalidArgument else NotStarted)
        && queue.Contents() == old(queue.Contents()) && Outboxes(peers) == old(Outboxes(peers))
        && serverInput.Viewed() == old(serverInput.Viewed())
      ensures msg.Some? && msg.value != [] && socket >= 0 ==>
        var s := old(serverInput.Contents()) + msg.value;
        && queue.Contents() == old(queue.Contents()) + Tagged(Lines(s), true)
        && Outboxes(peers) == SentEach(old(Outboxes(peers)), peers, null, CStrs(Lines(s)), regs)
        && serverInput.Contents() == Pending(s)
        && (r == Sys <==> Lines(s) != [] && SomeRegistrationFails(old(Outboxes(peers)), peers, null, regs, |peers|))
        && (r == Ok || r == Sys)
    {
      if msg.None? || msg.value == [] {
        return InvalidArgument;
      }
      if socket < 0 {
        return NotStarted;
      }
      r := FeedBytes(msg.value, regs);
    }

    /** The part of `chat_server_feed` after its checks, on the bytes `bytes`. */
    method FeedBytes(bytes: seq<Byte>, regs: seq<EpollReply>) returns (r: ChatCode)
      requires Valid() && queue.Valid() && |regs| == |peers|
      modifies serverInput, peers, Outputs(peers), queue, queue.Repr
      ensures Valid() && queue.Valid() && peers == old(peers)
      ensures var s := old(serverInput.Contents()) + bytes;
        && queue.Contents() == old(queue.Contents()) + Tagged(Lines(s), true)
        && Outboxes(peers) == SentEach(old(Outboxes(peers)), peers, null, CStrs(Lines(s)), regs)
        && serverInput.Contents() == Pending(s)
        && (r == Sys <==> Lines(s) != [] && SomeRegistrationFails(old(Outboxes(peers)), peers, null, regs, |peers|))
        && (r == Ok || r == Sys)
    {
      AppendInput(bytes);
      var s := serverInput.data[..serverInput.length];
      var pos;
      InputNotOutput();
      pos, r := RelayLines(s, null, true, regs);
      ConsumeServerInput(pos);
    }

    /** `buffer_append` on the server's input buffer, which no peer shares. */
    method AppendInput(bytes: seq<Byte>)
      requires Valid() && queue.Valid()
      modifies serverInput
      ensures Valid() && queue.Valid() && queue.Repr == old(queue.Repr) && queue.Contents() == old(queue.Contents())
      ensures Outboxes(peers) == old(Outboxes(peers))
      ensures serverInput.Contents() == old(serverInput.Contents()) + bytes
    {
      InputNotOutput();
      serverInput.Append(bytes);
    }

    /**
     * The `buffer_consume` that ends `chat_server_feed`, skipped for a count of zero: what
     * is left of the server's input buffer is what follows the first `count` bytes.
     */
    method ConsumeServerInput(count: nat)
      requires Valid() && queue.Valid() && count <= serverInput.length
      modifies serverInput
      ensures Valid() && queue.Valid() && queue.Repr == old(queue.Repr) && queue.Contents() == old(queue.Contents())
      ensures Outboxes(peers) == old(Outboxes(peers))
      ensures serverInput.Contents() == old(serverInput.Contents())[count..]
    {
      InputNotOutput();
      if count > 0 {
        serverInput.Consume(count);
      }
    }

    /** The server's input buffer belongs to no peer. */
    lemma InputNotOutput()
      requires Valid()
      ensures serverInput !in Outputs(peers)
    {
      forall k | 0 <= k < |peers|
        ensures peers[k].output != serverInput
      {
        assert ApartFromInput(peers[k]);
      }
    }

    /** The search loop of `server_remove_peer`: the first position holding `p`, or `|peers|`. */
    method IndexOf(p: Peer) returns (i: nat)
      ensures i <= |peers| && p !in peers[..i] && (i < |peers| ==> peers[i] == p)
    {
      i := 0;
      while i < |peers| && peers[i] != p
        invariant i <= |peers| && p !in peers[..i]
      {
        i := i + 1;
      }
    }

    /** Taking one peer out of a valid array leaves a valid array. */
    lemma RemovalKeepsValid(ps: seq<Peer>, i: nat)
      requires i < |ps| && PeersValid(ps)
      ensures PeersValid(ps[..i] + ps[i + 1..])
    {
      var qs := ps[..i] + ps[i + 1..];
      assert forall k :: 0 <= k < |qs| ==> qs[k] == if k < i then ps[k] else ps[k + 1];
    }
  }

  /** The array after the `memmove` at the first index holding `p`, or unchanged when none does. */
  lemma {:induction false} WithoutAt(ps: seq<Peer>, p: Peer, i: nat)
    requires i <= |ps| && p !in ps[..i] && (i < |ps| ==> ps[i] == p)
    ensures Without(ps, p) == if i < |ps| then ps[..i] + ps[i + 1..] else ps
  {
    if ps != [] && i > 0 {
      assert ps[0] == ps[..i][0] && ps[0] != p;
      assert ps[1..][..i - 1] == ps[..i][1..];
      WithoutAt(ps[1..], p, i - 1);
      assert Without(ps, p) == [ps[0]] + Without(ps[1..], p);
      if i < |ps| {
        assert ps[1..][i..] == ps[i + 1..];
        assert ps[..i] == [ps[0]] + ps[1..][..i - 1];
      } else {
        assert ps == [ps[0]] + ps[1..];
      }
    } else if ps != [] {
      assert ps[..0] + ps[1..] == ps[1..];
    }
  }
}
