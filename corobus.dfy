/**
 * The coroutine channel bus of 1/corobus.c: a table of bounded FIFO channels of
 * `unsigned` values indexed by integer handles, each channel with a queue of senders
 * waiting for room and a queue of receivers waiting for data.
 *
 * Coroutines are not run. A suspended coroutine is an id in a wake-up queue;
 * `coro_suspend` is the end of a step (`Suspended`), and what the coroutine does once
 * woken is a separate step, `Bus.Resume`. Waking up names the coroutine to resume.
 * The process-wide error cell is a returned value: `None` when a call leaves it alone.
 */
module CoroBus {
  import opened Common

  /** The `CORO_BUS_ERR_*` codes the bus sets. */
  datatype BusError = NoChannel | WouldBlock

  /** A call's C result (0 or -1) and what it writes to the error cell, if anything. */
  datatype Reply = Reply(rc: int, err: Option<BusError>)

  const Done := Reply(0, None)

  /** A suspended coroutine. */
  type CoroId = nat

  /** The coroutine `wakeup_queue_wakeup_first` resumes: the head of the queue, if any. */
  function First(q: seq<CoroId>): (w: Option<CoroId>)
    ensures w.Some? <==> q != []
    ensures w.Some? ==> w.value == q[0]
  {
    if q == [] then None else Some(q[0])
  }

  /** The queue once `c` has unlinked its entry (`rlist_del_entry`): its first occurrence goes. */
  function Unlinked(q: seq<CoroId>, c: CoroId): (r: seq<CoroId>)
    ensures c !in q ==> r == q
    ensures c in q ==> |r| == |q| - 1
    ensures q != [] && q[0] == c ==> r == q[1..]
  {
    if q == [] then []
    else if q[0] == c then q[1..]
    else [q[0]] + Unlinked(q[1..], c)
  }

  /** Unlinking takes exactly one entry of `c` out of the queue, and no other coroutine's. */
  lemma {:induction false} UnlinkedRemovesOne(q: seq<CoroId>, c: CoroId)
    ensures multiset(Unlinked(q, c)) == multiset(q) - multiset{c}
  {
    if q != [] {
      assert q == [q[0]] + q[1..];
      if q[0] != c {
        UnlinkedRemovesOne(q[1..], c);
      }
    }
  }

  /** The state of one open channel. */
  datatype ChannelState = ChannelState(limit: nat, contents: seq<U32>, senders: seq<CoroId>, receivers: seq<CoroId>)

  predicate Full(s: ChannelState) {
    |s.contents| >= s.limit
  }

  /** Which wake-up queue of a channel a coroutine waits in. */
  datatype Side = Sending | Receiving

  function Waiting(s: ChannelState, side: Side): seq<CoroId> {
    if side == Sending then s.senders else s.receivers
  }

  class Channel {
    /** `size_limit`, fixed at open. */
    const sizeLimit: nat
    /** `data.data`: `size_limit` slots allocated at open. */
    const buf: array<U32>
    /** `data.size`. */
    var size: nat
    var senders: seq<CoroId>
    var receivers: seq<CoroId>

    ghost predicate Valid()
      reads this
    {
      0 < sizeLimit == buf.Length && size <= sizeLimit
    }

    ghost function State(): ChannelState
      reads this, buf
      requires Valid()
    {
      ChannelState(sizeLimit, buf[..size], senders, receivers)
    }

    /** The allocation part of `coro_bus_channel_open`: empty, with both queues empty. */
    constructor (limit: nat)
      requires limit > 0
      ensures Valid() && fresh(buf) && State() == ChannelState(limit, [], [], [])
    {
      sizeLimit := limit;
      buf := new U32[limit](_ => 0);
      size := 0;
      senders, receivers := [], [];
    }

    /** `data[size++] = data` on a channel with room, then the first receiver is woken. */
    method Push(v: U32) returns (woken: Option<CoroId>)
      requires Valid() && size < sizeLimit
      modifies this, buf
      ensures Valid() && State() == old(State()).(contents := old(State()).contents + [v])
      ensures woken == First(receivers)
    {
      buf[size] := v;
      size := size + 1;
      assert buf[..size] == old(buf[..size]) + [v];
      woken := First(receivers);
    }

    /**
     * Taking the oldest value of a non-empty channel: the rest move one slot toward the
     * front (`memmove`), then the first sender is woken.
     */
    method Pop() returns (v: U32, woken: Option<CoroId>)
      requires Valid() && size > 0
      modifies this, buf
      ensures Valid() && v == old(State()).contents[0]
      ensures State() == old(State()).(contents := old(State()).contents[1..])
      ensures woken == First(senders)
    {
      v := buf[0];
      if size > 1 {
        forall i | 0 <= i < size - 1 {
          buf[i] := buf[i + 1];
        }
      }
      size := size - 1;
      woken := First(senders);
    }

    /** `wakeup_queue_suspend_this` up to `coro_suspend`: the caller joins the tail of a queue. */
    method Suspend(side: Side, me: CoroId)
      requires Valid()
      modifies this
      ensures Valid() && State() == if side == Sending then old(State()).(senders := old(senders) + [me])
                                    else old(State()).(receivers := old(receivers) + [me])
    {
      if side == Sending {
        senders := senders + [me];
      } else {
        receivers := receivers + [me];
      }
    }

    /** `rlist_del_entry` once a suspended coroutine resumes. */
    method Unlink(side: Side, me: CoroId)
      requires Valid()
      modifies this
      ensures Valid() && State() == if side == Sending then old(State()).(senders := Unlinked(old(senders), me))
                                    else old(State()).(receivers := Unlinked(old(receivers), me))
    {
      if side == Sending {
        senders := Unlinked(senders, me);
      } else {
        receivers := Unlinked(receivers, me);
      }
    }

    /**
     * The two loops of `coro_bus_channel_close`: every sender, then every receiver, is
     * taken off the head of its queue and woken, in queue order.
     */
    method WakeAll() returns (woken: seq<CoroId>)
      requires Valid()
      modifies this
      ensures Valid() && size == old(size)
      ensures woken == old(senders) + old(receivers) && senders == [] && receivers == []
    {
      woken := [];
      while senders != []
        invariant Valid() && size == old(size) && receivers == old(receivers)
        invariant woken + senders == old(senders)
        decreases |senders|
      {
        woken := woken + [senders[0]];
        senders := senders[1..];
      }
      while receivers != []
        invariant Valid() && size == old(size) && senders == []
        invariant woken + receivers == old(senders) + old(receivers)
        decreases |receivers|
      {
        woken := woken + [receivers[0]];
        receivers := receivers[1..];
      }
    }
  }

  /** `try_send` on a channel state: the value goes in at the tail unless the channel is full. */
  function TrySent(s: ChannelState, v: U32): ChannelState {
    if Full(s) then s else s.(contents := s.contents + [v])
  }

  /** `try_recv` on a channel state: the oldest value goes unless the channel is empty. */
  function TryReceived(s: ChannelState): ChannelState {
    if s.contents == [] then s else s.(contents := s.contents[1..])
  }

  /** A non-blocking call on one channel. */
  datatype Call = TrySendCall(v: U32) | TryRecvCall

  function Apply(s: ChannelState, c: Call): ChannelState {
    match c
    case TrySendCall(v) => TrySent(s, v)
    case TryRecvCall => TryReceived(s)
  }

  /** The channel after a series of non-blocking calls. */
  function Ran(s: ChannelState, calls: seq<Call>): ChannelState
    decreases |calls|
  {
    if calls == [] then s else Ran(Apply(s, calls[0]), calls[1..])
  }

  /** The value a call received: the oldest, when it is a `try_recv` on a non-empty channel. */
  function Got(s: ChannelState, c: Call): seq<U32> {
    if c == TryRecvCall && s.contents != [] then [s.contents[0]] else []
  }

  /** The value a call got in: its own, when it is a `try_send` on a channel with room. */
  function Put(s: ChannelState, c: Call): seq<U32> {
    if c.TrySendCall? && !Full(s) then [c.v] else []
  }

  /** The values the receiving calls of a series got, in order. */
  function Received(s: ChannelState, calls: seq<Call>): seq<U32>
    decreases |calls|
  {
    if calls == [] then [] else Got(s, calls[0]) + Received(Apply(s, calls[0]), calls[1..])
  }

  /** The values the sending calls of a series got into the channel, in order. */
  function Accepted(s: ChannelState, calls: seq<Call>): seq<U32>
    decreases |calls|
  {
    if calls == [] then [] else Put(s, calls[0]) + Accepted(Apply(s, calls[0]), calls[1..])
  }

  /** One call takes from the head of the channel or adds at its tail, never both. */
  lemma ApplyIsFifo(s: ChannelState, c: Call)
    ensures Got(s, c) + Apply(s, c).contents == s.contents + Put(s, c)
  {
    if c == TryRecvCall && s.contents != [] {
      assert s.contents == [s.contents[0]] + s.contents[1..];
    }
  }

  /**
   * A channel is first-in first-out: over any series of `try_send`/`try_recv` calls, what
   * was received followed by what is left is what was there followed by what was sent in.
   */
  lemma {:induction false} RanIsFifo(s: ChannelState, calls: seq<Call>)
    ensures Received(s, calls) + Ran(s, calls).contents == s.contents + Accepted(s, calls)
    decreases |calls|
  {
    if calls != [] {
      var c, rest := calls[0], calls[1..];
      var s1 := Apply(s, c);
      assert Received(s, calls) == Got(s, c) + Received(s1, rest);
      assert Accepted(s, calls) == Put(s, c) + Accepted(s1, rest);
      assert Ran(s, calls) == Ran(s1, rest);
      RanIsFifo(s1, rest);
      ApplyIsFifo(s, c);
      Regroup(Got(s, c), Received(s1, rest), Ran(s1, rest).contents, s1.contents, Accepted(s1, rest), s.contents, Put(s, c));
    }
  }

  /** The regrouping of concatenations the induction step of `RanIsFifo` needs. */
  lemma Regroup(g: seq<U32>, a: seq<U32>, b: seq<U32>, m: seq<U32>, c: seq<U32>, s: seq<U32>, p: seq<U32>)
    requires a + b == m + c && g + m == s + p
    ensures (g + a) + b == s + (p + c)
  {
    calc {
      (g + a) + b;
      g + (a + b);
      g + (m + c);
      (g + m) + c;
      (s + p) + c;
      s + (p + c);
    }
  }

  /** No series of non-blocking calls takes a channel past its limit or changes the limit. */
  lemma {:induction false} RanWithinLimit(s: ChannelState, calls: seq<Call>)
    requires |s.contents| <= s.limit
    ensures Ran(s, calls).limit == s.limit && |Ran(s, calls).contents| <= s.limit
    decreases |calls|
  {
    if calls != [] {
      RanWithinLimit(Apply(s, calls[0]), calls[1..]);
    }
  }

  /**
   * `try_broadcast` on a table none of whose open channels is full does to every open
   * channel what `try_send` would, and keeps each within its limit.
   */
  lemma BroadcastIsTrySendEach(ss: seq<Option<ChannelState>>, v: U32)
    requires !SomeFull(ss)
    ensures forall k :: 0 <= k < |ss| && ss[k].Some? ==> AppendedUpTo(ss, v, |ss|)[k] == Some(TrySent(ss[k].value, v))
    ensures forall k :: 0 <= k < |ss| && ss[k].Some? && |ss[k].value.contents| <= ss[k].value.limit ==>
      |AppendedUpTo(ss, v, |ss|)[k].value.contents| <= ss[k].value.limit
  {
  }

  /** What a blocking `send`/`recv` step ends with: a finished call, or a suspended caller. */
  datatype Step = Finished(reply: Reply, woken: Option<CoroId>) | Suspended

  /** Two open slots never share a channel or a data array. */
  predicate Distinct(cs: seq<Option<Channel>>) {
    forall h, g :: 0 <= h < |cs| && 0 <= g < |cs| && h != g && cs[h].Some? && cs[g].Some? ==>
      cs[h].value != cs[g].value && cs[h].value.buf != cs[g].value.buf
  }

  /** Some open channel in the table is full. */
  predicate SomeFull(ss: seq<Option<ChannelState>>) {
    exists k :: 0 <= k < |ss| && ss[k].Some? && Full(ss[k].value)
  }

  /** The table once the first `i` open channels have `v` appended. */
  function AppendedUpTo(ss: seq<Option<ChannelState>>, v: U32, i: nat): (r: seq<Option<ChannelState>>)
    ensures |r| == |ss|
    ensures forall k {:trigger r[k]} :: 0 <= k < |ss| ==>
      r[k] == if k < i && ss[k].Some? then Some(ss[k].value.(contents := ss[k].value.contents + [v])) else ss[k]
  {
    seq(|ss|, k requires 0 <= k < |ss| =>
      if k < i && ss[k].Some? then Some(ss[k].value.(contents := ss[k].value.contents + [v])) else ss[k])
  }

  /** Passing slot `i` appends to it if it is open and leaves the rest of the table alone. */
  lemma AppendedStep(ss: seq<Option<ChannelState>>, v: U32, i: nat)
    requires i < |ss|
    ensures AppendedUpTo(ss, v, i + 1) == AppendedUpTo(ss, v, i)[i := AppendedUpTo(ss, v, i + 1)[i]]
  {
    assert AppendedUpTo(ss, v, i)[i := AppendedUpTo(ss, v, i + 1)[i]] == AppendedUpTo(ss, v, i + 1);
  }

  /** The receivers woken when the first `i` open channels each get a value: each one's first. */
  function WokenUpTo(ss: seq<Option<ChannelState>>, i: nat): seq<CoroId>
    requires i <= |ss|
  {
    if i == 0 then []
    else WokenUpTo(ss, i - 1) + (if ss[i - 1].Some? && ss[i - 1].value.receivers != [] then [ss[i - 1].value.receivers[0]] else [])
  }

  /**
   * The handle bookkeeping of `coro_bus_channel_open` and `_close` as written: the handles
   * of the open channels and `channel_count`. Open hands out `channel_count` and
   * increments it; close decrements it.
   */
  datatype Handles = Handles(open: set<int>, count: int)

  function OpenAsWritten(t: Handles): (Handles, int) {
    (Handles(t.open + {t.count}, t.count + 1), t.count)
  }

  function CloseAsWritten(t: Handles, h: int): Handles {
    Handles(t.open - {h}, t.count - 1)
  }

  /**
   * As written, an open after a close hands out a handle that is still open: open gives
   * 0 and 1, closing 0 brings the count back to 1, and the next open gives 1 again.
   */
  lemma OpenAfterCloseAliases()
    ensures var (t1, a) := OpenAsWritten(Handles({}, 0));
            var (t2, b) := OpenAsWritten(t1);
            var t3 := CloseAsWritten(t2, a);
            var (t4, c) := OpenAsWritten(t3);
            a == 0 && b == 1 && c == b && c in t3.open
  {
  }

  /**
   * What a coroutine woken in `send` or `recv` on channel `h` checks as written before it
   * goes round its loop again: only that the bus still has an open channel
   * (`bus->channels` is not `NULL`), whichever channel it waits on.
   */
  predicate ResumeFailsAsWritten(b: Bus, h: nat)
    reads b
  {
    b.NoneOpen()
  }

  /**
   * As written, a coroutine woken by the close of its own channel `h` while another
   * channel stays open does not fail: it goes round its loop on the freed channel, where
   * `Bus.Resume` fails with `NO_CHANNEL`.
   */
  lemma ResumeAfterCloseContinues(b: Bus, h: nat, other: nat)
    requires h < |b.channels| && !b.IsOpen(h) && b.IsOpen(other)
    ensures !ResumeFailsAsWritten(b, h)
  {
    assert b.channels[other].Some?;
  }

  class Bus {
    /** `channels[0 .. max_channel_count)`; a closed channel's slot holds `None`. */
    var channels: seq<Option<Channel>>
    /** The channels and data arrays the bus has allocated. */
    ghost var Repr: set<object>

    ghost predicate Valid()
      reads this, Repr
    {
      && (forall h :: 0 <= h < |channels| && channels[h].Some? ==>
            channels[h].value in Repr && channels[h].value.buf in Repr && channels[h].value.Valid())
      && Distinct(channels)
    }

    predicate IsOpen(h: int)
      reads this
    {
      0 <= h < |channels| && channels[h].Some?
    }

    /** No channel is open: in the C bus, `channels` is `NULL` and `max_channel_count` is 0. */
    predicate NoneOpen()
      reads this
    {
      forall h :: 0 <= h < |channels| ==> channels[h].None?
    }

    /** The states of the table's slots, `None` for a closed one. */
    ghost function State(): (ss: seq<Option<ChannelState>>)
      reads this, Repr
      requires Valid()
      ensures |ss| == |channels|
      ensures forall h {:trigger ss[h]} :: 0 <= h < |channels| ==>
        ss[h] == if channels[h].Some? then Some(channels[h].value.State()) else None
    {
      seq(|channels|, h requires 0 <= h < |channels| && Valid() reads this, Repr =>
        if channels[h].Some? then Some(channels[h].value.State()) else None)
    }

    /** `coro_bus_new` once its allocation succeeds. */
    constructor ()
      ensures Valid() && channels == []
    {
      channels := [];
      Repr := {};
    }

    /**
     * `coro_bus_channel_open`: a zero limit fails with `NO_CHANNEL` and changes nothing;
     * otherwise an empty channel with that limit takes a new slot at the end of the table,
     * and its handle is one no open channel has.
     */
    method Open(sizeLimit: nat) returns (reply: Reply)
      requires Valid()
      modifies this
      ensures Valid()
      ensures sizeLimit == 0 ==> reply == Reply(-1, Some(NoChannel)) && channels == old(channels)
      ensures sizeLimit > 0 ==>
        && reply == Reply(|old(channels)|, None) && !old(IsOpen(reply.rc)) && IsOpen(reply.rc)
        && State() == old(State()) + [Some(ChannelState(sizeLimit, [], [], []))]
    {
      if sizeLimit == 0 {
        return Reply(-1, Some(NoChannel));
      }
      var ch := new Channel(sizeLimit);
      channels := channels + [Some(ch)];
      Repr := Repr + {ch, ch.buf};
      reply := Reply(|channels| - 1, None);
    }

    /**
     * `coro_bus_channel_close`: a negative handle, or a bus with no open channel, is
     * ignored. Otherwise every waiting sender, then every waiting receiver, is woken in
     * queue order, the error becomes `NO_CHANNEL` if anyone was woken, and the slot closes.
     */
    method Close(h: int) returns (woken: seq<CoroId>, err: Option<BusError>)
      requires Valid() && (h < 0 || NoneOpen() || IsOpen(h))
      modifies this, if IsOpen(h) then {channels[h].value} else {}
      ensures Valid() && |channels| == |old(channels)|
      ensures h < 0 || old(NoneOpen()) ==> woken == [] && err == None && channels == old(channels)
      ensures 0 <= h && !old(NoneOpen()) ==>
        && woken == old(State())[h].value.senders + old(State())[h].value.receivers
        && err == (if woken == [] then None else Some(NoChannel))
        && State() == old(State())[h := None]
    {
      if h < 0 || NoneOpen() {
        return [], None;
      }
      var ch := channels[h].value;
      woken := ch.WakeAll();
      err := if woken == [] then None else Some(NoChannel);
      channels := channels[h := None];
      forall k | 0 <= k < |channels| && channels[k].Some?
        ensures channels[k].value.Valid() && channels[k].value.State() == old(channels[k].value.State())
      {
        assert channels[k] == old(channels[k]) && old(channels[k].value) != ch;
      }
    }

    /** Appending to open channel `h`, which has room, and waking its first receiver. */
    method PushAt(h: nat, v: U32) returns (woken: Option<CoroId>)
      requires Valid() && IsOpen(h) && !Full(State()[h].value)
      modifies channels[h].value, channels[h].value.buf
      ensures Valid() && channels == old(channels)
      ensures State() == old(State())[h := Some(old(State())[h].value.(contents := old(State())[h].value.contents + [v]))]
      ensures woken == First(old(State())[h].value.receivers)
    {
      var ch := channels[h].value;
      woken := ch.Push(v);
      forall k | 0 <= k < |channels| && k != h && channels[k].Some?
        ensures channels[k].value.Valid() && channels[k].value.State() == old(channels[k].value.State())
      {
        assert channels[k].value != ch && channels[k].value.buf != ch.buf;
      }
    }

    /** Taking the oldest value of open channel `h`, which is not empty, and waking its first sender. */
    method PopAt(h: nat) returns (value: U32, woken: Option<CoroId>)
      requires Valid() && IsOpen(h) && State()[h].value.contents != []
      modifies channels[h].value, channels[h].value.buf
      ensures Valid() && channels == old(channels)
      ensures value == old(State())[h].value.contents[0]
      ensures State() == old(State())[h := Some(old(State())[h].value.(contents := old(State())[h].value.contents[1..]))]
      ensures woken == First(old(State())[h].value.senders)
    {
      var ch := channels[h].value;
      value, woken := ch.Pop();
      forall k | 0 <= k < |channels| && k != h && channels[k].Some?
        ensures channels[k].value.Valid() && channels[k].value.State() == old(channels[k].value.State())
      {
        assert channels[k].value != ch && channels[k].value.buf != ch.buf;
      }
    }

    /** Coroutine `me` joins the tail of a wake-up queue of open channel `h`. */
    method SuspendAt(h: nat, side: Side, me: CoroId)
      requires Valid() && IsOpen(h)
      modifies channels[h].value
      ensures Valid() && channels == old(channels)
      ensures var s := old(State())[h].value;
        State() == old(State())[h := Some(if side == Sending then s.(senders := s.senders + [me])
                                          else s.(receivers := s.receivers + [me]))]
    {
      var ch := channels[h].value;
      ch.Suspend(side, me);
      forall k | 0 <= k < |channels| && k != h && channels[k].Some?
        ensures channels[k].value.Valid() && channels[k].value.State() == old(channels[k].value.State())
      {
        assert channels[k].value != ch;
      }
    }

    /**
     * `coro_bus_try_send`: a negative handle or a bus with no open channel fails with
     * `NO_CHANNEL`, a full channel with `WOULD_BLOCK`, both changing nothing; otherwise the
     * value joins the tail of the channel and its first waiting receiver is woken.
     */
    method TrySend(h: int, v: U32) returns (reply: Reply, woken: Option<CoroId>)
      requires Valid() && (h < 0 || NoneOpen() || IsOpen(h))
      modifies if IsOpen(h) then {channels[h].value, channels[h].value.buf} else {}
      ensures Valid() && channels == old(channels)
      ensures h < 0 || NoneOpen() ==> reply == Reply(-1, Some(NoChannel)) && woken == None && State() == old(State())
      ensures 0 <= h && !NoneOpen() ==>
        var s := old(State())[h].value;
        && reply == (if Full(s) then Reply(-1, Some(WouldBlock)) else Done)
        && woken == (if Full(s) then None else First(s.receivers))
        && State() == old(State())[h := Some(TrySent(s, v))]
    {
      if h < 0 || NoneOpen() {
        return Reply(-1, Some(NoChannel)), None;
      }
      var ch := channels[h].value;
      if ch.size >= ch.sizeLimit {
        return Reply(-1, Some(WouldBlock)), None;
      }
      woken := PushAt(h, v);
      reply := Done;
    }

    /**
     * `coro_bus_try_recv`: a negative handle or a bus with no open channel fails with
     * `NO_CHANNEL`, an empty channel with `WOULD_BLOCK`, both changing nothing; otherwise
     * the oldest value is returned, the rest keep their order, and the first waiting
     * sender is woken.
     */
    method TryRecv(h: int) returns (reply: Reply, value: U32, woken: Option<CoroId>)
      requires Valid() && (h < 0 || NoneOpen() || IsOpen(h))
      modifies if IsOpen(h) then {channels[h].value, channels[h].value.buf} else {}
      ensures Valid() && channels == old(channels)
      ensures h < 0 || NoneOpen() ==> reply == Reply(-1, Some(NoChannel)) && woken == None && State() == old(State())
      ensures 0 <= h && !NoneOpen() ==>
        var s := old(State())[h].value;
        && reply == (if s.contents == [] then Reply(-1, Some(WouldBlock)) else Done)
        && (s.contents != [] ==> value == s.contents[0])
        && woken == (if s.contents == [] then None else First(s.senders))
        && State() == old(State())[h := Some(TryReceived(s))]
    {
      value := 0;
      if h < 0 || NoneOpen() {
        return Reply(-1, Some(NoChannel)), value, None;
      }
      var ch := channels[h].value;
      if ch.size == 0 {
        return Reply(-1, Some(WouldBlock)), value, None;
      }
      value, woken := PopAt(h);
      reply := Done;
    }

    /**
     * One pass through `coro_bus_send` by coroutine `me`, on the call or after `Resume`
     * sends it round the loop again: on a full channel `me` joins the tail of the send
     * queue and suspends; otherwise the value goes in and the first receiver is woken.
     */
    method Send(h: int, v: U32, me: CoroId) returns (step: Step)
      requires Valid() && (h < 0 || NoneOpen() || IsOpen(h))
      modifies if IsOpen(h) then {channels[h].value, channels[h].value.buf} else {}
      ensures Valid() && channels == old(channels)
      ensures h < 0 || NoneOpen() ==> step == Finished(Reply(-1, Some(NoChannel)), None) && State() == old(State())
      ensures 0 <= h && !NoneOpen() ==>
        var s := old(State())[h].value;
        && (Full(s) ==> step == Suspended && State() == old(State())[h := Some(s.(senders := s.senders + [me]))])
        && (!Full(s) ==> step == Finished(Done, First(s.receivers)) && State() == old(State())[h := Some(TrySent(s, v))])
    {
      if h < 0 || NoneOpen() {
        return Finished(Reply(-1, Some(NoChannel)), None);
      }
      var ch := channels[h].value;
      if ch.size >= ch.sizeLimit {
        SuspendAt(h, Sending, me);
        return Suspended;
      }
      var woken := PushAt(h, v);
      step := Finished(Done, woken);
    }

    /**
     * One pass through `coro_bus_recv` by coroutine `me`: on an empty channel `me` joins
     * the tail of the receive queue and suspends; otherwise the oldest value is taken and
     * the first sender is woken.
     */
    method Recv(h: int, me: CoroId) returns (step: Step, value: U32)
      requires Valid() && (h < 0 || NoneOpen() || IsOpen(h))
      modifies if IsOpen(h) then {channels[h].value, channels[h].value.buf} else {}
      ensures Valid() && channels == old(channels)
      ensures h < 0 || NoneOpen() ==> step == Finished(Reply(-1, Some(NoChannel)), None) && State() == old(State())
      ensures 0 <= h && !NoneOpen() ==>
        var s := old(State())[h].value;
        && (s.contents == [] ==> step == Suspended && State() == old(State())[h := Some(s.(receivers := s.receivers + [me]))])
        && (s.contents != [] ==> step == Finished(Done, First(s.senders)) && value == s.contents[0]
                                 && State() == old(State())[h := Some(TryReceived(s))])
    {
      value := 0;
      if h < 0 || NoneOpen() {
        return Finished(Reply(-1, Some(NoChannel)), None), value;
      }
      var ch := channels[h].value;
      if ch.size == 0 {
        SuspendAt(h, Receiving, me);
        return Suspended, value;
      }
      var woken;
      value, woken := PopAt(h);
      step := Finished(Done, woken);
    }

    /**
     * What coroutine `me`, suspended in the `side` queue of channel `h` by `Send` or
     * `Recv`, does once woken: it unlinks its queue entry, then fails with `NO_CHANNEL`
     * if its channel has been closed; otherwise (`None`) its call goes round its loop again.
     */
    method Resume(h: nat, side: Side, me: CoroId) returns (failed: Option<Reply>)
      requires Valid() && h < |channels|
      modifies if IsOpen(h) then {channels[h].value} else {}
      ensures Valid() && channels == old(channels)
      ensures !IsOpen(h) ==> failed == Some(Reply(-1, Some(NoChannel))) && State() == old(State())
      ensures IsOpen(h) ==>
        var s := old(State())[h].value;
        && failed == None
        && State() == old(State())[h := Some(if side == Sending then s.(senders := Unlinked(s.senders, me))
                                             else s.(receivers := Unlinked(s.receivers, me)))]
    {
      if !IsOpen(h) {
        return Some(Reply(-1, Some(NoChannel)));
      }
      UnlinkAt(h, side, me);
      failed := None;
    }

    /**
     * `coro_bus_try_broadcast`: a bus with no open channel fails with `NO_CHANNEL`; if any
     * open channel is full the call fails with `WOULD_BLOCK` before any channel changes;
     * otherwise every open channel gets the value at its tail and wakes its first receiver.
     */
    method TryBroadcast(v: U32) returns (reply: Reply, woken: seq<CoroId>)
      requires Valid()
      modifies Repr
      ensures Valid() && channels == old(channels)
      ensures NoneOpen() ==> reply == Reply(-1, Some(NoChannel)) && woken == [] && State() == old(State())
      ensures !NoneOpen() && SomeFull(old(State())) ==> reply == Reply(-1, Some(WouldBlock)) && woken == [] && State() == old(State())
      ensures !NoneOpen() && !SomeFull(old(State())) ==>
        && reply == Done
        && State() == AppendedUpTo(old(State()), v, |channels|)
        && woken == WokenUpTo(old(State()), |channels|)
    {
      woken := [];
      if NoneOpen() {
        return Reply(-1, Some(NoChannel)), woken;
      }
      var room := AllHaveRoom();
      if !room {
        return Reply(-1, Some(WouldBlock)), woken;
      }
      var sent;
      woken, sent := AppendAll(v);
      reply := if sent > 0 then Done else Reply(-1, None);
    }

    /** The first loop of `coro_bus_try_broadcast`: whether every open channel has room. */
    method AllHaveRoom() returns (room: bool)
      requires Valid()
      ensures room == !SomeFull(State())
    {
      var i := 0;
      while i < |channels|
        invariant i <= |channels|
        invariant forall k :: 0 <= k < i && channels[k].Some? ==> !Full(State()[k].value)
      {
        if channels[i].Some? && channels[i].value.size >= channels[i].value.sizeLimit {
          assert Full(State()[i].value);
          return false;
        }
        i := i + 1;
      }
      return true;
    }

    /** No channel below slot `i` is open. */
    predicate NoneOpenBelow(i: nat)
      reads this
      requires i <= |channels|
    {
      forall k :: 0 <= k < i ==> channels[k].None?
    }

    /**
     * The second loop of `coro_bus_try_broadcast`, on a bus whose open channels all have
     * room: each gets the value and wakes its first receiver; `sent` counts them.
     */
    method AppendAll(v: U32) returns (woken: seq<CoroId>, sent: nat)
      requires Valid() && !SomeFull(State())
      modifies Repr
      ensures Valid() && channels == old(channels)
      ensures State() == AppendedUpTo(old(State()), v, |channels|) && woken == WokenUpTo(old(State()), |channels|)
      ensures sent > 0 <==> !NoneOpen()
    {
      ghost var before := State();
      woken, sent := [], 0;
      var i := 0;
      assert AppendedUpTo(before, v, 0) == before;
      while i < |channels|
        invariant Appending(before, v, i, woken, sent) && channels == old(channels)
      {
        woken, sent := AppendStep(i, v, before, woken, sent);
        i := i + 1;
      }
    }

    /**
     * The second loop of `coro_bus_try_broadcast` has passed the first `i` slots of a
     * table that was `before`: those open channels have the value, their first receivers
     * are woken, and `sent` counts them.
     */
    ghost predicate Appending(before: seq<Option<ChannelState>>, v: U32, i: nat, woken: seq<CoroId>, sent: nat)
      reads this, Repr
    {
      // Bound to one name, so that the loop checks the state as one fact rather than conjunct by conjunct.
      var holds :=
        && i <= |channels| == |before| && Valid() && !SomeFull(before)
        && State() == AppendedUpTo(before, v, i) && woken == WokenUpTo(before, i)
        && (sent > 0 <==> !NoneOpenBelow(i));
      holds
    }

    /** One pass of the second loop of `coro_bus_try_broadcast`, at slot `i`. */
    method AppendStep(i: nat, v: U32, ghost before: seq<Option<ChannelState>>, woken0: seq<CoroId>, sent0: nat)
      returns (woken: seq<CoroId>, sent: nat)
      requires Appending(before, v, i, woken0, sent0) && i < |channels|
      modifies if IsOpen(i) then {channels[i].value, channels[i].value.buf} else {}
      ensures Appending(before, v, i + 1, woken, sent) && channels == old(channels)
    {
      if channels[i].None? {
        ClosedSlotPassed(i, v, before, woken0, sent0);
        return woken0, sent0;
      }
      woken, sent := AppendOpen(i, v, before, woken0, sent0);
    }

    /** The second loop of `coro_bus_try_broadcast` skips a closed slot. */
    lemma ClosedSlotPassed(i: nat, v: U32, before: seq<Option<ChannelState>>, woken: seq<CoroId>, sent: nat)
      requires Appending(before, v, i, woken, sent) && i < |channels| && channels[i].None?
      ensures Appending(before, v, i + 1, woken, sent)
    {
      assert State()[i] == before[i];
      AppendedStep(before, v, i);
    }

    /** The second loop of `coro_bus_try_broadcast` at an open slot: the value goes in. */
    method AppendOpen(i: nat, v: U32, ghost before: seq<Option<ChannelState>>, woken0: seq<CoroId>, sent0: nat)
      returns (woken: seq<CoroId>, sent: nat)
      requires Appending(before, v, i, woken0, sent0) && IsOpen(i)
      modifies channels[i].value, channels[i].value.buf
      ensures Appending(before, v, i + 1, woken, sent) && channels == old(channels)
    {
      assert State()[i] == before[i];
      AppendedStep(before, v, i);
      var w := PushAt(i, v);
      woken := if w.Some? then woken0 + [w.value] else woken0;
      sent := sent0 + 1;
    }

    /** Coroutine `me` leaves a wake-up queue of open channel `h`. */
    method UnlinkAt(h: nat, side: Side, me: CoroId)
      requires Valid() && IsOpen(h)
      modifies channels[h].value
      ensures Valid() && channels == old(channels)
      ensures var s := old(State())[h].value;
        State() == old(State())[h := Some(if side == Sending then s.(senders := Unlinked(s.senders, me))
                                          else s.(receivers := Unlinked(s.receivers, me)))]
    {
      var ch := channels[h].value;
      ch.Unlink(side, me);
      forall k | 0 <= k < |channels| && k != h && channels[k].Some?
        ensures channels[k].value.Valid() && channels[k].value.State() == old(channels[k].value.State())
      {
        assert channels[k].value != ch;
      }
    }
  }
}
