/**
 * The growable byte buffer of 5/buffer.c: `length` bytes of data followed by a NUL,
 * a `processed` mark used by the chat code for bytes already sent, and a capacity that
 * starts at 1024 from nothing and doubles until the data fits.
 */
module ByteBuffer {
  import opened Common

  const INITIAL_BUFFER_SIZE: nat := 1024

  /** The capacity the doubling loop of `buffer_ensure_space` reaches from `cap` for `target` bytes. */
  function GrownCapacity(cap: nat, target: nat): nat
    decreases if cap >= target then 0 else if cap == 0 then target + 1 else target - cap
  {
    if cap >= target then cap
    else GrownCapacity(if cap == 0 then INITIAL_BUFFER_SIZE else cap * 2, target)
  }

  /** Growth reaches the target, never shrinks, and stops at the first doubling that fits. */
  lemma {:induction false} GrownCapacityFits(cap: nat, target: nat)
    ensures GrownCapacity(cap, target) >= target && GrownCapacity(cap, target) >= cap
    ensures cap < target ==> GrownCapacity(cap, target) < 2 * target || GrownCapacity(cap, target) == INITIAL_BUFFER_SIZE
    decreases if cap >= target then 0 else if cap == 0 then target + 1 else target - cap
  {
    if cap < target {
      var next := if cap == 0 then INITIAL_BUFFER_SIZE else cap * 2;
      GrownCapacityFits(next, target);
    }
  }

  /** What the chat code sees of a buffer: its bytes and how many of them are processed. */
  datatype View = View(contents: seq<Byte>, processed: nat)

  /** The view after `buffer_consume(count)`. */
  function Consumed(v: View, count: nat): (r: View)
    ensures v.processed <= |v.contents| ==> r.processed <= |r.contents|
    ensures |r.contents| <= |v.contents|
  {
    if count == 0 then v
    else if count >= |v.contents| then View([], 0)
    else View(v.contents[count..], if v.processed >= count then v.processed - count else 0)
  }

  /** Consuming what was there before an append leaves exactly the appended bytes. */
  lemma {:induction false} ConsumeUndoesPrefix(c: seq<Byte>, p: nat, b: seq<Byte>)
    requires p <= |c|
    ensures Consumed(View(c + b, p), |c|).contents == b
    ensures b != [] ==> Consumed(View(c + b, p), |c|).processed == 0
  {
    if c == [] {
      assert c + b == b;
    } else if b != [] {
      assert (c + b)[|c|..] == b;
    }
  }

  /** Two consumes in a row consume the sum of their counts. */
  lemma {:induction false} ConsumeAdds(v: View, a: nat, b: nat)
    ensures Consumed(Consumed(v, a), b) == Consumed(v, a + b)
  {
    if a > 0 && b > 0 && a < |v.contents| {
      var w := Consumed(v, a);
      if b < |w.contents| {
        assert w.contents[b..] == v.contents[a + b..];
      }
    }
  }

  class Buffer {
    /** The allocation, `capacity` bytes long; the freed buffer's NULL pointer is the empty sequence. */
    var data: seq<Byte>
    var capacity: nat
    var length: nat
    var processed: nat

    /** The counters fit the allocation. */
    ghost predicate Sized()
      reads this
    {
      |data| == capacity && processed <= length <= capacity && (capacity == 0 ==> length == 0)
    }

    /**
     * After `init`, `append` and a non-empty `consume` the data is also NUL-terminated
     * inside the allocation; a buffer whose counters are reset in place is only `Sized`.
     */
    ghost predicate Valid()
      reads this
    {
      Sized() && (capacity > 0 ==> length < capacity && data[length] == 0)
    }

    function Contents(): seq<Byte>
      reads this
      requires Sized()
    {
      data[..length]
    }

    function Viewed(): View
      reads this
      requires Sized()
    {
      View(Contents(), processed)
    }

    /** `buffer_init` on an allocation that succeeds: empty, NUL-terminated, `initial_capacity` bytes. */
    constructor (initialCapacity: nat)
      requires initialCapacity > 0
      ensures Valid()
      ensures capacity == initialCapacity && length == 0 && processed == 0
      ensures Contents() == []
    {
      data := [0] + seq(initialCapacity - 1, _ => 0);
      capacity := initialCapacity;
      length, processed := 0, 0;
    }

    /** `buffer_free`: the allocation is released and every counter is 0. */
    method Free()
      modifies this
      ensures Valid()
      ensures capacity == 0 && length == 0 && processed == 0 && Contents() == []
    {
      data := [];
      capacity, length, processed := 0, 0, 0;
    }

    /**
     * `buffer_ensure_space`: nothing changes when `needed` more bytes already fit;
     * otherwise the capacity doubles (from 1024 when 0) until they do, keeping the bytes.
     * The bytes `realloc` adds are uninitialised: the model makes them 0 and promises
     * nothing about them.
     */
    method EnsureSpace(needed: nat)
      requires Sized()
      modifies this
      ensures Sized()
      ensures old(Valid()) && old(capacity) > 0 ==> Valid()
      ensures length == old(length) && processed == old(processed)
      ensures capacity == GrownCapacity(old(capacity), old(length) + needed)
      ensures capacity >= length + needed
      ensures old(capacity) >= old(length) + needed ==> data == old(data)
      ensures data[..old(capacity)] == old(data)
    {
      GrownCapacityFits(capacity, length + needed);
      if capacity >= length + needed {
        return;
      }
      var newCapacity := capacity;
      while newCapacity < length + needed
        invariant newCapacity >= capacity
        invariant GrownCapacity(newCapacity, length + needed) == GrownCapacity(capacity, length + needed)
        decreases if newCapacity == 0 then length + needed + 1 else length + needed - newCapacity
      {
        newCapacity := if newCapacity == 0 then INITIAL_BUFFER_SIZE else newCapacity * 2;
      }
      data, capacity := data + seq(newCapacity - capacity, _ => 0), newCapacity;
    }

    /**
     * `buffer_append`: the bytes go after the old ones, which stay as they were, and a
     * NUL follows them.
     */
    method Append(bytes: seq<Byte>)
      requires Sized()
      modifies this
      ensures Valid()
      ensures Contents() == old(Contents()) + bytes
      ensures processed == old(processed)
      ensures capacity == GrownCapacity(old(capacity), old(length) + |bytes| + 1)
      ensures capacity > length
    {
      EnsureSpace(|bytes| + 1);
      Put(bytes);
      data := data[length := 0];
    }

    /**
     * The `memcpy` into reserved space that `buffer_append` and the server's broadcast
     * share: the bytes go after the old ones and `length` moves past them.
     */
    method Put(bytes: seq<Byte>)
      requires Sized() && length + |bytes| <= capacity
      modifies this
      ensures Sized() && capacity == old(capacity) && processed == old(processed)
      ensures Contents() == old(Contents()) + bytes
      ensures data[length..] == old(data)[length..]
    {
      data := data[..length] + bytes + data[length + |bytes|..];
      length := length + |bytes|;
    }

    /**
     * `buffer_consume`: drops the first `count` bytes by shifting the rest down and moves
     * the processed mark back by as much, not below 0.
     */
    method Consume(count: nat)
      requires Sized()
      modifies this
      ensures Sized() && (count > 0 || old(Valid()) ==> Valid())
      ensures capacity == old(capacity)
      ensures Viewed() == Consumed(old(Viewed()), count)
    {
      if count == 0 {
        return;
      }
      if count >= length {
        length, processed := 0, 0;
      } else {
        data := data[count..length] + data[length - count..];
        length := length - count;
        processed := if processed >= count then processed - count else 0;
      }
      if capacity > 0 {
        data := data[length := 0];
      }
    }
  }
}
