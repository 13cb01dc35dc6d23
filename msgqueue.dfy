/**
 * The singly linked message queue that both the chat server (5/chat_server.c) and the
 * chat client (5/chat_client.c) keep between the receiving code and `pop_next`:
 * `head` and `tail` pointers, push at the tail, pop at the head.
 */
module MessageQueue {
  import opened Common

  /** A received chat line; `isServer` is the `is_server_message` flag. */
  datatype Message = Message(data: seq<Byte>, isServer: bool)

  /** The messages queued for some lines, each tagged with the same `is_server_message`. */
  function Tagged(lines: seq<seq<Byte>>, isServer: bool): (ms: seq<Message>)
    ensures |ms| == |lines| && forall k :: 0 <= k < |ms| ==> ms[k] == Message(lines[k], isServer)
  {
    seq(|lines|, k requires 0 <= k < |lines| => Message(lines[k], isServer))
  }

  /** Queuing one more line after some tagged lines extends the queue by its message. */
  lemma TaggedSnoc(before: seq<Message>, lines: seq<seq<Byte>>, line: seq<Byte>, isServer: bool)
    ensures before + Tagged(lines + [line], isServer) == before + Tagged(lines, isServer) + [Message(line, isServer)]
  {
    assert Tagged(lines + [line], isServer) == Tagged(lines, isServer) + [Message(line, isServer)];
  }

  class Node {
    var msg: Message
    var next: Node?

    constructor (m: Message)
      ensures msg == m && next == null
    {
      msg, next := m, null;
    }
  }

  class Queue {
    var head: Node?
    var tail: Node?
    /** The nodes from `head` to `tail`, in list order. */
    ghost var nodes: seq<Node>
    /** The nodes as a set: the part of the heap the queue owns. */
    ghost var Repr: set<Node>

    ghost predicate Valid()
      reads this, Repr
    {
      && (forall i :: 0 <= i < |nodes| ==> nodes[i] in Repr)
      && (forall i, j :: 0 <= i < j < |nodes| ==> nodes[i] != nodes[j])
      && (forall i :: 0 <= i < |nodes| - 1 ==> nodes[i].next == nodes[i + 1])
      && (if nodes == [] then head == null && tail == null
          else head == nodes[0] && tail == nodes[|nodes| - 1] && tail.next == null)
    }

    /** The queued messages, oldest first. */
    ghost function Contents(): seq<Message>
      reads this, Repr
      requires Valid()
    {
      seq(|nodes|, i reads this, Repr requires 0 <= i < |nodes| && nodes[i] in Repr => nodes[i].msg)
    }

    constructor ()
      ensures Valid() && Contents() == [] && nodes == [] && Repr == {}
    {
      head, tail := null, null;
      nodes, Repr := [], {};
    }

    /** `server_queue_push` / `client_queue_push`: a new node goes after the tail. */
    method Push(m: Message)
      requires Valid()
      modifies this, Repr
      ensures Valid() && fresh(Repr - old(Repr))
      ensures Contents() == old(Contents()) + [m]
    {
      var node := new Node(m);
      if tail != null {
        tail.next := node;
      } else {
        head := node;
      }
      tail := node;
      nodes, Repr := nodes + [node], Repr + {node};
      assert forall i :: 0 <= i < |old(nodes)| ==> nodes[i].msg == old(nodes[i].msg);
    }

    /**
     * `chat_server_pop_next` / `chat_client_pop_next`: the oldest message, or `None` (NULL)
     * when the queue is empty; the tail is cleared when the last node leaves.
     */
    method Pop() returns (m: Option<Message>)
      requires Valid()
      modifies this
      ensures Valid()
      ensures old(Contents()) == [] ==> m == None && Contents() == []
      ensures old(Contents()) != [] ==> m == Some(old(Contents())[0]) && Contents() == old(Contents())[1..]
      ensures Repr == old(Repr)
    {
      if head == null {
        return None;
      }
      var node := head;
      m := Some(node.msg);
      head := node.next;
      if head == null {
        tail := null;
      }
      nodes := nodes[1..];
    }
  }
}
