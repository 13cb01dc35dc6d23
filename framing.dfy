/**
 * The newline framing shared by the chat server (5/chat_server.c) and client
 * (5/chat_client.c): the bytes received so far are cut at each '\n' into messages,
 * and whatever follows the last '\n' waits for more input.
 */
module Framing {
  import opened Common

  /** The first index at or after `i` holding a newline, or `|s|` when there is none (`memchr`). */
  function NewlineFrom(s: seq<Byte>, i: nat): (j: nat)
    requires i <= |s|
    ensures i <= j <= |s|
    decreases |s| - i
  {
    if i == |s| || s[i] == NEWLINE then i else NewlineFrom(s, i + 1)
  }

  lemma {:induction false} NewlineFromFinds(s: seq<Byte>, i: nat)
    requires i <= |s|
    ensures forall k :: i <= k < NewlineFrom(s, i) ==> s[k] != NEWLINE
    ensures NewlineFrom(s, i) < |s| ==> s[NewlineFrom(s, i)] == NEWLINE
    decreases |s| - i
  {
    if i < |s| && s[i] != NEWLINE {
      NewlineFromFinds(s, i + 1);
    }
  }

  /** The complete lines of `s[i..]`, newlines stripped, in order. */
  function LinesFrom(s: seq<Byte>, i: nat): seq<seq<Byte>>
    requires i <= |s|
    decreases |s| - i
  {
    var j := NewlineFrom(s, i);
    if j == |s| then [] else [s[i..j]] + LinesFrom(s, j + 1)
  }

  /** The index just after the last newline of `s[i..]`, or `i` when it has none. */
  function FramedEnd(s: seq<Byte>, i: nat): (e: nat)
    requires i <= |s|
    ensures i <= e <= |s|
    decreases |s| - i
  {
    var j := NewlineFrom(s, i);
    if j == |s| then i else FramedEnd(s, j + 1)
  }

  /** One step of the cut: the line ending at the next newline, then the rest. */
  lemma LineStep(s: seq<Byte>, i: nat)
    requires i <= |s| && NewlineFrom(s, i) < |s|
    ensures LinesFrom(s, i) == [s[i..NewlineFrom(s, i)]] + LinesFrom(s, NewlineFrom(s, i) + 1)
    ensures FramedEnd(s, i) == FramedEnd(s, NewlineFrom(s, i) + 1)
  {
  }

  function Lines(s: seq<Byte>): seq<seq<Byte>> {
    LinesFrom(s, 0)
  }

  /** The partial line after the last newline, left in the buffer. */
  function Pending(s: seq<Byte>): seq<Byte> {
    s[FramedEnd(s, 0)..]
  }

  /** Messages written one after the other, each followed by a newline. */
  function Framed(ms: seq<seq<Byte>>): seq<Byte> {
    if ms == [] then [] else ms[0] + [NEWLINE] + Framed(ms[1..])
  }

  /** Framing one more message adds it and its newline at the end. */
  lemma {:induction false} FramedSnoc(ms: seq<seq<Byte>>, m: seq<Byte>)
    ensures Framed(ms + [m]) == Framed(ms) + m + [NEWLINE]
    decreases |ms|
  {
    if ms != [] {
      assert (ms + [m])[1..] == ms[1..] + [m];
      FramedSnoc(ms[1..], m);
    } else {
      assert Framed([m]) == m + [NEWLINE] + Framed([]);
    }
  }

  /** The lines cut from `s[i..]`, framed again, are exactly the bytes up to the last newline. */
  lemma {:induction false} FramedLinesFrom(s: seq<Byte>, i: nat)
    requires i <= |s|
    ensures Framed(LinesFrom(s, i)) == s[i..FramedEnd(s, i)]
    decreases |s| - i
  {
    var j := NewlineFrom(s, i);
    if j < |s| {
      NewlineFromFinds(s, i);
      var ls := LinesFrom(s, i);
      var e := FramedEnd(s, j + 1);
      FramedLinesFrom(s, j + 1);
      assert ls[0] == s[i..j] && ls[1..] == LinesFrom(s, j + 1);
      assert Framed(ls) == s[i..j] + [NEWLINE] + s[j + 1..e];
      assert s[i..e] == s[i..j] + [s[j]] + s[j + 1..e];
    }
  }

  /** Cutting loses nothing: the framed lines followed by the pending bytes give back `s`. */
  lemma {:induction false} FramingSplits(s: seq<Byte>)
    ensures Framed(Lines(s)) + Pending(s) == s
    ensures NEWLINE !in Pending(s)
  {
    FramedLinesFrom(s, 0);
    PendingHasNoNewline(s, 0);
  }

  lemma {:induction false} PendingHasNoNewline(s: seq<Byte>, i: nat)
    requires i <= |s|
    ensures NEWLINE !in s[FramedEnd(s, i)..]
    decreases |s| - i
  {
    var j := NewlineFrom(s, i);
    NewlineFromFinds(s, i);
    if j < |s| {
      PendingHasNoNewline(s, j + 1);
    } else {
      assert forall k :: 0 <= k < |s[i..]| ==> s[i..][k] == s[i + k];
    }
  }

  /** A line holds no newline. */
  predicate IsLine(m: seq<Byte>) {
    NEWLINE !in m
  }

  /** Framing messages that hold no newline and cutting the result again gives them back. */
  lemma {:induction false} LinesOfFramed(ms: seq<seq<Byte>>, t: seq<Byte>)
    requires forall k :: 0 <= k < |ms| ==> IsLine(ms[k])
    requires NEWLINE !in t
    ensures Lines(Framed(ms) + t) == ms
    ensures Pending(Framed(ms) + t) == t
  {
    LinesOfFramedFrom(ms, t, [], 0);
    assert [] + Framed(ms) + t == Framed(ms) + t;
  }

  lemma {:induction false} LinesOfFramedFrom(ms: seq<seq<Byte>>, t: seq<Byte>, p: seq<Byte>, i: nat)
    requires forall k :: 0 <= k < |ms| ==> IsLine(ms[k])
    requires NEWLINE !in t && i == |p|
    ensures LinesFrom(p + Framed(ms) + t, i) == ms
    ensures FramedEnd(p + Framed(ms) + t, i) == |p| + |Framed(ms)|
    decreases |ms|
  {
    var s := p + Framed(ms) + t;
    if ms == [] {
      assert s[i..] == t;
      NewlineAbsent(s, i);
    } else {
      var m := ms[0];
      assert s == p + m + [NEWLINE] + (Framed(ms[1..]) + t);
      NewlineAt(s, i, m);
      var p' := p + m + [NEWLINE];
      assert s == p' + Framed(ms[1..]) + t;
      LinesOfFramedFrom(ms[1..], t, p', i + |m| + 1);
      assert s[i..i + |m|] == m;
    }
  }

  lemma {:induction false} NewlineAbsent(s: seq<Byte>, i: nat)
    requires i <= |s| && NEWLINE !in s[i..]
    ensures NewlineFrom(s, i) == |s|
    decreases |s| - i
  {
    if i < |s| {
      assert s[i] == s[i..][0];
      assert s[i + 1..] == s[i..][1..];
      NewlineAbsent(s, i + 1);
    }
  }

  lemma {:induction false} NewlineAt(s: seq<Byte>, i: nat, m: seq<Byte>)
    requires i + |m| < |s| && s[i..i + |m|] == m && NEWLINE !in m && s[i + |m|] == NEWLINE
    ensures NewlineFrom(s, i) == i + |m|
    decreases |m|
  {
    if m != [] {
      assert s[i] == m[0];
      assert s[i + 1..i + |m|] == m[1..];
      NewlineAt(s, i + 1, m[1..]);
    }
  }

  /** `strlen`: the bytes before the first NUL. */
  function CStr(s: seq<Byte>): (r: seq<Byte>)
    ensures |r| <= |s| && r == s[..|r|] && 0 !in r
    ensures |r| < |s| ==> s[|r|] == 0
  {
    if s == [] || s[0] == 0 then [] else [s[0]] + CStr(s[1..])
  }

  /**
   * The state of a loop that cuts `s` into lines: `emitted` are the lines before `pos`,
   * and the lines from `pos` on complete them.
   */
  predicate Scanned(s: seq<Byte>, pos: nat, emitted: seq<seq<Byte>>) {
    pos <= |s| && emitted + LinesFrom(s, pos) == Lines(s) && FramedEnd(s, pos) == FramedEnd(s, 0)
  }

  /** Cutting the line that ends at the next newline keeps the loop's state. */
  lemma ScanStep(s: seq<Byte>, pos: nat, emitted: seq<seq<Byte>>)
    requires Scanned(s, pos, emitted) && NewlineFrom(s, pos) < |s|
    ensures Scanned(s, NewlineFrom(s, pos) + 1, emitted + [s[pos..NewlineFrom(s, pos)]])
  {
    var nl := NewlineFrom(s, pos);
    LineStep(s, pos);
    assert emitted + [s[pos..nl]] + LinesFrom(s, nl + 1) == emitted + ([s[pos..nl]] + LinesFrom(s, nl + 1));
  }

  /** Where the loop finds no more newline, it has cut every line and the partial line starts at `pos`. */
  lemma ScanDone(s: seq<Byte>, pos: nat, emitted: seq<seq<Byte>>)
    requires Scanned(s, pos, emitted) && (pos == |s| || NewlineFrom(s, pos) == |s|)
    ensures emitted == Lines(s) && pos == FramedEnd(s, 0) == |s| - |Pending(s)|
  {
    assert LinesFrom(s, pos) == [] && FramedEnd(s, pos) == pos;
  }
}
