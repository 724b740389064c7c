/**
 The ring buffer between the radio task and the main loop: N slots, one of them always free,
 packets dropped when it is full. It serves control packets (8 slots) and raw push frames
 (24 slots). Pushing and popping each run inside one critical section, so a ring sees some
 sequence of whole operations. What the radio task tests before it enters the section is not
 part of the push; module PushSession lets anything happen in between.
 */
module Queues {

  /** A full queue drops the newcomer. */
  function Offer<T>(q: seq<T>, x: T, slots: nat): seq<T> {
    if |q| + 1 < slots then q + [x] else q
  }

  // --- every interleaving -------------------------------------------------------------------

  datatype Op<T> = Put(x: T) | Get

  /** What is queued, what was let in and what was handed out, in order. */
  datatype Log<T> = Log(queue: seq<T>, accepted: seq<T>, taken: seq<T>)

  function Step<T>(h: Log<T>, op: Op<T>, slots: nat): Log<T> {
    match op
    case Put(x) =>
      var q := Offer(h.queue, x, slots);
      if |q| > |h.queue| then h.(queue := q, accepted := h.accepted + [x]) else h
    case Get =>
      if h.queue == [] then h else h.(queue := h.queue[1..], taken := h.taken + [h.queue[0]])
  }

  function Replay<T>(ops: seq<Op<T>>, slots: nat): Log<T> {
    if ops == [] then Log([], [], []) else Step(Replay(ops[..|ops| - 1], slots), ops[|ops| - 1], slots)
  }

  /** First in, first out: handed out, then queued, is what was let in, in that order. */
  lemma {:induction false} FifoAlways<T>(ops: seq<Op<T>>, slots: nat)
    requires slots >= 2
    ensures var h := Replay(ops, slots); h.taken + h.queue == h.accepted && |h.queue| <= slots - 1
  {
    if ops != [] {
      FifoAlways(ops[..|ops| - 1], slots);
      var h := Replay(ops[..|ops| - 1], slots);
      if ops[|ops| - 1].Get? && h.queue != [] {
        assert h.taken + [h.queue[0]] + h.queue[1..] == h.taken + h.queue;
      } else if ops[|ops| - 1].Put? {
        assert h.taken + (h.queue + [ops[|ops| - 1].x]) == h.taken + h.queue + [ops[|ops| - 1].x];
      }
    }
  }

  function Puts<T>(ops: seq<Op<T>>): seq<T> {
    if ops == [] then []
    else Puts(ops[..|ops| - 1]) + (if ops[|ops| - 1].Put? then [ops[|ops| - 1].x] else [])
  }

  /** The queue never has to refuse: no put finds N-1 packets waiting. */
  ghost predicate NeverFull<T>(ops: seq<Op<T>>, slots: nat) {
    forall k :: 0 <= k < |ops| && ops[k].Put? ==> |Replay(ops[..k], slots).queue| + 1 < slots
  }

  lemma NeverFullStep<T>(ops: seq<Op<T>>, slots: nat)
    requires ops != []
    ensures var n := |ops| - 1;
      NeverFull(ops, slots) <==>
        NeverFull(ops[..n], slots) && (ops[n].Put? ==> |Replay(ops[..n], slots).queue| + 1 < slots)
  {
    hide Replay;
    var n := |ops| - 1;
    assert forall k :: 0 <= k < n ==> ops[..n][..k] == ops[..k] && ops[..n][k] == ops[k];
  }

  lemma SameTail<T>(a: seq<T>, b: seq<T>, x: T)
    ensures a + [x] == b + [x] <==> a == b
  {
    assert a == (a + [x])[..|a|] && b == (b + [x])[..|b|];
  }

  /** Packets are lost exactly when some put finds the ring full. */
  lemma {:induction false} LossOnlyWhenFull<T>(ops: seq<Op<T>>, slots: nat)
    ensures Replay(ops, slots).accepted == Puts(ops) <==> NeverFull(ops, slots)
    ensures |Replay(ops, slots).accepted| <= |Puts(ops)|
  {
    if ops != [] {
      var n := |ops| - 1;
      var h := Replay(ops[..n], slots);
      LossOnlyWhenFull(ops[..n], slots);
      NeverFullStep(ops, slots);
      hide NeverFull;
      if ops[n].Put? { SameTail(h.accepted, Puts(ops[..n]), ops[n].x); }
    }
  }

  // --- the live stretch of a circular array ---------------------------------------------------

  function Live<T>(s: seq<T>, tail: nat, head: nat): (q: seq<T>)
    requires tail < |s| && head < |s|
    ensures |q| < |s|
  {
    if tail <= head then s[tail..head] else s[tail..] + s[..head]
  }

  lemma Wrapped(i: nat, n: nat)
    requires i < n
    ensures (i + 1) % n == if i + 1 == n then 0 else i + 1
  {
  }

  lemma LivePush<T>(s: seq<T>, tail: nat, head: nat, x: T)
    requires tail < |s| && head < |s|
    ensures var next := (head + 1) % |s|;
      && (next == tail <==> |Live(s, tail, head)| + 1 == |s|)
      && (next != tail ==> Live(s[head := x], tail, next) == Live(s, tail, head) + [x])
  {
    Wrapped(head, |s|);
  }

  lemma LivePop<T>(s: seq<T>, tail: nat, head: nat)
    requires tail < |s| && head < |s|
    ensures tail == head <==> Live(s, tail, head) == []
    ensures tail != head ==> Live(s, tail, head) == [s[tail]] + Live(s, (tail + 1) % |s|, head)
  {
    Wrapped(tail, |s|);
    if tail == |s| - 1 {
      LiveSplit(s, tail, head);
      assert s[tail..] == [s[tail]] && s[0..head] == s[..head];
    } else {
      LiveSplit(s, tail, head);
      assert s[tail..] == [s[tail]] + s[tail + 1..];
    }
  }

  lemma LiveSplit<T>(s: seq<T>, tail: nat, head: nat)
    requires tail < |s| && head < |s|
    ensures tail < head ==> s[tail..head] == [s[tail]] + s[tail + 1..head]
  {
  }
}

module Ring {
  import opened Queues

  class RingBuffer<T(0)> {
    const slots: array<T>
    var head: nat
    var tail: nat

    ghost predicate Valid()
      reads this
    {
      slots.Length >= 2 && head < slots.Length && tail < slots.Length
    }

    ghost function Contents(): (q: seq<T>)
      requires Valid()
      reads this, slots
      ensures |q| < slots.Length
    {
      Live(slots[..], tail, head)
    }

    constructor (n: nat)
      requires n >= 2
      ensures Valid() && fresh(slots) && slots.Length == n && Contents() == []
    {
      slots := new T[n];
      head, tail := 0, 0;
    }

    method Push(x: T)
      requires Valid()
      modifies this, slots
      ensures Valid() && Contents() == Offer(old(Contents()), x, slots.Length)
    {
      LivePush(slots[..], tail, head, x);
      hide Live;
      var next := (head + 1) % slots.Length;
      if next != tail {
        ghost var was := slots[..];
        slots[head] := x;
        assert slots[..] == was[head := x];
        head := next;
      }
    }

    method Pop() returns (have: bool, x: T)
      requires Valid()
      modifies this
      ensures Valid()
      ensures have == (old(Contents()) != [])
      ensures have ==> [x] + Contents() == old(Contents())
      ensures !have ==> Contents() == []
    {
      LivePop(slots[..], tail, head);
      hide Live;
      x := slots[tail];
      have := tail != head;
      if have {
        tail := (tail + 1) % slots.Length;
      }
    }
  }
}
