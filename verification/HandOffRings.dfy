/**
 The rings of module Ring behind the queues of module HandOff: each step of the writer and of the
 reader is the operation on a ring that it stands for.
 */
module HandOffRings {
  import opened HandOff
  import Ring

  // A ring of `cap + 1` blocks, and the contents of the blocks, behind one queue. When the reader
  // holds a packet of this ring, the packet is in the last free block.
  ghost predicate Behind(f: Ring.Fifo<nat>, heap: seq<Item>, q: Queue, cap: nat, held: seq<Item>) {
    && Ring.Blocks(f, |heap|) && |heap| == cap + 1 && |f.free| >= 1
    && |f.items| == q.Size()
    && (forall i :: 0 <= i < |q.items| ==> BlockAt(f, heap, i) == q.items[i])
    && (held != [] ==> |held| == 1 && BlockAt(f, heap, cap) == held[0])
  }

  // The contents of the `i`-th block, filled blocks first.
  ghost function BlockAt(f: Ring.Fifo<nat>, heap: seq<Item>, i: nat): Item
    requires Ring.Blocks(f, |heap|) && i < |heap|
  {
    var all := f.items + f.free;
    heap[all[i]]
  }

  lemma TestsAgree(f: Ring.Fifo<nat>, heap: seq<Item>, q: Queue, cap: nat, held: seq<Item>)
    requires Behind(f, heap, q, cap, held)
    ensures f.Full() <==> q.Size() == cap
    ensures f.Empty() <==> q.Empty()
  {
  }

  lemma PushAgrees(f: Ring.Fifo<nat>, heap: seq<Item>, q: Queue, cap: nat, held: seq<Item>)
    requires Behind(f, heap, q, cap, held) && !f.Full() && !q.blank
    ensures Behind(f.Push(), heap, q.(blank := true), cap, held)
  {
    Ring.PushKeepsRing(f);
  }

  lemma BackPushAgrees(f: Ring.Fifo<nat>, heap: seq<Item>, q: Queue, cap: nat, held: seq<Item>)
    requires Behind(f, heap, q, cap, held) && q.blank
    ensures Behind(f.BackPush(), heap, q.(blank := false), cap, held)
  {
    Ring.BackPushKeepsRing(f);
  }

  lemma FillAgrees(f: Ring.Fifo<nat>, heap: seq<Item>, q: Queue, cap: nat, held: seq<Item>, item: Item)
    requires Behind(f, heap, q, cap, held) && q.blank
    ensures f.items[|f.items| - 1] < |heap|
    ensures Behind(f, heap[f.items[|f.items| - 1] := item], Queue(q.items + [item], false), cap, held)
  {
    var all := f.items + f.free;
    var k := |f.items| - 1;
    assert all[k] == f.items[k];
    assert forall i :: 0 <= i < |all| && i != k ==> all[i] != all[k];
  }

  lemma PopAgrees(f: Ring.Fifo<nat>, heap: seq<Item>, q: Queue, cap: nat)
    requires Behind(f, heap, q, cap, []) && q.items != []
    ensures Behind(f.Pop(), heap, q.(items := q.items[1..]), cap, [q.items[0]])
  {
    var all := f.items + f.free;
    var rotated := f.Pop().items + f.Pop().free;
    assert rotated == all[1..] + [all[0]];
    assert BlockAt(f, heap, 0) == q.items[0];
    assert forall i :: 0 <= i < |q.items| - 1 ==> BlockAt(f.Pop(), heap, i) == BlockAt(f, heap, i + 1);
  }

  lemma BackPopAgrees(f: Ring.Fifo<nat>, heap: seq<Item>, q: Queue, cap: nat, held: seq<Item>)
    requires Behind(f, heap, q, cap, held) && held != [] && !f.Full()
    ensures Behind(f.BackPop(), heap, q.(items := held + q.items), cap, [])
  {
    var all := f.items + f.free;
    var rotated := f.BackPop().items + f.BackPop().free;
    assert rotated == [all[|all| - 1]] + all[..|all| - 1];
    assert forall i :: 0 < i <= |q.items| ==> BlockAt(f.BackPop(), heap, i) == BlockAt(f, heap, i - 1);
  }

  ghost function HeldFrom(s: State, i: nat): seq<Item> { if i == s.rpos then s.held else [] }

  // What the threads' steps do to the rings they work on, with the operations of module Ring.
  ghost function WriterOnRing(s: State, input: Input, f: Ring.Fifo<nat>,
                              heap: seq<Item>): (r: (Ring.Fifo<nat>, seq<Item>))
    requires f.free != []
  {
    if s.wpc == WPush then (f.Push(), heap)
    else if s.wpc == WFill && (s.finished || input.Nothing?) then (f.BackPush(), heap)
    else if s.wpc == WFill && f.items != [] && f.items[|f.items| - 1] < |heap| then
      (f, heap[f.items[|f.items| - 1] := if input.Got? then Pkt(input.data) else Mark])
    else (f, heap)
  }

  ghost function ReaderOnRing(s: State, retry: bool, f: Ring.Fifo<nat>): Ring.Fifo<nat>
    requires f.free != []
  {
    if s.rpc == RPop then f.Pop()
    else if s.rpc == RProcess && s.held != [Mark] && retry then f.BackPop()
    else f
  }

  // The queues of the machine are the contents of two such rings: if a ring is behind a queue
  // before a step, it is behind it after the step and the ring operation that belongs to it.
  lemma WriterIsRefined(s: State, input: Input, i: nat, f: Ring.Fifo<nat>, heap: seq<Item>)
    requires Inv(s) && i < 2 && Behind(f, heap, s.Ring(i), s.cap, HeldFrom(s, i))
    ensures var t := WriterStep(s, input);
            var r := if i == s.wpos then WriterOnRing(s, input, f, heap) else (f, heap);
            Behind(r.0, r.1, t.Ring(i), t.cap, HeldFrom(t, i))
  {
    if i != s.wpos {
      WriterLeavesOther(s, input, i);
    } else if s.wpc != WPush && s.wpc != WFill {
      WriterLeavesOwn(s, input);
    } else if s.wpc == WPush {
      WriterPushes(s, input, f, heap);
    } else {
      WriterFills(s, input, f, heap);
    }
  }

  lemma WriterLeavesOther(s: State, input: Input, i: nat)
    requires Shape(s) && i < 2 && i != s.wpos
    ensures var t := WriterStep(s, input); t.Ring(i) == s.Ring(i) && t.cap == s.cap && HeldFrom(t, i) == HeldFrom(s, i)
  {
  }

  lemma WriterLeavesOwn(s: State, input: Input)
    requires Shape(s) && s.wpc != WPush && s.wpc != WFill
    ensures var t := WriterStep(s, input);
            t.Ring(s.wpos) == s.Ring(s.wpos) && t.cap == s.cap && HeldFrom(t, s.wpos) == HeldFrom(s, s.wpos)
  {
  }

  lemma WriterPushes(s: State, input: Input, f: Ring.Fifo<nat>, heap: seq<Item>)
    requires Shape(s) && s.wpc == WPush && !s.Ring(s.wpos).blank
    requires Behind(f, heap, s.Ring(s.wpos), s.cap, HeldFrom(s, s.wpos))
    ensures var t := WriterStep(s, input); Behind(f.Push(), heap, t.Ring(s.wpos), t.cap, HeldFrom(t, s.wpos))
  {
    var q, held := s.Ring(s.wpos), HeldFrom(s, s.wpos);
    var t := WriterStep(s, input);
    TestsAgree(f, heap, q, s.cap, held);
    assert t.cap == s.cap && HeldFrom(t, s.wpos) == held;
    if f.Full() {
      assert t.Ring(s.wpos) == q;
    } else {
      assert t.Ring(s.wpos) == q.(blank := true);
      PushAgrees(f, heap, q, s.cap, held);
    }
  }

  lemma WriterFills(s: State, input: Input, f: Ring.Fifo<nat>, heap: seq<Item>)
    requires Shape(s) && s.wpc == WFill && s.Ring(s.wpos).blank
    requires Behind(f, heap, s.Ring(s.wpos), s.cap, HeldFrom(s, s.wpos))
    ensures var t := WriterStep(s, input);
            var r := WriterOnRing(s, input, f, heap);
            Behind(r.0, r.1, t.Ring(s.wpos), t.cap, HeldFrom(t, s.wpos))
  {
    var q, held := s.Ring(s.wpos), HeldFrom(s, s.wpos);
    var t := WriterStep(s, input);
    assert t.cap == s.cap && HeldFrom(t, s.wpos) == held;
    if s.finished || input.Nothing? {
      assert t.Ring(s.wpos) == q.(blank := false);
      BackPushAgrees(f, heap, q, s.cap, held);
    } else {
      var item := if input.Got? then Pkt(input.data) else Mark;
      assert t.Ring(s.wpos) == Queue(q.items + [item], false);
      FillAgrees(f, heap, q, s.cap, held, item);
    }
  }

  lemma ReaderIsRefined(s: State, retry: bool, i: nat, f: Ring.Fifo<nat>, heap: seq<Item>)
    requires Inv(s) && i < 2 && Behind(f, heap, s.Ring(i), s.cap, HeldFrom(s, i))
    ensures var t := ReaderStep(s, retry);
            Behind(if i == s.rpos then ReaderOnRing(s, retry, f) else f, heap, t.Ring(i), t.cap, HeldFrom(t, i))
  {
    if i != s.rpos || (s.rpc != RPop && s.rpc != RProcess) {
      ReaderLeaves(s, retry, i);
    } else if s.rpc == RPop {
      ReaderPops(s, retry, f, heap);
    } else {
      ReaderPutsBack(s, retry, f, heap);
    }
  }

  lemma ReaderLeaves(s: State, retry: bool, i: nat)
    requires Shape(s) && (s.rpc == RProcess <==> s.held != []) && i < 2
    requires i != s.rpos || (s.rpc != RPop && s.rpc != RProcess)
    ensures var t := ReaderStep(s, retry);
            t.Ring(i) == s.Ring(i) && t.cap == s.cap && (HeldFrom(t, i) == HeldFrom(s, i) || HeldFrom(t, i) == [])
  {
  }

  lemma ReaderPops(s: State, retry: bool, f: Ring.Fifo<nat>, heap: seq<Item>)
    requires Shape(s) && s.rpc == RPop && s.held == [] && !s.Ring(s.rpos).blank
    requires Behind(f, heap, s.Ring(s.rpos), s.cap, [])
    ensures var t := ReaderStep(s, retry); Behind(f.Pop(), heap, t.Ring(s.rpos), t.cap, HeldFrom(t, s.rpos))
  {
    var q := s.Ring(s.rpos);
    var t := ReaderStep(s, retry);
    TestsAgree(f, heap, q, s.cap, []);
    assert t.cap == s.cap && t.rpos == s.rpos;
    if q.items != [] {
      assert t.Ring(s.rpos) == q.(items := q.items[1..]) && t.held == [q.items[0]];
      PopAgrees(f, heap, q, s.cap);
    } else {
      assert t.Ring(s.rpos) == q && t.held == [];
    }
  }

  lemma ReaderPutsBack(s: State, retry: bool, f: Ring.Fifo<nat>, heap: seq<Item>)
    requires Shape(s) && s.rpc == RProcess && s.held != [] && s.Ring(s.rpos).Size() < s.cap
    requires Behind(f, heap, s.Ring(s.rpos), s.cap, s.held)
    ensures var t := ReaderStep(s, retry);
            Behind(ReaderOnRing(s, retry, f), heap, t.Ring(s.rpos), t.cap, HeldFrom(t, s.rpos))
  {
    var q := s.Ring(s.rpos);
    var t := ReaderStep(s, retry);
    TestsAgree(f, heap, q, s.cap, s.held);
    assert t.cap == s.cap && t.rpos == s.rpos && t.held == [];
    if s.held != [Mark] && retry {
      assert t.Ring(s.rpos) == q.(items := s.held + q.items);
      BackPopAgrees(f, heap, q, s.cap, s.held);
    } else {
      assert t.Ring(s.rpos) == q;
    }
  }
}
