/**
 The hand-off of packets from a writer thread to a reader thread over two rings
 (`addTcpWriteTask` and `addTcpReadTask`, tcp_socket.cpp:327-388 and 462-521; udp_socket.cpp uses
 the same pattern at 1044-1105 and 1175-1186).

 The writer fills ring `wpos`, the reader empties ring `rpos`. Only the exchange of the rings
 happens under the lock; every push, pop and emptiness test is outside it. Each access to shared
 state is one step of the machine below, and the two threads' steps interleave freely. A ring is
 the bounded FIFO of module Ring, of capacity `cap >= 1`: module HandOffRings ties the two.
 */
module HandOff {
  datatype Item = Pkt(data: seq<bv8>) | Mark

  // What the writer's source offers when a block is free: nothing, data, or its end.
  datatype Input = Nothing | Got(data: seq<bv8>) | Close

  // A ring's filled blocks, and whether the writer holds one more that it has not filled yet.
  datatype Queue = Queue(items: seq<Item>, blank: bool) {
    function Size(): nat { |items| + if blank then 1 else 0 }
    predicate Empty() { items == [] && !blank }
  }

  datatype Owner = Free | Writer | Reader

  datatype WriterPc =
    | WPush       // ask ring `wpos` for a block
    | WFullTest   // no block: compare `wpos` with `rpos`
    | WFill       // receive into the block, or give it back
    | WTest       // compare `wpos` with `rpos`, and look whether the ring holds anything
    | WLock       // acquire the lock to exchange the rings
    | WSignal
    | WSwap
    | WUnlock
    | WDone

  datatype ReaderPc =
    | RTest       // look whether ring `rpos` is empty
    | RLock       // it is: acquire the lock
    | RSetPos     // take over the writer's ring
    | RWait       // release the lock and sleep, in one step
    | RSleep
    | RWoken      // signalled: acquire the lock again
    | RUnlock
    | RPop
    | RProcess    // send the popped packet, put it back, or leave on the mark
    | RDone

  datatype State = State(
    cap: nat,
    ring0: Queue,
    ring1: Queue,
    wpos: nat,
    rpos: nat,
    lock: Owner,
    wpc: WriterPc,
    rpc: ReaderPc,
    finished: bool,       // the writer's `isfinished == 1`
    held: seq<Item>,      // the packet the reader has popped
    accepted: seq<Item>,  // everything the writer put into a block, in order
    consumed: seq<Item>,  // everything the reader is done with, in order
    torn: bool            // the reader popped a block that was not filled
  ) {
    function Ring(i: nat): Queue { if i == 0 then ring0 else ring1 }

    function SetRing(i: nat, q: Queue): State { if i == 0 then this.(ring0 := q) else this.(ring1 := q) }
  }

  function Initial(cap: nat): State {
    State(cap, Queue([], false), Queue([], false), 0, 1, Free, WPush, RTest, false, [], [], [], false)
  }

  function Other(i: nat): nat { if i == 0 then 1 else 0 }

  ghost predicate Shape(s: State) {
    && s.cap >= 1 && s.wpos < 2 && s.rpos < 2
    && s.ring0.Size() <= s.cap && s.ring1.Size() <= s.cap
  }

  // ----- One step of each thread; a thread that cannot move stays where it is -----

  function WriterStep(s: State, input: Input): State {
    var q := s.Ring(s.wpos);
    match s.wpc
    case WPush =>
      if q.Size() == s.cap then s.(wpc := WFullTest)
      else s.SetRing(s.wpos, q.(blank := true)).(wpc := WFill)
    case WFullTest =>
      if s.wpos == s.rpos then s.(wpc := WLock) else s.(wpc := WPush)
    case WFill =>
      if s.finished || input.Nothing? then
        s.SetRing(s.wpos, q.(blank := false)).(wpc := WTest)
      else
        var item := if input.Got? then Pkt(input.data) else Mark;
        s.SetRing(s.wpos, Queue(q.items + [item], false))
        .(wpc := WTest, accepted := s.accepted + [item], finished := input.Close?)
    case WTest =>
      if s.wpos == s.rpos && !q.Empty() then s.(wpc := WLock) else s.(wpc := WPush)
    case WLock =>
      if s.lock == Free then s.(lock := Writer, wpc := WSignal) else s
    case WSignal =>
      s.(rpc := if s.rpc == RSleep then RWoken else s.rpc, wpc := WSwap)
    case WSwap =>
      s.(wpos := Other(s.wpos), wpc := WUnlock)
    case WUnlock =>
      s.(lock := Free, wpc := if s.finished then WDone else WPush)
    case WDone => s
  }

  // `retry` says that sending failed in a way that makes the reader put the packet back.
  function ReaderStep(s: State, retry: bool): State {
    var q := s.Ring(s.rpos);
    match s.rpc
    case RTest => if q.Empty() then s.(rpc := RLock) else s.(rpc := RPop)
    case RLock => if s.lock == Free then s.(lock := Reader, rpc := RSetPos) else s
    case RSetPos => s.(rpos := s.wpos, rpc := RWait)
    case RWait => s.(lock := Free, rpc := RSleep)
    case RSleep => s
    case RWoken => if s.lock == Free then s.(lock := Reader, rpc := RUnlock) else s
    case RUnlock => s.(lock := Free, rpc := RPop)
    case RPop =>
      if q.items != [] then
        s.SetRing(s.rpos, q.(items := q.items[1..])).(held := [q.items[0]], rpc := RProcess)
      else if q.blank then s.(torn := true)
      else s.(rpc := RTest)
    case RProcess =>
      if s.held == [Mark] then s.(consumed := s.consumed + s.held, held := [], rpc := RDone)
      else if retry && q.Size() < s.cap then
        s.SetRing(s.rpos, q.(items := s.held + q.items)).(held := [], rpc := RTest)
      else s.(consumed := s.consumed + s.held, held := [], rpc := RTest)
    case RDone => s
  }

  // ----- The invariant -----

  ghost predicate WriterHolds(s: State) { s.wpc == WSignal || s.wpc == WSwap || s.wpc == WUnlock }

  ghost predicate ReaderHolds(s: State) { s.rpc == RSetPos || s.rpc == RWait || s.rpc == RUnlock }

  // The reader has joined the writer's ring: it is going to sleep, sleeps, or was just signalled.
  ghost predicate Joined(s: State) {
    s.rpc == RWait || s.rpc == RSleep || (s.rpc == RWoken && s.wpc == WSwap)
  }

  ghost predicate Control(s: State) {
    && (s.lock == Writer <==> WriterHolds(s))
    && (s.lock == Reader <==> ReaderHolds(s))
    && (s.wpos == s.rpos <==> Joined(s))
    && (s.wpc == WLock ==> s.rpc == RWait || s.rpc == RSleep)
    && (s.wpc == WSignal ==> s.rpc == RSleep)
    && (s.wpc == WSwap ==> s.rpc == RWoken)
    && (s.wpc == WUnlock ==> s.wpos != s.rpos)
    && !s.torn
  }

  ghost predicate Rings(s: State)
  {
    && (s.Ring(s.wpos).blank <==> s.wpc == WFill)
    && !s.Ring(Other(s.wpos)).blank
    && (s.rpc == RLock || s.rpc == RSetPos ==> s.Ring(s.rpos).items == [])
    && (Joined(s) ==> s.Ring(Other(s.wpos)).items == [])
    && (s.wpc == WUnlock || s.wpc == WDone ==> s.Ring(s.wpos).items == [])
    && (s.wpc == WFullTest ==> s.Ring(s.wpos).Size() == s.cap)
    && (s.wpc == WLock || s.wpc == WSignal || s.wpc == WSwap ==> s.Ring(s.wpos).items != [])
    && (s.rpc == RProcess <==> s.held != [])
    && (s.rpc == RProcess ==> |s.held| == 1 && s.Ring(s.rpos).Size() < s.cap)
  }

  // Everything accepted is consumed, held, in the reader's ring, or in the writer's, in order.
  ghost predicate Order(s: State)
  {
    s.accepted == s.consumed + s.held + s.Ring(s.rpos).items
                  + (if s.wpos == s.rpos then [] else s.Ring(s.wpos).items)
  }

  ghost predicate Ends(s: State) {
    && (s.finished <==> s.accepted != [] && s.accepted[|s.accepted| - 1] == Mark)
    && (forall i :: 0 <= i < |s.accepted| - 1 ==> s.accepted[i] != Mark)
    && (s.rpc == RDone <==> Mark in s.consumed)
    && (s.wpc == WDone ==> s.finished && s.wpos != s.rpos)
  }

  ghost predicate Sound(s: State) { Shape(s) && Control(s) && Rings(s) }

  ghost predicate Inv(s: State) {
    Shape(s) && Control(s) && Rings(s) && Order(s) && Ends(s)
  }

  // The steps of the writer on its own ring, and those of the exchange.
  ghost predicate Filling(s: State) { s.wpc == WPush || s.wpc == WFullTest || s.wpc == WFill || s.wpc == WTest }

  lemma PushControl(s: State, input: Input)
    requires Sound(s) && s.wpc == WPush
    ensures Shape(WriterStep(s, input)) && Control(WriterStep(s, input))
  {
    var q := s.Ring(s.wpos);
    if q.Size() == s.cap {
      assert WriterStep(s, input) == s.(wpc := WFullTest);
    } else {
      PushMarks(s);
      assert WriterStep(s, input) == s.SetRing(s.wpos, q.(blank := true)).(wpc := WFill);
    }
  }

  lemma PushMarks(s: State)
    requires Sound(s) && s.wpc == WPush && s.Ring(s.wpos).Size() < s.cap
    ensures var t := s.SetRing(s.wpos, s.Ring(s.wpos).(blank := true)).(wpc := WFill); Shape(t) && Control(t)
  {
  }

  lemma PushRings(s: State, input: Input)
    requires Sound(s) && s.wpc == WPush
    ensures Rings(WriterStep(s, input))
  {
  }

  lemma PushIsSound(s: State, input: Input)
    requires Sound(s) && s.wpc == WPush
    ensures Sound(WriterStep(s, input))
  {
    PushControl(s, input);
    PushRings(s, input);
  }

  lemma FullTestIsSound(s: State, input: Input)
    requires Sound(s) && s.wpc == WFullTest
    ensures Sound(WriterStep(s, input))
  {
  }

  lemma FillControl(s: State, input: Input)
    requires Sound(s) && s.wpc == WFill
    ensures Shape(WriterStep(s, input)) && Control(WriterStep(s, input))
  {
  }

  lemma FillRings(s: State, input: Input)
    requires Sound(s) && s.wpc == WFill
    ensures Rings(WriterStep(s, input))
  {
  }

  lemma FillIsSound(s: State, input: Input)
    requires Sound(s) && s.wpc == WFill
    ensures Sound(WriterStep(s, input))
  {
    FillControl(s, input);
    FillRings(s, input);
  }

  lemma TestIsSound(s: State, input: Input)
    requires Sound(s) && s.wpc == WTest
    ensures Sound(WriterStep(s, input))
  {
  }

  lemma HandingIsSound(s: State, input: Input)
    requires Sound(s) && !Filling(s)
    ensures Sound(WriterStep(s, input))
  {
  }

  lemma WriterIsSound(s: State, input: Input)
    requires Sound(s)
    ensures Sound(WriterStep(s, input))
  {
    match s.wpc
    case WPush => PushIsSound(s, input);
    case WFullTest => FullTestIsSound(s, input);
    case WFill => FillIsSound(s, input);
    case WTest => TestIsSound(s, input);
    case _ => HandingIsSound(s, input);
  }

  // The steps of the reader that only look at its own ring, and those that exchange rings.
  ghost predicate OnOwnRing(s: State) { s.rpc == RTest || s.rpc == RPop || s.rpc == RProcess }

  // A step of the reader on its own ring leaves control as it is.
  lemma OwnRingChanges(s: State, t: State, q: Queue)
    requires Sound(s) && OnOwnRing(s) && q.Size() <= s.cap
    requires OnOwnRing(t) || t.rpc == RDone
    requires t == s.SetRing(s.rpos, q).(held := t.held, rpc := t.rpc, consumed := t.consumed)
    ensures Shape(t) && Control(t)
  {
  }

  // And it leaves the writer's ring as it is.
  lemma OwnRingOnly(s: State, t: State, q: Queue)
    requires Sound(s) && OnOwnRing(s) && !q.blank
    requires OnOwnRing(t) || t.rpc == RDone || (t.rpc == RLock && q.items == [])
    requires t == s.SetRing(s.rpos, q).(held := t.held, rpc := t.rpc, consumed := t.consumed)
    requires t.rpc == RProcess <==> t.held != []
    requires t.rpc == RProcess ==> |t.held| == 1 && q.Size() < s.cap
    ensures Rings(t)
  {
    assert t.Ring(t.wpos) == s.Ring(s.wpos) && t.Ring(Other(t.wpos)) == q == t.Ring(t.rpos);
  }

  lemma OwnRingIs(s: State)
    requires Sound(s) && OnOwnRing(s)
    ensures !s.Ring(s.rpos).blank && s.SetRing(s.rpos, s.Ring(s.rpos)) == s
  {
  }

  lemma LookControl(s: State, retry: bool)
    requires Sound(s) && s.rpc == RTest
    ensures Shape(ReaderStep(s, retry)) && Control(ReaderStep(s, retry))
  {
    var t := ReaderStep(s, retry);
    assert t == s.(rpc := t.rpc);
  }

  lemma LookRings(s: State, retry: bool)
    requires Sound(s) && s.rpc == RTest
    ensures Rings(ReaderStep(s, retry))
  {
    OwnRingIs(s);
    OwnRingOnly(s, ReaderStep(s, retry), s.Ring(s.rpos));
  }

  lemma LookIsSound(s: State, retry: bool)
    requires Sound(s) && s.rpc == RTest
    ensures Sound(ReaderStep(s, retry))
  {
    LookControl(s, retry);
    LookRings(s, retry);
  }

  lemma PopControl(s: State, retry: bool)
    requires Sound(s) && s.rpc == RPop
    ensures Shape(ReaderStep(s, retry)) && Control(ReaderStep(s, retry))
  {
    var q := s.Ring(s.rpos);
    var t := ReaderStep(s, retry);
    if q.items != [] {
      assert t == s.SetRing(s.rpos, q.(items := q.items[1..])).(held := [q.items[0]], rpc := RProcess);
      OwnRingChanges(s, t, q.(items := q.items[1..]));
    } else {
      assert t == s.(rpc := RTest);
    }
  }

  lemma PopRings(s: State, retry: bool)
    requires Sound(s) && s.rpc == RPop
    ensures Rings(ReaderStep(s, retry))
  {
    var q := s.Ring(s.rpos);
    OwnRingIs(s);
    OwnRingOnly(s, ReaderStep(s, retry), if q.items != [] then q.(items := q.items[1..]) else q);
  }

  lemma PopIsSound(s: State, retry: bool)
    requires Sound(s) && s.rpc == RPop
    ensures Sound(ReaderStep(s, retry))
  {
    PopControl(s, retry);
    PopRings(s, retry);
  }

  lemma ProcessControl(s: State, retry: bool)
    requires Sound(s) && s.rpc == RProcess
    ensures Shape(ReaderStep(s, retry)) && Control(ReaderStep(s, retry))
  {
    var q := s.Ring(s.rpos);
    var t := ReaderStep(s, retry);
    if s.held != [Mark] && retry && q.Size() < s.cap {
      OwnRingChanges(s, t, q.(items := s.held + q.items));
    } else {
      assert s.SetRing(s.rpos, q) == s;
      OwnRingChanges(s, t, q);
    }
  }

  lemma ProcessRings(s: State, retry: bool)
    requires Sound(s) && s.rpc == RProcess
    ensures Rings(ReaderStep(s, retry))
  {
    var q := s.Ring(s.rpos);
    OwnRingIs(s);
    var back := s.held != [Mark] && retry && q.Size() < s.cap;
    OwnRingOnly(s, ReaderStep(s, retry), if back then q.(items := s.held + q.items) else q);
  }

  lemma ProcessIsSound(s: State, retry: bool)
    requires Sound(s) && s.rpc == RProcess
    ensures Sound(ReaderStep(s, retry))
  {
    ProcessControl(s, retry);
    ProcessRings(s, retry);
  }

  lemma ExchangeControl(s: State, retry: bool)
    requires Sound(s) && !OnOwnRing(s)
    ensures Shape(ReaderStep(s, retry)) && Control(ReaderStep(s, retry))
  {
  }

  lemma ExchangeRings(s: State, retry: bool)
    requires Sound(s) && !OnOwnRing(s)
    ensures Rings(ReaderStep(s, retry))
  {
  }

  lemma ExchangeIsSound(s: State, retry: bool)
    requires Sound(s) && !OnOwnRing(s)
    ensures Sound(ReaderStep(s, retry))
  {
    ExchangeControl(s, retry);
    ExchangeRings(s, retry);
  }

  lemma ReaderIsSound(s: State, retry: bool)
    requires Sound(s)
    ensures Sound(ReaderStep(s, retry))
  {
    match s.rpc
    case RTest => LookIsSound(s, retry);
    case RPop => PopIsSound(s, retry);
    case RProcess => ProcessIsSound(s, retry);
    case _ => ExchangeIsSound(s, retry);
  }

  lemma WriterOrder(s: State, input: Input)
    requires Shape(s) && Control(s) && Rings(s) && Order(s)
    ensures Order(WriterStep(s, input))
  {
    if s.wpc == WSwap {
      SwapOrder(s);
    }
  }

  lemma SwapOrder(s: State)
    requires Shape(s) && Control(s) && Rings(s) && Order(s) && s.wpc == WSwap
    ensures Order(s.(wpos := Other(s.wpos), wpc := WUnlock))
  {
  }

  lemma ReaderOrder(s: State, retry: bool)
    requires Shape(s) && Control(s) && Rings(s) && Order(s)
    ensures Order(ReaderStep(s, retry))
  {
    if s.rpc == RPop {
      PopOrder(s);
    } else if s.rpc == RProcess {
      ProcessOrder(s, retry);
    } else {
      ExchangeOrder(s, retry);
    }
  }

  lemma ExchangeOrder(s: State, retry: bool)
    requires Shape(s) && Control(s) && Rings(s) && Order(s) && s.rpc != RPop && s.rpc != RProcess
    ensures Order(ReaderStep(s, retry))
  {
  }

  function InWritersRing(s: State): seq<Item> { if s.wpos == s.rpos then [] else s.Ring(s.wpos).items }

  lemma PopOrder(s: State)
    requires Shape(s) && Control(s) && Rings(s) && Order(s) && s.rpc == RPop
    ensures Order(ReaderStep(s, false)) && Order(ReaderStep(s, true))
  {
    var q := s.Ring(s.rpos);
    if q.items != [] {
      var t := ReaderStep(s, false);
      assert t == ReaderStep(s, true);
      TakeHead(s.consumed, q.items, InWritersRing(s));
      assert t.held == [q.items[0]] && t.Ring(t.rpos).items == q.items[1..] && InWritersRing(t) == InWritersRing(s);
    }
  }

  lemma TakeHead(a: seq<Item>, b: seq<Item>, c: seq<Item>)
    requires b != []
    ensures a + [] + b + c == a + [b[0]] + b[1..] + c
  {
  }

  lemma ProcessOrder(s: State, retry: bool)
    requires Shape(s) && Control(s) && Rings(s) && Order(s) && s.rpc == RProcess
    ensures Order(ReaderStep(s, retry))
  {
    var t := ReaderStep(s, retry);
    assert InWritersRing(t) == InWritersRing(s);
    MoveHeld(s.consumed, s.held, s.Ring(s.rpos).items, InWritersRing(s));
  }

  lemma MoveHeld(a: seq<Item>, h: seq<Item>, b: seq<Item>, c: seq<Item>)
    ensures a + h + b + c == (a + h) + [] + b + c
    ensures a + h + b + c == a + [] + (h + b) + c
  {
  }

  lemma FillEnds(s: State, input: Input)
    requires Ends(s) && s.wpc == WFill
    ensures Ends(WriterStep(s, input))
  {
    if !s.finished && !input.Nothing? {
      var item := if input.Got? then Pkt(input.data) else Mark;
      var t := WriterStep(s, input);
      assert t.accepted == s.accepted + [item] && t.consumed == s.consumed;
      forall i | 0 <= i < |t.accepted| - 1
        ensures t.accepted[i] != Mark
      {
        assert t.accepted[i] == s.accepted[i];
      }
    }
  }

  lemma UnlockEnds(s: State, input: Input)
    requires Ends(s) && Control(s) && s.wpc == WUnlock
    ensures Ends(WriterStep(s, input))
  {
  }

  lemma WriterEnds(s: State, input: Input)
    requires Inv(s)
    ensures Ends(WriterStep(s, input))
  {
    if s.wpc == WFill {
      FillEnds(s, input);
    } else if s.wpc == WUnlock {
      UnlockEnds(s, input);
    } else {
      StayEnds(s, input);
    }
  }

  lemma StayEnds(s: State, input: Input)
    requires Ends(s) && s.wpc != WFill && s.wpc != WUnlock
    ensures Ends(WriterStep(s, input))
  {
  }

  lemma ProcessEnds(s: State, retry: bool)
    requires Ends(s) && s.rpc == RProcess && |s.held| == 1
    ensures Ends(ReaderStep(s, retry))
  {
    var t := ReaderStep(s, retry);
    assert t.accepted == s.accepted && t.finished == s.finished;
    assert t.wpc == s.wpc && t.wpos == s.wpos && t.rpos == s.rpos;
    assert Mark in s.consumed + s.held <==> Mark in s.held;
    assert Mark in s.held <==> s.held == [Mark];
  }

  lemma JoinEnds(s: State, retry: bool)
    requires Inv(s) && s.rpc == RSetPos
    ensures Ends(ReaderStep(s, retry))
  {
    DoneReaderIsAwake(s);
  }

  lemma OwnRingEnds(s: State, retry: bool)
    requires Ends(s) && (s.rpc == RTest || s.rpc == RPop)
    ensures Ends(ReaderStep(s, retry))
  {
  }

  lemma ExchangeEnds(s: State, retry: bool)
    requires Ends(s) && !OnOwnRing(s) && s.rpc != RSetPos
    ensures Ends(ReaderStep(s, retry))
  {
  }

  lemma ReaderEnds(s: State, retry: bool)
    requires Inv(s)
    ensures Ends(ReaderStep(s, retry))
  {
    if s.rpc == RProcess {
      ProcessEnds(s, retry);
    } else if s.rpc == RSetPos {
      JoinEnds(s, retry);
    } else if OnOwnRing(s) {
      OwnRingEnds(s, retry);
    } else {
      ExchangeEnds(s, retry);
    }
  }

  lemma WriterKeeps(s: State, input: Input)
    requires Inv(s)
    ensures Inv(WriterStep(s, input))
  {
    WriterIsSound(s, input);
    WriterOrder(s, input);
    WriterEnds(s, input);
  }

  lemma ReaderKeeps(s: State, retry: bool)
    requires Inv(s)
    ensures Inv(ReaderStep(s, retry))
  {
    ReaderIsSound(s, retry);
    ReaderOrder(s, retry);
    ReaderEnds(s, retry);
  }

  lemma MarkAcceptedOnce(s: State)
    requires Inv(s)
    ensures forall i :: 0 <= i < |s.accepted| && s.accepted[i] == Mark ==> i == |s.accepted| - 1 && s.finished
    ensures Mark in s.accepted <==> s.finished
  {
  }

  lemma DoneReaderIsAwake(s: State)
    requires Inv(s)
    ensures s.wpc == WDone ==> s.rpc != RLock && s.rpc != RSetPos && s.rpc != RWait && s.rpc != RSleep
  {
    MarkAcceptedOnce(s);
    assert s.wpc == WDone && (s.rpc == RLock || s.rpc == RSetPos) ==> s.accepted == s.consumed;
  }

  lemma DoneHasAll(s: State)
    requires Inv(s)
    ensures s.rpc == RDone ==> s.consumed == s.accepted
  {
    if Mark in s.consumed {
      var i :| 0 <= i < |s.consumed| && s.consumed[i] == Mark;
      assert s.accepted[i] == Mark;
    }
  }
}
