/**
 Progress of the protocol of module HandOff: what the writer accepts is what it is offered, a
 reader that finds its ring empty goes to sleep on the writer's ring, a reader that is woken
 consumes, and whatever was accepted can always be consumed.
 */
module HandOffProgress {
  import opened HandOff
  import opened HandOffRuns
  import Sequences

  // ----- What is accepted -----

  function ItemOf(input: Input): Item
    requires input != Nothing
  {
    if input.Got? then Pkt(input.data) else Mark
  }

  // The writer has a block that it has not filled, and its stream goes on.
  predicate CanFill(s: State) { s.Ring(s.wpos).blank && !s.finished }

  // What a turn offers, if the writer has a block for it.
  function Offer(s: State, t: Turn): seq<Item> {
    if t.WriterTurn? && t.input != Nothing && CanFill(s) then [ItemOf(t.input)] else []
  }

  // The inputs that are offered, over a run, while the writer has a block for them.
  function Offered(s: State, turns: seq<Turn>): seq<Item>
    decreases |turns|
  {
    if turns == [] then [] else Offer(s, turns[0]) + Offered(Step(s, turns[0]), turns[1..])
  }

  lemma StepAccepts(s: State, t: Turn)
    requires Inv(s)
    ensures Step(s, t).accepted == s.accepted + Offer(s, t)
  {
    assert s.Ring(s.wpos).blank <==> s.wpc == WFill;
    match t
    case WriterTurn(input) => WriterAccepts(s, input);
    case ReaderTurn(retry) => ReaderAccepts(s, retry);
  }

  lemma WriterAccepts(s: State, input: Input)
    requires s.Ring(s.wpos).blank <==> s.wpc == WFill
    ensures WriterStep(s, input).accepted == s.accepted + Offer(s, WriterTurn(input))
  {
  }

  lemma ReaderAccepts(s: State, retry: bool)
    ensures ReaderStep(s, retry).accepted == s.accepted
  {
  }

  // Over every run, the items accepted are the inputs offered while there is a block, in order.
  lemma {:induction false} AcceptedIsOffered(s: State, turns: seq<Turn>)
    requires Inv(s)
    ensures Run(s, turns).accepted == s.accepted + Offered(s, turns)
    decreases |turns|
  {
    if turns == [] {
    } else {
      var t, rest := Step(s, turns[0]), turns[1..];
      assert t.accepted == s.accepted + Offer(s, turns[0]) by {
        StepAccepts(s, turns[0]);
      }
      assert Run(t, rest).accepted == t.accepted + Offered(t, rest) by {
        StepInv(s, turns[0]);
        AcceptedIsOffered(t, rest);
      }
      Sequences.Associate(s.accepted, Offer(s, turns[0]), Offered(t, rest));
    }
  }

  lemma StepInv(s: State, t: Turn)
    requires Inv(s)
    ensures Inv(Step(s, t))
  {
    match t
    case WriterTurn(input) => WriterKeeps(s, input);
    case ReaderTurn(retry) => ReaderKeeps(s, retry);
  }

  // ----- The reader's own steps -----

  function Readers(retry: bool, k: nat): (turns: seq<Turn>)
    ensures |turns| == k
  {
    seq(k, _ => ReaderTurn(retry))
  }

  lemma ReaderRuns(s: State, retry: bool, k: nat)
    requires k > 0
    ensures Run(s, Readers(retry, k)) == Run(ReaderStep(s, retry), Readers(retry, k - 1))
  {
    assert Readers(retry, k)[1..] == Readers(retry, k - 1);
  }

  lemma FourReaderSteps(s: State, retry: bool)
    ensures Run(s, Readers(retry, 4))
         == ReaderStep(ReaderStep(ReaderStep(ReaderStep(s, retry), retry), retry), retry)
  {
    ReaderRuns(s, retry, 4);
    var s1 := ReaderStep(s, retry);
    ReaderRuns(s1, retry, 3);
    var s2 := ReaderStep(s1, retry);
    ReaderRuns(s2, retry, 2);
    var s3 := ReaderStep(s2, retry);
    ReaderRuns(s3, retry, 1);
  }

  // A reader whose ring is empty goes to sleep on the writer's ring by itself, if the writer does
  // not hold the lock.
  lemma EmptyReaderSleeps(s: State, retry: bool)
    requires Inv(s) && s.rpc == RTest && s.Ring(s.rpos).items == [] && s.lock != Writer
    ensures Run(s, Readers(retry, 4)) == s.(rpos := s.wpos, rpc := RSleep)
  {
    FourReaderSteps(s, retry);
  }

  lemma WokenReaderPops(s: State, retry: bool)
    requires s.rpc == RWoken && s.lock == Free && s.Ring(s.rpos).items != []
    ensures var q := s.Ring(s.rpos);
            ReaderStep(ReaderStep(ReaderStep(s, retry), retry), retry)
            == s.SetRing(s.rpos, q.(items := q.items[1..])).(held := [q.items[0]], rpc := RProcess)
  {
    assert ReaderStep(s, retry) == s.(lock := Reader, rpc := RUnlock);
    assert ReaderStep(ReaderStep(s, retry), retry) == s.(rpc := RPop);
  }

  // What the reader does with the packet that it holds.
  lemma HeldIsProcessed(s: State, retry: bool)
    requires s.rpc == RProcess && |s.held| == 1 && s.Ring(s.rpos).Size() < s.cap
    ensures var t := ReaderStep(s, retry);
            && t.rpos == s.rpos && t.wpos == s.wpos && t.lock == s.lock && t.accepted == s.accepted && t.held == []
            && t.Ring(Other(s.rpos)) == s.Ring(Other(s.rpos))
            && t.rpc == (if s.held == [Mark] then RDone else RTest)
            && (if retry && s.held != [Mark] then
                  t.consumed == s.consumed && (s.rpos < 2 ==> t.Ring(s.rpos).items == s.held + s.Ring(s.rpos).items)
                else t.consumed == s.consumed + s.held && t.Ring(s.rpos) == s.Ring(s.rpos))
  {
  }

  // A woken reader handles the first packet of its ring by itself: it consumes it, or it puts it
  // back if sending fails. The mark is never put back.
  lemma WokenReaderConsumes(s: State, retry: bool)
    requires Inv(s) && s.rpc == RWoken && s.lock == Free && s.Ring(s.rpos).items != []
    ensures var t := Run(s, Readers(retry, 4));
            var items := s.Ring(s.rpos).items;
            && t.rpos == s.rpos && t.wpos == s.wpos && t.lock == Free && t.accepted == s.accepted && t.held == []
            && t.Ring(Other(s.rpos)) == s.Ring(Other(s.rpos))
            && t.rpc == (if items[0] == Mark then RDone else RTest)
            && (if retry && items[0] != Mark then t.consumed == s.consumed && t.Ring(s.rpos).items == items
                else t.consumed == s.consumed + [items[0]] && t.Ring(s.rpos).items == items[1..])
  {
    FourReaderSteps(s, retry);
    WokenReaderPops(s, retry);
    var q := s.Ring(s.rpos);
    var s3 := s.SetRing(s.rpos, q.(items := q.items[1..])).(held := [q.items[0]], rpc := RProcess);
    assert s3.Ring(s.rpos).Size() < s.cap && s3.Ring(Other(s.rpos)) == s.Ring(Other(s.rpos));
    HeldIsProcessed(s3, retry);
    assert [q.items[0]] + q.items[1..] == q.items;
  }

  // ----- Everything accepted can be consumed -----

  // The writer's steps until it releases the lock, if it holds it.
  function Hold(s: State): nat {
    match s.wpc
    case WSignal => 3
    case WSwap => 2
    case WUnlock => 1
    case _ => 0
  }

  // The writer's steps until it signals, when its ring holds something and the reader sleeps on it.
  function Wake(s: State): nat {
    match s.wpc
    case WPush => 5
    case WFill => 4
    case WFullTest => 3
    case WTest => 3
    case WLock => 2
    case WSignal => 1
    case _ => 0
  }

  // The steps of the schedule below until a packet is consumed, at most.
  function Rank(s: State): nat {
    var full := s.Ring(s.rpos).items != [];
    match s.rpc
    case RProcess => 0
    case RPop => if full then 1 else 20
    case RTest => if full then 2 else 19
    case RUnlock => if full then 2 else 21
    case RWoken => (if full then 3 else 22) + Hold(s)
    case RSleep => 7 + Wake(s)
    case RWait => 13
    case RSetPos => 14
    case RLock => 15 + Hold(s)
    case RDone => 0
  }

  // The reader's turn, if it can move; else the writer's.
  function Next(s: State, input: Input): Turn {
    if s.rpc == RSleep || ((s.rpc == RLock || s.rpc == RWoken) && s.lock != Free) then WriterTurn(input)
    else ReaderTurn(false)
  }

  // Nothing is accepted, and the next packet is consumed or comes closer.
  ghost predicate Nearer(s: State, t: State) {
    && t.accepted == s.accepted && t.finished == s.finished
    && (|t.consumed| > |s.consumed| || (t.consumed == s.consumed && Rank(t) < Rank(s)))
  }

  // The mark is accepted.
  ghost predicate Closed(s: State, t: State, input: Input) {
    input == Close && !s.finished && t.finished && t.accepted == s.accepted + [Mark] && t.consumed == s.consumed
  }

  lemma ReaderComesNearer(s: State)
    requires Inv(s) && s.consumed != s.accepted && s.rpc != RSleep
    requires s.rpc == RLock || s.rpc == RWoken ==> s.lock == Free
    ensures Nearer(s, ReaderStep(s, false))
  {
    if s.rpc == RDone {
      DoneHasAll(s);
    }
  }

  lemma HolderComesNearer(s: State, input: Input)
    requires Inv(s) && (s.rpc == RLock || s.rpc == RWoken) && s.lock != Free
    ensures Nearer(s, WriterStep(s, input))
  {
  }

  lemma WakerComesNearer(s: State, input: Input)
    requires Inv(s) && s.consumed != s.accepted && s.rpc == RSleep && !input.Got?
    ensures var t := WriterStep(s, input);
            Nearer(s, t) || Closed(s, t, input)
  {
    assert s.Ring(s.wpos).items != [];
  }

  // With everything consumed, a writer whose stream goes on has a block to fill after two steps.
  function FillIn(s: State): nat {
    match s.wpc
    case WFill => 0
    case WPush => 1
    case _ => 2
  }

  lemma NothingIsQueued(s: State)
    requires Inv(s) && s.consumed == s.accepted
    ensures s.ring0.items == [] && s.ring1.items == []
  {
    assert s.Ring(s.rpos).items == [] && s.Ring(s.wpos).items == [];
    assert s.wpos == s.rpos ==> s.Ring(Other(s.wpos)).items == [];
  }

  lemma WriterComesToFill(s: State, input: Input)
    requires Inv(s) && s.consumed == s.accepted && !s.finished
    ensures s.wpc == WFill <==> CanFill(s)
    ensures var t := WriterStep(s, input);
            if s.wpc == WFill then (input == Close ==> Closed(s, t, input))
            else t.consumed == t.accepted == s.accepted && !t.finished && FillIn(t) < FillIn(s)
  {
    NothingIsQueued(s);
  }

  // A schedule whose writer is offered nothing but `input`.
  predicate Plain(turns: seq<Turn>, input: Input) {
    forall i :: 0 <= i < |turns| ==> turns[i] == WriterTurn(input) || turns[i] == ReaderTurn(false)
  }

  lemma RunFirst(s: State, t: Turn, rest: seq<Turn>)
    ensures Run(s, [t] + rest) == Run(Step(s, t), rest)
  {
    assert ([t] + rest)[1..] == rest;
  }

  // What is left to do for `Drained`.
  ghost predicate Over(s: State, input: Input) { s.consumed == s.accepted && (input == Close ==> s.finished) }

  ghost function Left(s: State): int { |s.accepted| - |s.consumed| }

  ghost function Distance(s: State): (d: nat)
    ensures d <= 25
  {
    if s.consumed != s.accepted then Rank(s) else FillIn(s)
  }

  // The mark that is still to be accepted weighs more than the packet that it becomes.
  ghost function Measure(s: State, input: Input): nat {
    (if input == Close && !s.finished then 60 else 0) + (if Left(s) < 0 then 0 else 30 * Left(s)) + Distance(s)
  }

  lemma ConsumedIsPrefix(s: State)
    requires Inv(s)
    ensures Left(s) >= 0 && (Left(s) == 0 <==> s.consumed == s.accepted)
  {
  }

  ghost function Choice(s: State, input: Input): Turn {
    if s.consumed != s.accepted then Next(s, input) else WriterTurn(input)
  }

  // The mark is accepted, or a packet is consumed, or one of the two comes closer.
  ghost predicate Advances(s: State, t: State, input: Input) {
    || Closed(s, t, input)
    || (t.accepted == s.accepted && t.finished == s.finished
        && (Left(t) < Left(s) || (Left(t) == Left(s) && Distance(t) < Distance(s))))
  }

  lemma MeasureDrops(s: State, t: State, input: Input)
    requires Left(s) >= 0 && Left(t) >= 0 && Advances(s, t, input)
    ensures Measure(t, input) < Measure(s, input)
    ensures Closed(s, t, input) || (t.accepted == s.accepted && t.finished == s.finished)
  {
    var a, b := Distance(s), Distance(t);
    assert Measure(s, input) == (if input == Close && !s.finished then 60 else 0) + 30 * Left(s) + a;
    assert Measure(t, input) == (if input == Close && !t.finished then 60 else 0) + 30 * Left(t) + b;
  }

  lemma ChoiceAdvances(s: State, input: Input)
    requires Inv(s) && !Over(s, input) && !input.Got?
    ensures Advances(s, Step(s, Choice(s, input)), input)
  {
    ConsumedIsPrefix(s);
    ConsumedIsPrefix(Step(s, Choice(s, input))) by {
      StepInv(s, Choice(s, input));
    }
    if s.consumed == s.accepted {
      WriterComesToFill(s, input);
    } else if Next(s, input).ReaderTurn? {
      ReaderComesNearer(s);
    } else if s.rpc == RSleep {
      WakerComesNearer(s, input);
    } else {
      HolderComesNearer(s, input);
    }
  }

  // Everything accepted up to `s` has been consumed in `u`, and the mark if it was offered.
  ghost predicate DrainedIn(s: State, u: State, input: Input) {
    && Inv(u) && u.consumed == u.accepted
    && u.accepted == s.accepted + (if input == Close && !s.finished then [Mark] else [])
    && u.finished == (s.finished || input == Close)
  }

  lemma DrainedLater(s: State, t: State, u: State, input: Input)
    requires Closed(s, t, input) || (t.accepted == s.accepted && t.finished == s.finished)
    requires DrainedIn(t, u, input)
    ensures DrainedIn(s, u, input)
  {
  }

  // From every state of a run, some turns lead to a state in which everything accepted has been
  // consumed. The writer need not be offered anything; and if it is offered the end of its stream,
  // the mark is accepted and consumed as well.
  lemma {:induction false} Drained(s: State, input: Input) returns (turns: seq<Turn>)
    requires Inv(s) && !input.Got?
    ensures Plain(turns, input) && DrainedIn(s, Run(s, turns), input)
    decreases Measure(s, input)
  {
    if Over(s, input) {
      turns := [];
    } else {
      var c := Choice(s, input);
      var t := ChoiceStep(s, input);
      var rest := Drained(t, input);
      DrainedFirst(s, c, t, rest, input);
      PlainFirst(c, rest, input);
      turns := [c] + rest;
    }
  }

  lemma PlainFirst(c: Turn, rest: seq<Turn>, input: Input)
    requires Plain(rest, input) && (c == WriterTurn(input) || c == ReaderTurn(false))
    ensures Plain([c] + rest, input)
  {
  }

  lemma DrainedFirst(s: State, c: Turn, t: State, rest: seq<Turn>, input: Input)
    requires t == Step(s, c) && DrainedIn(t, Run(t, rest), input)
    requires Closed(s, t, input) || (t.accepted == s.accepted && t.finished == s.finished)
    ensures DrainedIn(s, Run(s, [c] + rest), input)
  {
    RunFirst(s, c, rest);
    DrainedLater(s, t, Run(t, rest), input);
  }

  lemma ChoiceStep(s: State, input: Input) returns (t: State)
    requires Inv(s) && !Over(s, input) && !input.Got?
    ensures t == Step(s, Choice(s, input)) && Inv(t) && Measure(t, input) < Measure(s, input)
    ensures Closed(s, t, input) || (t.accepted == s.accepted && t.finished == s.finished)
    ensures Choice(s, input) == WriterTurn(input) || Choice(s, input) == ReaderTurn(false)
  {
    t := Step(s, Choice(s, input));
    ConsumedIsPrefix(s);
    assert Inv(t) by {
      StepInv(s, Choice(s, input));
    }
    ConsumedIsPrefix(t);
    assert Advances(s, t, input) by {
      ChoiceAdvances(s, input);
    }
    MeasureDrops(s, t, input);
  }

  lemma {:induction false} RunJoins(s: State, a: seq<Turn>, b: seq<Turn>)
    ensures Run(s, a + b) == Run(Run(s, a), b)
    decreases |a|
  {
    if a == [] {
      assert a + b == b;
    } else {
      assert a + b == [a[0]] + (a[1..] + b);
      RunFirst(s, a[0], a[1..] + b);
      RunJoins(Step(s, a[0]), a[1..], b);
    }
  }

  // In every run, whatever has happened so far, some turns without new input lead to a state in
  // which all that was accepted has been consumed.
  lemma AllCanBeConsumed(cap: nat, before: seq<Turn>) returns (after: seq<Turn>)
    requires cap >= 1
    ensures var s, t := Run(Initial(cap), before), Run(Initial(cap), before + after);
            t.consumed == t.accepted == s.accepted
  {
    HandOffRuns.RunKeeps(Initial(cap), before);
    after := Drained(Run(Initial(cap), before), Nothing);
    RunJoins(Initial(cap), before, after);
  }

  lemma {:induction false} ComesToFill(s: State) returns (turns: seq<Turn>)
    requires Inv(s) && s.consumed == s.accepted && !s.finished
    ensures Plain(turns, Nothing)
    ensures var t := Run(s, turns); Inv(t) && CanFill(t) && t.accepted == s.accepted
    decreases FillIn(s)
  {
    WriterComesToFill(s, Nothing);
    if s.wpc == WFill {
      turns := [];
    } else {
      StepInv(s, WriterTurn(Nothing));
      var rest := ComesToFill(WriterStep(s, Nothing));
      RunFirst(s, WriterTurn(Nothing), rest);
      turns := [WriterTurn(Nothing)] + rest;
    }
  }

  lemma ReadyToFill(s: State) returns (turns: seq<Turn>)
    requires Inv(s) && !s.finished
    ensures Plain(turns, Nothing)
    ensures var t := Run(s, turns); Inv(t) && CanFill(t) && t.accepted == s.accepted
  {
    var a := Drained(s, Nothing);
    var b := ComesToFill(Run(s, a));
    RunJoins(s, a, b);
    turns := a + b;
  }

  // And a writer whose stream goes on can always be brought to accept what it is offered next.
  lemma Accepts(s: State, input: Input) returns (turns: seq<Turn>)
    requires Inv(s) && !s.finished && input != Nothing
    ensures Plain(turns, Nothing)
    ensures Run(s, turns + [WriterTurn(input)]).accepted == s.accepted + [ItemOf(input)]
  {
    turns := ReadyToFill(s);
    NextIsAccepted(s, turns, input);
  }

  lemma NextIsAccepted(s: State, turns: seq<Turn>, input: Input)
    requires Inv(Run(s, turns)) && CanFill(Run(s, turns)) && input != Nothing
    ensures Run(s, turns + [WriterTurn(input)]).accepted == Run(s, turns).accepted + [ItemOf(input)]
  {
    var t := Run(s, turns);
    RunJoins(s, turns, [WriterTurn(input)]);
    RunFirst(t, WriterTurn(input), []);
    StepAccepts(t, WriterTurn(input));
  }

  // ----- The writer leaves -----

  // Once its stream has ended and its ring is handed over, the writer is about to leave.
  ghost predicate Leaving(s: State) {
    s.finished && s.Ring(s.wpos).items == [] ==> s.wpc == WUnlock || s.wpc == WDone
  }

  lemma WriterKeepsLeaving(s: State, input: Input)
    requires s.wpos < 2 && Leaving(s)
    ensures Leaving(WriterStep(s, input))
  {
  }

  lemma ReaderKeepsLeaving(s: State, retry: bool)
    requires s.wpos < 2 && s.rpos < 2 && (OnOwnRing(s) ==> s.wpos != s.rpos) && Leaving(s)
    ensures Leaving(ReaderStep(s, retry))
  {
  }

  lemma OwnRings(s: State)
    requires Inv(s)
    ensures s.wpos < 2 && s.rpos < 2 && (OnOwnRing(s) ==> s.wpos != s.rpos)
  {
  }

  lemma {:induction false} RunKeepsLeaving(s: State, turns: seq<Turn>)
    requires Inv(s) && Leaving(s)
    ensures Leaving(Run(s, turns))
    decreases |turns|
  {
    if turns == [] {
    } else {
      StepInv(s, turns[0]);
      OwnRings(s);
      if turns[0].WriterTurn? {
        WriterKeepsLeaving(s, turns[0].input);
      } else {
        ReaderKeepsLeaving(s, turns[0].retry);
      }
      RunKeepsLeaving(Step(s, turns[0]), turns[1..]);
    }
  }

  // In every run, when the reader has left on the mark, the writer has left too, or its next step
  // takes it out of its loop.
  lemma BothLeave(cap: nat, turns: seq<Turn>, input: Input)
    requires cap >= 1
    ensures var s := Run(Initial(cap), turns); s.rpc == RDone ==> WriterStep(s, input).wpc == WDone
  {
    var s := Run(Initial(cap), turns);
    HandOffRuns.RunKeeps(Initial(cap), turns);
    RunKeepsLeaving(Initial(cap), turns);
    if s.rpc == RDone {
      DoneHasAll(s);
      NothingIsQueued(s);
      MarkAcceptedOnce(s);
    }
  }
}
