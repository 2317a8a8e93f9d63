/**
 What the protocol of module HandOff keeps over whole runs, in every interleaving of the two
 threads, and that a sleeping reader is woken.
 */
module HandOffRuns {
  import opened HandOff

  // ----- Every interleaving -----

  datatype Turn = WriterTurn(input: Input) | ReaderTurn(retry: bool)

  function Step(s: State, t: Turn): State {
    match t
    case WriterTurn(input) => WriterStep(s, input)
    case ReaderTurn(retry) => ReaderStep(s, retry)
  }

  function Run(s: State, turns: seq<Turn>): State
    decreases |turns|
  {
    if turns == [] then s else Run(Step(s, turns[0]), turns[1..])
  }

  lemma {:induction false} RunKeeps(s: State, turns: seq<Turn>)
    requires Inv(s)
    ensures Inv(Run(s, turns))
    decreases |turns|
  {
    if turns == [] {
    } else {
      match turns[0]
      case WriterTurn(input) => { WriterKeeps(s, input); RunKeeps(WriterStep(s, input), turns[1..]); }
      case ReaderTurn(retry) => { ReaderKeeps(s, retry); RunKeeps(ReaderStep(s, retry), turns[1..]); }
    }
  }

  // In every interleaving the two threads never work on the same ring: they share a position
  // only while the reader goes to sleep, sleeps, or has been signalled and cannot run yet. The
  // reader never sees a block that is still being filled, and putting a packet back never fails.
  lemma ThreadsNeverShareARing(cap: nat, turns: seq<Turn>)
    requires cap >= 1
    ensures var s := Run(Initial(cap), turns);
            && !s.torn
            && (s.wpos == s.rpos <==> Joined(s))
            && (OnOwnRing(s) ==> s.wpos != s.rpos)
            && (s.rpc == RProcess ==> s.Ring(s.rpos).Size() < cap)
  {
    RunKeeps(Initial(cap), turns);
    CapIsFixed(Initial(cap), turns);
  }

  lemma StepCap(s: State, t: Turn)
    ensures Step(s, t).cap == s.cap
  {
  }

  lemma {:induction false} CapIsFixed(s: State, turns: seq<Turn>)
    ensures Run(s, turns).cap == s.cap
    decreases |turns|
  {
    if turns == [] {
    } else {
      StepCap(s, turns[0]);
      CapIsFixed(Step(s, turns[0]), turns[1..]);
    }
  }

  // Nothing is lost, doubled or reordered, also when packets are put back: what the reader is
  // done with, what it holds, its ring and the writer's ring make up what was accepted.
  lemma PacketsStayInOrder(cap: nat, turns: seq<Turn>)
    requires cap >= 1
    ensures var s := Run(Initial(cap), turns);
            && s.consumed <= s.accepted
            && s.accepted == s.consumed + s.held + s.Ring(s.rpos).items
                             + (if s.wpos == s.rpos then [] else s.Ring(s.wpos).items)
  {
    RunKeeps(Initial(cap), turns);
  }

  // The end mark is accepted once and last. The writer leaves its loop only after it handed over
  // the ring with the mark; from then on the reader is awake, or on its way to wake up, and has
  // or will find everything in its own ring, until it is done with the mark.
  lemma EndOfStream(cap: nat, turns: seq<Turn>)
    requires cap >= 1
    ensures var s := Run(Initial(cap), turns);
            && (forall i :: 0 <= i < |s.accepted| && s.accepted[i] == Mark ==> i == |s.accepted| - 1 && s.finished)
            && (s.rpc == RDone <==> Mark in s.consumed) && (s.rpc == RDone ==> s.consumed == s.accepted)
            && (s.wpc == WDone ==> s.finished && s.accepted == s.consumed + s.held + s.Ring(s.rpos).items
                                   && s.rpc != RLock && s.rpc != RSetPos && s.rpc != RWait && s.rpc != RSleep)
  {
    var s := Run(Initial(cap), turns);
    RunKeeps(Initial(cap), turns);
    DoneHasAll(s);
    MarkAcceptedOnce(s);
    DoneReaderIsAwake(s);
  }

  // ----- Progress -----

  // The writer's steps from the top of its loop until it is back there, or has left the loop.
  function Iteration(s: State, input: Input, steps: nat): State
    decreases steps
  {
    if steps == 0 || s.wpc == WPush || s.wpc == WDone then s
    else Iteration(WriterStep(s, input), input, steps - 1)
  }

  lemma ExchangeWakes(s: State, input: Input, steps: nat)
    requires s.wpc == WLock && s.rpc == RSleep && s.lock == Free && s.wpos == s.rpos < 2 && steps >= 4
    ensures Iteration(s, input, steps) ==
            s.(wpos := Other(s.wpos), rpc := RWoken, wpc := if s.finished then WDone else WPush)
  {
    var s1 := WriterStep(s, input);
    var s2 := WriterStep(s1, input);
    var s3 := WriterStep(s2, input);
    var s4 := WriterStep(s3, input);
    assert Iteration(s1, input, steps - 1) == Iteration(s2, input, steps - 2);
    assert Iteration(s3, input, steps - 3) == Iteration(s4, input, steps - 4) == s4;
  }

  // The writer has data for the sleeping reader, or is about to accept some.
  ghost predicate Offers(s: State, input: Input) {
    s.Ring(s.wpos).items != [] || (!s.finished && input != Nothing)
  }

  // What stays as it is until the writer goes for the lock.
  ghost predicate StillAsleep(s: State, t: State) {
    && t.rpc == RSleep && t.lock == Free && t.wpos == s.wpos && t.rpos == s.rpos < 2 && t.wpos == t.rpos
    && s.Ring(s.rpos).items <= t.Ring(s.rpos).items
  }

  lemma OfferPushed(s: State, input: Input)
    requires Inv(s) && s.rpc == RSleep && s.wpc == WPush && Offers(s, input)
    ensures var t := WriterStep(s, input);
            && (t.wpc == WFullTest || t.wpc == WFill) && StillAsleep(s, t) && Offers(t, input)
            && (t.wpc == WFullTest ==> t.Ring(t.rpos).items != [])
  {
  }

  lemma OfferFilled(s: State, input: Input)
    requires s.rpc == RSleep && s.lock == Free && s.wpos == s.rpos < 2 && (s.wpc == WFullTest || s.wpc == WFill)
    requires Offers(s, input) && (s.wpc == WFullTest ==> s.Ring(s.rpos).items != [])
    ensures var t := WriterStep(s, input);
            && (if s.wpc == WFill then t.wpc == WTest else t.wpc == WLock)
            && StillAsleep(s, t) && t.Ring(t.rpos).items != []
  {
  }

  lemma OfferTested(s: State, input: Input)
    requires s.rpc == RSleep && s.lock == Free && s.wpos == s.rpos < 2 && s.wpc == WTest && s.Ring(s.rpos).items != []
    ensures var t := WriterStep(s, input); t.wpc == WLock && StillAsleep(s, t) && t.Ring(t.rpos).items != []
  {
  }

  // With data in its ring and the reader asleep on it, the writer goes for the lock.
  lemma WriterGoesForLock(s: State, input: Input)
    requires Inv(s) && s.rpc == RSleep && s.wpc == WPush && Offers(s, input)
    ensures var s1 := WriterStep(s, input);
            var s2 := WriterStep(s1, input);
            var l := if s2.wpc == WTest then WriterStep(s2, input) else s2;
            && (s1.wpc == WFullTest || s1.wpc == WFill) && (s2.wpc == WTest || s2.wpc == WLock)
            && l.wpc == WLock && l.rpc == RSleep && l.lock == Free && l.wpos == l.rpos == s.rpos
            && l.Ring(l.rpos).items != [] && s.Ring(s.rpos).items <= l.Ring(l.rpos).items
  {
    OfferPushed(s, input);
    var s1 := WriterStep(s, input);
    OfferFilled(s1, input);
    var s2 := WriterStep(s1, input);
    if s2.wpc == WTest {
      OfferTested(s2, input);
    }
  }

  // No wake-up is lost: if the reader sleeps, and the writer's ring holds data or the writer's
  // next iteration accepts some, then that iteration hands the data over and wakes the reader.
  lemma SleepingReaderIsWoken(s: State, input: Input)
    requires Inv(s) && s.rpc == RSleep && s.wpc == WPush && Offers(s, input)
    ensures var t := Iteration(WriterStep(s, input), input, 7);
            && (t.wpc == WPush || t.wpc == WDone)
            && t.rpc == RWoken && t.lock == Free
            && t.rpos == s.rpos && t.wpos != t.rpos
            && t.Ring(t.rpos).items != [] && s.Ring(s.rpos).items <= t.Ring(t.rpos).items
  {
    WriterGoesForLock(s, input);
    var s1 := WriterStep(s, input);
    var s2 := WriterStep(s1, input);
    assert Iteration(s1, input, 7) == Iteration(s2, input, 6);
    if s2.wpc == WTest {
      ExchangeWakes(WriterStep(s2, input), input, 5);
    } else {
      ExchangeWakes(s2, input, 6);
    }
  }
}
