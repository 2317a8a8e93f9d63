/**
 Both directions of one tunnelled TCP connection (tcp_socket.cpp:187-295, 344-373 and 550-561):
 two hand-offs that share `stop_flag` and `client_closewaite`. The UP direction ends when its
 socket ends or the DOWN socket does; the DOWN direction ends when the UP reader has left.
 */
module Connection {
  import HandOff
  import HandOffProgress
  import HandOffRuns

  // `downEnded` is the DOWN writer's `isfinished == 2`: its socket ended, its stream has not.
  datatype Conn = Conn(up: HandOff.State, down: HandOff.State, stopFlag: bool, closeWait: bool, downEnded: bool)

  function Open(cap: nat): Conn {
    Conn(HandOff.Initial(cap), HandOff.Initial(cap), false, false, false)
  }

  datatype Move =
    | UpWriter(socket: HandOff.Input)
    | UpReader(retry: bool)
    | UpReaderLeaves
    | DownWriter(socket: HandOff.Input)
    | DownReader(retry: bool)
    | DownSocketReplaced

  // The UP writer puts the end mark when its socket ended or `stop_flag` is set
  // (`recvTcpUpData` and `addTcpEndData2Queue`).
  function UpInput(c: Conn, socket: HandOff.Input): HandOff.Input {
    if c.stopFlag then HandOff.Close else socket
  }

  // The DOWN writer puts the end mark only when `client_closewaite` is set; the end of its own
  // socket is remembered instead (`recvTcpDownData`).
  function DownInput(c: Conn, socket: HandOff.Input): HandOff.Input {
    if c.closeWait then HandOff.Close
    else if socket.Got? && !c.downEnded then socket
    else HandOff.Nothing
  }

  function Step(c: Conn, m: Move): Conn {
    match m
    case UpWriter(socket) =>
      c.(up := HandOff.WriterStep(c.up, UpInput(c, socket)))
    case UpReader(retry) =>
      c.(up := HandOff.ReaderStep(c.up, retry))
    case UpReaderLeaves =>
      if c.up.rpc == HandOff.RDone then c.(closeWait := true) else c
    case DownWriter(socket) =>
      var filling := c.down.wpc == HandOff.WFill && !c.down.finished;
      var ended := c.downEnded || (filling && !c.closeWait && socket == HandOff.Close);
      c.(down := HandOff.WriterStep(c.down, DownInput(c, socket)),
         downEnded := ended, stopFlag := c.stopFlag || (filling && !c.closeWait && ended))
    case DownReader(retry) =>
      c.(down := HandOff.ReaderStep(c.down, retry))
    case DownSocketReplaced => c.(downEnded := false)
  }

  function Run(c: Conn, moves: seq<Move>): Conn
    decreases |moves|
  {
    if moves == [] then c else Run(Step(c, moves[0]), moves[1..])
  }

  ghost predicate Inv(c: Conn) {
    && HandOff.Inv(c.up) && HandOff.Inv(c.down)
    && (c.closeWait ==> c.up.rpc == HandOff.RDone)
    && (c.down.finished ==> c.closeWait)
  }

  // Only an end that the source reports finishes a writer.
  lemma FinishesOnClose(s: HandOff.State, input: HandOff.Input)
    ensures HandOff.WriterStep(s, input).finished ==> s.finished || input == HandOff.Close
    ensures s.rpc == HandOff.RDone ==> HandOff.WriterStep(s, input).rpc == HandOff.RDone
  {
  }

  lemma ReaderLeavesTheRest(s: HandOff.State, retry: bool)
    ensures s.rpc == HandOff.RDone ==> HandOff.ReaderStep(s, retry) == s
    ensures HandOff.ReaderStep(s, retry).finished == s.finished
  {
  }

  lemma StepKeeps(c: Conn, m: Move)
    requires Inv(c)
    ensures Inv(Step(c, m))
  {
    match m
    case UpWriter(socket) => {
      HandOff.WriterKeeps(c.up, UpInput(c, socket));
      FinishesOnClose(c.up, UpInput(c, socket));
    }
    case UpReader(retry) => {
      HandOff.ReaderKeeps(c.up, retry);
      ReaderLeavesTheRest(c.up, retry);
    }
    case UpReaderLeaves =>
    case DownWriter(socket) => {
      HandOff.WriterKeeps(c.down, DownInput(c, socket));
      FinishesOnClose(c.down, DownInput(c, socket));
    }
    case DownReader(retry) => {
      HandOff.ReaderKeeps(c.down, retry);
      ReaderLeavesTheRest(c.down, retry);
    }
    case DownSocketReplaced =>
  }

  lemma {:induction false} RunKeeps(c: Conn, moves: seq<Move>)
    requires Inv(c)
    ensures Inv(Run(c, moves))
    decreases |moves|
  {
    if moves == [] {
    } else {
      StepKeeps(c, moves[0]);
      RunKeeps(Step(c, moves[0]), moves[1..]);
    }
  }

  // In every interleaving of the four threads, the DOWN direction carries its end mark only after
  // the UP reader has left its loop, and by then the whole UP stream has been consumed: each packet
  // was sent on, or given up on after its send had failed.
  lemma DownEndsAfterUp(cap: nat, moves: seq<Move>)
    requires cap >= 1
    ensures var c := Run(Open(cap), moves);
            HandOff.Mark in c.down.accepted ==>
              && c.up.rpc == HandOff.RDone && c.up.finished
              && c.up.consumed == c.up.accepted && HandOff.Mark in c.up.consumed
  {
    var c := Run(Open(cap), moves);
    RunKeeps(Open(cap), moves);
    LeftMeansDone(c.up);
    HandOff.MarkAcceptedOnce(c.down);
  }

  lemma LeftMeansDone(s: HandOff.State)
    requires HandOff.Inv(s)
    ensures s.rpc == HandOff.RDone ==> s.finished && s.consumed == s.accepted && HandOff.Mark in s.consumed
  {
    HandOff.DoneHasAll(s);
    HandOff.MarkAcceptedOnce(s);
  }

  // ----- What each direction accepts -----

  // The direction has a block to fill, and its stream goes on.
  predicate CanFill(s: HandOff.State) { HandOffProgress.CanFill(s) }

  // Both flags stay once they are set.
  lemma {:induction false} FlagsStay(c: Conn, moves: seq<Move>)
    ensures c.stopFlag ==> Run(c, moves).stopFlag
    ensures c.closeWait ==> Run(c, moves).closeWait
    decreases |moves|
  {
    if moves == [] {
    } else {
      FlagsStay(Step(c, moves[0]), moves[1..]);
    }
  }

  // Each flag has its cause in the run: the end of the DOWN socket's stream, the UP reader leaving.
  ghost predicate Caused(c: Conn, moves: seq<Move>) {
    && (c.stopFlag || c.downEnded ==> DownWriter(HandOff.Close) in moves)
    && (c.closeWait ==> UpReaderLeaves in moves)
  }

  lemma {:induction false} FlagsHaveCauses(cap: nat, moves: seq<Move>)
    ensures Caused(Run(Open(cap), moves), moves)
    decreases |moves|
  {
    if moves == [] {
    } else {
      var k := |moves| - 1;
      FlagsHaveCauses(cap, moves[..k]);
      RunJoins(Open(cap), moves[..k], [moves[k]]);
      RunFirst(Run(Open(cap), moves[..k]), moves[k], []);
      assert moves == moves[..k] + [moves[k]];
    }
  }

  // As long as neither direction is to end, what the sockets deliver is what is accepted.
  lemma DataIsAccepted(c: Conn, data: seq<bv8>)
    requires Inv(c)
    ensures CanFill(c.up) && !c.stopFlag ==>
              Step(c, UpWriter(HandOff.Got(data))).up.accepted == c.up.accepted + [HandOff.Pkt(data)]
    ensures CanFill(c.down) && !c.closeWait && !c.downEnded ==>
              Step(c, DownWriter(HandOff.Got(data))).down.accepted == c.down.accepted + [HandOff.Pkt(data)]
  {
    HandOffProgress.StepAccepts(c.up, HandOffRuns.WriterTurn(HandOff.Got(data)));
    HandOffProgress.StepAccepts(c.down, HandOffRuns.WriterTurn(HandOff.Got(data)));
  }

  // The end of the UP socket's stream ends the UP direction.
  lemma UpSocketEnds(c: Conn)
    requires Inv(c) && CanFill(c.up)
    ensures Step(c, UpWriter(HandOff.Close)).up.accepted == c.up.accepted + [HandOff.Mark]
  {
    HandOffProgress.StepAccepts(c.up, HandOffRuns.WriterTurn(HandOff.Close));
  }

  // The end of the DOWN socket's stream, while the UP direction goes on, is not accepted. It ends
  // the UP direction: whatever happens next, the next block that the UP writer fills has the mark,
  // whatever its socket delivers.
  lemma DownSocketEnds(c: Conn, moves: seq<Move>, socket: HandOff.Input)
    requires Inv(c) && CanFill(c.down) && !c.closeWait
    ensures var ended := Step(c, DownWriter(HandOff.Close));
            var later := Run(ended, moves);
            && ended.down.accepted == c.down.accepted && ended.downEnded
            && (CanFill(later.up) ==> Step(later, UpWriter(socket)).up.accepted == later.up.accepted + [HandOff.Mark])
  {
    var ended := Step(c, DownWriter(HandOff.Close));
    HandOffProgress.StepAccepts(c.down, HandOffRuns.WriterTurn(HandOff.Nothing));
    FlagsStay(ended, moves);
    StepKeeps(c, DownWriter(HandOff.Close));
    RunKeeps(ended, moves);
    HandOffProgress.StepAccepts(Run(ended, moves).up, HandOffRuns.WriterTurn(HandOff.Close));
  }

  // What an ended DOWN socket delivers is not accepted, until the socket has been replaced.
  lemma ReplacedSocketIsRead(c: Conn, data: seq<bv8>)
    requires Inv(c) && CanFill(c.down) && !c.closeWait && c.downEnded
    ensures Step(c, DownWriter(HandOff.Got(data))).down.accepted == c.down.accepted
    ensures Step(Step(c, DownSocketReplaced), DownWriter(HandOff.Got(data))).down.accepted
         == c.down.accepted + [HandOff.Pkt(data)]
  {
    HandOffProgress.StepAccepts(c.down, HandOffRuns.WriterTurn(HandOff.Nothing));
    HandOffProgress.StepAccepts(c.down, HandOffRuns.WriterTurn(HandOff.Got(data)));
  }

  // Once the UP reader has left, whatever happens next, the next block that the DOWN writer fills
  // has the mark, whatever its socket delivers.
  lemma UpReaderLeft(c: Conn, moves: seq<Move>, socket: HandOff.Input)
    requires Inv(c) && c.up.rpc == HandOff.RDone
    ensures var later := Run(Step(c, UpReaderLeaves), moves);
            CanFill(later.down) ==>
              Step(later, DownWriter(socket)).down.accepted == later.down.accepted + [HandOff.Mark]
  {
    var left := Step(c, UpReaderLeaves);
    FlagsStay(left, moves);
    StepKeeps(c, UpReaderLeaves);
    RunKeeps(left, moves);
    HandOffProgress.StepAccepts(Run(left, moves).down, HandOffRuns.WriterTurn(HandOff.Close));
  }

  // ----- Both directions can end -----

  lemma RunFirst(c: Conn, m: Move, rest: seq<Move>)
    ensures Run(c, [m] + rest) == Run(Step(c, m), rest)
  {
    assert ([m] + rest)[1..] == rest;
  }

  lemma {:induction false} RunJoins(c: Conn, a: seq<Move>, b: seq<Move>)
    ensures Run(c, a + b) == Run(Run(c, a), b)
    decreases |a|
  {
    if a == [] {
      assert a + b == b;
    } else {
      assert a + b == [a[0]] + (a[1..] + b);
      RunFirst(c, a[0], a[1..] + b);
      RunJoins(Step(c, a[0]), a[1..], b);
    }
  }

  // A schedule of one hand-off as moves of the UP direction, whose socket has ended.
  lemma {:induction false} MovesUp(c: Conn, turns: seq<HandOffRuns.Turn>) returns (moves: seq<Move>)
    requires HandOffProgress.Plain(turns, HandOff.Close)
    ensures Run(c, moves) == c.(up := HandOffRuns.Run(c.up, turns))
    decreases |turns|
  {
    if turns == [] {
      moves := [];
    } else {
      var m := if turns[0].WriterTurn? then UpWriter(HandOff.Close) else UpReader(false);
      var rest := MovesUp(Step(c, m), turns[1..]);
      RunFirst(c, m, rest);
      moves := [m] + rest;
    }
  }

  // And as moves of the DOWN direction, once the UP reader has left.
  lemma {:induction false} MovesDown(c: Conn, turns: seq<HandOffRuns.Turn>) returns (moves: seq<Move>)
    requires c.closeWait && HandOffProgress.Plain(turns, HandOff.Close)
    ensures Run(c, moves) == c.(down := HandOffRuns.Run(c.down, turns))
    decreases |turns|
  {
    if turns == [] {
      moves := [];
    } else {
      var m := if turns[0].WriterTurn? then DownWriter(HandOff.Nothing) else DownReader(false);
      var rest := MovesDown(Step(c, m), turns[1..]);
      RunFirst(c, m, rest);
      moves := [m] + rest;
    }
  }

  // Everything that the direction accepted has been consumed, and its mark.
  ghost predicate Ended(s: HandOff.State) {
    HandOff.Mark in s.accepted && s.consumed == s.accepted && s.rpc == HandOff.RDone
  }

  lemma EndedIf(s: HandOff.State)
    requires HandOff.Inv(s) && s.finished && s.consumed == s.accepted
    ensures Ended(s)
  {
    HandOff.MarkAcceptedOnce(s);
  }

  // The UP direction can be brought to its end from every state.
  lemma UpCanEnd(c: Conn) returns (moves: seq<Move>)
    requires Inv(c)
    ensures var d := Run(c, moves); Inv(d) && Ended(d.up) && c.up.accepted <= d.up.accepted && d.down == c.down
  {
    var turns := HandOffProgress.Drained(c.up, HandOff.Close);
    moves := MovesUp(c, turns);
    RunKeeps(c, moves);
    EndedIf(Run(c, moves).up);
  }

  // So can the DOWN direction, once the UP reader has left.
  lemma DownCanEnd(c: Conn) returns (moves: seq<Move>)
    requires Inv(c) && c.closeWait
    ensures var d := Run(c, moves); Inv(d) && Ended(d.down) && c.down.accepted <= d.down.accepted && d.up == c.up
  {
    var turns := HandOffProgress.Drained(c.down, HandOff.Close);
    moves := MovesDown(c, turns);
    RunKeeps(c, moves);
    EndedIf(Run(c, moves).down);
  }

  // From every reachable state some moves end both directions: each has accepted its mark, and
  // everything that it accepted has been consumed.
  lemma BothCanEnd(cap: nat, before: seq<Move>) returns (moves: seq<Move>)
    requires cap >= 1
    ensures var c, d := Run(Open(cap), before), Run(Open(cap), before + moves);
            && Ended(d.up) && Ended(d.down)
            && c.up.accepted <= d.up.accepted && c.down.accepted <= d.down.accepted
  {
    RunKeeps(Open(cap), before);
    var c := Run(Open(cap), before);
    var up := UpCanEnd(c);
    var left := Step(Run(c, up), UpReaderLeaves);
    StepKeeps(Run(c, up), UpReaderLeaves);
    var down := DownCanEnd(left);
    moves := up + ([UpReaderLeaves] + down);
    RunJoins(Open(cap), before, moves);
    RunJoins(c, up, [UpReaderLeaves] + down);
    RunFirst(Run(c, up), UpReaderLeaves, down);
  }
}
