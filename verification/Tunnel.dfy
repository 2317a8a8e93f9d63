/**
 The whole tunnel of one stream: the sender of module Sender, the receiver of module Reassembly,
 and a network between them. Data packets may be lost, doubled and reordered; acknowledgements
 may be lost. Two things the network must not do: deliver a packet the receiver has already
 delivered, and reorder or double acknowledgements.
 */
module Tunnel {
  import opened Reassembly
  import opened Sender

  // `pushed[o]` is the payload accepted with offset `o`; `wire` the packets on their way, each of
  // which may arrive more than once; `acks` the acknowledgement numbers on their way back, `ended`
  // that the sender has sent the end marker.
  datatype Sys = Sys(pushed: seq<Payload>, cached: seq<Packet>, wire: set<Packet>,
                     rx: Rx, acks: seq<nat>, ended: bool)

  const START := Sys([], [], {}, RX_FRESH, [], false)

  datatype Action =
    | Send(p: Payload)
    | Resend(number: nat)
    | Arrive(pkt: Packet)
    | AckArrives
    | AckLost
    | Lose(pkt: Packet)
    | Finish
    | EndArrives

  function AckNumbers(replies: seq<Msg>): seq<nat> {
    if replies == [] then []
    else (if replies[0].Ack? then [replies[0].number] else []) + AckNumbers(replies[1..])
  }

  ghost predicate Enabled(s: Sys, a: Action) {
    match a
    case Send(_) => !s.ended && |s.pushed| < U32
    case Resend(_) => true
    case Arrive(pkt) => pkt in s.wire && pkt.offset < |s.pushed| && FirstMissing(s.rx.R, 0) <= pkt.offset
    case AckArrives => s.acks != []
    case AckLost => s.acks != []
    case Lose(pkt) => pkt in s.wire
    // The sender ends the stream when everything is acknowledged, or nothing was for 15 seconds.
    case Finish => true
    case EndArrives => s.ended
  }

  ghost function Step(s: Sys, a: Action): Sys
    requires Enabled(s, a)
  {
    match a
    case Send(p) =>
      if |s.cached| >= WINDOW then s
      else
        var pkt := Packet(|s.pushed|, p);
        s.(pushed := s.pushed + [p], cached := s.cached + [pkt], wire := s.wire + {pkt})
    case Resend(number) =>
      var found := FindCached(s.cached, number);
      if found.None? then s else s.(wire := s.wire + {found.value})
    case Arrive(pkt) =>
      var out := Receive(true, s.rx.core, Datagram(MAGIC_WORD_MAIN, pkt.offset, pkt.payload));
      s.(rx := Rx(out.core, s.rx.R + {pkt.offset}, s.rx.sent + out.sent, s.rx.marked, s.rx.released || out.released),
         acks := s.acks + AckNumbers(out.replies))
    case AckArrives =>
      s.(cached := AckCached(s.cached, s.acks[0]), acks := s.acks[1..])
    case AckLost => s.(acks := s.acks[1..])
    case Lose(pkt) => s.(wire := s.wire - {pkt})
    case Finish => s.(ended := true)
    case EndArrives =>
      var out := Receive(true, s.rx.core, Datagram(MAGIC_WORD_BANK, |s.pushed|, []));
      s.(rx := Rx(out.core, s.rx.R, s.rx.sent + out.sent, true, s.rx.released || out.released),
         acks := s.acks + AckNumbers(out.replies))
  }

  // The first offset not delivered, and the first offset still cached.
  ghost function N(s: Sys): nat { FirstMissing(s.rx.R, 0) }

  ghost function B(s: Sys): int { |s.pushed| - |s.cached| }

  ghost predicate CacheInv(s: Sys) {
    && 0 <= B(s) && |s.cached| <= WINDOW && |s.pushed| <= U32
    && Consecutive(s.cached, B(s))
    && (forall i :: 0 <= i < |s.cached| ==> s.cached[i].payload == s.pushed[B(s) + i])
    && (forall p :: p in s.wire ==> p.offset < |s.pushed| && p.payload == s.pushed[p.offset])
  }

  ghost predicate AcksInv(s: Sys) {
    && (forall i :: 0 <= i < |s.acks| ==> B(s) <= s.acks[i] < N(s))
    && (forall i, j :: 0 <= i < j < |s.acks| ==> s.acks[i] < s.acks[j])
  }

  ghost predicate SysInv(s: Sys) {
    && CacheInv(s) && AcksInv(s)
    && B(s) <= N(s) && RxInv(s.rx, s.pushed)
    && (s.rx.marked ==> s.ended)
  }

  // Packets that cannot be in the window yet: everything the sender may have sent is below it.
  lemma ArrivalsAreInWindow(s: Sys, pkt: Packet)
    requires SysInv(s) && Enabled(s, Arrive(pkt))
    ensures N(s) <= pkt.offset < N(s) + WINDOW && pkt.offset < |s.pushed|
    ensures pkt.payload == s.pushed[pkt.offset]
  {
  }

  lemma StreamGrows(rx: Rx, stream: seq<Payload>, p: Payload)
    requires RxInv(rx, stream)
    ensures RxInv(rx, stream + [p])
  {
    var n := FirstMissing(rx.R, 0);
    assert (stream + [p])[..n] == stream[..n];
  }

  lemma SendKeeps(s: Sys, p: Payload)
    requires SysInv(s) && Enabled(s, Send(p))
    ensures SysInv(Step(s, Send(p)))
  {
    if |s.cached| < WINDOW {
      StreamGrows(s.rx, s.pushed, p);
    }
  }

  lemma FindIsCached(c: seq<Packet>, number: nat)
    ensures var found := FindCached(c, number); found.Some? ==> found.value in c
  {
  }

  lemma ResendKeeps(s: Sys, number: nat)
    requires SysInv(s)
    ensures SysInv(Step(s, Resend(number)))
  {
    FindIsCached(s.cached, number);
  }

  lemma ArriveKeeps(s: Sys, pkt: Packet)
    requires SysInv(s) && Enabled(s, Arrive(pkt))
    ensures SysInv(Step(s, Arrive(pkt)))
  {
    ArrivalsAreInWindow(s, pkt);
    PacketKeepsRx(s.rx, pkt.offset, s.pushed);
    ArriveMoves(s, pkt);
  }

  lemma ArriveMoves(s: Sys, pkt: Packet)
    requires SysInv(s) && Enabled(s, Arrive(pkt))
    ensures var t := Step(s, Arrive(pkt)); AcksInv(t) && N(s) <= N(t)
  {
    ArrivalsAreInWindow(s, pkt);
    NewAcks(s.rx.core, N(s), s.rx.R, s.pushed, pkt.offset);
    WindowOnlyMovesOn(s.rx, pkt.offset, s.pushed);
  }

  lemma WindowOnlyMovesOn(rx: Rx, o: nat, stream: seq<Payload>)
    requires RxInv(rx, stream) && LegalEvent(rx, Arrival(o), stream)
    ensures FirstMissing(rx.R + {o}, 0) == FirstMissing(rx.R, 0) + |Data(true, rx.core, o, stream[o]).sent|
  {
    var n := FirstMissing(rx.R, 0);
    ArrivalInWindow(rx.core, n, rx.R, stream, o);
    FirstMissingIs(rx.R + {o}, n + |Accept(true, rx.core, o, stream[o]).sent|);
  }

  // An arrival acknowledges exactly the packets delivered so far, if it delivers any.
  lemma NewAcks(c: Core, n: nat, R: set<nat>, stream: seq<Payload>, o: nat)
    requires Inv(c, n, R, stream) && n <= o < n + WINDOW && o < |stream| <= U32
    ensures var out := Data(true, c, o, stream[o]);
            AckNumbers(out.replies) == if out.sent == [] then [] else [n + |out.sent| - 1]
  {
    ArrivalInWindow(c, n, R, stream, o);
    var out := Accept(true, c, o, stream[o]);
    RepliesAcknowledge(out, n, o);
    DataAcknowledges(c, o, stream[o]);
  }

  lemma DataAcknowledges(c: Core, o: nat, p: Payload)
    requires |Accept(true, c, o, p).replies| <= 1
    ensures var out, accepted := Data(true, c, o, p), Accept(true, c, o, p);
            out.sent == accepted.sent && AckNumbers(out.replies) == AckNumbers(accepted.replies)
  {
    var accepted := Accept(true, c, o, p);
    RequestsAreNoAcks(accepted.replies, accepted.core.waiting);
  }

  lemma RepliesAcknowledge(out: Outcome, n: nat, o: nat)
    requires n + |out.sent| <= U32 && (out.sent != [] <==> o == n) && n <= o
    requires o == n ==> out.replies == [Ack((n + |out.sent| - 1) % U32)]
    requires o != n ==> out.replies == [] || (exists m :: out.replies == [Request(m)])
    ensures |out.replies| <= 1 && AckNumbers(out.replies) == if out.sent == [] then [] else [n + |out.sent| - 1]
  {
    RequestsAreNoAcks(out.replies, 0);
  }

  lemma RequestsAreNoAcks(replies: seq<Msg>, w: nat)
    requires |replies| <= 1
    ensures AckNumbers(replies) == if replies != [] && replies[0].Ack? then [replies[0].number] else []
    ensures AckNumbers(replies + [Request([w])]) == AckNumbers(replies)
  {
    assert AckNumbers([Request([w])]) == [];
    if replies == [] {
      assert replies + [Request([w])] == [Request([w])];
    } else {
      assert (replies + [Request([w])])[1..] == [Request([w])];
    }
  }

  lemma AckKeeps(s: Sys)
    requires SysInv(s) && Enabled(s, AckArrives)
    ensures SysInv(Step(s, AckArrives))
    ensures B(Step(s, AckArrives)) == s.acks[0] + 1
  {
    var t := Step(s, AckArrives);
    AckMovesCache(s);
    forall i | 0 <= i < |t.acks|
      ensures s.acks[0] < t.acks[i] < N(s)
    {
      assert t.acks[i] == s.acks[i + 1];
    }
  }

  lemma AckMovesCache(s: Sys)
    requires CacheInv(s) && s.acks != [] && B(s) <= s.acks[0] < |s.pushed|
    ensures var t := Step(s, AckArrives); CacheInv(t) && B(t) == s.acks[0] + 1 && (s.cached == [] ==> t.cached == [])
  {
    CumulativeAckIsExact(s.cached, B(s), s.acks[0]);
  }

  // The end marker is dropped, whenever it arrives.
  lemma EndKeeps(s: Sys)
    requires SysInv(s) && Enabled(s, EndArrives)
    ensures SysInv(Step(s, EndArrives))
    ensures Step(s, EndArrives) == s.(rx := s.rx.(marked := true))
  {
    EndKeepsRx(s.rx, s.pushed);
    assert s.acks + [] == s.acks;
  }

  // The branch that it does not reach would judge it by its residue: rightly, since the sender's
  // window is bounded, unless exactly a whole window is missing.
  lemma MarkerIsJudged(s: Sys)
    requires SysInv(s)
    ensures (End(true, s.rx.core, |s.pushed|).released <==> N(s) == |s.pushed|) <==> |s.pushed| != N(s) + WINDOW
  {
    MarkerIsExact(s.rx.core, N(s), s.rx.R, s.pushed);
  }

  lemma StepKeeps(s: Sys, a: Action)
    requires SysInv(s) && Enabled(s, a)
    ensures SysInv(Step(s, a))
  {
    match a
    case Send(p) => SendKeeps(s, p);
    case Resend(number) => ResendKeeps(s, number);
    case Arrive(pkt) => ArriveKeeps(s, pkt);
    case AckArrives => AckKeeps(s);
    case AckLost =>
    case Lose(pkt) =>
    case Finish =>
    case EndArrives => EndKeeps(s);
  }

  ghost predicate Reachable(s: Sys, actions: seq<Action>)
    decreases |actions|
  {
    if actions == [] then s == START
    else
      var last := |actions| - 1;
      exists t :: Reachable(t, actions[..last]) && Enabled(t, actions[last]) && s == Step(t, actions[last])
  }

  lemma {:induction false} ReachableKeeps(s: Sys, actions: seq<Action>)
    requires Reachable(s, actions)
    ensures SysInv(s)
    decreases |actions|
  {
    if actions == [] {
      assert RxInv(RX_FRESH, []);
    } else {
      var last := |actions| - 1;
      var t :| Reachable(t, actions[..last]) && Enabled(t, actions[last]) && s == Step(t, actions[last]);
      ReachableKeeps(t, actions[..last]);
      StepKeeps(t, actions[last]);
    }
  }

  // End-to-end safety, in every reachable state: the socket got exactly the first `n` payloads
  // accepted, in order; the sender still holds every payload that is not delivered; no packet on
  // the wire lies above the receiver's window. The socket ought to be released exactly when the
  // end marker has arrived and everything is delivered. It is not released in any state, so that
  // holds exactly as long as the marker or a packet is still to come.
  lemma TunnelIsSafe(s: Sys, actions: seq<Action>)
    requires Reachable(s, actions)
    ensures B(s) <= N(s) <= |s.pushed| <= B(s) + WINDOW
    ensures s.rx.sent == s.pushed[..N(s)]
    ensures forall o :: N(s) <= o < |s.pushed| ==> Packet(o, s.pushed[o]) in s.cached
    ensures forall pkt :: pkt in s.wire ==> pkt.offset < N(s) + WINDOW
    ensures !s.rx.released && !s.rx.core.closing
    ensures var over := s.rx.marked && N(s) == |s.pushed|; (s.rx.released <==> over) <==> !over
  {
    ReachableKeeps(s, actions);
    UndeliveredIsCached(s);
  }

  lemma UndeliveredIsCached(s: Sys)
    requires SysInv(s)
    ensures forall o :: N(s) <= o < |s.pushed| ==> Packet(o, s.pushed[o]) in s.cached
  {
    forall o | N(s) <= o < |s.pushed|
      ensures Packet(o, s.pushed[o]) in s.cached
    {
      assert s.cached[o - B(s)] == Packet(o, s.pushed[o]);
    }
  }

  // ----- Requests for retransmission and their answers -----

  // What a request for a residue the receiver does not hold brings back. A packet already sent
  // comes back itself. A residue whose packet has not been sent yet brings back nothing, or the
  // packet one window earlier, if its acknowledgement is still missing.
  lemma AnswerToRequest(s: Sys, r: nat)
    requires SysInv(s) && r < WINDOW && r !in s.rx.core.held
    ensures var m := InWindow(N(s), r);
            FindCached(s.cached, r) ==
              if m < |s.pushed| then Some(Packet(m, s.pushed[m]))
              else if m >= B(s) + WINDOW then Some(Packet(m - WINDOW, s.pushed[m - WINDOW]))
              else None
  {
    ShiftWindow(B(s), N(s), r);
    FoundInCache(s, r);
  }

  lemma FoundInCache(s: Sys, r: nat)
    requires CacheInv(s) && r < WINDOW
    ensures var a := InWindow(B(s), r);
            FindCached(s.cached, r) == if a < |s.pushed| then Some(Packet(a, s.pushed[a])) else None
  {
    FindByResidue(s.cached, B(s), r);
    var a := InWindow(B(s), r);
    if a < |s.pushed| {
      assert s.cached[a - B(s)] == Packet(a, s.pushed[a]);
    }
  }

  lemma FindByResidue(c: seq<Packet>, b: nat, r: nat)
    requires Consecutive(c, b) && |c| <= WINDOW && r < WINDOW
    ensures var a := InWindow(b, r);
            FindCached(c, r) == if a < b + |c| then Some(c[a - b]) else None
  {
    assert Res(r) == r;
    FindIsExact(c, b, r);
  }

  lemma ShiftWindow(b: nat, n: nat, r: nat)
    requires b <= n <= b + WINDOW && r < WINDOW
    ensures var m := InWindow(n, r);
            InWindow(b, r) == if m < b + WINDOW then m else m - WINDOW
  {
    var m := InWindow(n, r);
    var m' := if m < b + WINDOW then m else m - WINDOW;
    NextResidue(m');
    if m' != InWindow(b, r) {
      SameResidue(m', InWindow(b, r));
    }
  }

  // The answer to a request for residue `r` is of use, or there is none.
  ghost predicate Useful(s: Sys, r: nat) {
    var found := FindCached(s.cached, r);
    found.Some? ==> found.value.offset >= N(s)
  }

  // Requests ask for every missing residue, also for those of packets not sent yet. The answers
  // are all of use exactly when no acknowledgement is outstanding or nothing is requested;
  // otherwise some answer is a packet that was delivered before, which the receiver would take
  // for a later one.
  lemma AnswersAreUseful(s: Sys)
    requires SysInv(s)
    ensures (forall r :: Requests(s.rx.core, r) ==> Useful(s, r)) <==> B(s) == N(s) || s.rx.core.held == map[]
  {
    forall r | Requests(s.rx.core, r)
      ensures B(s) == N(s) ==> Useful(s, r)
    {
      AnswerToRequest(s, r);
    }
    if B(s) < N(s) && s.rx.core.held != map[] {
      UselessAnswer(s);
    }
  }

  // With an acknowledgement outstanding, the residue of the oldest cached packet is requested.
  lemma UselessAnswer(s: Sys)
    requires SysInv(s) && B(s) < N(s) && s.rx.core.held != map[]
    ensures var r := Res(B(s)); Requests(s.rx.core, r) && !Useful(s, r)
  {
    var m := B(s) + WINDOW;
    var r := Res(m);
    NextResidue(B(s));
    assert r !in s.rx.core.held;
    SomeHeldIsNotWaited(s.rx.core, N(s), s.rx.R, s.pushed);
    SameResidueInWindow(N(s), m);
    AnswerToRequest(s, r);
  }

  lemma SameResidueInWindow(n: nat, m: nat)
    requires n <= m < n + WINDOW
    ensures InWindow(n, Res(m)) == m
  {
    if InWindow(n, Res(m)) != m {
      SameResidue(InWindow(n, Res(m)), m);
    }
  }

  lemma SomeHeldIsNotWaited(c: Core, n: nat, R: set<nat>, stream: seq<Payload>)
    requires Inv(c, n, R, stream) && c.held != map[]
    ensures exists q :: 0 <= q < WINDOW && q in c.held && q != c.waiting
  {
    var q :| q in c.held;
    assert Res(n) !in c.held;
  }

  // The requests a receiver sends by itself: each arrival in the last place of the window asks
  // for the packet that is waited for, and gets it.
  lemma WaitedForIsCached(s: Sys)
    requires SysInv(s) && N(s) < |s.pushed|
    ensures FindCached(s.cached, s.rx.core.waiting) == Some(Packet(N(s), s.pushed[N(s)]))
    ensures FindCached(s.cached, N(s)) == Some(Packet(N(s), s.pushed[N(s)]))
  {
    var n := N(s);
    AnswerToRequest(s, Res(n));
    FindSameResidue(s.cached, n, Res(n));
  }

  lemma {:induction false} FindSameResidue(c: seq<Packet>, x: nat, y: nat)
    requires Res(x) == Res(y)
    ensures FindCached(c, x) == FindCached(c, y)
  {
    if c == [] {
    } else {
      FindSameResidue(c[1..], x, y);
    }
  }

  // ----- Concrete runs -----

  lemma OneMoreStep(s: Sys, actions: seq<Action>, a: Action)
    requires Reachable(s, actions) && Enabled(s, a)
    ensures Reachable(Step(s, a), actions + [a])
  {
    assert (actions + [a])[..|actions|] == actions;
  }

  // The sender after all of `payloads`, before any of them arrives.
  ghost function SentOnly(payloads: seq<Payload>): Sys {
    Sys(payloads, Numbered(payloads), PacketSet(Numbered(payloads)), RX_FRESH, [], false)
  }

  ghost function Numbered(payloads: seq<Payload>): (c: seq<Packet>)
    ensures |c| == |payloads| && forall i :: 0 <= i < |c| ==> c[i] == Packet(i, payloads[i])
  {
    seq(|payloads|, i requires 0 <= i < |payloads| => Packet(i, payloads[i]))
  }

  ghost function PacketSet(c: seq<Packet>): set<Packet> { set p | p in c }

  lemma {:induction false} SendAll(payloads: seq<Payload>) returns (actions: seq<Action>)
    requires |payloads| <= WINDOW
    ensures Reachable(SentOnly(payloads), actions)
    decreases |payloads|
  {
    if payloads == [] {
      actions := [];
      assert SentOnly(payloads) == START;
    } else {
      var k := |payloads| - 1;
      actions := SendAll(payloads[..k]);
      OneMoreStep(SentOnly(payloads[..k]), actions, Send(payloads[k]));
      SendOne(payloads[..k], payloads[k]);
      assert payloads[..k] + [payloads[k]] == payloads;
      actions := actions + [Send(payloads[k])];
    }
  }

  lemma SendOne(payloads: seq<Payload>, p: Payload)
    requires |payloads| < WINDOW
    ensures Step(SentOnly(payloads), Send(p)) == SentOnly(payloads + [p])
  {
    var pkt := Packet(|payloads|, p);
    assert Numbered(payloads) + [pkt] == Numbered(payloads + [p]);
    assert PacketSet(Numbered(payloads)) + {pkt} == PacketSet(Numbered(payloads) + [pkt]);
  }

  // One packet is sent, delivered and acknowledged, and the end marker arrives: the stream is over
  // on both sides, and the socket stays open.
  lemma MissedReleaseIsReachable(x: Payload) returns (s: Sys, actions: seq<Action>)
    ensures Reachable(s, actions)
    ensures s.pushed == [x] == s.rx.sent && s.cached == [] && s.rx.marked && !s.rx.released
  {
    s, actions := FirstDelivered([x]);
    FirstIsAcked(s, x);
    OneMoreStep(s, actions, AckArrives);
    s, actions := s.(cached := [], acks := []), actions + [AckArrives];
    s, actions := MarkerArrives(s, actions);
  }

  lemma FirstIsAcked(s: Sys, x: Payload)
    requires s == SentOnly([x]).(rx := InOrder(1, [x]), acks := [0])
    ensures Step(s, AckArrives) == s.(cached := [], acks := [])
  {
    assert s.cached[0] == Packet(0, x);
    assert [0][1..] == [];
  }

  lemma MarkerArrives(s: Sys, actions: seq<Action>) returns (t: Sys, more: seq<Action>)
    requires Reachable(s, actions)
    ensures Reachable(t, more) && t == s.(ended := true, rx := s.rx.(marked := true))
  {
    var ended := s.(ended := true);
    assert Step(s, Finish) == ended;
    OneMoreStep(s, actions, Finish);
    assert Reachable(ended, actions + [Finish]);
    EndIsDropped(ended, actions + [Finish]);
    t, more := ended.(rx := s.rx.(marked := true)), actions + [Finish] + [EndArrives];
  }

  lemma EndIsDropped(s: Sys, actions: seq<Action>)
    requires Reachable(s, actions) && s.ended
    ensures Reachable(s.(rx := s.rx.(marked := true)), actions + [EndArrives])
  {
    ReachableKeeps(s, actions);
    EndKeeps(s);
    OneMoreStep(s, actions, EndArrives);
  }

  // Three packets are sent, the first is delivered and its acknowledgement lost, the third
  // arrives. The receiver then also asks for residue 0, the answer is the first packet again, and
  // when that arrives the receiver is wrong.
  lemma StaleAnswerIsReachable(x: Payload, y: Payload, z: Payload) returns (s: Sys, actions: seq<Action>)
    requires x != y && y != z && x != z
    ensures Reachable(s, actions)
    ensures Requests(s.rx.core, 0) && FindCached(s.cached, 0) == Some(Packet(0, x)) && N(s) == 1
    ensures var out := Accept(true, s.rx.core, 0, x);
            !(IsSlice(out.sent, 1, s.pushed) && Sound(out.core, 1 + |out.sent|, s.pushed))
  {
    s, actions := ThirdIsNext([x, y, z]);
    ReachableIsInv(s, actions);
    Distinct3([x, y, z]);
    StalePacketCorrupts(s.rx.core, 1, s.rx.R, [x, y, z], 0);
  }

  lemma ThirdIsNext(stream: seq<Payload>) returns (s: Sys, actions: seq<Action>)
    requires |stream| == 3
    ensures Reachable(s, actions) && s.pushed == stream
    ensures Requests(s.rx.core, 0) && FindCached(s.cached, 0) == Some(Packet(0, stream[0])) && N(s) == 1
  {
    actions := FirstAckIsLost(stream);
    s := SentOnly(stream).(rx := InOrder(1, stream), acks := []);
    var a := Arrive(Packet(2, stream[2]));
    ThirdArrives(s, stream);
    OneMoreStep(s, actions, a);
    s, actions := Step(s, a), actions + [a];
  }

  lemma ReachableIsInv(s: Sys, actions: seq<Action>)
    requires Reachable(s, actions)
    ensures Inv(s.rx.core, N(s), s.rx.R, s.pushed)
  {
    ReachableKeeps(s, actions);
  }

  lemma Distinct3(stream: seq<Payload>)
    requires |stream| == 3 && stream[0] != stream[1] && stream[1] != stream[2] && stream[0] != stream[2]
    ensures forall i, j :: 0 <= i < j < |stream| ==> stream[i] != stream[j]
  {
  }

  lemma FirstAckIsLost(stream: seq<Payload>) returns (actions: seq<Action>)
    requires |stream| == 3
    ensures Reachable(SentOnly(stream).(rx := InOrder(1, stream), acks := []), actions)
  {
    var s;
    s, actions := FirstDelivered(stream);
    OneMoreStep(s, actions, AckLost);
    actions := actions + [AckLost];
    assert [0][1..] == [];
  }

  lemma FirstDelivered(stream: seq<Payload>) returns (s: Sys, actions: seq<Action>)
    requires 0 < |stream| <= WINDOW
    ensures Reachable(s, actions) && s == SentOnly(stream).(rx := InOrder(1, stream), acks := [0])
  {
    actions := SendAll(stream);
    s := SentOnly(stream);
    FirstArrives(stream);
    OneMoreStep(s, actions, Arrive(Packet(0, stream[0])));
    s, actions := Step(s, Arrive(Packet(0, stream[0]))), actions + [Arrive(Packet(0, stream[0]))];
  }

  lemma FirstArrives(stream: seq<Payload>)
    requires stream != []
    ensures Enabled(SentOnly(stream), Arrive(Packet(0, stream[0])))
    ensures Step(SentOnly(stream), Arrive(Packet(0, stream[0])))
         == SentOnly(stream).(rx := InOrder(1, stream), acks := [0])
  {
    assert Packet(0, stream[0]) == Numbered(stream)[0];
    FirstMissingIs({}, 0);
    assert InOrder(0, stream) == RX_FRESH;
    NextInOrder(0, stream);
    NothingHeld(0);
    assert AckNumbers([Ack(0)]) == [0];
    assert [] + [0] == [0];
  }

  lemma ThirdArrives(s: Sys, stream: seq<Payload>)
    requires |stream| == 3 && s == SentOnly(stream).(rx := InOrder(1, stream), acks := [])
    ensures Enabled(s, Arrive(Packet(2, stream[2])))
    ensures var t := Step(s, Arrive(Packet(2, stream[2])));
            && t.pushed == stream && t.cached == s.cached && N(t) == 1
            && Requests(t.rx.core, 0) && FindCached(t.cached, 0) == Some(Packet(0, stream[0]))
  {
    assert Packet(2, stream[2]) == Numbered(stream)[2];
    NextInOrder(1, stream);
    assert InOrder(1, stream).R == {0};
    FirstMissingIs({0, 2}, 1);
    assert {0} + {2} == {0, 2};
    var t := Step(s, Arrive(Packet(2, stream[2])));
    assert t.rx.core.waiting == 1 && t.rx.core.held == map[2 := stream[2]];
    assert 2 in t.rx.core.held;
    assert s.cached[0] == Packet(0, stream[0]);
  }
}
