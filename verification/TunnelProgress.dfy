/**
 What the tunnel of module Tunnel can still do, whatever has been lost: everything accepted can be
 delivered, and more can be accepted unless all acknowledgements of a full window are lost.
 */
module TunnelProgress {
  import opened Reassembly
  import opened Sender
  import opened Tunnel

  // Some actions lead from `s` to `t`.
  ghost predicate Leads(s: Sys, actions: seq<Action>, t: Sys)
    decreases |actions|
  {
    if actions == [] then t == s
    else Enabled(s, actions[0]) && Leads(Step(s, actions[0]), actions[1..], t)
  }

  lemma LeadsFirst(s: Sys, a: Action, rest: seq<Action>, t: Sys)
    requires Enabled(s, a) && Leads(Step(s, a), rest, t)
    ensures Leads(s, [a] + rest, t)
  {
    assert ([a] + rest)[1..] == rest;
  }

  lemma {:induction false} LeadsOn(s: Sys, a: seq<Action>, t: Sys, b: seq<Action>, u: Sys)
    requires Leads(s, a, t) && Leads(t, b, u)
    ensures Leads(s, a + b, u)
    decreases |a|
  {
    if a == [] {
      assert a + b == b;
    } else {
      LeadsOn(Step(s, a[0]), a[1..], t, b, u);
      assert a + b == [a[0]] + (a[1..] + b);
      LeadsFirst(s, a[0], a[1..] + b, u);
    }
  }

  lemma {:induction false} LeadsReaches(s: Sys, before: seq<Action>, actions: seq<Action>, t: Sys)
    requires Reachable(s, before) && Leads(s, actions, t)
    ensures Reachable(t, before + actions)
    decreases |actions|
  {
    if actions == [] {
      assert before + actions == before;
    } else {
      OneMoreStep(s, before, actions[0]);
      LeadsReaches(Step(s, actions[0]), before + [actions[0]], actions[1..], t);
      assert before + actions == (before + [actions[0]]) + actions[1..];
    }
  }

  // ----- Delivery -----

  lemma TwoSteps(s: Sys, a: Action, b: Action, t: Sys)
    requires Enabled(s, a) && Enabled(Step(s, a), b) && t == Step(Step(s, a), b)
    ensures Leads(s, [a, b], t)
  {
    assert Leads(t, [], t);
    assert [b] + [] == [b] && [a] + [b] == [a, b];
    LeadsFirst(Step(s, a), b, [], t);
    LeadsFirst(s, a, [b], t);
  }

  lemma WaitedForIsResent(s: Sys) returns (pkt: Packet)
    requires SysInv(s) && N(s) < |s.pushed|
    ensures pkt.offset == N(s) && Step(s, Resend(N(s))) == s.(wire := s.wire + {pkt})
    ensures SysInv(s.(wire := s.wire + {pkt})) && Enabled(s.(wire := s.wire + {pkt}), Arrive(pkt))
  {
    pkt := Packet(N(s), s.pushed[N(s)]);
    WaitedForIsCached(s);
    ResendKeeps(s, N(s));
  }

  // The packet waited for is sent again and arrives: it is delivered, and acknowledged.
  lemma NextIsDelivered(s: Sys) returns (actions: seq<Action>, t: Sys)
    requires SysInv(s) && N(s) < |s.pushed|
    ensures Leads(s, actions, t) && SysInv(t)
    ensures t.pushed == s.pushed && t.cached == s.cached && t.ended == s.ended
    ensures N(t) > N(s) && t.acks == s.acks + [N(t) - 1]
  {
    var pkt := WaitedForIsResent(s);
    var s1 := s.(wire := s.wire + {pkt});
    t := Step(s1, Arrive(pkt));
    actions := [Resend(N(s)), Arrive(pkt)];
    assert Leads(s, actions, t) by {
      TwoSteps(s, Resend(N(s)), Arrive(pkt), t);
    }
    ArrivalIsAcknowledged(s1, pkt);
    ArriveKeeps(s1, pkt);
  }

  lemma ArrivalIsAcknowledged(s: Sys, pkt: Packet)
    requires SysInv(s) && Enabled(s, Arrive(pkt)) && pkt.offset == N(s)
    ensures var t := Step(s, Arrive(pkt)); N(t) > N(s) && t.acks == s.acks + [N(t) - 1]
  {
    ArrivalsAreInWindow(s, pkt);
    NewAcks(s.rx.core, N(s), s.rx.R, s.pushed, pkt.offset);
    WindowOnlyMovesOn(s.rx, pkt.offset, s.pushed);
    ArrivalInWindow(s.rx.core, N(s), s.rx.R, s.pushed, pkt.offset);
  }

  // From every reachable state, and whatever has been lost on the way, everything that the sender
  // has accepted can be delivered.
  lemma {:induction false} AllCanBeDelivered(s: Sys) returns (actions: seq<Action>, t: Sys)
    requires SysInv(s)
    ensures Leads(s, actions, t) && SysInv(t)
    ensures t.pushed == s.pushed == t.rx.sent && N(t) == |t.pushed|
    decreases |s.pushed| - N(s)
  {
    if N(s) == |s.pushed| {
      actions, t := [], s;
    } else {
      var a, u := NextIsDelivered(s);
      var b;
      b, t := AllCanBeDelivered(u);
      LeadsOn(s, a, u, b, t);
      actions := a + b;
    }
  }

  // ----- More packets -----

  // The window is full, everything is delivered, and no acknowledgement is on its way.
  ghost predicate Stuck(s: Sys) { |s.cached| == WINDOW && N(s) == |s.pushed| && s.acks == [] }

  lemma StuckStays(s: Sys, a: Action)
    requires SysInv(s) && Stuck(s) && Enabled(s, a)
    ensures SysInv(Step(s, a)) && Stuck(Step(s, a)) && Step(s, a).pushed == s.pushed
  {
    StepKeeps(s, a);
    if a.EndArrives? {
      EndKeeps(s);
    }
  }

  lemma {:induction false} StuckForGood(s: Sys, actions: seq<Action>, t: Sys)
    requires SysInv(s) && Stuck(s) && Leads(s, actions, t)
    ensures t.pushed == s.pushed
    decreases |actions|
  {
    if actions == [] {
    } else {
      StuckStays(s, actions[0]);
      StuckForGood(Step(s, actions[0]), actions[1..], t);
    }
  }

  lemma RoomIsUsed(s: Sys, p: Payload) returns (t: Sys)
    requires SysInv(s) && !s.ended && |s.pushed| < U32 && |s.cached| < WINDOW
    ensures Leads(s, [Send(p)], t) && t.pushed == s.pushed + [p]
  {
    t := Step(s, Send(p));
    assert Leads(t, [], t);
    LeadsFirst(s, Send(p), [], t);
    assert [Send(p)] + [] == [Send(p)];
  }

  lemma AckMakesRoom(s: Sys, p: Payload) returns (t: Sys)
    requires SysInv(s) && !s.ended && |s.pushed| < U32 && s.acks != []
    ensures Leads(s, [AckArrives, Send(p)], t) && t.pushed == s.pushed + [p]
  {
    AckKeeps(s);
    var u := Step(s, AckArrives);
    t := RoomIsUsed(u, p);
    LeadsFirst(s, AckArrives, [Send(p)], t);
    assert [AckArrives] + [Send(p)] == [AckArrives, Send(p)];
  }

  ghost predicate Grows(s: Sys, actions: seq<Action>, t: Sys, p: Payload) {
    Leads(s, actions, t) && t.pushed == s.pushed + [p]
  }

  // As long as its stream goes on, the sender can be brought to accept one more packet if and only
  // if it is not stuck.
  lemma CanSendUnlessStuck(s: Sys, p: Payload)
    requires SysInv(s) && !s.ended && |s.pushed| < U32
    ensures (exists actions, t :: Grows(s, actions, t, p)) <==> !Stuck(s)
  {
    if Stuck(s) {
      forall actions, t | Leads(s, actions, t)
        ensures t.pushed != s.pushed + [p]
      {
        StuckForGood(s, actions, t);
      }
    } else {
      var actions, t := CanSend(s, p);
      assert Grows(s, actions, t, p);
    }
  }

  lemma CanSend(s: Sys, p: Payload) returns (actions: seq<Action>, t: Sys)
    requires SysInv(s) && !s.ended && |s.pushed| < U32 && !Stuck(s)
    ensures Leads(s, actions, t) && t.pushed == s.pushed + [p]
  {
    if |s.cached| < WINDOW {
      actions := [Send(p)];
      t := RoomIsUsed(s, p);
    } else if s.acks != [] {
      actions := [AckArrives, Send(p)];
      t := AckMakesRoom(s, p);
    } else {
      var a, u := NextIsDelivered(s);
      t := AckMakesRoom(u, p);
      LeadsOn(s, a, u, [AckArrives, Send(p)], t);
      actions := a + [AckArrives, Send(p)];
    }
  }

  // ----- A run that gets stuck -----

  // `payloads` are sent, the first `k` have arrived in order, and their acknowledgements are lost.
  ghost function Unacknowledging(payloads: seq<Payload>, k: nat): Sys
    requires k <= |payloads|
  {
    SentOnly(payloads).(rx := InOrder(k, payloads))
  }

  lemma NextArrives(payloads: seq<Payload>, k: nat)
    requires k < |payloads| <= WINDOW
    ensures var a := Arrive(Packet(k, payloads[k]));
            var s, t := Unacknowledging(payloads, k), Unacknowledging(payloads, k + 1);
            Enabled(s, a) && Step(s, a) == t.(acks := [k])
  {
    var pkt := Packet(k, payloads[k]);
    assert pkt == Numbered(payloads)[k] && pkt in PacketSet(Numbered(payloads));
    NextInOrder(k, payloads);
    NextResidue(k);
    NothingHeld(Res(k));
    assert AckNumbers([Ack(k)]) == [k];
    assert [] + [k] == [k];
  }

  lemma NextAckIsLost(payloads: seq<Payload>, k: nat, before: seq<Action>) returns (actions: seq<Action>)
    requires k < |payloads| <= WINDOW && Reachable(Unacknowledging(payloads, k), before)
    ensures Reachable(Unacknowledging(payloads, k + 1), actions)
  {
    var s, t := Unacknowledging(payloads, k), Unacknowledging(payloads, k + 1);
    var a := Arrive(Packet(k, payloads[k]));
    NextArrives(payloads, k);
    OneMoreStep(s, before, a);
    assert Reachable(t.(acks := [k]), before + [a]);
    OneMoreStep(t.(acks := [k]), before + [a], AckLost);
    assert [k][1..] == [];
    actions := before + [a] + [AckLost];
  }

  lemma {:induction false} AllArrive(payloads: seq<Payload>, k: nat) returns (actions: seq<Action>)
    requires k <= |payloads| <= WINDOW
    ensures Reachable(Unacknowledging(payloads, k), actions)
    decreases k
  {
    if k == 0 {
      actions := SendAll(payloads);
      assert InOrder(0, payloads) == RX_FRESH;
    } else {
      actions := AllArrive(payloads, k - 1);
      actions := NextAckIsLost(payloads, k - 1, actions);
    }
  }

  // A hundred packets are sent and delivered, and every acknowledgement is lost: no packet is
  // accepted any more.
  lemma StuckIsReachable(payloads: seq<Payload>) returns (s: Sys, actions: seq<Action>)
    requires |payloads| == WINDOW
    ensures Reachable(s, actions) && Stuck(s) && !s.ended && s.pushed == payloads == s.rx.sent
  {
    actions := AllArrive(payloads, WINDOW);
    s := Unacknowledging(payloads, WINDOW);
    FirstMissingIs(UpTo(WINDOW), WINDOW);
  }
}
