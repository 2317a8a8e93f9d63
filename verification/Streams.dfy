/**
 Many streams through one receiver (`GetPktQueuePos`, udp_socket.cpp:228-263, and its use in
 `thread_pktsend`, 1208-1213, 1265-1274 and 1301-1308): every stream has its own reassembly slot,
 found by the stream's nonzero packet flag.
 */
module Streams {
  import opened Reassembly

  const UNINITIALISED: nat := 0
  const UNUSED: nat := 1
  const USED: nat := 2
  const U64: nat := 0x1_0000_0000_0000_0000

  datatype Entry = Entry(usedFlag: nat, pktFlag: nat, timeStamp: int, core: Core)

  // The first entry from `i` on with this flag, or `|q|`.
  function WithFlag(q: seq<Entry>, flag: nat, i: nat): (p: nat)
    requires i <= |q|
    ensures i <= p <= |q| && (forall k :: i <= k < p ==> q[k].pktFlag != flag) && (p < |q| ==> q[p].pktFlag == flag)
    decreases |q| - i
  {
    if i == |q| || q[i].pktFlag == flag then i else WithFlag(q, flag, i + 1)
  }

  // The first entry from `i` on in this state, or `|q|`.
  function InState(q: seq<Entry>, used: nat, i: nat): (p: nat)
    requires i <= |q|
    ensures i <= p <= |q| && (forall k :: i <= k < p ==> q[k].usedFlag != used) && (p < |q| ==> q[p].usedFlag == used)
    decreases |q| - i
  {
    if i == |q| || q[i].usedFlag == used then i else InState(q, used, i + 1)
  }

  // How long a used entry has been held, as an unsigned number of 64 bits; 0 for any other.
  function Age(e: Entry, now: int): (a: nat) {
    if e.usedFlag == USED then (now - e.timeStamp) % U64 else 0
  }

  // The first of the oldest among the first `n` entries.
  function Oldest(q: seq<Entry>, now: int, n: nat): (p: nat)
    requires 0 < n <= |q|
    ensures p < n && (forall k :: 0 <= k < n ==> Age(q[k], now) <= Age(q[p], now))
    ensures forall k :: 0 <= k < p ==> Age(q[k], now) < Age(q[p], now)
  {
    if n == 1 then 0
    else
      var p := Oldest(q, now, n - 1);
      if Age(q[p], now) < Age(q[n - 1], now) then n - 1 else p
  }

  // With every entry used and no time stamp in the future, that is the first of the entries with
  // the earliest time stamp.
  lemma OldestIsEarliest(q: seq<Entry>, now: int)
    requires q != [] && forall i :: 0 <= i < |q| ==> q[i].usedFlag == USED && 0 <= now - q[i].timeStamp < U64
    ensures var p := Oldest(q, now, |q|);
            && (forall i :: 0 <= i < |q| ==> q[p].timeStamp <= q[i].timeStamp)
            && (forall i :: 0 <= i < p ==> q[p].timeStamp < q[i].timeStamp)
  {
    var p := Oldest(q, now, |q|);
    forall i | 0 <= i < |q|
      ensures q[p].timeStamp <= q[i].timeStamp && (i < p ==> q[p].timeStamp < q[i].timeStamp)
    {
      assert Age(q[i], now) == now - q[i].timeStamp && Age(q[p], now) == now - q[p].timeStamp;
    }
  }

  // No slot is left for a new stream with this flag.
  predicate Evicts(q: seq<Entry>, flag: nat) {
    WithFlag(q, flag, 0) == InState(q, UNUSED, 0) == InState(q, UNINITIALISED, 0) == |q|
  }

  // The slot of a stream: its own, else an unused one, else a new one, else that of the stream
  // that has had its slot for longest.
  function Position(q: seq<Entry>, flag: nat, now: int): (p: nat)
    requires q != []
    ensures p < |q|
  {
    if WithFlag(q, flag, 0) < |q| then WithFlag(q, flag, 0)
    else if InState(q, UNUSED, 0) < |q| then InState(q, UNUSED, 0)
    else if InState(q, UNINITIALISED, 0) < |q| then InState(q, UNINITIALISED, 0)
    else Oldest(q, now, |q|)
  }

  // The queue after the search. The first unused slot gets the time even if it is not taken,
  // provided that the search comes by.
  function Searched(q: seq<Entry>, flag: nat, now: int): (r: seq<Entry>)
    requires q != []
    ensures |r| == |q|
  {
    var u, p := InState(q, UNUSED, 0), Position(q, flag, now);
    if u < |q| then
      if u <= WithFlag(q, flag, 0) then q[u := q[u].(timeStamp := now)] else q
    else if p < WithFlag(q, flag, 0) then
      q[p := Entry(UNUSED, 0, if Evicts(q, flag) then now else q[p].timeStamp, FRESH)]
    else q
  }

  // The search as the gateway runs it: one pass over the queue and, if a slot may be taken and
  // none is free, one for a new slot and one for the oldest. Without `rallocflg` it only looks
  // the flag up.
  method GetPktQueuePos(pktQueue: array<Entry>, pktFlag: nat, rallocflg: bool, now: int) returns (pos: nat)
    requires pktQueue.Length > 0
    modifies pktQueue
    ensures pos == if rallocflg then Position(old(pktQueue[..]), pktFlag, now)
                   else WithFlag(old(pktQueue[..]), pktFlag, 0)
    ensures pktQueue[..] == if rallocflg then Searched(old(pktQueue[..]), pktFlag, now) else old(pktQueue[..])
  {
    ghost var q := pktQueue[..];
    var unusedPos: nat := pktQueue.Length;
    var i := 0;
    while i < pktQueue.Length
      invariant i <= |q| == pktQueue.Length && Scanned(q, pktQueue[..], pktFlag, rallocflg, now, i, unusedPos)
    {
      if rallocflg && unusedPos == pktQueue.Length && pktQueue[i].usedFlag == UNUSED {
        pktQueue[i] := pktQueue[i].(timeStamp := now);
        unusedPos := i;
      }
      if pktQueue[i].pktFlag == pktFlag {
        return i;
      }
      i := i + 1;
    }
    pos := unusedPos;
    if rallocflg && pos == pktQueue.Length {
      pos := InitOnePackQueue(pktQueue);
      if pos == pktQueue.Length {
        pos := ReleaseOneOverTimeQueue(pktQueue, now);
      }
    }
  }

  // The pass over the queue `q` after `i` entries.
  ghost predicate Scanned(q: seq<Entry>, r: seq<Entry>, flag: nat, alloc: bool, now: int, i: nat, u: nat)
    requires i <= |q|
  {
    && WithFlag(q, flag, 0) == WithFlag(q, flag, i)
    && (if u < |q| then alloc && u == InState(q, UNUSED, 0) && u < i && r == q[u := q[u].(timeStamp := now)]
        else u == |q| && r == q && (alloc ==> InState(q, UNUSED, 0) == InState(q, UNUSED, i)))
  }

  method InitOnePackQueue(pktQueue: array<Entry>) returns (pos: nat)
    modifies pktQueue
    ensures pos == InState(old(pktQueue[..]), UNINITIALISED, 0)
    ensures pktQueue[..] == if pos < pktQueue.Length
                            then old(pktQueue[..])[pos := Entry(UNUSED, 0, old(pktQueue[..])[pos].timeStamp, FRESH)]
                            else old(pktQueue[..])
  {
    ghost var q := pktQueue[..];
    pos := 0;
    while pos < pktQueue.Length
      invariant pos <= |q| == pktQueue.Length && pktQueue[..] == q
      invariant InState(q, UNINITIALISED, 0) == InState(q, UNINITIALISED, pos)
    {
      if pktQueue[pos].usedFlag == UNINITIALISED {
        pktQueue[pos] := Entry(UNUSED, 0, pktQueue[pos].timeStamp, FRESH);
        return;
      }
      pos := pos + 1;
    }
  }

  // Frees the slot that has been held for longest.
  method ReleaseOneOverTimeQueue(pktQueue: array<Entry>, now: int) returns (pos: nat)
    requires pktQueue.Length > 0
    modifies pktQueue
    ensures pos == Oldest(old(pktQueue[..]), now, pktQueue.Length)
    ensures pktQueue[..] == old(pktQueue[..])[pos := Entry(UNUSED, 0, now, FRESH)]
  {
    ghost var q := pktQueue[..];
    var timeDeltaMax := 0;
    pos := 0;
    for i := 0 to pktQueue.Length
      invariant pktQueue[..] == q && pos < pktQueue.Length
      invariant if i == 0 then timeDeltaMax == 0 == pos
                else pos == Oldest(q, now, i) && timeDeltaMax == Age(q[pos], now)
    {
      if pktQueue[i].usedFlag == USED {
        var timeDelta := (now - pktQueue[i].timeStamp) % U64;
        if timeDeltaMax < timeDelta {
          timeDeltaMax, pos := timeDelta, i;
        }
      }
    }
    pktQueue[pos] := Entry(UNUSED, 0, now, FRESH);
  }

  // A packet of the stream `flag` that arrives at the time `now`.
  datatype Event = Event(flag: nat, now: int, packet: Datagram)

  predicate IsData(e: Event) { e.packet.magicWord == MAGIC_WORD_MAIN }

  // One slot's turn: it is bound to the flag, and given back when its socket is released.
  function Slot(e: Entry, out: Outcome, flag: nat): Entry {
    if out.released then Entry(UNUSED, 0, e.timeStamp, FRESH) else Entry(USED, flag, e.timeStamp, out.core)
  }

  // The core that the packet of a stream meets: a slot taken over is as good as new.
  function CoreAt(q: seq<Entry>, flag: nat): Core {
    var p := WithFlag(q, flag, 0);
    if p < |q| then q[p].core else FRESH
  }

  function StepAll(heartbeat: bool, q: seq<Entry>, e: Event): (seq<Entry>, Outcome)
    requires q != []
  {
    if !IsData(e) then (q, Receive(heartbeat, CoreAt(q, e.flag), e.packet))
    else
      var p, r := Position(q, e.flag, e.now), Searched(q, e.flag, e.now);
      var out := Handle(heartbeat, r[p].core, e.packet);
      (r[p := Slot(r[p], out, e.flag)], out)
  }

  ghost predicate QueueInv(q: seq<Entry>) {
    && q != []
    && (forall i :: 0 <= i < |q| ==> EntryInv(q[i]))
    && Distinct(q)
  }

  ghost predicate EntryInv(e: Entry) {
    && e.usedFlag <= USED && (e.pktFlag != 0 <==> e.usedFlag == USED)
    && (e.pktFlag == 0 ==> e.core == FRESH) && !e.core.closing
  }

  ghost predicate Distinct(q: seq<Entry>) {
    forall i, j :: 0 <= i < j < |q| && q[i].pktFlag != 0 ==> q[i].pktFlag != q[j].pktFlag
  }

  // The stream that loses its slot to the packet, or 0.
  function Evicted(q: seq<Entry>, e: Event): nat
    requires q != []
  {
    if IsData(e) && Evicts(q, e.flag) then q[Oldest(q, e.now, |q|)].pktFlag else 0
  }

  lemma OneSlotPerFlag(q: seq<Entry>, i: nat)
    requires QueueInv(q) && i < |q| && q[i].pktFlag != 0
    ensures WithFlag(q, q[i].pktFlag, 0) == i && CoreAt(q, q[i].pktFlag) == q[i].core
  {
  }

  // The search gives the packet the core of its stream and changes no other stream's slot.
  lemma SearchFinds(q: seq<Entry>, flag: nat, now: int)
    requires QueueInv(q) && flag != 0
    ensures var p, r := Position(q, flag, now), Searched(q, flag, now);
            && r[p].core == CoreAt(q, flag) && !r[p].core.closing
            && (q[p].pktFlag == flag || q[p].pktFlag == 0 || Evicts(q, flag))
            && (forall i :: 0 <= i < |q| && i != p ==>
                  EntryInv(r[i]) && r[i].pktFlag == q[i].pktFlag && r[i].core == q[i].core)
  {
  }

  // Whatever a packet's outcome is, the slot is bound to the stream or free.
  lemma SlotIsSound(e: Entry, out: Outcome, flag: nat)
    requires flag != 0 && !out.core.closing
    ensures EntryInv(Slot(e, out, flag))
  {
  }

  lemma SlotKeepsQueue(q: seq<Entry>, r: seq<Entry>, p: nat, e: Entry)
    requires QueueInv(q) && |r| == |q| && p < |q| && EntryInv(e)
    requires forall i :: 0 <= i < |q| && i != p ==> EntryInv(r[i]) && r[i].pktFlag == q[i].pktFlag != e.pktFlag
    ensures QueueInv(r[p := e])
  {
  }

  // A stream's core depends on the one slot that has its flag.
  lemma CoreIsAt(q: seq<Entry>, g: nat, i: nat)
    requires QueueInv(q) && g != 0 && i < |q|
    ensures q[i].pktFlag == g ==> CoreAt(q, g) == q[i].core
    ensures (forall k :: 0 <= k < |q| ==> q[k].pktFlag != g) ==> CoreAt(q, g) == FRESH
  {
    if q[i].pktFlag == g {
      OneSlotPerFlag(q, i);
    }
  }

  // Two queues that agree on the flags and cores of all slots but `p`.
  lemma OthersKeepTheirCore(q: seq<Entry>, q': seq<Entry>, p: nat, g: nat)
    requires QueueInv(q) && QueueInv(q') && |q| == |q'| && p < |q| && g != 0 && q'[p].pktFlag != g
    requires forall i :: 0 <= i < |q| && i != p ==> q'[i].pktFlag == q[i].pktFlag && q'[i].core == q[i].core
    ensures CoreAt(q', g) == if q[p].pktFlag == g then FRESH else CoreAt(q, g)
  {
    var k := WithFlag(q', g, 0);
    if k < |q| {
      CoreIsAt(q', g, k);
      CoreIsAt(q, g, k);
    } else {
      assert forall i :: 0 <= i < |q| && i != p ==> q[i].pktFlag == q'[i].pktFlag != g;
    }
  }

  // What the step on a packet of data does to the queue.
  lemma DataStep(heartbeat: bool, q: seq<Entry>, e: Event)
    requires QueueInv(q) && IsData(e) && e.flag != 0
    ensures var p, (q', out) := Position(q, e.flag, e.now), StepAll(heartbeat, q, e);
            && QueueInv(q') && |q'| == |q|
            && out == Receive(heartbeat, CoreAt(q, e.flag), e.packet)
            && q'[p].pktFlag == e.flag && q'[p].core == out.core
            && (q[p].pktFlag == e.flag || q[p].pktFlag == Evicted(q, e))
            && (forall i :: 0 <= i < |q| && i != p ==> q'[i].pktFlag == q[i].pktFlag && q'[i].core == q[i].core)
  {
    var p, r := Position(q, e.flag, e.now), Searched(q, e.flag, e.now);
    SearchFinds(q, e.flag, e.now);
    var out := Handle(heartbeat, r[p].core, e.packet);
    DataDoesNotClose(heartbeat, r[p].core, e.packet.offset, e.packet.payload);
    SlotIsSound(r[p], out, e.flag);
    SlotKeepsQueue(q, r, p, Slot(r[p], out, e.flag));
  }

  // A packet of one stream goes through that stream's slot and leaves the others alone, except
  // for the one that it evicts; a packet that is not data leaves every slot alone.
  lemma StepIsSeparate(heartbeat: bool, q: seq<Entry>, e: Event, g: nat)
    requires QueueInv(q) && (IsData(e) ==> e.flag != 0) && g != 0
    ensures var (q', out) := StepAll(heartbeat, q, e);
            && QueueInv(q') && |q'| == |q|
            && out == Receive(heartbeat, CoreAt(q, e.flag), e.packet)
            && CoreAt(q', g) == if g == e.flag then out.core else if g == Evicted(q, e) then FRESH else CoreAt(q, g)
  {
    if IsData(e) {
      var p, q' := Position(q, e.flag, e.now), StepAll(heartbeat, q, e).0;
      DataStep(heartbeat, q, e);
      if g == e.flag {
        CoreIsAt(q', g, p);
      } else {
        OthersKeepTheirCore(q, q', p, g);
      }
    }
  }

  // ----- How many streams there are slots for -----

  function Flags(q: seq<Entry>): set<nat> {
    set i | 0 <= i < |q| && q[i].pktFlag != 0 :: q[i].pktFlag
  }

  function FlagsOf(es: seq<Event>): set<nat> {
    set e | e in es && IsData(e) :: e.flag
  }

  ghost predicate NonZero(es: seq<Event>) {
    forall i :: 0 <= i < |es| && IsData(es[i]) ==> es[i].flag != 0
  }

  lemma {:induction false} FlagsCount(q: seq<Entry>)
    requires Distinct(q)
    ensures |Flags(q)| <= |q| && (|Flags(q)| == |q| <==> forall i :: 0 <= i < |q| ==> q[i].pktFlag != 0)
    decreases |q|
  {
    if q == [] {
      assert Flags(q) == {};
    } else {
      var last := |q| - 1;
      FlagsCount(q[..last]);
      if q[last].pktFlag == 0 {
        assert Flags(q) == Flags(q[..last]);
      } else {
        assert Flags(q) == Flags(q[..last]) + {q[last].pktFlag};
        assert q[last].pktFlag !in Flags(q[..last]);
      }
    }
  }

  // A new stream evicts another exactly when every slot is bound.
  lemma EvictsWhenFull(q: seq<Entry>, flag: nat)
    requires QueueInv(q) && flag != 0
    ensures Evicts(q, flag) <==> flag !in Flags(q) && |Flags(q)| == |q|
  {
    FlagsCount(q);
    if WithFlag(q, flag, 0) < |q| {
      assert q[WithFlag(q, flag, 0)].pktFlag in Flags(q);
    } else {
      assert flag !in Flags(q);
    }
    if InState(q, UNUSED, 0) < |q| {
      assert q[InState(q, UNUSED, 0)].pktFlag == 0;
    }
    if InState(q, UNINITIALISED, 0) < |q| {
      assert q[InState(q, UNINITIALISED, 0)].pktFlag == 0;
    }
  }

  // No slot is given back: the flags that are bound only grow, unless a stream is evicted.
  lemma FlagsGrow(heartbeat: bool, q: seq<Entry>, e: Event)
    requires QueueInv(q) && IsData(e) && e.flag != 0 && !Evicts(q, e.flag)
    ensures Flags(StepAll(heartbeat, q, e).0) == Flags(q) + {e.flag}
  {
    var p, q' := Position(q, e.flag, e.now), StepAll(heartbeat, q, e).0;
    DataStep(heartbeat, q, e);
    forall f | f in Flags(q) + {e.flag}
      ensures f in Flags(q')
    {
      if f == e.flag {
        assert q'[p].pktFlag == f;
      } else {
        var i :| 0 <= i < |q| && q[i].pktFlag == f;
        assert q'[i].pktFlag == f;
      }
    }
  }

  // No packet needs an eviction.
  predicate Fits(heartbeat: bool, q: seq<Entry>, es: seq<Event>)
    requires q != []
    decreases |es|
  {
    || es == []
    || (!(IsData(es[0]) && Evicts(q, es[0].flag)) && Fits(heartbeat, StepAll(heartbeat, q, es[0]).0, es[1..]))
  }

  // That is so exactly when the streams, those of the queue and those of the run, are no more
  // than the slots.
  lemma {:induction false} FitsIsExact(heartbeat: bool, q: seq<Entry>, es: seq<Event>)
    requires QueueInv(q) && NonZero(es)
    ensures Fits(heartbeat, q, es) <==> |Flags(q) + FlagsOf(es)| <= |q|
    decreases |es|
  {
    if es == [] {
      assert Flags(q) + FlagsOf(es) == Flags(q);
      FlagsCount(q);
    } else {
      FitsFirst(heartbeat, q, es);
      if !(IsData(es[0]) && Evicts(q, es[0].flag)) {
        StepIsSeparate(heartbeat, q, es[0], 1);
        FitsIsExact(heartbeat, StepAll(heartbeat, q, es[0]).0, es[1..]);
      }
    }
  }

  lemma FitsFirst(heartbeat: bool, q: seq<Entry>, es: seq<Event>)
    requires QueueInv(q) && NonZero(es) && es != []
    ensures if IsData(es[0]) && Evicts(q, es[0].flag) then |Flags(q) + FlagsOf(es)| > |q|
            else Flags(q) + FlagsOf(es) == Flags(StepAll(heartbeat, q, es[0]).0) + FlagsOf(es[1..])
  {
    var e := es[0];
    assert es == [e] + es[1..];
    if !IsData(e) {
      assert FlagsOf(es) == FlagsOf(es[1..]);
    } else {
      assert FlagsOf(es) == {e.flag} + FlagsOf(es[1..]);
      EvictsWhenFull(q, e.flag);
      if Evicts(q, e.flag) {
        SubsetIsSmaller(Flags(q) + {e.flag}, Flags(q) + FlagsOf(es));
      } else {
        FlagsGrow(heartbeat, q, e);
      }
    }
  }

  lemma {:induction false} SubsetIsSmaller(a: set<nat>, b: set<nat>)
    requires a <= b
    ensures |a| <= |b|
  {
    if a == {} {
    } else {
      var x :| x in a;
      SubsetIsSmaller(a - {x}, b - {x});
    }
  }

  // A stream that is evicted starts anew: unless it waits for residue 0, its next packet in order
  // is not sent, as it would have been without the eviction.
  lemma EvictedStreamStops(q: seq<Entry>, e: Event, next: Event)
    requires QueueInv(q) && IsData(e) && e.flag != 0 && Evicts(q, e.flag)
    requires IsData(next) && next.flag == Evicted(q, e) != 0
    requires Res(next.packet.offset) == CoreAt(q, next.flag).waiting != 0
    ensures StepAll(true, StepAll(true, q, e).0, next).1.sent == []
    ensures StepAll(true, q, next).1.sent != []
  {
    StepIsSeparate(true, q, e, next.flag);
    StepIsSeparate(true, StepAll(true, q, e).0, next, next.flag);
    StepIsSeparate(true, q, next, next.flag);
  }

  // ----- Whole runs -----

  // What each stream's socket got, in order.
  type Output = seq<(nat, Payload)>

  function Tagged(flag: nat, sent: seq<Payload>): (o: Output)
    ensures |o| == |sent| && forall i :: 0 <= i < |sent| ==> o[i] == (flag, sent[i])
  {
    seq(|sent|, i requires 0 <= i < |sent| => (flag, sent[i]))
  }

  function Of(o: Output, flag: nat): seq<Payload> {
    if o == [] then [] else (if o[0].0 == flag then [o[0].1] else []) + Of(o[1..], flag)
  }

  function Only(es: seq<Event>, flag: nat): seq<Event> {
    if es == [] then [] else (if es[0].flag == flag then [es[0]] else []) + Only(es[1..], flag)
  }

  function RunAll(heartbeat: bool, q: seq<Entry>, es: seq<Event>): (seq<Entry>, Output)
    requires q != []
    decreases |es|
  {
    if es == [] then (q, [])
    else
      var (q1, out) := StepAll(heartbeat, q, es[0]);
      var (q2, more) := RunAll(heartbeat, q1, es[1..]);
      (q2, Tagged(es[0].flag, out.sent) + more)
  }

  // The receiver of a single stream.
  function RunOne(heartbeat: bool, c: Core, es: seq<Event>): (Core, seq<Payload>)
    decreases |es|
  {
    if es == [] then (c, [])
    else
      var out := Receive(heartbeat, c, es[0].packet);
      var (c', more) := RunOne(heartbeat, out.core, es[1..]);
      (c', out.sent + more)
  }

  lemma {:induction false} OfTagged(flag: nat, sent: seq<Payload>, more: Output, g: nat)
    ensures Of(Tagged(flag, sent) + more, g) == (if flag == g then sent else []) + Of(more, g)
    decreases |sent|
  {
    var o := Tagged(flag, sent) + more;
    if sent == [] {
      assert o == more;
    } else {
      assert o[1..] == Tagged(flag, sent[1..]) + more;
      OfTagged(flag, sent[1..], more, g);
      assert [sent[0]] + sent[1..] == sent;
    }
  }

  lemma RunOneSkips(heartbeat: bool, c: Core, es: seq<Event>, g: nat)
    requires es != []
    ensures es[0].flag != g ==> RunOne(heartbeat, c, Only(es, g)) == RunOne(heartbeat, c, Only(es[1..], g))
    ensures es[0].flag == g ==>
              var out := Receive(heartbeat, c, es[0].packet);
              var r := RunOne(heartbeat, out.core, Only(es[1..], g));
              RunOne(heartbeat, c, Only(es, g)) == (r.0, out.sent + r.1)
  {
    if es[0].flag == g {
      assert Only(es, g)[1..] == Only(es[1..], g);
    } else {
      assert Only(es, g) == Only(es[1..], g);
    }
  }

  // Interleaved streams do not mix: over any run on no more streams than there are slots, each
  // stream ends in the state, and its socket got the payloads, that its own packets alone produce.
  lemma StreamsDoNotMix(heartbeat: bool, q: seq<Entry>, es: seq<Event>, g: nat)
    requires QueueInv(q) && NonZero(es) && g != 0
    requires |Flags(q) + FlagsOf(es)| <= |q|
    ensures var r := RunAll(heartbeat, q, es);
            QueueInv(r.0) && (CoreAt(r.0, g), Of(r.1, g)) == RunOne(heartbeat, CoreAt(q, g), Only(es, g))
  {
    FitsIsExact(heartbeat, q, es);
    FittingRunsAreSeparate(heartbeat, q, es, g);
  }

  lemma {:induction false} FittingRunsAreSeparate(heartbeat: bool, q: seq<Entry>, es: seq<Event>, g: nat)
    requires QueueInv(q) && NonZero(es) && g != 0 && Fits(heartbeat, q, es)
    ensures var r := RunAll(heartbeat, q, es);
            QueueInv(r.0) && (CoreAt(r.0, g), Of(r.1, g)) == RunOne(heartbeat, CoreAt(q, g), Only(es, g))
    decreases |es|
  {
    if es == [] {
    } else {
      var step := StepAll(heartbeat, q, es[0]);
      StepIsSeparate(heartbeat, q, es[0], g);
      FittingRunsAreSeparate(heartbeat, step.0, es[1..], g);
      OfTagged(es[0].flag, step.1.sent, RunAll(heartbeat, step.0, es[1..]).1, g);
      RunOneSkips(heartbeat, CoreAt(q, g), es, g);
      assert forall s: seq<Payload> :: [] + s == s;
    }
  }
}
