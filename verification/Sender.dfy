/**
 The sending side of one tunnel flow (`UdpFlowControl`, udp_socket.cpp:560-760): every packet is
 cached in a ring of WINDOW + 1 blocks until a cumulative acknowledgement removes it, and is
 sent again on request. Packets are found by the residue of their offset.
 */
module Sender {
  import opened Reassembly
  import opened Ring

  datatype Packet = Packet(offset: nat, payload: Payload)

  datatype Option<T> = None | Some(value: T)

  // What the backward scan of a cumulative acknowledgement leaves: everything behind the newest
  // packet of the acknowledged residue, or the whole cache if there is no such packet.
  function AckCached(c: seq<Packet>, offset: nat): seq<Packet> {
    if c == [] then []
    else if Res(c[|c| - 1].offset) == Res(offset) then []
    else AckCached(c[..|c| - 1], offset) + [c[|c| - 1]]
  }

  // What the forward scan of a resend finds: the oldest packet of the requested residue.
  function FindCached(c: seq<Packet>, offset: nat): Option<Packet> {
    if c == [] then None
    else if Res(c[0].offset) == Res(offset) then Some(c[0])
    else FindCached(c[1..], offset)
  }

  ghost predicate Consecutive(c: seq<Packet>, b: nat) {
    forall i :: 0 <= i < |c| ==> c[i].offset == b + i
  }

  lemma {:induction false} AckOfLast(c: seq<Packet>, offset: nat, k: nat)
    requires k < |c| && Res(c[k].offset) == Res(offset)
    requires forall i :: k < i < |c| ==> Res(c[i].offset) != Res(offset)
    ensures AckCached(c, offset) == c[k + 1..]
  {
    if k == |c| - 1 {
    } else {
      AckOfLast(c[..|c| - 1], offset, k);
      assert c[..|c| - 1][k + 1..] + [c[|c| - 1]] == c[k + 1..];
    }
  }

  lemma {:induction false} AckOfNone(c: seq<Packet>, offset: nat)
    requires forall i :: 0 <= i < |c| ==> Res(c[i].offset) != Res(offset)
    ensures AckCached(c, offset) == c
  {
    if c == [] {
    } else {
      AckOfNone(c[..|c| - 1], offset);
      assert c[..|c| - 1] + [c[|c| - 1]] == c;
    }
  }

  // At most WINDOW consecutive packets hold at most one packet of a residue, and where it is.
  lemma OneOfEachResidue(c: seq<Packet>, b: nat, offset: nat)
    requires Consecutive(c, b) && |c| <= WINDOW
    ensures forall i :: 0 <= i < |c| ==> (Res(c[i].offset) == Res(offset) <==> b + i == InWindow(b, Res(offset)))
  {
    var a := InWindow(b, Res(offset));
    forall i | 0 <= i < |c| && Res(c[i].offset) == Res(offset)
      ensures b + i == a
    {
      SameResidue(b + i, a);
    }
  }

  // The packets that an acknowledgement of `offset` ought to leave in the cache.
  function Unacknowledged(c: seq<Packet>, b: nat, offset: nat): seq<Packet>
    requires offset < b + |c|
  {
    if offset < b then c else c[offset + 1 - b..]
  }

  // An acknowledgement of a packet that was sent removes all packets up to it and no others,
  // unless it is stale and a cached packet has the same residue.
  lemma CumulativeAckIsExact(c: seq<Packet>, b: nat, offset: nat)
    requires Consecutive(c, b) && |c| <= WINDOW && offset < b + |c|
    ensures AckCached(c, offset) == Unacknowledged(c, b, offset)
            <==> b <= offset || InWindow(b, Res(offset)) >= b + |c|
  {
    AckReaches(c, b, offset);
    if b <= offset {
      SameResidue(offset, InWindow(b, Res(offset)));
    }
  }

  // What an acknowledgement leaves: everything behind the one cached packet of its residue.
  lemma AckReaches(c: seq<Packet>, b: nat, offset: nat)
    requires Consecutive(c, b) && |c| <= WINDOW
    ensures var a := InWindow(b, Res(offset)); AckCached(c, offset) == if a < b + |c| then c[a - b + 1..] else c
  {
    var a := InWindow(b, Res(offset));
    OneOfEachResidue(c, b, offset);
    if a < b + |c| {
      AckOfLast(c, offset, a - b);
    } else {
      AckOfNone(c, offset);
    }
  }

  // A stale acknowledgement of packet 0 throws away the packets 1 to 100.
  lemma StaleAckExample(c: seq<Packet>)
    requires Consecutive(c, 1) && |c| == WINDOW
    ensures AckCached(c, 0) == [] && Unacknowledged(c, 1, 0) == c
  {
    AckReaches(c, 1, 0);
    assert InWindow(1, 0) == WINDOW;
  }

  lemma {:induction false} FindFirst(c: seq<Packet>, offset: nat, k: nat)
    requires k < |c| && Res(c[k].offset) == Res(offset)
    requires forall i :: 0 <= i < k ==> Res(c[i].offset) != Res(offset)
    ensures FindCached(c, offset) == Some(c[k])
  {
    if k == 0 {
    } else {
      FindFirst(c[1..], offset, k - 1);
    }
  }

  lemma {:induction false} FindNone(c: seq<Packet>, offset: nat)
    requires forall i :: 0 <= i < |c| ==> Res(c[i].offset) != Res(offset)
    ensures FindCached(c, offset) == None
  {
    if c == [] {
    } else {
      FindNone(c[1..], offset);
    }
  }

  // A request by residue finds the one cached packet of that residue, if it is cached at all.
  lemma FindIsExact(c: seq<Packet>, b: nat, offset: nat)
    requires Consecutive(c, b) && |c| <= WINDOW
    ensures var a := InWindow(b, Res(offset));
            FindCached(c, offset) == if a < b + |c| then Some(c[a - b]) else None
  {
    var a := InWindow(b, Res(offset));
    OneOfEachResidue(c, b, offset);
    if a < b + |c| {
      FindFirst(c, offset, a - b);
    } else {
      FindNone(c, offset);
    }
  }

  const ERR_UDP_SOCKET_ACK_STACK_FULL_WITH_HEART := 112
  const ERR_UDP_SOCKET_ACK_STACK_FULL_WITHOUT_HEART := 113

  class FlowControl {
    const pktBufStack: Stack<nat>
    const heap: array<Packet>
    const heartbeat: bool
    var pktOffset: nat
    var pktAcked: nat
    var idleTimes: nat
    var existHeart: nat

    ghost predicate Valid()
      reads this, pktBufStack, pktBufStack.data, heap
    {
      && pktBufStack.Valid()
      && heap.Length == pktBufStack.stackSize == WINDOW + 1
      && Blocks(pktBufStack.View(), heap.Length)
    }

    ghost function Cached(): seq<Packet>
      requires Valid()
      reads this, pktBufStack, pktBufStack.data, heap
    {
      ItemsAreHandles(pktBufStack.View(), heap.Length);
      Contents(heap[..], pktBufStack.View().items)
    }

    constructor (heartbeat: bool)
      ensures Valid() && Cached() == [] && this.heartbeat == heartbeat
      ensures fresh(pktBufStack) && fresh(pktBufStack.data) && fresh(heap)
    {
      this.heartbeat := heartbeat;
      pktAcked, pktOffset := 0xFFFF_FFFF, 0xFFFF_FFFF;
      idleTimes, existHeart := 0, 0;
      pktBufStack := new Stack<nat>(seq(WINDOW + 1, i => i));
      heap := new Packet[WINDOW + 1](_ => Packet(0, []));
    }

    // Cache a packet that is about to be sent; refused while WINDOW packets are unacknowledged.
    method Push(pkt: Packet) returns (ret: int)
      requires Valid()
      modifies this`pktOffset, this`idleTimes, pktBufStack`top, heap
      ensures Valid()
      ensures !heartbeat ==> ret == 0 && Cached() == old(Cached())
      ensures heartbeat && |old(Cached())| < WINDOW ==> ret == 0 && Cached() == old(Cached()) + [pkt]
      ensures heartbeat && |old(Cached())| >= WINDOW ==> ret < 0 && Cached() == old(Cached())
      ensures heartbeat && ret == 0 ==> pktOffset == pkt.offset && idleTimes == 0
      ensures heartbeat && ret < 0 ==> pktOffset == old(pktOffset) && idleTimes == old(idleTimes) + 1
      ensures !heartbeat ==> pktOffset == old(pktOffset) && idleTimes == old(idleTimes)
      ensures ret < 0 ==> ret == if idleTimes > 11000 then -ERR_UDP_SOCKET_ACK_STACK_FULL_WITHOUT_HEART
                                 else -ERR_UDP_SOCKET_ACK_STACK_FULL_WITH_HEART
    {
      if !heartbeat {
        return 0;
      }
      var pushed, block := pktBufStack.PushStack();
      if pushed >= 0 {
        FillBlock(heap[..], old(pktBufStack.View()), pkt);
        heap[block] := pkt;
        pktOffset := pkt.offset;
        idleTimes := 0;
        return 0;
      }
      idleTimes := idleTimes + 1;
      ret := if idleTimes > 11000 then -ERR_UDP_SOCKET_ACK_STACK_FULL_WITHOUT_HEART
             else -ERR_UDP_SOCKET_ACK_STACK_FULL_WITH_HEART;
    }

    // Process a cumulative acknowledgement.
    method Ack(offset: nat) returns (ret: int)
      requires Valid()
      modifies this`pktAcked, this`existHeart, pktBufStack`buttom
      ensures Valid()
      ensures Cached() == if heartbeat then AckCached(old(Cached()), offset) else old(Cached())
      ensures heartbeat ==> pktAcked == offset && existHeart == old(existHeart) + 1
      ensures !heartbeat ==> pktAcked == old(pktAcked) && existHeart == old(existHeart)
      ensures ret == if heartbeat && Cached() == old(Cached()) then -2 else 0
    {
      if !heartbeat {
        return 0;
      }
      ghost var before := pktBufStack.View();
      var packets := heap[..];
      ghost var at;
      ret, at := pktBufStack.PopStackEx(FindOnePktByOffset(packets, offset));
      pktAcked := offset;
      existHeart := existHeart + 1;
      if ret == 0 {
        AckDropsBlocks(packets, before, offset, at);
      } else {
        AckDropsNone(packets, before, offset);
      }
    }

    // The cached packet to send again for a requested residue.
    method Resend(offset: nat) returns (ret: int, found: Option<Packet>)
      requires Valid()
      ensures found == if heartbeat then FindCached(Cached(), offset) else None
      ensures ret == if heartbeat && found.None? then -1 else 0
    {
      if !heartbeat {
        return 0, None;
      }
      var packets := heap[..];
      ghost var items := pktBufStack.View().items;
      ItemsAreHandles(pktBufStack.View(), |packets|);
      var block;
      ghost var at;
      ret, block, at := pktBufStack.GetStackData(FindOnePktByOffset(packets, offset));
      if ret >= 0 {
        found := Some(heap[block]);
        ResendFindsBlock(packets, items, offset, at);
      } else {
        found := None;
        ResendFindsNone(packets, items, offset);
      }
    }

    method IsAllAcked() returns (b: bool)
      requires Valid()
      ensures b == (heartbeat && Cached() == [])
    {
      if !heartbeat {
        return false;
      }
      b := pktBufStack.IsStackEmpty();
    }
  }

  // The comparison that both scans use.
  function FindOnePktByOffset(packets: seq<Packet>, offset: nat): nat -> bool {
    (h: nat) => h < |packets| && Res(packets[h].offset) == Res(offset)
  }

  lemma AckDropsBlocks(packets: seq<Packet>, f: Fifo<nat>, offset: nat, at: nat)
    requires Blocks(f, |packets|) && IsLast(f.items, FindOnePktByOffset(packets, offset), at)
    ensures Blocks(f.Drop(at + 1), |packets|)
    ensures Handles(f.items, |packets|) && Handles(f.Drop(at + 1).items, |packets|)
    ensures AckCached(Contents(packets, f.items), offset) == Contents(packets, f.Drop(at + 1).items)
  {
    ItemsAreHandles(f, |packets|);
    DropBlocks(f, |packets|, at + 1);
    AckOfLast(Contents(packets, f.items), offset, at);
  }

  lemma AckDropsNone(packets: seq<Packet>, f: Fifo<nat>, offset: nat)
    requires Blocks(f, |packets|)
    requires forall h :: h in f.items ==> !FindOnePktByOffset(packets, offset)(h)
    ensures Handles(f.items, |packets|)
    ensures AckCached(Contents(packets, f.items), offset) == Contents(packets, f.items)
  {
    ItemsAreHandles(f, |packets|);
    forall i | 0 <= i < |f.items|
      ensures Res(packets[f.items[i]].offset) != Res(offset)
    {
      assert f.items[i] in f.items;
    }
    AckOfNone(Contents(packets, f.items), offset);
  }

  lemma ResendFindsBlock(packets: seq<Packet>, items: seq<nat>, offset: nat, at: nat)
    requires Handles(items, |packets|) && IsFirst(items, FindOnePktByOffset(packets, offset), at)
    ensures FindCached(Contents(packets, items), offset) == Some(packets[items[at]])
  {
    FindFirst(Contents(packets, items), offset, at);
  }

  lemma ResendFindsNone(packets: seq<Packet>, items: seq<nat>, offset: nat)
    requires Handles(items, |packets|)
    requires forall h :: h in items ==> !FindOnePktByOffset(packets, offset)(h)
    ensures FindCached(Contents(packets, items), offset) == None
  {
    forall i | 0 <= i < |items|
      ensures Res(packets[items[i]].offset) != Res(offset)
    {
      assert items[i] in items;
    }
    FindNone(Contents(packets, items), offset);
  }
}
