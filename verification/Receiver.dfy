/**
 One reassembly slot of the receiver (`PackQueueInfo`, and the branch of `thread_pktsend` that
 works on it, udp_socket.cpp:1262-1443): a bit per residue, a length per held packet, and a
 buffer of fixed-size blocks that packets are copied into and sent from.

 Every method is proved against the functions of module Reassembly.
 */
module Receiver {
  import opened Bitmap
  import opened Reassembly

  const PER_PACKET_MAX_SIZE: nat := 32 * 1024
  const PKT_DATA_LEN: nat := PER_PACKET_MAX_SIZE - 28

  // The effect of `memcpy` on a block.
  function Overwrite(block: seq<bv8>, p: Payload): (b: seq<bv8>)
    requires |p| <= |block|
    ensures |b| == |block| && b[..|p|] == p
  {
    p + block[|p|..]
  }

  predicate IsResidue(r: int) { 0 <= r < WINDOW }

  // A slot's bits, lengths and blocks represent the packets `held`, by residue.
  ghost predicate Represents(bits: seq<bool>, lens: map<nat, nat>, blocks: seq<seq<bv8>>, held: map<nat, Payload>) {
    && |bits| == |blocks| == WINDOW
    && forall r {:trigger IsResidue(r)} :: IsResidue(r) ==> RepresentsAt(bits, lens, blocks, held, r)
  }

  ghost predicate RepresentsAt(bits: seq<bool>, lens: map<nat, nat>, blocks: seq<seq<bv8>>,
                               held: map<nat, Payload>, r: nat)
    requires r < |bits| && r < |blocks|
  {
    && |blocks[r]| == PER_PACKET_MAX_SIZE
    && (bits[r] <==> r in held)
    && (r in lens <==> r in held)
    && (r in held ==> lens[r] <= PER_PACKET_MAX_SIZE && held[r] == blocks[r][..lens[r]])
  }

  lemma ForgottenIsRepresented(bits: seq<bool>, lens: map<nat, nat>, blocks: seq<seq<bv8>>,
                               held: map<nat, Payload>, r: nat)
    requires r < WINDOW && Represents(bits, lens, blocks, held)
    ensures Represents(bits[r := false], lens - {r}, blocks, held - {r})
  {
    forall q | IsResidue(q)
      ensures RepresentsAt(bits[r := false], lens - {r}, blocks, held - {r}, q)
    {
      assert RepresentsAt(bits, lens, blocks, held, q);
    }
  }

  lemma KeptIsRepresented(bits: seq<bool>, lens: map<nat, nat>, blocks: seq<seq<bv8>>, held: map<nat, Payload>,
                          r: nat, p: Payload)
    requires r < WINDOW && |p| <= PKT_DATA_LEN && Represents(bits, lens, blocks, held)
    requires |blocks[r]| == PER_PACKET_MAX_SIZE
    ensures Represents(bits[r := true], lens[r := |p|], blocks[r := Overwrite(blocks[r], p)], held[r := p])
  {
    forall q | IsResidue(q)
      ensures RepresentsAt(bits[r := true], lens[r := |p|], blocks[r := Overwrite(blocks[r], p)], held[r := p], q)
    {
      assert RepresentsAt(bits, lens, blocks, held, q);
    }
  }

  function PutBack(out: Outcome, offset: nat, putBack: bool): Outcome {
    if putBack then StepBack(out, offset) else out
  }

  function Accepted(heartbeat: bool, c: Core, offset: nat, p: Payload, putBack: bool): Outcome {
    PutBack(Accept(heartbeat, c, offset, p), offset, putBack)
  }

  // The next residue as the source computes it.
  method Advance(r: nat) returns (n: nat)
    requires r < WINDOW
    ensures n == Next(r)
  {
    NextIsModulo(r);
    n := (r + 1) % WINDOW;
  }

  class PackQueue {
    var pktFlag: nat
    var usedFlag: nat
    var waiting: nat
    var waitCloseStatus: nat
    var endOffset: nat
    const bit: Bits
    var lenMap: map<nat, nat>
    const buf: array<seq<bv8>>

    ghost var held: map<nat, Payload>

    ghost predicate Valid()
      reads this, bit.bits, buf
    {
      && bit.Valid() && bit.length == WINDOW
      && waiting < WINDOW
      && Represents(bit.View(), lenMap, buf[..], held)
    }

    ghost function Value(): Core
      reads this
    {
      Core(waiting, held, waitCloseStatus == 1, if waitCloseStatus == 1 then endOffset else 0)
    }

    constructor ()
      ensures Valid() && Value() == FRESH && usedFlag == 1 && pktFlag == 0
      ensures fresh(bit.bits) && fresh(buf)
    {
      pktFlag, usedFlag, waiting, waitCloseStatus, endOffset := 0, 1, 0, 0, 0;
      bit := new Bits(WINDOW);
      lenMap := map[];
      buf := new seq<bv8>[WINDOW](_ => seq(PER_PACKET_MAX_SIZE, _ => 0));
      held := map[];
    }

    // Keep a packet that is not the next one.
    method Keep(r: nat, p: Payload)
      requires Valid() && r < WINDOW && |p| <= PKT_DATA_LEN
      modifies this`lenMap, this`held, bit.bits, buf
      ensures Valid() && held == old(held)[r := p]
    {
      assert IsResidue(r);
      KeptIsRepresented(bit.View(), lenMap, buf[..], held, r, p);
      bit.Set(r, true);
      buf[r] := Overwrite(buf[r], p);
      lenMap := lenMap[r := |p|];
      held := held[r := p];
    }

    method Forget(r: nat)
      requires Valid() && r < WINDOW
      modifies this`lenMap, this`held, bit.bits
      ensures Valid() && held == old(held) - {r}
    {
      ForgottenIsRepresented(bit.View(), lenMap, buf[..], held, r);
      bit.Set(r, false);
      lenMap := lenMap - {r};
      held := held - {r};
    }

    // Give the slot back, as after a release of the local socket.
    method Reset()
      requires Valid()
      modifies this, bit.bits
      ensures Valid() && Value() == FRESH && usedFlag == 1 && pktFlag == 0
    {
      pktFlag := 0;
      usedFlag := 1;
      waiting := 0;
      waitCloseStatus := 0;
      bit.Clear();
      lenMap := map[];
      held := map[];
    }

    method WaitFor(r: nat)
      requires Valid() && r < WINDOW
      modifies this`waiting
      ensures Valid() && waiting == r
    {
      waiting := r;
    }

    method IsHeld(r: nat) returns (b: bool)
      requires Valid() && r < WINDOW
      ensures b == (r in held)
    {
      assert IsResidue(r);
      b := bit.Get(r);
    }

    // Send the packet of residue `r` if it is held, and wait for the next one.
    method SendHeld(r: nat) returns (ok: bool, p: Payload)
      requires Valid() && r < WINDOW
      modifies this`lenMap, this`held, this`waiting, bit.bits
      ensures Valid() && ok == (r in old(held))
      ensures ok ==> p == old(held)[r] && waiting == Next(r)
      ensures !ok ==> waiting == old(waiting) && old(held) - {r} == old(held)
      ensures held == old(held) - {r}
    {
      assert IsResidue(r);
      ok := bit.Get(r);
      p := [];
      if ok {
        p := buf[r][..lenMap[r]];
        waiting := Advance(r);
        Forget(r);
      }
    }

    // One turn of a flush: `whole` is the run to send, of which `sent` has been sent already.
    method SendNext(r: nat, ghost whole: Flushed, ghost sent: seq<Payload>) returns (ok: bool, p: Payload)
      requires Valid() && r < WINDOW && Resumes(whole, sent, r, held)
      modifies this`lenMap, this`held, this`waiting, bit.bits
      ensures Valid() && held == old(held) - {r}
      ensures ok ==> r in old(held) && |held| < |old(held)|
      ensures ok ==> waiting == Next(r) && Resumes(whole, sent + [p], waiting, held)
      ensures !ok ==> waiting == old(waiting) && whole == Flushed(r, held, sent)
    {
      ResumesNext(whole, sent, r, held);
      ok, p := SendHeld(r);
    }

    // Heartbeat on: send the run `whole` of held packets behind residue `r`, which is not held.
    method SendRun(r: nat, ghost whole: Flushed) returns (sent: seq<Payload>)
      requires Valid() && r < WINDOW && r !in held && waiting == Next(r)
      requires Resumes(whole, [], waiting, held)
      modifies this`lenMap, this`held, this`waiting, bit.bits
      ensures Valid() && whole == Flushed(waiting, held, sent)
    {
      sent := [];
      var offset2: nat := r;
      while true
        invariant Valid() && r !in held && offset2 < WINDOW && waiting == Next(offset2)
        invariant Resumes(whole, sent, waiting, held)
        decreases |held|
      {
        offset2 := Advance(offset2);
        var ok, p := SendNext(offset2, whole, sent);
        if !ok {
          break;
        }
        sent := sent + [p];
        if offset2 == r {
          break;
        }
      }
    }

    // Heartbeat off, and the last packet of the window is here: skip what is missing behind
    // residue `r` and send the first run of held packets, which `whole` describes.
    method SkipAndSend(r: nat, ghost whole: Flushed) returns (sent: seq<Payload>, offset2: nat)
      requires Valid() && r < WINDOW && r in held && waiting == Next(r)
      requires Resumes(whole, [], Skip(waiting, held, WINDOW), held)
      modifies this`lenMap, this`held, this`waiting, bit.bits
      ensures Valid() && whole == Flushed(waiting, held, sent)
      ensures offset2 == if waiting == Next(r) then r else waiting
    {
      sent := [];
      offset2 := r;
      var issend := false;
      while true
        invariant Valid() && offset2 < WINDOW && Scan(whole, sent, issend, waiting, offset2, r, held)
        invariant issend ==> offset2 != r
        decreases |held|, Distance(offset2, r)
      {
        ghost var s, h, w, at := sent, held, waiting, offset2;
        offset2 := Advance(offset2);
        var b := IsHeld(offset2);
        if !b {
          ScanHole(whole, s, issend, w, at, r, h);
          WaitFor(offset2);
          if issend {
            break;
          }
        } else {
          ScanSends(whole, s, issend, w, at, r, h);
          var ok, p := SendHeld(offset2);
          assert sent + [p] == s + [h[offset2]];
          sent := sent + [p];
          issend := true;
        }
        if offset2 == r {
          ScanEnds(whole, sent, waiting, r, held);
          break;
        }
      }
    }

    // The same, and the step back if the last send fails.
    method ForcedFlush(r: nat, sendFails: bool, ghost whole: Flushed) returns (sent: seq<Payload>)
      requires Valid() && r < WINDOW && r in held && waiting == Next(r)
      requires Resumes(whole, [], Skip(waiting, held, WINDOW), held)
      modifies this`lenMap, this`held, this`waiting, bit.bits
      ensures Valid() && sent == whole.sent && held == whole.held
      ensures waiting == if sendFails then BackFrom(whole.waiting, r) else whole.waiting
    {
      var offset2;
      sent, offset2 := SkipAndSend(r, whole);
      if sendFails {
        WaitFor((offset2 + WINDOW - 1) % WINDOW);
      }
    }

    // The packet waited for.
    method AcceptNext(heartbeat: bool, offset: nat, p: Payload) returns (sent: seq<Payload>, replies: seq<Msg>)
      requires Valid() && offset < U32 && waiting == Res(offset)
      modifies this`lenMap, this`held, this`waiting, bit.bits
      ensures Valid()
      ensures Outcome(Value(), sent, replies, false) == Accept(heartbeat, old(Value()), offset, p)
    {
      var r := Res(offset);
      var ackNum := offset;
      sent, replies := [p], [];
      var next := Advance(r);
      WaitFor(next);
      Forget(r);
      if heartbeat {
        var more := SendRun(r, Flush(Next(r), held));
        sent := sent + more;
        ackNum := (ackNum + |more|) % U32;
        replies := [Ack(ackNum)];
      }
    }

    // A packet in the last place of the window.
    method AcceptLast(heartbeat: bool, offset: nat, p: Payload, sendFails: bool)
      returns (sent: seq<Payload>, replies: seq<Msg>, putBack: bool)
      requires Valid() && |p| <= PKT_DATA_LEN && offset < U32 && waiting == Next(Res(offset))
      modifies this`lenMap, this`held, this`waiting, bit.bits, buf
      ensures Valid()
      ensures putBack == (!heartbeat && sendFails)
      ensures Outcome(Value(), sent, replies, false) == Accepted(heartbeat, old(Value()), offset, p, putBack)
    {
      var r := Res(offset);
      LastIsAccepted(heartbeat, Value(), offset, p, !heartbeat && sendFails);
      sent, replies, putBack := [], [], false;
      Keep(r, p);
      var ackNum := (offset + 1) % U32;
      replies := [Request([(ackNum + U32 - WINDOW) % U32])];
      if !heartbeat {
        sent := ForcedFlush(r, sendFails, Flush(Skip(waiting, held, WINDOW), held));
        putBack := sendFails;
      }
    }

    // A data packet, apart from the closing of a stream that already ended. `sendFails` says
    // whether the last send of a flush without heartbeat fails; `putBack` that the packet is
    // handed back to its ring.
    method AcceptPacket(heartbeat: bool, offset: nat, p: Payload, sendFails: bool)
      returns (sent: seq<Payload>, replies: seq<Msg>, putBack: bool)
      requires Valid() && |p| <= PKT_DATA_LEN && offset < U32
      modifies this`lenMap, this`held, this`waiting, bit.bits, buf
      ensures Valid()
      ensures putBack == (!heartbeat && sendFails && Next(Res(offset)) == old(waiting))
      ensures Outcome(Value(), sent, replies, false) == Accepted(heartbeat, old(Value()), offset, p, putBack)
    {
      var r := Res(offset);
      var next := Advance(r);
      sent, replies, putBack := [], [], false;
      if waiting == r {
        sent, replies := AcceptNext(heartbeat, offset, p);
      } else if waiting == next {
        sent, replies, putBack := AcceptLast(heartbeat, offset, p, sendFails);
      } else {
        Keep(r, p);
      }
    }

    // A data packet (udp_socket.cpp:1313-1442).
    method ReceiveData(heartbeat: bool, offset: nat, p: Payload, sendFails: bool)
      returns (sent: seq<Payload>, replies: seq<Msg>, released: bool, putBack: bool)
      requires Valid() && |p| <= PKT_DATA_LEN && offset < U32
      modifies this, bit.bits, buf
      ensures Valid()
      ensures putBack == (!heartbeat && sendFails && Next(Res(offset)) == old(waiting))
      ensures Outcome(Value(), sent, replies, released)
           == PutBack(Data(heartbeat, old(Value()), offset, p), offset, putBack)
      ensures (usedFlag, pktFlag) == if released then (1, 0) else old((usedFlag, pktFlag))
    {
      sent, replies, putBack := AcceptPacket(heartbeat, offset, p, sendFails);
      released := false;
      if heartbeat && waitCloseStatus == 1 {
        if waiting == Res(endOffset) {
          Reset();
          released := true;
        } else {
          replies := replies + [Request([waiting])];
        }
      }
    }

    // The packet that ends the stream (udp_socket.cpp:1282-1311).
    method ReceiveEnd(heartbeat: bool, offset: nat)
      returns (sent: seq<Payload>, replies: seq<Msg>, released: bool)
      requires Valid()
      modifies this, bit.bits
      ensures Valid()
      ensures Outcome(Value(), sent, replies, released) == End(heartbeat, old(Value()), offset)
      ensures (usedFlag, pktFlag) == if released then (1, 0) else old((usedFlag, pktFlag))
    {
      sent, replies, released := [], [], false;
      if heartbeat && Res(offset) != waiting {
        waitCloseStatus := 1;
        endOffset := offset;
        replies := [Request([waiting])];
      } else {
        Reset();
        released := true;
      }
    }

    // The two branches behind the lookup of the slot (udp_socket.cpp:1282-1442).
    method HandlePacket(heartbeat: bool, d: Datagram, sendFails: bool)
      returns (sent: seq<Payload>, replies: seq<Msg>, released: bool, putBack: bool)
      requires Valid() && |d.payload| <= PKT_DATA_LEN && d.offset < U32
      modifies this, bit.bits, buf
      ensures Valid()
      ensures putBack == (d.magicWord != MAGIC_WORD_BANK && !heartbeat && sendFails
                          && Next(Res(d.offset)) == old(waiting))
      ensures Outcome(Value(), sent, replies, released)
           == PutBack(Handle(heartbeat, old(Value()), d), d.offset, putBack)
      ensures (usedFlag, pktFlag) == if released then (1, 0) else old((usedFlag, pktFlag))
    {
      putBack := false;
      if d.magicWord == MAGIC_WORD_BANK {
        sent, replies, released := ReceiveEnd(heartbeat, d.offset);
      } else {
        sent, replies, released, putBack := ReceiveData(heartbeat, d.offset, d.payload, sendFails);
      }
    }

    // What arrives at the far end: only data gets that far (udp_socket.cpp:1208-1213).
    method ReceivePacket(heartbeat: bool, d: Datagram, sendFails: bool)
      returns (sent: seq<Payload>, replies: seq<Msg>, released: bool, putBack: bool)
      requires Valid() && |d.payload| <= PKT_DATA_LEN && d.offset < U32
      modifies this, bit.bits, buf
      ensures Valid()
      ensures putBack == (d.magicWord == MAGIC_WORD_MAIN && !heartbeat && sendFails
                          && Next(Res(d.offset)) == old(waiting))
      ensures Outcome(Value(), sent, replies, released)
           == PutBack(Receive(heartbeat, old(Value()), d), d.offset, putBack)
      ensures old(Value()).closing || (!Value().closing && !released && (usedFlag, pktFlag) == old((usedFlag, pktFlag)))
    {
      if d.magicWord != MAGIC_WORD_MAIN {
        return [], [], false, false;
      }
      sent, replies, released, putBack := HandlePacket(heartbeat, d, sendFails);
      if !old(Value()).closing {
        DataDoesNotClose(heartbeat, old(Value()), d.offset, d.payload);
      }
    }

    // The residues to ask for again: the one waited for, then every other missing one, in ring
    // order. Nothing is asked for while the slot holds no packet (udp_socket.cpp:1656-1690).
    method RequestMissing() returns (numbers: seq<nat>, sending: bool)
      requires Valid()
      ensures numbers != [] && numbers[0] == waiting
      ensures forall i, j :: 0 <= i < j < |numbers| ==> numbers[i] != numbers[j]
      ensures forall r: nat {:trigger r in numbers} :: r in numbers <==> r < WINDOW && (r == waiting || r !in held)
      ensures sending <==> exists r :: 0 <= r < WINDOW && r != waiting && r in held
      ensures Lists(if sending then numbers else [], Value())
      ensures sending ==> MESSAGE_HEAD + 4 * |numbers| <= ACK_BUFFER
    {
      var start := waiting;
      var index: nat := Advance(start);
      var isAnyNoneSend: nat := 0;
      numbers := [start];
      while index != start
        invariant Valid() && waiting == start && index < WINDOW
        invariant Counted(numbers, isAnyNoneSend, start, held, Turns(start, index))
        decreases WINDOW - Turns(start, index)
      {
        TurnNext(start, index);
        CountNext(numbers, isAnyNoneSend, start, held, index);
        var b := IsHeld(index);
        if !b {
          numbers := numbers + [index];
        } else {
          isAnyNoneSend := isAnyNoneSend + 1;
        }
        index := Advance(index);
      }
      sending := isAnyNoneSend != 0;
      ListsAll(numbers, start, held);
      ListsRequested(numbers, Value(), sending);
    }
  }

  const MESSAGE_HEAD: nat := 20
  const ACK_BUFFER: nat := 512

  // The place of residue `r` in ring order from `start`.
  function Place(start: nat, r: nat): nat
    requires start < WINDOW && r < WINDOW
  {
    if start <= r then r - start else r + WINDOW - start
  }

  // How many places were visited when the scan stands at `index`: all of them once it is back.
  function Turns(start: nat, index: nat): nat
    requires start < WINDOW && index < WINDOW
  {
    if index == start then WINDOW else Place(start, index)
  }

  lemma TurnNext(start: nat, index: nat)
    requires start < WINDOW && index < WINDOW && index != start
    ensures Turns(start, Next(index)) == Turns(start, index) + 1
    ensures Place(start, index) == Turns(start, index)
    ensures forall r :: 0 <= r < WINDOW && Place(start, r) == Turns(start, index) ==> r == index
  {
  }

  // `numbers` lists, in ring order, `start` and every missing residue among the first `k` places.
  ghost predicate ListsUpTo(numbers: seq<nat>, start: nat, held: map<nat, Payload>, k: nat)
    requires start < WINDOW
  {
    && numbers != [] && numbers[0] == start
    && (forall i :: 0 <= i < |numbers| ==> numbers[i] < WINDOW && Place(start, numbers[i]) < k)
    && (forall i, j :: 0 <= i < j < |numbers| ==> Place(start, numbers[i]) < Place(start, numbers[j]))
    && (forall r {:trigger r in numbers} ::
          0 <= r < WINDOW && Place(start, r) < k ==> (r in numbers <==> r == start || r !in held))
  }

  lemma ListsNext(numbers: seq<nat>, start: nat, held: map<nat, Payload>, index: nat)
    requires start < WINDOW && index < WINDOW && index != start
    requires ListsUpTo(numbers, start, held, Turns(start, index))
    ensures var k := Turns(start, index);
            if index in held then ListsUpTo(numbers, start, held, k + 1)
            else ListsUpTo(numbers + [index], start, held, k + 1)
  {
    TurnNext(start, index);
    var k := Turns(start, index);
    assert index !in numbers;
    if index !in held {
      forall r | 0 <= r < WINDOW && Place(start, r) < k + 1
        ensures r in numbers + [index] <==> r == start || r !in held
      {
        assert r in numbers + [index] <==> r in numbers || r == index;
      }
    }
  }

  // The scan after `k` places: what it has listed, and how many packets it has counted.
  ghost predicate Counted(numbers: seq<nat>, packets: nat, start: nat, held: map<nat, Payload>, k: nat)
    requires start < WINDOW
  {
    && ListsUpTo(numbers, start, held, k) && |numbers| + packets == k
    && (packets > 0 <==> exists r :: 0 <= r < WINDOW && r != start && Place(start, r) < k && r in held)
  }

  lemma CountNext(numbers: seq<nat>, packets: nat, start: nat, held: map<nat, Payload>, index: nat)
    requires start < WINDOW && index < WINDOW && index != start
    requires Counted(numbers, packets, start, held, Turns(start, index))
    ensures var k := Turns(start, index);
            if index in held then Counted(numbers, packets + 1, start, held, k + 1)
            else Counted(numbers + [index], packets, start, held, k + 1)
  {
    TurnNext(start, index);
    ListsNext(numbers, start, held, index);
  }

  lemma ListsAll(numbers: seq<nat>, start: nat, held: map<nat, Payload>)
    requires start < WINDOW && ListsUpTo(numbers, start, held, WINDOW)
    ensures forall i, j :: 0 <= i < j < |numbers| ==> numbers[i] != numbers[j]
    ensures forall r: nat {:trigger r in numbers} :: r in numbers <==> r < WINDOW && (r == start || r !in held)
  {
    forall r: nat {:trigger r in numbers} | r in numbers
      ensures r < WINDOW
    {
      var i :| 0 <= i < |numbers| && numbers[i] == r;
    }
  }

  // What is sent is exactly what is requested.
  ghost predicate Lists(numbers: seq<nat>, c: Core) {
    forall r: nat :: r in numbers <==> Requests(c, r)
  }

  lemma ListsRequested(numbers: seq<nat>, c: Core, sending: bool)
    requires forall r: nat {:trigger r in numbers} :: r in numbers <==> r < WINDOW && (r == c.waiting || r !in c.held)
    requires sending <==> exists r :: 0 <= r < WINDOW && r != c.waiting && r in c.held
    ensures Lists(if sending then numbers else [], c)
  {
    forall r: nat
      ensures sending && r in numbers <==> Requests(c, r)
    {
      assert r in numbers <==> r < WINDOW && (r == c.waiting || r !in c.held);
      assert Requests(c, r) ==> sending;
      if sending && r in numbers {
        var q :| 0 <= q < WINDOW && q != c.waiting && q in c.held;
        assert Requests(c, r);
      }
    }
  }

  // What a packet in the last place of the window does.
  lemma LastIsAccepted(heartbeat: bool, c: Core, offset: nat, p: Payload, putBack: bool)
    requires offset < U32 && c.waiting == Next(Res(offset)) && (putBack ==> !heartbeat)
    ensures var r := Res(offset);
            var held := c.held[r := p];
            var f := Flush(Skip(c.waiting, held, WINDOW), held);
            var w := if putBack then BackFrom(f.waiting, r) else f.waiting;
            var request := [Request([((offset + 1) % U32 + U32 - WINDOW) % U32])];
            Accepted(heartbeat, c, offset, p, putBack) ==
              if heartbeat then Outcome(c.(held := held), [], request, false)
              else Outcome(c.(waiting := w, held := f.held), f.sent, request, false)
  {
    SubtractWindow(offset);
  }

  lemma SubtractWindow(offset: nat)
    requires offset < U32
    ensures ((offset + 1) % U32 + U32 - WINDOW) % U32 == (offset + 1 + U32 - WINDOW) % U32
  {
  }

  // Where the forced flush stands after residue `at`, on its way round to `r`.
  ghost predicate Scan(whole: Flushed, sent: seq<Payload>, issend: bool, w: nat, at: nat, r: nat,
                       held: map<nat, Payload>)
    requires at < WINDOW && r < WINDOW
  {
    && ((at == r && !issend) || Next(r) !in held)
    && (issend ==> w == Next(at) && Resumes(whole, sent, w, held))
    && (!issend ==> sent == [] && r in held && Resumes(whole, [], Skip(Next(at), held, Distance(at, r)), held))
  }

  lemma ScanHole(whole: Flushed, sent: seq<Payload>, issend: bool, w: nat, at: nat, r: nat, held: map<nat, Payload>)
    requires at < WINDOW && r < WINDOW && Scan(whole, sent, issend, w, at, r, held)
    requires Next(at) !in held
    ensures issend ==> whole == Flushed(Next(at), held, sent)
    ensures !issend ==> Scan(whole, sent, issend, Next(at), Next(at), r, held) && Next(at) != r
                        && Distance(Next(at), r) < Distance(at, r)
  {
    if issend {
      ResumesNext(whole, sent, w, held);
    } else {
      DistanceStep(at, r);
      SkipStep(Next(at), held, Distance(at, r));
    }
  }

  lemma ScanSends(whole: Flushed, sent: seq<Payload>, issend: bool, w: nat, at: nat, r: nat, held: map<nat, Payload>)
    requires at < WINDOW && r < WINDOW && Scan(whole, sent, issend, w, at, r, held)
    requires Next(at) in held
    ensures var o := Next(at);
            Scan(whole, sent + [held[o]], true, Next(o), o, r, held - {o}) && |held - {o}| < |held|
  {
    if !issend {
      SkipStep(Next(at), held, Distance(at, r));
    }
    ResumesNext(whole, sent, Next(at), held);
  }

  lemma ScanEnds(whole: Flushed, sent: seq<Payload>, w: nat, r: nat, held: map<nat, Payload>)
    requires r < WINDOW && Scan(whole, sent, true, w, r, r, held)
    ensures whole == Flushed(w, held, sent)
  {
    ResumesNext(whole, sent, w, held);
  }

  // Steps from residue `a` to residue `r`, at least one.
  function Distance(a: nat, r: nat): (d: nat)
    requires a < WINDOW && r < WINDOW
    ensures 0 < d <= WINDOW
  {
    if a < r then r - a else r + WINDOW - a
  }

  lemma DistanceStep(a: nat, r: nat)
    requires a < WINDOW && r < WINDOW
    ensures if Next(a) == r then Distance(a, r) == 1 else Distance(Next(a), r) == Distance(a, r) - 1
  {
  }

  lemma SkipStep(w: nat, held: map<nat, Payload>, steps: nat)
    requires steps > 0
    ensures Skip(w, held, steps) == if w in held then w else Skip(Next(w), held, steps - 1)
  {
  }

  // The whole run `f` is what was `sent` so far, followed by the run from `w` on.
  ghost predicate Resumes(f: Flushed, sent: seq<Payload>, w: nat, held: map<nat, Payload>) {
    var rest := Flush(w, held);
    f == rest.(sent := sent + rest.sent)
  }

  lemma ResumesNext(f: Flushed, sent: seq<Payload>, w: nat, held: map<nat, Payload>)
    requires Resumes(f, sent, w, held)
    ensures w in held ==> Resumes(f, sent + [held[w]], Next(w), held - {w}) && |held - {w}| < |held|
    ensures w !in held ==> f == Flushed(w, held, sent)
  {
    if w in held {
      var rest := Flush(Next(w), held - {w});
      assert (sent + [held[w]]) + rest.sent == sent + ([held[w]] + rest.sent);
    } else {
      assert sent + [] == sent;
    }
  }
}
