/**
 Reassembly of one packet stream at the far end of the tunnel (the receiver branch of
 `thread_pktsend`, udp_socket.cpp:1208-1213 and 1262-1443).

 The receiver knows a packet only by its residue modulo the window size. A `Core` is the
 abstract value of one reassembly slot: the residue it waits for, and the packets it holds.
 */
module Reassembly {

  const WINDOW: nat := 100
  const U32: nat := 0x1_0000_0000

  // The first word of a packet's header: data, and the marker that ends a stream.
  const MAGIC_WORD_MAIN: nat := 0xDEADBEEF
  const MAGIC_WORD_BANK: nat := 0xBEEFDEAD

  type Payload = seq<bv8>

  function Res(offset: nat): (r: nat)
    ensures r < WINDOW
  {
    offset % WINDOW
  }

  // The residue that follows `r`.
  function Next(r: nat): nat {
    if r + 1 == WINDOW then 0 else r + 1
  }

  lemma NextIsModulo(r: nat)
    requires r < WINDOW
    ensures Next(r) == (r + 1) % WINDOW
  {
  }

  datatype Datagram = Datagram(magicWord: nat, offset: nat, payload: Payload)

  datatype Msg = Ack(number: nat) | Request(numbers: seq<nat>)

  datatype Core = Core(waiting: nat, held: map<nat, Payload>, closing: bool, endOffset: nat)

  const FRESH := Core(0, map[], false, 0)

  // What one packet makes the receiver do: the payloads handed to the local socket, the messages
  // sent back through the tunnel, and whether the local socket was released.
  datatype Outcome = Outcome(core: Core, sent: seq<Payload>, replies: seq<Msg>, released: bool)

  // The residue waited for, the packets still held, and the payloads delivered.
  datatype Flushed = Flushed(waiting: nat, held: map<nat, Payload>, sent: seq<Payload>)

  // Deliver the run of held packets that starts at residue `w`.
  function Flush(w: nat, held: map<nat, Payload>): (f: Flushed)
    decreases |held|
  {
    if w in held then
      var rest := Flush(Next(w), held - {w});
      rest.(sent := [held[w]] + rest.sent)
    else
      Flushed(w, held, [])
  }

  // The first held residue from `w` on, going round at most `steps` places.
  function Skip(w: nat, held: map<nat, Payload>, steps: nat): nat
    decreases steps
  {
    if steps == 0 || w in held then w else Skip(Next(w), held, steps - 1)
  }

  function Accept(heartbeat: bool, c: Core, offset: nat, p: Payload): Outcome {
    var r := Res(offset);
    if c.waiting == r then
      var f := if heartbeat then Flush(Next(r), c.held - {r}) else Flushed(Next(r), c.held - {r}, []);
      Outcome(c.(waiting := f.waiting, held := f.held), [p] + f.sent,
              if heartbeat then [Ack((offset + |f.sent|) % U32)] else [], false)
    else
      var held := c.held[r := p];
      var request := [Request([(offset + 1 + U32 - WINDOW) % U32])];
      if c.waiting != Next(r) then
        Outcome(c.(held := held), [], [], false)
      else if heartbeat then
        Outcome(c.(held := held), [], request, false)
      else
        var f := Flush(Skip(c.waiting, held, WINDOW), held);
        Outcome(c.(waiting := f.waiting, held := f.held), f.sent, request, false)
  }

  function Data(heartbeat: bool, c: Core, offset: nat, p: Payload): Outcome {
    var o := Accept(heartbeat, c, offset, p);
    if heartbeat && c.closing then
      if o.core.waiting == Res(c.endOffset) then o.(core := FRESH, released := true)
      else o.(replies := o.replies + [Request([o.core.waiting])])
    else o
  }

  // The packet that ends the stream.
  function End(heartbeat: bool, c: Core, offset: nat): Outcome {
    if heartbeat && Res(offset) != c.waiting then
      Outcome(c.(closing := true, endOffset := offset), [], [Request([c.waiting])], false)
    else
      Outcome(FRESH, [], [], true)
  }

  // The branches behind the lookup of the slot.
  function Handle(heartbeat: bool, c: Core, d: Datagram): Outcome {
    if d.magicWord == MAGIC_WORD_BANK then End(heartbeat, c, d.offset) else Data(heartbeat, c, d.offset, d.payload)
  }

  // What arrives at the far end: everything that is not data is dropped before the lookup.
  function Receive(heartbeat: bool, c: Core, d: Datagram): Outcome {
    if d.magicWord != MAGIC_WORD_MAIN then Outcome(c, [], [], false) else Handle(heartbeat, c, d)
  }

  // Residue `r` is listed in a request for retransmission: it is missing, and some packet behind
  // the one waited for is not.
  ghost predicate Requests(c: Core, r: nat) {
    && r < WINDOW && (r == c.waiting || r !in c.held)
    && exists q :: 0 <= q < WINDOW && q in c.held && q != c.waiting
  }

  // ----- The stream behind the residues -----

  // `R` is the set of offsets received so far, `n` the first one not yet delivered, and
  // `stream[o]` the payload that was sent with offset `o`.
  ghost predicate Holds(held: map<nat, Payload>, n: nat, R: set<nat>, stream: seq<Payload>) {
    && (forall r :: r in held ==> r < WINDOW)
    && (forall a :: a in R ==> a < n + WINDOW && a < |stream|)
    && (forall a {:trigger Res(a)} :: n <= a < n + WINDOW ==> (Res(a) in held <==> a in R))
    && (forall a {:trigger Res(a)} :: n <= a < n + WINDOW && a in R ==> held[Res(a)] == stream[a])
  }

  ghost predicate Inv(c: Core, n: nat, R: set<nat>, stream: seq<Payload>) {
    && c.waiting == Res(n)
    && Holds(c.held, n, R, stream)
    && n !in R
    && (forall a :: 0 <= a < n ==> a in R)
  }

  lemma SameResidue(a: nat, b: nat)
    requires Res(a) == Res(b)
    ensures a != b ==> a >= b + WINDOW || b >= a + WINDOW
  {
  }

  lemma NextResidue(a: nat)
    ensures Next(Res(a)) == Res(a + 1)
    ensures Res(a + WINDOW) == Res(a)
  {
  }

  // Once `n` itself is gone from the slot, the window moves forward by one.
  lemma WindowMoves(held: map<nat, Payload>, n: nat, R: set<nat>, stream: seq<Payload>)
    requires Holds(held, n, R, stream)
    ensures Holds(held - {Res(n)}, n + 1, R, stream)
  {
    NextResidue(n);
    forall a {:trigger Res(a)} | n + 1 <= a < n + 1 + WINDOW
      ensures Res(a) in held - {Res(n)} <==> a in R
      ensures a in R ==> held[Res(a)] == stream[a]
    {
      if a < n + WINDOW && Res(a) == Res(n) {
        SameResidue(a, n);
      }
    }
  }

  // `s` is the part of the stream from offset `n` on.
  ghost predicate IsSlice(s: seq<Payload>, n: nat, stream: seq<Payload>) {
    n + |s| <= |stream| && s == stream[n..n + |s|]
  }

  ghost predicate Delivers(f: Flushed, n: nat, R: set<nat>, stream: seq<Payload>) {
    var n' := n + |f.sent|;
    && f.waiting == Res(n')
    && Holds(f.held, n', R, stream)
    && n' !in R
    && (forall a :: n <= a < n' ==> a in R)
    && IsSlice(f.sent, n, stream)
  }

  lemma DeliversOneMore(f: Flushed, n: nat, R: set<nat>, stream: seq<Payload>, p: Payload)
    requires n < |stream| && n in R && p == stream[n] && Delivers(f, n + 1, R, stream)
    ensures Delivers(f.(sent := [p] + f.sent), n, R, stream)
  {
    assert n + |[p] + f.sent| == n + 1 + |f.sent|;
    assert [p] + f.sent == stream[n..n + 1 + |f.sent|];
  }

  lemma {:induction false} FlushDelivers(held: map<nat, Payload>, n: nat, R: set<nat>, stream: seq<Payload>)
    requires Holds(held, n, R, stream) && n <= |stream|
    ensures Delivers(Flush(Res(n), held), n, R, stream)
    decreases |held|
  {
    if Res(n) !in held {
    } else {
      WindowMoves(held, n, R, stream);
      NextResidue(n);
      FlushDelivers(held - {Res(n)}, n + 1, R, stream);
      DeliversOneMore(Flush(Res(n + 1), held - {Res(n)}), n, R, stream, held[Res(n)]);
    }
  }

  // ----- Heartbeat on -----

  lemma StoreKeeps(held: map<nat, Payload>, n: nat, R: set<nat>, stream: seq<Payload>, o: nat)
    requires Holds(held, n, R, stream) && n <= o < n + WINDOW && o < |stream|
    ensures Holds(held[Res(o) := stream[o]], n, R + {o}, stream)
  {
    forall a {:trigger Res(a)} | n <= a < n + WINDOW
      ensures Res(a) in held[Res(o) := stream[o]] <==> a in R + {o}
      ensures a in R + {o} ==> held[Res(o) := stream[o]][Res(a)] == stream[a]
    {
      if Res(a) == Res(o) {
        SameResidue(a, o);
      }
    }
  }

  // The next packet in order, and everything behind it that is already held.
  lemma NextDelivers(held: map<nat, Payload>, n: nat, R: set<nat>, stream: seq<Payload>)
    requires Holds(held, n, R, stream) && n < |stream|
    ensures var f := Flush(Next(Res(n)), held - {Res(n)});
            Delivers(f.(sent := [stream[n]] + f.sent), n, R + {n}, stream)
  {
    PassesThrough(held, n, R, stream);
    FlushDelivers(held - {Res(n)}, n + 1, R + {n}, stream);
    DeliversOneMore(Flush(Res(n + 1), held - {Res(n)}), n, R + {n}, stream, stream[n]);
  }

  // A packet of the window: in order it is delivered with the run behind it and acknowledged,
  // out of order it is kept, and in the last place of the window it asks for the missing one.
  lemma ArrivalInWindow(c: Core, n: nat, R: set<nat>, stream: seq<Payload>, o: nat)
    requires Inv(c, n, R, stream) && n <= o < n + WINDOW && o < |stream|
    ensures var out := Accept(true, c, o, stream[o]);
            var n' := n + |out.sent|;
            && IsSlice(out.sent, n, stream)
            && Inv(out.core, n', R + {o}, stream)
            && out.core.closing == c.closing && out.core.endOffset == c.endOffset
            && (out.sent != [] <==> o == n)
            && (o == n ==> out.replies == [Ack((n' - 1) % U32)])
            && (o == n + WINDOW - 1 ==> out.replies == [Request([n % U32])])
            && (n < o < n + WINDOW - 1 ==> out.replies == [])
  {
    if Res(o) == c.waiting {
      SameResidue(o, n);
      NextDelivers(c.held, n, R, stream);
    } else {
      StoreKeeps(c.held, n, R, stream, o);
      LastInWindow(n, o);
      assert (n + U32) % U32 == n % U32;
    }
  }

  lemma LastInWindow(n: nat, o: nat)
    requires n <= o < n + WINDOW
    ensures Res(n) == Next(Res(o)) <==> o == n + WINDOW - 1
  {
    NextResidue(o);
    if Res(n) == Res(o + 1) {
      SameResidue(n, o + 1);
    }
    NextResidue(n);
  }

  ghost predicate Sound(c: Core, n: nat, stream: seq<Payload>) {
    exists R :: Inv(c, n, R, stream)
  }

  // A packet below the window is taken for the one of the same residue inside it. So a packet of
  // the stream is handled correctly exactly when it is not stale: otherwise the slot holds, or
  // the socket gets, a payload that is not the stream's.
  lemma StalePacketCorrupts(c: Core, n: nat, R: set<nat>, stream: seq<Payload>, o: nat)
    requires Inv(c, n, R, stream) && o < n + WINDOW && o < |stream|
    requires forall i, j :: 0 <= i < j < |stream| ==> stream[i] != stream[j]
    ensures var out := Accept(true, c, o, stream[o]);
            n <= o <==> IsSlice(out.sent, n, stream) && Sound(out.core, n + |out.sent|, stream)
  {
    var out := Accept(true, c, o, stream[o]);
    if n <= o {
      ArrivalInWindow(c, n, R, stream, o);
    } else if c.waiting != Res(o) {
      var a := InWindow(n, Res(o));
      assert out.core.held[Res(a)] == stream[o];
      assert !Sound(out.core, n, stream) by {
        forall R' ensures !Inv(out.core, n, R', stream) {
          assert Res(a) in out.core.held;
        }
      }
    } else {
      assert out.sent[0] == stream[o];
    }
  }

  // The offset of the window `[n, n + WINDOW)` that has residue `r`.
  function InWindow(n: nat, r: nat): (a: nat)
    requires r < WINDOW
    ensures n <= a < n + WINDOW && Res(a) == r
  {
    n + (r + WINDOW - Res(n)) % WINDOW
  }

  // ----- Whole runs with the heartbeat on -----

  // The least number from `k` on that is not in `R`.
  ghost function FirstMissing(R: set<nat>, k: nat): (n: nat)
    ensures n >= k && n !in R && forall a :: k <= a < n ==> a in R
    decreases |R|
  {
    if k in R then
      var S := R - {k};
      assert forall a :: a in S ==> a in R;
      assert forall a :: a in R && a != k ==> a in S;
      FirstMissing(S, k + 1)
    else k
  }

  lemma FirstMissingIs(R: set<nat>, n: nat)
    requires n !in R && forall a :: 0 <= a < n ==> a in R
    ensures FirstMissing(R, 0) == n
  {
  }

  datatype Event = Arrival(offset: nat) | EndOfStream

  function DatagramOf(e: Event, stream: seq<Payload>): Datagram
    requires e.Arrival? ==> e.offset < |stream|
  {
    match e
    case Arrival(o) => Datagram(MAGIC_WORD_MAIN, o, stream[o])
    case EndOfStream => Datagram(MAGIC_WORD_BANK, |stream|, [])
  }

  // One stream at the receiver: the offsets that arrived, everything sent to the local socket,
  // whether the end marker arrived and whether the socket was released.
  datatype Rx = Rx(core: Core, R: set<nat>, sent: seq<Payload>, marked: bool, released: bool)

  const RX_FRESH := Rx(FRESH, {}, [], false, false)

  function StepRx(rx: Rx, e: Event, stream: seq<Payload>): Rx
    requires e.Arrival? ==> e.offset < |stream|
  {
    var out := Receive(true, rx.core, DatagramOf(e, stream));
    Rx(out.core, if e.Arrival? then rx.R + {e.offset} else rx.R, rx.sent + out.sent,
       rx.marked || e.EndOfStream?, rx.released || out.released)
  }

  // What the network may do: no packet from below the window and none from above it. The end
  // marker may arrive at any time and any number of times.
  ghost predicate LegalEvent(rx: Rx, e: Event, stream: seq<Payload>) {
    var n := FirstMissing(rx.R, 0);
    e.Arrival? ==> n <= e.offset < n + WINDOW && e.offset < |stream|
  }

  ghost predicate LegalRun(rx: Rx, es: seq<Event>, stream: seq<Payload>)
    decreases es
  {
    es == [] || (LegalEvent(rx, es[0], stream) && LegalRun(StepRx(rx, es[0], stream), es[1..], stream))
  }

  ghost function RunRx(rx: Rx, es: seq<Event>, stream: seq<Payload>): Rx
    requires LegalRun(rx, es, stream)
    decreases es
  {
    if es == [] then rx else RunRx(StepRx(rx, es[0], stream), es[1..], stream)
  }

  ghost predicate RxInv(rx: Rx, stream: seq<Payload>) {
    var n := FirstMissing(rx.R, 0);
    && n <= |stream| && rx.sent == stream[..n]
    && Inv(rx.core, n, rx.R, stream)
    && !rx.core.closing && !rx.released
  }

  lemma SliceExtends(sent: seq<Payload>, s: seq<Payload>, n: nat, stream: seq<Payload>)
    requires n <= |stream| && sent == stream[..n] && IsSlice(s, n, stream)
    ensures sent + s == stream[..n + |s|]
  {
  }

  lemma PacketKeepsRx(rx: Rx, o: nat, stream: seq<Payload>)
    requires RxInv(rx, stream) && LegalEvent(rx, Arrival(o), stream)
    ensures RxInv(StepRx(rx, Arrival(o), stream), stream)
  {
    var n := FirstMissing(rx.R, 0);
    ArrivalInWindow(rx.core, n, rx.R, stream, o);
    var out := Accept(true, rx.core, o, stream[o]);
    FirstMissingIs(rx.R + {o}, n + |out.sent|);
    SliceExtends(rx.sent, out.sent, n, stream);
  }

  lemma EndKeepsRx(rx: Rx, stream: seq<Payload>)
    requires RxInv(rx, stream)
    ensures StepRx(rx, EndOfStream, stream) == rx.(marked := true)
    ensures RxInv(StepRx(rx, EndOfStream, stream), stream)
  {
    assert rx.sent + [] == rx.sent;
  }

  lemma {:induction false} RunKeepsRx(rx: Rx, es: seq<Event>, stream: seq<Payload>)
    requires RxInv(rx, stream) && LegalRun(rx, es, stream)
    ensures RxInv(RunRx(rx, es, stream), stream)
    decreases es
  {
    if es == [] {
    } else {
      if es[0].Arrival? {
        PacketKeepsRx(rx, es[0].offset, stream);
      } else {
        EndKeepsRx(rx, stream);
      }
      RunKeepsRx(StepRx(rx, es[0], stream), es[1..], stream);
    }
  }

  // Over every legal run the socket gets the packets 0, 1, 2, ... up to the first one that has
  // not arrived, with no gap and no repeat. It ought to be released exactly when the end marker
  // has arrived and the whole stream has been delivered; it never is, so that holds exactly as
  // long as one of the two is still to come.
  lemma StreamIsDelivered(es: seq<Event>, stream: seq<Payload>)
    requires LegalRun(RX_FRESH, es, stream)
    ensures var rx := RunRx(RX_FRESH, es, stream);
            var n := FirstMissing(rx.R, 0);
            var over := rx.marked && n == |stream|;
            && n <= |stream| && rx.sent == stream[..n]
            && !rx.released
            && ((rx.released <==> over) <==> !over)
  {
    assert RxInv(RX_FRESH, stream);
    RunKeepsRx(RX_FRESH, es, stream);
  }

  // ----- No socket is ever released -----

  // What the receiver does on any datagrams at all, one after the other.
  function ReceiveAll(heartbeat: bool, c: Core, ds: seq<Datagram>): (outs: seq<Outcome>)
    ensures |outs| == |ds|
    decreases |ds|
  {
    if ds == [] then []
    else
      var out := Receive(heartbeat, c, ds[0]);
      [out] + ReceiveAll(heartbeat, out.core, ds[1..])
  }

  // Whatever the network delivers, with the heartbeat on or off, no slot starts to wait for the
  // rest of an ended stream, and no socket is released.
  lemma {:induction false} NeverReleased(heartbeat: bool, c: Core, ds: seq<Datagram>)
    requires !c.closing
    ensures var outs := ReceiveAll(heartbeat, c, ds);
            forall i :: 0 <= i < |outs| ==> !outs[i].core.closing && !outs[i].released
    decreases |ds|
  {
    if ds == [] {
    } else {
      var out := Receive(heartbeat, c, ds[0]);
      DataDoesNotClose(heartbeat, c, ds[0].offset, ds[0].payload);
      NeverReleased(heartbeat, out.core, ds[1..]);
      assert ReceiveAll(heartbeat, c, ds) == [out] + ReceiveAll(heartbeat, out.core, ds[1..]);
    }
  }

  lemma DataDoesNotClose(heartbeat: bool, c: Core, offset: nat, p: Payload)
    requires !c.closing
    ensures var out := Data(heartbeat, c, offset, p); !out.core.closing && !out.released
  {
  }

  // The marker of a stream that was delivered in full changes nothing, though the branch behind
  // the lookup would release the socket.
  lemma MarkerIsDropped(heartbeat: bool, c: Core, n: nat, R: set<nat>, stream: seq<Payload>)
    requires Inv(c, n, R, stream) && n == |stream|
    ensures var marker := Datagram(MAGIC_WORD_BANK, |stream|, []);
            && Receive(heartbeat, c, marker) == Outcome(c, [], [], false)
            && Handle(heartbeat, c, marker) == Outcome(FRESH, [], [], true)
  {
  }

  ghost function Arrived(es: seq<Event>): set<nat> {
    set e | e in es && e.Arrival? :: e.offset
  }

  lemma {:induction false} RunRecordsArrivals(rx: Rx, es: seq<Event>, stream: seq<Payload>)
    requires LegalRun(rx, es, stream)
    ensures RunRx(rx, es, stream).R == rx.R + Arrived(es)
    decreases es
  {
    if es == [] {
    } else {
      RunRecordsArrivals(StepRx(rx, es[0], stream), es[1..], stream);
      assert es == [es[0]] + es[1..];
    }
  }

  // The output depends on which packets arrived, not on their order or number of copies.
  lemma OrderDoesNotMatter(es: seq<Event>, fs: seq<Event>, stream: seq<Payload>)
    requires LegalRun(RX_FRESH, es, stream) && LegalRun(RX_FRESH, fs, stream)
    requires Arrived(es) == Arrived(fs)
    ensures RunRx(RX_FRESH, es, stream).sent == RunRx(RX_FRESH, fs, stream).sent
  {
    RunRecordsArrivals(RX_FRESH, es, stream);
    RunRecordsArrivals(RX_FRESH, fs, stream);
    StreamIsDelivered(es, stream);
    StreamIsDelivered(fs, stream);
  }

  // ----- Concrete runs -----

  ghost function UpTo(k: nat): (r: set<nat>)
    ensures forall a :: a in r <==> 0 <= a < k
  {
    if k == 0 then {} else UpTo(k - 1) + {k - 1}
  }

  // The receiver after the packets `0..k` arrived in order.
  ghost function InOrder(k: nat, stream: seq<Payload>): Rx
    requires k <= |stream|
  {
    Rx(Core(Res(k), map[], false, 0), UpTo(k), stream[..k], false, false)
  }

  ghost function Arrivals(k: nat, m: nat): (es: seq<Event>)
    requires k <= m
    ensures |es| == m - k
  {
    seq(m - k, i requires 0 <= i => Arrival(k + i))
  }

  lemma NothingHeld(r: nat)
    ensures var none: map<nat, Payload> := map[];
            none - {r} == none && Flush(Next(r), none) == Flushed(Next(r), none, [])
  {
    var none: map<nat, Payload> := map[];
    assert none - {r} == none;
  }

  lemma NextInOrder(k: nat, stream: seq<Payload>)
    requires k < |stream|
    ensures StepRx(InOrder(k, stream), Arrival(k), stream) == InOrder(k + 1, stream)
    ensures FirstMissing(InOrder(k, stream).R, 0) == k
  {
    var rx := InOrder(k, stream);
    FirstMissingIs(rx.R, k);
    NextResidue(k);
    NothingHeld(Res(k));
    assert rx.R + {k} == InOrder(k + 1, stream).R;
    assert stream[..k] + ([stream[k]] + []) == stream[..k + 1];
  }

  lemma ArrivalsFrom(k: nat, m: nat)
    requires k < m
    ensures Arrivals(k, m)[0] == Arrival(k) && Arrivals(k, m)[1..] == Arrivals(k + 1, m)
  {
  }

  // A run whose first step is known.
  lemma RunFirst(rx: Rx, next: Rx, es: seq<Event>, stream: seq<Payload>)
    requires es != [] && LegalEvent(rx, es[0], stream) && next == StepRx(rx, es[0], stream)
    requires LegalRun(next, es[1..], stream)
    ensures LegalRun(rx, es, stream) && RunRx(rx, es, stream) == RunRx(next, es[1..], stream)
  {
  }

  lemma {:induction false} RunInOrder(k: nat, m: nat, stream: seq<Payload>)
    requires k <= m <= |stream|
    ensures LegalRun(InOrder(k, stream), Arrivals(k, m), stream)
    ensures RunRx(InOrder(k, stream), Arrivals(k, m), stream) == InOrder(m, stream)
    decreases m - k
  {
    if k == m {
    } else {
      NextInOrder(k, stream);
      ArrivalsFrom(k, m);
      RunInOrder(k + 1, m, stream);
      RunFirst(InOrder(k, stream), InOrder(k + 1, stream), Arrivals(k, m), stream);
    }
  }

  // A copy of a packet that was delivered a whole window ago is sent on once more.
  lemma CopyIsSent(k: nat, stream: seq<Payload>)
    requires k + WINDOW < |stream|
    ensures var d := Datagram(MAGIC_WORD_MAIN, k, stream[k]);
            Receive(true, InOrder(k + WINDOW, stream).core, d).sent == [stream[k]]
  {
    NextResidue(k);
    NothingHeld(Res(k));
  }

  // The first packet again, after a whole window has been delivered in order: it takes the place
  // of packet 100.
  lemma StaleCopyExample(stream: seq<Payload>)
    requires |stream| == WINDOW + 1 && stream[0] != stream[WINDOW]
    ensures LegalRun(RX_FRESH, Arrivals(0, WINDOW), stream)
    ensures var rx := RunRx(RX_FRESH, Arrivals(0, WINDOW), stream);
            && FirstMissing(rx.R, 0) == WINDOW && rx.sent == stream[..WINDOW]
            && Receive(true, rx.core, Datagram(MAGIC_WORD_MAIN, 0, stream[0])).sent == [stream[0]] != [stream[WINDOW]]
  {
    assert InOrder(0, stream) == RX_FRESH;
    RunInOrder(0, WINDOW, stream);
    NextInOrder(WINDOW, stream);
    CopyIsSent(0, stream);
  }

  // ----- The branches for the end marker, which no packet reaches -----

  // Behind the lookup, a marker is judged by its residue alone: releasing the socket would mean
  // that everything was delivered unless exactly a whole number of windows is still missing.
  lemma MarkerIsExact(c: Core, n: nat, R: set<nat>, stream: seq<Payload>)
    requires Inv(c, n, R, stream) && n <= |stream|
    ensures var out := End(true, c, |stream|);
            (out.released <==> n == |stream|) <==> (n == |stream| || (|stream| - n) % WINDOW != 0)
  {
    ResidueOfGap(n, |stream| - n);
  }

  // A hundred packets were sent and none arrived: the branch would release the socket at once.
  lemma EarlyMarkerExample(stream: seq<Payload>)
    requires |stream| == WINDOW
    ensures Inv(FRESH, 0, {}, stream) && End(true, FRESH, |stream|) == Outcome(FRESH, [], [], true)
  {
  }

  lemma ResidueOfGap(n: nat, gap: nat)
    ensures Res(n + gap) == Res(n) <==> gap % WINDOW == 0
  {
  }

  // The slot of a stream whose marker was seen while packets inside the window were missing.
  ghost predicate AwaitsRest(c: Core, n: nat, stream: seq<Payload>) {
    c.closing && c.endOffset == |stream| < n + WINDOW
  }

  lemma EndBranch(c: Core, n: nat, R: set<nat>, stream: seq<Payload>)
    requires Inv(c, n, R, stream) && n <= |stream| < n + WINDOW
    ensures var out := End(true, c, |stream|);
            && (out.released <==> n == |stream|)
            && (!out.released ==> Inv(out.core, n, R, stream) && AwaitsRest(out.core, n, stream))
  {
    if Res(n) == Res(|stream|) {
      SameResidue(n, |stream|);
    }
  }

  // Such a slot would be released by the packet that completes the stream, and by no other.
  lemma ClosingBranch(c: Core, n: nat, R: set<nat>, stream: seq<Payload>, o: nat)
    requires Inv(c, n, R, stream) && AwaitsRest(c, n, stream) && n <= o < |stream|
    ensures var out := Data(true, c, o, stream[o]);
            var n' := n + |out.sent|;
            && IsSlice(out.sent, n, stream)
            && (out.released <==> n' == |stream|)
            && (!out.released ==> Inv(out.core, n', R + {o}, stream) && AwaitsRest(out.core, n', stream))
  {
    ArrivalInWindow(c, n, R, stream, o);
    var n' := n + |Accept(true, c, o, stream[o]).sent|;
    if Res(n') == Res(|stream|) {
      SameResidue(n', |stream|);
    }
  }

  // ----- Heartbeat off: the receiver skips what is missing -----

  // A packet in the last place of the window asks for the missing one here, too, but a sender
  // without heartbeat does not answer.

  // The first offset from `n` on that is held, if there is one within `steps` places.
  ghost function SkipTo(n: nat, held: map<nat, Payload>, steps: nat): nat
    decreases steps
  {
    if steps == 0 || Res(n) in held then n else SkipTo(n + 1, held, steps - 1)
  }

  lemma {:induction false} SkipFindsFirst(held: map<nat, Payload>, n: nat, R: set<nat>, stream: seq<Payload>,
                                          steps: nat)
    requires Holds(held, n, R, stream)
    ensures var m := SkipTo(n, held, steps);
            && Skip(Res(n), held, steps) == Res(m)
            && n <= m <= n + steps && Holds(held, m, R, stream)
            && (forall a :: n <= a < m ==> a !in R)
            && (m < n + steps && m < n + WINDOW ==> m in R)
    decreases steps
  {
    if steps == 0 || Res(n) in held {
    } else {
      MissingMoves(held, n, R, stream);
      SkipFindsFirst(held, n + 1, R, stream, steps - 1);
    }
  }

  lemma MissingMoves(held: map<nat, Payload>, n: nat, R: set<nat>, stream: seq<Payload>)
    requires Holds(held, n, R, stream) && Res(n) !in held
    ensures n !in R && Holds(held, n + 1, R, stream) && Next(Res(n)) == Res(n + 1)
  {
    WindowMoves(held, n, R, stream);
    assert held - {Res(n)} == held;
    NextResidue(n);
  }

  // Without heartbeat a slot waits at `n` and may hold any packets of the window.
  ghost predicate OffInv(c: Core, n: nat, R: set<nat>, stream: seq<Payload>) {
    c.waiting == Res(n) && Holds(c.held, n, R, stream)
  }

  lemma PassesThrough(held: map<nat, Payload>, n: nat, R: set<nat>, stream: seq<Payload>)
    requires Holds(held, n, R, stream) && n < |stream|
    ensures Holds(held - {Res(n)}, n + 1, R + {n}, stream) && Next(Res(n)) == Res(n + 1)
  {
    StoreKeeps(held, n, R, stream, n);
    WindowMoves(held[Res(n) := stream[n]], n, R + {n}, stream);
    assert held[Res(n) := stream[n]] - {Res(n)} == held - {Res(n)};
    NextResidue(n);
  }

  // The offset from which an arrival delivers: `n`, except that a packet in the last place of
  // the window makes the receiver skip what is missing.
  ghost function From(c: Core, n: nat, o: nat, p: Payload): nat {
    if o == n + WINDOW - 1 then SkipTo(n, c.held[Res(o) := p], WINDOW) else n
  }

  lemma LastArrivalFlushes(held: map<nat, Payload>, n: nat, R: set<nat>, stream: seq<Payload>)
    requires Holds(held, n, R, stream) && n + WINDOW - 1 in R
    ensures var f := Flush(Skip(Res(n), held, WINDOW), held);
            var from := SkipTo(n, held, WINDOW);
            n <= from && Delivers(f, from, R, stream) && f.sent != []
  {
    SkipFindsFirst(held, n, R, stream, WINDOW);
    var from := SkipTo(n, held, WINDOW);
    assert from < n + WINDOW && from in R;
    FlushDelivers(held, from, R, stream);
  }

  // What an arrival of `o` does: it delivers the stream from `from` up to where the receiver
  // waits next, and it delivers something only in the first and the last place of the window.
  ghost predicate OffResult(out: Outcome, from: nat, n: nat, R: set<nat>, stream: seq<Payload>, o: nat) {
    && n <= from && IsSlice(out.sent, from, stream)
    && OffInv(out.core, from + |out.sent|, R + {o}, stream)
    && (forall a :: from <= a < from + |out.sent| ==> a in R + {o})
    && (o == n || o == n + WINDOW - 1 <==> out.sent != [])
    && out.replies == if o == n + WINDOW - 1 then [Request([n % U32])] else []
  }

  lemma OffFirst(c: Core, n: nat, R: set<nat>, stream: seq<Payload>)
    requires OffInv(c, n, R, stream) && n < |stream|
    ensures OffResult(Accept(false, c, n, stream[n]), n, n, R, stream, n)
  {
    PassesThrough(c.held, n, R, stream);
    assert IsSlice([stream[n]], n, stream);
  }

  lemma OffLast(c: Core, n: nat, R: set<nat>, stream: seq<Payload>, o: nat)
    requires OffInv(c, n, R, stream) && o == n + WINDOW - 1 && o < |stream|
    ensures OffResult(Accept(false, c, o, stream[o]), From(c, n, o, stream[o]), n, R, stream, o)
  {
    var held := c.held[Res(o) := stream[o]];
    LastSkips(c, n, o, stream[o]);
    StoreKeeps(c.held, n, R, stream, o);
    LastArrivalFlushes(held, n, R + {o}, stream);
    var f := Flush(Skip(c.waiting, held, WINDOW), held);
    OffFlushed(c, f, SkipTo(n, held, WINDOW), n, R, stream, o);
  }

  lemma OffFlushed(c: Core, f: Flushed, from: nat, n: nat, R: set<nat>, stream: seq<Payload>, o: nat)
    requires Delivers(f, from, R + {o}, stream) && n <= from && o == n + WINDOW - 1 && f.sent != []
    ensures OffResult(Outcome(c.(waiting := f.waiting, held := f.held), f.sent, [Request([n % U32])], false),
                      from, n, R, stream, o)
  {
  }

  lemma LastSkips(c: Core, n: nat, o: nat, p: Payload)
    requires c.waiting == Res(n) && o == n + WINDOW - 1
    ensures var held := c.held[Res(o) := p];
            var f := Flush(Skip(c.waiting, held, WINDOW), held);
            Accept(false, c, o, p)
            == Outcome(c.(waiting := f.waiting, held := f.held), f.sent, [Request([n % U32])], false)
  {
    LastInWindow(n, o);
    if Res(o) == Res(n) {
      SameResidue(o, n);
    }
    assert (o + 1 + U32 - WINDOW) % U32 == (n + U32) % U32 == n % U32;
  }

  lemma OffMiddle(c: Core, n: nat, R: set<nat>, stream: seq<Payload>, o: nat)
    requires OffInv(c, n, R, stream) && n < o < n + WINDOW - 1 && o < |stream|
    ensures OffResult(Accept(false, c, o, stream[o]), n, n, R, stream, o)
  {
    LastInWindow(n, o);
    if Res(o) == Res(n) {
      SameResidue(o, n);
    }
    StoreKeeps(c.held, n, R, stream, o);
    assert IsSlice([], n, stream);
  }

  lemma OffArrival(c: Core, n: nat, R: set<nat>, stream: seq<Payload>, o: nat)
    requires OffInv(c, n, R, stream) && n <= o < n + WINDOW && o < |stream|
    ensures OffResult(Accept(false, c, o, stream[o]), From(c, n, o, stream[o]), n, R, stream, o)
  {
    if o == n {
      OffFirst(c, n, R, stream);
    } else if o == n + WINDOW - 1 {
      OffLast(c, n, R, stream, o);
    } else {
      OffMiddle(c, n, R, stream, o);
    }
  }

  // One residue back from where a flush on the arrival of `r` ended, so that it now waits for `w`.
  function BackFrom(w: nat, r: nat): nat {
    ((if w == Next(r) then r else w) + WINDOW - 1) % WINDOW
  }

  // When the last send of such a flush fails, the receiver steps back from where the flush ended
  // and hands the packet back to its own ring, to be tried again.
  function StepBack(out: Outcome, offset: nat): Outcome {
    out.(core := out.core.(waiting := BackFrom(out.core.waiting, Res(offset))))
  }

  // It then waits for the packet whose sending failed, if the flush ended at a missing packet; if
  // the flush went all the way to the packet that arrived, it waits for one packet too early.
  lemma StepBackIs(c: Core, n: nat, R: set<nat>, stream: seq<Payload>, o: nat) returns (last: nat)
    requires OffInv(c, n, R, stream) && o == n + WINDOW - 1 && o < |stream|
    ensures last + 1 == From(c, n, o, stream[o]) + |Accept(false, c, o, stream[o]).sent| && last <= o
    ensures StepBack(Accept(false, c, o, stream[o]), o).core.waiting == if last == o then Res(o - 1) else Res(last)
  {
    OffLast(c, n, R, stream, o);
    var out := Accept(false, c, o, stream[o]);
    last := From(c, n, o, stream[o]) + |out.sent| - 1;
    assert last in R + {o};
    SteppedBack(out, last, o);
  }

  lemma SteppedBack(out: Outcome, last: nat, o: nat)
    requires out.core.waiting == Res(last + 1) && o >= WINDOW - 1 && o - WINDOW < last <= o
    ensures StepBack(out, o).core.waiting == if last == o then Res(o - 1) else Res(last)
  {
    NextResidue(o);
    PreviousResidue(o);
    PreviousResidue(last + 1);
    if last != o && Res(last + 1) == Res(o + 1) {
      SameResidue(last + 1, o + 1);
    }
  }

  lemma PreviousResidue(a: nat)
    requires a > 0
    ensures (Res(a) + WINDOW - 1) % WINDOW == Res(a - 1)
  {
  }

  // A run without heartbeat: where the receiver waits, what arrived, the packets handed to the
  // local socket, and their offsets.
  datatype OffRx = OffRx(core: Core, n: nat, R: set<nat>, sent: seq<Payload>, offsets: seq<nat>)

  const OFF_FRESH := OffRx(FRESH, 0, {}, [], [])

  // The run after an arrival of `o` that had the outcome `out`.
  ghost function OffExtended(rx: OffRx, out: Outcome, from: nat, o: nat): OffRx {
    OffRx(out.core, from + |out.sent|, rx.R + {o}, rx.sent + out.sent, rx.offsets + Range(from, |out.sent|))
  }

  ghost function OffStep(rx: OffRx, o: nat, stream: seq<Payload>): OffRx
    requires o < |stream|
  {
    var out := Receive(false, rx.core, Datagram(MAGIC_WORD_MAIN, o, stream[o]));
    OffExtended(rx, out, From(rx.core, rx.n, o, stream[o]), o)
  }

  ghost function Range(from: nat, n: nat): (r: seq<nat>)
    ensures |r| == n && forall i :: 0 <= i < n ==> r[i] == from + i
  {
    seq(n, i => from + i)
  }

  ghost predicate LegalOff(rx: OffRx, os: seq<nat>, stream: seq<Payload>)
    decreases os
  {
    || os == []
    || (rx.n <= os[0] < rx.n + WINDOW && os[0] < |stream| && LegalOff(OffStep(rx, os[0], stream), os[1..], stream))
  }

  ghost function RunOff(rx: OffRx, os: seq<nat>, stream: seq<Payload>): OffRx
    requires LegalOff(rx, os, stream)
    decreases os
  {
    if os == [] then rx else RunOff(OffStep(rx, os[0], stream), os[1..], stream)
  }

  // `sent` are packets that arrived, in strictly increasing order of offset, all below `n`.
  ghost predicate Ascending(sent: seq<Payload>, offsets: seq<nat>, n: nat, R: set<nat>, stream: seq<Payload>) {
    && |offsets| == |sent|
    && (forall i, j :: 0 <= i < j < |offsets| ==> offsets[i] < offsets[j])
    && (forall i :: 0 <= i < |offsets| ==>
          offsets[i] < n && offsets[i] in R && offsets[i] < |stream| && sent[i] == stream[offsets[i]])
  }

  lemma AscendingExtends(rx: OffRx, more: seq<Payload>, from: nat, R: set<nat>, stream: seq<Payload>)
    requires Ascending(rx.sent, rx.offsets, rx.n, rx.R, stream) && rx.n <= from && IsSlice(more, from, stream)
    requires rx.R <= R && forall a :: from <= a < from + |more| ==> a in R
    ensures Ascending(rx.sent + more, rx.offsets + Range(from, |more|), from + |more|, R, stream)
  {
  }

  ghost predicate OffRxInv(rx: OffRx, stream: seq<Payload>) {
    OffInv(rx.core, rx.n, rx.R, stream) && Ascending(rx.sent, rx.offsets, rx.n, rx.R, stream)
  }

  // The window never moves back, and an arrival in its first or last place moves it forward and
  // delivers something.
  ghost predicate Advances(rx: OffRx, o: nat, next: OffRx) {
    && rx.n <= next.n && rx.sent <= next.sent
    && (o == rx.n || o == rx.n + WINDOW - 1 ==> rx.n < next.n && |rx.sent| < |next.sent|)
  }

  lemma OffStepAdvances(rx: OffRx, o: nat, stream: seq<Payload>)
    requires OffRxInv(rx, stream) && rx.n <= o < rx.n + WINDOW && o < |stream|
    ensures OffRxInv(OffStep(rx, o, stream), stream) && Advances(rx, o, OffStep(rx, o, stream))
  {
    OffArrival(rx.core, rx.n, rx.R, stream, o);
    var out := Accept(false, rx.core, o, stream[o]);
    var from := From(rx.core, rx.n, o, stream[o]);
    assert OffStep(rx, o, stream) == OffExtended(rx, out, from, o);
    OffResultAdvances(rx, out, from, o, stream);
  }

  lemma OffResultAdvances(rx: OffRx, out: Outcome, from: nat, o: nat, stream: seq<Payload>)
    requires OffRxInv(rx, stream) && OffResult(out, from, rx.n, rx.R, stream, o)
    ensures OffRxInv(OffExtended(rx, out, from, o), stream) && Advances(rx, o, OffExtended(rx, out, from, o))
  {
    AscendingExtends(rx, out.sent, from, rx.R + {o}, stream);
  }

  // Every step of a run advances.
  ghost predicate AllAdvance(rx: OffRx, os: seq<nat>, stream: seq<Payload>)
    requires LegalOff(rx, os, stream)
    decreases os
  {
    || os == []
    || (Advances(rx, os[0], OffStep(rx, os[0], stream)) && AllAdvance(OffStep(rx, os[0], stream), os[1..], stream))
  }

  lemma {:induction false} OffRunAdvances(rx: OffRx, os: seq<nat>, stream: seq<Payload>)
    requires OffRxInv(rx, stream) && LegalOff(rx, os, stream)
    ensures OffRxInv(RunOff(rx, os, stream), stream) && AllAdvance(rx, os, stream)
    decreases os
  {
    if os == [] {
    } else {
      OffStepAdvances(rx, os[0], stream);
      OffRunAdvances(OffStep(rx, os[0], stream), os[1..], stream);
    }
  }

  // Without heartbeat packets may be skipped, but those that arrived reach the socket in strictly
  // increasing order of offset, and at every point of the run the next arrival in the first or
  // the last place of the window moves the window on and delivers something.
  lemma SkippingKeepsOrder(os: seq<nat>, stream: seq<Payload>)
    requires LegalOff(OFF_FRESH, os, stream)
    ensures var r := RunOff(OFF_FRESH, os, stream);
            Ascending(r.sent, r.offsets, r.n, r.R, stream) && AllAdvance(OFF_FRESH, os, stream)
  {
    OffRunAdvances(OFF_FRESH, os, stream);
  }
}
