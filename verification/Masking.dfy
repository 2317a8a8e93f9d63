/**
 White-frame masking (`sgg_RtpAuditAdd` and `sgg_audit_manage`, sgg_audit.cpp): in a stream whose
 total length the audit map counts, the last `len` bytes of every period of `flag[2] * 1024` bytes
 are zeroed, packet by packet.
 */
module Masking {
  import Arithmetic

  type Byte = bv8

  const U64: nat := 0x1_0000_0000_0000_0000
  const U32: nat := 0x1_0000_0000
  const KB: nat := 1024

  // The largest stream position that the proofs cover; nothing below it comes near a wrap.
  const MAX_TOTAL: nat := 0x8000_0000_0000_0000
  const MAX_PACKET: nat := 0x4000_0000

  function Unsigned64(x: int): nat {
    if 0 <= x < U64 then x else if x < 0 <= x + U64 then x + U64 else x % U64
  }

  predicate IsInt32(x: int) { 0 <= x + U32 / 2 < U32 }

  function Signed32(x: int): (r: int)
    ensures IsInt32(r)
  {
    if IsInt32(x) then x else if x % U32 < U32 / 2 then x % U32 else x % U32 - U32
  }

  // ----- What masking means -----

  ghost predicate White(g: nat, period: nat, len: nat)
    requires period > 0
  {
    g % period >= period - len
  }

  // `data` starts at stream position `position`.
  ghost function Whiten(position: nat, data: seq<Byte>, period: nat, len: nat): (r: seq<Byte>)
    requires period > 0
    ensures |r| == |data|
  {
    seq(|data|, i requires 0 <= i < |data| => if White(position + i, period, len) then 0 else data[i])
  }

  // Cutting the stream anywhere changes nothing.
  lemma WhitenConcat(position: nat, a: seq<Byte>, b: seq<Byte>, period: nat, len: nat)
    requires period > 0
    ensures Whiten(position, a + b, period, len)
         == Whiten(position, a, period, len) + Whiten(position + |a|, b, period, len)
  {
    var whole := Whiten(position, a + b, period, len);
    var parts := Whiten(position, a, period, len) + Whiten(position + |a|, b, period, len);
    forall i | 0 <= i < |whole|
      ensures whole[i] == parts[i]
    {
      if i >= |a| {
        assert position + i == (position + |a|) + (i - |a|);
      }
    }
  }

  // The white bytes of the period that starts at `k * period`.
  lemma WhiteIn(g: nat, k: nat, period: nat, len: nat)
    requires len <= period && period > 0 && k * period <= g < k * period + period
    ensures White(g, period, len) <==> g >= k * period + (period - len)
  {
    Arithmetic.Remainder(g, k, period);
  }

  // ----- Where the loop starts -----

  // Where the first white frame that reaches into the packet starts: lines 773-777 with the
  // source's own widths, for a packet that ends at stream position `totalLen`.
  function FirstFrame(totalLen: nat, pktLen: nat, interval: int, len: int): (start: nat) {
    var position := Unsigned64(totalLen - pktLen);
    var period := Unsigned64(interval + len);
    if period == 0 then position
    else Unsigned64(position + (interval - Signed32(position % period)))
  }

  // The first offset into the packet, negative when the frame started in an earlier one. For
  // positive flags the test whether `start` leaves a remainder of `interval` always succeeds.
  function FirstOffset(start: nat, totalLen: nat, pktLen: nat, interval: int, len: int): int {
    var period := Unsigned64(interval + len);
    var offset := if period == 0 then 0 else Signed32(start % period);
    if offset >= interval then Signed32(start - (totalLen - pktLen)) else offset
  }

  // The loop runs at least once. `flag` and `len` are `rtpAuditFlag[2]` and `[3]` as signed bytes.
  predicate Entered(totalLen: nat, pktLen: nat, flag: int, len: int) {
    FirstFrame(totalLen, pktLen, flag * KB - len, len) < totalLen
  }

  predicate SignedByte(x: int) { -128 <= x <= 127 }

  lemma FirstFrameAt(totalLen: nat, pktLen: nat, interval: nat, len: int, base: nat, rest: nat)
    requires pktLen <= totalLen < MAX_TOTAL && 0 < interval + len < MAX_PACKET && interval < MAX_PACKET
    requires totalLen - pktLen == base + rest && (totalLen - pktLen) % (interval + len) == rest < interval + len
    ensures FirstFrame(totalLen, pktLen, interval, len) == base + interval
  {
    assert Signed32(rest) == rest;
  }

  // With a positive interval the first frame is that of the period in which the packet starts.
  lemma StartIs(totalLen: nat, pktLen: nat, period: nat, len: int) returns (k: nat)
    requires pktLen <= totalLen < MAX_TOTAL && KB <= period <= 128 * KB && SignedByte(len)
    ensures k == (totalLen - pktLen) / period
    ensures k * period <= totalLen - pktLen < k * period + period
    ensures FirstFrame(totalLen, pktLen, period - len, len) == k * period + (period - len)
  {
    var position: nat := totalLen - pktLen;
    Arithmetic.PeriodOf(position, period);
    k := position / period;
    FirstFrameAt(totalLen, pktLen, period - len, len, k * period, position % period);
  }

  lemma FirstOffsetIs(start: nat, k: nat, totalLen: nat, pktLen: nat, interval: nat, len: nat)
    requires pktLen <= totalLen && 0 < len && interval + len < MAX_PACKET
    requires start == k * (interval + len) + interval && 0 <= start - (totalLen - pktLen) + (interval + len) < U32 / 2
    ensures FirstOffset(start, totalLen, pktLen, interval, len) == start - (totalLen - pktLen)
  {
    Arithmetic.Remainder(start, k, interval + len);
    assert Signed32(interval) == interval;
  }

  // ----- Flags that are read as negative numbers -----

  // The multiple of 2^32 that is nearest to a stream position.
  function Nearest(position: nat): (m: int)
    ensures IsInt32(position - m) && m % U32 == 0
  {
    position - Signed32(position)
  }

  lemma SmallRemainder(a: nat, b: nat)
    requires a < b
    ensures a % b == a
  {
  }

  // With a negative interval the period wraps to almost 2^64, and the first frame lies just
  // below the nearest multiple of 2^32.
  lemma NegativeStart(totalLen: nat, pktLen: nat, size: nat, len: int)
    requires pktLen <= totalLen < MAX_TOTAL && KB <= size < MAX_PACKET && SignedByte(len)
    ensures var m := Nearest(totalLen - pktLen);
            FirstFrame(totalLen, pktLen, 0 - size - len, len) == if m <= 0 then U64 - size - len else m - size - len
  {
    var position: nat := totalLen - pktLen;
    SmallRemainder(position, U64 - size);
    NearestBounds(position);
  }

  lemma NearestBounds(position: nat)
    ensures Nearest(position) >= 0
    ensures Nearest(position) == 0 <==> position < U32 / 2
    ensures Nearest(position) > 0 ==> Nearest(position) >= U32
  {
  }

  // The packet at `position` with `n` bytes lies before the frame that the loop would start with.
  predicate Spares(flag: int, len: int, position: nat, n: nat)
    requires flag != 0
  {
    if flag > 0 then position + n <= position / (flag * KB) * (flag * KB) + (flag * KB - len)
    else Nearest(position) <= 0 || position + n <= Nearest(position) - (-flag * KB) - len
  }

  // A flag of 128 or more is read as negative. The loop then leaves a packet alone exactly when
  // the packet ends before the first frame.
  lemma SparesIsExact(totalLen: nat, pktLen: nat, flag: int, len: int)
    requires pktLen <= totalLen < MAX_TOTAL && SignedByte(flag) && SignedByte(len) && flag != 0
    ensures Entered(totalLen, pktLen, flag, len) <==> !Spares(flag, len, totalLen - pktLen, pktLen)
  {
    if flag > 0 {
      var k := StartIs(totalLen, pktLen, flag * KB, len);
    } else {
      NegativeStart(totalLen, pktLen, -flag * KB, len);
    }
  }

  // A frame length of 255 at an interval of 1 KB, and a packet of 2000 bytes.
  lemma LongFrameExample()
    ensures Entered(2000, 2000, 1, -1)
    ensures !Entered(1025, 1025, 1, -1) && !Entered(2000, 975, 1, -1)
  {
    SparesIsExact(2000, 2000, 1, -1);
    SparesIsExact(1025, 1025, 1, -1);
    SparesIsExact(2000, 975, 1, -1);
  }

  // An interval of 128 KB does nothing before position 2^31, but not for ever.
  lemma LargeIntervalExample(totalLen: nat, pktLen: nat)
    requires pktLen <= totalLen
    ensures totalLen <= U32 / 2 && pktLen > 0 ==> !Entered(totalLen, pktLen, -128, 1)
    ensures Entered(U32 - 131083 + 100, 100, -128, 1)
  {
    if totalLen <= U32 / 2 && pktLen > 0 {
      NearestBounds(totalLen - pktLen);
      SparesIsExact(totalLen, pktLen, -128, 1);
    }
    SparesIsExact(U32 - 131083 + 100, 100, -128, 1);
  }

  // ----- The masking loop -----

  // What of a packet is masked once every frame below `upto` is.
  ghost predicate MaskedBelow(now: seq<Byte>, was: seq<Byte>, position: nat, upto: nat, period: nat, len: nat)
    requires period > 0
  {
    && |now| == |was|
    && forall i :: 0 <= i < |now| ==>
         now[i] == if position + i < upto && White(position + i, period, len) then 0 else was[i]
  }

  // Before the first frame that can reach into the packet, nothing is to be masked.
  lemma NothingBefore(was: seq<Byte>, position: nat, k: nat, period: nat, len: nat)
    requires period > len && k * period <= position < k * period + period
    ensures MaskedBelow(was, was, position, k * period + (period - len), period, len)
  {
    var start := k * period + (period - len);
    forall i | 0 <= i < |was|
      ensures was[i] == if position + i < start && White(position + i, period, len) then 0 else was[i]
    {
      if position + i < start {
        WhiteIn(position + i, k, period, len);
      }
    }
  }

  lemma AllMasked(now: seq<Byte>, was: seq<Byte>, position: nat, upto: nat, period: nat, len: nat)
    requires period > 0 && MaskedBelow(now, was, position, upto, period, len) && position + |now| <= upto
    ensures now == Whiten(position, was, period, len)
  {
  }

  // Zeroing one frame leaves everything masked up to the next one.
  lemma OneFrame(before: seq<Byte>, now: seq<Byte>, was: seq<Byte>, position: nat, k: nat, period: nat, len: nat)
    requires period > len
    requires MaskedBelow(before, was, position, k * period + (period - len), period, len) && |now| == |before|
    requires forall i :: 0 <= i < |now| ==>
      now[i] == if k * period + (period - len) <= position + i < k * period + period then 0 else before[i]
    ensures MaskedBelow(now, was, position, (k + 1) * period + (period - len), period, len)
  {
    var start := k * period + (period - len);
    assert (k + 1) * period == k * period + period;
    forall i | 0 <= i < |now|
      ensures now[i] == if position + i < (k + 1) * period + (period - len) && White(position + i, period, len)
                        then 0 else was[i]
    {
      var g := position + i;
      if start <= g < k * period + period {
        WhiteIn(g, k, period, len);
      } else if k * period + period <= g < (k + 1) * period + (period - len) {
        WhiteIn(g, k + 1, period, len);
      }
    }
  }

  method Zero(buf: array<Byte>, from: nat, count: nat)
    requires from + count <= buf.Length
    modifies buf
    ensures forall i :: 0 <= i < buf.Length ==> buf[i] == if from <= i < from + count then 0 else old(buf[i])
  {
    forall i | from <= i < from + count {
      buf[i] := 0;
    }
  }

  // How many bytes one turn of the loop zeroes.
  function NullLen(totalLen: nat, start: nat, offset: int, len: int): int {
    (if Unsigned64(start + len) > totalLen then totalLen - start else len) + if offset < 0 then offset else 0
  }

  // One turn of the loop. A negative count has no meaning for `bzero`: then `ok` is false, and
  // nothing is said about the buffer.
  method Turn(buf: array<Byte>, totalLen: nat, start0: nat, offset0: int, interval: int, len: int)
    returns (ok: bool, start: nat, offset: int)
    requires buf.Length <= totalLen < MAX_TOTAL && start0 < totalLen && SignedByte(len) && len != 0 && 0 <= start0 + len
    requires len > 0 ==> offset0 <= start0 - (totalLen - buf.Length)
    modifies buf
    ensures ok <==> NullLen(totalLen, start0, offset0, len) >= 0
    ensures ok ==> len > 0 && start == Unsigned64(start0 + (interval + len))
    ensures ok ==> offset == interval + NullLen(totalLen, start0, offset0, len) + if offset0 < 0 then 0 else offset0
    ensures !ok ==> start == start0
    ensures ok && offset0 == start0 - (totalLen - buf.Length) ==> forall i :: 0 <= i < buf.Length ==>
      buf[i] == if start0 <= totalLen - buf.Length + i < start0 + len then 0 else old(buf[i])
  {
    start, offset := start0, offset0;
    var nullLen := if Unsigned64(start + len) > totalLen then totalLen - start else len;
    if offset < 0 {
      nullLen := nullLen + offset;
      offset := 0;
    }
    if nullLen < 0 {
      return false, start, offset;
    }
    Zero(buf, offset, nullLen);
    start := Unsigned64(start + (interval + len));
    offset := offset + (interval + nullLen);
    ok := true;
  }

  // The loop, from the first frame at `start = k * period + (period - len)`.
  method MaskFrom(buf: array<Byte>, totalLen: nat, len: nat, period: nat, start0: nat, offset0: int, ghost k0: nat)
    requires 0 < len < period < MAX_PACKET && len <= 127 && buf.Length <= totalLen < MAX_TOTAL
    requires start0 == k0 * period + (period - len) && offset0 == start0 - (totalLen - buf.Length)
    requires k0 * period <= totalLen - buf.Length < k0 * period + period
    modifies buf
    ensures buf[..] == Whiten(totalLen - buf.Length, old(buf[..]), period, len)
  {
    var start, offset := start0, offset0;
    ghost var k, was, position := k0, buf[..], totalLen - buf.Length;
    NothingBefore(was, position, k, period, len);
    while start < totalLen
      invariant start == k * period + (period - len) && k * period + period > position
      invariant start < totalLen ==> offset == start - position
      invariant MaskedBelow(buf[..], was, position, start, period, len)
      decreases totalLen - start
    {
      ghost var before := buf[..];
      var ok;
      ok, start, offset := Turn(buf, totalLen, start, offset, period - len, len);
      OneFrame(before, buf[..], was, position, k, period, len);
      k := k + 1;
    }
    AllMasked(buf[..], was, position, start, period, len);
  }

  // The loop's `start` and `offset` after `k` turns.
  ghost function Looped(totalLen: nat, start: nat, offset: int, interval: int, len: int, k: nat): (nat, int) {
    if k == 0 then (start, offset)
    else
      var (s, o) := Looped(totalLen, start, offset, interval, len, k - 1);
      (Unsigned64(s + (interval + len)), (if o < 0 then 0 else o) + (interval + NullLen(totalLen, s, o, len)))
  }

  // The count of the loop's next turn after `k` turns, if there is one.
  ghost predicate Turns(totalLen: nat, start: nat, offset: int, interval: int, len: int, k: nat, negative: bool) {
    var (s, o) := Looped(totalLen, start, offset, interval, len, k);
    s < totalLen && (NullLen(totalLen, s, o, len) < 0 <==> negative)
  }

  // After some turns with proper counts the loop makes one with a negative count.
  ghost predicate ComesToNegative(totalLen: nat, start: nat, offset: int, interval: int, len: int) {
    exists k: nat :: Turns(totalLen, start, offset, interval, len, k, true)
                     && forall j: nat :: j < k ==> Turns(totalLen, start, offset, interval, len, j, false)
  }

  // The loop comes to a negative count, or its start is beyond 32 bits.
  ghost predicate Misreads(totalLen: nat, pktLen: nat, interval: int, len: int)
    requires pktLen <= totalLen && Unsigned64(interval + len) != 0
  {
    var start := FirstFrame(totalLen, pktLen, interval, len);
    || !IsInt32(interval - Signed32((totalLen - pktLen) % Unsigned64(interval + len)))
    || ComesToNegative(totalLen, start, FirstOffset(start, totalLen, pktLen, interval, len), interval, len)
  }

  // The same loop when a flag is read as negative: once entered, it comes to a negative count.
  // So it does when `interval - offset` is beyond 32 bits, which C leaves undefined.
  method RunMisread(buf: array<Byte>, totalLen: nat, len: int, flag: int) returns (ok: bool)
    requires SignedByte(len) && SignedByte(flag) && len != 0 && flag != 0 && (len < 0 || flag < 0)
    requires buf.Length <= totalLen < MAX_TOTAL && buf.Length < MAX_PACKET
    modifies buf
    ensures ok <==> !Entered(totalLen, buf.Length, flag, len)
    ensures ok ==> buf[..] == old(buf[..])
    ensures !ok ==> Misreads(totalLen, buf.Length, flag * KB - len, len)
  {
    var interval := flag * KB - len;
    var start := FirstFrame(totalLen, buf.Length, interval, len);
    if start >= totalLen {
      return true;
    }
    var rest := Signed32((totalLen - buf.Length) % Unsigned64(interval + len));
    if !IsInt32(interval - rest) {
      return false;
    }
    var offset := FirstOffset(start, totalLen, buf.Length, interval, len);
    MisreadStart(totalLen, buf.Length, flag, interval, len);
    ok := RunToNegative(buf, totalLen, start, offset, interval, len);
  }

  method RunToNegative(buf: array<Byte>, totalLen: nat, start0: nat, offset0: int, interval: int, len: int)
    returns (ok: bool)
    requires buf.Length <= totalLen < MAX_TOTAL && start0 < totalLen && SignedByte(len) && len != 0 && 0 <= start0 + len
    requires len > 0 ==> offset0 == start0 - (totalLen - buf.Length) && totalLen - buf.Length >= U32 / 2
    requires len > 0 ==> -0x2_0000 <= interval + len <= -0x400
    modifies buf
    ensures !ok && ComesToNegative(totalLen, start0, offset0, interval, len)
  {
    var start: nat, offset := start0, offset0;
    ghost var k: nat := 0;
    ok := true;
    while ok && start < totalLen
      invariant start < totalLen && (ok ==> 0 <= start + len)
      invariant ok ==> Looped(totalLen, start0, offset0, interval, len, k) == (start, offset)
      invariant forall j: nat :: j < k ==> Turns(totalLen, start0, offset0, interval, len, j, false)
      invariant !ok ==> Turns(totalLen, start0, offset0, interval, len, k, true)
      invariant ok && len > 0 ==> offset <= start - (totalLen - buf.Length) <= offset + len
      invariant ok && len > 0 ==> offset == start - (totalLen - buf.Length) || start + len <= totalLen
      decreases if ok then start + 1 else 0
    {
      ok, start, offset := Turn(buf, totalLen, start, offset, interval, len);
      k := if ok then k + 1 else k;
    }
  }

  lemma MisreadStart(totalLen: nat, pktLen: nat, flag: int, interval: int, len: int)
    requires SignedByte(len) && SignedByte(flag) && len != 0 && flag != 0 && (len < 0 || flag < 0)
    requires pktLen <= totalLen < MAX_TOTAL && interval == flag * KB - len && Entered(totalLen, pktLen, flag, len)
    requires Unsigned64(interval + len) != 0
    requires IsInt32(interval - Signed32((totalLen - pktLen) % Unsigned64(interval + len)))
    ensures len > 0 ==> -0x2_0000 <= interval + len <= -0x400
    ensures var start := FirstFrame(totalLen, pktLen, interval, len);
            && 0 <= start + len
            && (len > 0 ==>
                  && totalLen - pktLen >= U32 / 2
                  && FirstOffset(start, totalLen, pktLen, interval, len) == start - (totalLen - pktLen))
  {
    assert interval + len == flag * KB;
    if flag > 0 {
      var k := StartIs(totalLen, pktLen, flag * KB, len);
    } else {
      NegativeEntered(totalLen, pktLen, -flag * KB, len);
    }
  }

  lemma NegativeEntered(totalLen: nat, pktLen: nat, size: nat, len: int)
    requires SignedByte(len) && len != 0 && KB <= size <= 128 * KB && pktLen <= totalLen < MAX_TOTAL
    requires FirstFrame(totalLen, pktLen, 0 - size - len, len) < totalLen
    requires IsInt32(0 - size - len - Signed32((totalLen - pktLen) % Unsigned64(0 - size)))
    ensures var start := FirstFrame(totalLen, pktLen, 0 - size - len, len);
            && 0 <= start + len
            && (len > 0 ==> totalLen - pktLen >= U32 / 2
                            && FirstOffset(start, totalLen, pktLen, 0 - size - len, len) == start - (totalLen - pktLen))
  {
    NegativeStart(totalLen, pktLen, size, len);
    NearestBounds(totalLen - pktLen);
    if len > 0 {
      SmallRemainder(totalLen - pktLen, U64 - size);
      MisreadOffset(totalLen, pktLen, size, len);
    }
  }

  lemma MisreadOffset(totalLen: nat, pktLen: nat, size: nat, len: nat)
    requires 0 < len <= 127 && KB <= size <= 128 * KB && pktLen <= totalLen < MAX_TOTAL
    requires var m := Nearest(totalLen - pktLen); m >= U32 && IsInt32(m - size - len - (totalLen - pktLen))
    ensures var start := Nearest(totalLen - pktLen) - size - len;
            FirstOffset(start, totalLen, pktLen, 0 - size - len, len) == start - (totalLen - pktLen)
  {
    var m := Nearest(totalLen - pktLen);
    var start: nat := m - size - len;
    SmallRemainder(start, U64 - size);
    Arithmetic.PeriodOf(m, U32);
    Arithmetic.Remainder(start, m / U32 - 1, U32);
    assert Signed32(start) == 0 - size - len;
  }

  // Lines 771-795. `totalLen` counts this packet already; it is 0 when the audit is off.
  method InsertWhiteFrames(buf: array<Byte>, totalLen: nat, len: int, flag: int) returns (ok: bool)
    requires SignedByte(len) && SignedByte(flag) && len != 0 && flag != 0 && buf.Length < MAX_PACKET
    requires totalLen == 0 || buf.Length <= totalLen < MAX_TOTAL
    modifies buf
    ensures ok <==> totalLen == 0 || (flag > 0 && len > 0) || !Entered(totalLen, buf.Length, flag, len)
    ensures ok ==> buf[..] == if totalLen > 0 && flag > 0 && len > 0
                              then Whiten(totalLen - buf.Length, old(buf[..]), flag * KB, len) else old(buf[..])
  {
    if totalLen == 0 {
      return true;
    }
    if flag < 0 || len < 0 {
      ok := RunMisread(buf, totalLen, len, flag);
      return;
    }
    ok := true;
    var interval := flag * KB - len;
    var start := FirstFrame(totalLen, buf.Length, interval, len);
    ghost var position: nat := totalLen - buf.Length;
    ghost var k := StartIs(totalLen, buf.Length, flag * KB, len);
    if start < totalLen {
      var offset := FirstOffset(start, totalLen, buf.Length, interval, len);
      FirstOffsetIs(start, k, totalLen, buf.Length, interval, len);
      MaskFrom(buf, totalLen, len, flag * KB, start, offset, k);
    } else {
      NothingBefore(buf[..], position, k, flag * KB, len);
      AllMasked(buf[..], buf[..], position, start, flag * KB, len);
    }
  }

  // ----- The audit map -----

  datatype Pkt5Tuple = Pkt5Tuple(srcIP: nat, srcPort: nat, dstIP: nat, dstPort: nat, protocol: nat)

  // `operator <` of the map's keys.
  predicate Less(a: Pkt5Tuple, b: Pkt5Tuple) {
    if a.srcIP < b.srcIP then true
    else if a.srcIP == b.srcIP then a.srcPort < b.srcPort
    else false
  }

  // The map takes two keys for the same if neither is less than the other.
  predicate Equivalent(a: Pkt5Tuple, b: Pkt5Tuple) { !Less(a, b) && !Less(b, a) }

  // So it looks at the source only, and cannot tell other tuples apart.
  datatype Flow = Flow(ip: nat, port: nat)

  function FlowOf(key: Pkt5Tuple): Flow { Flow(key.srcIP, key.srcPort) }

  predicate SameSource(a: Pkt5Tuple, b: Pkt5Tuple) { a.srcIP == b.srcIP && a.srcPort == b.srcPort }

  lemma FlowsAreSources(a: Pkt5Tuple, b: Pkt5Tuple)
    ensures !(Less(a, b) && Less(b, a))
    ensures FlowOf(a) == FlowOf(b) <==> Equivalent(a, b)
    ensures Equivalent(a, b) <==> SameSource(a, b)
  {
  }

  datatype Node = Node(pktInfo: Pkt5Tuple, pktStat: nat)

  // `rtpAuditFlag[0..3]`, each as the signed `char` it is.
  datatype Flags = Flags(bits: int, insert: int, interval: int, len: int) {
    predicate Valid() { SignedByte(bits) && SignedByte(insert) && SignedByte(interval) && SignedByte(len) }

    predicate Audits() { bits % 2 == 1 }

    predicate Inserts() { insert == 1 && interval != 0 && len != 0 }

    predicate Masks() { Audits() && Inserts() && interval > 0 && len > 0 }

    predicate Misread() { Audits() && Inserts() && (interval < 0 || len < 0) }
  }

  type Totals = map<Flow, nat>

  function Total(totals: Totals, f: Flow): nat { if f in totals then totals[f] else 0 }

  function Counted(totals: Totals, flags: Flags, key: Pkt5Tuple, n: nat): Totals {
    if flags.Audits() then totals[FlowOf(key) := Total(totals, FlowOf(key)) + n] else totals
  }

  ghost function Sent(totals: Totals, flags: Flags, key: Pkt5Tuple, data: seq<Byte>): (r: seq<Byte>)
    ensures |r| == |data|
  {
    if flags.Masks() then Whiten(Total(totals, FlowOf(key)), data, flags.interval * KB, flags.len) else data
  }

  // The source handles a packet of `n` bytes without asking for a negative count of zeros.
  predicate Handles(totals: Totals, flags: Flags, key: Pkt5Tuple, n: nat) {
    flags.Misread() ==> !Entered(Total(totals, FlowOf(key)) + n, n, flags.interval, flags.len)
  }

  // The lengths that the proofs cover.
  predicate Fits(totals: Totals, key: Pkt5Tuple, n: nat) {
    n < MAX_PACKET && Total(totals, FlowOf(key)) + n < MAX_TOTAL
  }

  ghost function TotalsOf(nodes: map<Flow, Node>): Totals {
    map f | f in nodes :: nodes[f].pktStat
  }

  class AuditManager {
    var auditNodes: map<Flow, Node>

    ghost function Totals(): Totals
      reads this
    {
      TotalsOf(auditNodes)
    }

    // What the map has counted for a key.
    ghost function TotalFor(key: Pkt5Tuple): nat
      reads this
    {
      Total(Totals(), FlowOf(key))
    }

    constructor ()
      ensures Totals() == map[]
    {
      auditNodes := map[];
    }

    method Add(key: Pkt5Tuple, pktLen: nat) returns (totalLen: nat)
      requires Fits(Totals(), key, pktLen)
      modifies this
      ensures totalLen == old(Total(Totals(), FlowOf(key))) + pktLen
      ensures Totals() == old(Totals())[FlowOf(key) := totalLen]
      ensures forall k: Pkt5Tuple ::
                TotalFor(k) == old(TotalFor(k)) + (if SameSource(k, key) then pktLen else 0)
      ensures FlowOf(key) in auditNodes
      ensures auditNodes[FlowOf(key)].pktInfo
           == if FlowOf(key) in old(auditNodes) then old(auditNodes)[FlowOf(key)].pktInfo else key
    {
      var f := FlowOf(key);
      if f in auditNodes {
        totalLen := Unsigned64(auditNodes[f].pktStat + pktLen);
        auditNodes := auditNodes[f := Node(auditNodes[f].pktInfo, totalLen)];
      } else {
        totalLen := pktLen;
        auditNodes := auditNodes[f := Node(key, pktLen)];
      }
    }

    method Rmv(key: Pkt5Tuple) returns (found: bool)
      modifies this
      ensures found == (FlowOf(key) in old(auditNodes))
      ensures Totals() == old(Totals()) - {FlowOf(key)}
      ensures forall k: Pkt5Tuple :: TotalFor(k) == if SameSource(k, key) then 0 else old(TotalFor(k))
    {
      found := FlowOf(key) in auditNodes;
      auditNodes := auditNodes - {FlowOf(key)};
    }

    // `ok` is false when the loop comes to a negative count; nothing is said of the packet then.
    method RtpAuditAdd(key: Pkt5Tuple, pktBuff: array<Byte>, flags: Flags) returns (ok: bool)
      requires flags.Valid() && Fits(Totals(), key, pktBuff.Length)
      modifies this, pktBuff
      ensures Totals() == old(Counted(Totals(), flags, key, pktBuff.Length))
      ensures ok == old(Handles(Totals(), flags, key, pktBuff.Length))
      ensures ok ==> pktBuff[..] == old(Sent(Totals(), flags, key, pktBuff[..]))
    {
      var totalLen := 0;
      ok := true;
      if flags.bits != 0 || flags.insert == 1 {
        if flags.bits % 2 == 1 {
          totalLen := Add(key, pktBuff.Length);
        }
        if flags.insert == 1 && flags.interval != 0 && flags.len != 0 {
          NothingInNothing(flags.interval, flags.len);
          ok := InsertWhiteFrames(pktBuff, totalLen, flags.len, flags.interval);
        }
      }
    }
  }

  // An empty packet at the start of a stream is never touched.
  lemma NothingInNothing(flag: int, len: int)
    ensures !Entered(0, 0, flag, len)
  {
  }

  // ----- Every run -----

  datatype Event = Packet(key: Pkt5Tuple, data: seq<Byte>) | Remove(key: Pkt5Tuple)

  function After(totals: Totals, flags: Flags, e: Event): Totals {
    match e
    case Packet(key, data) => Counted(totals, flags, key, |data|)
    case Remove(key) => totals - {FlowOf(key)}
  }

  // A packet from the source of the flow.
  predicate Of(e: Event, f: Flow) { e.Packet? && e.key.srcIP == f.ip && e.key.srcPort == f.port }

  // One flow's bytes as they arrive, and as they are sent on.
  function Arrived(events: seq<Event>, f: Flow): seq<Byte>
    decreases |events|
  {
    if events == [] then []
    else (if Of(events[0], f) then events[0].data else []) + Arrived(events[1..], f)
  }

  ghost function SentOn(totals: Totals, flags: Flags, events: seq<Event>, f: Flow): seq<Byte>
    decreases |events|
  {
    if events == [] then []
    else
      (if Of(events[0], f) then Sent(totals, flags, events[0].key, events[0].data) else [])
      + SentOn(After(totals, flags, events[0]), flags, events[1..], f)
  }

  // Every call of the run meets what `RtpAuditAdd` asks for.
  ghost predicate Bounded(totals: Totals, flags: Flags, events: seq<Event>)
    decreases |events|
  {
    && flags.Valid()
    && (events == []
        || ((events[0].Packet? ==> Fits(totals, events[0].key, |events[0].data|))
            && Bounded(After(totals, flags, events[0]), flags, events[1..])))
  }

  // `RtpAuditAdd` handles every packet of the flow, so `SentOn` is what the source sends on.
  ghost predicate Handled(totals: Totals, flags: Flags, events: seq<Event>, f: Flow)
    decreases |events|
  {
    events == []
    || ((Of(events[0], f) ==> Handles(totals, flags, events[0].key, |events[0].data|))
        && Handled(After(totals, flags, events[0]), flags, events[1..], f))
  }

  // Every packet of the flow ends before the frame with which its loop would start.
  ghost predicate AllSpared(totals: Totals, flags: Flags, events: seq<Event>, f: Flow)
    requires flags.interval != 0
    decreases |events|
  {
    events == []
    || ((Of(events[0], f) ==> Spares(flags.interval, flags.len, Total(totals, f), |events[0].data|))
        && AllSpared(After(totals, flags, events[0]), flags, events[1..], f))
  }

  ghost predicate Keeps(events: seq<Event>, f: Flow) {
    forall e :: e in events && e.Remove? ==> e.key.srcIP != f.ip || e.key.srcPort != f.port
  }

  // However a flow's stream is cut into packets, and whatever other flows do in between, what is
  // sent on is the stream itself with exactly its white bytes zeroed.
  lemma {:induction false} StreamIsWhitened(totals: Totals, flags: Flags, events: seq<Event>, f: Flow)
    requires flags.Masks() && Keeps(events, f) && Bounded(totals, flags, events)
    ensures Handled(totals, flags, events, f)
    ensures SentOn(totals, flags, events, f)
         == Whiten(Total(totals, f), Arrived(events, f), flags.interval * KB, flags.len)
    decreases |events|
  {
    if events == [] {
    } else {
      assert Keeps(events[1..], f);
      StreamIsWhitened(After(totals, flags, events[0]), flags, events[1..], f);
      if Of(events[0], f) {
        OwnPacket(totals, flags, events, f);
      } else {
        OtherEvent(totals, flags, events, f);
      }
    }
  }

  ghost predicate Whitened(totals: Totals, flags: Flags, events: seq<Event>, f: Flow)
    requires flags.Masks()
  {
    SentOn(totals, flags, events, f) == Whiten(Total(totals, f), Arrived(events, f), flags.interval * KB, flags.len)
  }

  lemma OwnPacket(totals: Totals, flags: Flags, events: seq<Event>, f: Flow)
    requires flags.Masks() && events != [] && Of(events[0], f)
    requires Whitened(After(totals, flags, events[0]), flags, events[1..], f)
    ensures Whitened(totals, flags, events, f)
  {
    WhitenConcat(Total(totals, f), events[0].data, Arrived(events[1..], f), flags.interval * KB, flags.len);
  }

  lemma OtherEvent(totals: Totals, flags: Flags, events: seq<Event>, f: Flow)
    requires flags.Masks() && events != []
    requires events[0].key.srcIP != f.ip || events[0].key.srcPort != f.port
    requires Whitened(After(totals, flags, events[0]), flags, events[1..], f)
    ensures Whitened(totals, flags, events, f)
  {
    assert Total(After(totals, flags, events[0]), f) == Total(totals, f);
    assert Arrived(events, f) == [] + Arrived(events[1..], f) == Arrived(events[1..], f);
    assert SentOn(totals, flags, events, f) == [] + SentOn(After(totals, flags, events[0]), flags, events[1..], f);
  }

  lemma HandledIfSpared(totals: Totals, flags: Flags, e: Event, f: Flow)
    requires flags.Misread() && flags.Valid() && Of(e, f) && Fits(totals, e.key, |e.data|)
    ensures Handles(totals, flags, e.key, |e.data|)
            <==> Spares(flags.interval, flags.len, Total(totals, f), |e.data|)
  {
    SparesIsExact(Total(totals, f) + |e.data|, |e.data|, flags.interval, flags.len);
  }

  // Without the audit bit or the insert flag every byte passes unchanged. With a flag that is
  // read as negative so it does exactly when every packet ends before the loop's first frame;
  // otherwise the source asks for a negative count of zeros.
  lemma {:induction false} OtherwiseNothingChanges(totals: Totals, flags: Flags, events: seq<Event>, f: Flow)
    requires !flags.Masks() && Bounded(totals, flags, events)
    ensures SentOn(totals, flags, events, f) == Arrived(events, f)
    ensures !flags.Misread() ==> Handled(totals, flags, events, f)
    ensures flags.Misread() ==> (Handled(totals, flags, events, f) <==> AllSpared(totals, flags, events, f))
    decreases |events|
  {
    if events == [] {
    } else {
      OtherwiseNothingChanges(After(totals, flags, events[0]), flags, events[1..], f);
      if flags.Misread() && Of(events[0], f) {
        HandledIfSpared(totals, flags, events[0], f);
      }
    }
  }

  // The output of a flow depends on its bytes only, not on how they are cut into packets, from a
  // removal of its source on and as long as the source handles both runs.
  lemma PacketisationDoesNotMatter(a: seq<Event>, b: seq<Event>, from: Totals, key: Pkt5Tuple, flags: Flags)
    requires var removed, f := After(from, flags, Remove(key)), Flow(key.srcIP, key.srcPort);
             && Bounded(removed, flags, a) && Handled(removed, flags, a, f)
             && Bounded(map[], flags, b) && Handled(map[], flags, b, f)
             && Keeps(a, f) && Keeps(b, f) && Arrived(a, f) == Arrived(b, f)
    ensures var removed, f := After(from, flags, Remove(key)), Flow(key.srcIP, key.srcPort);
            SentOn(removed, flags, a, f) == SentOn(map[], flags, b, f)
  {
    var removed, f := After(from, flags, Remove(key)), Flow(key.srcIP, key.srcPort);
    if flags.Masks() {
      StreamIsWhitened(removed, flags, a, f);
      StreamIsWhitened(map[], flags, b, f);
    } else {
      OtherwiseNothingChanges(removed, flags, a, f);
      OtherwiseNothingChanges(map[], flags, b, f);
    }
  }
}
