/** DDP packets: fragmentation of a payload, and its reassembly at the receiver in any order. */
module Ddp {
  import opened Util

  type Byte = x: int | 0 <= x < 256 witness 0
  type Bytes = seq<Byte>

  const HEADER_LEN: nat := 10
  const FLAGS_VER1: Byte := 0x40
  const FLAGS_PUSH: Byte := 0x01
  const TYPE_RGB24: Byte := 0x0B
  const ID_DISPLAY: Byte := 0x01
  const CHANNELS_PER_PACKET: nat := 1440

  /** Three integer channels, of any size; the encoder keeps their low bytes. */
  datatype Pixel = Pixel(red: int, green: int, blue: int)

  datatype DdpError = LimitTooSmall

  // --- payload and header ------------------------------------------------------------------------

  function Low(x: int): Byte { x % 256 }

  function Channels(pixels: seq<Pixel>): (r: Bytes)
    ensures |r| == 3 * |pixels|
  {
    if pixels == [] then []
    else
      var p := pixels[|pixels| - 1];
      Channels(pixels[..|pixels| - 1]) + [Low(p.red), Low(p.green), Low(p.blue)]
  }

  /** An empty frame is sent as one black pixel. */
  function Payload(pixels: seq<Pixel>): (r: Bytes)
    ensures |r| >= 3 && |r| % 3 == 0
  {
    if pixels == [] then [0, 0, 0] else Channels(pixels)
  }

  function Header(flags: Byte, seq_: Byte, offset: nat, length: nat): (h: Bytes)
    ensures |h| == HEADER_LEN
  {
    [flags, seq_, TYPE_RGB24, ID_DISPLAY,
     Low(offset / 0x100_0000), Low(offset / 0x1_0000), Low(offset / 0x100), Low(offset),
     Low(length / 0x100), Low(length)]
  }

  /** What a receiver reads in a packet. */
  function OffsetField(p: Bytes): nat
    requires |p| >= HEADER_LEN
  {
    (p[4] as int) * 0x100_0000 + (p[5] as int) * 0x1_0000 + (p[6] as int) * 0x100 + (p[7] as int)
  }

  function LengthField(p: Bytes): nat
    requires |p| >= HEADER_LEN
  {
    (p[8] as int) * 0x100 + (p[9] as int)
  }

  /** The header tells the truth exactly when offset and length fit their fields. */
  lemma FieldsReadBackIff(flags: Byte, seq_: Byte, offset: nat, chunk: Bytes)
    ensures var p := Header(flags, seq_, offset, |chunk|) + chunk;
      && (OffsetField(p) == offset <==> offset < 0x1_0000_0000)
      && (LengthField(p) == |chunk| <==> |chunk| < 0x1_0000)
  {
    FourBytes(offset);
    TwoBytes(|chunk|);
  }

  lemma FourBytes(x: nat)
    ensures (Low(x / 0x100_0000) as int) * 0x100_0000 + (Low(x / 0x1_0000) as int) * 0x1_0000
            + (Low(x / 0x100) as int) * 0x100 + (Low(x) as int) == x % 0x1_0000_0000
  {
    var a, b, c := x / 0x100, x / 0x1_0000, x / 0x100_0000;
    assert a / 0x100 == b;
    assert b / 0x100 == c;
    assert c / 0x100 == x / 0x1_0000_0000;
  }

  lemma TwoBytes(x: nat)
    ensures (Low(x / 0x100) as int) * 0x100 + (Low(x) as int) == x % 0x1_0000
  {
    assert x / 0x100 / 0x100 == x / 0x1_0000;
  }

  // --- the sequence number -----------------------------------------------------------------------

  function FirstSeq(sequence: int): Byte { if sequence % 16 == 0 then 1 else sequence % 16 }

  function NextSeq(s: Byte): Byte {
    var next := (s + 1) % 16;
    if next == 0 then 1 else next
  }

  /** The running number of packet k: it cycles through 1 to 15 and never takes 0. */
  function SeqOf(sequence: int, k: nat): Byte { (FirstSeq(sequence) - 1 + k) % 15 + 1 }

  lemma SeqStep(sequence: int, k: nat)
    ensures SeqOf(sequence, 0) == FirstSeq(sequence) && SeqOf(sequence, k + 1) == NextSeq(SeqOf(sequence, k))
  {
    var x := FirstSeq(sequence) - 1 + k;
    NextRemainder(x);
    assert 0 <= FirstSeq(sequence) - 1 < 15;
  }

  lemma NextRemainder(x: nat)
    ensures (x + 1) % 15 == if x % 15 == 14 then 0 else x % 15 + 1
  {
  }

  // --- fragmentation -----------------------------------------------------------------------------

  /** Where packet k starts and ends in a payload. */
  function StartOf(k: nat, limit: nat): nat { k * limit }

  function EndOf(k: nat, limit: nat, total: nat): nat { Min(StartOf(k + 1, limit), total) }

  lemma StartStep(k: nat, limit: nat)
    ensures StartOf(0, limit) == 0 && StartOf(k + 1, limit) == StartOf(k, limit) + limit
  {
  }

  /** How many packets a payload takes. */
  function Count(total: nat, limit: nat): nat
    requires limit > 0
  {
    (total + limit - 1) / limit
  }

  /** Packet k: the k-th stretch of `limit` channels, with PUSH on the last. */
  function PacketAt(payload: Bytes, limit: nat, sequence: int, k: nat): Bytes
    requires StartOf(k, limit) < |payload|
  {
    StartStep(k, limit);
    var start, end := StartOf(k, limit), EndOf(k, limit, |payload|);
    var flags := FLAGS_VER1 + (if end >= |payload| then FLAGS_PUSH else 0);
    Header(flags, SeqOf(sequence, k), start, end - start) + payload[start..end]
  }

  lemma CountIsLast(total: nat, limit: nat, k: nat)
    requires limit > 0
    ensures k < Count(total, limit) <==> StartOf(k, limit) < total
  {
    var q := Count(total, limit);
    assert total + limit - 1 == q * limit + (total + limit - 1) % limit;
    if k < q {
      assert k * limit <= (q - 1) * limit;
    } else {
      assert k * limit >= q * limit;
    }
  }

  lemma PacketUnfolds(payload: Bytes, limit: nat, sequence: int, k: nat)
    requires StartOf(k, limit) < |payload|
    ensures var start := StartOf(k, limit); var end := Min(start + limit, |payload|);
      PacketAt(payload, limit, sequence, k)
      == Header(FLAGS_VER1 + (if end >= |payload| then FLAGS_PUSH else 0), SeqOf(sequence, k), start, end - start)
         + payload[start..end]
  {
    hide Header, SeqOf, StartOf;
    StartStep(k, limit);
  }

  /** The packets of one payload, in order. */
  function Packets(payload: Bytes, limit: nat, sequence: int): (r: seq<Bytes>)
    requires limit > 0
    ensures |r| == Count(|payload|, limit)
    ensures forall k :: 0 <= k < |r| ==> StartOf(k, limit) < |payload| && r[k] == PacketAt(payload, limit, sequence, k)
  {
    assert forall k: nat :: k < Count(|payload|, limit) ==> StartOf(k, limit) < |payload| by {
      forall k: nat | k < Count(|payload|, limit)
        ensures StartOf(k, limit) < |payload|
      {
        CountIsLast(|payload|, limit, k);
      }
    }
    seq(Count(|payload|, limit), k requires 0 <= k < Count(|payload|, limit) => PacketAt(payload, limit, sequence, k))
  }

  /** The fragmentation loop. */
  method Fragment(payload: Bytes, limit: nat, sequence: int) returns (packets: seq<Bytes>)
    requires limit > 0 && |payload| > 0
    ensures packets == Packets(payload, limit, sequence)
  {
    hide Header, SeqOf, NextSeq, Count, StartOf, PacketAt, FirstSeq;
    packets := [];
    var channelCount := |payload|;
    var channelOffset: nat := 0;
    var seq_ := FirstSeq(sequence);
    SeqStep(sequence, 0);
    StartStep(0, limit);
    while channelOffset < channelCount
      invariant channelOffset == Min(StartOf(|packets|, limit), channelCount)
      invariant seq_ == SeqOf(sequence, |packets|)
      invariant forall k :: 0 <= k < |packets| ==>
        StartOf(k, limit) < channelCount && packets[k] == PacketAt(payload, limit, sequence, k)
    {
      ghost var k := |packets|;
      StartStep(k, limit);
      SeqStep(sequence, k);
      PacketUnfolds(payload, limit, sequence, k);
      var nextOffset := Min(channelOffset + limit, channelCount);
      var chunk := payload[channelOffset..nextOffset];
      var isLast := nextOffset >= channelCount;
      var flags: Byte := FLAGS_VER1 + (if isLast then FLAGS_PUSH else 0);
      packets := packets + [Header(flags, seq_, channelOffset, |chunk|) + chunk];
      channelOffset := nextOffset;
      seq_ := NextSeq(seq_);
    }
    CountIsLast(channelCount, limit, |packets|);
    CountIsLast(channelCount, limit, |packets| - 1);
  }

  /** Whole pixels only; a limit below one pixel is refused. */
  method EncodeDdpPackets(pixels: seq<Pixel>, sequence: int, maxChannelsPerPacket: int)
    returns (r: Result<seq<Bytes>, DdpError>)
    ensures r.Ok? <==> maxChannelsPerPacket >= 3
    ensures r.Ok? ==>
      r.value == Packets(Payload(pixels), maxChannelsPerPacket - maxChannelsPerPacket % 3, sequence)
  {
    hide Count, StartOf, PacketAt;
    if maxChannelsPerPacket <= 0 {
      return Err(LimitTooSmall);
    }
    var limit := maxChannelsPerPacket - maxChannelsPerPacket % 3;
    if limit <= 0 {
      return Err(LimitTooSmall);
    }
    var payload := BuildPayload(pixels);
    var packets := Fragment(payload, limit, sequence);
    return Ok(packets);
  }

  /** The payload loop. */
  method BuildPayload(pixels: seq<Pixel>) returns (payload: Bytes)
    ensures payload == Payload(pixels)
  {
    hide Low;
    payload := [];
    for i := 0 to |pixels|
      invariant payload == Channels(pixels[..i])
    {
      assert pixels[..i + 1][..i] == pixels[..i];
      payload := payload + [Low(pixels[i].red), Low(pixels[i].green), Low(pixels[i].blue)];
    }
    assert pixels[..|pixels|] == pixels;
    if |payload| == 0 {
      payload := [0, 0, 0];
    }
  }

  // --- each byte of each packet ------------------------------------------------------------------

  /** Channel c of a list of pixels: red, green and blue of each in turn, reduced to a byte; one black pixel stands for
      none. */
  function ChannelAt(pixels: seq<Pixel>, c: nat): int
    requires c < 3 * Max(1, |pixels|)
  {
    if pixels == [] then 0
    else
      var p := pixels[c / 3];
      (if c % 3 == 0 then p.red else if c % 3 == 1 then p.green else p.blue) % 256
  }

  lemma {:induction false} ChannelsAre(pixels: seq<Pixel>, c: nat)
    requires c < 3 * |pixels|
    ensures Channels(pixels)[c] == ChannelAt(pixels, c)
  {
    var n := |pixels| - 1;
    if c < 3 * n {
      ChannelsAre(pixels[..n], c);
      assert pixels[..n][c / 3] == pixels[c / 3];
    } else {
      assert c / 3 == n;
    }
  }

  lemma PayloadIs(pixels: seq<Pixel>)
    ensures |Payload(pixels)| == 3 * Max(1, |pixels|)
    ensures forall c :: 0 <= c < |Payload(pixels)| ==> Payload(pixels)[c] == ChannelAt(pixels, c)
  {
    hide Channels, ChannelAt;
    forall c | 0 <= c < |Payload(pixels)|
      ensures Payload(pixels)[c] == ChannelAt(pixels, c)
    {
      if pixels == [] {
        NoChannel(pixels, c);
      } else {
        ChannelsAre(pixels, c);
      }
    }
  }

  lemma NoChannel(pixels: seq<Pixel>, c: nat)
    requires pixels == [] && c < 3
    ensures ChannelAt(pixels, c) == 0
  {
  }

  /** The number that bytes write, highest first. */
  function BigEndian(s: Bytes): nat {
    if s == [] then 0 else 0x100 * BigEndian(s[..|s| - 1]) + (s[|s| - 1] as int)
  }

  lemma BigEndianOfFour(s: Bytes)
    requires |s| == 4
    ensures BigEndian(s)
         == (s[0] as int) * 0x100_0000 + (s[1] as int) * 0x1_0000 + (s[2] as int) * 0x100 + (s[3] as int)
  {
    assert s[..3][..2] == s[..2] && s[..2][..1] == s[..1] && s[..1][..0] == [];
    assert BigEndian(s[..1]) == s[0] as int;
    assert BigEndian(s[..2]) == 0x100 * (s[0] as int) + (s[1] as int);
  }

  lemma BigEndianOfTwo(s: Bytes)
    requires |s| == 2
    ensures BigEndian(s) == (s[0] as int) * 0x100 + (s[1] as int)
  {
    assert s[..1][..0] == [];
    assert BigEndian(s[..1]) == s[0] as int;
  }

  /** A packet of `length` channels from `start` on, byte by byte: flags with PUSH on the last packet, number, type and
      destination, offset and length with the highest byte first, and the channels. */
  predicate IsPacket(p: Bytes, pixels: seq<Pixel>, start: nat, length: nat, number: int) {
    var total := 3 * Max(1, |pixels|);
    && start + length <= total && |p| == 10 + length
    && p[0] == (if start + length == total then 0x41 else 0x40) && p[1] as int == number && p[2] == 0x0B && p[3] == 0x01
    && BigEndian(p[4..8]) == start % 0x1_0000_0000 && BigEndian(p[8..10]) == length % 0x1_0000
    && forall c :: start <= c < start + length ==> p[c - start + 10] as int == ChannelAt(pixels, c)
  }

  /** The packets of a frame: each carries the next `limit` channels, the last one what is left; the number starts at
      the frame's own modulo 16, or at 1, and runs through 1 to 15. */
  lemma PacketsAre(pixels: seq<Pixel>, limit: nat, sequence: int, k: nat)
    requires 0 < limit && limit % 3 == 0
    ensures var packets, total := Packets(Payload(pixels), limit, sequence), 3 * Max(1, |pixels|);
      && (k < |packets| <==> k * limit < total)
      && (k < |packets| ==>
            var start, first := k * limit, if sequence % 16 == 0 then 1 else sequence % 16;
            IsPacket(packets[k], pixels, start, if total - start <= limit then total - start else limit,
                     (first - 1 + k) % 15 + 1))
  {
    hide Low, Count, Header, ChannelAt, Payload, PacketAt, BigEndian, IsPacket;
    var payload := Payload(pixels);
    PayloadIs(pixels);
    CountIsLast(|payload|, limit, k);
    if k < Count(|payload|, limit) {
      var start := k * limit;
      var end := Min(start + limit, |payload|);
      PacketUnfolds(payload, limit, sequence, k);
      var flags := FLAGS_VER1 + (if end >= |payload| then FLAGS_PUSH else 0);
      PacketIs(pixels, payload, flags, SeqOf(sequence, k), start, end);
    }
  }

  lemma PacketIs(pixels: seq<Pixel>, payload: Bytes, flags: Byte, seq_: Byte, start: nat, end: nat)
    requires start <= end <= |payload| == 3 * Max(1, |pixels|)
    requires forall c :: 0 <= c < |payload| ==> payload[c] as int == ChannelAt(pixels, c)
    requires flags == if end >= |payload| then 0x41 else 0x40
    ensures IsPacket(Header(flags, seq_, start, end - start) + payload[start..end], pixels, start, end - start, seq_)
  {
    hide Low, Header, ChannelAt, BigEndian;
    HeaderIs(flags, seq_, start, end - start);
    var h := Header(flags, seq_, start, end - start);
    var p := h + payload[start..end];
    assert p[4..8] == h[4..8] && p[8..10] == h[8..10];
    assert forall c :: start <= c < end ==> p[c - start + 10] == payload[c];
  }

  lemma HeaderIs(flags: Byte, seq_: Byte, offset: nat, length: nat)
    ensures var h := Header(flags, seq_, offset, length);
      && |h| == 10 && h[0] == flags && h[1] == seq_ && h[2] == 0x0B && h[3] == 0x01
      && BigEndian(h[4..8]) == offset % 0x1_0000_0000 && BigEndian(h[8..10]) == length % 0x1_0000
  {
    hide Low, BigEndian;
    var h := Header(flags, seq_, offset, length);
    FourBytes(offset);
    TwoBytes(length);
    BigEndianOfFour(h[4..8]);
    BigEndianOfTwo(h[8..10]);
  }

  // --- reassembly --------------------------------------------------------------------------------

  /** What a receiver does with one packet: copy its data to the offset it names; a packet that does not fit is
      ignored. */
  function Apply(buffer: Bytes, p: Bytes): (r: Bytes)
    ensures |r| == |buffer|
  {
    if |p| >= HEADER_LEN && LengthField(p) == |p| - HEADER_LEN && OffsetField(p) + LengthField(p) <= |buffer| then
      buffer[..OffsetField(p)] + p[HEADER_LEN..] + buffer[OffsetField(p) + LengthField(p)..]
    else buffer
  }

  function ApplyAll(buffer: Bytes, packets: seq<Bytes>): (r: Bytes)
    ensures |r| == |buffer|
  {
    if packets == [] then buffer else Apply(ApplyAll(buffer, packets[..|packets| - 1]), packets[|packets| - 1])
  }

  lemma HeaderBytes(flags: Byte, seq_: Byte, offset: nat, chunk: Bytes)
    ensures var p := Header(flags, seq_, offset, |chunk|) + chunk;
      p[0] == flags && p[1] == seq_ && p[HEADER_LEN..] == chunk
  {
    hide Low;
  }

  /** The stretches are contiguous, positive multiples of 3 within the limit, and end with the payload. */
  lemma StretchesPartition(total: nat, limit: nat, k: nat)
    requires 0 < limit && limit % 3 == 0 && total % 3 == 0 && k < Count(total, limit)
    ensures var start, end := StartOf(k, limit), EndOf(k, limit, total);
      && start < end <= total && end - start <= limit && (end - start) % 3 == 0
      && end == (if k + 1 < Count(total, limit) then StartOf(k + 1, limit) else total)
      && (end == total <==> k + 1 == Count(total, limit))
  {
    hide StartOf, Count;
    CountIsLast(total, limit, k);
    CountIsLast(total, limit, k + 1);
    StartStep(k, limit);
    MultipleOfThree(k, limit);
  }

  /** The packets partition the payload: packet k carries the k-th stretch, PUSH stands on the last one alone, and the
      running numbers cycle through 1 to 15. */
  lemma PacketsPartition(payload: Bytes, limit: nat, sequence: int, k: nat)
    requires 0 < limit && limit % 3 == 0 && |payload| % 3 == 0 && k < Count(|payload|, limit)
    ensures var start, end := StartOf(k, limit), EndOf(k, limit, |payload|);
      var p := Packets(payload, limit, sequence)[k];
      && start < end <= |payload| && p[HEADER_LEN..] == payload[start..end]
      && p[0] == FLAGS_VER1 + (if k + 1 == Count(|payload|, limit) then FLAGS_PUSH else 0)
      && p[1] as int == (FirstSeq(sequence) as int - 1 + k) % 15 + 1
  {
    hide StartOf, Count, Header, EndOf, PacketAt;
    StretchesPartition(|payload|, limit, k);
    var start, end := StartOf(k, limit), EndOf(k, limit, |payload|);
    PacketUnfolds(payload, limit, sequence, k);
    assert end == Min(start + limit, |payload|) by { EndIsStep(k, limit, |payload|); }
    var flags := FLAGS_VER1 + (if end >= |payload| then FLAGS_PUSH else 0);
    HeaderBytes(flags, SeqOf(sequence, k), start, payload[start..end]);
  }

  lemma EndIsStep(k: nat, limit: nat, total: nat)
    ensures EndOf(k, limit, total) == Min(StartOf(k, limit) + limit, total)
  {
    hide StartOf;
    StartStep(k, limit);
  }

  lemma {:induction false} MultipleOfThree(k: nat, limit: nat)
    requires limit % 3 == 0
    ensures StartOf(k, limit) % 3 == 0
  {
    hide StartOf;
    StartStep(0, limit);
    if k > 0 {
      MultipleOfThree(k - 1, limit);
      StartStep(k - 1, limit);
    }
  }

  /** A packet whose header tells the truth is copied to its place, if that fits the buffer. */
  lemma ApplyCopies(buffer: Bytes, p: Bytes, offset: nat, chunk: Bytes)
    requires |p| == HEADER_LEN + |chunk| && p[HEADER_LEN..] == chunk
    requires OffsetField(p) == offset && LengthField(p) == |chunk|
    ensures Apply(buffer, p)
         == if offset + |chunk| <= |buffer| then buffer[..offset] + chunk + buffer[offset + |chunk|..] else buffer
  {
    hide OffsetField, LengthField;
  }

  /** Applying one packet fills its own stretch and touches nothing else; a stretch that does not fit is lost. */
  lemma PacketFits(payload: Bytes, limit: nat, sequence: int, k: nat, buffer: Bytes)
    requires 0 < limit <= 0xFFFF && |payload| <= 0x1_0000_0000 && k < Count(|payload|, limit)
    ensures var start, end := StartOf(k, limit), EndOf(k, limit, |payload|);
      && start < end <= |payload|
      && Apply(buffer, Packets(payload, limit, sequence)[k])
         == if end <= |buffer| then buffer[..start] + payload[start..end] + buffer[end..] else buffer
  {
    hide StartOf, Count, OffsetField, LengthField, Header, SeqOf, Apply;
    CountIsLast(|payload|, limit, k);
    StartStep(k, limit);
    PacketUnfolds(payload, limit, sequence, k);
    var start, end := StartOf(k, limit), EndOf(k, limit, |payload|);
    var flags := FLAGS_VER1 + (if end >= |payload| then FLAGS_PUSH else 0);
    var chunk := payload[start..end];
    FieldsReadBackIff(flags, SeqOf(sequence, k), start, chunk);
    HeaderBytes(flags, SeqOf(sequence, k), start, chunk);
    ApplyCopies(buffer, Packets(payload, limit, sequence)[k], start, chunk);
  }

  /** The stretch that holds channel x. */
  function StretchOf(x: nat, limit: nat): nat
    requires limit > 0
  {
    x / limit
  }

  lemma StretchHolds(x: nat, limit: nat, total: nat)
    requires limit > 0 && x < total
    ensures var k := StretchOf(x, limit); k < Count(total, limit) && StartOf(k, limit) <= x < EndOf(k, limit, total)
  {
    var k := StretchOf(x, limit);
    assert x == k * limit + x % limit;
    StartStep(k, limit);
    CountIsLast(total, limit, k);
  }

  lemma OneArrival(payload: Bytes, limit: nat, sequence: int, k: nat, buffer: Bytes, x: nat)
    requires 0 < limit <= 0xFFFF && |payload| <= 0x1_0000_0000 && |buffer| == |payload| && x < |payload|
    requires k < Count(|payload|, limit)
    ensures Apply(buffer, Packets(payload, limit, sequence)[k])[x]
         == if StartOf(k, limit) <= x < EndOf(k, limit, |payload|) then payload[x] else buffer[x]
  {
    hide StartOf, Count, Apply, EndOf, PacketAt, Packets;
    PacketFits(payload, limit, sequence, k, buffer);
  }

  /** After any list of arrivals, every channel whose packet arrived shows the payload. */
  lemma {:induction false} ArrivedChannelsAreRight(
      payload: Bytes, limit: nat, sequence: int, order: seq<nat>, buffer: Bytes, x: nat)
    requires 0 < limit <= 0xFFFF && |payload| <= 0x1_0000_0000 && |buffer| == |payload| && x < |payload|
    requires forall i :: 0 <= i < |order| ==> order[i] < Count(|payload|, limit)
    ensures StretchOf(x, limit) in order ==>
      ApplyAll(buffer, Arrivals(payload, limit, sequence, order))[x] == payload[x]
  {
    hide StartOf, EndOf, Count, Apply, StretchOf, Packets;
    if order != [] {
      var init, k := order[..|order| - 1], order[|order| - 1];
      var arrivals := Arrivals(payload, limit, sequence, order);
      assert arrivals[..|arrivals| - 1] == Arrivals(payload, limit, sequence, init);
      var before := ApplyAll(buffer, Arrivals(payload, limit, sequence, init));
      ArrivedChannelsAreRight(payload, limit, sequence, init, buffer, x);
      OneArrival(payload, limit, sequence, k, before, x);
      StretchHolds(x, limit, |payload|);
    }
  }

  function Arrivals(payload: Bytes, limit: nat, sequence: int, order: seq<nat>): (r: seq<Bytes>)
    requires limit > 0 && forall i :: 0 <= i < |order| ==> order[i] < Count(|payload|, limit)
    ensures |r| == |order|
  {
    seq(|order|, i requires 0 <= i < |order| => Packets(payload, limit, sequence)[order[i]])
  }

  /** Applying the packets in any order, some of them even twice, rebuilds the payload over any old buffer. */
  lemma AnyOrderRebuilds(payload: Bytes, limit: nat, sequence: int, order: seq<nat>, buffer: Bytes)
    requires 0 < limit <= 0xFFFF && |payload| <= 0x1_0000_0000 && |buffer| == |payload|
    requires forall i :: 0 <= i < |order| ==> order[i] < Count(|payload|, limit)
    requires forall k: nat :: k < Count(|payload|, limit) ==> k in order
    ensures ApplyAll(buffer, Arrivals(payload, limit, sequence, order)) == payload
  {
    hide Count, ApplyAll, Arrivals, StretchOf;
    forall x | 0 <= x < |payload|
      ensures ApplyAll(buffer, Arrivals(payload, limit, sequence, order))[x] == payload[x]
    {
      StretchHolds(x, limit, |payload|);
      ArrivedChannelsAreRight(payload, limit, sequence, order, buffer, x);
    }
  }
}
