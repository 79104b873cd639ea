/** Big-endian fields, pixel payloads and checksums of the UDP datagrams. The CRC-32 is a parameter. */
module Fields {
  import opened Util
  import opened Ddp

  const CRC_LENGTH: nat := 4
  const MAX_UDP_PAYLOAD: nat := 65507
  const MAX_UINT64: int := 0xFFFF_FFFF_FFFF_FFFF
  const TWO_32: int := 0x1_0000_0000

  type Crc = Bytes -> int

  predicate ByteChannel(x: int) { 0 <= x <= 0xFF }

  predicate ByteChannels(pixels: seq<Pixel>) {
    forall p <- pixels :: ByteChannel(p.red) && ByteChannel(p.green) && ByteChannel(p.blue)
  }

  /** The channels of all pixels in order; a channel that is no byte raises. */
  method PixelsToPayload(pixels: seq<Pixel>) returns (r: Option<Bytes>)
    ensures r == if ByteChannels(pixels) then Some(Channels(pixels)) else None
  {
    var payload: Bytes := [];
    for k := 0 to |pixels|
      invariant ByteChannels(pixels[..k]) && payload == Channels(pixels[..k])
    {
      var p := pixels[k];
      assert pixels[..k + 1][..k] == pixels[..k];
      if !(ByteChannel(p.red) && ByteChannel(p.green) && ByteChannel(p.blue)) {
        assert p in pixels;
        return None;
      }
      payload := payload + [p.red, p.green, p.blue];
    }
    assert pixels[..|pixels|] == pixels;
    return Some(payload);
  }

  // --- fields ------------------------------------------------------------------------------------

  function Be16(x: int): (r: Bytes)
    ensures |r| == 2
  {
    [Low(x / 0x100), Low(x)]
  }

  function Be32(x: int): (r: Bytes)
    ensures |r| == 4
  {
    [Low(x / 0x100_0000), Low(x / 0x1_0000), Low(x / 0x100), Low(x)]
  }

  function From16(d: Bytes): int
    requires |d| == 2
  {
    (d[0] as int) * 0x100 + (d[1] as int)
  }

  function From32(d: Bytes): int
    requires |d| == 4
  {
    (d[0] as int) * 0x100_0000 + (d[1] as int) * 0x1_0000 + (d[2] as int) * 0x100 + (d[3] as int)
  }

  lemma Field16ReadsBack(x: int)
    requires 0 <= x <= 0xFFFF
    ensures From16(Be16(x)) == x
  {
  }

  lemma Field32ReadsBack(x: int)
    requires 0 <= x < TWO_32
    ensures From32(Be32(x)) == x
  {
    hide Low;
    FourBytes(x);
    assert x % TWO_32 == x;
  }

  lemma Field16WritesBack(d: Bytes)
    requires |d| == 2
    ensures Be16(From16(d)) == d && 0 <= From16(d) <= 0xFFFF
  {
  }

  lemma Field32WritesBack(d: Bytes)
    requires |d| == 4
    ensures Be32(From32(d)) == d && 0 <= From32(d) < TWO_32
  {
    var a, b, c, e := d[0] as int, d[1] as int, d[2] as int, d[3] as int;
    LastDigit(a * 0x1_0000 + b * 0x100 + c, e);
    LastDigit(a * 0x100 + b, c);
    LastDigit(a, b);
    var x := From32(d);
    assert x / 0x1_0000 == (x / 0x100) / 0x100 && x / 0x100_0000 == (x / 0x1_0000) / 0x100;
  }

  lemma LastDigit(q: int, r: int)
    requires 0 <= r < 0x100
    ensures (q * 0x100 + r) / 0x100 == q && Low(q * 0x100 + r) == r
  {
  }

  function Be64(x: int): (r: Bytes)
    ensures |r| == 8
  {
    Be32(x / TWO_32) + Be32(x)
  }

  function From64(d: Bytes): int
    requires |d| == 8
  {
    From32(d[..4]) * TWO_32 + From32(d[4..])
  }

  lemma Field64ReadsBack(x: int)
    requires 0 <= x <= MAX_UINT64
    ensures From64(Be64(x)) == x
  {
    hide Be32, From32;
    var high, low := x / TWO_32, x % TWO_32;
    Field32ReadsBack(high);
    Field32ReadsBack(low);
    Be32OfRemainder(x);
    assert Be64(x)[..4] == Be32(high) && Be64(x)[4..] == Be32(low);
  }

  lemma Be32OfRemainder(x: int)
    requires x >= 0
    ensures Be32(x) == Be32(x % TWO_32)
  {
    var q, r := x / TWO_32, x % TWO_32;
    assert x == q * TWO_32 + r;
    assert x / 0x100_0000 == q * 0x100 + r / 0x100_0000;
    assert x / 0x1_0000 == q * 0x1_0000 + r / 0x1_0000;
    assert x / 0x100 == q * 0x100_0000 + r / 0x100;
    LastByteAlone(q * 0x1, r / 0x100_0000);
    LastByteAlone(q * 0x100, r / 0x1_0000);
    LastByteAlone(q * 0x1_0000, r / 0x100);
    LastByteAlone(q * 0x100_0000, r);
  }

  lemma LastByteAlone(q: int, r: int)
    ensures Low(q * 0x100 + r) == Low(r)
  {
  }

  lemma Field64WritesBack(d: Bytes)
    requires |d| == 8
    ensures Be64(From64(d)) == d && 0 <= From64(d) <= MAX_UINT64
  {
    hide Be32, From32;
    Field32WritesBack(d[..4]);
    Field32WritesBack(d[4..]);
    var high, low := From32(d[..4]), From32(d[4..]);
    var x := From64(d);
    assert x / TWO_32 == high && x % TWO_32 == low;
    Be32OfRemainder(x);
    assert d == d[..4] + d[4..];
  }

  /** What the fields write, highest byte first. */
  lemma FieldsAreBigEndian(x: nat)
    ensures BigEndian(Be16(x)) == x % 0x1_0000 && BigEndian(Be32(x)) == x % 0x1_0000_0000
  {
    hide BigEndian, Low;
    BigEndianOfTwo(Be16(x));
    BigEndianOfFour(Be32(x));
    FourBytes(x);
    TwoBytes(x);
  }

  lemma {:induction false} BigEndianInTwo(a: Bytes, b: Bytes)
    requires |b| == 4
    ensures BigEndian(a + b) == BigEndian(a) * TWO_32 + BigEndian(b)
  {
    hide BigEndian;
    var s := a + b;
    BigEndianOfFour(b);
    assert s[..|s| - 1][..|s| - 2] == s[..|s| - 2] && s[..|s| - 2][..|s| - 3] == s[..|s| - 3];
    assert s[..|s| - 3][..|s| - 4] == a;
    OneMoreByte(s[..|s| - 3]);
    OneMoreByte(s[..|s| - 2]);
    OneMoreByte(s[..|s| - 1]);
    OneMoreByte(s);
  }

  lemma OneMoreByte(s: Bytes)
    requires s != []
    ensures BigEndian(s) == 0x100 * BigEndian(s[..|s| - 1]) + (s[|s| - 1] as int)
  {
  }

  lemma Field64IsBigEndian(x: int)
    requires 0 <= x <= MAX_UINT64
    ensures BigEndian(Be64(x)) == x
  {
    hide BigEndian, Be32;
    FieldsAreBigEndian(x / TWO_32);
    FieldsAreBigEndian(x);
    BigEndianInTwo(Be32(x / TWO_32), Be32(x));
  }

  // --- checksums ---------------------------------------------------------------------------------

  function Checksum(crc: Crc, d: Bytes): (r: Bytes)
    ensures |r| == CRC_LENGTH
  {
    Be32(crc(d) % TWO_32)
  }

  lemma ChecksumWritesBack(crc: Crc, d: Bytes)
    requires |d| >= 4 && From32(d[|d| - 4..]) == crc(d[..|d| - 4]) % TWO_32
    ensures Checksum(crc, d[..|d| - 4]) == d[|d| - 4..]
  {
    hide Be32, From32;
    Field32WritesBack(d[|d| - 4..]);
  }

  lemma ChecksumIsBigEndian(crc: Crc, d: Bytes)
    ensures BigEndian(Checksum(crc, d)) == crc(d) % 0x1_0000_0000
  {
    hide BigEndian, Be32;
    FieldsAreBigEndian(crc(d) % TWO_32);
  }

  // --- pixels ------------------------------------------------------------------------------------

  function PixelsOf(payload: Bytes): seq<Pixel>
    requires |payload| % 3 == 0
  {
    var n := |payload|;
    if n == 0 then []
    else PixelsOf(payload[..n - 3]) + [Pixel(payload[n - 3], payload[n - 2], payload[n - 1])]
  }

  lemma LowOfByte(x: int)
    requires ByteChannel(x)
    ensures Low(x) == x
  {
  }

  lemma {:induction false} PixelsOfChannels(pixels: seq<Pixel>)
    requires ByteChannels(pixels)
    ensures PixelsOf(Channels(pixels)) == pixels
  {
    hide Low;
    if pixels != [] {
      var init, p := pixels[..|pixels| - 1], pixels[|pixels| - 1];
      assert p in pixels;
      PixelsOfChannels(init);
      LowOfByte(p.red);
      LowOfByte(p.green);
      LowOfByte(p.blue);
      var c := Channels(pixels);
      assert c == Channels(init) + [p.red, p.green, p.blue];
      assert c[..|c| - 3] == Channels(init);
    }
  }

  lemma {:induction false} ChannelsOfPixels(payload: Bytes)
    requires |payload| % 3 == 0
    ensures var pixels := PixelsOf(payload);
      Channels(pixels) == payload && 3 * |pixels| == |payload| && ByteChannels(pixels)
  {
    hide Low, ByteChannels;
    var n := |payload|;
    if n > 0 {
      ChannelsOfPixels(payload[..n - 3]);
      var init, last := PixelsOf(payload[..n - 3]), Pixel(payload[n - 3], payload[n - 2], payload[n - 1]);
      var pixels := init + [last];
      assert PixelsOf(payload) == pixels && pixels[..|pixels| - 1] == init;
      LowOfByte(last.red);
      LowOfByte(last.green);
      LowOfByte(last.blue);
      assert Channels(pixels) == Channels(init) + [payload[n - 3], payload[n - 2], payload[n - 1]];
      OneMoreIsByte(init, last);
    } else {
      NoPixelsAreBytes();
    }
  }

  lemma OneMoreIsByte(init: seq<Pixel>, last: Pixel)
    requires ByteChannels(init) && ByteChannel(last.red) && ByteChannel(last.green) && ByteChannel(last.blue)
    ensures ByteChannels(init + [last])
  {
  }

  lemma NoPixelsAreBytes()
    ensures ByteChannels([])
  {
  }
}
