/** The resynchronising stream parser, proved against a scan of the whole stream one byte at a time. */
module Rs485Parser {
  import opened Util
  import opened Bits16
  import opened Crc16
  import opened Rs485

  type Filter = Option<Byte>

  // --- the reference: one simple scan of a whole stream ------------------------------------------

  /** Packets found, and candidates that started with SYNC but did not decode. */
  datatype Tally = Tally(packets: seq<Packet>, invalid: nat) {
    function Then(next: Tally): Tally { Tally(packets + next.packets, invalid + next.invalid) }
  }

  predicate StartsWithSync(s: Bytes) { |s| >= 2 && s[0] == SYNC[0] && s[1] == SYNC[1] }

  function FrameAtHead(s: Bytes, node: Filter): Option<Packet>
    requires |s| >= FRAME_LENGTH
  {
    Decode(s[..FRAME_LENGTH], node, None)
  }

  /** Accept sixteen bytes where they decode, else move on by one byte. */
  function Scan(s: Bytes, node: Filter): Tally {
    if |s| < FRAME_LENGTH then Tally([], 0)
    else match FrameAtHead(s, node)
      case Some(p) => Tally([p], 0).Then(Scan(s[FRAME_LENGTH..], node))
      case None => Tally([], if StartsWithSync(s) then 1 else 0).Then(Scan(s[1..], node))
  }

  /** The bytes that scan leaves unread: fewer than sixteen. */
  function Unread(s: Bytes, node: Filter): Bytes {
    if |s| < FRAME_LENGTH then s
    else if FrameAtHead(s, node).Some? then Unread(s[FRAME_LENGTH..], node)
    else Unread(s[1..], node)
  }

  // --- what the parser keeps between calls -------------------------------------------------------

  /** The part of the buffer the parser keeps, read off byte by byte: after a byte that cannot start a frame
      it hunts for SYNC, and if there is none it keeps nothing. */
  function Kept(s: Bytes, node: Filter): Bytes
    decreases |s|, 1
  {
    if |s| < FRAME_LENGTH then s
    else if FrameAtHead(s, node).Some? then Kept(s[FRAME_LENGTH..], node)
    else if StartsWithSync(s) then Kept(s[1..], node)
    else Hunt(s[1..], node)
  }

  function Hunt(s: Bytes, node: Filter): Bytes
    decreases |s|, 2
  {
    if |s| < 2 then []
    else if StartsWithSync(s) then Kept(s, node)
    else Hunt(s[1..], node)
  }

  /** The parser threw away a final byte that could have been the first half of SYNC. */
  predicate LosesHalfSync(s: Bytes, node: Filter) {
    var unread := Unread(s, node);
    Kept(s, node) == [] && unread != [] && unread[|unread| - 1] == SYNC[0]
  }

  /** What a parser that never threw that byte away would keep. */
  function Carry(s: Bytes, node: Filter): Bytes {
    if LosesHalfSync(s, node) then [SYNC[0]] else Kept(s, node)
  }

  /** The last step of the scan passes over a byte that does not start SYNC. */
  predicate EndsSkipping(s: Bytes, node: Filter) {
    |s| >= FRAME_LENGTH
    && if FrameAtHead(s, node).Some? then EndsSkipping(s[FRAME_LENGTH..], node)
       else if |s| > FRAME_LENGTH then EndsSkipping(s[1..], node)
       else !StartsWithSync(s)
  }

  // --- the parser itself -------------------------------------------------------------------------

  /** First position of SYNC, or -1. */
  function FindSync(s: Bytes): (k: int)
    ensures -1 <= k < |s|
  {
    if |s| < 2 then -1
    else if StartsWithSync(s) then 0
    else
      var k := FindSync(s[1..]);
      if k < 0 then -1 else k + 1
  }

  lemma {:induction false} FindSyncIsFirst(s: Bytes)
    ensures FindSync(s) >= 0 ==> StartsWithSync(s[FindSync(s)..])
    ensures forall i :: 0 <= i < |s| && (FindSync(s) < 0 || i < FindSync(s)) ==> !StartsWithSync(s[i..])
  {
    assert s[0..] == s;
    if |s| >= 2 && !StartsWithSync(s) {
      FindSyncIsFirst(s[1..]);
      forall i | 1 <= i < |s|
        ensures StartsWithSync(s[i..]) == StartsWithSync(s[1..][i - 1..])
      {
        assert s[i..] == s[1..][i - 1..];
      }
    }
  }

  /** `buffer[-limit:]` when the buffer is longer than `limit`; a limit of zero or less behaves as the slice does. */
  function Clip(s: Bytes, limit: int): Bytes {
    if |s| <= limit then s
    else if limit > 0 then s[|s| - limit..]
    else s[Min(-limit, |s|)..]
  }

  lemma ClipWithin(s: Bytes, limit: int)
    ensures |s| <= limit ==> Clip(s, limit) == s
  {
  }

  /** The parser's fields as a value. */
  datatype State = State(buffer: Bytes, valid: nat, invalid: nat)

  function FeedSpec(st: State, data: Bytes, node: Filter, limit: int): (State, seq<Packet>) {
    var s := Clip(st.buffer + data, limit);
    var t := Scan(s, node);
    (State(Kept(s, node), st.valid + |t.packets|, st.invalid + t.invalid), t.packets)
  }

  class StreamParser {
    var buffer: Bytes
    const expectedNodeId: Filter
    const maxBuffer: int
    var validFrames: nat
    var invalidFrames: nat

    ghost function Now(): State
      reads this
    {
      State(buffer, validFrames, invalidFrames)
    }

    constructor (expectedNodeId: Filter, maxBuffer: int)
      ensures this.expectedNodeId == expectedNodeId && this.maxBuffer == maxBuffer
      ensures Now() == State([], 0, 0)
    {
      this.expectedNodeId, this.maxBuffer := expectedNodeId, maxBuffer;
      buffer, validFrames, invalidFrames := [], 0, 0;
    }

    method Feed(data: Bytes) returns (packets: seq<Packet>)
      modifies this
      ensures (Now(), packets) == FeedSpec(old(Now()), data, expectedNodeId, maxBuffer)
    {
      hide Decode, Scan, Kept, FindSync, StartsWithSync, Clip;
      buffer := buffer + data;
      ClipWithin(buffer, maxBuffer);
      if |buffer| > maxBuffer {
        buffer := Clip(buffer, maxBuffer);
      }
      packets := Consume();
    }

    /** The loop of `feed`, on a buffer already clipped. */
    method Consume() returns (packets: seq<Packet>)
      modifies this
      ensures var t := Scan(old(buffer), expectedNodeId);
        && packets == t.packets && buffer == Kept(old(buffer), expectedNodeId)
        && validFrames == old(validFrames) + |t.packets| && invalidFrames == old(invalidFrames) + t.invalid
    {
      hide Decode, Scan, Kept, FindSync, StartsWithSync;
      ghost var s, node := buffer, expectedNodeId;
      packets := [];
      while |buffer| >= FRAME_LENGTH
        invariant packets + Scan(buffer, node).packets == Scan(s, node).packets
        invariant invalidFrames + Scan(buffer, node).invalid == old(invalidFrames) + Scan(s, node).invalid
        invariant Kept(buffer, node) == Kept(s, node)
        invariant validFrames == old(validFrames) + |packets|
        decreases |buffer|
      {
        var more := SkipToNextSync();
        if !more {
          break;
        }
        ScanStep(buffer, node);
        var packet := Decode(buffer[..FRAME_LENGTH], expectedNodeId, None);
        if packet.None? {
          buffer := buffer[1..];
          invalidFrames := invalidFrames + 1;
          continue;
        }
        packets := packets + [packet.value];
        validFrames := validFrames + 1;
        buffer := buffer[FRAME_LENGTH..];
      }
      ShortScan(buffer, node);
      assert packets + [] == packets;
    }

    /** Drops what stands before the first SYNC, or everything if there is none; true while a whole frame may
        follow. */
    method SkipToNextSync() returns (more: bool)
      requires |buffer| >= FRAME_LENGTH
      modifies this`buffer
      ensures |buffer| <= |old(buffer)|
      ensures Scan(buffer, expectedNodeId) == Scan(old(buffer), expectedNodeId)
      ensures Kept(buffer, expectedNodeId) == Kept(old(buffer), expectedNodeId)
      ensures more <==> |buffer| >= FRAME_LENGTH
      ensures more ==> StartsWithSync(buffer)
    {
      hide Decode, Scan, Kept, FindSync, StartsWithSync;
      var syncIndex := FindSync(buffer);
      SkipToSync(buffer, expectedNodeId);
      if syncIndex < 0 {
        buffer := [];
        ShortScan(buffer, expectedNodeId);
        return false;
      }
      FindSyncIsFirst(buffer);
      if syncIndex > 0 {
        buffer := buffer[syncIndex..];
      }
      return |buffer| >= FRAME_LENGTH;
    }
  }

  /** One step of the scan, and of what is kept, on a buffer that starts with SYNC. */
  lemma ScanStep(s: Bytes, node: Filter)
    requires |s| >= FRAME_LENGTH && StartsWithSync(s)
    ensures var frame := Decode(s[..FRAME_LENGTH], node, None);
      if frame.Some?
      then && Scan(s, node) == Tally([frame.value], 0).Then(Scan(s[FRAME_LENGTH..], node))
           && Kept(s, node) == Kept(s[FRAME_LENGTH..], node)
      else && Scan(s, node) == Scan(s[1..], node).(invalid := 1 + Scan(s[1..], node).invalid)
           && Kept(s, node) == Kept(s[1..], node)
  {
    hide Decode, StartsWithSync;
    var rest := Scan(s[1..], node).packets;
    assert [] + rest == rest;
  }

  lemma NoFrameWithoutSync(s: Bytes, node: Filter)
    requires |s| >= FRAME_LENGTH && !StartsWithSync(s)
    ensures FrameAtHead(s, node).None?
  {
    var d := s[..FRAME_LENGTH];
    assert s[0] == d[..2][0] && s[1] == d[..2][1];
  }

  /** Skipping straight to the first SYNC, or emptying a buffer without one, agrees with the scan. */
  lemma SkipToSync(s: Bytes, node: Filter)
    requires |s| >= FRAME_LENGTH
    ensures FindSync(s) < 0 ==> Scan(s, node) == Tally([], 0) && Kept(s, node) == []
    ensures var k := FindSync(s);
      k >= 0 ==> Scan(s, node) == Scan(s[k..], node) && Kept(s, node) == Kept(s[k..], node)
  {
    hide FrameAtHead, StartsWithSync, Scan, Hunt;
    if StartsWithSync(s) {
      assert s[0..] == s;
    } else {
      NoFrameWithoutSync(s, node);
      HuntSkips(s[1..], node);
      var k := FindSync(s[1..]);
      if k >= 0 {
        assert s[1..][k..] == s[k + 1..];
      }
      PassOver(s, node);
    }
  }

  lemma PassOver(s: Bytes, node: Filter)
    requires |s| >= 1 && !StartsWithSync(s)
    ensures Scan(s, node) == if |s| < FRAME_LENGTH then Tally([], 0) else Scan(s[1..], node)
  {
    if |s| >= FRAME_LENGTH {
      NoFrameWithoutSync(s, node);
      var t := Scan(s[1..], node);
      assert [] + t.packets == t.packets;
    }
  }

  lemma {:induction false} HuntSkips(s: Bytes, node: Filter)
    ensures FindSync(s) < 0 ==> Scan(s, node) == Tally([], 0) && Hunt(s, node) == []
    ensures var k := FindSync(s);
      k >= 0 ==> Scan(s, node) == Scan(s[k..], node) && Hunt(s, node) == Kept(s[k..], node)
  {
    hide FrameAtHead, Kept, Scan, StartsWithSync;
    if |s| < 2 {
      ShortScan(s, node);
    } else if StartsWithSync(s) {
      assert s[0..] == s;
    } else {
      HuntSkips(s[1..], node);
      PassOver(s, node);
      ShortScan(s[1..], node);
      var k := FindSync(s[1..]);
      if k >= 0 {
        assert s[1..][k..] == s[k + 1..];
        ShortScan(s[k + 1..], node);
      }
    }
  }

  /** A short buffer is left alone. */
  lemma ShortScan(s: Bytes, node: Filter)
    ensures |s| < FRAME_LENGTH ==> Scan(s, node) == Tally([], 0) && Kept(s, node) == s
  {
  }

  // --- what a call reads, and what the scan finds, by position -----------------------------------

  /** A call reads the newest `limit` bytes, oldest first; under a limit that is not positive it reads what the slice
      leaves. */
  lemma ReadsTheNewest(s: Bytes, limit: int)
    ensures limit > 0 ==> |Clip(s, limit)| == Min(|s|, limit)
    ensures limit <= 0 ==> |Clip(s, limit)| == Max(|s| + limit, 0)
    ensures forall i :: 0 <= i < |Clip(s, limit)| ==> Clip(s, limit)[i] == s[|s| - |Clip(s, limit)| + i]
  {
  }

  /** The sixteen bytes at position k are a frame for this node. */
  predicate IsFrame(s: Bytes, k: nat, node: Filter) {
    k + 16 <= |s| && Decode(s[k..k + 16], node, None).Some?
  }

  /** How often 0xA5 0x5A stands before position k. */
  function SyncsBefore(s: Bytes, k: nat): nat
    requires k < |s| || k == 0
  {
    if k == 0 then 0 else SyncsBefore(s, k - 1) + (if s[k - 1] == 0xA5 && s[k] == 0x5A then 1 else 0)
  }

  /** The scan finds the first frame that stands anywhere in the stream, and goes on behind it. Where no frame stands
      it finds nothing. It counts one invalid candidate for every SYNC that it passes. */
  lemma {:induction false} ScanByPosition(s: Bytes, k: nat, node: Filter)
    requires k + 15 <= |s| && forall i :: 0 <= i < k ==> !IsFrame(s, i, node)
    ensures IsFrame(s, k, node) ==>
      && var rest := Scan(s[k + 16..], node);
      && Scan(s, node).packets == [Decode(s[k..k + 16], node, None).value] + rest.packets
      && Scan(s, node).invalid == SyncsBefore(s, k) + rest.invalid
    ensures k + 15 == |s| ==> Scan(s, node).packets == [] && Scan(s, node).invalid == SyncsBefore(s, k)
  {
    hide Decode;
    if k == 0 {
      if IsFrame(s, 0, node) {
        assert s[0..16] == s[..FRAME_LENGTH];
      }
    } else {
      var t := s[1..];
      assert !IsFrame(s, 0, node) && s[0..16] == s[..FRAME_LENGTH];
      forall i | 0 <= i < k
        ensures IsFrame(t, i, node) <==> IsFrame(s, i + 1, node)
      {
        FrameMovesUp(s, i, node);
      }
      ScanByPosition(t, k - 1, node);
      SyncsShift(s, k);
      assert [] + Scan(t, node).packets == Scan(t, node).packets;
      if IsFrame(s, k, node) {
        assert t[k - 1..k + 15] == s[k..k + 16];
        assert t[k + 15..] == s[k + 16..];
      }
    }
  }

  lemma FrameMovesUp(s: Bytes, i: nat, node: Filter)
    requires s != []
    ensures IsFrame(s[1..], i, node) <==> IsFrame(s, i + 1, node)
  {
    hide Decode;
    if i + 17 <= |s| {
      assert s[1..][i..i + 16] == s[i + 1..i + 17];
    }
  }

  lemma {:induction false} SyncsShift(s: Bytes, k: nat)
    requires 1 <= k < |s|
    ensures SyncsBefore(s, k) == (if s[0] == 0xA5 && s[1] == 0x5A then 1 else 0) + SyncsBefore(s[1..], k - 1)
    decreases k
  {
    if k > 1 {
      SyncsShift(s, k - 1);
    } else {
      assert SyncsBefore(s, 0) == 0;
    }
  }

  // --- feeding a prefix, then the rest -----------------------------------------------------------

  /** `Carry`, but for a buffer in which the parser is hunting for SYNC. */
  function HuntCarry(s: Bytes, node: Filter): Bytes {
    var unread := Unread(s, node);
    if Hunt(s, node) == [] && unread != [] && unread[|unread| - 1] == SYNC[0] then [SYNC[0]] else Hunt(s, node)
  }

  lemma SameStart(s: Bytes, d: Bytes, node: Filter)
    requires |s| >= 2
    ensures StartsWithSync(s + d) == StartsWithSync(s)
    ensures |s| >= FRAME_LENGTH ==> FrameAtHead(s + d, node) == FrameAtHead(s, node)
    ensures (s + d)[1..] == s[1..] + d
    ensures |s| >= FRAME_LENGTH ==> (s + d)[FRAME_LENGTH..] == s[FRAME_LENGTH..] + d
  {
    hide Decode;
    if |s| >= FRAME_LENGTH {
      assert (s + d)[..FRAME_LENGTH] == s[..FRAME_LENGTH];
    }
  }

  lemma ThenAssociates(a: Tally, b: Tally, c: Tally)
    ensures a.Then(b).Then(c) == a.Then(b.Then(c))
    ensures Tally([], 0).Then(a) == a
  {
    assert a.packets + b.packets + c.packets == a.packets + (b.packets + c.packets);
    assert [] + a.packets == a.packets;
  }

  /** What one step of the scan finds, and where it goes on. */
  function Found(s: Bytes, node: Filter): Tally
    requires |s| >= FRAME_LENGTH
  {
    match FrameAtHead(s, node)
    case Some(p) => Tally([p], 0)
    case None => Tally([], if StartsWithSync(s) then 1 else 0)
  }

  function Onward(s: Bytes, node: Filter): (r: Bytes)
    requires |s| >= FRAME_LENGTH
    ensures |r| < |s|
  {
    if FrameAtHead(s, node).Some? then s[FRAME_LENGTH..] else s[1..]
  }

  lemma ScanByStep(s: Bytes, node: Filter)
    requires |s| >= FRAME_LENGTH
    ensures Scan(s, node) == Found(s, node).Then(Scan(Onward(s, node), node))
  {
    hide FrameAtHead, StartsWithSync;
  }

  lemma CarryByStep(s: Bytes, node: Filter)
    requires |s| >= FRAME_LENGTH
    ensures Carry(s, node)
         == if FrameAtHead(s, node).Some? || StartsWithSync(s) then Carry(Onward(s, node), node)
            else HuntCarry(Onward(s, node), node)
  {
    hide FrameAtHead, StartsWithSync;
  }

  lemma HuntCarryByStep(s: Bytes, node: Filter)
    requires |s| >= 2 && !StartsWithSync(s)
    ensures HuntCarry(s, node) == HuntCarry(s[1..], node)
  {
    hide FrameAtHead, StartsWithSync;
    if |s| >= FRAME_LENGTH {
      NoFrameWithoutSync(s, node);
    }
  }

  /** Scanning a longer stream is scanning its first part and then the carried bytes with the rest. */
  lemma {:induction false} ScanSplits(s: Bytes, d: Bytes, node: Filter)
    ensures Scan(s + d, node) == Scan(s, node).Then(Scan(Carry(s, node) + d, node))
    decreases |s|, 1
  {
    hide FrameAtHead, StartsWithSync, Scan, Found, HuntCarry;
    if |s| < FRAME_LENGTH {
      ShortScan(s, node);
      ThenAssociates(Scan(s + d, node), Tally([], 0), Tally([], 0));
    } else {
      SameStart(s, d, node);
      assert Found(s + d, node) == Found(s, node) by { SameStep(s, d, node); }
      assert Onward(s + d, node) == Onward(s, node) + d by { SameStep(s, d, node); }
      ScanByStep(s, node);
      ScanByStep(s + d, node);
      CarryByStep(s, node);
      var rest := Onward(s, node);
      ThenAssociates(Found(s, node), Scan(rest, node), Scan(Carry(s, node) + d, node));
      if FrameAtHead(s, node).Some? || StartsWithSync(s) {
        ScanSplits(rest, d, node);
      } else {
        HuntSplits(rest, d, node);
      }
    }
  }

  lemma SameStep(s: Bytes, d: Bytes, node: Filter)
    requires |s| >= FRAME_LENGTH
    ensures Found(s + d, node) == Found(s, node) && Onward(s + d, node) == Onward(s, node) + d
  {
    hide FrameAtHead, StartsWithSync;
    SameStart(s, d, node);
  }

  lemma {:induction false} HuntSplits(s: Bytes, d: Bytes, node: Filter)
    ensures Scan(s + d, node) == Scan(s, node).Then(Scan(HuntCarry(s, node) + d, node))
    decreases |s|, 2
  {
    hide FrameAtHead, StartsWithSync, Scan, Kept;
    ThenAssociates(Scan(HuntCarry(s, node) + d, node), Tally([], 0), Tally([], 0));
    if |s| < 2 {
      ShortScan(s, node);
      if s == [] {
        assert s + d == d && HuntCarry(s, node) + d == d;
      } else if s[0] == SYNC[0] {
        assert s == HuntCarry(s, node);
      } else {
        LoneByte(s[0], d);
        assert s + d == [s[0]] + d;
        PassOver(s + d, node);
        ShortScan(d, node);
        assert (s + d)[1..] == d && HuntCarry(s, node) + d == d;
      }
    } else if StartsWithSync(s) {
      ScanSplits(s, d, node);
    } else {
      SameStart(s, d, node);
      HuntSplits(s[1..], d, node);
      HuntCarryByStep(s, node);
      PassOver(s + d, node);
      PassOver(s, node);
      ShortScan(s[1..] + d, node);
      ShortScan(s[1..], node);
    }
  }

  lemma LoneByte(b: Byte, d: Bytes)
    requires b != SYNC[0]
    ensures !StartsWithSync([b] + d)
  {
  }

  // --- exactness of one call ---------------------------------------------------------------------

  lemma {:induction false} KeptIsShort(s: Bytes, node: Filter)
    ensures |Kept(s, node)| < FRAME_LENGTH
    decreases |s|, 1
  {
    hide FrameAtHead, StartsWithSync, Hunt;
    if |s| >= FRAME_LENGTH {
      if FrameAtHead(s, node).Some? {
        KeptIsShort(s[FRAME_LENGTH..], node);
      } else if StartsWithSync(s) {
        KeptIsShort(s[1..], node);
      } else {
        HuntIsShort(s[1..], node);
      }
    }
  }

  lemma {:induction false} HuntIsShort(s: Bytes, node: Filter)
    ensures |Hunt(s, node)| < FRAME_LENGTH
    decreases |s|, 2
  {
    hide FrameAtHead, StartsWithSync, Kept;
    if |s| >= 2 {
      if StartsWithSync(s) {
        KeptIsShort(s, node);
      } else {
        HuntIsShort(s[1..], node);
      }
    }
  }

  /** A stream that shows the loss: the other half of SYNC and fourteen zero bytes. */
  const WITNESS: Bytes := [0x5A, 0, 0, 0, 0, 0, 0, 0, 0, 0, 0, 0, 0, 0, 0]

  /** On a buffer of a frame or more, hunting for SYNC keeps what the parser keeps. */
  lemma HuntIsKept(s: Bytes, node: Filter)
    requires |s| >= FRAME_LENGTH
    ensures Hunt(s, node) == Kept(s, node)
  {
    if !StartsWithSync(s) {
      NoFrameWithoutSync(s, node);
    }
  }

  lemma {:induction false} ShortHunt(s: Bytes, node: Filter)
    requires |s| < FRAME_LENGTH
    ensures Hunt(s, node) == [] <==> FindSync(s) < 0
    decreases |s|
  {
    if |s| >= 2 && !StartsWithSync(s) {
      ShortHunt(s[1..], node);
    }
  }

  lemma {:induction false} KeptNothingIff(s: Bytes, node: Filter)
    ensures Kept(s, node) == [] <==> Unread(s, node) == [] || (EndsSkipping(s, node) && FindSync(Unread(s, node)) < 0)
    decreases |s|
  {
    hide FindSync, StartsWithSync, FrameAtHead, Hunt;
    if |s| >= FRAME_LENGTH {
      if FrameAtHead(s, node).Some? {
        KeptNothingIff(s[FRAME_LENGTH..], node);
      } else {
        KeptNothingIff(s[1..], node);
        if |s| > FRAME_LENGTH {
          HuntIsKept(s[1..], node);
        } else {
          ShortHunt(s[1..], node);
        }
      }
    }
  }

  /** The losing case, told from the scan alone, before the call: it ends by passing over a byte that does not start
      SYNC, and what it leaves unread has no SYNC and ends with 0xA5. */
  lemma LosesHalfSyncIff(s: Bytes, node: Filter)
    ensures var unread := Unread(s, node);
      LosesHalfSync(s, node)
      <==> && EndsSkipping(s, node) && FindSync(unread) < 0
           && unread != [] && unread[|unread| - 1] == SYNC[0]
  {
    hide FindSync, Kept, Unread, EndsSkipping;
    KeptNothingIff(s, node);
  }

  lemma WitnessIsCounted(node: Filter)
    ensures Scan([SYNC[0]] + WITNESS, node).invalid == 1 && Scan(WITNESS, node).invalid == 0
  {
    hide Crc;
    var s := [SYNC[0]] + WITNESS;
    var d := s[..FRAME_LENGTH];
    assert d[2] != VERSION;
    assert Scan(s[1..], node) == Tally([], 0);
  }

  /** What one call leaves behind serves every later stream exactly as the whole history would, if and only if
      the call did not throw away a final 0xA5 after finding no SYNC. */
  lemma FeedIsExactIff(s: Bytes, node: Filter)
    ensures (forall d: Bytes :: Scan(s + d, node) == Scan(s, node).Then(Scan(Kept(s, node) + d, node)))
       <==> !LosesHalfSync(s, node)
  {
    hide Scan, Kept, Unread;
    forall d: Bytes
      ensures Scan(s + d, node) == Scan(s, node).Then(Scan(Carry(s, node) + d, node))
    {
      ScanSplits(s, d, node);
    }
    if LosesHalfSync(s, node) {
      WitnessIsCounted(node);
      assert Kept(s, node) + WITNESS == WITNESS;
      assert Scan(s + WITNESS, node).invalid != Scan(s, node).Then(Scan(Kept(s, node) + WITNESS, node)).invalid;
    }
  }

  // --- whole runs --------------------------------------------------------------------------------

  function Flatten(chunks: seq<Bytes>): Bytes {
    if chunks == [] then [] else chunks[0] + Flatten(chunks[1..])
  }

  /** A run of calls, one for each chunk. */
  function FeedAll(st: State, chunks: seq<Bytes>, node: Filter, limit: int): (State, seq<Packet>)
    decreases |chunks|
  {
    if chunks == [] then (st, [])
    else
      var (st1, first) := FeedSpec(st, chunks[0], node, limit);
      var (st2, later) := FeedAll(st1, chunks[1..], node, limit);
      (st2, first + later)
  }

  /** No call of the run is truncated, and no final 0xA5 thrown away is followed by 0x5A. */
  predicate NothingLost(buffer: Bytes, chunks: seq<Bytes>, node: Filter, limit: int)
    decreases |chunks|
  {
    chunks == [] ||
    var s, later := buffer + chunks[0], Flatten(chunks[1..]);
    && Clip(s, limit) == s
    && (LosesHalfSync(s, node) ==> later == [] || later[0] != SYNC[1])
    && NothingLost(Kept(s, node), chunks[1..], node, limit)
  }

  lemma CarryIsEnough(s: Bytes, later: Bytes, node: Filter)
    requires LosesHalfSync(s, node) ==> later == [] || later[0] != SYNC[1]
    ensures Scan(Carry(s, node) + later, node) == Scan(Kept(s, node) + later, node)
  {
    hide Scan, Kept, Unread, FrameAtHead;
    if LosesHalfSync(s, node) {
      var t := [SYNC[0]] + later;
      assert !StartsWithSync(t);
      PassOver(t, node);
      ShortScan(later, node);
      assert t[1..] == later && Kept(s, node) + later == later;
    }
  }

  /** However a stream is cut, feeding it finds exactly the packets, in order, and the counts of one scan of the
      whole. */
  lemma {:induction false} AnyChunkingIsOneScan(st: State, chunks: seq<Bytes>, node: Filter, limit: int)
    requires NothingLost(st.buffer, chunks, node, limit)
    ensures var (after, packets) := FeedAll(st, chunks, node, limit);
      var whole := Scan(st.buffer + Flatten(chunks), node);
      && packets == whole.packets
      && after.invalid == st.invalid + whole.invalid
      && after.valid == st.valid + |whole.packets|
    requires |st.buffer| < FRAME_LENGTH
    decreases |chunks|
  {
    hide Scan, Kept, Unread, LosesHalfSync, Clip, Carry;
    if chunks == [] {
      assert st.buffer + [] == st.buffer;
      ShortScan(st.buffer, node);
    } else {
      var s, later := st.buffer + chunks[0], Flatten(chunks[1..]);
      assert st.buffer + Flatten(chunks) == s + later;
      ScanSplits(s, later, node);
      CarryIsEnough(s, later, node);
      KeptIsShort(s, node);
      AnyChunkingIsOneScan(FeedSpec(st, chunks[0], node, limit).0, chunks[1..], node, limit);
    }
  }

  // --- exactly when a run stays exact ------------------------------------------------------------

  /** What a run has found so far. */
  function FoundBy(st: State, chunks: seq<Bytes>, node: Filter, limit: int): Tally
    requires FeedAll(st, chunks, node, limit).0.invalid >= st.invalid
  {
    var (after, packets) := FeedAll(st, chunks, node, limit);
    Tally(packets, after.invalid - st.invalid)
  }

  lemma {:induction false} FeedAllGrows(st: State, chunks: seq<Bytes>, chunk: Bytes, node: Filter, limit: int)
    ensures var (before, packets) := FeedAll(st, chunks, node, limit);
      var (after, more) := FeedSpec(before, chunk, node, limit);
      FeedAll(st, chunks + [chunk], node, limit) == (after, packets + more)
    decreases |chunks|
  {
    hide FeedSpec;
    if chunks == [] {
      assert ([] + [chunk])[1..] == [];
      var (after, more) := FeedSpec(st, chunk, node, limit);
      assert more + [] == more && [] + more == more;
    } else {
      assert (chunks + [chunk])[1..] == chunks[1..] + [chunk];
      var (st1, first) := FeedSpec(st, chunks[0], node, limit);
      FeedAllGrows(st1, chunks[1..], chunk, node, limit);
      var (before, later) := FeedAll(st1, chunks[1..], node, limit);
      var (after, more) := FeedSpec(before, chunk, node, limit);
      assert first + (later + more) == (first + later) + more;
    }
  }

  lemma {:induction false} CountsNeverFall(st: State, chunks: seq<Bytes>, node: Filter, limit: int)
    ensures FeedAll(st, chunks, node, limit).0.invalid >= st.invalid
    decreases |chunks|
  {
    hide Scan, Kept, Clip;
    if chunks != [] {
      CountsNeverFall(FeedSpec(st, chunks[0], node, limit).0, chunks[1..], node, limit);
    }
  }

  /** After these calls the parser has found, and will find in any continuation, what one scan of everything finds. */
  ghost predicate ExactAfter(st: State, chunks: seq<Bytes>, node: Filter, limit: int) {
    CountsNeverFall(st, chunks, node, limit);
    forall d: Bytes ::
      Scan(st.buffer + Flatten(chunks) + d, node)
      == FoundBy(st, chunks, node, limit).Then(Scan(FeedAll(st, chunks, node, limit).0.buffer + d, node))
  }

  /** The buffer that call `k` works on. */
  function Before(st: State, chunks: seq<Bytes>, k: nat, node: Filter, limit: int): Bytes
    requires k < |chunks|
  {
    FeedAll(st, chunks[..k], node, limit).0.buffer + chunks[k]
  }

  lemma ThenCancels(a: Tally, b: Tally, c: Tally)
    requires a.Then(b) == a.Then(c)
    ensures b == c
  {
    assert (a.packets + b.packets)[|a.packets|..] == b.packets;
    assert (a.packets + c.packets)[|a.packets|..] == c.packets;
  }

  lemma {:induction false} FlattenGrows(chunks: seq<Bytes>, chunk: Bytes)
    ensures Flatten(chunks + [chunk]) == Flatten(chunks) + chunk
  {
    if chunks == [] {
      assert ([] + [chunk])[1..] == [];
      assert chunk + [] == chunk;
    } else {
      assert (chunks + [chunk])[1..] == chunks[1..] + [chunk];
      FlattenGrows(chunks[1..], chunk);
    }
  }

  /** One more call, if the parser was exact before it. */
  lemma OneCallStaysExactIff(st: State, chunks: seq<Bytes>, chunk: Bytes, node: Filter, limit: int)
    requires ExactAfter(st, chunks, node, limit)
    requires var s := FeedAll(st, chunks, node, limit).0.buffer + chunk; Clip(s, limit) == s
    ensures ExactAfter(st, chunks + [chunk], node, limit)
       <==> !LosesHalfSync(FeedAll(st, chunks, node, limit).0.buffer + chunk, node)
  {
    hide Scan, Kept, Unread, LosesHalfSync, Clip, FeedAll, Flatten;
    CountsNeverFall(st, chunks, node, limit);
    CountsNeverFall(st, chunks + [chunk], node, limit);
    FeedAllGrows(st, chunks, chunk, node, limit);
    FlattenGrows(chunks, chunk);
    var before, all := FeedAll(st, chunks, node, limit).0, st.buffer + Flatten(chunks);
    var s, found := before.buffer + chunk, FoundBy(st, chunks, node, limit);
    assert FoundBy(st, chunks + [chunk], node, limit) == found.Then(Scan(s, node));
    forall d: Bytes
      ensures Scan(st.buffer + Flatten(chunks + [chunk]) + d, node) == found.Then(Scan(s + d, node))
      ensures found.Then(Scan(s, node)).Then(Scan(Kept(s, node) + d, node))
           == found.Then(Scan(s, node).Then(Scan(Kept(s, node) + d, node)))
    {
      assert st.buffer + Flatten(chunks + [chunk]) + d == all + (chunk + d);
      assert before.buffer + (chunk + d) == s + d;
      ThenAssociates(found, Scan(s, node), Scan(Kept(s, node) + d, node));
    }
    FeedIsExactIff(s, node);
    if ExactAfter(st, chunks + [chunk], node, limit) {
      forall d: Bytes
        ensures Scan(s + d, node) == Scan(s, node).Then(Scan(Kept(s, node) + d, node))
      {
        assert found.Then(Scan(s + d, node)) == found.Then(Scan(s, node).Then(Scan(Kept(s, node) + d, node)));
        ThenCancels(found, Scan(s + d, node), Scan(s, node).Then(Scan(Kept(s, node) + d, node)));
      }
    }
  }

  /** Whole runs without a truncated call: the parser stays exact from call to call, if and only if no call throws
      away a final 0xA5. */
  lemma {:induction false} RunStaysExactIff(st: State, chunks: seq<Bytes>, node: Filter, limit: int)
    requires |st.buffer| < FRAME_LENGTH
    requires forall k :: 0 <= k < |chunks| ==>
      Clip(Before(st, chunks, k, node, limit), limit) == Before(st, chunks, k, node, limit)
    ensures (forall k :: 0 <= k <= |chunks| ==> ExactAfter(st, chunks[..k], node, limit))
       <==> (forall k :: 0 <= k < |chunks| ==> !LosesHalfSync(Before(st, chunks, k, node, limit), node))
  {
    hide ExactAfter, LosesHalfSync, Clip, FeedAll;
    if chunks == [] {
      NothingFedIsExact(st, node, limit);
    } else {
      var m := |chunks| - 1;
      var init := chunks[..m];
      forall k | 0 <= k <= m
        ensures init[..k] == chunks[..k]
      {
      }
      assert forall k :: 0 <= k < m ==> Before(st, init, k, node, limit) == Before(st, chunks, k, node, limit);
      RunStaysExactIff(st, init, node, limit);
      assert init + [chunks[m]] == chunks && chunks[..m + 1] == chunks && init[..m] == init;
      assert Before(st, chunks, m, node, limit) == FeedAll(st, init, node, limit).0.buffer + chunks[m];
      assert forall k :: 0 <= k <= m ==> chunks[..k] == init[..k];
      if ExactAfter(st, init, node, limit) {
        OneCallStaysExactIff(st, init, chunks[m], node, limit);
      }
    }
  }

  lemma NothingFedIsExact(st: State, node: Filter, limit: int)
    requires |st.buffer| < FRAME_LENGTH
    ensures ExactAfter(st, [], node, limit)
  {
    hide Scan;
    assert st.buffer + [] == st.buffer;
    forall d: Bytes
      ensures Scan(st.buffer + [] + d, node) == Tally([], 0).Then(Scan(st.buffer + d, node))
    {
      ThenAssociates(Scan(st.buffer + d, node), Tally([], 0), Tally([], 0));
    }
  }

  const JUNK: Bytes := [0, 0, 0, 0, 0, 0, 0, 0, 0, 0, 0, 0, 0, 0, 0]

  /** Why the condition is there: a frame whose first byte ends a call that finds no SYNC is missed. */
  lemma LostHalfSyncLosesAFrame(p: Packet)
    requires p.Legal()
    ensures var chunks := [JUNK + Encode(p)[..1], Encode(p)[1..]];
      && FeedAll(State([], 0, 0), chunks, None, 4096).1 == []
      && Flatten(chunks) == JUNK + Encode(p)
      && Scan(Flatten(chunks), None) == Tally([p.OnWire()], 0)
  {
    hide Encode, Decode, Scan, Kept;
    var d := Encode(p);
    var first, second := JUNK + d[..1], d[1..];
    assert Flatten([first, second]) == JUNK + d by {
      FlattenTwo(first, second);
    }
    FirstCallFindsNothing(p);
    assert [] + first == first && [] + second == second;
    ShortScan(second, None);
    FeedTwo(State([], 0, 0), first, second, None, 4096);
    SkipJunk(JUNK, d);
    assert d[..FRAME_LENGTH] == d;
    CleanHead(p, d, None);
    ScanByStep(d, None);
    ShortScan(d[FRAME_LENGTH..], None);
  }

  lemma FlattenTwo(a: Bytes, b: Bytes)
    ensures Flatten([a, b]) == a + b
  {
    assert [a, b][1..] == [b] && [b][1..] == [];
    assert Flatten([b]) == b + [];
  }

  lemma FeedTwo(st: State, a: Bytes, b: Bytes, node: Filter, limit: int)
    ensures var (st1, first) := FeedSpec(st, a, node, limit);
      var (st2, second) := FeedSpec(st1, b, node, limit);
      FeedAll(st, [a, b], node, limit) == (st2, first + second)
  {
    hide FeedSpec;
    var st1 := FeedSpec(st, a, node, limit).0;
    var (st2, second) := FeedSpec(st1, b, node, limit);
    assert [a, b][1..] == [b] && [b][1..] == [];
    assert FeedAll(st1, [b], node, limit) == (st2, second + []);
    assert second + [] == second;
  }

  lemma FirstCallFindsNothing(p: Packet)
    ensures var s := JUNK + Encode(p)[..1]; Scan(s, None) == Tally([], 0) && Kept(s, None) == []
  {
    hide Encode, Scan, Kept;
    EncodeStarts(p);
    var s := JUNK + Encode(p)[..1];
    assert s == JUNK + [SYNC[0]];
    JunkHasNoSync(s);
    SkipToSync(s, None);
  }

  lemma EncodeStarts(p: Packet)
    ensures Encode(p)[0] == SYNC[0] && Encode(p)[1] == SYNC[1] && Encode(p)[..1] == [SYNC[0]]
  {
  }

  lemma {:induction false} JunkHasNoSync(s: Bytes)
    requires forall i :: 0 <= i < |s| ==> s[i] != SYNC[1]
    ensures FindSync(s) < 0
  {
    if |s| >= 2 {
      JunkHasNoSync(s[1..]);
    }
  }

  lemma {:induction false} SkipJunk(junk: Bytes, d: Bytes)
    requires forall i :: 0 <= i < |junk| ==> junk[i] != SYNC[0]
    ensures |junk| > 0 && |d| >= FRAME_LENGTH ==> Scan(junk + d, None) == Scan(d, None)
  {
    hide Scan;
    if |junk| > 0 {
      LoneByte(junk[0], junk[1..] + d);
      assert junk + d == [junk[0]] + (junk[1..] + d);
      PassOver(junk + d, None);
      assert (junk + d)[1..] == junk[1..] + d;
      if |junk| == 1 {
        assert junk[1..] + d == d;
      } else {
        SkipJunk(junk[1..], d);
      }
    }
  }

  // --- round trip over a cut stream --------------------------------------------------------------

  function EncodeAll(ps: seq<Packet>): Bytes {
    if ps == [] then [] else Encode(ps[0]) + EncodeAll(ps[1..])
  }

  function OnWireAll(ps: seq<Packet>): (r: seq<Packet>)
    ensures |r| == |ps|
  {
    if ps == [] then [] else [ps[0].OnWire()] + OnWireAll(ps[1..])
  }

  /** Every packet is legal and passes the parser's filter. */
  predicate Admitted(ps: seq<Packet>, node: Filter) {
    forall i :: 0 <= i < |ps| ==> ps[i].Legal() && (node.Some? ==> node.value == ps[i].nodeId)
  }

  /** A first part of a clean stream gives its whole frames and keeps the broken one. */
  lemma {:induction false} CleanPrefix(ps: seq<Packet>, s: Bytes, later: Bytes, node: Filter)
    requires s + later == EncodeAll(ps) && Admitted(ps, node)
    ensures var q := |s| / FRAME_LENGTH;
      && q <= |ps|
      && Scan(s, node) == Tally(OnWireAll(ps[..q]), 0)
      && Kept(s, node) + later == EncodeAll(ps[q..])
    decreases |s|
  {
    hide Encode, Decode, FrameAtHead;
    if |s| < FRAME_LENGTH {
      assert ps[..0] == [] && ps[0..] == ps;
      ShortScan(s, node);
    } else {
      var d, s', ps' := Encode(ps[0]), s[FRAME_LENGTH..], ps[1..];
      assert s[..FRAME_LENGTH] == (s + later)[..FRAME_LENGTH] == d;
      assert s' + later == (s + later)[FRAME_LENGTH..] == EncodeAll(ps');
      CleanHead(ps[0], s, node);
      CleanPrefix(ps', s', later, node);
      var q := |s| / FRAME_LENGTH;
      assert q == 1 + |s'| / FRAME_LENGTH;
      assert ps[..q][1..] == ps'[..q - 1] && ps[q..] == ps'[q - 1..];
      ScanByStep(s, node);
    }
  }

  lemma CleanHead(p: Packet, s: Bytes, node: Filter)
    requires p.Legal() && (node.Some? ==> node.value == p.nodeId)
    requires |s| >= FRAME_LENGTH && s[..FRAME_LENGTH] == Encode(p)
    ensures FrameAtHead(s, node) == Some(p.OnWire())
  {
    hide Encode, Decode;
    DecodeInvertsEncode(p, node, None);
  }

  lemma FeedCleanChunk(st: State, ps: seq<Packet>, chunk: Bytes, later: Bytes, node: Filter, limit: int)
    requires Admitted(ps, node) && |st.buffer| < FRAME_LENGTH && |chunk| <= limit - 15
    requires st.buffer + chunk + later == EncodeAll(ps)
    ensures var q := |st.buffer + chunk| / FRAME_LENGTH;
      var (after, packets) := FeedSpec(st, chunk, node, limit);
      && q <= |ps|
      && packets == OnWireAll(ps[..q])
      && after.valid == st.valid + q && after.invalid == st.invalid
      && |after.buffer| < FRAME_LENGTH && after.buffer + later == EncodeAll(ps[q..])
  {
    hide Scan, Kept, EncodeAll;
    var s := st.buffer + chunk;
    CleanPrefix(ps, s, later, node);
    KeptIsShort(s, node);
  }

  /** Any list of packets, encoded, joined and cut into chunks of at most `limit - 15` bytes, comes back in order,
      every sequence number reduced to a byte, with no invalid frame and nothing left over. */
  lemma {:induction false} EncodedStreamRoundTrips(
      st: State, ps: seq<Packet>, chunks: seq<Bytes>, node: Filter, limit: int)
    requires Admitted(ps, node) && |st.buffer| < FRAME_LENGTH
    requires st.buffer + Flatten(chunks) == EncodeAll(ps)
    requires forall i :: 0 <= i < |chunks| ==> |chunks[i]| <= limit - 15
    ensures FeedAll(st, chunks, node, limit) == (State([], st.valid + |ps|, st.invalid), OnWireAll(ps))
    decreases |chunks|
  {
    hide FeedSpec, OnWireAll, EncodeAll;
    if chunks == [] {
      assert st.buffer + [] == st.buffer;
      NoShortStream(ps);
    } else {
      var chunk, later := chunks[0], Flatten(chunks[1..]);
      assert st.buffer + chunk + later == st.buffer + Flatten(chunks);
      FeedCleanChunk(st, ps, chunk, later, node, limit);
      var q := |st.buffer + chunk| / FRAME_LENGTH;
      EncodedStreamRoundTrips(FeedSpec(st, chunk, node, limit).0, ps[q..], chunks[1..], node, limit);
      OnWireAllSplits(ps, q);
    }
  }

  lemma NoShortStream(ps: seq<Packet>)
    requires |EncodeAll(ps)| < FRAME_LENGTH
    ensures ps == [] && EncodeAll(ps) == [] && OnWireAll(ps) == []
  {
  }

  lemma {:induction false} OnWireAllSplits(ps: seq<Packet>, q: nat)
    requires q <= |ps|
    ensures OnWireAll(ps) == OnWireAll(ps[..q]) + OnWireAll(ps[q..])
  {
    if q == 0 {
      assert ps[..0] == [] && ps[0..] == ps;
    } else {
      OnWireAllSplits(ps[1..], q - 1);
      assert ps[..q][1..] == ps[1..][..q - 1] && ps[q..] == ps[1..][q - 1..];
    }
  }
}
