/** Payloads that arrive at one receiver one after another, of sizes that need not be the receiver's own. */
module DdpOverlay {
  import opened Ddp

  /** How much of a payload the first `k` packets bring into a buffer of `size` bytes: a packet that does not fit is
      lost. */
  function FitUpTo(total: nat, size: nat, limit: nat, k: nat): (r: nat)
    ensures r <= total && r <= size
  {
    if k == 0 then 0
    else if EndOf(k - 1, limit, total) <= size then EndOf(k - 1, limit, total)
    else FitUpTo(total, size, limit, k - 1)
  }

  /** The part of a payload that a buffer takes: all of it, or as many whole packets as fit. */
  function Reach(total: nat, size: nat, limit: nat): (r: nat)
    requires limit > 0
    ensures r <= total && r <= size
  {
    FitUpTo(total, size, limit, Count(total, limit))
  }

  function Overlay(buffer: Bytes, payload: Bytes, limit: nat): (r: Bytes)
    requires limit > 0
    ensures |r| == |buffer|
  {
    var n := Reach(|payload|, |buffer|, limit);
    payload[..n] + buffer[n..]
  }

  lemma WholePayloadFits(total: nat, size: nat, limit: nat)
    requires limit > 0 && total <= size
    ensures Reach(total, size, limit) == total
  {
    hide StartOf, Count;
    if total > 0 {
      CountIsLast(total, limit, Count(total, limit));
      CountIsLast(total, limit, 0);
      StartStep(0, limit);
      StartStep(Count(total, limit) - 1, limit);
    } else {
      CountIsLast(total, limit, 0);
      StartStep(0, limit);
    }
  }

  /** The packets before one that fits fit as well. */
  lemma FitReaches(total: nat, size: nat, limit: nat, k: nat)
    requires limit > 0 && StartOf(k, limit) < total && StartOf(k, limit) <= size
    ensures FitUpTo(total, size, limit, k) == StartOf(k, limit)
  {
    hide StartOf;
    StartStep(0, limit);
    if k > 0 {
      StartStep(k - 1, limit);
    }
  }

  lemma LongerPrefix(buffer: Bytes, payload: Bytes, start: nat, end: nat)
    requires start <= end <= |payload| && end <= |buffer|
    ensures var before := payload[..start] + buffer[start..];
      before[..start] + payload[start..end] + before[end..] == payload[..end] + buffer[end..]
  {
    var before := payload[..start] + buffer[start..];
    assert before[..start] == payload[..start];
    assert before[end..] == buffer[end..];
    assert payload[..start] + payload[start..end] == payload[..end];
  }

  lemma {:induction false} FirstPackets(buffer: Bytes, payload: Bytes, limit: nat, sequence: int, k: nat)
    requires 0 < limit <= 0xFFFF && |payload| <= 0x1_0000_0000 && k <= Count(|payload|, limit)
    ensures var n := FitUpTo(|payload|, |buffer|, limit, k);
      ApplyAll(buffer, Packets(payload, limit, sequence)[..k]) == payload[..n] + buffer[n..]
  {
    hide StartOf, Count, Apply, Packets, EndOf, PacketAt;
    var packets := Packets(payload, limit, sequence);
    if k > 0 {
      FirstPackets(buffer, payload, limit, sequence, k - 1);
      assert packets[..k][..k - 1] == packets[..k - 1];
      var before := ApplyAll(buffer, packets[..k - 1]);
      PacketFits(payload, limit, sequence, k - 1, before);
      CountIsLast(|payload|, limit, k - 1);
      var start, end := StartOf(k - 1, limit), EndOf(k - 1, limit, |payload|);
      if end <= |buffer| {
        FitReaches(|payload|, |buffer|, limit, k - 1);
        LongerPrefix(buffer, payload, start, end);
      }
    } else {
      assert packets[..0] == [];
    }
  }

  /** All packets of a payload, in order, at a receiver of any size. */
  lemma PacketsOverlay(buffer: Bytes, payload: Bytes, limit: nat, sequence: int)
    requires 0 < limit <= 0xFFFF && |payload| <= 0x1_0000_0000
    ensures ApplyAll(buffer, Packets(payload, limit, sequence)) == Overlay(buffer, payload, limit)
  {
    hide StartOf, Count, Apply, ApplyAll, PacketAt;
    var packets := Packets(payload, limit, sequence);
    FirstPackets(buffer, payload, limit, sequence, |packets|);
    assert packets[..|packets|] == packets;
  }

  lemma {:induction false} ApplyInTwo(buffer: Bytes, a: seq<Bytes>, b: seq<Bytes>)
    ensures ApplyAll(buffer, a + b) == ApplyAll(ApplyAll(buffer, a), b)
  {
    hide Apply;
    if b == [] {
      assert a + b == a;
    } else {
      assert (a + b)[..|a + b| - 1] == a + b[..|b| - 1];
      ApplyInTwo(buffer, a, b[..|b| - 1]);
    }
  }
}
