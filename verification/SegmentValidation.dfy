/** The segment checks, which both validators make, each in its own loop, on the same conditions. */
module SegmentValidation {
  import opened Util
  import opened PixelSets
  import opened Lists
  import opened Topology

  method CheckSegment(s: Segment, strips: map<string, int>, nodes: map<int, int>) returns (ok: bool)
    ensures ok <==> SegmentFits(s, strips, nodes)
  {
    if s.segmentId == "" || s.stripId == "" || s.nodeId < 1 || s.offset < 0 || s.pixelCount < 1 {
      return false;
    }
    if !IsDirection(s.direction) || s.nodeId !in nodes || s.stripId !in strips {
      return false;
    }
    if s.pixelCount > strips[s.stripId] {
      return false;
    }
    var end := s.offset + s.pixelCount;
    return end <= nodes[s.nodeId];
  }

  lemma SegmentsGrow(segments: seq<Segment>, k: nat, strips: map<string, int>, nodes: map<int, int>)
    requires k < |segments|
    ensures Targets(segments[..k + 1]) == Targets(segments[..k]) + [TargetOf(segments[k])]
    ensures SegmentIds(segments[..k + 1]) == SegmentIds(segments[..k]) + [segments[k].segmentId]
    ensures SegmentsOk(segments[..k + 1], strips, nodes)
       <==> && SegmentsOk(segments[..k], strips, nodes) && SegmentFits(segments[k], strips, nodes)
            && segments[k].segmentId !in SegmentIds(segments[..k])
            && forall i :: 0 <= i < k ==> Apart(Targets(segments[..k])[i], TargetOf(segments[k]))
    ensures SegmentsOk(segments, strips, nodes) ==> SegmentsOk(segments[..k + 1], strips, nodes)
  {
    hide SegmentFits, Apart, TargetOf, AllApart, Distinct;
    var s, before, last := segments[..k + 1], segments[..k], segments[k];
    assert Targets(s) == Targets(before) + [TargetOf(last)];
    assert SegmentIds(s) == SegmentIds(before) + [last.segmentId];
    DistinctGrows(SegmentIds(before), last.segmentId);
    DistinctPrefix(SegmentIds(segments), k + 1);
    assert SegmentIds(segments)[..k + 1] == SegmentIds(s);
    AllApartGrows(Targets(before), TargetOf(last));
    AllApartPrefix(Targets(segments), k + 1);
    assert Targets(segments)[..k + 1] == Targets(s);
    assert forall i :: 0 <= i < |s| ==> s[i] == if i < k then before[i] else last;
  }

  lemma NoSegmentsOk(strips: map<string, int>, nodes: map<int, int>)
    ensures SegmentsOk([], strips, nodes) && Records(map[], Targets([])) && NonEmpty(Targets([]))
  {
  }

  lemma FittingIsNonEmpty(segments: seq<Segment>, strips: map<string, int>, nodes: map<int, int>)
    requires SegmentsOk(segments, strips, nodes)
    ensures NonEmpty(Targets(segments))
  {
  }

  /** Accepts exactly the segment lists that fit, are named apart, and share no node pixel. */
  method ValidateSegments(segments: seq<Segment>, strips: map<string, int>, nodes: map<int, int>) returns (ok: bool)
    ensures ok <==> SegmentsOk(segments, strips, nodes)
  {
    hide SegmentsOk, SegmentFits, Apart, Records, NonEmpty;
    var occupied: map<int, set<int>> := map[];
    var segmentIds: set<string> := {};
    NoSegmentsOk(strips, nodes);
    for k := 0 to |segments|
      invariant SegmentsOk(segments[..k], strips, nodes)
      invariant segmentIds == Elements(SegmentIds(segments[..k]))
      invariant Records(occupied, Targets(segments[..k])) && NonEmpty(Targets(segments[..k]))
    {
      var s := segments[k];
      SegmentsGrow(segments, k, strips, nodes);
      if s.segmentId in segmentIds {
        return false;
      }
      segmentIds := segmentIds + {s.segmentId};
      var fits := CheckSegment(s, strips, nodes);
      if !fits {
        return false;
      }
      assert TargetOf(s).lo < TargetOf(s).hi by { FitIsNonEmpty(s, strips, nodes); }
      var now := Occupy(occupied, TargetOf(s), Targets(segments[..k]));
      if now.None? {
        return false;
      }
      occupied := now.value;
      FittingIsNonEmpty(segments[..k + 1], strips, nodes);
    }
    assert segments[..|segments|] == segments;
    ok := true;
  }

  lemma FitIsNonEmpty(s: Segment, strips: map<string, int>, nodes: map<int, int>)
    requires SegmentFits(s, strips, nodes)
    ensures s.pixelCount >= 1
  {
  }
}
