/** Virtual paths: one continuous coordinate space, with gaps and reversals, over disjoint ranges of logical strips. */
module VirtualPaths {
  import opened Util
  import opened PixelSets

  /** An authored segment, defaults filled in. */
  datatype RawSegment = RawSegment(stripId: string, sourceStart: int, pixelCount: int, direction: string, gapAfter: int)

  datatype RawPath = RawPath(id: string, segments: seq<RawSegment>)

  datatype Segment = Segment(
    stripId: string, sourceStart: nat, pixelCount: nat, direction: string, gapAfter: nat,
    globalStart: nat, globalEnd: nat)

  datatype Gap = Gap(globalStart: nat, globalEnd: nat)

  datatype Path = Path(segments: seq<Segment>, gaps: seq<Gap>, totalLength: nat)

  datatype NamedPath = NamedPath(id: string, path: Path)

  datatype Contribution<T> = Contribution(stripId: string, sourceStart: nat, pixels: seq<T>)

  datatype PathError = BadField | UnknownStrip | OutOfStrip | Overlap | DuplicateId | NoSegments

  type Lengths = map<string, int>

  // --- what a valid path is ----------------------------------------------------------------------

  predicate SegmentFits(s: RawSegment, lengths: Lengths) {
    && s.stripId != "" && s.stripId in lengths
    && s.sourceStart >= 0 && s.pixelCount >= 1 && s.gapAfter >= 0
    && IsDirection(s.direction)
    && s.sourceStart + s.pixelCount <= lengths[s.stripId]
  }

  /** The source interval of a segment, on its strip. */
  function RangeOf(s: RawSegment): Range<string> { Range(s.stripId, s.sourceStart, s.sourceStart + s.pixelCount) }

  function Ranges(raw: seq<RawSegment>): (r: seq<Range<string>>)
    ensures |r| == |raw|
  {
    seq(|raw|, i requires 0 <= i < |raw| => RangeOf(raw[i]))
  }

  /** Every segment fits its strip, and no two use one pixel of a strip. */
  predicate ValidSegments(raw: seq<RawSegment>, lengths: Lengths) {
    (forall i :: 0 <= i < |raw| ==> SegmentFits(raw[i], lengths)) && AllApart(Ranges(raw))
  }

  /** Segments laid end to end, each followed by its gap if it has one. */
  function Laid(raw: seq<RawSegment>): Path
    requires Layable(raw)
  {
    if raw == [] then Path([], [], 0)
    else
      var before, s := Laid(raw[..|raw| - 1]), raw[|raw| - 1];
      var cursor := before.totalLength;
      var end := cursor + s.pixelCount;
      Path(before.segments
             + [Segment(s.stripId, s.sourceStart, s.pixelCount, s.direction, s.gapAfter, cursor, end)],
           if s.gapAfter > 0 then before.gaps + [Gap(end, end + s.gapAfter)] else before.gaps,
           end + s.gapAfter)
  }

  // --- the builder -------------------------------------------------------------------------------

  lemma ValidPrefix(raw: seq<RawSegment>, k: nat, lengths: Lengths)
    requires k < |raw|
    ensures ValidSegments(raw[..k + 1], lengths)
       <==> && ValidSegments(raw[..k], lengths) && SegmentFits(raw[k], lengths)
            && forall i :: 0 <= i < k ==> Apart(Ranges(raw[..k])[i], RangeOf(raw[k]))
    ensures ValidSegments(raw, lengths) ==> ValidSegments(raw[..k + 1], lengths)
    ensures Ranges(raw[..k + 1]) == Ranges(raw[..k]) + [RangeOf(raw[k])]
  {
    hide SegmentFits, Apart, RangeOf, AllApart;
    var s := raw[..k + 1];
    assert forall i :: 0 <= i < k ==> s[i] == raw[..k][i];
    assert s[k] == raw[k];
    assert Ranges(s) == Ranges(raw[..k]) + [RangeOf(raw[k])];
    AllApartGrows(Ranges(raw[..k]), RangeOf(raw[k]));
    AllApartPrefix(Ranges(raw), k + 1);
    assert Ranges(raw)[..k + 1] == Ranges(s);
  }

  /** Every segment can be laid: nothing about it is negative or empty. */
  predicate Layable(raw: seq<RawSegment>) {
    forall i :: 0 <= i < |raw| ==> raw[i].sourceStart >= 0 && raw[i].pixelCount >= 1 && raw[i].gapAfter >= 0
  }

  /** The field checks of one segment, in the source's order. */
  method CheckFields(s: RawSegment, lengths: Lengths) returns (e: Option<PathError>)
    ensures e.None? <==> SegmentFits(s, lengths)
  {
    if s.stripId == "" {
      return Some(BadField);
    }
    if s.stripId !in lengths {
      return Some(UnknownStrip);
    }
    if s.sourceStart < 0 || s.pixelCount < 1 || !IsDirection(s.direction) || s.gapAfter < 0 {
      return Some(BadField);
    }
    var sourceEnd := s.sourceStart + s.pixelCount;
    return if sourceEnd > lengths[s.stripId] then Some(OutOfStrip) else None;
  }

  lemma LaidGrows(raw: seq<RawSegment>, k: nat)
    requires k < |raw| && Layable(raw[..k + 1])
    ensures Layable(raw[..k]) && raw[k].gapAfter >= 0 && raw[k].sourceStart >= 0 && raw[k].pixelCount >= 1
    ensures var before, after, s := Laid(raw[..k]), Laid(raw[..k + 1]), raw[k];
      var end := before.totalLength + s.pixelCount;
      && after.segments == before.segments + [Segment(s.stripId, s.sourceStart, s.pixelCount, s.direction, s.gapAfter,
                                                      before.totalLength, end)]
      && after.gaps == (if s.gapAfter > 0 then before.gaps + [Gap(end, end + s.gapAfter)] else before.gaps)
      && after.totalLength == end + s.gapAfter
  {
    assert raw[..k + 1][..k] == raw[..k] && raw[..k + 1][k] == raw[k];
    assert Layable(raw[..k]) by {
      assert forall i :: 0 <= i < k ==> raw[..k][i] == raw[..k + 1][i];
    }
  }

  /** Accepts exactly the valid segment lists, and lays them out. */
  method BuildVirtualPath(raw: seq<RawSegment>, lengths: Lengths) returns (r: Result<Path, PathError>)
    ensures r.Ok? <==> ValidSegments(raw, lengths)
    ensures r.Ok? ==> Layable(raw) && r.value == Laid(raw)
  {
    hide Apart, ValidSegments, Laid, Records, Ranges;
    var segments, gaps := [], [];
    var cursor: nat := 0;
    var usedSources: map<string, set<int>> := map[];
    NothingUsed(lengths);
    assert Laid([]) == Path([], [], 0) by { LaidNothing(); }
    for k := 0 to |raw|
      invariant ValidSegments(raw[..k], lengths) && Layable(raw[..k])
      invariant Path(segments, gaps, cursor) == Laid(raw[..k])
      invariant Records(usedSources, Ranges(raw[..k])) && NonEmpty(Ranges(raw[..k]))
    {
      var s := raw[k];
      assert raw[..k + 1][..k] == raw[..k] && raw[..k + 1][k] == s;
      ValidPrefix(raw, k, lengths);
      var refusal := CheckFields(s, lengths);
      if refusal.Some? {
        return Err(refusal.value);
      }
      var now := Occupy(usedSources, RangeOf(s), Ranges(raw[..k]));
      if now.None? {
        return Err(Overlap);
      }
      usedSources := now.value;
      assert Layable(raw[..k + 1]);
      StillNonEmpty(raw[..k + 1]);
      LaidGrows(raw, k);
      var globalEnd := cursor + s.pixelCount;
      segments := segments
        + [Segment(s.stripId, s.sourceStart, s.pixelCount, s.direction, s.gapAfter, cursor, globalEnd)];
      cursor := globalEnd;
      if s.gapAfter > 0 {
        gaps := gaps + [Gap(cursor, cursor + s.gapAfter)];
        cursor := cursor + s.gapAfter;
      }
    }
    assert raw[..|raw|] == raw;
    return Ok(Path(segments, gaps, cursor));
  }

  lemma StillNonEmpty(raw: seq<RawSegment>)
    requires Layable(raw)
    ensures NonEmpty(Ranges(raw))
  {
  }

  lemma LaidNothing()
    ensures Laid([]) == Path([], [], 0)
  {
  }

  lemma NothingUsed(lengths: Lengths)
    ensures Records(map[], Ranges([])) && NonEmpty(Ranges([])) && ValidSegments([], lengths)
  {
  }

  // --- the path tiles its coordinate space -------------------------------------------------------

  /** A coordinate lies on a numbered segment or in a numbered gap. */
  datatype Place = OnSegment(k: nat) | InGap(g: nat)

  predicate Covers(p: Path, place: Place, c: int) {
    match place
    case OnSegment(k) => k < |p.segments| && p.segments[k].globalStart <= c < p.segments[k].globalEnd
    case InGap(g) => g < |p.gaps| && p.gaps[g].globalStart <= c < p.gaps[g].globalEnd
  }

  function PlaceOf(raw: seq<RawSegment>, c: nat): (place: Place)
    requires Layable(raw) && c < Laid(raw).totalLength
  {
    var init := raw[..|raw| - 1];
    var before := Laid(init);
    if c < before.totalLength then PlaceOf(init, c)
    else if c < before.totalLength + raw[|raw| - 1].pixelCount then OnSegment(|before.segments|)
    else InGap(|before.gaps|)
  }

  /** Segments and gaps tile [0, total_length): every coordinate lies on exactly one of them, and nothing outside
      does. */
  lemma {:induction false} PathTiles(raw: seq<RawSegment>, place: Place, c: int)
    requires Layable(raw)
    ensures var p := Laid(raw); Covers(p, place, c) <==> 0 <= c < p.totalLength && place == PlaceOf(raw, c)
  {
    if raw != [] {
      var init := raw[..|raw| - 1];
      PathTiles(init, place, c);
    }
  }

  function Mapped(segments: seq<Segment>): nat {
    if segments == [] then 0 else Mapped(segments[..|segments| - 1]) + segments[|segments| - 1].pixelCount
  }

  function Gapped(gaps: seq<Gap>): int {
    if gaps == [] then 0
    else Gapped(gaps[..|gaps| - 1]) + gaps[|gaps| - 1].globalEnd - gaps[|gaps| - 1].globalStart
  }

  /** Mapped pixels and gap coordinates add up to the length of the path. */
  lemma {:induction false} CountsAddUp(raw: seq<RawSegment>)
    requires Layable(raw)
    ensures var p := Laid(raw); Mapped(p.segments) + Gapped(p.gaps) == p.totalLength
  {
    if raw != [] {
      var init := raw[..|raw| - 1];
      CountsAddUp(init);
      var p, before := Laid(raw), Laid(init);
      assert p.segments[..|p.segments| - 1] == before.segments;
      if |p.gaps| > |before.gaps| {
        assert p.gaps[..|p.gaps| - 1] == before.gaps;
      }
    }
  }

  /** Every authored segment is laid as it stands. */
  lemma {:induction false} LaidSegments(raw: seq<RawSegment>)
    requires Layable(raw)
    ensures var p := Laid(raw);
      && |p.segments| == |raw|
      && forall k :: 0 <= k < |raw| ==>
           && p.segments[k].stripId == raw[k].stripId && p.segments[k].sourceStart == raw[k].sourceStart
           && p.segments[k].pixelCount == raw[k].pixelCount && p.segments[k].direction == raw[k].direction
           && p.segments[k].globalEnd == p.segments[k].globalStart + raw[k].pixelCount <= p.totalLength
  {
    if raw != [] {
      LaidSegments(raw[..|raw| - 1]);
    }
  }

  /** Pixels and gaps before segment k. */
  function LengthBefore(raw: seq<RawSegment>, k: nat): int
    requires k <= |raw|
  {
    if k == 0 then 0 else LengthBefore(raw, k - 1) + raw[k - 1].pixelCount + raw[k - 1].gapAfter
  }

  /** Segment k begins behind all pixels and gaps before it, a gap behind its last pixel, and the path ends behind them
      all. */
  lemma {:induction false} LaidAre(raw: seq<RawSegment>, k: nat)
    requires Layable(raw) && k < |raw|
    ensures var p, s := Laid(raw), raw[k];
      && p.totalLength == LengthBefore(raw, |raw|) && |p.segments| == |raw|
      && p.segments[k].globalStart == LengthBefore(raw, k)
      && p.segments[k].globalEnd == LengthBefore(raw, k) + s.pixelCount
      && p.segments[k].stripId == s.stripId && p.segments[k].sourceStart == s.sourceStart
      && p.segments[k].pixelCount == s.pixelCount && p.segments[k].direction == s.direction
      && p.segments[k].gapAfter == s.gapAfter
      && (s.gapAfter > 0 ==>
            exists g <- p.gaps :: g.globalStart == LengthBefore(raw, k) + s.pixelCount
                                  && g.globalEnd == LengthBefore(raw, k) + s.pixelCount + s.gapAfter)
    decreases |raw|
  {
    var init := raw[..|raw| - 1];
    LengthOfPrefix(raw, |init|);
    LengthOfPrefix(raw, k);
    if init != [] {
      LaidAre(init, if k < |init| then k else 0);
    }
    if k < |init| && raw[k].gapAfter > 0 {
      var g :| g in Laid(init).gaps && g.globalStart == LengthBefore(init, k) + raw[k].pixelCount
            && g.globalEnd == LengthBefore(init, k) + raw[k].pixelCount + raw[k].gapAfter;
      assert g in Laid(raw).gaps;
    }
    if k == |init| && raw[k].gapAfter > 0 {
      assert Laid(raw).gaps[|Laid(raw).gaps| - 1] in Laid(raw).gaps;
    }
  }

  lemma {:induction false} LengthOfPrefix(raw: seq<RawSegment>, k: nat)
    requires k < |raw|
    ensures LengthBefore(raw[..|raw| - 1], k) == LengthBefore(raw, k)
    decreases k
  {
    if k > 0 {
      LengthOfPrefix(raw, k - 1);
    }
  }

  // --- splitting a path-sized buffer -------------------------------------------------------------

  function ContributionOf<T>(s: Segment, buffer: seq<T>): Contribution<T>
    requires s.globalStart <= s.globalEnd <= |buffer|
  {
    var pixels := buffer[s.globalStart..s.globalEnd];
    Contribution(s.stripId, s.sourceStart, if s.direction == REVERSE then Reversed(pixels) else pixels)
  }

  predicate Within(p: Path) {
    forall k :: 0 <= k < |p.segments| ==> p.segments[k].globalStart <= p.segments[k].globalEnd <= p.totalLength
  }

  /** One contribution for each segment; a buffer of another length is refused. */
  method Split<T>(p: Path, buffer: seq<T>) returns (r: Option<seq<Contribution<T>>>)
    requires Within(p)
    ensures r.Some? <==> |buffer| == p.totalLength
    ensures r.Some? ==>
      && |r.value| == |p.segments|
      && forall k :: 0 <= k < |p.segments| ==> r.value[k] == ContributionOf(p.segments[k], buffer)
  {
    hide ContributionOf;
    if |buffer| != p.totalLength {
      return None;
    }
    var contributions: seq<Contribution<T>> := [];
    for k := 0 to |p.segments|
      invariant |contributions| == k
      invariant forall j :: 0 <= j < k ==> contributions[j] == ContributionOf(p.segments[j], buffer)
    {
      var contribution := SplitOne(p.segments[k], buffer);
      contributions := contributions + [contribution];
    }
    return Some(contributions);
  }

  /** The loop body: one segment's slice, turned round when it runs in reverse. */
  method SplitOne<T>(s: Segment, buffer: seq<T>) returns (c: Contribution<T>)
    requires s.globalStart <= s.globalEnd <= |buffer|
    ensures c == ContributionOf(s, buffer)
  {
    var pixels := buffer[s.globalStart..s.globalEnd];
    if s.direction == REVERSE {
      pixels := Reversed(pixels);
    }
    return Contribution(s.stripId, s.sourceStart, pixels);
  }

  /** A physical pixel of the room. */
  datatype Led = Led(stripId: string, pixel: int)

  /** The LED that a mapped coordinate drives. */
  function LedAt(s: Segment, c: int): Led {
    Led(s.stripId, s.sourceStart + (if s.direction == REVERSE then s.globalEnd - 1 - c else c - s.globalStart))
  }

  /** The coordinate of pixel `j` of a segment's contribution. */
  function CoordinateOf(s: Segment, j: nat): int {
    if s.direction == REVERSE then s.globalEnd - 1 - j else s.globalStart + j
  }

  lemma ContributionByIndex<T>(s: Segment, buffer: seq<T>, j: nat)
    requires s.globalStart <= s.globalEnd <= |buffer| && j < s.globalEnd - s.globalStart
    ensures var given := ContributionOf(s, buffer);
      && |given.pixels| == s.globalEnd - s.globalStart
      && given.pixels[j] == buffer[CoordinateOf(s, j)]
      && s.globalStart <= CoordinateOf(s, j) < s.globalEnd
      && Led(given.stripId, given.sourceStart + j) == LedAt(s, CoordinateOf(s, j))
  {
  }

  /** A segment's contribution is its stretch of the buffer, in order, or from the end when the segment runs in
      reverse; it begins at the segment's first pixel of the strip. */
  lemma ContributionIs<T>(s: Segment, buffer: seq<T>, j: nat)
    requires s.globalStart <= s.globalEnd <= |buffer| && j < s.globalEnd - s.globalStart && IsDirection(s.direction)
    ensures var c := ContributionOf(s, buffer);
      && c.stripId == s.stripId && c.sourceStart == s.sourceStart && |c.pixels| == s.globalEnd - s.globalStart
      && c.pixels[j] == (if s.direction == "forward" then buffer[s.globalStart + j] else buffer[s.globalEnd - 1 - j])
  {
  }

  /** Pixel j of contribution k carries the buffer value of its own coordinate, lies on segment k, and drives that
      coordinate's LED, which exists; so gathering the contributions rebuilds the buffer outside the gaps. */
  lemma SplitCarriesTheBuffer<T>(raw: seq<RawSegment>, lengths: Lengths, buffer: seq<T>, k: nat, j: nat)
    requires ValidSegments(raw, lengths) && k < |raw| && j < raw[k].pixelCount
    requires Layable(raw) && |buffer| == Laid(raw).totalLength
    ensures |Laid(raw).segments| == |raw| && Within(Laid(raw))
    ensures var s := Laid(raw).segments[k]; var given := ContributionOf(s, buffer);
      var c := CoordinateOf(s, j);
      && |given.pixels| == raw[k].pixelCount
      && 0 <= c < |buffer| && PlaceOf(raw, c) == OnSegment(k)
      && given.pixels[j] == buffer[c]
      && Led(given.stripId, given.sourceStart + j) == LedAt(s, c)
      && given.stripId in lengths && 0 <= given.sourceStart + j < lengths[given.stripId]
  {
    hide Laid, PlaceOf, CoordinateOf, LedAt;
    LaidSegments(raw);
    var s := Laid(raw).segments[k];
    ContributionByIndex(s, buffer, j);
    PathTiles(raw, OnSegment(k), CoordinateOf(s, j));
  }

  /** Gathering: the value of every coordinate outside the gaps is found in one pixel of one contribution, at its own
      LED. */
  lemma GatherRebuildsTheBuffer<T>(raw: seq<RawSegment>, lengths: Lengths, buffer: seq<T>, c: nat)
    returns (k: nat, j: nat)
    requires ValidSegments(raw, lengths) && Layable(raw) && |buffer| == Laid(raw).totalLength && c < |buffer|
    requires PlaceOf(raw, c).OnSegment?
    ensures |Laid(raw).segments| == |raw| && Within(Laid(raw)) && k < |raw| && PlaceOf(raw, c) == OnSegment(k)
    ensures var s := Laid(raw).segments[k]; var given := ContributionOf(s, buffer);
      j < |given.pixels| && given.pixels[j] == buffer[c] && Led(given.stripId, given.sourceStart + j) == LedAt(s, c)
  {
    hide Laid, PlaceOf, ContributionOf, Layable;
    LaidSegments(raw);
    k := PlaceOf(raw, c).k;
    PathTiles(raw, OnSegment(k), c);
    var s := Laid(raw).segments[k];
    j := if s.direction == REVERSE then s.globalEnd - 1 - c else c - s.globalStart;
    ContributionByIndex(s, buffer, j);
  }

  /** Different mapped coordinates drive different LEDs: no LED is written twice. */
  lemma NoLedTwice(raw: seq<RawSegment>, lengths: Lengths, c: nat, c': nat)
    requires ValidSegments(raw, lengths) && Layable(raw)
    requires c < Laid(raw).totalLength && c' < Laid(raw).totalLength
    requires PlaceOf(raw, c).OnSegment? && PlaceOf(raw, c').OnSegment?
    ensures var p := Laid(raw); var k, k' := PlaceOf(raw, c).k, PlaceOf(raw, c').k;
      && k < |p.segments| && k' < |p.segments|
      && (LedAt(p.segments[k], c) == LedAt(p.segments[k'], c') <==> c == c')
  {
    hide Laid, PlaceOf;
    LaidSegments(raw);
    var k, k' := PlaceOf(raw, c).k, PlaceOf(raw, c').k;
    PathTiles(raw, OnSegment(k), c);
    PathTiles(raw, OnSegment(k'), c');
    assert k < k' ==> Apart(Ranges(raw)[k], Ranges(raw)[k']);
    assert k' < k ==> Apart(Ranges(raw)[k'], Ranges(raw)[k]);
  }

  // --- all paths of a layout ---------------------------------------------------------------------

  predicate ValidPaths(raw: seq<RawPath>, lengths: Lengths) {
    && (forall i :: 0 <= i < |raw| ==>
          raw[i].id != "" && raw[i].segments != [] && ValidSegments(raw[i].segments, lengths))
    && (forall i, j :: 0 <= i < j < |raw| ==> raw[i].id != raw[j].id)
  }

  method BuildVirtualPaths(raw: seq<RawPath>, lengths: Lengths) returns (r: Result<seq<NamedPath>, PathError>)
    ensures r.Ok? <==> ValidPaths(raw, lengths)
    ensures r.Ok? ==> |r.value| == |raw|
    ensures r.Ok? ==> forall i :: 0 <= i < |raw| ==>
      Layable(raw[i].segments) && r.value[i] == NamedPath(raw[i].id, Laid(raw[i].segments))
  {
    hide ValidSegments, Layable, Laid;
    var paths: seq<NamedPath> := [];
    var pathIds: set<string> := {};
    for i := 0 to |raw|
      invariant pathIds == set j | 0 <= j < i :: raw[j].id
      invariant ValidPaths(raw[..i], lengths)
      invariant |paths| == i
      invariant forall j :: 0 <= j < i ==>
        Layable(raw[j].segments) && paths[j] == NamedPath(raw[j].id, Laid(raw[j].segments))
    {
      if raw[i].id == "" {
        return Err(BadField);
      }
      if raw[i].id in pathIds {
        return Err(DuplicateId);
      }
      pathIds := pathIds + {raw[i].id};
      if raw[i].segments == [] {
        return Err(NoSegments);
      }
      var path := BuildVirtualPath(raw[i].segments, lengths);
      if path.Err? {
        return Err(path.error);
      }
      paths := paths + [NamedPath(raw[i].id, path.value)];
    }
    return Ok(paths);
  }
}
