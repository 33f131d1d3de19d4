/**
 * Metro lines over the railway network (engine/metro/metros.rs): the orientation of a
 * line's segments, the registry of lines and the index from railway segments to the
 * lines that use them.
 */
module Metros {
  import opened Wrappers
  import opened Networks
  import opened Railways
  import opened Schedules

  /** `Color`: three u8 channels. */
  datatype Color = Color(red: nat, green: nat, blue: nat)

  datatype MetroLineData = MetroLineData(color: Color, name: string, schedule: Schedule, speedLimit: nat)

  /** The railway segments, by handle, as `railways.segment` looks them up. */
  type RailSegments = map<nat, Segment<RailwaySegment>>

  /** `OrientedSegment`: a railway segment, travelled forward or backward. */
  datatype OrientedSegment = OrientedSegment(segment: nat, forward: bool)

  /** The same segment travelled the other way. */
  function Reversed(o: OrientedSegment): OrientedSegment {
    o.(forward := !o.forward)
  }

  /** `start_junction`: the segment's own start when forward, its end otherwise. */
  function StartJunction(o: OrientedSegment, rail: RailSegments): nat
    requires o.segment in rail
  {
    if o.forward then rail[o.segment].start else rail[o.segment].end
  }

  /** `end_junction`: the segment's own end when forward, its start otherwise. */
  function EndJunction(o: OrientedSegment, rail: RailSegments): nat
    requires o.segment in rail
  {
    if o.forward then rail[o.segment].end else rail[o.segment].start
  }

  /** Turning a segment around swaps its ends, and turning it twice restores it. */
  lemma ReversedSwapsEnds(o: OrientedSegment, rail: RailSegments)
    requires o.segment in rail
    ensures StartJunction(Reversed(o), rail) == EndJunction(o, rail)
    ensures EndJunction(Reversed(o), rail) == StartJunction(o, rail)
    ensures Reversed(Reversed(o)) == o && Reversed(o) != o
  {
  }

  predicate AllIn(segments: seq<nat>, rail: RailSegments) {
    forall i :: 0 <= i < |segments| ==> segments[i] in rail
  }

  predicate AllOrientedIn(os: seq<OrientedSegment>, rail: RailSegments) {
    forall i :: 0 <= i < |os| ==> os[i].segment in rail
  }

  /** Each segment ends where the next one starts: what `validate` checks of a line. */
  predicate Connected(os: seq<OrientedSegment>, rail: RailSegments)
    requires AllOrientedIn(os, rail)
  {
    forall i :: 0 <= i < |os| - 1 ==> EndJunction(os[i], rail) == StartJunction(os[i + 1], rail)
  }

  /** The panics of `orient_segments`: a gap after the first segment, or further on. */
  datatype OrientError = GapInFirst | GapInRest

  /**
   * The orientation of the first of at least two segments: forward when its end
   * touches the second segment, backward when its start does.
   */
  function FirstForward(first: nat, second: nat, rail: RailSegments): (r: Result<bool, OrientError>)
    requires first in rail && second in rail
    ensures r.Ok? ==> var o := OrientedSegment(first, r.value);
      EndJunction(o, rail) == rail[second].start || EndJunction(o, rail) == rail[second].end
    ensures r.Err? <==>
      (&& rail[first].start != rail[second].start && rail[first].start != rail[second].end
       && rail[first].end != rail[second].start && rail[first].end != rail[second].end)
  {
    var a, b := rail[first], rail[second];
    if a.end == b.start || a.end == b.end then Ok(true)
    else if a.start == b.start || a.start == b.end then Ok(false)
    else Err(GapInFirst)
  }

  /**
   * What one loop round pushes for the next segment after `prev`: the segment in the
   * orientation that continues from prev's end, or, when it only touches prev's start
   * (a dead-end turnaround), prev reversed followed by the segment.
   */
  function Step(prev: OrientedSegment, s: nat, rail: RailSegments): (r: Result<seq<OrientedSegment>, OrientError>)
    requires prev.segment in rail && s in rail
    ensures r.Ok? ==> |r.value| in {1, 2} && r.value[|r.value| - 1].segment == s
    ensures r.Ok? && |r.value| == 2 ==> r.value[0] == Reversed(prev)
    ensures r.Err? ==> r.error == GapInRest
  {
    var seg, end, start := rail[s], EndJunction(prev, rail), StartJunction(prev, rail);
    if seg.start == end then Ok([OrientedSegment(s, true)])
    else if seg.end == end then Ok([OrientedSegment(s, false)])
    else if seg.start == start then Ok([Reversed(prev), OrientedSegment(s, true)])
    else if seg.end == start then Ok([Reversed(prev), OrientedSegment(s, false)])
    else Err(GapInRest)
  }

  /** The rounds of the loop over the remaining segments, from `prev` on. */
  function OrientRest(prev: OrientedSegment, rest: seq<nat>, rail: RailSegments): Result<seq<OrientedSegment>, OrientError>
    requires prev.segment in rail && AllIn(rest, rail)
    decreases |rest|
  {
    if rest == [] then Ok([])
    else match Step(prev, rest[0], rail)
      case Err(e) => Err(e)
      case Ok(pushed) =>
        match OrientRest(pushed[|pushed| - 1], rest[1..], rail)
        case Err(e) => Err(e)
        case Ok(t) => Ok(pushed + t)
  }

  /** `orient_segments`, with its panics as errors. */
  function Orient(segments: seq<nat>, rail: RailSegments): Result<seq<OrientedSegment>, OrientError>
    requires AllIn(segments, rail)
  {
    if |segments| >= 2 then
      match FirstForward(segments[0], segments[1], rail)
      case Err(e) => Err(e)
      case Ok(forward) =>
        var first := OrientedSegment(segments[0], forward);
        match OrientRest(first, segments[1..], rail)
        case Err(e) => Err(e)
        case Ok(t) => Ok([first] + t)
    else if |segments| == 1 then Ok([OrientedSegment(segments[0], true)])
    else Ok([])
  }

  /** A prefix already pushed, in front of a result still to come. */
  function Prepend(out: seq<OrientedSegment>, r: Result<seq<OrientedSegment>, OrientError>): Result<seq<OrientedSegment>, OrientError> {
    match r
    case Err(e) => Err(e)
    case Ok(t) => Ok(out + t)
  }

  /**
   * `orient_segments`: decides the first segment's orientation from the first two,
   * then orients each further segment against the previous one.
   */
  method OrientSegments(segments: seq<nat>, rail: RailSegments) returns (r: Result<seq<OrientedSegment>, OrientError>)
    requires AllIn(segments, rail)
    ensures r == Orient(segments, rail)
  {
    if |segments| < 2 {
      if |segments| == 1 {
        return Ok([OrientedSegment(segments[0], true)]);
      }
      return Ok([]);
    }
    var forward := FirstForward(segments[0], segments[1], rail);
    if forward.Err? {
      return Err(forward.error);
    }
    var prev := OrientedSegment(segments[0], forward.value);
    var out := [prev];
    var i := 1;
    while i < |segments|
      invariant 1 <= i <= |segments| && prev.segment in rail
      invariant Orient(segments, rail) == Prepend(out, OrientRest(prev, segments[i..], rail))
      decreases |segments| - i
    {
      var pushed := Step(prev, segments[i], rail);
      if pushed.Err? {
        return Err(pushed.error);
      }
      assert segments[i..][1..] == segments[i + 1..];
      PrependAssoc(out, pushed.value, OrientRest(pushed.value[|pushed.value| - 1], segments[i + 1..], rail));
      out := out + pushed.value;
      prev := pushed.value[|pushed.value| - 1];
      i := i + 1;
    }
    assert segments[i..] == [] && out + [] == out;
    return Ok(out);
  }

  lemma PrependAssoc(a: seq<OrientedSegment>, b: seq<OrientedSegment>, r: Result<seq<OrientedSegment>, OrientError>)
    ensures Prepend(a, Prepend(b, r)) == Prepend(a + b, r)
  {
    if r.Ok? {
      assert a + (b + r.value) == (a + b) + r.value;
    }
  }

  /** The source's comment on `orient_segments`: no segments give no line, one gives it forward. */
  lemma OrientShortLines(rail: RailSegments, s: nat)
    requires s in rail
    ensures Orient([], rail) == Ok([])
    ensures Orient([s], rail) == Ok([OrientedSegment(s, true)])
  {
  }

  /** Every segment `orient_segments` produces is a railway segment. */
  lemma {:induction false} OrientRestIn(prev: OrientedSegment, rest: seq<nat>, rail: RailSegments)
    requires prev.segment in rail && AllIn(rest, rail)
    ensures OrientRest(prev, rest, rail).Ok? ==> AllOrientedIn([prev] + OrientRest(prev, rest, rail).value, rail)
    decreases |rest|
  {
    if rest != [] && Step(prev, rest[0], rail).Ok? {
      var pushed := Step(prev, rest[0], rail).value;
      var last := pushed[|pushed| - 1];
      OrientRestIn(last, rest[1..], rail);
      if OrientRest(last, rest[1..], rail).Ok? {
        var t := OrientRest(last, rest[1..], rail).value;
        var all := [prev] + (pushed + t);
        forall i | 0 <= i < |all|
          ensures all[i].segment in rail
        {
          if i > |pushed| {
            assert all[i] == ([last] + t)[i - |pushed|];
          }
        }
      }
    }
  }

  /** Each round continues from the end of the previous segment. */
  lemma {:induction false} OrientRestConnected(prev: OrientedSegment, rest: seq<nat>, rail: RailSegments)
    requires prev.segment in rail && AllIn(rest, rail)
    requires OrientRest(prev, rest, rail).Ok?
    ensures AllOrientedIn([prev] + OrientRest(prev, rest, rail).value, rail)
    ensures Connected([prev] + OrientRest(prev, rest, rail).value, rail)
    decreases |rest|
  {
    OrientRestIn(prev, rest, rail);
    if rest != [] {
      var pushed := Step(prev, rest[0], rail).value;
      var last := pushed[|pushed| - 1];
      var t := OrientRest(last, rest[1..], rail).value;
      OrientRestConnected(last, rest[1..], rail);
      var all := [prev] + (pushed + t);
      assert all == [prev] + pushed + t;
      ReversedSwapsEnds(prev, rail);
      forall i | 0 <= i < |all| - 1
        ensures EndJunction(all[i], rail) == StartJunction(all[i + 1], rail)
      {
        if i >= |pushed| {
          assert all[i] == ([last] + t)[i - |pushed|] && all[i + 1] == ([last] + t)[i + 1 - |pushed|];
        }
      }
    }
  }

  /**
   * When `orient_segments` does not panic, the line it produces is continuous: every
   * segment ends where the next one starts, so `validate` accepts it.
   */
  lemma OrientConnected(segments: seq<nat>, rail: RailSegments)
    requires AllIn(segments, rail) && Orient(segments, rail).Ok?
    ensures AllOrientedIn(Orient(segments, rail).value, rail)
    ensures Connected(Orient(segments, rail).value, rail)
  {
    if |segments| >= 2 {
      var first := OrientedSegment(segments[0], FirstForward(segments[0], segments[1], rail).value);
      OrientRestConnected(first, segments[1..], rail);
    }
  }

  /**
   * The output interleaves the input: each input segment appears, in input order, and
   * the only other entries are the previous entry turned around, just before the next
   * input segment.
   */
  predicate Interleaves(prev: OrientedSegment, t: seq<OrientedSegment>, rest: seq<nat>)
    decreases |rest|
  {
    if rest == [] then t == []
    else
      || (|t| >= 1 && t[0].segment == rest[0] && Interleaves(t[0], t[1..], rest[1..]))
      || (|t| >= 2 && t[0] == Reversed(prev) && t[1].segment == rest[0] && Interleaves(t[1], t[2..], rest[1..]))
  }

  lemma {:induction false} OrientRestInterleaves(prev: OrientedSegment, rest: seq<nat>, rail: RailSegments)
    requires prev.segment in rail && AllIn(rest, rail)
    requires OrientRest(prev, rest, rail).Ok?
    ensures Interleaves(prev, OrientRest(prev, rest, rail).value, rest)
    decreases |rest|
  {
    if rest != [] {
      var pushed := Step(prev, rest[0], rail).value;
      var last := pushed[|pushed| - 1];
      var t := OrientRest(last, rest[1..], rail).value;
      OrientRestInterleaves(last, rest[1..], rail);
      var all := pushed + t;
      if |pushed| == 1 {
        assert all[0] == last && all[1..] == t;
      } else {
        assert all[0] == Reversed(prev) && all[1] == last && all[2..] == t;
      }
    }
  }

  /** Between one and two entries per input segment. */
  lemma {:induction false} InterleavesLength(prev: OrientedSegment, t: seq<OrientedSegment>, rest: seq<nat>)
    requires Interleaves(prev, t, rest)
    ensures |rest| <= |t| <= 2 * |rest|
    decreases |rest|
  {
    if rest != [] {
      if |t| >= 1 && t[0].segment == rest[0] && Interleaves(t[0], t[1..], rest[1..]) {
        InterleavesLength(t[0], t[1..], rest[1..]);
      } else {
        InterleavesLength(t[1], t[2..], rest[1..]);
      }
    }
  }

  /**
   * The line `orient_segments` produces starts with the first input segment and
   * interleaves the rest, so it keeps the input segments in input order and has at
   * most one turnaround entry per input segment after the first.
   */
  lemma OrientKeepsInput(segments: seq<nat>, rail: RailSegments)
    requires AllIn(segments, rail) && Orient(segments, rail).Ok? && segments != []
    ensures var os := Orient(segments, rail).value;
      && os != [] && os[0].segment == segments[0]
      && Interleaves(os[0], os[1..], segments[1..])
      && |segments| <= |os| <= 2 * |segments| - 1
  {
    var os := Orient(segments, rail).value;
    if |segments| >= 2 {
      var first := OrientedSegment(segments[0], FirstForward(segments[0], segments[1], rail).value);
      OrientRestInterleaves(first, segments[1..], rail);
      assert os[1..] == OrientRest(first, segments[1..], rail).value;
    }
    InterleavesLength(os[0], os[1..], segments[1..]);
  }

  /** `MetroLine`. */
  datatype MetroLine = MetroLine(id: nat, data: MetroLineData, segments: seq<OrientedSegment>)

  /** `junctions`: each segment's start junction, then the last segment's end junction. */
  function LineJunctions(os: seq<OrientedSegment>, rail: RailSegments): (r: seq<nat>)
    requires AllOrientedIn(os, rail)
    ensures |r| == if os == [] then 0 else |os| + 1
    ensures forall i :: 0 <= i < |os| ==> r[i] == StartJunction(os[i], rail)
    ensures os != [] ==> r[|os|] == EndJunction(os[|os| - 1], rail)
  {
    if os == [] then []
    else Starts(os, rail) + [EndJunction(os[|os| - 1], rail)]
  }

  function Starts(os: seq<OrientedSegment>, rail: RailSegments): (r: seq<nat>)
    requires AllOrientedIn(os, rail)
    ensures |r| == |os| && forall i :: 0 <= i < |os| ==> r[i] == StartJunction(os[i], rail)
  {
    seq(|os|, i requires 0 <= i < |os| => StartJunction(os[i], rail))
  }

  /** On a continuous line, consecutive junctions are the two ends of the segment between them. */
  lemma JunctionsOfConnected(os: seq<OrientedSegment>, rail: RailSegments, i: nat)
    requires AllOrientedIn(os, rail) && Connected(os, rail) && i < |os|
    ensures LineJunctions(os, rail)[i] == StartJunction(os[i], rail)
    ensures LineJunctions(os, rail)[i + 1] == EndJunction(os[i], rail)
  {
    if i + 1 < |os| {
      assert EndJunction(os[i], rail) == StartJunction(os[i + 1], rail);
    }
  }

  /** The segment index after recording `id` under each of the segments in turn. */
  function WithLine(index: map<nat, set<nat>>, segments: seq<nat>, id: nat): map<nat, set<nat>>
    decreases |segments|
  {
    if segments == [] then index
    else
      var m := WithLine(index, segments[..|segments| - 1], id);
      var s := segments[|segments| - 1];
      m[s := (if s in m then m[s] else {}) + {id}]
  }

  /**
   * Recording a line adds exactly its segments to the index, and adds `id` to the set of
   * exactly those segments.
   */
  lemma {:induction false} WithLineSpec(index: map<nat, set<nat>>, segments: seq<nat>, id: nat)
    ensures forall s :: s in WithLine(index, segments, id) <==> s in index || s in segments
    ensures forall s :: s in WithLine(index, segments, id) ==>
      WithLine(index, segments, id)[s] == (if s in index then index[s] else {}) + (if s in segments then {id} else {})
    decreases |segments|
  {
    if segments != [] {
      var init := segments[..|segments| - 1];
      WithLineSpec(index, init, id);
      assert segments == init + [segments[|segments| - 1]];
      assert forall x :: x in segments <==> x in init || x == segments[|segments| - 1];
    }
  }

  /** `Metros`: the lines by handle, the handle counter, and the segment index. */
  class Metros {
    var metroLines: map<nat, MetroLine>
    var metroLineCounter: nat
    var railwaySegmentMetroLines: map<nat, set<nat>>

    /** Lines are stored under their own handles, and every handle in use is below the counter. */
    ghost predicate Valid()
      reads this
    {
      && (forall k :: k in metroLines ==> metroLines[k].id == k && k < metroLineCounter)
      && (forall s, l :: s in railwaySegmentMetroLines && l in railwaySegmentMetroLines[s] ==> l < metroLineCounter)
    }

    /** `Metros::new`: no lines. */
    constructor ()
      ensures Valid() && metroLines == map[] && metroLineCounter == 0 && railwaySegmentMetroLines == map[]
    {
      metroLines := map[];
      metroLineCounter := 0;
      railwaySegmentMetroLines := map[];
    }

    /**
     * `railway_segment_metro_lines`: the lines through a railway segment, the empty
     * set for a segment no line uses.
     */
    function RailwaySegmentMetroLines(s: nat): (r: set<nat>)
      reads this
      ensures s !in railwaySegmentMetroLines ==> r == {}
      ensures s in railwaySegmentMetroLines ==> r == railwaySegmentMetroLines[s]
    {
      if s in railwaySegmentMetroLines then railwaySegmentMetroLines[s] else {}
    }

    /**
     * `add_metro_line`: takes the counter as the handle, records the line under every
     * segment, and stores it with its segments oriented. The source panics when the
     * orientation finds a gap or a segment is not a railway segment.
     */
    method AddMetroLine(data: MetroLineData, segments: seq<nat>, rail: RailSegments) returns (id: nat)
      requires Valid() && AllIn(segments, rail) && Orient(segments, rail).Ok?
      modifies this
      ensures Valid()
      ensures id == old(metroLineCounter) && metroLineCounter == id + 1 && id !in old(metroLines)
      ensures metroLines == old(metroLines)[id := MetroLine(id, data, Orient(segments, rail).value)]
      ensures railwaySegmentMetroLines == WithLine(old(railwaySegmentMetroLines), segments, id)
      ensures forall i :: 0 <= i < |segments| ==> id in RailwaySegmentMetroLines(segments[i])
    {
      id := metroLineCounter;
      metroLineCounter := metroLineCounter + 1;
      ghost var index := railwaySegmentMetroLines;
      var i := 0;
      while i < |segments|
        invariant 0 <= i <= |segments|
        invariant railwaySegmentMetroLines == WithLine(index, segments[..i], id)
        invariant metroLineCounter == id + 1 && metroLines == old(metroLines)
        invariant Valid()
        decreases |segments| - i
      {
        var s := segments[i];
        var lines := if s in railwaySegmentMetroLines then railwaySegmentMetroLines[s] else {};
        railwaySegmentMetroLines := railwaySegmentMetroLines[s := lines + {id}];
        assert segments[..i + 1][..i] == segments[..i];
        i := i + 1;
      }
      assert segments[..i] == segments;
      WithLineSpec(index, segments, id);
      var oriented := OrientSegments(segments, rail);
      metroLines := metroLines[id := MetroLine(id, data, oriented.value)];
    }

    /**
     * `validate`: passes exactly when every line is continuous; the source panics on
     * the first discontinuity instead of returning false.
     */
    method Validate(rail: RailSegments) returns (ok: bool)
      requires forall k :: k in metroLines ==> AllOrientedIn(metroLines[k].segments, rail)
      ensures ok <==> forall k :: k in metroLines ==> Connected(metroLines[k].segments, rail)
    {
      var remaining := metroLines.Keys;
      while remaining != {}
        invariant remaining <= metroLines.Keys
        invariant forall k :: k in metroLines && k !in remaining ==> Connected(metroLines[k].segments, rail)
        decreases remaining
      {
        var k :| k in remaining;
        var os := metroLines[k].segments;
        var i := 0;
        while i + 1 < |os|
          invariant 0 <= i <= |os|
          invariant forall j :: 0 <= j < i && j + 1 < |os| ==> EndJunction(os[j], rail) == StartJunction(os[j + 1], rail)
          decreases |os| - i
        {
          if EndJunction(os[i], rail) != StartJunction(os[i + 1], rail) {
            return false;
          }
          i := i + 1;
        }
        remaining := remaining - {k};
      }
      return true;
    }
  }

}
