/** The flight-search side of server/qpx/qpx.py: reshaping a QPX Express
    response into flight records (`extract_flights`), and the one-sentence
    description of a flight (`stringify` and its helpers). The JSON objects
    are datatypes; only the leg objects are shared, mutable objects, since
    extraction deletes their "kind" and "id" keys in place and hands the same
    objects on in its output. */
module Qpx {
  import opened Wrappers
  import opened Text

  // ---------------------------------------------------------------------
  // The response and the flight records
  // ---------------------------------------------------------------------

  /** The keys of a leg object other than "kind" and "id": the four the
      description reads, and the rest (aircraft, meal, terminals, ...). */
  datatype LegInfo = LegInfo(origin: string, destination: string, departureTime: string, arrivalTime: string,
                             others: map<string, string>)

  /** A leg object of the parsed response. "kind" and "id" are the keys
      extraction deletes; `None` stands for a deleted key. */
  class Leg {
    const info: LegInfo
    var kind: Option<string>
    var id: Option<string>

    constructor (info: LegInfo, kind: string, id: string)
      ensures this.info == info && this.kind == Some(kind) && this.id == Some(id)
    {
      this.info := info;
      this.kind := Some(kind);
      this.id := Some(id);
    }
  }

  /** The leg still has both keys extraction deletes. */
  predicate Present(l: Leg)
    reads l
  {
    l.kind.Some? && l.id.Some?
  }

  /** Both keys have been deleted. */
  predicate Stripped(l: Leg)
    reads l
  {
    l.kind.None? && l.id.None?
  }

  datatype FlightNumber = FlightNumber(carrier: string, number: string)

  /** A segment of the response; `connectionDuration` is absent on the last segment of a slice. */
  datatype SegmentInfo = SegmentInfo(cabin: string, duration: int, bookingCode: string, bookingCodeCount: int,
                                     flight: FlightNumber, connectionDuration: Option<int>, legs: seq<Leg>)

  datatype SliceInfo = SliceInfo(duration: int, segments: seq<SegmentInfo>)

  datatype TripOption = TripOption(saleTotal: string, slices: seq<SliceInfo>)

  /** `response["trips"]`: `tripOptions` is None when it has no "tripOption" key. */
  datatype Trips = Trips(tripOptions: Option<seq<TripOption>>)

  /** A segment record: the five copied keys, the connection time and the legs. */
  datatype Segment = Segment(cabin: string, duration: int, bookingCode: string, bookingCodeCount: int,
                             flight: FlightNumber, connectionDuration: int, legs: seq<Leg>)

  datatype Slice = Slice(duration: int, segments: seq<Segment>)

  /** A flight record; `totalDuration` is in minutes. */
  datatype Flight = Flight(price: string, slices: seq<Slice>, totalDuration: int)

  // ---------------------------------------------------------------------
  // What extraction computes
  // ---------------------------------------------------------------------

  function ToSegment(s: SegmentInfo): Segment {
    Segment(s.cabin, s.duration, s.bookingCode, s.bookingCodeCount, s.flight, s.connectionDuration.GetOr(0), s.legs)
  }

  function ToSlice(s: SliceInfo): Slice {
    Slice(s.duration, seq(|s.segments|, k requires 0 <= k < |s.segments| => ToSegment(s.segments[k])))
  }

  /** The sum of the slices' durations. */
  function SliceDurations(slices: seq<SliceInfo>): int {
    if |slices| == 0 then 0 else SliceDurations(slices[..|slices| - 1]) + slices[|slices| - 1].duration
  }

  function ToSlices(slices: seq<SliceInfo>): seq<Slice> {
    seq(|slices|, k requires 0 <= k < |slices| => ToSlice(slices[k]))
  }

  function ToFlight(o: TripOption): Flight {
    Flight(o.saleTotal, ToSlices(o.slices), SliceDurations(o.slices))
  }

  /** One flight per option that has slices, in order. */
  function Reshape(options: seq<TripOption>): seq<Flight> {
    if |options| == 0 then []
    else
      var last := options[|options| - 1];
      Reshape(options[..|options| - 1]) + (if |last.slices| == 0 then [] else [ToFlight(last)])
  }

  /** The result of `extract_flights(response)`, where `None` is a missing response. */
  function Extracted(response: Option<Trips>): Option<seq<Flight>> {
    match response
    case None => None
    case Some(trips) => Some(match trips.tripOptions case None => [] case Some(options) => Reshape(options))
  }

  // ---------------------------------------------------------------------
  // Which leg objects extraction touches
  // ---------------------------------------------------------------------

  function SegmentLegs(s: SegmentInfo): set<Leg> {
    set l | l in s.legs
  }

  function SliceLegs(s: SliceInfo): set<Leg> {
    set g, l | g in s.segments && l in g.legs :: l
  }

  function OptionLegs(o: TripOption): set<Leg> {
    set s, g, l | s in o.slices && g in s.segments && l in g.legs :: l
  }

  function OptionsLegs(options: seq<TripOption>): set<Leg> {
    set o, s, g, l | o in options && s in o.slices && g in s.segments && l in g.legs :: l
  }

  /** The options of a response; none when the response or its "tripOption" key is missing. */
  function Options(response: Option<Trips>): seq<TripOption> {
    if response.Some? && response.value.tripOptions.Some? then response.value.tripOptions.value else []
  }

  predicate LegsDistinct(legs: seq<Leg>) {
    forall i, j :: 0 <= i < j < |legs| ==> legs[i] != legs[j]
  }

  /** No leg object appears twice among the segments, as in a parsed JSON document. */
  predicate SegmentsApart(segments: seq<SegmentInfo>) {
    (forall i :: 0 <= i < |segments| ==> LegsDistinct(segments[i].legs))
    && forall i, j :: 0 <= i < j < |segments| ==> SegmentLegs(segments[i]) !! SegmentLegs(segments[j])
  }

  predicate SlicesApart(slices: seq<SliceInfo>) {
    (forall i :: 0 <= i < |slices| ==> SegmentsApart(slices[i].segments))
    && forall i, j :: 0 <= i < j < |slices| ==> SliceLegs(slices[i]) !! SliceLegs(slices[j])
  }

  predicate OptionsApart(options: seq<TripOption>) {
    (forall i :: 0 <= i < |options| ==> SlicesApart(options[i].slices))
    && forall i, j :: 0 <= i < j < |options| ==> OptionLegs(options[i]) !! OptionLegs(options[j])
  }

  predicate SegmentPresent(s: SegmentInfo)
    reads SegmentLegs(s)
  {
    forall l :: l in s.legs ==> Present(l)
  }

  predicate SegmentStripped(s: SegmentInfo)
    reads SegmentLegs(s)
  {
    forall l :: l in s.legs ==> Stripped(l)
  }

  predicate SlicePresent(s: SliceInfo)
    reads SliceLegs(s)
  {
    forall k :: 0 <= k < |s.segments| ==> SegmentPresent(s.segments[k])
  }

  predicate SliceStripped(s: SliceInfo)
    reads SliceLegs(s)
  {
    forall k :: 0 <= k < |s.segments| ==> SegmentStripped(s.segments[k])
  }

  predicate OptionPresent(o: TripOption)
    reads OptionLegs(o)
  {
    forall k :: 0 <= k < |o.slices| ==> SlicePresent(o.slices[k])
  }

  predicate OptionStripped(o: TripOption)
    reads OptionLegs(o)
  {
    forall k :: 0 <= k < |o.slices| ==> SliceStripped(o.slices[k])
  }

  // ---------------------------------------------------------------------
  // extract_flights
  // ---------------------------------------------------------------------

  /** The innermost loop: each leg loses "kind" and "id" and is kept, as the same object, in order. */
  method StripLegs(legs: seq<Leg>) returns (kept: seq<Leg>)
    requires LegsDistinct(legs) && forall l :: l in legs ==> Present(l)
    modifies set l | l in legs
    ensures kept == legs
    ensures forall l :: l in legs ==> Stripped(l)
  {
    kept := [];
    for i := 0 to |legs|
      invariant kept == legs[..i]
      invariant forall j :: 0 <= j < i ==> Stripped(legs[j])
      invariant forall j :: i <= j < |legs| ==> Present(legs[j])
    {
      var l := legs[i];
      l.kind := None;
      l.id := None;
      kept := kept + [l];
    }
  }

  /** One segment record: five keys copied, the connection time defaulting to 0, the legs stripped. */
  method ExtractSegment(s: SegmentInfo) returns (seg: Segment)
    requires LegsDistinct(s.legs) && SegmentPresent(s)
    modifies SegmentLegs(s)
    ensures seg == ToSegment(s) && SegmentStripped(s)
  {
    var legs := StripLegs(s.legs);
    var connection := if s.connectionDuration.Some? then s.connectionDuration.value else 0;
    seg := Segment(s.cabin, s.duration, s.bookingCode, s.bookingCodeCount, s.flight, connection, legs);
  }

  /** One slice record: its duration and its segments in order. */
  method ExtractSlice(s: SliceInfo) returns (slice: Slice)
    requires SegmentsApart(s.segments) && SlicePresent(s)
    modifies SliceLegs(s)
    ensures slice == ToSlice(s) && SliceStripped(s)
  {
    var segments: seq<Segment> := [];
    for i := 0 to |s.segments|
      invariant |segments| == i && forall k :: 0 <= k < i ==> segments[k] == ToSegment(s.segments[k])
      invariant forall k :: 0 <= k < i ==> SegmentStripped(s.segments[k])
      invariant forall k :: i <= k < |s.segments| ==> SegmentPresent(s.segments[k])
    {
      var seg := ExtractSegment(s.segments[i]);
      segments := segments + [seg];
    }
    slice := Slice(s.duration, segments);
  }

  /** One flight record: the price, the slices in order and the summed duration. */
  method ExtractOption(o: TripOption) returns (flight: Flight)
    requires SlicesApart(o.slices) && OptionPresent(o)
    modifies OptionLegs(o)
    ensures flight == ToFlight(o) && OptionStripped(o)
  {
    var slices: seq<Slice> := [];
    var total := 0;
    for i := 0 to |o.slices|
      invariant slices == ToSlices(o.slices[..i]) && total == SliceDurations(o.slices[..i])
      invariant forall k :: 0 <= k < i ==> SliceStripped(o.slices[k])
      invariant forall k :: i <= k < |o.slices| ==> SlicePresent(o.slices[k])
    {
      total := total + o.slices[i].duration;
      var slice := ExtractSliceOf(o, i);
      slices := slices + [slice];
      SlicePrefixStep(o.slices, i);
    }
    assert o.slices[..|o.slices|] == o.slices;
    flight := Flight(o.saleTotal, slices, total);
  }

  lemma SlicePrefixStep(slices: seq<SliceInfo>, i: nat)
    requires i < |slices|
    ensures ToSlices(slices[..i + 1]) == ToSlices(slices[..i]) + [ToSlice(slices[i])]
    ensures SliceDurations(slices[..i + 1]) == SliceDurations(slices[..i]) + slices[i].duration
  {
    assert slices[..i + 1][..i] == slices[..i];
  }

  /** The body of the loop over an option's slices: the i-th slice is
      extracted, the slices before it stay stripped and those after it
      untouched. */
  method ExtractSliceOf(o: TripOption, i: nat) returns (slice: Slice)
    requires i < |o.slices| && SlicesApart(o.slices)
    requires forall k :: 0 <= k < i ==> SliceStripped(o.slices[k])
    requires forall k :: i <= k < |o.slices| ==> SlicePresent(o.slices[k])
    modifies OptionLegs(o)
    ensures slice == ToSlice(o.slices[i])
    ensures forall k :: 0 <= k <= i ==> SliceStripped(o.slices[k])
    ensures forall k :: i < k < |o.slices| ==> SlicePresent(o.slices[k])
  {
    SliceLegsWithin(o, i);
    slice := ExtractSlice(o.slices[i]);
  }

  /** `extract_flights(response)`: None for no response, no flights without a
      "tripOption" key, otherwise one flight per option that has slices; every
      leg of the response loses its "kind" and "id" keys in place. */
  method ExtractFlights(response: Option<Trips>) returns (flights: Option<seq<Flight>>)
    requires OptionsApart(Options(response))
    requires forall k :: 0 <= k < |Options(response)| ==> OptionPresent(Options(response)[k])
    modifies OptionsLegs(Options(response))
    ensures flights == Extracted(response)
    ensures forall k :: 0 <= k < |Options(response)| ==> OptionStripped(Options(response)[k])
  {
    if response.None? {
      return None;
    }
    if response.value.tripOptions.None? {
      return Some([]);
    }
    var result := ExtractOptions(response.value.tripOptions.value);
    flights := Some(result);
  }

  /** The loop over the trip options: options without slices are skipped. */
  method ExtractOptions(options: seq<TripOption>) returns (flights: seq<Flight>)
    requires OptionsApart(options) && forall k :: 0 <= k < |options| ==> OptionPresent(options[k])
    modifies OptionsLegs(options)
    ensures flights == Reshape(options)
    ensures forall k :: 0 <= k < |options| ==> OptionStripped(options[k])
  {
    flights := [];
    for i := 0 to |options|
      invariant flights == Reshape(options[..i])
      invariant forall k :: 0 <= k < i ==> OptionStripped(options[k])
      invariant forall k :: i <= k < |options| ==> OptionPresent(options[k])
    {
      assert options[..i + 1][..i] == options[..i];
      if |options[i].slices| > 0 {
        var flight := ExtractOptionOf(options, i);
        flights := flights + [flight];
      }
    }
    assert options[..|options|] == options;
  }

  /** The body of the loop over the trip options, for an option that has slices. */
  method ExtractOptionOf(options: seq<TripOption>, i: nat) returns (flight: Flight)
    requires i < |options| && OptionsApart(options)
    requires forall k :: 0 <= k < i ==> OptionStripped(options[k])
    requires forall k :: i <= k < |options| ==> OptionPresent(options[k])
    modifies OptionsLegs(options)
    ensures flight == ToFlight(options[i])
    ensures forall k :: 0 <= k <= i ==> OptionStripped(options[k])
    ensures forall k :: i < k < |options| ==> OptionPresent(options[k])
  {
    OptionLegsWithin(options, i);
    flight := ExtractOption(options[i]);
  }

  lemma SliceLegsWithin(o: TripOption, i: nat)
    requires i < |o.slices|
    ensures SliceLegs(o.slices[i]) <= OptionLegs(o)
  {
    forall l | l in SliceLegs(o.slices[i]) ensures l in OptionLegs(o) {
      var g :| g in o.slices[i].segments && l in g.legs;
      assert o.slices[i] in o.slices;
    }
  }

  lemma OptionLegsWithin(options: seq<TripOption>, i: nat)
    requires i < |options|
    ensures OptionLegs(options[i]) <= OptionsLegs(options)
  {
    forall l | l in OptionLegs(options[i]) ensures l in OptionsLegs(options) {
      var s, g :| s in options[i].slices && g in s.segments && l in g.legs;
      assert options[i] in options;
    }
  }

  // ---------------------------------------------------------------------
  // What the flight records keep of the response
  // ---------------------------------------------------------------------

  /** The options that have at least one slice, in their original order: the
      options at the positions `SliceIndices` lists, one for one. */
  function WithSlices(options: seq<TripOption>): (r: seq<TripOption>)
    ensures |r| == |SliceIndices(options)|
    ensures forall k :: 0 <= k < |r| ==> r[k] == options[SliceIndices(options)[k]]
  {
    if |options| == 0 then []
    else
      var n := |options| - 1;
      var front := WithSlices(options[..n]);
      KeptStep(options, front);
      front + (if |options[n].slices| == 0 then [] else [options[n]])
  }

  /** One more option extends the kept options exactly as it extends their positions. */
  lemma KeptStep(options: seq<TripOption>, front: seq<TripOption>)
    requires |options| > 0
    requires var idx := SliceIndices(options[..|options| - 1]);
             |front| == |idx| && forall k :: 0 <= k < |front| ==> front[k] == options[..|options| - 1][idx[k]]
    ensures var n := |options| - 1;
            var r := front + (if |options[n].slices| == 0 then [] else [options[n]]);
            |r| == |SliceIndices(options)| && forall k :: 0 <= k < |r| ==> r[k] == options[SliceIndices(options)[k]]
  {
    var n := |options| - 1;
    var idx := SliceIndices(options[..n]);
    assert SliceIndices(options) == idx + (if |options[n].slices| == 0 then [] else [n]);
    ExtendPositions(options, front, idx);
  }

  /** The same step for any positions below the last one. */
  lemma ExtendPositions(options: seq<TripOption>, front: seq<TripOption>, idx: seq<nat>)
    requires |options| > 0
    requires |front| == |idx| && forall k :: 0 <= k < |front| ==> idx[k] < |options| - 1 && front[k] == options[..|options| - 1][idx[k]]
    ensures var n := |options| - 1;
            var r := front + (if |options[n].slices| == 0 then [] else [options[n]]);
            var all := idx + (if |options[n].slices| == 0 then [] else [n]);
            |r| == |all| && forall k :: 0 <= k < |r| ==> all[k] < |options| && r[k] == options[all[k]]
  {
    var n := |options| - 1;
    var r := front + (if |options[n].slices| == 0 then [] else [options[n]]);
    var all := idx + (if |options[n].slices| == 0 then [] else [n]);
    forall k | 0 <= k < |r| ensures all[k] < |options| && r[k] == options[all[k]] {
      if k < |front| {
        assert r[k] == front[k] && all[k] == idx[k];
      }
    }
  }

  /** The positions of the options that have at least one slice, each once, in
      increasing order; all positions exactly when every option has a slice. */
  function SliceIndices(options: seq<TripOption>): (idx: seq<nat>)
    ensures |idx| <= |options|
    ensures forall k :: 0 <= k < |idx| ==> idx[k] < |options| && |options[idx[k]].slices| > 0
    ensures forall k, j :: 0 <= k < j < |idx| ==> idx[k] < idx[j]
    ensures forall i {:trigger i in idx} :: 0 <= i < |options| && |options[i].slices| > 0 ==> i in idx
    ensures |idx| == |options| <==> forall i :: 0 <= i < |options| ==> |options[i].slices| > 0
  {
    if |options| == 0 then []
    else
      var n := |options| - 1;
      var front := SliceIndices(options[..n]);
      assert forall k :: 0 <= k < |front| ==> options[..n][front[k]] == options[front[k]];
      assert forall i :: 0 <= i < n ==> options[..n][i] == options[i];
      front + (if |options[n].slices| == 0 then [] else [n])
  }

  /** Extraction drops exactly the options without slices and turns every
      other one into a flight, keeping their order. */
  lemma {:induction false} ReshapeFollowsOptions(options: seq<TripOption>)
    ensures |Reshape(options)| == |WithSlices(options)|
    ensures forall k :: 0 <= k < |Reshape(options)| ==> Reshape(options)[k] == ToFlight(WithSlices(options)[k])
  {
    if |options| > 0 {
      ReshapeFollowsOptions(options[..|options| - 1]);
    }
  }

  /** The sum of the durations of a flight record's slices. */
  function Durations(slices: seq<Slice>): int {
    if |slices| == 0 then 0 else Durations(slices[..|slices| - 1]) + slices[|slices| - 1].duration
  }

  lemma {:induction false} DurationsKept(slices: seq<SliceInfo>)
    ensures Durations(ToSlices(slices)) == SliceDurations(slices)
  {
    if |slices| > 0 {
      var n := |slices| - 1;
      DurationsKept(slices[..n]);
      assert ToSlices(slices)[..n] == ToSlices(slices[..n]);
    }
  }

  /** Every extracted flight has a slice, and its total duration is the sum of its slices' durations. */
  lemma {:induction false} FlightDurationsAdd(options: seq<TripOption>)
    ensures forall f :: f in Reshape(options) ==> |f.slices| > 0 && f.totalDuration == Durations(f.slices)
  {
    if |options| > 0 {
      var last := options[|options| - 1];
      FlightDurationsAdd(options[..|options| - 1]);
      DurationsKept(last.slices);
      var flight := ToFlight(last);
      assert forall f :: f in Reshape(options) ==> f in Reshape(options[..|options| - 1]) || (f == flight && |last.slices| > 0);
    }
  }

  // ---------------------------------------------------------------------
  // stringify
  // ---------------------------------------------------------------------

  /** `get_origin(slice, p)` reads the first leg of the first segment; None where
      Python raises an IndexError. When it exists it is the slice's first leg. */
  function FirstLeg(s: Slice): (r: Option<LegInfo>)
    ensures r.Some? <==> |s.segments| > 0 && |s.segments[0].legs| > 0
    ensures r.Some? ==> |SegmentsLegInfos(s.segments)| > 0 && r.value == SegmentsLegInfos(s.segments)[0]
  {
    if |s.segments| == 0 || |s.segments[0].legs| == 0 then None
    else
      SegmentsFirstLeg(s.segments);
      Some(s.segments[0].legs[0].info)
  }

  /** `get_destination(slice, p)` reads the last leg of the last segment; None
      where Python raises an IndexError. When it exists it is the slice's last leg. */
  function LastLeg(s: Slice): (r: Option<LegInfo>)
    ensures r.Some? <==> |s.segments| > 0 && |s.segments[|s.segments| - 1].legs| > 0
    ensures r.Some? ==> var legs := SegmentsLegInfos(s.segments); |legs| > 0 && r.value == legs[|legs| - 1]
  {
    if |s.segments| == 0 then None
    else
      var legs := s.segments[|s.segments| - 1].legs;
      if |legs| == 0 then None
      else
        assert SegmentsLegInfos(s.segments) == SegmentsLegInfos(s.segments[..|s.segments| - 1]) + LegInfos(legs);
        Some(legs[|legs| - 1].info)
  }

  lemma {:induction false} SegmentsFirstLeg(segments: seq<Segment>)
    requires |segments| > 0 && |segments[0].legs| > 0
    ensures |SegmentsLegInfos(segments)| > 0 && SegmentsLegInfos(segments)[0] == segments[0].legs[0].info
  {
    var n := |segments| - 1;
    if n == 0 {
      assert segments[..n] == [];
      assert SegmentsLegInfos(segments) == SegmentsLegInfos([]) + LegInfos(segments[0].legs);
    } else {
      SegmentsFirstLeg(segments[..n]);
      assert segments[..n][0] == segments[0];
    }
  }

  /** The origin and destination the description names. The origin is where
      the first slice starts. With two slices the destination is where the
      second slice ends unless that is the origin again (a return trip), and
      then where the first slice ends; otherwise it is where the first slice
      ends. */
  function Route(f: Flight): (r: Option<(string, string)>)
    ensures r.Some? <==>
      (|f.slices| > 0 && FirstLeg(f.slices[0]).Some? &&
       if |f.slices| == 2 then
         LastLeg(f.slices[1]).Some? &&
         (LastLeg(f.slices[1]).value.destination == FirstLeg(f.slices[0]).value.origin ==> LastLeg(f.slices[0]).Some?)
       else LastLeg(f.slices[0]).Some?)
    ensures r.Some? ==> r.value.0 == FirstLeg(f.slices[0]).value.origin
    ensures r.Some? && |f.slices| != 2 ==> r.value.1 == LastLeg(f.slices[0]).value.destination
    ensures r.Some? && |f.slices| == 2 && LastLeg(f.slices[1]).value.destination != r.value.0 ==>
      r.value.1 == LastLeg(f.slices[1]).value.destination
    ensures r.Some? && |f.slices| == 2 && LastLeg(f.slices[1]).value.destination == r.value.0 ==>
      r.value.1 == LastLeg(f.slices[0]).value.destination
  {
    if |f.slices| == 0 then None
    else match FirstLeg(f.slices[0])
      case None => None
      case Some(first) =>
        if |f.slices| == 2 then
          match LastLeg(f.slices[1])
          case None => None
          case Some(back) =>
            if back.destination != first.origin then Some((first.origin, back.destination))
            else OutboundRoute(first.origin, f.slices[0])
        else OutboundRoute(first.origin, f.slices[0])
  }

  function OutboundRoute(origin: string, outbound: Slice): (r: Option<(string, string)>)
    ensures r.Some? <==> LastLeg(outbound).Some?
    ensures r.Some? ==> r.value == (origin, LastLeg(outbound).value.destination)
  {
    match LastLeg(outbound)
    case None => None
    case Some(out) => Some((origin, out.destination))
  }

  const ReturnTrip := "Return Trip from "

  /** The opening of the description: "Return Trip" for two slices, "<n>-Way
      Trip" otherwise, followed by " from <origin> to <destination>". */
  function Header(slices: nat, origin: string, destination: string): (r: string)
    ensures ReturnTrip <= r <==> slices == 2
    ensures slices != 2 ==> NatToString(slices) + "-Way Trip from " <= r
    ensures var tail := " from " + origin + " to " + destination;
            |tail| < |r| && r[|r| - |tail|..] == tail
    ensures |r| == |if slices == 2 then "Return Trip" else NatToString(slices) + "-Way Trip"|
                   + |" from " + origin + " to " + destination|
  {
    var tail := " from " + origin + " to " + destination;
    if slices == 2 then
      var r := ReturnTrip + origin + " to " + destination;
      assert r == "Return Trip" + tail;
      r
    else
      var count := NatToString(slices);
      var lead := count + "-Way Trip from ";
      var r := count + "-Way Trip from " + origin + " to " + destination;
      assert r == lead + (origin + " to " + destination);
      assert r == count + "-Way Trip" + tail;
      assert r[0] == count[0] && IsDigit(count[0]) && ReturnTrip[0] == 'R';
      r
  }

  /** Every leg of a flight, slice by slice, segment by segment. */
  function LegInfos(legs: seq<Leg>): seq<LegInfo> {
    seq(|legs|, k requires 0 <= k < |legs| => legs[k].info)
  }

  function SegmentsLegInfos(segments: seq<Segment>): seq<LegInfo> {
    if |segments| == 0 then []
    else SegmentsLegInfos(segments[..|segments| - 1]) + LegInfos(segments[|segments| - 1].legs)
  }

  function SlicesLegInfos(slices: seq<Slice>): seq<LegInfo> {
    if |slices| == 0 then []
    else SlicesLegInfos(slices[..|slices| - 1]) + SegmentsLegInfos(slices[|slices| - 1].segments)
  }

  /** What `intermediate_stops` collects: every leg's origin other than the
      trip's origin and every leg's destination other than the trip's
      destination. */
  function StopsAsWritten(legs: seq<LegInfo>, origin: string, destination: string): set<string> {
    (set l | l in legs && l.origin != origin :: l.origin) + (set l | l in legs && l.destination != destination :: l.destination)
  }

  lemma StopsAppend(a: seq<LegInfo>, b: seq<LegInfo>, origin: string, destination: string)
    ensures StopsAsWritten(a + b, origin, destination) == StopsAsWritten(a, origin, destination) + StopsAsWritten(b, origin, destination)
  {
  }

  /** `intermediate_stops(flight, origin, destination)`, as written: the three nested loops over the legs. */
  method IntermediateStops(f: Flight, origin: string, destination: string) returns (stops: set<string>)
    ensures stops == StopsAsWritten(SlicesLegInfos(f.slices), origin, destination)
  {
    stops := {};
    for i := 0 to |f.slices|
      invariant stops == StopsAsWritten(SlicesLegInfos(f.slices[..i]), origin, destination)
    {
      var slice := f.slices[i];
      ghost var before := stops;
      for j := 0 to |slice.segments|
        invariant stops == before + StopsAsWritten(SegmentsLegInfos(slice.segments[..j]), origin, destination)
      {
        var segment := slice.segments[j];
        ghost var seen := stops;
        for k := 0 to |segment.legs|
          invariant stops == seen + StopsAsWritten(LegInfos(segment.legs[..k]), origin, destination)
        {
          var leg := segment.legs[k].info;
          if leg.origin != origin {
            stops := stops + {leg.origin};
          }
          if leg.destination != destination {
            stops := stops + {leg.destination};
          }
          LegStopsStep(segment.legs, k, origin, destination);
        }
        assert segment.legs[..|segment.legs|] == segment.legs;
        SegmentStopsStep(slice.segments, j, origin, destination);
      }
      assert slice.segments[..|slice.segments|] == slice.segments;
      SliceStopsStep(f.slices, i, origin, destination);
    }
    assert f.slices[..|f.slices|] == f.slices;
  }

  lemma LegStopsStep(legs: seq<Leg>, k: nat, origin: string, destination: string)
    requires k < |legs|
    ensures var l := legs[k].info;
            StopsAsWritten(LegInfos(legs[..k + 1]), origin, destination)
            == StopsAsWritten(LegInfos(legs[..k]), origin, destination)
               + (if l.origin != origin then {l.origin} else {}) + (if l.destination != destination then {l.destination} else {})
  {
    assert LegInfos(legs[..k + 1]) == LegInfos(legs[..k]) + [legs[k].info];
    StopsAppend(LegInfos(legs[..k]), [legs[k].info], origin, destination);
    StopsOfLeg(legs[k].info, origin, destination);
  }

  lemma SegmentStopsStep(segments: seq<Segment>, j: nat, origin: string, destination: string)
    requires j < |segments|
    ensures StopsAsWritten(SegmentsLegInfos(segments[..j + 1]), origin, destination)
         == StopsAsWritten(SegmentsLegInfos(segments[..j]), origin, destination)
            + StopsAsWritten(LegInfos(segments[j].legs), origin, destination)
  {
    assert segments[..j + 1][..j] == segments[..j];
    StopsAppend(SegmentsLegInfos(segments[..j]), LegInfos(segments[j].legs), origin, destination);
  }

  lemma SliceStopsStep(slices: seq<Slice>, i: nat, origin: string, destination: string)
    requires i < |slices|
    ensures StopsAsWritten(SlicesLegInfos(slices[..i + 1]), origin, destination)
         == StopsAsWritten(SlicesLegInfos(slices[..i]), origin, destination)
            + StopsAsWritten(SegmentsLegInfos(slices[i].segments), origin, destination)
  {
    assert slices[..i + 1][..i] == slices[..i];
    StopsAppend(SlicesLegInfos(slices[..i]), SegmentsLegInfos(slices[i].segments), origin, destination);
  }

  lemma StopsOfLeg(l: LegInfo, origin: string, destination: string)
    ensures StopsAsWritten([l], origin, destination)
         == (if l.origin != origin then {l.origin} else {}) + (if l.destination != destination then {l.destination} else {})
  {
    assert forall x :: x in [l] <==> x == l;
  }

  /** Every place a leg starts or ends. */
  function Endpoints(legs: seq<LegInfo>): set<string> {
    (set l | l in legs :: l.origin) + (set l | l in legs :: l.destination)
  }

  /** The stops the description evidently means: the places the legs pass
      through other than the trip's own origin and destination. */
  function Stops(legs: seq<LegInfo>, origin: string, destination: string): (r: set<string>)
    ensures origin !in r && destination !in r
  {
    Endpoints(legs) - {origin, destination}
  }

  /** The intended stops are the collected ones without the trip's two endpoints. */
  lemma StopsWithoutEndpoints(legs: seq<LegInfo>, origin: string, destination: string)
    ensures Stops(legs, origin, destination) == StopsAsWritten(legs, origin, destination) - {origin, destination}
  {
  }

  /** The two agree whenever no leg leaves from the trip's destination and no
      leg arrives at its origin, as on a one-way trip that never turns back. */
  lemma {:induction false} StopsAgreeOneWay(legs: seq<LegInfo>, origin: string, destination: string)
    requires forall l :: l in legs ==> l.origin != destination && l.destination != origin
    ensures StopsAsWritten(legs, origin, destination) == Stops(legs, origin, destination)
  {
    forall x | x in StopsAsWritten(legs, origin, destination) ensures x != origin && x != destination {
      if x in (set l | l in legs && l.origin != origin :: l.origin) {
        var l :| l in legs && l.origin != origin && l.origin == x;
      } else {
        var l :| l in legs && l.destination != destination && l.destination == x;
      }
    }
    StopsWithoutEndpoints(legs, origin, destination);
  }

  /** On the return trip LAX-AMS, AMS-LAX the collected "stops" are the two
      endpoints themselves, where a non-stop return trip has none. */
  lemma ReturnTripStops(outbound: LegInfo, inbound: LegInfo)
    requires outbound.origin == "LAX" && outbound.destination == "AMS"
    requires inbound.origin == "AMS" && inbound.destination == "LAX"
    ensures StopsAsWritten([outbound, inbound], "LAX", "AMS") == {"AMS", "LAX"}
    ensures Stops([outbound, inbound], "LAX", "AMS") == {}
  {
    var legs := [outbound, inbound];
    assert (set l | l in legs && l.origin != "LAX" :: l.origin) == {"AMS"};
    assert (set l | l in legs && l.destination != "AMS" :: l.destination) == {"LAX"};
    assert (set l | l in legs :: l.origin) == {"LAX", "AMS"};
  }

  /** Such a return trip is described as going from LAX to AMS. */
  lemma ReturnTripRoute(out: Leg, back: Leg, outbound: Segment, inbound: Segment, price: string, total: int)
    requires out.info.origin == "LAX" && out.info.destination == "AMS"
    requires back.info.origin == "AMS" && back.info.destination == "LAX"
    requires outbound.legs == [out] && inbound.legs == [back]
    ensures var f := Flight(price, [Slice(0, [outbound]), Slice(0, [inbound])], total);
      Route(f) == Some(("LAX", "AMS")) && SlicesLegInfos(f.slices) == [out.info, back.info]
  {
    var f := Flight(price, [Slice(0, [outbound]), Slice(0, [inbound])], total);
    assert f.slices[..1] == [Slice(0, [outbound])];
    assert [Slice(0, [outbound])][..0] == [];
    assert [outbound][..0] == [] && [inbound][..0] == [];
    assert LegInfos([out]) == [out.info] && LegInfos([back]) == [back.info];
    assert SegmentsLegInfos([outbound]) == [out.info];
    assert SegmentsLegInfos([inbound]) == [back.info];
    assert SlicesLegInfos(f.slices[..1]) == [out.info];
  }

  /** Every segment of a flight, slice by slice. */
  function SlicesSegments(slices: seq<Slice>): seq<Segment> {
    if |slices| == 0 then [] else SlicesSegments(slices[..|slices| - 1]) + slices[|slices| - 1].segments
  }

  /** What `carriers` collects: the carrier of every segment. */
  function CarrierSet(segments: seq<Segment>): (r: set<string>)
    ensures |segments| > 0 ==> r != {}
  {
    if |segments| == 0 then {}
    else CarrierSet(segments[..|segments| - 1]) + {segments[|segments| - 1].flight.carrier}
  }

  /** A carrier is collected exactly when some segment flies it. */
  lemma {:induction false} CarrierSetMembers(segments: seq<Segment>, c: string)
    ensures c in CarrierSet(segments) <==> exists k :: 0 <= k < |segments| && segments[k].flight.carrier == c
  {
    if |segments| > 0 {
      var n := |segments| - 1;
      CarrierSetMembers(segments[..n], c);
      if c in CarrierSet(segments[..n]) {
        var k :| 0 <= k < n && segments[..n][k].flight.carrier == c;
        assert segments[k].flight.carrier == c;
      }
      if exists k :: 0 <= k < |segments| && segments[k].flight.carrier == c {
        var k :| 0 <= k < |segments| && segments[k].flight.carrier == c;
        if k < n {
          assert segments[..n][k].flight.carrier == c;
        }
      }
    }
  }

  lemma {:induction false} CarrierSetAppend(a: seq<Segment>, b: seq<Segment>)
    ensures CarrierSet(a + b) == CarrierSet(a) + CarrierSet(b)
  {
    if |b| > 0 {
      CarrierSetAppend(a, b[..|b| - 1]);
      assert (a + b)[..|a + b| - 1] == a + b[..|b| - 1];
    } else {
      assert a + b == a;
    }
  }

  /** `carriers(flight)`: the two nested loops over the segments. */
  method Carriers(f: Flight) returns (carriers: set<string>)
    ensures carriers == CarrierSet(SlicesSegments(f.slices))
  {
    carriers := {};
    for i := 0 to |f.slices|
      invariant carriers == CarrierSet(SlicesSegments(f.slices[..i]))
    {
      var slice := f.slices[i];
      ghost var before := carriers;
      for j := 0 to |slice.segments|
        invariant carriers == before + CarrierSet(slice.segments[..j])
      {
        carriers := carriers + {slice.segments[j].flight.carrier};
        assert slice.segments[..j + 1][..j] == slice.segments[..j];
      }
      assert slice.segments[..|slice.segments|] == slice.segments;
      assert f.slices[..i + 1][..i] == f.slices[..i];
      CarrierSetAppend(SlicesSegments(f.slices[..i]), slice.segments);
    }
    assert f.slices[..|f.slices|] == f.slices;
  }

  /** A flight whose first slice has a segment has a carrier to name. */
  lemma {:induction false} FirstCarrier(slices: seq<Slice>)
    requires |slices| > 0 && |slices[0].segments| > 0
    ensures |SlicesSegments(slices)| > 0
  {
    if |slices| > 1 {
      FirstCarrier(slices[..|slices| - 1]);
    } else {
      assert SlicesSegments(slices) == SlicesSegments(slices[..0]) + slices[0].segments;
    }
  }

  /** `stringify_list(l)`: "a", "a and b", "a, b and c", ...; None where Python
      raises an IndexError, on the empty list. */
  function StringifyList(l: seq<string>): (r: Option<string>)
    ensures r.Some? <==> |l| > 0
  {
    if |l| == 0 then None
    else if |l| == 1 then Some(l[0])
    else
      var n := |l|;
      Some((if n > 2 then Join(", ", l[..n - 2]) + ", " else "") + l[n - 2] + " and " + l[n - 1])
  }

  /** The same phrase built from the front: each item but the last two is followed by ", ". */
  function ListPhrase(l: seq<string>): string
    requires |l| > 0
  {
    if |l| == 1 then l[0]
    else if |l| == 2 then l[0] + " and " + l[1]
    else l[0] + ", " + ListPhrase(l[1..])
  }

  /** `stringify_list` names every item in order, separated by ", " and a final " and ". */
  lemma {:induction false} StringifyListIsPhrase(l: seq<string>)
    requires |l| > 0
    ensures StringifyList(l) == Some(ListPhrase(l))
  {
    var n := |l|;
    if n > 3 {
      StringifyListIsPhrase(l[1..]);
      assert l[1..][..n - 3] == l[..n - 2][1..];
      assert l[..n - 2][0] == l[0];
      var joined := Join(", ", l[1..][..n - 3]);
      assert Join(", ", l[..n - 2]) == l[0] + ", " + joined;
      assert l[1..][n - 3] == l[n - 2] && l[1..][n - 2] == l[n - 1];
      assert ListPhrase(l[1..]) == joined + ", " + l[n - 2] + " and " + l[n - 1];
      assert l[0] + ", " + (joined + ", " + l[n - 2] + " and " + l[n - 1])
          == l[0] + ", " + joined + ", " + l[n - 2] + " and " + l[n - 1];
    } else if n == 3 {
      assert l[..1] == [l[0]];
      assert Join(", ", l[..1]) == l[0];
      assert ListPhrase(l[1..]) == l[1] + " and " + l[2];
      assert StringifyList(l) == Some(l[0] + ", " + l[1] + " and " + l[2]);
      assert l[0] + ", " + (l[1] + " and " + l[2]) == l[0] + ", " + l[1] + " and " + l[2];
    } else if n == 2 {
      assert "" + l[0] == l[0];
    }
  }

  /** `len("YYYY-MM-DD")`. */
  const DateLength := 10

  const SameDay := "the same day at "

  /** The arrival as the description gives it: only the time of day, after "the
      same day at ", when it falls on the departure's date. */
  function ArrivalText(departure: string, arrival: string): (r: string)
    ensures r != arrival <==> Take(departure, DateLength) == Take(arrival, DateLength)
    ensures r != arrival ==> SameDay <= r
  {
    if Take(departure, DateLength) == Take(arrival, DateLength) then
      var r := SameDay + Drop(arrival, DateLength + 1);
      assert |r| != |arrival|;
      r
    else arrival
  }

  /** The price text "USD<amount>" reads "$ <amount>". */
  lemma PriceInDollars(amount: string)
    requires forall i :: 0 <= i < |amount| ==> amount[i] != 'U'
    ensures ReplaceAll("USD" + amount, "USD", "$ ") == "$ " + amount
  {
    assert ("USD" + amount)[..3] == "USD";
    assert ("USD" + amount)[3..] == amount;
    ReplaceAbsent(amount, "USD", "$ ");
  }

  /** Both lists a set-to-list conversion may produce hold each member once. */
  predicate Listing(l: seq<string>, s: set<string>) {
    |l| == |s| && (forall x :: x in l ==> x in s) && (forall x :: x in s ==> x in l)
  }

  /** `stringify(flight)` as written, the stops being what
      `intermediate_stops` collects. `list(set)` is the parameter `order`,
      since Python's set order is not specified. None where Python raises an
      IndexError: a flight without slices or with a slice whose first or last
      segment has no legs. */
  function Stringify(f: Flight, order: set<string> -> seq<string>): (r: Option<string>)
    requires forall s :: Listing(order(s), s)
    ensures r.Some? <==> Route(f).Some? && LastLeg(f.slices[|f.slices| - 1]).Some?
    ensures r.Some? ==> var (origin, destination) := Route(f).value;
      r.value == Header(|f.slices|, origin, destination)
                 + OverPhrase(StopsAsWritten(SlicesLegInfos(f.slices), origin, destination), order)
                 + Particulars(f, LastLeg(f.slices[|f.slices| - 1]).value, order)
    ensures r.Some? ==> Header(|f.slices|, Route(f).value.0, Route(f).value.1) <= r.value
    ensures r.Some? ==> (ReturnTrip <= r.value <==> |f.slices| == 2)
    ensures r.Some? ==> var (origin, destination) := Route(f).value;
      (Header(|f.slices|, origin, destination) + " over " <= r.value
       <==> StopsAsWritten(SlicesLegInfos(f.slices), origin, destination) != {})
  {
    match Route(f)
    case None => None
    case Some((origin, destination)) =>
      Sentence(f, origin, destination, StopsAsWritten(SlicesLegInfos(f.slices), origin, destination), order)
  }

  /** `stringify(flight)` with the stops it evidently means: the trip's own
      origin and destination are never listed as stops. */
  function StringifyCorrected(f: Flight, order: set<string> -> seq<string>): (r: Option<string>)
    requires forall s :: Listing(order(s), s)
    ensures r.Some? <==> Route(f).Some? && LastLeg(f.slices[|f.slices| - 1]).Some?
    ensures r.Some? ==> var (origin, destination) := Route(f).value;
      r.value == Header(|f.slices|, origin, destination)
                 + OverPhrase(Stops(SlicesLegInfos(f.slices), origin, destination), order)
                 + Particulars(f, LastLeg(f.slices[|f.slices| - 1]).value, order)
    ensures r.Some? ==> Header(|f.slices|, Route(f).value.0, Route(f).value.1) <= r.value
    ensures r.Some? ==> (ReturnTrip <= r.value <==> |f.slices| == 2)
    ensures r.Some? ==> var (origin, destination) := Route(f).value;
      (Header(|f.slices|, origin, destination) + " over " <= r.value
       <==> Stops(SlicesLegInfos(f.slices), origin, destination) != {})
  {
    match Route(f)
    case None => None
    case Some((origin, destination)) =>
      Sentence(f, origin, destination, Stops(SlicesLegInfos(f.slices), origin, destination), order)
  }

  /** The description of a flight with the given route and stops: the header,
      the stops phrase and the particulars. None when the last slice's final
      leg is missing. */
  function Sentence(f: Flight, origin: string, destination: string, stops: set<string>,
                    order: set<string> -> seq<string>): (r: Option<string>)
    requires forall s :: Listing(order(s), s)
    requires |f.slices| > 0 && FirstLeg(f.slices[0]).Some?
    ensures r.Some? <==> LastLeg(f.slices[|f.slices| - 1]).Some?
    ensures r.Some? ==> r.value == Header(|f.slices|, origin, destination) + OverPhrase(stops, order)
                                   + Particulars(f, LastLeg(f.slices[|f.slices| - 1]).value, order)
    ensures r.Some? ==> Header(|f.slices|, origin, destination) <= r.value
    ensures r.Some? ==> (ReturnTrip <= r.value <==> |f.slices| == 2)
    ensures r.Some? ==> (Header(|f.slices|, origin, destination) + " over " <= r.value <==> stops != {})
  {
    match LastLeg(f.slices[|f.slices| - 1])
    case None => None
    case Some(last) =>
      var header := Header(|f.slices|, origin, destination);
      var over := OverPhrase(stops, order);
      var tail := Particulars(f, last, order);
      assert header[0] != ReturnTrip[0] || ReturnTrip <= header;
      Compose(header, over, tail, |f.slices| == 2);
      Some(header + over + tail)
  }

  /** `" over %s" % stringify_list(im)` when there are stops, else nothing. */
  function OverPhrase(stops: set<string>, order: set<string> -> seq<string>): (r: string)
    requires forall s :: Listing(order(s), s)
    ensures r == "" <==> stops == {}
    ensures stops != {} ==> |order(stops)| > 0 && r == " over " + ListPhrase(order(stops))
  {
    var listed := order(stops);
    assert Listing(listed, stops);
    if |listed| > 0 then
      StringifyListIsPhrase(listed);
      " over " + StringifyList(listed).value
    else ""
  }

  /** What follows the route and stops (qpx.py:130-137): the departure time,
      the arrival time or "the same day at" its time of day, every carrier in a
      phrase, and the price with "USD" written "$ ". */
  function Particulars(f: Flight, last: LegInfo, order: set<string> -> seq<string>): (r: string)
    requires forall s :: Listing(order(s), s)
    requires |f.slices| > 0 && FirstLeg(f.slices[0]).Some?
    ensures CarrierSet(SlicesSegments(f.slices)) != {} && |order(CarrierSet(SlicesSegments(f.slices)))| > 0
    ensures var departure := ReplaceAll(FirstLeg(f.slices[0]).value.departureTime, "T", " ");
            r == " departing on " + (departure
                 + " and arriving on " + ArrivalText(departure, ReplaceAll(last.arrivalTime, "T", " "))
                 + " with " + ListPhrase(order(CarrierSet(SlicesSegments(f.slices))))
                 + " for " + ReplaceAll(f.price, "USD", "$ "))
    ensures " departing on " <= r
  {
    var departure := ReplaceAll(FirstLeg(f.slices[0]).value.departureTime, "T", " ");
    FirstCarrier(f.slices);
    var carriers := order(CarrierSet(SlicesSegments(f.slices)));
    assert Listing(carriers, CarrierSet(SlicesSegments(f.slices)));
    StringifyListIsPhrase(carriers);
    " departing on " + (departure
      + " and arriving on " + ArrivalText(departure, ReplaceAll(last.arrivalTime, "T", " "))
      + " with " + StringifyList(carriers).value
      + " for " + ReplaceAll(f.price, "USD", "$ "))
  }

  /** The stops phrase, when present, is what follows the header; otherwise " departing" does. */
  lemma MentionsStops(header: string, over: string, tail: string)
    requires over == "" || " over " <= over
    requires " departing on " <= tail
    ensures header + " over " <= header + over + tail <==> over != ""
  {
    var whole := header + over + tail;
    if over == "" {
      assert whole[|header| + 1] == tail[1] == 'd';
      assert (header + " over ")[|header| + 1] == 'o';
    } else {
      assert whole[..|header| + 6] == header + over[..6];
    }
  }

  /** The header opens the description, and the stops phrase, when present,
      follows it; the "Return Trip" opening carries over from the header. */
  lemma Compose(header: string, over: string, tail: string, twoSlices: bool)
    requires |header| > 0 && (ReturnTrip <= header <==> twoSlices)
    requires ReturnTrip <= header || header[0] != ReturnTrip[0]
    requires over == "" || " over " <= over
    requires " departing on " <= tail
    ensures header <= header + over + tail
    ensures ReturnTrip <= header + over + tail <==> twoSlices
    ensures header + " over " <= header + over + tail <==> over != ""
  {
    assert header + over + tail == header + (over + tail);
    PrefixOfAppend(ReturnTrip, header, over + tail);
    MentionsStops(header, over, tail);
  }

  /** When no leg leaves from the trip's destination or arrives at its origin,
      the description as written is the intended one. */
  lemma StringifyAgreesOneWay(f: Flight, order: set<string> -> seq<string>)
    requires forall s :: Listing(order(s), s)
    requires Route(f).Some?
    requires forall l :: l in SlicesLegInfos(f.slices) ==> l.origin != Route(f).value.1 && l.destination != Route(f).value.0
    ensures Stringify(f, order) == StringifyCorrected(f, order)
  {
    StopsAgreeOneWay(SlicesLegInfos(f.slices), Route(f).value.0, Route(f).value.1);
  }

  /** The non-stop return trip LAX-AMS, AMS-LAX is described, as written, as
      going "over" stops (its own endpoints); the intended description has no stops. */
  lemma ReturnTripDescriptions(out: Leg, back: Leg, outbound: Segment, inbound: Segment, price: string, total: int,
                               order: set<string> -> seq<string>)
    requires forall s :: Listing(order(s), s)
    requires out.info.origin == "LAX" && out.info.destination == "AMS"
    requires back.info.origin == "AMS" && back.info.destination == "LAX"
    requires outbound.legs == [out] && inbound.legs == [back]
    ensures var f := Flight(price, [Slice(0, [outbound]), Slice(0, [inbound])], total);
      Stringify(f, order).Some? && StringifyCorrected(f, order).Some? &&
      Header(2, "LAX", "AMS") + " over " <= Stringify(f, order).value &&
      !(Header(2, "LAX", "AMS") + " over " <= StringifyCorrected(f, order).value)
  {
    var f := Flight(price, [Slice(0, [outbound]), Slice(0, [inbound])], total);
    ReturnTripRoute(out, back, outbound, inbound, price, total);
    ReturnTripStops(out.info, back.info);
    assert LastLeg(f.slices[1]).Some?;
  }

  /** A non-empty text starts with `p` exactly when it does once more text follows it, if it is no shorter than `p`
      or disagrees with `p` on its first character. */
  lemma PrefixOfAppend(p: string, a: string, b: string)
    requires |p| > 0 && |a| > 0
    requires p <= a || a[0] != p[0]
    ensures p <= a + b <==> p <= a
  {
    if p <= a + b {
      assert (a + b)[0] == a[0];
    }
  }
}
