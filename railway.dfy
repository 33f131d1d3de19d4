/**
 * The railway network's payloads and the timing configuration of a railway segment
 * (engine/metro/railways.rs). The railways are a `Network` of these payloads.
 */
module Railways {
  import opened Wrappers
  import opened Addresses
  import opened Junctions
  import opened Networks

  datatype Station = Station(name: string, address: Address)

  /** `RailwayJunction`: a junction, possibly with a station. */
  datatype RailwayJunction = RailwayJunction(station: Option<Station>)

  /** `RailwaySegment`: a segment, possibly with its own speed limit (a u32). */
  datatype RailwaySegment = RailwaySegment(speedLimit: Option<nat>)

  /** `network::TimingConfig`; the f64 fields are reals, and every speed below is a whole number. */
  datatype TimingConfig = TimingConfig(
    tileSize: real, maxSpeed: real, maxAcceleration: real, startSpeed: real, endSpeed: real)

  /** `u32::MAX`. */
  const U32Max: nat := 0xFFFF_FFFF

  /** The speed at an end of the segment: zero at a station, the maximum speed elsewhere. */
  function EndSpeed(j: Junction<RailwayJunction>, maxSpeed: real): real {
    if j.data.station.Some? then 0.0 else maxSpeed
  }

  /**
   * `timing_config`: the maximum speed is the smaller of the line's limit and the
   * segment's (u32::MAX when the segment has none); trains stop at stations at either
   * end. The source looks both junctions up and panics when one is missing.
   */
  function TimingConfigOf(segment: Segment<RailwaySegment>, speedLimit: nat, tileSize: real,
                          junctions: map<nat, Junction<RailwayJunction>>): (r: TimingConfig)
    requires speedLimit <= U32Max
    requires segment.start in junctions && segment.end in junctions
    ensures r.tileSize == tileSize && r.maxAcceleration == 1.5
    ensures r.maxSpeed <= speedLimit as real && r.maxSpeed <= U32Max as real
    ensures segment.data.speedLimit.Some? ==> r.maxSpeed <= segment.data.speedLimit.value as real
    ensures r.maxSpeed == speedLimit as real
      || (segment.data.speedLimit.Some? && r.maxSpeed == segment.data.speedLimit.value as real)
    ensures r.startSpeed == 0.0 || r.startSpeed == r.maxSpeed
    ensures r.endSpeed == 0.0 || r.endSpeed == r.maxSpeed
    ensures junctions[segment.start].data.station.Some? ==> r.startSpeed == 0.0
    ensures junctions[segment.start].data.station.None? ==> r.startSpeed == r.maxSpeed
    ensures junctions[segment.end].data.station.Some? ==> r.endSpeed == 0.0
    ensures junctions[segment.end].data.station.None? ==> r.endSpeed == r.maxSpeed
  {
    var own := match segment.data.speedLimit { case Some(l) => l case None => U32Max };
    var maxSpeed := (if speedLimit <= own then speedLimit else own) as real;
    TimingConfig(tileSize, maxSpeed, 1.5,
                 EndSpeed(junctions[segment.start], maxSpeed),
                 EndSpeed(junctions[segment.end], maxSpeed))
  }
}
