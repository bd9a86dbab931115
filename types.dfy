/** The telemetry value types of Types.kt: pyro-channel configuration and
    state, one flight computer's status snapshot, and the ground station
    that holds the computers it has heard from. Floating-point fields are
    IEEE-754 bit patterns that are only ever copied; a monotonic time mark
    is an opaque reading. */
module Types {
  import opened Wrappers

  /** A Kotlin `Float`, as its 32-bit IEEE-754 pattern. */
  datatype Float32 = Float32(bits: bv32)
  /** A Kotlin `Double`, as its 64-bit IEEE-754 pattern. */
  datatype Float64 = Float64(bits: bv64)

  /** `0.0f` and `0.0`: every bit clear. */
  const ZeroFloat32 := Float32(0)
  const ZeroFloat64 := Float64(0)

  /** A `kotlin.time.TimeMark`: a reading of a monotonic clock. */
  datatype TimeMark = TimeMark(reading: int)

  /** What fires a pyro channel, and after what delay. */
  datatype ChannelConfig =
    | DisabledChannel
    | ApogeeDeploy(apogeeDelay: Float32)
    | DescentDeploy(altitudeMeters: Float32, descentDelay: Float32)
  {
    /** The `delay` every configuration carries; a disabled channel was
        built with `0.0f`. */
    function Delay(): (d: Float32)
      ensures DisabledChannel? ==> d == ZeroFloat32
      ensures ApogeeDeploy? ==> d == apogeeDelay
      ensures DescentDeploy? ==> d == descentDelay
    {
      match this
      case DisabledChannel => ZeroFloat32
      case ApogeeDeploy(delay) => delay
      case DescentDeploy(_, delay) => delay
    }

    /** The one-word summary shown for a channel. Printing the altitude of
        a descent deployment is Float formatting, passed in as
        `formatFloat`. */
    function Summary(formatFloat: Float32 -> string): (r: string)
      ensures DisabledChannel? ==> r == "Disabled"
      ensures ApogeeDeploy? ==> r == "Drogue"
      ensures DescentDeploy? ==>
        5 <= |r| && r[..3] == "At " && r[|r| - 2..] == " m" &&
        r[3..|r| - 2] == formatFloat(altitudeMeters)
    {
      match this
      case DisabledChannel => "Disabled"
      case ApogeeDeploy(_) => "Drogue"
      case DescentDeploy(altitude, _) => "At " + formatFloat(altitude) + " m"
    }
  }

  /** A disabled channel has delay zero and summary "Disabled"; an apogee
      deployment reads "Drogue" whatever its delay; a descent deployment
      reads "At <altitude> m". The three summaries never coincide, so the
      summary tells the kind of configuration. */
  lemma SummaryIdentifiesKind(c: ChannelConfig, formatFloat: Float32 -> string)
    ensures c.DisabledChannel? <==> c.Summary(formatFloat) == "Disabled"
    ensures c.ApogeeDeploy? <==> c.Summary(formatFloat) == "Drogue"
    ensures c.DescentDeploy? <==> c.Summary(formatFloat)[..3] == "At "
  {
    var t := c.Summary(formatFloat);
    if c.DescentDeploy? {
      assert t[..3] == "At ";
      assert t[0] == 'A' != 'D';
    } else {
      assert t[0] == 'D' != 'A';
    }
  }

  /** Continuity / fired state reported for a pyro channel. */
  datatype ChannelState = Ok | NoContinuity | Disabled | Fired
  {
    /** The label shown beside the state's colour dot: one of the four
        labels, and the one that reads back as this state. */
    function Text(): (r: string)
      ensures r in Labels
      ensures StateOfText(r) == Some(this)
    {
      match this
      case Ok => "Ready"
      case NoContinuity => "Fault"
      case Disabled => "Disabled"
      case Fired => "Fired"
    }
  }

  /** The four labels a channel state can show. */
  const Labels: set<string> := {"Ready", "Fault", "Disabled", "Fired"}

  /** The state a label stands for: exactly the four labels stand for a
      state. */
  function StateOfText(t: string): (r: Option<ChannelState>)
    ensures r.Some? <==> t in Labels
  {
    if t == "Ready" then Some(Ok)
    else if t == "Fault" then Some(NoContinuity)
    else if t == "Disabled" then Some(Disabled)
    else if t == "Fired" then Some(Fired)
    else None
  }

  /** Distinct states show distinct text. */
  lemma TextInjective(s: ChannelState, u: ChannelState)
    ensures s.Text() == u.Text() ==> s == u
  {
  }

  datatype FullChannelInfo = FullChannelInfo(number: int, config: ChannelConfig, state: ChannelState)

  /** Flight phase reported by a computer. */
  datatype ComputerState = Pad | Boost | Coast | Apogee | Descent | Lawndart | Landed

  /** One telemetry snapshot of a flight computer. `uuid` is a Kotlin
      `Long` and `sats` an `Int`; neither takes part in arithmetic. */
  datatype ComputerStatus = ComputerStatus(
    uuid: int,
    name: string,
    channels: seq<FullChannelInfo>,
    lat: Float64, lon: Float64, gpsAltMetersWGS84: Float64,
    sats: int,
    baroAltMetersAGL: Float64, verticalVelocityMetersPerSecond: Float64,
    state: ComputerState,
    battery: Float64,
    timestamp: TimeMark,
    rssi: Float64)

  /** The no-argument constructor: uuid 0, an empty name, no channels,
      state PAD, every number zero, stamped with the clock reading `now`
      (`TimeSource.Monotonic.markNow()`). */
  function EmptyStatus(now: TimeMark): (r: ComputerStatus)
    ensures r.uuid == 0 && r.name == "" && r.channels == [] && r.state == Pad
    ensures r.sats == 0 && r.timestamp == now
    ensures r.lat == r.lon == r.gpsAltMetersWGS84 == ZeroFloat64
    ensures r.baroAltMetersAGL == r.verticalVelocityMetersPerSecond == ZeroFloat64
    ensures r.battery == r.rssi == ZeroFloat64
  {
    ComputerStatus(0, "", [], ZeroFloat64, ZeroFloat64, ZeroFloat64, 0,
                   ZeroFloat64, ZeroFloat64, Pad, ZeroFloat64, now, ZeroFloat64)
  }

  /** `ComputerStatus.replaceChannelConfig`: copy the channel list into a
      mutable buffer, overwrite the entry at `idx` with the same number and
      state but the new configuration, and build a status from the buffer
      and every other field of `s`. An index outside the list makes the
      source throw, so the caller must pass a valid one. */
  method ReplaceChannelConfig(s: ComputerStatus, idx: int, config: ChannelConfig)
    returns (r: ComputerStatus)
    requires 0 <= idx < |s.channels|
    ensures |r.channels| == |s.channels|
    ensures r.channels[idx] ==
      FullChannelInfo(s.channels[idx].number, config, s.channels[idx].state)
    ensures forall j :: 0 <= j < |s.channels| && j != idx ==> r.channels[j] == s.channels[j]
    ensures r == s.(channels := r.channels)
  {
    var ch := new FullChannelInfo[|s.channels|](j requires 0 <= j < |s.channels| => s.channels[j]);
    ch[idx] := FullChannelInfo(ch[idx].number, config, ch[idx].state);
    r := ComputerStatus(
      s.uuid, s.name, ch[..],
      s.lat, s.lon, s.gpsAltMetersWGS84,
      s.sats, s.baroAltMetersAGL, s.verticalVelocityMetersPerSecond, s.state, s.battery,
      s.timestamp, s.rssi);
  }

  /** A receiving site and the computers it has heard from. */
  datatype GroundStation = GroundStation(id: int, computers: seq<ComputerStatus>)
}
