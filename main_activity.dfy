/** The part of MainActivity.kt with behaviour of its own: an older,
    four-format `Duration.humanReadableString()` (it has no `s.mmm s`
    format) and the fixture `DefaultComputerRepository.getComputer`. */
module MainActivity {
  import opened Wrappers
  import opened Decimal
  import opened Types
  import opened Utils

  /** The `when` of MainActivity.kt: under a second in milliseconds, under
      a minute in whole seconds, then `m:ss` and `h:mm:ss`. */
  function LegacyLayout(ms: nat): (r: Rendering)
    ensures r.Millis? <==> ms < MillisPerSecond
    ensures r.Seconds? <==> MillisPerSecond <= ms < MillisPerMinute
    ensures r.MinutesSeconds? <==> MillisPerMinute <= ms < MillisPerHour
    ensures r.HoursMinutesSeconds? <==> MillisPerHour <= ms
    ensures !r.SecondsMillis?
    ensures r.Millis? ==> r.ms == ms
    ensures r.Seconds? ==> 1 <= r.seconds < 60 && r.seconds == ms / 1000
    ensures r.MinutesSeconds? ==>
      1 <= r.minutes < 60 && r.seconds < 60 && r.minutes * 60 + r.seconds == ms / 1000
    ensures r.HoursMinutesSeconds? ==>
      1 <= r.hours && r.minutes < 60 && r.seconds < 60 &&
      r.hours * 3600 + r.minutes * 60 + r.seconds == ms / 1000
  {
    if ms < MillisPerSecond then Millis(ms)
    else if ms < MillisPerMinute then Seconds(ms / 1000)
    else if ms < MillisPerHour then
      var s := ms / 1000;
      MinutesSeconds(s / 60, s % 60)
    else
      var s := ms / 1000;
      HoursMinutesSeconds(s / 3600, (s % 3600) / 60, s % 60)
  }

  /** `Duration.humanReadableString()` of MainActivity.kt, printed with the
      same format strings as the one of utils.kt: milliseconds under a
      second, whole seconds under a minute, a clock reading from a minute
      on. */
  function LegacyHumanReadableString(ms: nat): (t: string)
    ensures EndsWith(t, " ms") <==> ms < MillisPerSecond
    ensures EndsWith(t, " s") <==> MillisPerSecond <= ms < MillisPerMinute
  {
    Render(LegacyLayout(ms))
  }

  /** Outside [1 s, 10 s) the two formatters print the same text. */
  lemma AgreeOutsideOneToTenSeconds(ms: nat)
    requires ms < MillisPerSecond || MillisPerTenSeconds <= ms
    ensures LegacyHumanReadableString(ms) == HumanReadableString(ms)
  {
  }

  /** Inside [1 s, 10 s) they always differ: the older one prints whole
      seconds, the newer one seconds and milliseconds. */
  lemma DifferInsideOneToTenSeconds(ms: nat)
    requires MillisPerSecond <= ms < MillisPerTenSeconds
    ensures LegacyHumanReadableString(ms) != HumanReadableString(ms)
    ensures LegacyHumanReadableString(ms) == NatToDecimal(ms / 1000) + " s"
  {
  }

  /** The text of the older formatter also reads back to its fields, and
      in `h:mm:ss` they recombine to the whole seconds. */
  lemma LegacyDisplayedFieldsRecombine(ms: nat)
    ensures Parse(LegacyHumanReadableString(ms)) == Some(LegacyLayout(ms))
    ensures MillisPerHour <= ms ==>
      var r := Parse(LegacyHumanReadableString(ms)).value;
      r.hours * 3600 + r.minutes * 60 + r.seconds == ms / 1000
  {
    ParseRender(LegacyLayout(ms));
  }

  // 64-bit patterns of the Double literals of the fixture.
  const Lat45 := Float64(0x4046_8000_0000_0000)        // 45.0
  const LonMinus120 := Float64(0xC05E_0000_0000_0000)  // -120.0
  const Battery7Point4 := Float64(0x401D_9999_9999_999A)  // 7.4
  const RssiMinus90 := Float64(0xC056_8000_0000_0000)  // -90.0
  // 32-bit patterns of the Float literals of the fixture.
  const Altitude200 := Float32(0x4348_0000)            // 200.0f
  const OneSecond := Float32(0x3F80_0000)              // 1.0f

  /** `DefaultComputerRepository.getComputer()`: the canned "procket"
      status, stamped with the clock reading `now`. It was written for a
      status without a uuid; here the uuid is 0, as in the no-argument
      constructor. Its four channels are numbered 1 to 4 and report Ready,
      Fault, Disabled and Fired, in that order. */
  function FixtureComputer(now: TimeMark): (r: ComputerStatus)
    ensures r.name == "procket" && |r.channels| == 4
    ensures forall i :: 0 <= i < 4 ==> r.channels[i].number == i + 1
    ensures [r.channels[0].state, r.channels[1].state, r.channels[2].state, r.channels[3].state]
      == [Ok, NoContinuity, Disabled, Fired]
    ensures r.channels[2].config == DisabledChannel
    ensures r.channels[1].config.ApogeeDeploy? && r.channels[3].config.ApogeeDeploy?
    ensures r.channels[0].config.DescentDeploy?
    ensures r.state == Pad && r.sats == 8 && r.timestamp == now
  {
    ComputerStatus(
      0,
      "procket",
      [ FullChannelInfo(1, DescentDeploy(Altitude200, ZeroFloat32), Ok),
        FullChannelInfo(2, ApogeeDeploy(ZeroFloat32), NoContinuity),
        FullChannelInfo(3, DisabledChannel, Disabled),
        FullChannelInfo(4, ApogeeDeploy(OneSecond), Fired) ],
      Lat45, LonMinus120, ZeroFloat64, 8,
      ZeroFloat64, ZeroFloat64,
      Pad, Battery7Point4, now, RssiMinus90)
  }

  /** The fixture's four channels show the four different state labels
      Ready, Fault, Disabled and Fired. */
  lemma FixtureStateTexts(now: TimeMark)
    ensures var cs := FixtureComputer(now).channels;
      [cs[0].state.Text(), cs[1].state.Text(), cs[2].state.Text(), cs[3].state.Text()]
        == ["Ready", "Fault", "Disabled", "Fired"]
  {
  }
}
