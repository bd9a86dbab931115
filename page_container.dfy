/** The selection rule of `ComputerPicker` in PageContainer.kt: two
    drop-down menus, one offering the ground stations and one the computers
    of the selected station, whose items report a (station id, computer
    uuid) pair to the `modified` callback, and the labels of the two
    buttons. Layout and the open/closed flags of the menus are not part of
    the model. */
module PageContainer {
  import opened Wrappers
  import opened Decimal
  import opened Types

  /** Kotlin's `find` / `firstOrNull { ... }`: the first position whose
      element satisfies `p`. */
  function FirstIndex<T>(s: seq<T>, p: T -> bool): (r: Option<nat>)
    ensures r.Some? ==> r.value < |s| && p(s[r.value]) && forall j :: 0 <= j < r.value ==> !p(s[j])
    ensures r.None? ==> forall j :: 0 <= j < |s| ==> !p(s[j])
  {
    if s == [] then None
    else if p(s[0]) then Some(0)
    else match FirstIndex(s[1..], p)
      case None => None
      case Some(i) => Some(i + 1)
  }

  predicate HasStation(gs: seq<GroundStation>, id: int) {
    exists k :: 0 <= k < |gs| && gs[k].id == id
  }

  /** `availableGroundstations.find { it.id == selectedGroundstation }`:
      the first station with that id. */
  function FindStation(gs: seq<GroundStation>, id: int): (r: Option<GroundStation>)
    ensures r.Some? <==> HasStation(gs, id)
    ensures r.Some? ==> r.value.id == id && r.value in gs
    ensures r.Some? ==>
      exists k :: 0 <= k < |gs| && gs[k] == r.value && forall j :: 0 <= j < k ==> gs[j].id != id
  {
    match FirstIndex(gs, (g: GroundStation) => g.id == id)
    case Some(k) => Some(gs[k])
    case None => None
  }

  /** The pair reported to the `modified` callback: a station id and, if
      any, a computer uuid. */
  datatype Selection = Selection(station: int, computer: Option<int>)

  /** One drop-down entry: the text it shows and what choosing it reports. */
  datatype MenuItem = MenuItem(text: string, choice: Selection)

  /** The entry for one station: "Groundstation <id>", reporting the id
      together with the uuid of the station's first computer, or none when
      it has no computers. */
  function StationItem(g: GroundStation): (r: MenuItem)
    ensures r.text == "Groundstation " + IntToDecimal(g.id)
    ensures r.choice.station == g.id
    ensures r.choice.computer.None? <==> g.computers == []
    ensures r.choice.computer.Some? ==> r.choice.computer.value == g.computers[0].uuid
  {
    MenuItem("Groundstation " + IntToDecimal(g.id),
             Selection(g.id, if g.computers == [] then None else Some(g.computers[0].uuid)))
  }

  /** The left menu: one entry per available station, in order. */
  function StationMenu(gs: seq<GroundStation>): (r: seq<MenuItem>)
    ensures |r| == |gs|
    ensures forall k :: 0 <= k < |gs| ==> r[k] == StationItem(gs[k])
  {
    if gs == [] then [] else [StationItem(gs[0])] + StationMenu(gs[1..])
  }

  /** Entries for the computers `cs` of the station `station`: each shows
      the computer's name and reports that station with its uuid. */
  function ComputerItems(station: int, cs: seq<ComputerStatus>): (r: seq<MenuItem>)
    ensures |r| == |cs|
    ensures forall k :: 0 <= k < |cs| ==>
      r[k].text == cs[k].name && r[k].choice == Selection(station, Some(cs[k].uuid))
  {
    if cs == [] then [] else [MenuItem(cs[0].name, Selection(station, Some(cs[0].uuid)))] + ComputerItems(station, cs[1..])
  }

  /** The right menu: the computers of the selected station, in order,
      keeping the selected station. The source dereferences the station
      with `!!`, so the selected station must be available. */
  function ComputerMenu(gs: seq<GroundStation>, selectedStation: int): (r: seq<MenuItem>)
    requires HasStation(gs, selectedStation)
    ensures var cs := FindStation(gs, selectedStation).value.computers;
      |r| == |cs| &&
      forall k :: 0 <= k < |cs| ==>
        r[k].text == cs[k].name && r[k].choice == Selection(selectedStation, Some(cs[k].uuid))
  {
    ComputerItems(selectedStation, FindStation(gs, selectedStation).value.computers)
  }

  /** The left button's text: the id of the first station whose id is the
      selected one, or "null" (Kotlin's text for a missing value) if no
      station has it. */
  function StationLabel(gs: seq<GroundStation>, selectedStation: int): (r: string)
    ensures HasStation(gs, selectedStation) ==> r == "Groundstation " + IntToDecimal(selectedStation)
    ensures !HasStation(gs, selectedStation) ==> r == "Groundstation null"
  {
    "Groundstation " +
      match FindStation(gs, selectedStation)
      case Some(g) => IntToDecimal(g.id)
      case None => "null"
  }

  /** The right button's text: the name of the first computer of the
      selected station whose uuid is the selected one, or "None". A missing
      selection (`null`) matches no computer. */
  function ComputerLabel(gs: seq<GroundStation>, selectedStation: int, selectedComputer: Option<int>): (r: string)
    requires HasStation(gs, selectedStation)
    ensures var cs := FindStation(gs, selectedStation).value.computers;
      (forall j :: 0 <= j < |cs| ==> Some(cs[j].uuid) != selectedComputer) ==> r == "None"
    ensures var cs := FindStation(gs, selectedStation).value.computers;
      (exists j :: 0 <= j < |cs| && Some(cs[j].uuid) == selectedComputer) ==>
        exists j :: 0 <= j < |cs| && Some(cs[j].uuid) == selectedComputer && r == cs[j].name &&
          forall i :: 0 <= i < j ==> Some(cs[i].uuid) != selectedComputer
  {
    var cs := FindStation(gs, selectedStation).value.computers;
    match FirstIndex(cs, (c: ComputerStatus) => Some(c.uuid) == selectedComputer)
    case Some(j) => cs[j].name
    case None => "None"
  }

  /** A selection refers to what is on screen: its station is available,
      and its computer is either none or one of the computers that the
      picker shows for that station. */
  predicate ReferencesExisting(gs: seq<GroundStation>, s: Selection) {
    HasStation(gs, s.station) &&
    (s.computer.Some? ==>
      exists c :: c in FindStation(gs, s.station).value.computers && c.uuid == s.computer.value)
  }

  /** The first station with a given id is the one `find` returns. */
  lemma FindFirstStation(gs: seq<GroundStation>, k: nat)
    requires k < |gs|
    requires forall j :: 0 <= j < k ==> gs[j].id != gs[k].id
    ensures FindStation(gs, gs[k].id) == Some(gs[k])
  {
  }

  /** Choosing a station from the left menu yields a selection that
      refers to existing entries, provided no earlier station shares that
      station's id (with duplicate ids the picker displays the first
      station with the id, which need not hold the reported computer). */
  lemma StationChoiceReferencesExisting(gs: seq<GroundStation>, k: nat)
    requires k < |gs|
    requires forall j :: 0 <= j < k ==> gs[j].id != gs[k].id
    ensures k < |StationMenu(gs)| && ReferencesExisting(gs, StationMenu(gs)[k].choice)
  {
    FindFirstStation(gs, k);
    if gs[k].computers != [] {
      assert gs[k].computers[0] in gs[k].computers;
    }
  }

  /** With station ids unique, every entry of the left menu refers to
      existing entries. */
  lemma StationMenuReferencesExisting(gs: seq<GroundStation>)
    requires forall i, j :: 0 <= i < j < |gs| ==> gs[i].id != gs[j].id
    ensures forall k :: 0 <= k < |StationMenu(gs)| ==> ReferencesExisting(gs, StationMenu(gs)[k].choice)
  {
    forall k | 0 <= k < |StationMenu(gs)|
      ensures ReferencesExisting(gs, StationMenu(gs)[k].choice)
    {
      StationChoiceReferencesExisting(gs, k);
    }
  }

  /** With duplicate station ids the picker can report a computer that
      the station shown for that id does not hold: in the list of a
      station 7 without computers followed by a station 7 holding `c`,
      choosing the second entry is such a choice. */
  lemma SharedStationIdShadowsChoice(c: ComputerStatus)
    ensures var gs := [GroundStation(7, []), GroundStation(7, [c])];
      !ReferencesExisting(gs, StationMenu(gs)[1].choice)
  {
  }

  /** Choosing a computer from the right menu keeps the selected station
      and yields a selection that refers to existing entries. */
  lemma ComputerChoiceReferencesExisting(gs: seq<GroundStation>, selectedStation: int, k: nat)
    requires HasStation(gs, selectedStation)
    requires k < |FindStation(gs, selectedStation).value.computers|
    ensures k < |ComputerMenu(gs, selectedStation)|
    ensures ComputerMenu(gs, selectedStation)[k].choice.station == selectedStation
    ensures ReferencesExisting(gs, ComputerMenu(gs, selectedStation)[k].choice)
  {
  }

  /** After choosing any station from the left menu, the left button
      shows that station's id, even when an earlier station shares it. */
  lemma StationLabelAfterChoice(gs: seq<GroundStation>, k: nat)
    requires k < |gs|
    ensures k < |StationMenu(gs)|
    ensures StationLabel(gs, StationMenu(gs)[k].choice.station) == "Groundstation " + IntToDecimal(gs[k].id)
  {
  }

  /** After choosing a computer whose uuid is unique within its station,
      the right button shows that computer's name. */
  lemma ComputerLabelAfterChoice(gs: seq<GroundStation>, selectedStation: int, k: nat)
    requires HasStation(gs, selectedStation)
    requires k < |FindStation(gs, selectedStation).value.computers|
    requires var cs := FindStation(gs, selectedStation).value.computers;
      forall j :: 0 <= j < |cs| && j != k ==> cs[j].uuid != cs[k].uuid
    ensures k < |ComputerMenu(gs, selectedStation)|
    ensures var choice := ComputerMenu(gs, selectedStation)[k].choice;
      ComputerLabel(gs, choice.station, choice.computer) ==
        FindStation(gs, selectedStation).value.computers[k].name
  {
  }
}
