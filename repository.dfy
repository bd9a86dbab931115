/** ComputerRepository.kt: the single cell holding the latest list of
    ground stations, read by the UI and rewritten when one computer's
    snapshot is edited. The observable-flow wrapper around the cell is a
    plain field here. */
module Repository {
  import opened Types

  /** The snapshot a computer has after an update for `uuid`. */
  function UpdatedComputer(c: ComputerStatus, uuid: int, block: ComputerStatus -> ComputerStatus): ComputerStatus {
    if c.uuid == uuid then block(c) else c
  }

  /** The computers of one station after an update, built front to back
      as the inner loop appends them. */
  function UpdatedComputers(cs: seq<ComputerStatus>, uuid: int, block: ComputerStatus -> ComputerStatus)
    : seq<ComputerStatus>
  {
    if cs == [] then []
    else UpdatedComputers(cs[..|cs| - 1], uuid, block) + [UpdatedComputer(cs[|cs| - 1], uuid, block)]
  }

  /** The station list after an update, built front to back as the outer
      loop appends the stations. */
  function UpdatedStations(gs: seq<GroundStation>, uuid: int, block: ComputerStatus -> ComputerStatus)
    : seq<GroundStation>
  {
    if gs == [] then []
    else
      var g := gs[|gs| - 1];
      UpdatedStations(gs[..|gs| - 1], uuid, block) + [GroundStation(g.id, UpdatedComputers(g.computers, uuid, block))]
  }

  /** Some station holds a computer with this uuid. */
  predicate HasComputer(gs: seq<GroundStation>, uuid: int) {
    exists k, j :: 0 <= k < |gs| && 0 <= j < |gs[k].computers| && gs[k].computers[j].uuid == uuid
  }

  /** Within a station the number and order of computers is kept: every
      computer whose uuid matches is replaced by `block` of it, every other
      one is kept as it was. */
  lemma {:induction false} UpdatedComputersAt(cs: seq<ComputerStatus>, uuid: int, block: ComputerStatus -> ComputerStatus)
    ensures |UpdatedComputers(cs, uuid, block)| == |cs|
    ensures forall j :: 0 <= j < |cs| ==>
      UpdatedComputers(cs, uuid, block)[j] == (if cs[j].uuid == uuid then block(cs[j]) else cs[j])
  {
    if cs != [] {
      UpdatedComputersAt(cs[..|cs| - 1], uuid, block);
    }
  }

  /** The number, order and ids of the stations are kept, and each
      station's computers are updated as above: all matches in all
      stations, not just the first. */
  lemma {:induction false} UpdatedStationsAt(gs: seq<GroundStation>, uuid: int, block: ComputerStatus -> ComputerStatus)
    ensures |UpdatedStations(gs, uuid, block)| == |gs|
    ensures forall k :: 0 <= k < |gs| ==>
      UpdatedStations(gs, uuid, block)[k] == GroundStation(gs[k].id, UpdatedComputers(gs[k].computers, uuid, block))
  {
    if gs != [] {
      UpdatedStationsAt(gs[..|gs| - 1], uuid, block);
    }
  }

  /** An update for a uuid no computer has leaves the data as it was. */
  lemma NoMatchLeavesDataUnchanged(gs: seq<GroundStation>, uuid: int, block: ComputerStatus -> ComputerStatus)
    requires !HasComputer(gs, uuid)
    ensures UpdatedStations(gs, uuid, block) == gs
  {
    var r := UpdatedStations(gs, uuid, block);
    UpdatedStationsAt(gs, uuid, block);
    forall k | 0 <= k < |gs|
      ensures r[k] == gs[k]
    {
      var cs := gs[k].computers;
      UpdatedComputersAt(cs, uuid, block);
      assert UpdatedComputers(cs, uuid, block) == cs;
    }
  }

  /** When `block` keeps the uuid of what it is given, every computer keeps
      its uuid, so the uuids that later updates and selections refer to
      stay the same. */
  lemma UuidPreservingUpdateKeepsUuids(gs: seq<GroundStation>, uuid: int, block: ComputerStatus -> ComputerStatus)
    requires forall c :: block(c).uuid == c.uuid
    ensures var r := UpdatedStations(gs, uuid, block);
      |r| == |gs| &&
      forall k :: 0 <= k < |gs| ==>
        |r[k].computers| == |gs[k].computers| &&
        forall j :: 0 <= j < |gs[k].computers| ==> r[k].computers[j].uuid == gs[k].computers[j].uuid
  {
    UpdatedStationsAt(gs, uuid, block);
    forall k | 0 <= k < |gs| {
      UpdatedComputersAt(gs[k].computers, uuid, block);
    }
  }

  class ComputerRepository {
    /** The latest ground stations and the computers each has heard from. */
    var data: seq<GroundStation>

    /** The repository starts with one ground station, id 0, that has
        heard from no computer. */
    constructor ()
      ensures data == [GroundStation(0, [])]
    {
      data := [GroundStation(0, [])];
    }

    /** `last()`: the stored list, unchanged. */
    method Last() returns (r: seq<GroundStation>)
      ensures r == data
    {
      r := data;
    }

    /** `updateComputer(uuid, block)`: rebuild the station list, replacing
        every computer whose uuid matches by `block` of it, then store it. */
    method UpdateComputer(uuid: int, block: ComputerStatus -> ComputerStatus)
      modifies this
      ensures data == UpdatedStations(old(data), uuid, block)
    {
      var stations: seq<GroundStation> := [];
      var gi := 0;
      while gi < |data|
        invariant 0 <= gi <= |data|
        invariant stations == UpdatedStations(data[..gi], uuid, block)
      {
        var g := data[gi];
        var computers: seq<ComputerStatus> := [];
        var ci := 0;
        while ci < |g.computers|
          invariant 0 <= ci <= |g.computers|
          invariant computers == UpdatedComputers(g.computers[..ci], uuid, block)
        {
          var c := g.computers[ci];
          if c.uuid == uuid {
            computers := computers + [block(c)];
          } else {
            computers := computers + [c];
          }
          assert g.computers[..ci + 1][..ci] == g.computers[..ci];
          ci := ci + 1;
        }
        assert g.computers[..ci] == g.computers;
        stations := stations + [GroundStation(g.id, computers)];
        assert data[..gi + 1][..gi] == data[..gi];
        gi := gi + 1;
      }
      assert data[..gi] == data;
      data := stations;
    }
  }
}
