/**
 * The spreadsheet store, reduced to its three tables held in memory and its
 * one write: overwrite the status of the first roster row whose name matches
 * case-insensitively.
 */
module Sheets {
  import opened Text
  import opened Records

  predicate NameMatches(row: Record, pilotName: string) {
    Lower(Get(row, "name")) == Lower(pilotName)
  }

  /** The position of the first roster row named `pilotName`, ignoring case. */
  function FindPilotRow(roster: seq<Record>, pilotName: string): (r: Option<nat>)
    ensures r.Some? ==>
      r.value < |roster| && NameMatches(roster[r.value], pilotName) &&
      forall j :: 0 <= j < r.value ==> !NameMatches(roster[j], pilotName)
    ensures r.None? ==> forall j :: 0 <= j < |roster| ==> !NameMatches(roster[j], pilotName)
  {
    if roster == [] then None
    else if NameMatches(roster[0], pilotName) then Some(0)
    else match FindPilotRow(roster[1..], pilotName)
      case None => None
      case Some(i) => Some(i + 1)
  }

  /** The roster after the store's status write. */
  function WithStatus(roster: seq<Record>, pilotName: string, status: string): (r: seq<Record>)
    ensures |r| == |roster|
    ensures FindPilotRow(roster, pilotName).None? ==> r == roster
    ensures match FindPilotRow(roster, pilotName)
      case None => true
      case Some(i) => r[i] == roster[i]["status" := status]
  {
    match FindPilotRow(roster, pilotName)
    case None => roster
    case Some(i) => roster[i := roster[i]["status" := status]]
  }

  /**
   * The write touches only the first row with a matching name, and in that
   * row only the status column; with no matching row nothing changes.
   */
  lemma WithStatusEffect(roster: seq<Record>, pilotName: string, status: string)
    ensures |WithStatus(roster, pilotName, status)| == |roster|
    ensures (forall j :: 0 <= j < |roster| ==> !NameMatches(roster[j], pilotName)) ==>
      WithStatus(roster, pilotName, status) == roster
    ensures forall i | 0 <= i < |roster| && NameMatches(roster[i], pilotName) &&
      (forall j :: 0 <= j < i ==> !NameMatches(roster[j], pilotName)) ::
        var r := WithStatus(roster, pilotName, status);
        && r[i]["status"] == status
        && (forall k :: k in r[i] && k != "status" ==> k in roster[i] && r[i][k] == roster[i][k])
        && r[i].Keys == roster[i].Keys + {"status"}
        && (forall j :: 0 <= j < |roster| && j != i ==> r[j] == roster[j])
  {
  }

  class SheetsClient {
    var pilotRoster: seq<Record>
    var droneFleet: seq<Record>
    var missions: seq<Record>

    constructor (pilotRoster: seq<Record>, droneFleet: seq<Record>, missions: seq<Record>)
      ensures this.pilotRoster == pilotRoster
      ensures this.droneFleet == droneFleet
      ensures this.missions == missions
    {
      this.pilotRoster := pilotRoster;
      this.droneFleet := droneFleet;
      this.missions := missions;
    }

    /** Overwrite one pilot's status; `false` when no row carries that name. */
    method UpdatePilotStatus(pilotName: string, newStatus: string) returns (found: bool)
      modifies this
      ensures found <==> FindPilotRow(old(pilotRoster), pilotName).Some?
      ensures pilotRoster == WithStatus(old(pilotRoster), pilotName, newStatus)
      ensures droneFleet == old(droneFleet) && missions == old(missions)
    {
      for i := 0 to |pilotRoster|
        invariant pilotRoster == old(pilotRoster)
        invariant forall j :: 0 <= j < i ==> !NameMatches(pilotRoster[j], pilotName)
      {
        if Lower(Get(pilotRoster[i], "name")) == Lower(pilotName) {
          pilotRoster := pilotRoster[i := pilotRoster[i]["status" := newStatus]];
          return true;
        }
      }
      return false;
    }
  }
}
