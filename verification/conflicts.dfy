/**
 * Conflict checks over single records: date-range overlap with inclusive
 * ends, a pilot already on a project, a drone in maintenance, and a pilot
 * and drone at different locations.
 */
module Conflicts {
  import opened Records
  import opened Matcher

  const AlreadyAssigned := "Pilot already assigned to another project"
  const UnderMaintenance := "Drone is under maintenance"

  /** The ranges [aStart, aEnd] and [bStart, bEnd] are not strictly apart. */
  predicate Overlap(aStart: int, aEnd: int, bStart: int, bEnd: int)
    ensures aStart <= bStart <= aEnd && bStart <= bEnd ==> Overlap(aStart, aEnd, bStart, bEnd)
    ensures aEnd < bStart || bEnd < aStart ==> !Overlap(aStart, aEnd, bStart, bEnd)
  {
    !(aEnd < bStart || bEnd < aStart)
  }

  lemma OverlapSymmetric(aStart: int, aEnd: int, bStart: int, bEnd: int)
    ensures Overlap(aStart, aEnd, bStart, bEnd) == Overlap(bStart, bEnd, aStart, aEnd)
  {
  }

  /** Consecutive ranges that only share an end point overlap. */
  lemma TouchingRangesOverlap(a: int, b: int, c: int)
    requires a <= b <= c
    ensures Overlap(a, b, b, c)
  {
  }

  predicate InRange(t: int, start: int, end: int) {
    start <= t <= end
  }

  /** For well-formed ranges, overlapping means having a point in common. */
  lemma OverlapIffCommonPoint(aStart: int, aEnd: int, bStart: int, bEnd: int)
    requires aStart <= aEnd && bStart <= bEnd
    ensures Overlap(aStart, aEnd, bStart, bEnd) <==>
      exists t :: InRange(t, aStart, aEnd) && InRange(t, bStart, bEnd)
  {
    if Overlap(aStart, aEnd, bStart, bEnd) {
      var t := if aStart < bStart then bStart else aStart;
      assert InRange(t, aStart, aEnd) && InRange(t, bStart, bEnd);
    }
  }

  /** `pilot_conflicts`: one issue exactly when the pilot's current assignment is non-empty. */
  function PilotConflicts(pilot: Record, mission: Record): (issues: seq<string>)
    requires "current_assignment" in pilot
    ensures issues == [] <==> pilot["current_assignment"] == ""
    ensures issues != [] ==> issues == [AlreadyAssigned]
  {
    if pilot["current_assignment"] != "" then [AlreadyAssigned] else []
  }

  /** The mission plays no part in the pilot check. */
  lemma PilotConflictsIgnoreMission(pilot: Record, m1: Record, m2: Record)
    requires "current_assignment" in pilot
    ensures PilotConflicts(pilot, m1) == PilotConflicts(pilot, m2)
  {
  }

  /** `drone_conflicts`: one issue exactly when the status is "Maintenance", case included. */
  function DroneConflicts(drone: Record): (issues: seq<string>)
    requires "status" in drone
    ensures issues == [] <==> drone["status"] != "Maintenance"
    ensures issues != [] ==> issues == [UnderMaintenance]
  {
    if drone["status"] == "Maintenance" then [UnderMaintenance] else []
  }

  /** `location_mismatch` */
  predicate LocationMismatch(pilot: Record, drone: Record)
    requires "location" in pilot && "location" in drone
  {
    pilot["location"] != drone["location"]
  }

  lemma LocationMismatchSymmetric(pilot: Record, drone: Record)
    requires "location" in pilot && "location" in drone
    ensures LocationMismatch(pilot, drone) == LocationMismatch(drone, pilot)
  {
  }

  /**
   * A pilot and a drone that both qualify for the same mission are at the
   * same place, and the drone is not in maintenance.
   */
  lemma MatchedPairConsistent(pilots: seq<Record>, drones: seq<Record>, mission: Record, p: Record, d: Record)
    requires PilotsReadable(pilots, mission)
    requires p in MatchingPilots(pilots, mission) && d in MatchingDrones(drones, mission)
    ensures "location" in p && "location" in d && !LocationMismatch(p, d)
    ensures "status" in d && DroneConflicts(d) == []
  {
    assert PilotReadable(p, mission) && PilotQualifies(p, mission);
    assert DroneQualifies(d, mission);
  }
}
