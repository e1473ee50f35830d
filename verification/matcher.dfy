/**
 * Pilot and drone matching: which roster and fleet rows can serve a mission.
 * Requirement and ability columns are comma-joined lists, split on "," with
 * no trimming, so an empty requirement is the set {""}, not the empty set.
 */
module Matcher {
  import opened Text
  import opened Records

  // ---------------------------------------------------------------------------
  // Pilots
  // ---------------------------------------------------------------------------

  /**
   * The columns the pilot filter reads without a default exist: the mission's
   * two requirement columns always, a pilot's status always, the locations
   * once the pilot is available, and the pilot's skills and certifications
   * once the locations agree.
   */
  predicate PilotReadable(p: Record, mission: Record) {
    "status" in p &&
    (p["status"] == "Available" ==>
      "location" in p && "location" in mission &&
      (p["location"] == mission["location"] ==> "skills" in p && "certifications" in p))
  }

  predicate PilotsReadable(pilots: seq<Record>, mission: Record) {
    "required_skills" in mission && "required_certifications" in mission &&
    forall p | p in pilots :: PilotReadable(p, mission)
  }

  /** A pilot the mission can use: available, on site, skilled and certified. */
  predicate PilotQualifies(p: Record, mission: Record)
    requires "required_skills" in mission && "required_certifications" in mission
    requires PilotReadable(p, mission)
  {
    p["status"] == "Available" &&
    p["location"] == mission["location"] &&
    CommaSet(mission["required_skills"]) <= CommaSet(p["skills"]) &&
    CommaSet(mission["required_certifications"]) <= CommaSet(p["certifications"])
  }

  /** The pilots the mission can use, in roster order. */
  function MatchingPilots(pilots: seq<Record>, mission: Record): (r: seq<Record>)
    requires PilotsReadable(pilots, mission)
    ensures forall p | p in r :: p in pilots && PilotQualifies(p, mission)
    ensures IsSubsequence(r, pilots)
  {
    if pilots == [] then []
    else
      var init, p := pilots[..|pilots| - 1], pilots[|pilots| - 1];
      assert pilots == init + [p];
      SubsequenceSnoc(MatchingPilots(init, mission), init, p);
      var r := MatchingPilots(init, mission);
      if PilotQualifies(p, mission) then r + [p] else r
  }

  /** No qualifying pilot is dropped, and each keeps all its occurrences. */
  lemma {:induction false} MatchingPilotsComplete(pilots: seq<Record>, mission: Record)
    requires PilotsReadable(pilots, mission)
    ensures forall p | p in pilots ::
      multiset(MatchingPilots(pilots, mission))[p] ==
      if PilotQualifies(p, mission) then multiset(pilots)[p] else 0
  {
    if pilots != [] {
      var init := pilots[..|pilots| - 1];
      MatchingPilotsComplete(init, mission);
      assert pilots == init + [pilots[|pilots| - 1]];
      forall p | p in pilots
        ensures multiset(MatchingPilots(pilots, mission))[p] ==
          if PilotQualifies(p, mission) then multiset(pilots)[p] else 0
      {
        if p !in init {
          assert multiset(init)[p] == 0;
          assert multiset(MatchingPilots(init, mission))[p] == 0;
        }
      }
    }
  }

  lemma MatchingPilotsContainsEvery(pilots: seq<Record>, mission: Record, p: Record)
    requires PilotsReadable(pilots, mission)
    requires p in pilots && PilotQualifies(p, mission)
    ensures p in MatchingPilots(pilots, mission)
  {
    MatchingPilotsComplete(pilots, mission);
  }

  /** The pilots that pass the filter are exactly the qualifying ones. */
  lemma MatchingPilotsExact(pilots: seq<Record>, mission: Record)
    requires PilotsReadable(pilots, mission)
    ensures forall p :: p in MatchingPilots(pilots, mission) <==> p in pilots && PilotQualifies(p, mission)
    ensures |MatchingPilots(pilots, mission)| <= |pilots|
  {
    MatchingPilotsComplete(pilots, mission);
    SubsequenceBounds(MatchingPilots(pilots, mission), pilots);
  }

  /**
   * An empty skill requirement is the set {""}: a pilot passes it only when
   * its own skill list has an empty piece.
   */
  lemma EmptySkillRequirement(p: Record, mission: Record)
    requires "required_skills" in mission && "required_certifications" in mission
    requires PilotReadable(p, mission)
    requires mission["required_skills"] == ""
    requires PilotQualifies(p, mission)
    ensures "" in Split(p["skills"], ',')
  {
    assert Split("", ',') == [""];
    assert "" in CommaSet(mission["required_skills"]);
  }

  /** So a pilot with one non-empty skill is never matched by an empty requirement. */
  lemma EmptySkillRequirementRejectsSingleSkill(p: Record, mission: Record)
    requires "required_skills" in mission && "required_certifications" in mission
    requires PilotReadable(p, mission)
    requires mission["required_skills"] == ""
    requires p["status"] == "Available" && p["location"] == mission["location"]
    requires p["skills"] != "" && ',' !in p["skills"]
    ensures !PilotQualifies(p, mission)
  {
    SplitWithoutSeparator(p["skills"], ',');
    if PilotQualifies(p, mission) {
      EmptySkillRequirement(p, mission);
      assert false;
    }
  }

  /** `find_matching_pilots`: one pass over the roster with `continue` guards. */
  method FindMatchingPilots(pilots: seq<Record>, mission: Record) returns (matched: seq<Record>)
    requires PilotsReadable(pilots, mission)
    ensures matched == MatchingPilots(pilots, mission)
  {
    matched := [];
    var reqSkills := CommaSet(mission["required_skills"]);
    var reqCerts := CommaSet(mission["required_certifications"]);
    for i := 0 to |pilots|
      invariant matched == MatchingPilots(pilots[..i], mission)
    {
      var p := pilots[i];
      assert p in pilots;
      assert pilots[..i + 1] == pilots[..i] + [p];
      if p["status"] != "Available" {
        continue;
      }
      if p["location"] != mission["location"] {
        continue;
      }
      var pilotSkills := CommaSet(p["skills"]);
      var pilotCerts := CommaSet(p["certifications"]);
      if !(reqSkills <= pilotSkills) {
        continue;
      }
      if !(reqCerts <= pilotCerts) {
        continue;
      }
      matched := matched + [p];
    }
    assert pilots[..|pilots|] == pilots;
  }

  // ---------------------------------------------------------------------------
  // Drones
  // ---------------------------------------------------------------------------

  /**
   * The capabilities a mission asks for: none when the column is absent or
   * empty, otherwise its comma-split pieces.
   */
  function RequiredCapabilities(mission: Record): (r: set<string>)
    ensures r == {} <==> Get(mission, "required_capabilities") == ""
  {
    if Get(mission, "required_capabilities") != "" then CommaSet(mission["required_capabilities"]) else {}
  }

  /**
   * A drone the mission can use. Missing columns read as `None` (status,
   * location) or "" (capabilities); a drone never fails to be read.
   */
  predicate DroneQualifies(d: Record, mission: Record) {
    Lookup(d, "status") == Some("Available") &&
    Lookup(d, "location") == Lookup(mission, "location") &&
    (RequiredCapabilities(mission) == {} ||
     RequiredCapabilities(mission) <= CommaSet(Get(d, "capabilities")))
  }

  /** The drones the mission can use, in fleet order. */
  function MatchingDrones(drones: seq<Record>, mission: Record): (r: seq<Record>)
    ensures forall d | d in r :: d in drones && DroneQualifies(d, mission)
    ensures IsSubsequence(r, drones)
  {
    if drones == [] then []
    else
      var init, d := drones[..|drones| - 1], drones[|drones| - 1];
      assert drones == init + [d];
      SubsequenceSnoc(MatchingDrones(init, mission), init, d);
      var r := MatchingDrones(init, mission);
      if DroneQualifies(d, mission) then r + [d] else r
  }

  lemma {:induction false} MatchingDronesComplete(drones: seq<Record>, mission: Record)
    ensures forall d | d in drones ::
      multiset(MatchingDrones(drones, mission))[d] ==
      if DroneQualifies(d, mission) then multiset(drones)[d] else 0
  {
    if drones != [] {
      var init := drones[..|drones| - 1];
      MatchingDronesComplete(init, mission);
      assert drones == init + [drones[|drones| - 1]];
      forall d | d in drones
        ensures multiset(MatchingDrones(drones, mission))[d] ==
          if DroneQualifies(d, mission) then multiset(drones)[d] else 0
      {
        if d !in init {
          assert multiset(init)[d] == 0;
          assert multiset(MatchingDrones(init, mission))[d] == 0;
        }
      }
    }
  }

  lemma MatchingDronesExact(drones: seq<Record>, mission: Record)
    ensures forall d :: d in MatchingDrones(drones, mission) <==> d in drones && DroneQualifies(d, mission)
    ensures |MatchingDrones(drones, mission)| <= |drones|
  {
    MatchingDronesComplete(drones, mission);
    SubsequenceBounds(MatchingDrones(drones, mission), drones);
  }

  /**
   * With no capability requirement every available drone at the mission's
   * location is returned, whatever its capabilities.
   */
  lemma NoCapabilityRequirementKeepsAvailable(drones: seq<Record>, mission: Record)
    requires Get(mission, "required_capabilities") == ""
    ensures forall d | d in drones ::
      d in MatchingDrones(drones, mission) <==>
      Lookup(d, "status") == Some("Available") && Lookup(d, "location") == Lookup(mission, "location")
  {
    MatchingDronesExact(drones, mission);
  }

  /** With a requirement, every returned drone has all required capabilities. */
  lemma ReturnedDronesCapable(drones: seq<Record>, mission: Record)
    requires Get(mission, "required_capabilities") != ""
    ensures forall d | d in MatchingDrones(drones, mission) ::
      CommaSet(mission["required_capabilities"]) <= CommaSet(Get(d, "capabilities"))
  {
  }

  /** A drone without a status or a location column is never returned. */
  lemma IncompleteDroneExcluded(drones: seq<Record>, mission: Record, d: Record)
    requires "status" !in d || ("location" !in d && "location" in mission)
    ensures d !in MatchingDrones(drones, mission)
  {
  }

  /** `find_matching_drones` */
  method FindMatchingDrones(drones: seq<Record>, mission: Record) returns (matched: seq<Record>)
    ensures matched == MatchingDrones(drones, mission)
  {
    matched := [];
    var reqCaps: set<string> := {};
    if Get(mission, "required_capabilities") != "" {
      reqCaps := CommaSet(mission["required_capabilities"]);
    }
    for i := 0 to |drones|
      invariant reqCaps == RequiredCapabilities(mission)
      invariant matched == MatchingDrones(drones[..i], mission)
    {
      var d := drones[i];
      assert drones[..i + 1] == drones[..i] + [d];
      if Lookup(d, "status") != Some("Available") {
        continue;
      }
      if Lookup(d, "location") != Lookup(mission, "location") {
        continue;
      }
      var droneCaps := CommaSet(Get(d, "capabilities"));
      if reqCaps != {} && !(reqCaps <= droneCaps) {
        continue;
      }
      matched := matched + [d];
    }
    assert drones[..|drones|] == drones;
  }
}
