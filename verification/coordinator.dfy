/**
 * The coordinator: resolve a mission from free text, recommend pilots and
 * drones for it, update a pilot's status in the store, and pick a pilot for
 * an urgent reassignment. Every action reads the store's current tables; only
 * the status update writes.
 */
module Coordination {
  import opened Text
  import opened Records
  import opened Matcher
  import opened Sheets

  datatype Error =
    | NoMatchingMission
    | InvalidStatus
    | PilotNotFound(pilotName: string)
    | NoMissionAvailable
    | NoPilotAvailable

  // ---------------------------------------------------------------------------
  // Mission resolution: id, then location, then priority
  // ---------------------------------------------------------------------------

  /** The three search passes of the mission finder, in the order they run. */
  datatype Tier = ById | ByLocation | ByPriority {
    function Column(): string {
      match this
      case ById => "project_id"
      case ByLocation => "location"
      case ByPriority => "priority"
    }
    function Rank(): nat {
      match this
      case ById => 0
      case ByLocation => 1
      case ByPriority => 2
    }
  }

  /**
   * The mission's lower-cased column occurs in the lower-cased query. Only the
   * id pass accepts an empty (or absent) column, which occurs in every query.
   */
  predicate Hits(t: Tier, m: Record, q: string) {
    var v := Lower(Get(m, t.Column()));
    (t == ById || v != "") && Contains(q, v)
  }

  /** Position of the first mission that `t` hits. */
  function FirstHit(ms: seq<Record>, t: Tier, q: string): (r: Option<nat>)
    ensures r.Some? ==>
      r.value < |ms| && Hits(t, ms[r.value], q) &&
      forall j :: 0 <= j < r.value ==> !Hits(t, ms[j], q)
    ensures r.None? ==> forall j :: 0 <= j < |ms| ==> !Hits(t, ms[j], q)
  {
    if ms == [] then None
    else if Hits(t, ms[0], q) then Some(0)
    else match FirstHit(ms[1..], t, q)
      case None => None
      case Some(i) => Some(i + 1)
  }

  /** The first hit is where the scan stops. */
  lemma FirstHitIs(ms: seq<Record>, t: Tier, q: string, i: nat)
    requires i < |ms| && Hits(t, ms[i], q)
    requires forall j :: 0 <= j < i ==> !Hits(t, ms[j], q)
    ensures FirstHit(ms, t, q) == Some(i)
  {
  }

  /** Pass `t` hits no mission. */
  predicate Misses(ms: seq<Record>, t: Tier, q: string) {
    forall j | 0 <= j < |ms| :: !Hits(t, ms[j], q)
  }

  /**
   * Mission `i` is the one the finder settles on in pass `t`: every earlier
   * pass hit nothing, and `i` is the first hit of pass `t`.
   */
  predicate ResolvesTo(ms: seq<Record>, q: string, t: Tier, i: nat) {
    && i < |ms| && Hits(t, ms[i], q)
    && (t.Rank() > 0 ==> Misses(ms, ById, q))
    && (t.Rank() > 1 ==> Misses(ms, ByLocation, q))
    && forall j | 0 <= j < i :: !Hits(t, ms[j], q)
  }

  /** The finder's choice, as a position in `ms`. */
  function Resolve(ms: seq<Record>, q: string): (r: Option<nat>)
    ensures r.None? <==> Misses(ms, ById, q) && Misses(ms, ByLocation, q) && Misses(ms, ByPriority, q)
    ensures r.Some? ==>
      ResolvesTo(ms, q, ById, r.value) || ResolvesTo(ms, q, ByLocation, r.value) ||
      ResolvesTo(ms, q, ByPriority, r.value)
  {
    match FirstHit(ms, ById, q)
    case Some(i) => Some(i)
    case None =>
      match FirstHit(ms, ByLocation, q)
      case Some(i) => Some(i)
      case None => FirstHit(ms, ByPriority, q)
  }

  /** There is only one place the finder can settle on. */
  lemma ResolvesToUnique(ms: seq<Record>, q: string, t1: Tier, i1: nat, t2: Tier, i2: nat)
    requires ResolvesTo(ms, q, t1, i1) && ResolvesTo(ms, q, t2, i2)
    ensures t1 == t2 && i1 == i2
  {
  }

  /**
   * An id hit anywhere beats every location or priority hit: the finder
   * returns the first mission whose id occurs in the query.
   */
  lemma IdHitWins(ms: seq<Record>, q: string, k: nat)
    requires k < |ms| && Hits(ById, ms[k], q)
    ensures Resolve(ms, q).Some?
    ensures ResolvesTo(ms, q, ById, Resolve(ms, q).value)
    ensures Resolve(ms, q).value <= k
  {
    assert !Misses(ms, ById, q);
  }

  /** A location hit beats every priority hit once no id matches. */
  lemma LocationHitBeatsPriority(ms: seq<Record>, q: string, k: nat)
    requires Misses(ms, ById, q)
    requires k < |ms| && Hits(ByLocation, ms[k], q)
    ensures Resolve(ms, q).Some?
    ensures ResolvesTo(ms, q, ByLocation, Resolve(ms, q).value)
    ensures Resolve(ms, q).value <= k
  {
    assert !Misses(ms, ByLocation, q);
  }

  /** A mission without a `project_id` column is hit by the id pass for any query. */
  lemma MissingIdMatchesAnything(ms: seq<Record>, q: string, k: nat)
    requires k < |ms| && "project_id" !in ms[k]
    ensures Hits(ById, ms[k], q)
    ensures Resolve(ms, q).Some? && Resolve(ms, q).value <= k
  {
    ContainsEmpty(q);
    IdHitWins(ms, q, k);
  }

  // ---------------------------------------------------------------------------
  // Urgent reassignment: mission choice
  // ---------------------------------------------------------------------------

  /** `{"urgent": 3, "high": 2, "medium": 1, "low": 0}`, 0 for anything else. */
  function PriorityRank(m: Record): (r: nat)
    ensures r <= 3
  {
    var p := Lower(Get(m, "priority"));
    if p == "urgent" then 3 else if p == "high" then 2 else if p == "medium" then 1 else 0
  }

  /** The location test of the urgent pass; unlike `Hits`, "" matches every query. */
  predicate LocationMentioned(m: Record, q: string) {
    Contains(q, Lower(Get(m, "location")))
  }

  function FirstLocationMention(ms: seq<Record>, q: string): (r: Option<nat>)
    ensures r.Some? ==>
      r.value < |ms| && LocationMentioned(ms[r.value], q) &&
      forall j :: 0 <= j < r.value ==> !LocationMentioned(ms[j], q)
    ensures r.None? ==> forall j :: 0 <= j < |ms| ==> !LocationMentioned(ms[j], q)
  {
    if ms == [] then None
    else if LocationMentioned(ms[0], q) then Some(0)
    else match FirstLocationMention(ms[1..], q)
      case None => None
      case Some(i) => Some(i + 1)
  }

  predicate RankSorted(ms: seq<Record>) {
    forall i :: 0 <= i < |ms| - 1 ==> PriorityRank(ms[i]) >= PriorityRank(ms[i + 1])
  }

  /**
   * Put `m` in front of the first element of rank at most its own, so that it
   * precedes the equal-rank elements that came after it in the input.
   */
  function InsertByRank(m: Record, sorted: seq<Record>): (r: seq<Record>)
    ensures |r| == |sorted| + 1
    ensures multiset(r) == multiset(sorted) + multiset{m}
    ensures r[0] == if sorted == [] || PriorityRank(sorted[0]) <= PriorityRank(m) then m else sorted[0]
  {
    if sorted == [] || PriorityRank(sorted[0]) <= PriorityRank(m) then [m] + sorted
    else
      assert sorted == [sorted[0]] + sorted[1..];
      [sorted[0]] + InsertByRank(m, sorted[1..])
  }

  lemma {:induction false} InsertByRankSorted(m: Record, sorted: seq<Record>)
    requires RankSorted(sorted)
    ensures RankSorted(InsertByRank(m, sorted))
  {
    if sorted != [] && PriorityRank(sorted[0]) > PriorityRank(m) {
      var rest := sorted[1..];
      assert RankSorted(rest) by {
        forall i | 0 <= i < |rest| - 1 ensures PriorityRank(rest[i]) >= PriorityRank(rest[i + 1]) {
          assert rest[i] == sorted[i + 1] && rest[i + 1] == sorted[i + 2];
        }
      }
      InsertByRankSorted(m, rest);
      var r := InsertByRank(m, sorted);
      var r' := InsertByRank(m, rest);
      assert r == [sorted[0]] + r';
      forall i | 0 <= i < |r| - 1 ensures PriorityRank(r[i]) >= PriorityRank(r[i + 1]) {
        if i > 0 {
          assert r[i] == r'[i - 1] && r[i + 1] == r'[i];
        }
      }
    }
  }

  /** `sorted(ms, key=PriorityRank, reverse=True)`: a stable descending sort. */
  function SortByRankDesc(ms: seq<Record>): (r: seq<Record>)
    ensures multiset(r) == multiset(ms)
    ensures |r| == |ms|
    ensures RankSorted(r)
  {
    if ms == [] then []
    else
      assert ms == [ms[0]] + ms[1..];
      InsertByRankSorted(ms[0], SortByRankDesc(ms[1..]));
      InsertByRank(ms[0], SortByRankDesc(ms[1..]))
  }

  /** Position of the earliest mission of the highest rank. */
  function FirstMaxRank(ms: seq<Record>): (k: nat)
    requires ms != []
    ensures k < |ms|
    ensures forall j :: 0 <= j < |ms| ==> PriorityRank(ms[j]) <= PriorityRank(ms[k])
    ensures forall j :: 0 <= j < k ==> PriorityRank(ms[j]) < PriorityRank(ms[k])
  {
    if |ms| == 1 then 0
    else
      var k := FirstMaxRank(ms[1..]);
      if PriorityRank(ms[0]) >= PriorityRank(ms[k + 1]) then 0 else k + 1
  }

  /**
   * The head of the stable descending sort is the earliest mission among
   * those tied at the top rank.
   */
  lemma {:induction false} SortHeadIsFirstMax(ms: seq<Record>)
    requires ms != []
    ensures SortByRankDesc(ms)[0] == ms[FirstMaxRank(ms)]
  {
    if |ms| > 1 {
      SortHeadIsFirstMax(ms[1..]);
    }
  }

  /** The mission the urgent action settles on, if any. */
  function UrgentMission(ms: seq<Record>, q: string): (r: Option<Record>)
    ensures r.Some? ==> r.value in ms && r.value != map[]
  {
    var byLocation := FirstLocationMention(ms, q);
    if byLocation.Some? && ms[byLocation.value] != map[] then Some(ms[byLocation.value])
    else if ms != [] && SortByRankDesc(ms)[0] != map[] then
      assert SortByRankDesc(ms)[0] in multiset(ms);
      Some(SortByRankDesc(ms)[0])
    else None
  }

  /** The first mission whose location the query mentions wins. */
  lemma UrgentPrefersLocation(ms: seq<Record>, q: string, i: nat)
    requires i < |ms| && LocationMentioned(ms[i], q) && ms[i] != map[]
    requires forall j :: 0 <= j < i ==> !LocationMentioned(ms[j], q)
    ensures UrgentMission(ms, q) == Some(ms[i])
  {
    var r := FirstLocationMention(ms, q);
    assert r.Some?;
  }

  /** A mission with an empty or absent location is mentioned by every query. */
  lemma EmptyLocationAlwaysMentioned(ms: seq<Record>, q: string, i: nat)
    requires i < |ms| && Get(ms[i], "location") == ""
    ensures LocationMentioned(ms[i], q)
    ensures FirstLocationMention(ms, q).Some? && FirstLocationMention(ms, q).value <= i
  {
    assert Lower("") == "";
    ContainsEmpty(q);
  }

  /**
   * Without a location mention the highest-ranked mission is taken, and of
   * several at that rank the earliest.
   */
  lemma UrgentFallsBackToFirstMax(ms: seq<Record>, q: string)
    requires forall j :: 0 <= j < |ms| ==> !LocationMentioned(ms[j], q)
    requires ms != [] && ms[FirstMaxRank(ms)] != map[]
    ensures UrgentMission(ms, q) == Some(ms[FirstMaxRank(ms)])
  {
    SortHeadIsFirstMax(ms);
  }

  /** Missions [high, urgent, urgent] with no location mention: the first urgent one. */
  lemma UrgentTieGoesToEarliest(a: Record, b: Record, c: Record, q: string)
    requires PriorityRank(a) == 2 && PriorityRank(b) == 3 && PriorityRank(c) == 3
    requires !LocationMentioned(a, q) && !LocationMentioned(b, q) && !LocationMentioned(c, q)
    requires b != map[]
    ensures UrgentMission([a, b, c], q) == Some(b)
  {
    var ms := [a, b, c];
    assert FirstMaxRank(ms) == 1 by {
      var k := FirstMaxRank(ms);
      assert PriorityRank(ms[k]) >= PriorityRank(ms[1]);
    }
    UrgentFallsBackToFirstMax(ms, q);
  }

  /** With well-formed (non-empty) mission rows, no mission is found only when there are none. */
  lemma NoUrgentMissionIffNoMissions(ms: seq<Record>, q: string)
    requires forall m | m in ms :: m != map[]
    ensures UrgentMission(ms, q).None? <==> ms == []
  {
    if ms != [] {
      var byLocation := FirstLocationMention(ms, q);
      if byLocation.Some? {
        assert ms[byLocation.value] in ms;
      }
      assert SortByRankDesc(ms)[0] in multiset(ms);
      assert SortByRankDesc(ms)[0] in ms;
    }
  }

  // ---------------------------------------------------------------------------
  // Urgent reassignment: pilot choice
  // ---------------------------------------------------------------------------

  predicate IsAssigned(p: Record)
    requires "status" in p
  {
    Lower(p["status"]) == "assigned"
  }

  /** `[p for p in pilots if p["status"].lower() == "assigned"]` */
  function ReassignablePilots(pilots: seq<Record>): (r: seq<Record>)
    requires forall p | p in pilots :: "status" in p
    ensures forall p | p in r :: p in pilots && IsAssigned(p)
    ensures forall p | p in pilots && IsAssigned(p) :: p in r
    ensures r != [] ==>
      exists i :: 0 <= i < |pilots| && r[0] == pilots[i] &&
        forall j :: 0 <= j < i ==> !IsAssigned(pilots[j])
  {
    if pilots == [] then []
    else
      var rest := ReassignablePilots(pilots[1..]);
      assert forall p | p in pilots && p != pilots[0] :: p in pilots[1..];
      if IsAssigned(pilots[0]) then
        assert pilots[0] == ([pilots[0]] + rest)[0];
        [pilots[0]] + rest
      else
        assert rest != [] ==>
          exists i :: 0 <= i < |pilots[1..]| && rest[0] == pilots[1..][i] &&
            forall j :: 0 <= j < i + 1 ==> !IsAssigned(pilots[j]);
        rest
  }

  /** Columns the urgent action reads without a default, on the path it takes. */
  predicate UrgentReadable(pilots: seq<Record>, ms: seq<Record>, q: string) {
    UrgentMission(ms, q).Some? ==>
      (forall p | p in pilots :: "status" in p) &&
      (ReassignablePilots(pilots) != [] ==>
        "project_id" in UrgentMission(ms, q).value && "location" in UrgentMission(ms, q).value &&
        "name" in ReassignablePilots(pilots)[0] && "current_assignment" in ReassignablePilots(pilots)[0])
  }

  // ---------------------------------------------------------------------------
  // Status values
  // ---------------------------------------------------------------------------

  /** `new_status.lower() in ["available", "on leave", "assigned", "unavailable"]` */
  predicate IsValidStatus(lowered: string) {
    lowered == "available" || lowered == "on leave" || lowered == "assigned" || lowered == "unavailable"
  }

  /** The title-cased form of each accepted status. */
  function CanonicalStatus(lowered: string): string
    requires IsValidStatus(lowered)
  {
    if lowered == "available" then "Available"
    else if lowered == "on leave" then "On Leave"
    else if lowered == "assigned" then "Assigned"
    else "Unavailable"
  }

  lemma TitleOfOnLeave(l: string)
    requires l == "on leave"
    ensures Title(l) == "On Leave"
  {
    assert l == "on" + " " + "leave";
    TitleOfTwoLowerWords("on", "leave");
  }

  lemma TitleOfAvailable(l: string)
    requires l == "available"
    ensures Title(l) == "Available"
  {
    TitleOfLowerWord(l);
  }

  lemma TitleOfAssigned(l: string)
    requires l == "assigned"
    ensures Title(l) == "Assigned"
  {
    TitleOfLowerWord(l);
  }

  lemma TitleOfUnavailable(l: string)
    requires l == "unavailable"
    ensures Title(l) == "Unavailable"
  {
    TitleOfLowerWord(l);
  }

  /**
   * A status the coordinator accepts, in whatever case, is written as one of
   * the four canonical values, which lower-case back to the accepted value.
   */
  lemma TitleOfValidStatus(s: string)
    requires IsValidStatus(Lower(s))
    ensures Title(s) == CanonicalStatus(Lower(s))
    ensures Lower(Title(s)) == Lower(s)
  {
    TitleOfLower(s);
    LowerOfTitle(s);
    var l := Lower(s);
    if l == "available" {
      TitleOfAvailable(l);
    } else if l == "on leave" {
      TitleOfOnLeave(l);
    } else if l == "assigned" {
      TitleOfAssigned(l);
    } else {
      TitleOfUnavailable(l);
    }
  }

  // ---------------------------------------------------------------------------
  // The coordinator
  // ---------------------------------------------------------------------------

  datatype Recommendation = Recommendation(
    mission: Option<string>, location: Option<string>,
    pilots: seq<Record>, drones: seq<Record>)

  datatype StatusChange = StatusChange(pilotName: string, status: string)

  datatype Reassignment = Reassignment(
    urgentMission: string, pilot: string, previousAssignment: string, newLocation: string)

  class Coordinator {
    const sheets: SheetsClient

    constructor (sheets: SheetsClient)
      ensures this.sheets == sheets
    {
      this.sheets := sheets;
    }

    /**
     * One pass of `_find_mission`: the position of the first mission whose
     * column `t.Column()`, lower-cased, occurs in the query (for the location
     * and priority passes, only when that column is not empty).
     */
    method ScanPass(missions: seq<Record>, t: Tier, q: string) returns (k: Option<nat>)
      ensures k == FirstHit(missions, t, q)
    {
      for i := 0 to |missions|
        invariant forall j :: 0 <= j < i ==> !Hits(t, missions[j], q)
      {
        var v := Lower(Get(missions[i], t.Column()));
        if (t == ById || v != "") && Contains(q, v) {
          FirstHitIs(missions, t, q, i);
          return Some(i);
        }
      }
      return None;
    }

    /** `_find_mission`: the id pass, then the location pass, then the priority pass. */
    method FindMission(missions: seq<Record>, userInput: string) returns (m: Option<Record>)
      ensures m.None? <==> Resolve(missions, Lower(userInput)).None?
      ensures m.Some? ==> m.value == missions[Resolve(missions, Lower(userInput)).value]
    {
      var q := Lower(userInput);
      var k := ScanPass(missions, ById, q);
      if k.Some? {
        return Some(missions[k.value]);
      }
      k := ScanPass(missions, ByLocation, q);
      if k.Some? {
        return Some(missions[k.value]);
      }
      k := ScanPass(missions, ByPriority, q);
      if k.Some? {
        return Some(missions[k.value]);
      }
      return None;
    }

    /**
     * `recommend_assignment`: the resolved mission's id and location with the
     * pilots and drones that qualify for it. An empty mission row counts as
     * no mission, as an empty dict is false in Python.
     */
    method RecommendAssignment(userInput: string) returns (r: Result<Recommendation, Error>)
      requires var i := Resolve(sheets.missions, Lower(userInput));
        i.Some? && sheets.missions[i.value] != map[] ==>
          PilotsReadable(sheets.pilotRoster, sheets.missions[i.value])
      ensures var i := Resolve(sheets.missions, Lower(userInput));
        if i.None? || sheets.missions[i.value] == map[] then r == Failure(NoMatchingMission)
        else
          var m := sheets.missions[i.value];
          r == Success(Recommendation(Lookup(m, "project_id"), Lookup(m, "location"),
            MatchingPilots(sheets.pilotRoster, m), MatchingDrones(sheets.droneFleet, m)))
    {
      var pilots := sheets.pilotRoster;
      var drones := sheets.droneFleet;
      var missions := sheets.missions;
      var mission := FindMission(missions, userInput);
      if mission.None? || mission.value == map[] {
        return Failure(NoMatchingMission);
      }
      var m := mission.value;
      var matchedPilots := FindMatchingPilots(pilots, m);
      var matchedDrones := FindMatchingDrones(drones, m);
      return Success(Recommendation(Lookup(m, "project_id"), Lookup(m, "location"), matchedPilots, matchedDrones));
    }

    /**
     * `update_pilot_status`: reject anything but the four statuses, otherwise
     * write the title-cased status through the store.
     */
    method UpdatePilotStatus(pilotName: string, newStatus: string) returns (r: Result<StatusChange, Error>)
      modifies sheets
      ensures sheets.droneFleet == old(sheets.droneFleet) && sheets.missions == old(sheets.missions)
      ensures !IsValidStatus(Lower(newStatus)) ==>
        r == Failure(InvalidStatus) && sheets.pilotRoster == old(sheets.pilotRoster)
      ensures IsValidStatus(Lower(newStatus)) ==>
        && sheets.pilotRoster == WithStatus(old(sheets.pilotRoster), pilotName, CanonicalStatus(Lower(newStatus)))
        && r == if FindPilotRow(old(sheets.pilotRoster), pilotName).Some?
                then Success(StatusChange(pilotName, CanonicalStatus(Lower(newStatus))))
                else Failure(PilotNotFound(pilotName))
    {
      if !IsValidStatus(Lower(newStatus)) {
        return Failure(InvalidStatus);
      }
      TitleOfValidStatus(newStatus);
      var updated := sheets.UpdatePilotStatus(pilotName, Title(newStatus));
      if !updated {
        return Failure(PilotNotFound(pilotName));
      }
      return Success(StatusChange(pilotName, Title(newStatus)));
    }

    /** The location loop of `urgent_reassignment`: first mission whose location occurs in the query. */
    method ScanLocations(missions: seq<Record>, q: string) returns (k: Option<nat>)
      ensures k == FirstLocationMention(missions, q)
    {
      for i := 0 to |missions|
        invariant forall j :: 0 <= j < i ==> !LocationMentioned(missions[j], q)
      {
        if Contains(q, Lower(Get(missions[i], "location"))) {
          return Some(i);
        }
      }
      return None;
    }

    /**
     * `urgent_reassignment`: pick a mission (location first, else top priority)
     * and the first assigned pilot. Nothing is written back.
     */
    method UrgentReassignment(userInput: string) returns (r: Result<Reassignment, Error>)
      requires UrgentReadable(sheets.pilotRoster, sheets.missions, Lower(userInput))
      ensures var m := UrgentMission(sheets.missions, Lower(userInput));
        if m.None? then r == Failure(NoMissionAvailable)
        else if ReassignablePilots(sheets.pilotRoster) == [] then r == Failure(NoPilotAvailable)
        else
          var p := ReassignablePilots(sheets.pilotRoster)[0];
          r == Success(Reassignment(m.value["project_id"], p["name"], p["current_assignment"], m.value["location"]))
    {
      var pilots := sheets.pilotRoster;
      var missions := sheets.missions;
      var q := Lower(userInput);

      var urgentMission: Option<Record> := None;
      var k := ScanLocations(missions, q);
      if k.Some? {
        urgentMission := Some(missions[k.value]);
      }
      if (urgentMission.None? || urgentMission.value == map[]) && missions != [] {
        var ranked := SortByRankDesc(missions);
        urgentMission := Some(ranked[0]);
      }
      if urgentMission.None? || urgentMission.value == map[] {
        return Failure(NoMissionAvailable);
      }

      var reassignable := ReassignablePilots(pilots);
      if reassignable == [] {
        return Failure(NoPilotAvailable);
      }
      var pilot := reassignable[0];
      var m := urgentMission.value;
      return Success(Reassignment(m["project_id"], pilot["name"], pilot["current_assignment"], m["location"]));
    }
  }
}
