/**
 * The chat endpoint's dispatch: which action a message asks for, decided by
 * an ordered chain of substring tests on the lower-cased message, and, for a
 * status update, the pilot name and the status read out of it.
 */
module Chat {
  import opened Text
  import opened Records
  import opened Coordination

  /** The branch the handler takes. */
  datatype Intent = StatusUpdate | Urgent | Assignment | Help

  predicate StatusTrigger(m: string) {
    Contains(m, "mark") || Contains(m, "set") || Contains(m, "update")
  }

  predicate UrgentTrigger(m: string) {
    Contains(m, "urgent") || Contains(m, "reassign")
  }

  /** The keyword chain: status update, then urgent reassignment, then assignment, else help. */
  function Classify(message: string): Intent {
    var m := Lower(message);
    if StatusTrigger(m) then StatusUpdate
    else if UrgentTrigger(m) then Urgent
    else if Contains(m, "assign") then Assignment
    else Help
  }

  /** "reassign" carries "assign" inside it. */
  lemma ReassignContainsAssign(m: string)
    requires Contains(m, "reassign")
    ensures Contains(m, "assign")
  {
    OccursContains("reassign", "assign", 2);
    ContainsTransitive(m, "reassign", "assign");
  }

  /** A message is answered with the help text exactly when it has none of the trigger words. */
  lemma HelpIffNoTrigger(message: string)
    ensures var m := Lower(message);
      Classify(message) == Help <==>
        !Contains(m, "mark") && !Contains(m, "set") && !Contains(m, "update") &&
        !Contains(m, "urgent") && !Contains(m, "assign")
  {
    var m := Lower(message);
    if Contains(m, "reassign") {
      ReassignContainsAssign(m);
    }
  }

  /** A message mentioning "reassign" never reaches the assignment recommender. */
  lemma ReassignNeverRecommends(message: string)
    requires Contains(Lower(message), "reassign")
    ensures Classify(message) != Assignment && Classify(message) != Help
  {
  }

  // ---------------------------------------------------------------------------
  // Slot extraction for a status update
  // ---------------------------------------------------------------------------

  /** `m.replace(",", "").split()` */
  function Words(m: string): (r: seq<string>)
    ensures forall k :: 0 <= k < |r| ==> r[k] != [] && ',' !in r[k]
    ensures r == [] <==> forall c | c in m :: c == ',' || IsSpace(c)
  {
    Tokens(RemoveAll(m, ','))
  }

  /** What the name slot holds: nothing, a name, or an `IndexError` past the last word. */
  datatype NameSlot = NoName | Name(name: string) | IndexError

  /** `words[words.index(trigger) + 1].capitalize()` */
  function NameAfter(words: seq<string>, trigger: string): (r: NameSlot)
    requires trigger in words
    ensures r.IndexError? <==> IndexOf(words, trigger) == |words| - 1
    ensures r.Name? ==> r.name == Capitalize(words[IndexOf(words, trigger) + 1])
    ensures !r.NoName?
  {
    var i := IndexOf(words, trigger);
    if i + 1 < |words| then Name(Capitalize(words[i + 1])) else IndexError
  }

  /** The word after the first whole-word "mark", else "set", else "update". */
  function PilotName(m: string): (r: NameSlot)
    ensures r.NoName? <==> "mark" !in Words(m) && "set" !in Words(m) && "update" !in Words(m)
    ensures r.Name? ==> r.name != [] && !IsLowerAscii(r.name[0])
    ensures var w := Words(m);
      && ("mark" in w ==> r == NameAfter(w, "mark"))
      && ("mark" !in w && "set" in w ==> r == NameAfter(w, "set"))
      && ("mark" !in w && "set" !in w && "update" in w ==> r == NameAfter(w, "update"))
  {
    var words := Words(m);
    if "mark" in words then NameAfter(words, "mark")
    else if "set" in words then NameAfter(words, "set")
    else if "update" in words then NameAfter(words, "update")
    else NoName
  }

  /** The status phrases, tried in the order on leave, available, assigned, unavailable. */
  function ParseStatus(m: string): (r: Option<string>)
    ensures r.None? <==>
      !Contains(m, "on leave") && !Contains(m, "available") &&
      !Contains(m, "assigned") && !Contains(m, "unavailable")
    ensures Contains(m, "on leave") ==> r == Some("On Leave")
    ensures !Contains(m, "on leave") && Contains(m, "available") ==> r == Some("Available")
    ensures !Contains(m, "on leave") && !Contains(m, "available") && Contains(m, "assigned") ==>
      r == Some("Assigned")
  {
    if Contains(m, "on leave") then Some("On Leave")
    else if Contains(m, "available") then Some("Available")
    else if Contains(m, "assigned") then Some("Assigned")
    else if Contains(m, "unavailable") then Some("Unavailable")
    else None
  }

  /** "unavailable" carries "available" inside it, so the last phrase is never reached. */
  lemma StatusNeverUnavailable(m: string)
    ensures ParseStatus(m) != Some("Unavailable")
    ensures ParseStatus(m).None? <==>
      !Contains(m, "on leave") && !Contains(m, "available") && !Contains(m, "assigned")
  {
    if Contains(m, "unavailable") {
      OccursContains("unavailable", "available", 2);
      ContainsTransitive(m, "unavailable", "available");
    }
  }

  // ---------------------------------------------------------------------------
  // The handler's decision
  // ---------------------------------------------------------------------------

  /** What the handler does with a message; the reply texts are not modelled. */
  datatype Action =
    | UpdateStatus(pilotName: string, status: string)  // coordinator.update_pilot_status
    | Clarify                                           // name or status not understood
    | NameIndexError                                    // trigger is the last word
    | Reassign(query: string)                           // coordinator.urgent_reassignment
    | Recommend(query: string)                          // coordinator.recommend_assignment
    | ShowHelp

  function Route(message: string): (a: Action)
    ensures a.UpdateStatus? || a.Clarify? || a.NameIndexError? <==> Classify(message) == StatusUpdate
    ensures a.Reassign? <==> Classify(message) == Urgent
    ensures a.Recommend? <==> Classify(message) == Assignment
    ensures a.Reassign? || a.Recommend? ==> a.query == Lower(message)
    ensures a.NameIndexError? <==>
      Classify(message) == StatusUpdate && PilotName(Lower(message)).IndexError?
    ensures a.Clarify? <==>
      Classify(message) == StatusUpdate && !PilotName(Lower(message)).IndexError? &&
      (PilotName(Lower(message)).NoName? || ParseStatus(Lower(message)).None?)
    ensures a.UpdateStatus? ==>
      PilotName(Lower(message)) == Name(a.pilotName) && ParseStatus(Lower(message)) == Some(a.status)
  {
    var m := Lower(message);
    match Classify(message)
    case StatusUpdate =>
      var name := PilotName(m);
      if name.IndexError? then NameIndexError
      else
        var status := ParseStatus(m);
        if name.NoName? || status.None? then Clarify
        else UpdateStatus(name.name, status.value)
    case Urgent => Reassign(m)
    case Assignment => Recommend(m)
    case Help => ShowHelp
  }

  /**
   * A status update reaches the coordinator with a capitalised, non-empty
   * name and a status it accepts and stores unchanged; "Unavailable" is
   * never sent.
   */
  lemma UpdateStatusSendsAcceptedStatus(message: string)
    requires Route(message).UpdateStatus?
    ensures var a := Route(message);
      && a.pilotName != [] && !IsLowerAscii(a.pilotName[0])
      && (a.status == "On Leave" || a.status == "Available" || a.status == "Assigned")
      && IsValidStatus(Lower(a.status))
      && CanonicalStatus(Lower(a.status)) == a.status
  {
    var m := Lower(message);
    assert Classify(message) == StatusUpdate;
    assert PilotName(m) == Name(Route(message).pilotName);
    assert ParseStatus(m) == Some(Route(message).status);
    var s := Route(message).status;
    StatusNeverUnavailable(m);
    if s == "On Leave" {
      LowerOfOnLeave(s);
    } else if s == "Available" {
      LowerOfAvailable(s);
    } else {
      LowerOfAssigned(s);
    }
  }

  lemma LowerOfOnLeave(s: string)
    requires s == "On Leave"
    ensures Lower(s) == "on leave"
  {
  }

  lemma LowerOfAvailable(s: string)
    requires s == "Available"
    ensures Lower(s) == "available"
  {
  }

  lemma LowerOfAssigned(s: string)
    requires s == "Assigned"
    ensures Lower(s) == "assigned"
  {
  }

  /**
   * A trigger that occurs only inside a longer word ("remarked", "settle")
   * selects the status branch but yields no name, so the handler asks again.
   */
  lemma TriggerInsideWordClarifies(message: string)
    requires Classify(message) == StatusUpdate
    requires var w := Words(Lower(message)); "mark" !in w && "set" !in w && "update" !in w
    ensures Route(message) == Clarify
  {
  }

  /** A status update with a name but none of the status phrases asks again. */
  lemma MissingStatusClarifies(message: string)
    requires Classify(message) == StatusUpdate && PilotName(Lower(message)).Name?
    requires var m := Lower(message);
      !Contains(m, "on leave") && !Contains(m, "available") && !Contains(m, "assigned")
    ensures Route(message) == Clarify
  {
    StatusNeverUnavailable(Lower(message));
  }

  /**
   * A message whose chosen trigger word (the first of "mark", "set", "update"
   * present as a whole word) occurs only as its last word fails with an index
   * error.
   */
  lemma TrailingTriggerFails(message: string, t: string)
    requires Classify(message) == StatusUpdate
    requires var w := Words(Lower(message));
      && (t == "mark" || ("mark" !in w && (t == "set" || ("set" !in w && t == "update"))))
      && w != [] && w[|w| - 1] == t && t !in w[..|w| - 1]
    ensures Route(message) == NameIndexError
  {
    var w := Words(Lower(message));
    assert t in w;
    assert IndexOf(w, t) == |w| - 1;
  }

  /** A non-empty word of lower-case letters. */
  predicate LowerWord(w: string) {
    w != [] && forall c | c in w :: IsLowerAscii(c)
  }

  /**
   * Four lower-case words joined by single spaces are already lower case and
   * read as exactly those four words.
   */
  lemma FourWords(t: string, w: string, a: string, b: string, message: string)
    requires LowerWord(t) && LowerWord(w) && LowerWord(a) && LowerWord(b)
    requires message == t + " " + w + " " + a + " " + b
    ensures Lower(message) == message
    ensures Words(message) == [t] + ([w] + ([a] + [b]))
  {
    LowerSpaced(t, w, a, b, message);
    RemoveAbsent(message, ',');
    FourTokens(t, w, a, b, message);
  }

  lemma LowerSpaced(t: string, w: string, a: string, b: string, message: string)
    requires LowerWord(t) && LowerWord(w) && LowerWord(a) && LowerWord(b)
    requires message == t + " " + w + " " + a + " " + b
    ensures Lower(message) == message && ',' !in message
  {
    assert forall c | c in message :: IsLowerAscii(c) || c == ' ';
    LowerOfNoUpper(message);
  }

  lemma FourTokens(t: string, w: string, a: string, b: string, message: string)
    requires LowerWord(t) && LowerWord(w) && LowerWord(a) && LowerWord(b)
    requires message == t + " " + w + " " + a + " " + b
    ensures Tokens(message) == [t] + ([w] + ([a] + [b]))
  {
    var r2 := a + " " + b;
    var r1 := w + " " + r2;
    assert message == t + " " + r1;
    TokensOfWord(t, r1);
    TokensOfWord(w, r2);
    TokensOfWord(a, b);
    TokensOfLastWord(b);
  }

  lemma MarkAsAvailableWords(w: string, message: string)
    requires LowerWord(w) && message == "mark " + w + " as available"
    ensures Lower(message) == message
    ensures Words(message) == ["mark"] + ([w] + (["as"] + ["available"]))
  {
    assert message == "mark" + " " + w + " " + "as" + " " + "available";
    FourWords("mark", w, "as", "available", message);
  }

  /**
   * "on leave" starts nowhere in "mark <w> as available": its space would have
   * to be one of the message's three spaces, and none of them has "on" before
   * it and "l" after it.
   */
  lemma NoOnLeaveAt(w: string, message: string, i: int)
    requires LowerWord(w) && message == "mark " + w + " as available"
    ensures !OccursAt(message, "on leave", i)
  {
    var n := |w|;
    var q := " as available";
    assert message == "mark " + w + q;
    if 0 <= i && i + 8 <= |message| {
      var o := message[i..i + 8];
      if i < 5 {
        assert o[0] == "mark "[i] && "mark "[i] in "mark ";
      } else if i < 3 + n {
        assert message[i + 2] == w[i - 3];
        assert o[2] == w[i - 3] && w[i - 3] in w;
      } else if i == 3 + n {
        assert message[i + 3] == q[1];
        assert o[3] == q[1];
      } else if i == 4 + n {
        assert message[i + 1] == q[0];
        assert o[1] == q[0];
      } else {
        assert o[0] == q[i - 5 - n] && q[i - 5 - n] in q;
      }
    }
  }

  lemma NoOnLeave(w: string, message: string)
    requires LowerWord(w) && message == "mark " + w + " as available"
    ensures !Contains(message, "on leave")
  {
    ContainsIffOccurs(message, "on leave");
    forall i ensures !OccursAt(message, "on leave", i) {
      NoOnLeaveAt(w, message, i);
    }
  }

  lemma MarkAsAvailableStatus(w: string, message: string)
    requires LowerWord(w) && message == "mark " + w + " as available"
    ensures Contains(message, "mark")
    ensures ParseStatus(message) == Some("Available")
  {
    OccursContains(message, "mark", 0);
    NoOnLeave(w, message);
    EndsWithAvailable(w, message);
  }

  lemma EndsWithAvailable(w: string, message: string)
    requires message == "mark " + w + " as available"
    ensures Contains(message, "available")
  {
    var p := "mark " + w + " as ";
    assert message == p + "available";
    assert message[|p|..|p| + 9] == "available";
    OccursContains(message, "available", |p|);
  }

  /**
   * "mark <name> as available" updates the capitalised name to "Available",
   * for any name written as one lower-case word.
   */
  lemma MarkAsAvailable(w: string, message: string)
    requires LowerWord(w) && message == "mark " + w + " as available"
    ensures Route(message) == UpdateStatus(Capitalize(w), "Available")
  {
    MarkAsAvailableWords(w, message);
    MarkAsAvailableStatus(w, message);
    var ws := Words(message);
    assert ws[0] == "mark" && ws[1] == w;
    assert IndexOf(ws, "mark") == 0;
  }

  lemma SetOnLeaveWords(w: string, message: string)
    requires LowerWord(w) && message == "set " + w + " on leave"
    ensures Lower(message) == message
    ensures Words(message) == ["set"] + ([w] + (["on"] + ["leave"]))
  {
    assert message == "set" + " " + w + " " + "on" + " " + "leave";
    FourWords("set", w, "on", "leave", message);
  }

  lemma SetOnLeaveStatus(w: string, message: string)
    requires message == "set " + w + " on leave"
    ensures Contains(message, "set")
    ensures ParseStatus(message) == Some("On Leave")
  {
    OccursContains(message, "set", 0);
    var p := "set " + w + " ";
    assert message == p + "on leave";
    assert message[|p|..|p| + 8] == "on leave";
    OccursContains(message, "on leave", |p|);
  }

  /**
   * "set <name> on leave" puts the capitalised name on leave. The name must
   * not itself be "mark", which would win as the trigger word.
   */
  lemma SetOnLeave(w: string, message: string)
    requires LowerWord(w) && w != "mark" && message == "set " + w + " on leave"
    ensures Route(message) == UpdateStatus(Capitalize(w), "On Leave")
  {
    SetOnLeaveWords(w, message);
    SetOnLeaveStatus(w, message);
    var ws := Words(message);
    assert |ws| == 4 && ws[0] == "set" && ws[1] == w && ws[2] == "on" && ws[3] == "leave";
    assert "mark" !in ws;
    assert IndexOf(ws, "set") == 0;
  }

  /** "set sneha on leave" puts pilot "Sneha" on leave. */
  lemma SetSnehaOnLeave(message: string)
    requires message == "set sneha on leave"
    ensures Route(message) == UpdateStatus("Sneha", "On Leave")
  {
    assert message == "set " + "sneha" + " on leave";
    SetOnLeave("sneha", message);
    CapitalizeSneha("sneha");
  }

  /** "mark sneha as available" updates pilot "Sneha" to "Available". */
  lemma MarkSnehaAsAvailable(message: string)
    requires message == "mark sneha as available"
    ensures Route(message) == UpdateStatus("Sneha", "Available")
  {
    assert message == "mark " + "sneha" + " as available";
    MarkAsAvailable("sneha", message);
    CapitalizeSneha("sneha");
  }

  lemma CapitalizeSneha(w: string)
    requires w == "sneha"
    ensures Capitalize(w) == "Sneha"
  {
    LowerOfNoUpper(w[1..]);
  }
}
