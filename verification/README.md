# Skylark drone-operations assistant, modelled in Dafny

The assistant is a chatbot for a drone-services operator. Its data lives in
three spreadsheet tables: the pilot roster, the drone fleet and the missions.
A chat message is routed by keywords to one of three actions:

- **status update**: "mark sneha as available" sets a pilot's status in the
  roster;
- **urgent reassignment**: picks a mission and an assigned pilot who could
  be moved to it;
- **assignment recommendation**: finds the mission the message names and the
  pilots and drones that qualify for it.

There are also simple conflict checks on pilots, drones and date ranges.

The model covers that logic over in-memory snapshots of the tables. Rows are
`map<string, string>`, from column name to cell text.

- `text.dfy` (module `Text`) holds the Python string operations the code
  relies on, each stated over `seq<char>` with its own properties:
  - `lower`, `capitalize` and `title`;
  - `sub in s`;
  - `split(",")`, whitespace `split()` and `replace(",", "")`;
  - `list.index`.
- `records.dfy` (module `Records`) holds `Option`, `Result`, rows, and the
  dict reads `.get(k)` / `.get(k, "")`. It also holds the subsequence
  relation used to state that a filter keeps input order.
- `matcher.dfy` (module `Matcher`) holds the pilot and drone filters. Each
  is:
  - a method with the source's loop and `continue` guards;
  - proved equal to a filter function;
  - with soundness, completeness and order lemmas about that function.
- `sheets.dfy` (module `Sheets`) is the store as a class holding the three
  tables. Its one write overwrites the status of the first roster row whose
  name matches case-insensitively.
- `coordinator.dfy` (module `Coordination`) is the coordinator, a class over
  the store, with four operations:
  - the three-pass mission finder;
  - the recommendation;
  - the status update, which is the only write;
  - the urgent reassignment.

  The finder and the urgent pick are specified by functions (`Resolve`,
  `UrgentMission`) with lemmas about precedence and tie-breaking.
- `router.dfy` (module `Chat`) is the chat handler's keyword chain, its
  extraction of the pilot name and status, and the resulting action.
- `conflicts.dfy` (module `Conflicts`) holds the overlap, pilot, drone and
  location checks.

Two behaviours of the code are easy to misread:

- **Urgent fallback tie-break.** The fallback sorts missions by priority with
  Python's stable `sorted(..., reverse=True)` and takes the head. That is the
  earliest of the missions tied at the top rank, not the last
  (`SortHeadIsFirstMax`, `UrgentTieGoesToEarliest`).
- **Empty skill requirements.** An empty `required_skills` or
  `required_certifications` cell is not "no requirement". `"".split(",")` is
  `[""]`, so the requirement is the set `{""}`. It is met only by a pilot whose
  own list has an empty piece (`EmptySkillRequirement`). Drones check for an
  empty requirement explicitly and are not affected.

A `KeyError` the code would raise is stated as a precondition. The
precondition names exactly the columns the code reads on the path it takes
(`PilotsReadable`, `UrgentReadable`, the `requires` of the conflict checks).
An `IndexError` in the chat handler is modelled as an explicit outcome
(`NameIndexError`).

## Model

| member | source | states |
|---|---|---|
| Text.LowerChar | coordinator.py:13 | lower-casing a character yields no upper-case letter, keeps letters letters and leaves non-upper characters alone |
| Text.Lower | coordinator.py:13 | `s.lower()` has the same length and lower-cases every character in place |
| Text.Capitalize | app.py:30 | `capitalize()` upper-cases the first character and lower-cases the rest |
| Text.TitleFrom | coordinator.py:68 | `title()` upper-cases a character that does not follow a letter and lower-cases one that does |
| Text.Title | coordinator.py:68 | `title()` keeps the length and upper-cases the first character |
| Text.TitleOfLower | coordinator.py:63-68 | title-casing ignores the case of its input: `Title(Lower(s)) == Title(s)` |
| Text.LowerOfTitle | coordinator.py:63-68 | lower-casing a title-cased string gives the lower-cased original |
| Text.TitleOfLowerWord | coordinator.py:68 | a lower-case word is title-cased by upper-casing its first letter |
| Text.TitleOfTwoLowerWords | coordinator.py:68 | two lower-case words joined by a space are title-cased word by word |
| Text.LowerOfNoUpper | app.py:20 | lower-casing a string without capitals leaves it unchanged |
| Text.Contains | coordinator.py:17 | `sub in s`: `sub` is a prefix of `s` or is in its tail; a contained string is no longer than the container |
| Text.ContainsOccurs | coordinator.py:17 | `sub in s` yields a position where `sub` occurs |
| Text.ContainsIffOccurs | coordinator.py:17 | `sub in s` holds iff `sub` occurs at some position of `s` |
| Text.OccursContains | coordinator.py:17 | an occurrence at any position makes `sub in s` true |
| Text.ContainsTransitive | app.py:41-45 | `u in t` and `t in s` give `u in s` |
| Text.ContainsEmpty | coordinator.py:17 | the empty string occurs in every string |
| Text.ContainsChars | app.py:39 | every character of a contained string occurs in the containing one |
| Text.Split | matcher.py:5 | `split(",")` yields at least one piece and no piece contains the separator |
| Text.JoinSplit | matcher.py:5 | joining the pieces of a split gives back the string |
| Text.SplitJoin | matcher.py:5 | splitting a join of separator-free pieces gives back the pieces |
| Text.SplitWithoutSeparator | matcher.py:14 | a string without a comma splits into itself alone |
| Text.SplitAppend | matcher.py:14 | a separator-free piece followed by a separator becomes its own first piece |
| Text.CommaSet | matcher.py:5-6 | `set(s.split(","))` is never empty and holds exactly the pieces of the split |
| Text.RemoveAll | app.py:26 | `replace(",", "")` leaves no comma and keeps every other character with its count; a character is in the result iff it is in the input and is not a comma |
| Text.RemoveAllAppend | app.py:26 | removal distributes over concatenation, so the kept characters stay in their order |
| Text.RemoveAbsent | app.py:26 | removing a character that does not occur changes nothing |
| Text.Word | app.py:26 | a token is the longest white-space-free prefix of the rest |
| Text.WordOfWord | app.py:26 | a white-space-free word followed by white space is read as one token |
| Text.Tokens | app.py:26 | `split()` yields non-empty tokens without white space, made of the input's characters, and yields none iff the input is all white space |
| Text.TokensOfWord | app.py:26 | a word followed by a space is the first token, the rest are the tokens of what follows |
| Text.TokensOfLastWord | app.py:26 | a single word of letters is its own only token |
| Text.TokensAppend | app.py:26 | splitting the input at a white-space character splits the token list there: no token runs across white space |
| Text.TokensOfRun | app.py:26 | a non-empty run without white space is exactly one token, so tokens are the maximal runs |
| Text.WordAppend | app.py:26 | a word ends at the first white space, whatever follows it |
| Text.IndexOf | app.py:30 | `list.index(x)` is the first position holding `x` |
| Records.Lookup | matcher.py:35-37 | `.get(k)` is `None` exactly when the column is absent, else the cell |
| Records.Get | coordinator.py:17 | `.get(k, "")` is the cell, or "" when the column is absent |
| Records.SubsequenceBounds | matcher.py:22-24 | a subsequence is no longer than the list and holds only its elements |
| Records.SubsequenceSnoc | matcher.py:22 | appending the next element to the kept list, or skipping it, keeps a subsequence |
| Matcher.PilotQualifies | matcher.py:9-19 | a pilot qualifies iff its status is "Available", its location equals the mission's, and the mission's skill and certification sets are subsets of its own |
| Matcher.MatchingPilots | matcher.py:2-24 | every returned pilot is an input pilot that is available, on site, skilled and certified; the result keeps roster order |
| Matcher.MatchingPilotsComplete | matcher.py:8-22 | each qualifying pilot keeps every one of its occurrences and each other pilot has none |
| Matcher.MatchingPilotsContainsEvery | matcher.py:8-22 | no qualifying pilot is dropped |
| Matcher.MatchingPilotsExact | matcher.py:2-24 | a pilot is returned iff it is in the roster and qualifies; the result is no longer than the roster |
| Matcher.EmptySkillRequirement | matcher.py:5-17 | under an empty skill requirement a qualifying pilot has an empty piece in its skill list |
| Matcher.EmptySkillRequirementRejectsSingleSkill | matcher.py:5-18 | so a pilot with one non-empty skill never matches an empty skill requirement |
| Matcher.FindMatchingPilots | matcher.py:2-24 | the loop with its `continue` guards returns exactly the pilot filter |
| Matcher.RequiredCapabilities | matcher.py:30-32 | the required capability set is empty iff the column is absent or empty |
| Matcher.DroneQualifies | matcher.py:35-42 | a drone qualifies iff its status is present and "Available", its location equals the mission's (both possibly absent), and it has every required capability or none is required |
| Matcher.MatchingDrones | matcher.py:27-47 | every returned drone is an input drone that is available, at the mission's location and capable; fleet order is kept |
| Matcher.MatchingDronesComplete | matcher.py:34-45 | each qualifying drone keeps every one of its occurrences and each other drone has none |
| Matcher.MatchingDronesExact | matcher.py:34-47 | a drone is returned iff it is in the fleet and qualifies; the result is no longer than the fleet |
| Matcher.NoCapabilityRequirementKeepsAvailable | matcher.py:30-45 | with no capability requirement, exactly the available drones at the location are returned |
| Matcher.ReturnedDronesCapable | matcher.py:31-43 | with a requirement, every returned drone has all required capabilities |
| Matcher.IncompleteDroneExcluded | matcher.py:35-38 | a drone without a status, or without a location when the mission has one, is never returned |
| Matcher.FindMatchingDrones | matcher.py:27-47 | the loop with its `continue` guards returns exactly the drone filter |
| Sheets.FindPilotRow | sheets.py:26-27 | the first roster row whose name equals the given one ignoring case, or none |
| Sheets.WithStatus | sheets.py:26-30 | the roster keeps its length; with no matching name it is unchanged, otherwise the first matching row gets the new status |
| Sheets.WithStatusEffect | sheets.py:26-30 | the write changes only the status of the first matching row; with no match nothing changes |
| Sheets.SheetsClient.UpdatePilotStatus | sheets.py:21-30 | returns whether a row matched and leaves the roster as `WithStatus` of the old one, the other tables untouched |
| Coordination.Hits | coordinator.py:16-30 | a pass hits a mission when its lower-cased column occurs in the lower-cased query; the location and priority passes also need the column to be non-empty |
| Coordination.FirstHit | coordinator.py:16-30 | the first mission a pass hits, with no earlier hit |
| Coordination.FirstHitIs | coordinator.py:16-18 | a scan that stops at its first hit returns that position |
| Coordination.Resolve | coordinator.py:12-32 | no mission iff all three passes miss; otherwise the first hit of the first pass that hits |
| Coordination.ResolvesToUnique | coordinator.py:12-32 | the finder can settle on only one pass and one position |
| Coordination.IdHitWins | coordinator.py:16-18 | an id hit anywhere wins over location and priority, at or before that position |
| Coordination.LocationHitBeatsPriority | coordinator.py:21-30 | with no id hit, a location hit wins over every priority hit |
| Coordination.MissingIdMatchesAnything | coordinator.py:17 | a mission without an id column is hit by the id pass for every query |
| Coordination.PriorityRank | coordinator.py:96-100 | urgent 3, high 2, medium 1, anything else 0 |
| Coordination.LocationMentioned | coordinator.py:90 | the urgent pass mentions a mission when its lower-cased location, "" when absent, occurs in the query |
| Coordination.FirstLocationMention | coordinator.py:89-92 | the first mission whose lower-cased location occurs in the query, empty locations included |
| Coordination.InsertByRank | coordinator.py:97-101 | inserting keeps every element and puts the new one before elements of equal or lower rank |
| Coordination.InsertByRankSorted | coordinator.py:97-101 | inserting into a rank-sorted list keeps it sorted |
| Coordination.SortByRankDesc | coordinator.py:97-101 | the descending sort is a permutation of the missions, sorted by rank |
| Coordination.FirstMaxRank | coordinator.py:97-101 | the earliest mission of the highest rank |
| Coordination.SortHeadIsFirstMax | coordinator.py:97-101 | the head of the stable descending sort is the earliest mission of top rank |
| Coordination.UrgentMission | coordinator.py:86-106 | the urgent pick is a non-empty mission from the list |
| Coordination.UrgentPrefersLocation | coordinator.py:89-92 | the first mission whose location the query mentions is picked |
| Coordination.EmptyLocationAlwaysMentioned | coordinator.py:89-92 | a mission with an empty or absent location is mentioned by every query, so the location pass stops there at the latest |
| Coordination.UrgentFallsBackToFirstMax | coordinator.py:95-101 | with no location mentioned, the earliest top-ranked mission is picked |
| Coordination.UrgentTieGoesToEarliest | coordinator.py:95-101 | of [high, urgent, urgent] the first urgent mission is picked |
| Coordination.NoUrgentMissionIffNoMissions | coordinator.py:95-106 | with non-empty mission rows, no mission is found iff there are none |
| Coordination.ReassignablePilots | coordinator.py:109-112 | exactly the pilots whose status lower-cases to "assigned"; the head is the first such pilot |
| Coordination.IsValidStatus | coordinator.py:61-63 | a status is accepted iff its lower-cased form is available, on leave, assigned or unavailable |
| Coordination.CanonicalStatus | coordinator.py:61-68 | each accepted status has one canonical spelling, its `title()` form (`TitleOfValidStatus`) |
| Coordination.TitleOfAvailable | coordinator.py:68 | "available" is written as "Available" |
| Coordination.TitleOfOnLeave | coordinator.py:68 | "on leave" is written as "On Leave" |
| Coordination.TitleOfAssigned | coordinator.py:68 | "assigned" is written as "Assigned" |
| Coordination.TitleOfUnavailable | coordinator.py:68 | "unavailable" is written as "Unavailable" |
| Coordination.TitleOfValidStatus | coordinator.py:61-68 | an accepted status in any case is written as its canonical form, which lower-cases back to the accepted value |
| Coordination.Coordinator.ScanPass | coordinator.py:16-30 | one search loop returns the first mission its pass hits |
| Coordination.Coordinator.FindMission | coordinator.py:12-32 | the three loops return the mission `Resolve` chooses, or none iff it chooses none |
| Coordination.Coordinator.RecommendAssignment | coordinator.py:37-57 | error iff no (or an empty) mission is found, else its id and location with exactly the matching pilots and drones |
| Coordination.Coordinator.UpdatePilotStatus | coordinator.py:60-77 | an invalid status is rejected with no write; a valid one is written in canonical form and reported, or not found |
| Coordination.Coordinator.ScanLocations | coordinator.py:89-92 | the location loop returns the first mission whose location the query mentions |
| Coordination.Coordinator.UrgentReassignment | coordinator.py:79-127 | no-mission error iff `UrgentMission` is none, no-pilot error iff no pilot is assigned, else the mission's id and location and the first assigned pilot's name and assignment |
| Chat.Classify | app.py:25-101 | the keyword chain: status update if mark, set or update occurs, else urgent if urgent or reassign occurs, else assignment if assign occurs, else help |
| Chat.ReassignContainsAssign | app.py:65-84 | a message with "reassign" contains "assign" |
| Chat.HelpIffNoTrigger | app.py:25-103 | the help reply comes exactly when none of mark, set, update, urgent, assign occurs |
| Chat.ReassignNeverRecommends | app.py:65-84 | a message with "reassign" never reaches the recommender nor the help reply |
| Chat.Words | app.py:26 | the words of a message are non-empty and comma-free, and there are none iff the message holds only commas and white space |
| Chat.NameAfter | app.py:30 | the name is the capitalised word after the trigger's first occurrence, or an index error when the trigger is last |
| Chat.PilotName | app.py:29-36 | the name is the word after the first whole-word "mark", else "set", else "update" (`NameAfter`); no name iff none of them is a whole word; a name is non-empty and starts with no lower-case letter |
| Chat.ParseStatus | app.py:39-48 | "on leave" gives On Leave; otherwise "available" gives Available; otherwise "assigned" gives Assigned; no status iff none of the four phrases occurs |
| Chat.StatusNeverUnavailable | app.py:39-48 | "Unavailable" is never produced; no status iff none of on leave, available, assigned occurs |
| Chat.Route | app.py:25-103 | the branch is the one the keyword chain picks, with the lower-cased message as query; an index error iff the chosen trigger is the last word; a clarification iff the name or the status is missing; otherwise the update carries exactly the extracted name and status |
| Chat.UpdateStatusSendsAcceptedStatus | app.py:26-55 | an update carries a capitalised name and one of On Leave, Available, Assigned, which the coordinator accepts and stores unchanged |
| Chat.TriggerInsideWordClarifies | app.py:29-53 | a trigger found only inside a longer word leads to the clarification reply |
| Chat.MissingStatusClarifies | app.py:39-53 | a status update with a name but none of on leave, available, assigned leads to the clarification reply |
| Chat.TrailingTriggerFails | app.py:29-34 | when the trigger chosen (mark, else set, else update) occurs only as the last word, the handler fails with the index error |
| Chat.MarkAsAvailable | app.py:26-42 | "mark <name> as available" updates the capitalised name to "Available", for any one-word lower-case name |
| Chat.NoOnLeave | app.py:39-42 | "on leave" never occurs in "mark <name> as available", so the status read is Available |
| Chat.MarkSnehaAsAvailable | app.py:26-42 | "mark sneha as available" updates "Sneha" to "Available" |
| Chat.SetOnLeave | app.py:26-42 | "set <name> on leave" puts the capitalised name on leave, unless the name is itself "mark" |
| Chat.SetSnehaOnLeave | app.py:26-42 | "set sneha on leave" puts "Sneha" on leave |
| Conflicts.Overlap | conflict_detector.py:4-5 | inclusive ranges overlap unless one ends before the other starts; a well-formed range starting inside another overlaps it |
| Conflicts.OverlapSymmetric | conflict_detector.py:4-5 | overlap does not depend on the order of the two ranges |
| Conflicts.TouchingRangesOverlap | conflict_detector.py:4-5 | consecutive ranges sharing an end point overlap |
| Conflicts.OverlapIffCommonPoint | conflict_detector.py:4-5 | two well-formed ranges overlap iff they share a point |
| Conflicts.PilotConflicts | conflict_detector.py:8-14 | one issue iff the pilot's current assignment is non-empty, else none |
| Conflicts.PilotConflictsIgnoreMission | conflict_detector.py:8-14 | the mission argument plays no part |
| Conflicts.DroneConflicts | conflict_detector.py:17-23 | one issue iff the status is exactly "Maintenance", else none |
| Conflicts.LocationMismatch | conflict_detector.py:26-27 | a pilot and a drone mismatch iff their locations differ |
| Conflicts.LocationMismatchSymmetric | conflict_detector.py:26-27 | a location mismatch does not depend on argument order |
| Conflicts.MatchedPairConsistent | conflict_detector.py:26-27 | a pilot and a drone matched to the same mission are at the same location, and the drone is not in maintenance |

## Left out

- The Google Sheets client is not modelled. That covers the OAuth
  credentials, the network reads and the cell write (sheets.py:3-19,
  sheets.py:22-24). The store is a class holding the three tables in memory.
  Its update mirrors sheets.py:26-30. A roster without a `status` header,
  which makes `headers.index("status")` fail, is not modelled.
- Sheets.SheetsClient.UpdatePilotStatus: the read-then-write race between
  reading the roster and writing the cell is not modelled, because
  concurrency is out of scope.
- The FastAPI wiring, the request and response models, and the HTML page
  (app.py:1-19, app.py:106 onward) are left out as transport and UI.
- The reply texts are not modelled (app.py:51-60, 68-78, 87-103). The
  handler's decisions are modelled as the `Chat.Action` values instead. The
  handler's calls into the coordinator are not composed with `Chat.Route`.
- Text.Lower, Text.TitleFrom and Text.Capitalize: case mapping covers only
  the ASCII letters. Python maps every Unicode cased letter, and `title()`
  treats any cased character as a letter.
- Text.Tokens: white space is the ASCII and Latin-1 set Python's `split()`
  uses. Other Unicode spaces are not included.
- Cells are taken to be strings. The spreadsheet client may return numbers,
  which `str(...)` at coordinator.py:17-28 would convert.
- `KeyError` paths are preconditions rather than error results. They are
  stated in `PilotsReadable`, `UrgentReadable`,
  `Coordination.Coordinator.RecommendAssignment`,
  `Coordination.Coordinator.UrgentReassignment`, `Conflicts.PilotConflicts`,
  `Conflicts.DroneConflicts` and `Conflicts.LocationMismatch`.
- Coordination.NoUrgentMissionIffNoMissions: this is stated for non-empty
  mission rows only. An empty row is falsy in Python, so the code can fall
  through to the no-mission error even when rows exist.
- Chat.MarkAsAvailable, Chat.SetOnLeave: these are stated for a name that is
  one word of lower-case ASCII letters. Names with capitals, digits or
  several words are not covered.
- The unused `datetime` import in conflict_detector.py is left out.
  `Conflicts.Overlap` works on integers.
