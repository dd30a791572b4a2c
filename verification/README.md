# Velnox: verified models of the deciding code

Velnox manages clusters of Proxmox nodes for several tenants. Much of what it decides is pure code: where guests
may run, when a maintenance window is open, what a log may show, which rows a query may touch, who may hand out
which permission. This project models that code in Dafny and proves what the code and its documentation promise of
it, over all inputs and all runs.

`dafny verify dfyconfig.toml` checks everything.

## How it is laid out

| files | about |
|---|---|
| `PlacementRules`, `PlacementPlanner`, `PlacementSafety`, `PlacementChoices`, `PlacementPreferences`, `PlacementRoom` | placement rules, the planner that corrects violations, whom it moves where, and what it never does |
| `PlacementBalance`, `PlacementBalanceRun`, `PlacementBalanceChoice`, `PlacementContradictions` | evening out memory, runs of it, which move is made, and rules that contradict each other |
| `Calendar`, `TimeZones`, `MaintenanceWindows` | dates, wall-clock times around clock changes, recurring windows |
| `Redaction`, `Redactor` | taking secrets out of text, and out of nested values |
| `Tenancy`, `Permissions`, `Authority` | queries confined to tenants; grants, roles and who may pass them on |
| `Base32`, `OneTimeCodes`, `Passwords`, `SecretStore` | authenticator secrets and codes, generated passwords, stored secrets |
| `JobEvents`, `Rolling`, `Repositories`, `UpgradeChecklist`, `LibraryCapacity` | the job log, rolling updates, repository switching, the upgrade checklist, library space |
| `Prelude` | options, results, insertion-ordered maps, a stable sort |

Code that changes things step by step is a method or a class here, proved equal to a specification function or
predicate; the lemmas are about that specification. Protocols with several writers are state machines over their
statements. Where the time zone database, random words, upper-casing, regular expressions and ciphers come in, they are
parameters: functions of which only what is stated is known.

## What came out

- The planner's promise holds of hard rules: apart, together and strict preferences. A soft preference that holds can be
  broken by a later soft one without anything being said. Two soft preferences do this exactly when they share a guest
  and each has a node the other has not; without such a later rule a soft preference holds or is named. Other rules do
  not matter to the first half of that; the second is shown where no other rule names the shared guest, since one that
  does may move it back: given a third time, after the one that collides with it, the first is kept or named.
- A keep-apart rule that named a guest twice could not hold wherever the guest runs, yet would forbid it no node. The
  request schema refuses such rules (packages/shared/src/placement.ts:337-338).
- The conversion of wall-clock times documents that a skipped time happens at the first minute after the gap. The code
  gives the same reading at the old offset: 02:30 becomes 03:30. The model follows the code.
- The conversion is wrong for a zone ahead of UTC by more than twelve hours, around the clock change; the exact
  condition is stated and an example with thirteen hours is given.
- A secret can be left readable next to a replacement only if it overlaps `[redacted]` itself: it contains a bracket in
  the right place, lies within the word, or contains it. That is proved to be the exact condition.
- The names of errors, the keys of objects and the markers are not redacted: those are exactly the places in a redacted
  value where a remembered secret that does not overlap can still be read. The names and keys are those passed in; the
  markers are five fixed ones and those of buffers, and each that holds a secret is shown for some value.
- Tenant scoping looks at a string in the tenant column or a connected tenant. A scoped caller may still put a row out of
  its scope in exactly these ways: naming no tenant, or emptying it, where the column may be empty, as on audit events;
  and setting the column to another tenant by an update operation. Rows out of scope are never read or changed.
- The library's ceiling and floor are checked in one statement and reserved in another
  (apps/api/src/modules/library/library.service.ts:321-324). Two uploads checked before either is written can pass both
  limits, against what the comment at packages/db/src/library.ts:63-65 says; the exact condition on a run is stated.
- Authority never grows with two levels of tenants. With a third it would, and the exact condition is stated.
- Switching repositories fails in two ways when one repository has an enterprise URI and a no-subscription one; it may
  be switched off with what it replaces, or switched on by the plan itself. Both are stated exactly, with an example.
- After a rewrap to another key, the store that ran it still holds the old key and cannot read what it rewrapped;
  running it again from there fails at the first row.

## Model

| member | source | states |
|---|---|---|
| `PlacementSafety.CorrectionsBreakNothing` | packages/shared/src/placement.ts:179-254 | for every rule set and cluster: a hard rule broken by the planned positions was broken before the planning and is named in `unresolved`; the rule itself, if it keeps apart, names no guest twice |
| `PlacementPreferences.PreferenceHoldsOrIsNamed` | packages/shared/src/placement.ts:174-254 | a preference that is not strict holds at the end or is named, unless a soft one given after it collides: shares a guest, and each has a node the other has not |
| `PlacementPreferences.KeptIffNoCollision` | packages/shared/src/placement.ts:174-254 | of two preferences the first is kept or named on every cluster exactly when the second does not collide with it |
| `PlacementPreferences.CollisionUndoes` | packages/shared/src/placement.ts:211-253 | among any other rules that do not name the guest, two colliding ones give a cluster where the first holds before, not after, and nothing is said |
| `PlacementPreferences.PreferenceIsUndone` | packages/shared/src/placement.ts:211-253 | one guest, two nodes and two preferences for which that happens |
| `PlacementPreferences.LastWordIsKept` | packages/shared/src/placement.ts:211-253 | a preference for the guests and nodes of the soft rule given last holds at the end or that rule is named, whatever collides with it in between |
| `PlacementPreferences.GivenAgainIsKept` | packages/shared/src/placement.ts:211-253 | so of three rules the first is never lost in silence when the third repeats it, even if the second collides with it |
| `PlacementPreferences.SoftTakenInOrder` | packages/shared/src/placement.ts:211-217 | soft preferences are taken last, in the order given |
| `PlacementPreferences.FixAllKeepsPreference` | packages/shared/src/placement.ts:245-250 | a preference that holds stays held through any preferences that do not collide with it |
| `PlacementChoices.TogetherMovesTheRest` | packages/shared/src/placement.ts:233-244 | correcting a rule to keep together moves exactly its running guests that are off one node, each ending there or being said to be refused: the node that runs most of them, of those the one with most memory free, of those the one first met; a rule that holds moves nobody |
| `PlacementChoices.TargetGathers` | packages/shared/src/placement.ts:238-240 | that node, told from where the rule's guests run and the free memory |
| `PlacementChoices.ApartMovesTheRest` | packages/shared/src/placement.ts:219-232 | correcting a rule to keep apart moves exactly its guests that are not the first it names on their node, refusals aside |
| `PlacementChoices.LeaveInOrder` | packages/shared/src/placement.ts:220-232 | they go node by node as the nodes are met, and from each node the smallest first |
| `PlacementChoices.LeavingSmallestFirst` | packages/shared/src/placement.ts:226-230 | all of a group but its first, by memory, equals in their order |
| `PlacementChoices.PreferenceMovesTheRest` | packages/shared/src/placement.ts:245-250 | correcting a preference moves exactly its guests outside the nodes it names, refusals aside |
| `PlacementChoices.BestNodeTakesIt` | packages/shared/src/placement.ts:151-209 | one guest's move: blocked, it stays and that is said with what blocks it; else it goes to the best of the nodes that take it, wanted by its preferences first, then with most memory free, then first listed; only when none takes it, it stays and that is said |
| `PlacementChoices.MovesInTurn` | packages/shared/src/placement.ts:225-250 | guests move one after the other, each from where the moves before it lead |
| `PlacementChoices.TurnsInOrder` | packages/shared/src/placement.ts:211-216 | the rules' turns: keep-apart, keep-together, preferences; of one kind the strict ones first; the rest as given |
| `PlacementChoices.PlanIsExplained` | packages/shared/src/placement.ts:190-209 | over the whole planning each move and each message is of a known guest and names an enabled rule that lists it |
| `PlacementSafety.CorrectionsAddUp` | packages/shared/src/placement.ts:184-253 | free plus guest memory is the same on every node before and after, no node is overfilled, blocked guests stay, each guest moves at most once, and carrying out the returned moves gives the planned positions |
| `PlacementSafety.NothingToCorrect` | packages/shared/src/placement.ts:217-253 | when every enabled rule holds, nothing moves and nothing is reported |
| `PlacementRoom.RoomyApartIsMet` | packages/shared/src/placement.ts:217-232 | with enough nodes that could each hold all guests, and nobody blocked, the only enabled rule, a keep-apart one, ends up met with nothing unresolved, from any positions |
| `PlacementSafety.RulesTakenInOrder` | packages/shared/src/placement.ts:211-217 | every enabled rule has its turn, keep-apart before keep-together before preferences, strict before soft, so all hard rules come first |
| `PlacementSafety.FixHoldsOrNames` | packages/shared/src/placement.ts:217-251 | after its own turn any rule holds, hard or soft, or is named in `unresolved` |
| `PlacementSafety.FixAllKeepsRule` | packages/shared/src/placement.ts:190-252 | a hard rule that holds goes on holding through all later corrections |
| `PlacementSafety.FixAllHoldsOrNames` | packages/shared/src/placement.ts:217-252 | every hard rule whose turn comes holds at the end of all turns or is named |
| `PlacementSafety.MoveLandsOrIsRefused` | packages/shared/src/placement.ts:190-209 | a correction either lands the guest on an allowed node with room and records it, or changes nothing but one line of `unresolved` |
| `PlacementSafety.LandingKeepsRule` | packages/shared/src/placement.ts:190-209 | one move leaves every hard rule that held holding |
| `PlacementSafety.AccountsKept` | packages/shared/src/placement.ts:196-208 | each move keeps memory conserved, nodes not overfilled, and the recorded moves telling the positions |
| `PlacementSafety.ChangedApplies` | packages/shared/src/placement.ts:205-253 | dropping the moves that go nowhere keeps what carrying the moves out does |
| `PlacementPlanner.PlanCorrections` | packages/shared/src/placement.ts:179-254 | the loop over rules, in place on positions, free memory, moves and messages, gives the moves and messages the lemmas are about |
| `PlacementPlanner.Planner.Correct` | packages/shared/src/placement.ts:217-251 | the body of that loop for one rule: which guests move, in which order, and where to |
| `PlacementPlanner.Planner.MoveOne` | packages/shared/src/placement.ts:190-209 | one guest's move on the planner's own fields: the whole new state, and whether it moved |
| `PlacementPlanner.Planner.MoveInTurn` | packages/shared/src/placement.ts:225-250 | moves a list of guests one after the other, passing over those already where wanted |
| `PlacementPlanner.Planner.Land` | packages/shared/src/placement.ts:203-207 | the guest's position, the memory given back, and one recorded move per guest |
| `PlacementPlanner.PlaceGuest` | packages/shared/src/placement.ts:151-172 | the node chosen by the loop, and that node's free memory less the guest's, all others untouched |
| `PlacementPlanner.BestIsBest` | packages/shared/src/placement.ts:159-169 | the node chosen is eligible and none is better by preference rank and then free memory, first one on ties; none only if none is eligible |
| `PlacementRules.PlacementViolations` | packages/shared/src/placement.ts:43-89 | the loop reports exactly the violations the lemmas are about, rule by rule |
| `PlacementRules.RuleViolations` | packages/shared/src/placement.ts:49-87 | one rule's violations: its guests that share a node, run on several, or run outside the wanted nodes, soft only for a preference that is not strict |
| `PlacementRules.GroupByNode` | packages/shared/src/placement.ts:53-57 | guests by node in order of first appearance |
| `PlacementRules.ViolatedIffNotHeld` | packages/shared/src/placement.ts:43-89 | a rule is reported exactly when it is enabled and does not hold of the positions, stated without lists |
| `PlacementChoices.ViolationsSay` | packages/shared/src/placement.ts:43-89 | what each violation says: the rule, soft for a preference that is not strict, and exactly the guests out of place; every node two guests kept apart share is reported |
| `PlacementRules.AdmitsIffHolds` | packages/shared/src/placement.ts:96-114 | a guest that is nowhere is admitted by a hard rule on a node exactly when the rule still holds with it there |
| `PlacementRules.Forbids` | packages/shared/src/placement.ts:96-114 | a rule is returned exactly when some enabled rule forbids the node, and it is one that does |
| `PlacementRules.NamedTwiceIsNeverApart` | packages/shared/src/placement.ts:96-108 | a keep-apart rule that names a guest more than once is met nowhere that guest runs, yet forbids no node that its other guests are not on |
| `PlacementRules.HoldsWithoutGuest` | packages/shared/src/placement.ts:196-197 | taking a guest out breaks no rule |
| `PlacementRules.TogetherIffOneNode` | packages/shared/src/placement.ts:66-68 | a keep-together rule holds exactly when its running guests are on at most one node |
| `PlacementRules.ApartIffAllAlone` | packages/shared/src/placement.ts:52-59 | a keep-apart rule holds exactly when no node has two of its running guests |
| `PlacementBalance.PlanBalance` | packages/shared/src/placement.ts:274-320 | the spread, and the first move the search accepts: smallest guests of the busiest node first, quietest nodes first; a guest without a target is put back on its own node |
| `PlacementBalance.TryCandidates` | packages/shared/src/placement.ts:292-318 | the outer loop, with the candidate left out of the positions while its targets are tried and put back after |
| `PlacementBalance.TryTargets` | packages/shared/src/placement.ts:294-316 | the inner loop: the first target with room that no rule forbids, of no worse rank, that narrows the spread |
| `PlacementBalanceRun.NextMoveIsSound` | packages/shared/src/placement.ts:286-315 | a planned move is of an unblocked guest, between two known nodes, one that the target accepts |
| `PlacementBalanceRun.NoMoveMeansNoneHelps` | packages/shared/src/placement.ts:292-319 | no move over the threshold means no node accepts any guest of the busiest one |
| `PlacementBalanceRun.BalanceStepHelps` | packages/shared/src/placement.ts:295-304 | a move narrows the spread, fits its node, and does not worsen the guest's preference rank |
| `PlacementBalanceRun.BalanceStepKeepsRule` | packages/shared/src/placement.ts:293-296 | a move leaves every hard rule that held holding |
| `PlacementBalanceRun.NeverRevisits` | packages/shared/src/placement.ts:274-320 | repeated balancing never returns to an earlier placement |
| `PlacementBalanceRun.BalancingEnds` | packages/shared/src/placement.ts:274-320 | repeated balancing ends within as many moves as there are placements |
| `PlacementBalanceChoice.NextMoveIsFirst` | packages/shared/src/placement.ts:283-319 | the move is of the smallest guest of the busiest node that any node accepts, to the least used node that accepts it, the first listed on ties |
| `PlacementBalanceChoice.SpreadIs` | packages/shared/src/placement.ts:261-266 | the spread is the most by which one node's part in use exceeds another's, in percentage points |
| `PlacementBalanceChoice.BusiestIs` | packages/shared/src/placement.ts:282-283 | no node uses more of its memory than the busiest, and those that use as much come later |
| `PlacementBalanceChoice.AcceptsIff` | packages/shared/src/placement.ts:294-304 | a node accepts a guest exactly with room, no rule against it, no preference given up, and a narrower spread |
| `PlacementContradictions.ContradictedIffIncompatible` | packages/shared/src/placement.ts:377-389 | of two rules that keep guests apart or together an enabled one is reported as contradicting exactly when no placement running all their guests meets both; a preference or a disabled rule never is |
| `PlacementContradictions.Contradicts` | packages/shared/src/placement.ts:377-389 | a name is returned exactly when some other rule contradicts, and it is one's |
| `MaintenanceWindows.MatchesIffRecurs` | packages/shared/src/rrule.ts:201-218 | the date test agrees with the recurrence stated by counting weekdays from either end of the month and month days from either end (subset of section 3.3.10 of RFC 5545) |
| `MaintenanceWindows.NthMatches` | packages/shared/src/rrule.ts:211-217 | the two divisions give the ordinal that counting gives |
| `MaintenanceWindows.WeekdayIsCounted` | packages/shared/src/rrule.ts:192-195 | the weekday of a date is the one that counting the days from a Thursday, 1 January 1970, gives; recurrence is stated with the counted one |
| `MaintenanceWindows.WeekdaysFollow` | packages/shared/src/rrule.ts:192-195 | every date falls on the weekday after the day before's |
| `MaintenanceWindows.EpochIsThursday` | packages/shared/src/rrule.ts:192-195 | 1 January 1970 is a Thursday |
| `MaintenanceWindows.Openings` | packages/shared/src/rrule.ts:229-254 | exactly the openings of the declarative rule in the range, strictly ascending, so the walk over days misses none and repeats none |
| `MaintenanceWindows.OpensIffDue` | packages/shared/src/rrule.ts:152-250 | with offsets within twelve hours and at most one clock change within as much of any wall-clock time, a window opens exactly at the instants at which the zone's own clock first shows one of its times, or for a skipped one would have at the old offset |
| `MaintenanceWindows.OpeningsOnDay` | packages/shared/src/rrule.ts:243-250 | exactly the openings of one date in the range |
| `MaintenanceWindows.WalkMissesNothing` | packages/shared/src/rrule.ts:233-237 | the days walked, one before and two after, hold every opening in the range |
| `MaintenanceWindows.LeavingOutADayIsReasonable` | packages/shared/src/rrule.ts:233-237 | a zone that leaves out a whole calendar day is among those the walk is right for |
| `MaintenanceWindows.WindowState` | packages/shared/src/rrule.ts:265-277 | open exactly when an opening lies at most the duration back; opened at the last one, closes a duration later; the next opening is the first of the coming 400 days |
| `MaintenanceWindows.LastOpening` | packages/shared/src/rrule.ts:266-269 | the last opening, when the window is open |
| `MaintenanceWindows.NextOpening` | packages/shared/src/rrule.ts:270-270 | the first coming opening, if any |
| `TimeZones.OffsetIsZone` | packages/shared/src/rrule.ts:128-150 | the offset read from the wall-clock fields is the zone's |
| `TimeZones.ConversionIsRightIff` | packages/shared/src/rrule.ts:157-184 | around one clock change the conversion gives the time's meaning if and only if the change is not one that both readings, twelve hours either side, miss |
| `TimeZones.ConversionIsRightWithinTwelveHours` | packages/shared/src/rrule.ts:166-183 | with offsets within twelve hours it always does |
| `TimeZones.ExpectedIsTheMeaning` | packages/shared/src/rrule.ts:152-156 | that meaning: the only or first instant showing the time, or, when skipped, the same reading at the old offset, after the gap |
| `TimeZones.AucklandSpringIsMissed` | packages/shared/src/rrule.ts:168-183 | with a summer offset of thirteen hours a skipped 02:30 becomes 01:30, before the gap |
| `TimeZones.SkippedTimeIsNotTheFirstMinute` | packages/shared/src/rrule.ts:181-183 | how far after the gap a skipped time falls: at its first minute only for the first minute skipped |
| `TimeZones.InstantHasAnOffset` | packages/shared/src/rrule.ts:165-183 | with any zone the result is the wall-clock time less an offset the zone has |
| `Calendar.NumberOfDateOf` | packages/shared/src/rrule.ts:235-241 | the date of a day number has that number |
| `Calendar.DateOfNumberOf` | packages/shared/src/rrule.ts:165-165 | and a date's number gives the date back |
| `Calendar.DayZeroOfNextMonth` | packages/shared/src/rrule.ts:197-199 | day 0 of the next month is the last of this one |
| `Redaction.NoSecretSurvives` | packages/shared/src/redaction.ts:79-87 | a remembered secret that does not overlap the replacement text occurs nowhere in the result, for any text, set of secrets and order |
| `Redaction.SafeIffNoOverlap` | packages/shared/src/redaction.ts:79-87 | exactly those secrets are safe for every text and every other secret |
| `Redaction.PlainSecretsDoNotOverlap` | packages/shared/src/redaction.ts:64-75 | tracked secrets without square brackets, other than the word in the replacement, do not overlap it |
| `Redaction.OverlapCanSurvive` | packages/shared/src/redaction.ts:79-87 | for each overlapping secret there are a text and a second secret with which it is readable in the result |
| `Redaction.OccurrenceWasThere` | packages/shared/src/redaction.ts:83-83 | what occurs after a replacement and does not overlap it occurred before, and was not what was replaced |
| `Redaction.ReplacedIffExchanged` | packages/shared/src/redaction.ts:79-87 | the result is the one text in which, secret after secret, the occurrences taken from the left are exchanged for the replacement and all else is kept in place |
| `Redaction.CleanIsKept` | packages/shared/src/redaction.ts:79-87 | a text in which no secret occurs comes out as it is |
| `Redactor.SecretRedactor.RedactText` | packages/shared/src/redaction.ts:79-87 | URL credentials are masked, then the remembered secrets exchanged one after another and all else kept, so the masked text itself when no secret occurs in it; no remembered secret that does not overlap survives |
| `Redactor.SecretRedactor.RedactValue` | packages/shared/src/redaction.ts:124-124 | the result mirrors the value: strings but for URLs and secrets, numbers, arrays and objects come through, with a marker only past the depth limit, for an object inside itself or met before, and for maps, sets and buffers; no text kept holds such a secret and values under secret keys are hidden; in all that the result shows, one occurs exactly in the name of an error met, a key of an object met, or a marker; so in nothing when it is in no name or key passed in and in none of the markers there are |
| `Redactor.SecretRedactor.Walk` | packages/shared/src/redaction.ts:89-120 | the recursion over objects met before, depth, errors, arrays and fields, with the set of objects seen |
| `Redactor.SecretRedactor.WalkObject` | packages/shared/src/redaction.ts:99-119 | one object of each kind, with what has been seen after it |
| `Redactor.SecretRedactor.Remember` | packages/shared/src/redaction.ts:71-75 | adds a secret once, and only when long enough |
| `Redactor.SecretRedactor.Forget` | packages/shared/src/redaction.ts:126-128 | removes that secret and no other |
| `Redactor.SecretRedactor.constructor` | packages/shared/src/redaction.ts:68-77 | starts with the long enough secrets given |
| `Redactor.WalkIsSafe` | packages/shared/src/redaction.ts:89-120 | no such secret is in any string, message or stack kept, at any depth, and a value under a secret key is the marker |
| `Redactor.WalkMirrors` | packages/shared/src/redaction.ts:89-120 | the same of any value from any point of a walk |
| `Redactor.ShownIff` | packages/shared/src/redaction.ts:89-120 | over every value: such a secret can be read in the result exactly where it is in the name of an error met, in a key of an object met, or in a marker emitted |
| `Redactor.HiddenIffNoMarker` | packages/shared/src/redaction.ts:89-120 | told beforehand: such a secret is read in no value whose error names and keys are all free of it, exactly when it is part of none of the markers there are |
| `Redactor.MarkersAreFixed` | packages/shared/src/redaction.ts:90-113 | whatever the value, its markers are the five fixed ones and those of buffers |
| `Redactor.NamesAndKeysAreKept` | packages/shared/src/redaction.ts:102-118 | an error's name and any key, a secret one too, come out as they are |
| `Redactor.MarkersAreShown` | packages/shared/src/redaction.ts:90-113 | a marker can hold a remembered word: `circular` |
| `Tenancy.ScopedQueryIsIsolated` | packages/db/src/tenancy.ts:352-388 | a scoped query that is let through reads rows in scope only and leaves those out of scope as they were; it adds to them exactly when its payload escapes and is carried out, and otherwise runs as the caller's own query would if they did not exist |
| `Tenancy.PlainFilterIsPlain` | packages/db/src/tenancy.ts:150-151 | the filter on the row's own tenant means that the tenant is one of those in scope |
| `Tenancy.WaysOut` | packages/db/src/tenancy.ts:317-342 | which payloads that are let through escape: no tenant named or the tenant emptied where the column may be empty, or another tenant set by an operation on the column |
| `Tenancy.CreatedWithoutTenant` | packages/db/src/tenancy.ts:155-155 | on a model like audit events any scoped caller may create a row out of scope |
| `Tenancy.MovedBySet` | packages/db/src/tenancy.ts:322-330 | an update that sets the column by an operation moves a row to any tenant |
| `Tenancy.SessionIsIsolated` | packages/db/src/tenancy.ts:352-388 | over any session whose requests, each resolved or not and with its own scope, have no tenant but those of a list: no row of another is read, changed or removed, and none is added exactly when every query of it stays in |
| `Tenancy.OnlyUnscopedReachOutside` | packages/db/src/tenancy.ts:352-388 | in any session, whatever the states along it: a query that reads, changes or removes a row outside a list of tenants was made by the system, for all tenants or for a tenant not in the list, and the first two run as asked |
| `Tenancy.UnresolvedDoesNothing` | packages/db/src/tenancy.ts:358-360 | for any scoped model and any operation an unresolved request reads nothing and changes nothing |
| `Tenancy.UnscopedRunsAsAsked` | packages/db/src/tenancy.ts:362-379 | the system and someone with all tenants run exactly the query they asked for |
| `Tenancy.FilterIsConjunction` | packages/db/src/tenancy.ts:302-315 | the rewritten `where` matches what the caller's does and the filter does, whatever was under `AND`, and keeps the caller's own keys |
| `Tenancy.RefusedIffOutside` | packages/db/src/tenancy.ts:364-373 | a scoped query is refused exactly when it writes and a payload names a tenant out of scope |
| `Tenancy.EmptyScopeSeesNothing` | packages/db/src/tenancy.ts:377-385 | an empty scope reads nothing, and changes nothing where a row must have a tenant; elsewhere it can only create rows without one |
| `Tenancy.AssertWritableTenant` | packages/db/src/tenancy.ts:317-342 | the loop over the rows: the first tenant out of scope, by column or else by connection |
| `Tenancy.ScopeQueryArgs` | packages/db/src/tenancy.ts:352-388 | the arguments a query runs with, or the refusal |
| `Tenancy.SetTenantScope` | packages/db/src/tenancy.ts:64-67 | fills in the holder of the request, when there is one |
| `Authority.NeverGrowsIffClosed` | packages/shared/src/permissions.ts:236-592 | over any run of saving and granting roles nobody ends up with a permission on a resource that nobody held before, exactly when passing grants to sub-tenants twice reaches nothing new; in particular with two levels |
| `Authority.StepAddsNothing` | packages/shared/src/permissions.ts:559-592 | no single step adds a pair of permission and resource to what is held |
| `Authority.GrantingAddsNothing` | packages/shared/src/permissions.ts:586-592 | what a granted role reaches, sub-tenants included, its grantor reached |
| `Authority.GrantAcceptedIff` | packages/shared/src/permissions.ts:586-592 | granting a role is carried out exactly when it exists and its actor may manage roles at what it is granted for and holds all of it there |
| `Authority.GrantGives` | packages/shared/src/permissions.ts:236-259 | and then who it is granted to may do all of it wherever the grant reaches |
| `Authority.SavingAddsNothing` | packages/shared/src/permissions.ts:559-576 | what a saved role holds, its maker holds everywhere |
| `Authority.RolesAreAsSaved` | packages/shared/src/permissions.ts:559-576 | after any run a role holds what it was last saved with, never a permission no custom role may hold, nor, unless it is for the MSP only, one outside the customers' own; or it is as at the start |
| `Authority.MayBeSavedIff` | packages/shared/src/permissions.ts:559-576 | a role may be saved exactly with such permissions that its maker holds for the whole installation |
| `Authority.ThirdLevelGrows` | packages/shared/src/permissions.ts:473-485 | with a third level of tenants a grant reaches below what its grantor reached |
| `Authority.MayIffAssigned` | packages/shared/src/permissions.ts:236-259 | an account may do what a role assigned to it holds, wherever that assignment reaches |
| `Permissions.WithSubTenantGrants` | packages/shared/src/permissions.ts:473-485 | the grants followed by what they pass on |
| `Permissions.PassedFrom` | packages/shared/src/permissions.ts:473-485 | what is passed on is each tenant grant on a main tenant for each of its sub-tenants, and nothing else |
| `Permissions.CustomRoleProblems` | packages/shared/src/permissions.ts:559-576 | one problem for each permission, in order, by the first of the four tests it fails |
| `Permissions.Problems` | packages/shared/src/permissions.ts:559-576 | there is none exactly when no permission has one |
| `Permissions.BeyondGrantor` | packages/shared/src/permissions.ts:586-592 | exactly the permissions the grantor does not hold at the target |
| `Permissions.PermissionAreas` | packages/shared/src/permissions.ts:522-533 | for each resource of the permissions custom roles may have: its read and all its changes |
| `Permissions.WithReadsFor` | packages/shared/src/permissions.ts:536-542 | exactly the permissions asked for and the reads of the resources they change, of those in the catalogue |
| `Permissions.ChangingIncludesSeeing` | packages/shared/src/permissions.ts:536-542 | whoever may change something may then see it, where a permission to see it exists, and nothing else is added |
| `Base32.RoundTrip` | packages/crypto/src/totp.ts:43-79 | any bytes come back from their letters, and from the letters as shown in groups, although the 32-bit word is never masked |
| `Base32.ToBase32` | packages/crypto/src/totp.ts:43-58 | the letters' bits are the bytes' bits filled up with zeros to a whole letter (section 6 of RFC 4648) |
| `Base32.FromBase32` | packages/crypto/src/totp.ts:60-79 | the bytes whose bits the cleaned letters start with, or the first character that is no letter |
| `Base32.EncodingIsUnique` | packages/crypto/src/totp.ts:43-58 | that determines the letters |
| `Base32.DecodingIsUnique` | packages/crypto/src/totp.ts:60-79 | and the bytes |
| `Base32.BitsShiftedIn` | packages/crypto/src/totp.ts:49-49 | shifting into the word appends bits while those that are meant fit in it |
| `Base32.LetterTaken` | packages/crypto/src/totp.ts:51-56 | each letter takes the five highest bits still waiting |
| `Base32.CleanUndoesDisplay` | packages/crypto/src/totp.ts:63-63 | cleaning what is shown gives the letters |
| `Base32.DisplayInFours` | packages/crypto/src/totp.ts:186-190 | a secret is shown in groups of four letters, one space between each two and none at either end |
| `Base32.EncodedExample` | packages/crypto/src/totp.ts:43-58 | an example of section 10 of RFC 4648 |
| `OneTimeCodes.VerifyTotp` | packages/crypto/src/totp.ts:126-155 | accepted exactly when a step of the window has the code, at the latest such step and its counter; a token that is not as many digits is refused, and a window reaching before the first counter is an error |
| `OneTimeCodes.GeneratedCodeIsAccepted` | packages/crypto/src/totp.ts:84-155 | the code of any step is accepted at every time whose window the step is in |
| `OneTimeCodes.CodeIsLowestDigits` | packages/crypto/src/totp.ts:84-101 | a code is exactly the lowest decimal digits of the truncated hash (section 5.3 of RFC 4226), zeros included |
| `OneTimeCodes.TruncatedIs` | packages/crypto/src/totp.ts:84-101 | the four bytes at the place the last byte's lowest half gives, as one number without its highest bit |
| `OneTimeCodes.TruncatedExample` | packages/crypto/src/totp.ts:84-101 | the example of section 5.4 of RFC 4226, to its code 872921 |
| `Passwords.GeneratePassword` | packages/shared/src/autoconfig.ts:660-685 | a shuffle, by choices drawn in order, of characters picked in order one of each class first; acceptable exactly when 12 to 128 were asked for; no character looks like another |
| `Passwords.Below` | packages/shared/src/autoconfig.ts:663-670 | the first word below the limit decides, as its remainder |
| `Passwords.EachResultEquallyOften` | packages/shared/src/autoconfig.ts:664-668 | of the accepted 32-bit words the same number give each result |
| `Passwords.LimitInUpperHalf` | packages/shared/src/autoconfig.ts:664-664 | at least half of the words are accepted |
| `Passwords.Shuffle` | packages/shared/src/autoconfig.ts:680-683 | the swaps in place give the shuffle by choices drawn from the last position down |
| `Passwords.ShuffleIsOneToOne` | packages/shared/src/autoconfig.ts:680-683 | different choices give different orders |
| `Passwords.ShuffleIsOnto` | packages/shared/src/autoconfig.ts:680-683 | every order is given by some choices |
| `Passwords.ShuffledKeepsAll` | packages/shared/src/autoconfig.ts:680-683 | a shuffle keeps the multiset |
| `Passwords.ShuffleMovesPositions` | packages/shared/src/autoconfig.ts:680-683 | the choices alone decide where each character comes from |
| `Passwords.FourClasses` | packages/shared/src/autoconfig.ts:672-678 | one character of each class, in any order, passes the check when the length does |
| `Passwords.GoodIff` | packages/shared/src/autoconfig.ts:640-645 | a password will do exactly with twelve to 128 characters and at most one of the four kinds of character missing |
| `Passwords.OthersFromAll` | packages/shared/src/autoconfig.ts:660-674 | after the first four, each character may be any of the four alphabets' |
| `Passwords.AlphabetsHold` | packages/shared/src/autoconfig.ts:648-657 | no alphabet has a character that looks like another |
| `Passwords.DrawnIsDetermined` | packages/shared/src/autoconfig.ts:663-670 | the words decide every draw |
| `Passwords.PickEach` | packages/shared/src/autoconfig.ts:671-678 | each character is picked from its own alphabet by the next draw |
| `JobEvents.LogIsComplete` | packages/db/src/job-events.ts:48-86 | after any interleaving of any number of transactions, statement by statement, the committed events are numbered 1 to the counter in order, and are exactly the answers of the transactions that committed, one each |
| `JobEvents.LogFollowsTable` | packages/shared/src/jobs.ts:86-124 | the statuses in the log follow the table from the job's first, end where the job stands, and never leave a final one |
| `JobEvents.ChangesAreWritten` | packages/db/src/job-events.ts:48-86 | over any run and for any changes: the row is the first one with the committed transactions' changes made in the order of the log, one count each, and every event has the message its transaction began with and the status its change gave, allowed by the row before it |
| `JobEvents.MovesAreLogged` | packages/shared/src/jobs.ts:117-124 | a committed move is an event with the status it moved to, from the one it was to move from |
| `JobEvents.AloneItCommits` | packages/db/src/job-events.ts:54-84 | a transaction with nobody in its way is lost if its guard fails and else commits its answer |
| `JobEvents.CatchingUp` | packages/db/src/job-events.ts:8-14 | who has the log up to k, read at any point, and asks later for what comes after k has exactly the whole log |
| `JobEvents.ActKeeps` | packages/db/src/job-events.ts:54-84 | every statement of every transaction keeps the invariant, the row lock included |
| `JobEvents.UncommittedLeavesNoTrace` | packages/db/src/job-events.ts:54-84 | over any run: a transaction that lost its guard, was rolled back or is still going has changed nothing; the row, the events and all other transactions are as the others alone would have made them |
| `JobEvents.Move` | packages/shared/src/jobs.ts:117-124 | a move asserted against the table and guarded by the status it starts from is lawful and sets the status asked for; it is refused exactly when the table does not have it |
| `JobEvents.ActiveOrFinal` | packages/shared/src/jobs.ts:35-61 | a status is active or final; final ones alone have no way out, active ones can all fail and be cancelled |
| `Rolling.PlanRollingGroups` | packages/shared/src/rolling.ts:34-56 | refused for no nodes, or for quorum, exactly then; else the nodes once each, in groups of one size but the last, never more than asked for at once; one at a time with a single voter |
| `Rolling.DeduplicatedInOrder` | packages/shared/src/rolling.ts:40-40 | the nodes are in the order in which they are first named |
| `Rolling.QuorumThroughout` | packages/shared/src/rolling.ts:8-14 | while any group is worked on, with whichever of its nodes down besides those down already, a majority of the voters is up |
| `Rolling.OneMoreBreaksQuorum` | packages/shared/src/updates.ts:220-227 | a group kept smaller than asked for could not be one node larger |
| `Rolling.RefusedIffNoneMayGoDown` | packages/shared/src/rolling.ts:42-51 | refused for quorum exactly when taking any one node down would lose it |
| `Rolling.MaxUnavailableIs` | packages/shared/src/updates.ts:220-227 | so many voters may be down, and no more, that a majority of all is up; a single one always may |
| `Repositories.SwitchedOver` | packages/proxmox/src/repositories.ts:57-105 | with no repository mixing both kinds: nothing of the enterprise is left on, each product that had it has its no-subscription repository on, all else is untouched, and planning again changes nothing |
| `Repositories.NoneLeftIff` | packages/proxmox/src/repositories.ts:57-105 | no enterprise repository is left on exactly when none that the plan turns on has an enterprise URI as well |
| `Repositories.NothingMoreIff` | packages/proxmox/src/repositories.ts:57-105 | planning again changes nothing in exactly those cases |
| `Repositories.ReplacedIff` | packages/proxmox/src/repositories.ts:90-103 | a product is provided for exactly when its repository was missing or one for it is turned or left on |
| `Repositories.MixedLosesBoth` | packages/proxmox/src/repositories.ts:73-99 | an enabled repository of both kinds leaves its product with neither |
| `Repositories.MixedIsTurnedOn` | packages/proxmox/src/repositories.ts:73-99 | a disabled repository of both kinds, with an enterprise one on beside it, is turned on, enterprise URI and all, and planning again finds more to change |
| `Repositories.PlanNoSubscription` | packages/proxmox/src/repositories.ts:57-105 | the nested loops give the toggles and additions the lemmas are about; nothing with an active subscription |
| `Repositories.SubscribedIsLeftAlone` | packages/proxmox/src/repositories.ts:57-62 | a node with an active subscription keeps every repository as it is |
| `Repositories.CephChannelOf` | packages/proxmox/src/repositories.ts:112-125 | enterprise when any enabled Ceph repository is on that host, else no-subscription when any is that |
| `Repositories.CephIsSwitchedOver` | packages/proxmox/src/repositories.ts:107-125 | a node whose Ceph was on enterprise then reads as no-subscription |
| `Repositories.HandlesAreDistinct` | packages/proxmox/src/repositories.ts:31-33 | no two products share a handle |
| `SecretStore.ReadableThroughout` | packages/crypto/src/secret-store.ts:97-121 | at every point of a rewrap each secret gives what it gave, under the new key if its row is done and the old one if not, with payload and context untouched; a row that is done no longer opens with an old key that differs |
| `SecretStore.DatabaseSecretStore.Rewrap` | packages/crypto/src/secret-store.ts:105-121 | stops at the first row that cannot be unwrapped, with exactly the rows before it rewrapped |
| `SecretStore.RewrapGoesThrough` | packages/crypto/src/secret-store.ts:105-121 | a row that can be read does not stop it, for a key of the right length |
| `SecretStore.RewrapIsNotRepeated` | packages/crypto/src/secret-store.ts:105-121 | a rewrap that got any row done cannot be run again from the same store: to any key it fails at the first row and changes nothing |
| `SecretStore.DatabaseSecretStore.Put` | packages/crypto/src/secret-store.ts:81-85 | a new reference under which the material is read back, all other rows untouched; refused for a key of the wrong length only |
| `SecretStore.DatabaseSecretStore.Get` | packages/crypto/src/secret-store.ts:87-91 | what the stored row decrypts to, or why not |
| `SecretStore.DatabaseSecretStore.Delete` | packages/crypto/src/secret-store.ts:93-95 | that reference is unknown, every other reads as before |
| `SecretStore.OpensIff` | packages/crypto/src/envelope.ts:125-175 | what was encrypted opens with the same key and context and no other, an empty context counting as none |
| `SecretStore.DecryptsIffEncrypted` | packages/crypto/src/envelope.ts:125-175 | what decrypts to a text is exactly what encrypting that text gives under some data key |
| `SecretStore.RewrapKeepsMeaning` | packages/crypto/src/envelope.ts:182-207 | to any key version: rewrapping leaves the payload and what decrypting gives, good or bad, and records the new version |
| `SecretStore.ReadableCanBeRewrapped` | packages/crypto/src/envelope.ts:182-207 | what can be read can be rewrapped |
| `SecretStore.SecretRepository.Insert` | packages/crypto/src/secret-store.ts:129-133 | a reference not used before, last in order |
| `SecretStore.SecretRepository.UpdateWrapping` | packages/crypto/src/secret-store.ts:147-153 | only the wrapping and key version of that row change |
| `SecretStore.SecretRepository.DeleteById` | packages/crypto/src/secret-store.ts:139-141 | that row alone goes |
| `UpgradeChecklist.ParsePve8to9` | packages/shared/src/pve8to9.ts:55-115 | one entry per finding or line that cannot be placed, with level, section, text, the lines beneath and all of it verbatim; the summary as last printed |
| `UpgradeChecklist.NoLineIsLost` | packages/shared/src/pve8to9.ts:60-100 | the `raw` texts together are all lines that are not blank, header, progress, trailer or total, in order |
| `UpgradeChecklist.OpenIff` | packages/shared/src/pve8to9.ts:62-98 | a finding is open exactly when one stands above with no header, total or progress line since; blanks and trailers do not close it |
| `UpgradeChecklist.SectionIsLastHeader` | packages/shared/src/pve8to9.ts:64-69 | an entry's section is the nearest header above its first line |
| `UpgradeChecklist.UnplacedLineStopsUpgrade` | packages/shared/src/pve8to9.ts:93-100 | a line with no open finding above is an entry of its own and always classifies as unknown |
| `UpgradeChecklist.FindingIsShown` | packages/shared/src/pve8to9.ts:81-92 | every finding is an entry; one that is a warning, failure or notice classifies to something with its text, and a failure or warning no rule knows to a blocker or a warning |
| `UpgradeChecklist.ClassifyPve8to9` | packages/shared/src/pve8to9.ts:249-279 | unknown lines are unknown; the first rule that fits decides, passing what passes, remedying only warnings and blockers and reading its facts; else the level does |
| `UpgradeChecklist.NothingIffHarmless` | packages/shared/src/pve8to9.ts:249-279 | an entry is no check exactly when it passes or informs and fits no rule |
| `UpgradeChecklist.SeverityByLevel` | packages/shared/src/pve8to9.ts:238-279 | unless a rule says otherwise a failure is a blocker and a warning a warning; what passes always passes; only warnings and blockers have a remedy |
| `UpgradeChecklist.UnknownFindingKeepsLevel` | packages/shared/src/pve8to9.ts:266-279 | so is a failure or warning that no rule knows |
| `UpgradeChecklist.ReadingIs` | packages/shared/src/pve8to9.ts:60-82 | each line is what the patterns, in their order, say under the last header above |
| `UpgradeChecklist.KindOfIs` | packages/shared/src/pve8to9.ts:60-92 | kind by kind, a line is one exactly when that pattern fits and none that comes before it, a total only in the summary |
| `UpgradeChecklist.SummarySays` | packages/shared/src/pve8to9.ts:70-115 | there is a summary exactly when a total in all is given; each count is the last one given for its name, none where none is |
| `LibraryCapacity.WithinIffEachFits` | packages/db/src/library.ts:60-72 | over any interleaving of checks, writes, receiving, finishing and failing, the limits hold throughout exactly when there is room for each write at the moment it is made |
| `LibraryCapacity.SerialNeverOverfills` | packages/shared/src/library.ts:504-529 | they do when nobody writes between a check and its write, whatever else happens there |
| `LibraryCapacity.AtomicNeverOverfills` | apps/api/src/modules/library/library.service.ts:321-331 | so reserved bytes fit the ceiling and the disk keeps its floor when a check and its write are one step |
| `LibraryCapacity.RaceOverfills` | apps/api/src/modules/library/library.service.ts:321-331 | two uploads with room for each but not both, checked before either is written, end beyond the limits |
| `LibraryCapacity.TwoUploadsOfTen` | apps/api/src/modules/library/library.service.ts:321-331 | two of 10 under a ceiling of 10 reserve 20 |
| `LibraryCapacity.WriteKeepsLimitsIff` | apps/worker/src/library/playbooks.ts:312-318 | a write keeps the limits exactly when its check, with the item itself left out, would pass as it is made |
| `LibraryCapacity.PassesIffRoom` | packages/shared/src/library.ts:504-529 | within the limits the check passes exactly when so much more fits under the ceiling and above the floor |
| `LibraryCapacity.RefusalSays` | packages/shared/src/library.ts:504-529 | the library is said to be full exactly when the ceiling would be passed, and the disk low exactly when only its floor would |
| `LibraryCapacity.OthersKeepRoom` | packages/db/src/library.ts:63-72 | no step but a write takes room |
| `LibraryCapacity.TransferCanFinish` | apps/worker/src/library/playbooks.ts:290-340 | a transfer of known size can go on to its last byte and is ready then |
| `LibraryCapacity.ReadLibraryCapacity` | packages/db/src/library.ts:74-109 | the sums over what has not failed, one item left out, and the free space less what is yet to come, never negative |
| `LibraryCapacity.UsedIsAccountedFor` | packages/db/src/library.ts:85-101 | over any run what is used is the bytes kept on the disk and those yet to come, and with what is free the kept bytes never exceed what there was |

## Left out

- PlanBalance: shares of memory are reals, so rounding of the percentages is not modelled; runs of it take guests as named once each.
- PlanCorrections: says which guest and rule an unresolved entry is about and why, not the sentence it is put in.
- Violations: the sentence in `message` is not modelled, all else is.
- RoomyApartIsMet: is about one enabled rule; with several, and with little room, the greedy planner may miss a solution that exists, and no condition is given for when it does.
- Openings: starts from a parsed rule; the text of a rule is not parsed here, only what the parser guarantees of its result is used, and the walk is over days numbered by the proleptic Gregorian calendar without the two-digit years that `Date.UTC` moves.
- ConversionIsRightIff: is about at most one clock change within the offsets' reach of the time; more than one in a day is not modelled.
- RedactText: the pattern for credentials in URLs is a function of which nothing is known, applied first.
- RedactValue: the patterns for secret keys are a function; objects are a finite heap without getters, and numbers and dates are not read as text.
- Walk: strings are sequences of characters, so halves of surrogate pairs are not told apart.
- ScopedQueryIsIsolated: for models filtered by their own tenant column; filters through relations, models whose filter shows rows without a tenant, nested writes other than connecting or disconnecting the tenant, and operations outside the two lists are not modelled.
- NeverGrowsIffClosed: the tenant tree, each site's tenant and the catalogue are fixed during a run; expiry of assignments and deletion are covered by `Revoke`; the checks on names, on who is in the MSP organisation and on families of tenants refuse more than the model does, so the runs here include those of the program.
- FromBase32: upper-casing is a function that leaves capitals, digits and spaces alone.
- GeneratePassword: the random words are a given endless sequence, with one in the lower half always still to come; lengths stay below 2^32 as arrays do.
- Hotp: the keyed hash is a function of the counter, of which only the length is known; nothing is said about timing.
- LogIsComplete: is about one job; jobs do not share rows. The database's row lock is modelled as: first writer holds it to its end, others wait, and a guard is read from what is committed.
- SecretStore: the cipher is symbolic, and initialisation vectors, zeroing of buffers and the wording of references are not modelled.
- UpgradeChecklist: the patterns are functions tried in the code's order; colours, line ends and white space at line ends are removed before; keys made from text are any function of level and text.
- WithinIffEachFits: transfers whose size is never learned are not received in the model; other users of the disk are not modelled.
- Repositories: URIs come classified by host and product, and Proxmox is taken to add a standard repository as one entry in a file of its own.
- Comparing kernel versions (packages/shared/src/updates.ts): on parts that mix digits and letters the comparison is not transitive, and it decides no more here than whether a reboot is due.
- The web interface, the HTTP and queue wiring, calls to Proxmox, configuration schemas and error texts.
