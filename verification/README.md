# Challenge ledger of the DSA accountability tracker, in Dafny

The tracker is a small single-page app. A group of members each submit a
daily challenge of six coding problems. The member ticks the problems off and
then resolves the challenge: it is completed when every problem is solved,
or it is marked failed. A failure costs its owner 100 and pays 50 to every
other member. Completions build a streak; a failure resets it and keeps the
historical maximum. The state is two collections: the member registry and the
challenge ledger. They are stored as JSON under two storage keys.

This project models that state machine as pure functions over immutable
datatypes and proves its contracts:

- `seqs.dfy` (`Seqs`): the array primitives the app leans on: `filter`,
  `map`, counting with a test, and the first-match index behind `find`.
- `ledger.dfy` (`Ledger`): members, problems, challenges, the state, the error
  outcomes, and the first-match lookups behind `find`.
- `text.dfy` (`Text`): ECMAScript `trim` over the full WhiteSpace and
  LineTerminator sets.
- `registry.dfy` (`Registry`): the default members, start-up loading, and
  adding and removing members. Removal cascades to the member's challenges.
- `draft.dfy` (`Draft`): the six-slot draft list of problems.
- `lifecycle.dfy` (`Lifecycle`): these operations:
  - creating a challenge from a full draft
  - toggling a problem
  - submitting solutions
  - marking a challenge failed
- `views.dfy` (`Views`): these views:
  - a member's history filtered by status
  - pending challenges and their progress
  - the dashboard's stable ranking by streak
- `invariants.dfy` (`Invariants`): the whole-state invariant that every
  admissible action keeps:
  - ids are unique
  - `streak <= maxStreak`
  - `totalSubmissions` equals the number of challenges the member owns
  - every challenge holds six problems, is due a day after submission, and
    has terminal fields matching its status

  The same module proves that counters never go down, and how a failure
  moves money.
- `scenario.dfy` (`Scenarios`): a concrete walkthrough. It covers blank and
  valid names, and one member completing one challenge then failing the next.

Most operations return `Result<State>`. `Err` stands for every path on which
the app shows an alert and returns, declines a confirmation, or throws before
changing anything. The state is then unchanged. Toggling a problem
(`Lifecycle.ToggleProblemSolved`) cannot be rejected, so it returns the
`State` itself. Its throwing path, reading `.solved` of a problem that does
not exist (app.js:246), is modelled as returning the state unchanged. A path on which the app
changes nothing but also does not fail is `Ok` with the same state: marking
a missing challenge failed with an empty registry is one.

Several inputs become parameters:

- the clock: `today` is an abstract day number
- the id source: `Date.now()` becomes `freshId`/`challengeId`
- the confirmation dialog: the `force` flag

Notes on the tracker's behaviour:

- A problem title is checked with `trim()` but stored as typed. Member names
  are stored trimmed.
- Toggling, submitting and failing do not check the challenge's status.
  The app only shows these controls on pending challenges (app.js:363). The
  invariant lemmas therefore require the target to be pending (`Admissible`),
  and the operations themselves do not.
- Creating a challenge does not check that the selected member exists.
  `memberName` is then missing (`Option`), and no counter changes.
- A corrupt challenge ledger resets the members to the defaults as well,
  because the error handler installs the default registry.

## Model

| member | source | states |
|---|---|---|
| Registry.DefaultMembers | app.js:59-63 | three members with ids 1 to 3, names "Member 1" to "Member 3", all counters zero, ids distinct |
| Registry.Load | app.js:51-79 | a stored registry is kept unless the ledger is corrupt; an absent or corrupt one gives the defaults; the ledger is kept when it parses and the registry is not corrupt, else it is empty; defaults are written back exactly when the registry key was absent |
| Registry.AddMember | app.js:90-112 | rejected exactly when the name is blank; otherwise the registry gains one member at the end with the fresh id, the trimmed non-empty name and zeroed counters, earlier members and the ledger unchanged |
| Registry.RemoveMember | app.js:114-131 | fails exactly when the member owns challenges and the removal is not confirmed (Declined) or the member is missing (NotFound); otherwise the remaining members are exactly those with another id, the remaining challenges exactly those of other owners, the ledger shrinks by the owned count, and the registry by one when ids are unique and the member exists |
| Registry.OneMatchRemoved | app.js:124 | filtering out an id that occurs once removes exactly one member |
| Registry.RemoveMemberKeepsOrder | app.js:124-125 | removal distributes over concatenation, so survivors keep their relative order in both collections |
| Text.TrimEmptyIff | app.js:91 | `trim()` is empty exactly when the input is all whitespace, so `!s.trim()` rejects exactly blank strings |
| Text.TrimIsInfix | app.js:98 | the trimmed name is a contiguous slice of the input with only whitespace cut on either side and no whitespace at its own ends |
| Seqs.FirstIndex | app.js:186 | the position returned is that of the first element passing the test, and the length of the sequence when none does |
| Ledger.FindMember | app.js:115 | finds a member exactly when one carries the id, and what it returns is the first member with that id |
| Ledger.FindChallenge | app.js:220 | finds a challenge exactly when one carries the id, and what it returns is the first challenge with that id |
| Draft.AddProblemToList | app.js:167-179 | rejected exactly when the title is blank (checked first) or the draft already has six problems; otherwise the problem is appended unsolved with its title, link and difficulty, the draft stays at most six long |
| Draft.RemoveProblem | app.js:181-183 | an in-range index removes exactly that entry and keeps the rest in order; any other index leaves the draft unchanged |
| Draft.EditKeepsDraftValid | app.js:167-183 | one add or remove keeps the draft at most six long with no problem solved |
| Draft.EditsKeepDraftValid | app.js:172-177 | any sequence of edits from a valid (for example empty) draft keeps it at most six long with every problem unsolved |
| Lifecycle.AddProblems | app.js:133-165 | rejected exactly when no member is selected or the draft does not hold six problems; otherwise one pending, unsubmitted challenge is appended (earlier ones unchanged) with the draft's problems, due the day after submission, named after the owner exactly when the owner exists; members with the owner's id count one more submission, others are unchanged |
| Lifecycle.ToggleAt | app.js:245-246 | exactly one solved flag is inverted; every other problem and every other field stays |
| Lifecycle.ToggleProblemSolved | app.js:242-253 | members unchanged; in every challenge with the id exactly the flag at the index is inverted and every other challenge is unchanged; when some challenge with the id has no problem at the index, reading it throws and the state is unchanged |
| Lifecycle.ToggleTwiceRestores | app.js:242-253 | toggling the same problem twice gives back the original state, for every index |
| Lifecycle.ExtendStreak | app.js:201-209 | the streak grows by one, the maximum becomes the larger of the old maximum and the new streak, nothing else changes |
| Lifecycle.SubmitSolutions | app.js:185-217 | fails exactly when the challenge is missing (NotFound) or the first one found has an unsolved problem (NotAllSolved); otherwise every challenge with the id is completed today with solutions submitted, owners extend their streak and every other member is unchanged |
| Lifecycle.MarkAsFailed | app.js:219-240 | fails exactly when the challenge is missing and some member's update reads its owner (the registry is not empty); a missing challenge with an empty registry changes nothing; otherwise every challenge with the id is failed today, owners pay 100 and lose their streak, every other member earns 50, nothing else changes |
| Views.MemberChallenges | app.js:255-260 | the result holds exactly the member's challenges, restricted to the asked status unless all are asked for, and is as long as the number of selected ledger entries |
| Views.MemberChallengesKeepOrder | app.js:256-259 | the history of a ledger split in two is the history of the first part followed by that of the second, so ledger order and repeats are kept |
| Views.MemberChallengesAppend | app.js:256-259 | a challenge added at the end of the ledger joins the end of the history exactly when the filter selects it |
| Views.StatusCountsAddUp | app.js:256-259 | every challenge of a member has exactly one of the three statuses, so the per-status counts sum to the member's count |
| Views.HistoryPartition | app.js:255-260 | a member's full history is exactly as long as its pending, completed and failed parts together |
| Views.PendingChallenges | app.js:356-363 | the dashboard lists exactly the pending challenges, as many as the ledger holds |
| Views.PendingKeepsOrder | app.js:363 | the pending list of a ledger split in two is the pending list of the first part followed by that of the second, so ledger order is kept |
| Views.NewChallengeListedLast | app.js:158 | a newly created challenge appears last in the pending list, after the ones already listed |
| Views.SolvedCount | app.js:364 | the progress count is at most the number of problems, equals it exactly when every problem is solved, and is zero exactly when none is |
| Views.ToggleMovesProgressByOne | app.js:242-253 | a toggle moves the progress count up by one for an unsolved problem and down by one for a solved one |
| Views.SubmitNeedsFullProgress | app.js:186-192 | submission goes through exactly when the challenge found shows full progress |
| Views.InsertByStreak | app.js:264 | inserting keeps the same members plus the new one and keeps the descending streak order |
| Views.RankByStreak | app.js:264 | the ranking is a permutation of the registry ordered by descending streak |
| Views.InsertKeepsTies | app.js:264 | an inserted member lands ahead of every member with the same streak |
| Views.RankIsStable | app.js:264 | members with equal streaks keep their registry order in the ranking, as the stable `sort` leaves them |
| Invariants.FirstRunConsistent | app.js:56-66 | a first start with nothing stored gives the default registry with an empty ledger, and that state is consistent |
| Invariants.AddMemberConsistent | app.js:90-106 | adding a member with a fresh id keeps the state consistent |
| Invariants.RemoveMemberConsistent | app.js:114-129 | removing a member, with its challenges, keeps the state consistent |
| Invariants.AddProblemsConsistent | app.js:133-161 | creating a challenge with a fresh id keeps ids unique and keeps each member's submission count equal to the challenges it owns |
| Invariants.AddedChallengeConsistent | app.js:133-161 | a consistent state with one well-formed challenge of a new id appended and one more submission for each member with the owner's id is consistent |
| Invariants.ToggleConsistent | app.js:242-252 | toggling a problem of a pending challenge keeps the state consistent |
| Invariants.SubmitConsistent | app.js:185-215 | completing a pending challenge keeps the state consistent, and the streak stays at most the maximum |
| Invariants.CompletionConsistent | app.js:185-215 | completing every fully solved pending challenge with the id and extending the owner's streak keeps ids unique, streaks within their maximum and submission counts equal to owned challenges |
| Invariants.FailConsistent | app.js:219-239 | failing a pending challenge keeps the state consistent, and the streak stays at most the maximum |
| Invariants.StepConsistent | app.js:90-253 | every admissible user action keeps the state consistent |
| Invariants.RunConsistent | app.js:90-253 | every admissible sequence of actions from a consistent state ends in a consistent state |
| Invariants.PointwiseGrowth | app.js:151-156 | a position-preserving update that grows every counter keeps every member's counters |
| Invariants.AddMemberKeepsCounters | app.js:106 | adding a member lowers nobody's paid, earned or submission counters |
| Invariants.RemoveMemberKeepsCounters | app.js:124 | the members who stay after a removal keep their counters |
| Invariants.StepNeverLowersCounters | app.js:90-253 | no admissible action lowers any member's paid, earned or submission counter |
| Invariants.SameOwners | app.js:243-250 | updates that keep every challenge's owner keep every member's owned count |
| Invariants.UniqueIdCountsOnce | app.js:223 | in a registry of distinct ids the failure's owner matches exactly one member |
| Invariants.FailureTotals | app.js:222-228 | summed over the registry, a failure adds 100 per owner entry to the paid total and 50 per other entry to the earned total |
| Invariants.MarkAsFailedRedistributes | app.js:222-228 | with n members and a registered owner, the paid total rises by 100 and the earned total by 50 times (n - 1); with an unregistered owner nobody pays and all n members earn |
| Invariants.FailureBalancesOnlyForThree | app.js:222-228 | a failure changes the team's summed net balance by 50 times (n - 1) minus 100, so it is money-neutral exactly when there are three members |
| Scenarios.BlankNamesRejected | app.js:91-94 | an empty or all-space member name is rejected |
| Scenarios.NamedMemberAdded | app.js:96-106 | for any registry, "Dana" is appended after the existing members with the fresh id and zeroed counters, the ledger untouched |
| Scenarios.TickFirst | app.js:242-253 | ticking the first n (at most six) problems of a six-problem challenge one by one inverts exactly those flags and touches nothing else |
| Scenarios.TickAll | app.js:242-253 | ticking all six unsolved problems of the only challenge solves every one of them and changes nothing else |
| Scenarios.SubmitSixStep | app.js:133-161 | in a three-member registry, submitting six problems for the first member appends its pending challenge and counts its submission |
| Scenarios.SolveStep | app.js:185-215 | in a three-member registry, resolving the first member's fully solved challenge completes it and extends only that member's streak |
| Scenarios.FailStep | app.js:219-239 | in a three-member registry, failing the first member's challenge charges it 100, resets its streak and pays 50 to each of the other two |
| Scenarios.FirstDayCompletes | app.js:133-217 | from an empty ledger and a three-member registry, submitting, ticking all six and submitting the solutions completes the challenge and moves only member 1's submission count and streak |
| Scenarios.FirstChallengeScenario | app.js:133-217 | the first day's operations from the first start leave member 1 with streak 1, maximum 1 and one submission, the others untouched, and the challenge completed |
| Scenarios.SecondDay | app.js:133-240 | the second day's operations (submit, then mark failed) leave member 1 with paid 100, streak 0, maximum still 1 and two submissions, members 2 and 3 with 50 earned each |
| Scenarios.SecondChallengeScenario | app.js:133-240 | both days' operations in a row from the first start end with the first challenge completed, the second failed, and those balances |

## Left out

- Rendering, tabs, expanded cards, icons and styling: presentation only.
- Storage I/O and JSON: `saveData` is not modelled. Its failures are only logged. `Load` takes the outcome of reading each key as a parameter (absent, unparsable, parsed).
- Registry.Load: does not tell a failing storage read apart from a parse failure. A failing read of the ledger key happens before the registry is parsed. It therefore behaves like an unparsable registry, and defaults are not written back.
- Parsed JSON of the wrong shape (missing fields, non-numeric counters) is not modelled. Stored collections are assumed to hold well-formed records.
- Dates are abstract day numbers. `new Date().toISOString()` and `Date.now() + 86400000` are not modelled: the due date is always the next day. Two clock reads on either side of midnight are not modelled either.
- Ids come from `Date.now()`. They are parameters. Their freshness is a hypothesis of the invariant lemmas (`Invariants.Admissible`), not something the app guarantees.
- `alert` and `confirm` are not modelled: alerts are outcomes (`Err`) and confirmation is the `force` flag.
- Removing a member who is absent and owns no challenges filters nothing. The app then throws when it alerts the missing name, after saving. The model returns the unchanged state as `Ok`.
- Lifecycle.AddProblems: `currentUser` is the selected option's value (the member id as a string, or empty for no choice). The model takes an optional integer id and leaves out `parseInt` of that string.
- Problem indices are natural numbers. A negative index, which the app never renders, is not modelled.
- Form resets after a submission (the draft cleared, the inputs emptied) and the history tab selection are UI state.
- The progress bar percentage (`solvedCount / 6 * 100`) is floating point. Only the solved count is modelled.
