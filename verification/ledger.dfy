/** The data model of the challenge ledger: members, the six-problem daily
    challenges they submit, and the two collections the tracker keeps.
    Identifiers are plain integers (the tracker mints them from the clock)
    and calendar dates are abstract day numbers. */
module Ledger {
  import Seqs

  /** Every challenge bundles exactly this many problems. */
  const ProblemsPerChallenge: nat := 6
  /** Units a member pays when one of their challenges is marked failed. */
  const PenaltyUnit: nat := 100
  /** Units every other member receives when a challenge is marked failed. */
  const RewardUnit: nat := 50

  datatype Option<T> = None | Some(value: T)

  datatype Difficulty = Easy | Medium | Hard

  datatype Problem = Problem(title: string, link: string, difficulty: Difficulty, solved: bool)

  datatype Status = Pending | Completed | Failed

  datatype Member = Member(
    id: int,
    name: string,
    totalPaid: nat,
    totalEarned: nat,
    streak: nat,
    maxStreak: nat,
    totalSubmissions: nat)

  /** `memberName` is the owner's name copied at submission time; it is
      absent when the selected owner could not be found. The two terminal
      dates are absent until the matching transition sets them. */
  datatype Challenge = Challenge(
    id: int,
    memberId: int,
    memberName: Option<string>,
    problems: seq<Problem>,
    submittedDate: int,
    dueDate: int,
    status: Status,
    solutionsSubmitted: bool,
    completedDate: Option<int>,
    failedDate: Option<int>)

  /** The two collections the tracker holds and persists together. */
  datatype State = State(members: seq<Member>, challenges: seq<Challenge>)

  /** Why an operation left the state as it was. */
  datatype Error =
    | EmptyName       // the member name is blank
    | EmptyTitle      // the problem title is blank
    | ListFull        // the draft already holds six problems
    | NotReady        // no member selected, or the draft does not hold six problems
    | NotFound        // the referenced member or challenge does not exist
    | Declined        // the caller did not confirm a cascading removal
    | NotAllSolved    // some problem of the challenge is still unsolved

  datatype Result<T> = Ok(value: T) | Err(error: Error)

  /** A member as the tracker creates it: every counter at zero. */
  predicate Zeroed(m: Member) {
    m.totalPaid == 0 && m.totalEarned == 0 && m.streak == 0
    && m.maxStreak == 0 && m.totalSubmissions == 0
  }

  /** `members.find(m => m.id === id)`: the first member with the id. */
  function FindMember(ms: seq<Member>, id: int): (r: Option<Member>)
    ensures r.None? <==> forall j | 0 <= j < |ms| :: ms[j].id != id
    ensures r.Some? ==> r.value in ms && r.value.id == id
    ensures r.Some? ==> exists k | 0 <= k < |ms| :: ms[k] == r.value && forall j | 0 <= j < k :: ms[j].id != id
  {
    var k := Seqs.FirstIndex(ms, (m: Member) => m.id == id);
    if k < |ms| then Some(ms[k]) else None
  }

  /** `challenges.find(c => c.id === id)`: the first challenge with the id. */
  function FindChallenge(cs: seq<Challenge>, id: int): (r: Option<Challenge>)
    ensures r.None? <==> forall j | 0 <= j < |cs| :: cs[j].id != id
    ensures r.Some? ==> r.value in cs && r.value.id == id
    ensures r.Some? ==> exists k | 0 <= k < |cs| :: cs[k] == r.value && forall j | 0 <= j < k :: cs[j].id != id
  {
    var k := Seqs.FirstIndex(cs, (c: Challenge) => c.id == id);
    if k < |cs| then Some(cs[k]) else None
  }

  predicate HasMember(ms: seq<Member>, id: int) {
    exists j | 0 <= j < |ms| :: ms[j].id == id
  }

  predicate HasChallenge(cs: seq<Challenge>, id: int) {
    exists j | 0 <= j < |cs| :: cs[j].id == id
  }

  /** Number of challenges owned by member `id`. */
  function OwnedCount(cs: seq<Challenge>, id: int): nat {
    Seqs.Count(cs, (c: Challenge) => c.memberId == id)
  }

  /** Every problem of the list is marked solved (`problems.every(p => p.solved)`). */
  predicate AllSolved(ps: seq<Problem>) {
    forall i | 0 <= i < |ps| :: ps[i].solved
  }

  /** No two members share an id. */
  predicate MemberIdsUnique(ms: seq<Member>) {
    Seqs.DistinctKeys(ms, (m: Member) => m.id)
  }

  /** No two challenges share an id. */
  predicate ChallengeIdsUnique(cs: seq<Challenge>) {
    Seqs.DistinctKeys(cs, (c: Challenge) => c.id)
  }
}
