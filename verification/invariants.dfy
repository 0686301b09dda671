/** What stays true of the tracker's state however the operations are
    combined: unique ids, streaks never above their maximum, each member's
    submission counter equal to the number of challenges it owns, every
    challenge holding six problems, due a day after submission, with
    terminal fields that match its status. Counters never go down, and a
    failure moves exactly one penalty and one reward per other member. */
module Invariants {
  import opened Ledger
  import Seqs
  import Registry
  import Lifecycle

  /** The fields that only a terminal transition sets agree with the status;
      a completed challenge has all its problems solved. */
  predicate StatusConsistent(c: Challenge) {
    match c.status
    case Pending => !c.solutionsSubmitted && c.completedDate.None? && c.failedDate.None?
    case Completed =>
      c.solutionsSubmitted && c.completedDate.Some? && c.failedDate.None? && AllSolved(c.problems)
    case Failed => !c.solutionsSubmitted && c.failedDate.Some? && c.completedDate.None?
  }

  predicate ChallengeWf(c: Challenge) {
    |c.problems| == ProblemsPerChallenge && c.dueDate == c.submittedDate + 1 && StatusConsistent(c)
  }

  predicate Consistent(s: State) {
    && MemberIdsUnique(s.members)
    && ChallengeIdsUnique(s.challenges)
    && (forall i | 0 <= i < |s.members| :: s.members[i].streak <= s.members[i].maxStreak)
    && (forall i | 0 <= i < |s.members| ::
          s.members[i].totalSubmissions == OwnedCount(s.challenges, s.members[i].id))
    && (forall j | 0 <= j < |s.challenges| :: ChallengeWf(s.challenges[j]))
  }

  /** One user action on the tracker. */
  datatype Op =
    | AddMemberOp(name: string, freshId: int)
    | RemoveMemberOp(memberId: int, force: bool)
    | AddProblemsOp(currentUser: Option<int>, list: seq<Problem>, challengeId: int, today: int)
    | ToggleOp(challengeId: int, idx: nat)
    | SubmitOp(challengeId: int, today: int)
    | FailOp(challengeId: int, today: int)

  /** Every challenge carrying the id is still pending. */
  predicate PendingTarget(cs: seq<Challenge>, challengeId: int) {
    forall j | 0 <= j < |cs| && cs[j].id == challengeId :: cs[j].status == Pending
  }

  /** What the tracker's surroundings guarantee about an action: ids minted
      from the clock are new, and problems are toggled, solved or failed only
      on the pending challenges the dashboard lists. */
  predicate Admissible(s: State, op: Op) {
    match op
    case AddMemberOp(_, id) => !HasMember(s.members, id) && OwnedCount(s.challenges, id) == 0
    case RemoveMemberOp(_, _) => true
    case AddProblemsOp(_, _, cid, _) => !HasChallenge(s.challenges, cid)
    case ToggleOp(cid, _) => PendingTarget(s.challenges, cid)
    case SubmitOp(cid, _) => PendingTarget(s.challenges, cid)
    case FailOp(cid, _) => PendingTarget(s.challenges, cid)
  }

  /** The state after a rejected operation is the state before it. */
  function Settle(s: State, r: Result<State>): State {
    if r.Ok? then r.value else s
  }

  /** The state after one action. */
  function Step(s: State, op: Op): State {
    match op
    case AddMemberOp(name, id) => Settle(s, Registry.AddMember(s, name, id))
    case RemoveMemberOp(id, force) => Settle(s, Registry.RemoveMember(s, id, force))
    case AddProblemsOp(user, list, cid, today) => Settle(s, Lifecycle.AddProblems(s, user, list, cid, today))
    case ToggleOp(cid, idx) => Lifecycle.ToggleProblemSolved(s, cid, idx)
    case SubmitOp(cid, today) => Settle(s, Lifecycle.SubmitSolutions(s, cid, today))
    case FailOp(cid, today) => Settle(s, Lifecycle.MarkAsFailed(s, cid, today))
  }

  // ---------------------------------------------------------------------
  // The start-up state

  /** The default registry with an empty ledger is consistent, and it is
      what start-up produces when nothing has been stored. */
  lemma FirstRunConsistent()
    ensures Registry.Load(Registry.Absent, Registry.Absent).state == State(Registry.DefaultMembers(), [])
    ensures Consistent(State(Registry.DefaultMembers(), []))
  {
  }

  // ---------------------------------------------------------------------
  // Each operation keeps the state consistent

  lemma AddMemberConsistent(s: State, name: string, id: int)
    requires Consistent(s) && Admissible(s, AddMemberOp(name, id))
    ensures Consistent(Step(s, AddMemberOp(name, id)))
  {
    var r := Registry.AddMember(s, name, id);
    if r.Ok? {
      var t := r.value;
      assert t.members == s.members + [t.members[|s.members|]];
    }
  }

  lemma RemoveMemberConsistent(s: State, id: int, force: bool)
    requires Consistent(s)
    ensures Consistent(Step(s, RemoveMemberOp(id, force)))
  {
    var r := Registry.RemoveMember(s, id, force);
    if r.Ok? {
      var t := r.value;
      Seqs.FilterKeepsDistinct(s.members, (m: Member) => m.id != id, (m: Member) => m.id);
      Seqs.FilterKeepsDistinct(s.challenges, (c: Challenge) => c.memberId != id, (c: Challenge) => c.id);
      forall i | 0 <= i < |t.members|
        ensures t.members[i].streak <= t.members[i].maxStreak
        ensures t.members[i].totalSubmissions == OwnedCount(t.challenges, t.members[i].id)
      {
        var m := t.members[i];
        assert m in s.members && m.id != id;
        var k :| 0 <= k < |s.members| && s.members[k] == m;
        Seqs.CountAfterFilter(s.challenges, (c: Challenge) => c.memberId != id, (c: Challenge) => c.memberId == m.id);
      }
      forall j | 0 <= j < |t.challenges|
        ensures ChallengeWf(t.challenges[j])
      {
        assert t.challenges[j] in s.challenges;
      }
    }
  }

  /** A challenge with an id the ledger does not hold keeps ledger ids distinct. */
  lemma AppendFreshChallenge(cs: seq<Challenge>, c: Challenge)
    requires ChallengeIdsUnique(cs) && !HasChallenge(cs, c.id)
    ensures ChallengeIdsUnique(cs + [c])
  {
    var t := cs + [c];
    forall i, j | 0 <= i < j < |t|
      ensures t[i].id != t[j].id
    {
      assert t[i] == cs[i];
      if j < |cs| {
        assert t[j] == cs[j];
      }
    }
  }

  /** Appending a challenge for `uid` while counting one more submission for
      every member with that id keeps each counter equal to the owned count. */
  lemma OneMoreSubmission(ms: seq<Member>, ms': seq<Member>, cs: seq<Challenge>, c: Challenge)
    requires forall i | 0 <= i < |ms| :: ms[i].totalSubmissions == OwnedCount(cs, ms[i].id)
    requires |ms'| == |ms|
    requires forall i | 0 <= i < |ms| ::
      if ms[i].id == c.memberId then ms'[i] == ms[i].(totalSubmissions := ms[i].totalSubmissions + 1)
      else ms'[i] == ms[i]
    ensures forall i | 0 <= i < |ms'| :: ms'[i].totalSubmissions == OwnedCount(cs + [c], ms'[i].id)
  {
    forall i | 0 <= i < |ms'|
      ensures ms'[i].totalSubmissions == OwnedCount(cs + [c], ms'[i].id)
    {
      var x := ms'[i].id;
      assert x == ms[i].id;
      Seqs.CountConcat(cs, [c], (c: Challenge) => c.memberId == x);
    }
  }

  lemma AddProblemsConsistent(s: State, user: Option<int>, list: seq<Problem>, cid: int, today: int)
    requires Consistent(s) && Admissible(s, AddProblemsOp(user, list, cid, today))
    ensures Consistent(Step(s, AddProblemsOp(user, list, cid, today)))
  {
    var r := Lifecycle.AddProblems(s, user, list, cid, today);
    if r.Ok? {
      AddedChallengeConsistent(s, r.value, r.value.challenges[|s.challenges|]);
    }
  }

  /** The state `AddProblems` produces, stated through its contract: one
      fresh, well-formed pending challenge appended, one more submission for
      members with the owner's id, nothing else changed. */
  lemma AddedChallengeConsistent(s: State, t: State, c: Challenge)
    requires Consistent(s) && !HasChallenge(s.challenges, c.id) && ChallengeWf(c)
    requires t.challenges == s.challenges + [c]
    requires |t.members| == |s.members|
    requires forall i | 0 <= i < |s.members| ::
      if s.members[i].id == c.memberId then t.members[i] == s.members[i].(totalSubmissions := s.members[i].totalSubmissions + 1)
      else t.members[i] == s.members[i]
    ensures Consistent(t)
  {
    AppendFreshChallenge(s.challenges, c);
    OneMoreSubmission(s.members, t.members, s.challenges, c);
    assert MemberIdsUnique(t.members) by {
      assert forall i | 0 <= i < |t.members| :: t.members[i].id == s.members[i].id;
    }
    assert forall i | 0 <= i < |t.members| :: t.members[i].streak <= t.members[i].maxStreak by {
      assert forall i | 0 <= i < |t.members| ::
        (t.members[i].maxStreak == s.members[i].maxStreak && t.members[i].streak == s.members[i].streak);
    }
    assert forall j | 0 <= j < |t.challenges| :: ChallengeWf(t.challenges[j]) by {
      assert forall j | 0 <= j < |s.challenges| :: t.challenges[j] == s.challenges[j];
    }
  }

  /** Challenges whose owners match position by position are owned alike. */
  lemma SameOwners(a: seq<Challenge>, b: seq<Challenge>, x: int)
    requires |a| == |b| && forall j | 0 <= j < |a| :: a[j].memberId == b[j].memberId
    ensures OwnedCount(a, x) == OwnedCount(b, x)
  {
    Seqs.CountPointwise(a, b, (c: Challenge) => c.memberId == x, (c: Challenge) => c.memberId == x);
  }

  lemma ToggleConsistent(s: State, cid: int, idx: nat)
    requires Consistent(s) && Admissible(s, ToggleOp(cid, idx))
    ensures Consistent(Step(s, ToggleOp(cid, idx)))
  {
    var t := Lifecycle.ToggleProblemSolved(s, cid, idx);
    forall i | 0 <= i < |t.members|
      ensures t.members[i].totalSubmissions == OwnedCount(t.challenges, t.members[i].id)
    {
      SameOwners(s.challenges, t.challenges, t.members[i].id);
    }
  }

  lemma SubmitConsistent(s: State, cid: int, today: int)
    requires Consistent(s) && PendingTarget(s.challenges, cid)
    requires Lifecycle.SubmitSolutions(s, cid, today).Ok?
    ensures Consistent(Lifecycle.SubmitSolutions(s, cid, today).value)
  {
    var t := Lifecycle.SubmitSolutions(s, cid, today).value;
    var target := FindChallenge(s.challenges, cid).value;
    forall j | 0 <= j < |s.challenges| && s.challenges[j].id == cid
      ensures AllSolved(s.challenges[j].problems)
    {
      var k :| 0 <= k < |s.challenges| && s.challenges[k] == target;
      assert s.challenges[k].id == cid;
    }
    CompletionConsistent(s, t, cid, today, target.memberId);
  }

  /** The state `SubmitSolutions` produces, stated through its contract:
      every fully solved pending challenge with the id completed today, the
      owner's streak extended, nothing else changed. */
  lemma CompletionConsistent(s: State, t: State, cid: int, today: int, owner: int)
    requires Consistent(s) && PendingTarget(s.challenges, cid)
    requires forall j | 0 <= j < |s.challenges| && s.challenges[j].id == cid :: AllSolved(s.challenges[j].problems)
    requires |t.members| == |s.members|
    requires forall i | 0 <= i < |s.members| ::
      if s.members[i].id == owner then t.members[i] == Lifecycle.ExtendStreak(s.members[i])
      else t.members[i] == s.members[i]
    requires |t.challenges| == |s.challenges|
    requires forall j | 0 <= j < |s.challenges| ::
      if s.challenges[j].id == cid then
        t.challenges[j] == s.challenges[j].(status := Completed, solutionsSubmitted := true, completedDate := Some(today))
      else t.challenges[j] == s.challenges[j]
    ensures Consistent(t)
  {
    assert MemberIdsUnique(t.members) by {
      assert forall i | 0 <= i < |t.members| :: t.members[i].id == s.members[i].id;
    }
    assert ChallengeIdsUnique(t.challenges) by {
      assert forall j | 0 <= j < |t.challenges| :: t.challenges[j].id == s.challenges[j].id;
    }
    forall i | 0 <= i < |t.members|
      ensures t.members[i].totalSubmissions == OwnedCount(t.challenges, t.members[i].id)
    {
      SameOwners(s.challenges, t.challenges, t.members[i].id);
    }
  }

  lemma FailConsistent(s: State, cid: int, today: int)
    requires Consistent(s) && PendingTarget(s.challenges, cid)
    requires Lifecycle.MarkAsFailed(s, cid, today).Ok?
    ensures Consistent(Lifecycle.MarkAsFailed(s, cid, today).value)
  {
    var t := Lifecycle.MarkAsFailed(s, cid, today).value;
    forall i | 0 <= i < |t.members|
      ensures t.members[i].totalSubmissions == OwnedCount(t.challenges, t.members[i].id)
    {
      SameOwners(s.challenges, t.challenges, t.members[i].id);
    }
  }

  /** Every admissible action keeps the state consistent. */
  lemma StepConsistent(s: State, op: Op)
    requires Consistent(s) && Admissible(s, op)
    ensures Consistent(Step(s, op))
  {
    match op
    case AddMemberOp(name, id) => AddMemberConsistent(s, name, id);
    case RemoveMemberOp(id, force) => RemoveMemberConsistent(s, id, force);
    case AddProblemsOp(user, list, cid, today) => AddProblemsConsistent(s, user, list, cid, today);
    case ToggleOp(cid, idx) => ToggleConsistent(s, cid, idx);
    case SubmitOp(cid, today) =>
      if Lifecycle.SubmitSolutions(s, cid, today).Ok? {
        SubmitConsistent(s, cid, today);
      }
    case FailOp(cid, today) =>
      if Lifecycle.MarkAsFailed(s, cid, today).Ok? {
        FailConsistent(s, cid, today);
      }
  }

  /** A sequence of actions, each admissible in the state it meets. */
  predicate AdmissibleRun(s: State, ops: seq<Op>)
    decreases |ops|
  {
    |ops| == 0 || (Admissible(s, ops[0]) && AdmissibleRun(Step(s, ops[0]), ops[1..]))
  }

  function Run(s: State, ops: seq<Op>): State
    requires AdmissibleRun(s, ops)
    decreases |ops|
  {
    if |ops| == 0 then s else Run(Step(s, ops[0]), ops[1..])
  }

  /** From a consistent state (the first-run state in particular) any
      admissible run of actions ends in a consistent state. */
  lemma {:induction false} RunConsistent(s: State, ops: seq<Op>)
    requires Consistent(s) && AdmissibleRun(s, ops)
    ensures Consistent(Run(s, ops))
    decreases |ops|
  {
    if |ops| > 0 {
      StepConsistent(s, ops[0]);
      RunConsistent(Step(s, ops[0]), ops[1..]);
    }
  }

  // ---------------------------------------------------------------------
  // Counters never go down

  /** Paid, earned and submission counters of `m'` are at least those of `m`. */
  predicate Grows(m: Member, m': Member) {
    m'.totalPaid >= m.totalPaid && m'.totalEarned >= m.totalEarned
    && m'.totalSubmissions >= m.totalSubmissions
  }

  /** Every member present before and after has counters that did not go down. */
  predicate CountersKept(ms: seq<Member>, ms': seq<Member>) {
    forall i, j | 0 <= i < |ms| && 0 <= j < |ms'| && ms[i].id == ms'[j].id :: Grows(ms[i], ms'[j])
  }

  lemma PointwiseGrowth(ms: seq<Member>, ms': seq<Member>)
    requires MemberIdsUnique(ms) && |ms| == |ms'|
    requires forall j | 0 <= j < |ms| :: ms'[j].id == ms[j].id && Grows(ms[j], ms'[j])
    ensures CountersKept(ms, ms')
  {
  }

  lemma AddMemberKeepsCounters(s: State, name: string, id: int)
    requires MemberIdsUnique(s.members) && !HasMember(s.members, id)
    ensures CountersKept(s.members, Step(s, AddMemberOp(name, id)).members)
  {
    var t := Step(s, AddMemberOp(name, id));
    forall i, j | 0 <= i < |s.members| && 0 <= j < |t.members| && s.members[i].id == t.members[j].id
      ensures Grows(s.members[i], t.members[j])
    {
      if j < |s.members| {
        assert t.members[j] == s.members[j];
      } else {
        assert false;
      }
    }
  }

  lemma RemoveMemberKeepsCounters(s: State, id: int, force: bool)
    requires Consistent(s)
    ensures CountersKept(s.members, Step(s, RemoveMemberOp(id, force)).members)
  {
    var t := Step(s, RemoveMemberOp(id, force));
    forall i, j | 0 <= i < |s.members| && 0 <= j < |t.members| && s.members[i].id == t.members[j].id
      ensures Grows(s.members[i], t.members[j])
    {
      assert t.members[j] in s.members;
      var k :| 0 <= k < |s.members| && s.members[k] == t.members[j];
      Seqs.SameKeySamePosition(s.members, (m: Member) => m.id, i, k);
    }
  }

  /** No admissible action lowers any member's paid, earned or submission count. */
  lemma StepNeverLowersCounters(s: State, op: Op)
    requires Consistent(s) && Admissible(s, op)
    ensures CountersKept(s.members, Step(s, op).members)
  {
    match op
    case AddMemberOp(name, id) => AddMemberKeepsCounters(s, name, id);
    case RemoveMemberOp(id, force) => RemoveMemberKeepsCounters(s, id, force);
    case AddProblemsOp(user, list, cid, today) => ChallengeStepKeepsCounters(s, op);
    case ToggleOp(cid, idx) => ChallengeStepKeepsCounters(s, op);
    case SubmitOp(cid, today) => ChallengeStepKeepsCounters(s, op);
    case FailOp(cid, today) => ChallengeStepKeepsCounters(s, op);
  }

  /** Creating, toggling, submitting and failing keep every member in place
      and only raise counters. */
  lemma ChallengeStepKeepsCounters(s: State, op: Op)
    requires MemberIdsUnique(s.members)
    requires op.AddProblemsOp? || op.ToggleOp? || op.SubmitOp? || op.FailOp?
    ensures CountersKept(s.members, Step(s, op).members)
  {
    PointwiseGrowth(s.members, Step(s, op).members);
  }

  // ---------------------------------------------------------------------
  // What a failure moves

  function TotalPaid(ms: seq<Member>): nat {
    if |ms| == 0 then 0 else ms[0].totalPaid + TotalPaid(ms[1..])
  }

  function TotalEarned(ms: seq<Member>): nat {
    if |ms| == 0 then 0 else ms[0].totalEarned + TotalEarned(ms[1..])
  }

  /** How many registry entries carry the id. */
  function IdCount(ms: seq<Member>, x: int): nat {
    Seqs.Count(ms, (m: Member) => m.id == x)
  }

  /** An id that occurs in a registry of distinct ids occurs once. */
  lemma {:induction false} UniqueIdCountsOnce(ms: seq<Member>, x: int)
    requires MemberIdsUnique(ms) && HasMember(ms, x)
    ensures IdCount(ms, x) == 1
    decreases |ms|
  {
    if ms[0].id != x {
      var k :| 0 <= k < |ms| && ms[k].id == x;
      assert ms[1..][k - 1].id == x;
      UniqueIdCountsOnce(ms[1..], x);
    } else {
      assert forall j | 0 <= j < |ms[1..]| :: ms[1..][j].id != x by {
        forall j | 0 <= j < |ms[1..]| ensures ms[1..][j].id != x {
          assert ms[1..][j] == ms[j + 1];
        }
      }
    }
  }

  /** Summing the per-member effect of a failure over the registry. */
  lemma {:induction false} FailureTotals(ms: seq<Member>, ms': seq<Member>, owner: int)
    requires |ms| == |ms'|
    requires forall i | 0 <= i < |ms| ::
      if ms[i].id == owner then
        ms'[i].totalPaid == ms[i].totalPaid + PenaltyUnit && ms'[i].totalEarned == ms[i].totalEarned
      else
        ms'[i].totalEarned == ms[i].totalEarned + RewardUnit && ms'[i].totalPaid == ms[i].totalPaid
    ensures TotalPaid(ms') == TotalPaid(ms) + PenaltyUnit * IdCount(ms, owner)
    ensures TotalEarned(ms') == TotalEarned(ms) + RewardUnit * (|ms| - IdCount(ms, owner))
    decreases |ms|
  {
    if |ms| > 0 {
      FailureTotals(ms[1..], ms'[1..], owner);
    }
  }

  /** Marking a challenge failed charges its owner one penalty and pays one
      reward to each of the other members: with n members the rewards add
      up to 50 * (n - 1). When the owner is no longer registered, nobody
      pays and every member is rewarded. */
  lemma MarkAsFailedRedistributes(s: State, cid: int, today: int)
    requires MemberIdsUnique(s.members)
    requires HasChallenge(s.challenges, cid)
    ensures var t := Lifecycle.MarkAsFailed(s, cid, today).value;
      var owner := FindChallenge(s.challenges, cid).value.memberId;
      if HasMember(s.members, owner) then
        TotalPaid(t.members) == TotalPaid(s.members) + PenaltyUnit
        && TotalEarned(t.members) == TotalEarned(s.members) + RewardUnit * (|s.members| - 1)
      else
        TotalPaid(t.members) == TotalPaid(s.members)
        && TotalEarned(t.members) == TotalEarned(s.members) + RewardUnit * |s.members|
  {
    var t := Lifecycle.MarkAsFailed(s, cid, today).value;
    var owner := FindChallenge(s.challenges, cid).value.memberId;
    FailureTotals(s.members, t.members, owner);
    if HasMember(s.members, owner) {
      UniqueIdCountsOnce(s.members, owner);
    }
  }

  /** Sum of the members' net balances (earned minus paid). */
  function TotalNet(ms: seq<Member>): int {
    TotalEarned(ms) - TotalPaid(ms)
  }

  /** A failure is only money-neutral for the team in a three-member
      registry: the penalty of 100 matches the rewards of 50 * (n - 1)
      exactly when n is 3. */
  lemma FailureBalancesOnlyForThree(s: State, cid: int, today: int)
    requires MemberIdsUnique(s.members)
    requires HasChallenge(s.challenges, cid)
    requires HasMember(s.members, FindChallenge(s.challenges, cid).value.memberId)
    ensures var t := Lifecycle.MarkAsFailed(s, cid, today).value;
      TotalNet(t.members) == TotalNet(s.members) + RewardUnit * (|s.members| - 1) - PenaltyUnit
    ensures var t := Lifecycle.MarkAsFailed(s, cid, today).value;
      TotalNet(t.members) == TotalNet(s.members) <==> |s.members| == 3
  {
    MarkAsFailedRedistributes(s, cid, today);
  }
}
