/** Concrete walkthroughs: blank and valid member names, and a member who
    completes one challenge then fails the next while two teammates look on. */
module Scenarios {
  import opened Ledger
  import Text
  import Registry
  import Lifecycle
  import Invariants

  /** An empty or all-space name is rejected. */
  lemma BlankNamesRejected()
    ensures Registry.AddMember(State(Registry.DefaultMembers(), []), "", 4) == Err(EmptyName)
    ensures Registry.AddMember(State(Registry.DefaultMembers(), []), "   ", 4) == Err(EmptyName)
  {
    assert Text.IsBlank("   ");
  }

  lemma TrimLeavesDana()
    ensures Text.Trim("Dana") == "Dana" && !Text.IsBlank("Dana")
  {
    assert !Text.IsWhitespace("Dana"[0]);
    assert Text.TrimStart("Dana") == "Dana";
    assert !Text.IsWhitespace("Dana"[3]);
    assert Text.TrimEnd("Dana") == "Dana";
  }

  /** "Dana" is appended after the existing members with the fresh id and
      zeroed counters, whatever the registry holds. */
  lemma NamedMemberAdded(s: State, id: int)
    ensures Registry.AddMember(s, "Dana", id)
         == Ok(State(s.members + [Member(id, "Dana", 0, 0, 0, 0, 0)], s.challenges))
  {
    TrimLeavesDana();
    var r := Registry.AddMember(s, "Dana", id);
    assert r.value.members == s.members + [r.value.members[|s.members|]];
  }

  /** Six unsolved problems, as a full draft holds them. */
  function SixProblems(): (ps: seq<Problem>)
    ensures |ps| == ProblemsPerChallenge
    ensures forall i | 0 <= i < |ps| :: !ps[i].solved
  {
    seq(6, i => Problem("Two Sum", "", Medium, false))
  }

  /** Every challenge with the id holds six problems. */
  predicate SixFor(s: State, cid: int) {
    forall j | 0 <= j < |s.challenges| && s.challenges[j].id == cid ::
      |s.challenges[j].problems| == ProblemsPerChallenge
  }

  /** Ticks the first `n` problems of the challenge, one toggle at a time. */
  function TickFirst(s: State, cid: int, n: nat): (r: State)
    ensures r.members == s.members && |r.challenges| == |s.challenges|
    ensures n <= ProblemsPerChallenge && SixFor(s, cid) ==>
      && (forall j | 0 <= j < |s.challenges| && s.challenges[j].id != cid :: r.challenges[j] == s.challenges[j])
      && forall j | 0 <= j < |s.challenges| && s.challenges[j].id == cid ::
           && r.challenges[j] == s.challenges[j].(problems := r.challenges[j].problems)
           && |r.challenges[j].problems| == ProblemsPerChallenge
           && forall k | 0 <= k < ProblemsPerChallenge ::
                r.challenges[j].problems[k].solved
                == (if k < n then !s.challenges[j].problems[k].solved else s.challenges[j].problems[k].solved)
    decreases n
  {
    if n == 0 then s
    else Lifecycle.ToggleProblemSolved(TickFirst(s, cid, n - 1), cid, n - 1)
  }

  // The walkthrough is proved one action at a time over a three-member
  // registry [a, b, c] in which only `a` carries the acting member's id.

  predicate OnlyFirstIs(ms: seq<Member>, uid: int) {
    |ms| == 3 && ms[0].id == uid && ms[1].id != uid && ms[2].id != uid
  }

  lemma SubmitSixStep(s: State, uid: int, cid: int, day: int)
    requires OnlyFirstIs(s.members, uid)
    ensures var r := Lifecycle.AddProblems(s, Some(uid), SixProblems(), cid, day);
      && r.Ok?
      && r.value.members == [s.members[0].(totalSubmissions := s.members[0].totalSubmissions + 1),
                             s.members[1], s.members[2]]
      && r.value.challenges == s.challenges + [r.value.challenges[|s.challenges|]]
      && r.value.challenges[|s.challenges|].id == cid
      && r.value.challenges[|s.challenges|].memberId == uid
      && r.value.challenges[|s.challenges|].status == Pending
      && r.value.challenges[|s.challenges|].problems == SixProblems()
  {
    var r := Lifecycle.AddProblems(s, Some(uid), SixProblems(), cid, day);
    assert r.value.challenges == s.challenges + [r.value.challenges[|s.challenges|]];
  }

  lemma SolveStep(s: State, uid: int, cid: int, k: nat, day: int)
    requires OnlyFirstIs(s.members, uid)
    requires k < |s.challenges| && s.challenges[k].id == cid && s.challenges[k].memberId == uid
    requires forall j | 0 <= j < k :: s.challenges[j].id != cid
    requires AllSolved(s.challenges[k].problems)
    ensures var r := Lifecycle.SubmitSolutions(s, cid, day);
      && r.Ok?
      && r.value.members == [Lifecycle.ExtendStreak(s.members[0]), s.members[1], s.members[2]]
      && |r.value.challenges| == |s.challenges| && r.value.challenges[k].status == Completed
  {
    assert FindChallenge(s.challenges, cid) == Some(s.challenges[k]);
  }

  lemma FailStep(s: State, uid: int, cid: int, k: nat, day: int)
    requires OnlyFirstIs(s.members, uid)
    requires k < |s.challenges| && s.challenges[k].id == cid && s.challenges[k].memberId == uid
    requires forall j | 0 <= j < k :: s.challenges[j].id != cid
    ensures var r := Lifecycle.MarkAsFailed(s, cid, day);
      && r.Ok?
      && r.value.members == [s.members[0].(totalPaid := s.members[0].totalPaid + PenaltyUnit, streak := 0),
                             s.members[1].(totalEarned := s.members[1].totalEarned + RewardUnit),
                             s.members[2].(totalEarned := s.members[2].totalEarned + RewardUnit)]
      && |r.value.challenges| == |s.challenges| && r.value.challenges[k].status == Failed
      && forall j | 0 <= j < |s.challenges| && j != k && s.challenges[j].id != cid ::
           r.value.challenges[j] == s.challenges[j]
  {
    assert FindChallenge(s.challenges, cid) == Some(s.challenges[k]);
  }

  /** The tracker as first started: the default registry, an empty ledger. */
  function Start(): State {
    State(Registry.DefaultMembers(), [])
  }

  /** The walkthrough's first day: member 1 submits six problems as
      challenge 100, ticks all six and submits the solutions. Each action
      the tracker rejects would leave the state as it was. */
  function DayOne(s0: State): State {
    var s1 := Invariants.Settle(s0, Lifecycle.AddProblems(s0, Some(1), SixProblems(), 100, 0));
    var s2 := TickFirst(s1, 100, ProblemsPerChallenge);
    Invariants.Settle(s2, Lifecycle.SubmitSolutions(s2, 100, 0))
  }

  /** The walkthrough's second day: member 1 submits challenge 101, which
      is then marked failed. */
  function DayTwo(s3: State): State {
    var s4 := Invariants.Settle(s3, Lifecycle.AddProblems(s3, Some(1), SixProblems(), 101, 1));
    Invariants.Settle(s4, Lifecycle.MarkAsFailed(s4, 101, 1))
  }

  /** From an empty ledger, the first day goes through: the challenge is
      completed and only member 1's submission count and streak move. */
  lemma FirstDayCompletes(s0: State)
    requires OnlyFirstIs(s0.members, 1) && s0.challenges == []
    ensures var m := s0.members[0];
      DayOne(s0).members == [Lifecycle.ExtendStreak(m.(totalSubmissions := m.totalSubmissions + 1)),
                             s0.members[1], s0.members[2]]
    ensures |DayOne(s0).challenges| == 1
    ensures DayOne(s0).challenges[0].id == 100 && DayOne(s0).challenges[0].status == Completed
  {
    SubmitSixStep(s0, 1, 100, 0);
    var s1 := Lifecycle.AddProblems(s0, Some(1), SixProblems(), 100, 0).value;
    assert Invariants.Settle(s0, Lifecycle.AddProblems(s0, Some(1), SixProblems(), 100, 0)) == s1;
    assert s1.challenges == [s1.challenges[0]];
    TickAll(s1, 100);
    SolveStep(TickFirst(s1, 100, ProblemsPerChallenge), 1, 100, 0, 0);
  }

  /** Ticking all six problems of the only challenge solves every one of
      them and changes nothing else. */
  lemma TickAll(s: State, cid: int)
    requires |s.challenges| == 1 && s.challenges[0].id == cid
    requires |s.challenges[0].problems| == ProblemsPerChallenge
    requires forall k | 0 <= k < ProblemsPerChallenge :: !s.challenges[0].problems[k].solved
    ensures var t := TickFirst(s, cid, ProblemsPerChallenge);
      && t.members == s.members && |t.challenges| == 1
      && t.challenges[0] == s.challenges[0].(problems := t.challenges[0].problems)
      && AllSolved(t.challenges[0].problems)
  {
    assert SixFor(s, cid);
    var c, c' := s.challenges[0], TickFirst(s, cid, ProblemsPerChallenge).challenges[0];
    assert c' == c.(problems := c'.problems) && |c'.problems| == ProblemsPerChallenge;
    forall k | 0 <= k < ProblemsPerChallenge
      ensures c'.problems[k].solved
    {
      assert !c.problems[k].solved;
    }
  }

  /** The walkthrough's first day from the first start: member 1 has a
      streak of 1, a maximum of 1 and one submission; the others are untouched. */
  lemma FirstChallengeScenario()
    ensures DayOne(Start()).members == [Member(1, "Member 1", 0, 0, 1, 1, 1),
                                        Member(2, "Member 2", 0, 0, 0, 0, 0),
                                        Member(3, "Member 3", 0, 0, 0, 0, 0)]
    ensures |DayOne(Start()).challenges| == 1
    ensures DayOne(Start()).challenges[0].id == 100 && DayOne(Start()).challenges[0].status == Completed
  {
    FirstDayCompletes(Start());
  }

  /** The second day, from any state with the first day's registry and one
      challenge other than 101: member 1 has paid 100, its streak is reset
      and its maximum of 1 stays; members 2 and 3 earned 50 each. */
  lemma SecondDay(s3: State)
    requires s3.members == [Member(1, "Member 1", 0, 0, 1, 1, 1),
                            Member(2, "Member 2", 0, 0, 0, 0, 0),
                            Member(3, "Member 3", 0, 0, 0, 0, 0)]
    requires |s3.challenges| == 1 && s3.challenges[0].id != 101
    ensures DayTwo(s3).members == [Member(1, "Member 1", 100, 0, 0, 1, 2),
                                   Member(2, "Member 2", 0, 50, 0, 0, 0),
                                   Member(3, "Member 3", 0, 50, 0, 0, 0)]
    ensures |DayTwo(s3).challenges| == 2 && DayTwo(s3).challenges[0] == s3.challenges[0]
    ensures DayTwo(s3).challenges[1].status == Failed
  {
    SubmitSixStep(s3, 1, 101, 1);
    var s4 := Lifecycle.AddProblems(s3, Some(1), SixProblems(), 101, 1).value;
    assert Invariants.Settle(s3, Lifecycle.AddProblems(s3, Some(1), SixProblems(), 101, 1)) == s4;
    assert s4.challenges[0] == s3.challenges[0];
    assert OnlyFirstIs(s4.members, 1);
    assert s4.challenges[1].id == 101 && s4.challenges[1].memberId == 1;
    FailStep(s4, 1, 101, 1, 1);
  }

  /** Both days in a row from the first start: the first challenge stays
      completed, the second is failed, and the balances are as above. */
  lemma SecondChallengeScenario()
    ensures DayTwo(DayOne(Start())).members == [Member(1, "Member 1", 100, 0, 0, 1, 2),
                                                Member(2, "Member 2", 0, 50, 0, 0, 0),
                                                Member(3, "Member 3", 0, 50, 0, 0, 0)]
    ensures |DayTwo(DayOne(Start())).challenges| == 2
    ensures DayTwo(DayOne(Start())).challenges[0].status == Completed
    ensures DayTwo(DayOne(Start())).challenges[1].status == Failed
  {
    FirstChallengeScenario();
    SecondDay(DayOne(Start()));
  }
}
