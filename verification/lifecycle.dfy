/** The challenge lifecycle: creating a pending challenge from a full draft,
    toggling its problems, and resolving it as completed or failed, with the
    effect each has on the members' statistics (app.js:133-165, 185-253).
    Each operation is a pure function of the current state; the clock and
    the id source are parameters. Like the tracker itself, submitting and
    failing do not look at the challenge's current status: the tracker only
    offers them on pending challenges. */
module Lifecycle {
  import opened Ledger
  import Seqs

  /** `addProblems`: needs a selected member and exactly six drafted
      problems. Appends one pending challenge due the day after it is
      submitted and counts one more submission for every member carrying
      the selected id. The owner's name is copied from the first member
      with that id; when there is none, the name is missing. */
  function AddProblems(s: State, currentUser: Option<int>, list: seq<Problem>, challengeId: int, today: int)
    : (r: Result<State>)
    ensures r.Err? <==> currentUser.None? || |list| != ProblemsPerChallenge
    ensures r.Err? ==> r.error == NotReady
    ensures r.Ok? ==> |r.value.challenges| == |s.challenges| + 1
    ensures r.Ok? ==> r.value.challenges[..|s.challenges|] == s.challenges
    ensures r.Ok? ==> var c := r.value.challenges[|s.challenges|];
      && c.id == challengeId && c.memberId == currentUser.value && c.problems == list
      && |c.problems| == ProblemsPerChallenge
      && c.status == Pending && !c.solutionsSubmitted
      && c.submittedDate == today && c.dueDate == c.submittedDate + 1
      && c.completedDate.None? && c.failedDate.None?
      && (c.memberName.Some? <==> HasMember(s.members, currentUser.value))
      && (c.memberName.Some? ==> c.memberName.value == FindMember(s.members, currentUser.value).value.name)
    ensures r.Ok? ==> |r.value.members| == |s.members|
    ensures r.Ok? ==> forall i | 0 <= i < |s.members| ::
      var m, m' := s.members[i], r.value.members[i];
      if m.id == currentUser.value then m' == m.(totalSubmissions := m.totalSubmissions + 1)
      else m' == m
  {
    if currentUser.None? || |list| != ProblemsPerChallenge then Err(NotReady)
    else
      var uid := currentUser.value;
      var name := match FindMember(s.members, uid)
        case Some(m) => Some(m.name)
        case None => None;
      var c := Challenge(challengeId, uid, name, list, today, today + 1, Pending, false, None, None);
      var ms := Seqs.Map(s.members, (m: Member) =>
        if m.id == uid then m.(totalSubmissions := m.totalSubmissions + 1) else m);
      assert (s.challenges + [c])[..|s.challenges|] == s.challenges;
      Ok(State(ms, s.challenges + [c]))
  }

  /** The problem list with the solved flag at `idx` inverted. */
  function ToggleAt(ps: seq<Problem>, idx: nat): (r: seq<Problem>)
    requires idx < |ps|
    ensures |r| == |ps|
    ensures r[idx].solved == !ps[idx].solved
    ensures r[idx] == ps[idx].(solved := r[idx].solved)
    ensures forall k | 0 <= k < |ps| && k != idx :: r[k] == ps[k]
  {
    ps[idx := ps[idx].(solved := !ps[idx].solved)]
  }

  /** Every challenge carrying the id has a problem at `idx`. */
  predicate IndexFits(cs: seq<Challenge>, challengeId: int, idx: nat) {
    forall j | 0 <= j < |cs| && cs[j].id == challengeId :: idx < |cs[j].problems|
  }

  /** `toggleProblemSolved`: inverts one solved flag in every challenge with
      the id; nothing else changes, whatever the challenge's status. When
      some challenge with the id has no problem at `idx`, reading its flag
      throws and the state stays as it was. */
  function ToggleProblemSolved(s: State, challengeId: int, idx: nat): (r: State)
    ensures !IndexFits(s.challenges, challengeId, idx) ==> r == s
    ensures r.members == s.members
    ensures |r.challenges| == |s.challenges|
    ensures IndexFits(r.challenges, challengeId, idx) <==> IndexFits(s.challenges, challengeId, idx)
    ensures IndexFits(s.challenges, challengeId, idx) ==> forall j | 0 <= j < |s.challenges| ::
      var c, c' := s.challenges[j], r.challenges[j];
      if c.id == challengeId then
        && c' == c.(problems := c'.problems)
        && |c'.problems| == |c.problems|
        && c'.problems[idx].solved == !c.problems[idx].solved
        && c'.problems[idx] == c.problems[idx].(solved := c'.problems[idx].solved)
        && (forall k | 0 <= k < |c.problems| && k != idx :: c'.problems[k] == c.problems[k])
      else c' == c
  {
    if !IndexFits(s.challenges, challengeId, idx) then s
    else
      var cs := Seqs.Map(s.challenges, (c: Challenge) =>
        if c.id == challengeId && idx < |c.problems| then c.(problems := ToggleAt(c.problems, idx)) else c);
      State(s.members, cs)
  }

  /** Toggling the same problem twice restores the state. */
  lemma ToggleTwiceRestores(s: State, challengeId: int, idx: nat)
    ensures var t := ToggleProblemSolved(s, challengeId, idx);
      ToggleProblemSolved(t, challengeId, idx) == s
  {
    var t := ToggleProblemSolved(s, challengeId, idx);
    var u := ToggleProblemSolved(t, challengeId, idx);
    if IndexFits(s.challenges, challengeId, idx) {
      assert |u.challenges| == |s.challenges|;
      forall j | 0 <= j < |s.challenges|
        ensures u.challenges[j] == s.challenges[j]
      {
        var c := s.challenges[j];
        if c.id == challengeId {
          assert u.challenges[j].problems == c.problems;
        }
      }
    }
  }

  /** The owner's streak after a successful resolution: one more, with the
      historical maximum raised to it when exceeded. */
  function ExtendStreak(m: Member): (m': Member)
    ensures m'.streak == m.streak + 1
    ensures m'.maxStreak >= m.maxStreak && m'.maxStreak >= m'.streak
    ensures m'.maxStreak == m.maxStreak || m'.maxStreak == m'.streak
    ensures m' == m.(streak := m'.streak, maxStreak := m'.maxStreak)
  {
    var n := m.streak + 1;
    m.(streak := n, maxStreak := if m.maxStreak >= n then m.maxStreak else n)
  }

  /** `submitSolutions`: the first challenge with the id must exist and have
      every problem solved. Then every challenge with the id is completed
      on `today`, and every member owning the first one extends the streak. */
  function SubmitSolutions(s: State, challengeId: int, today: int): (r: Result<State>)
    ensures r.Err? <==> (FindChallenge(s.challenges, challengeId).None?
                         || !AllSolved(FindChallenge(s.challenges, challengeId).value.problems))
    ensures r.Err? ==> r.error == (if HasChallenge(s.challenges, challengeId) then NotAllSolved else NotFound)
    ensures r.Ok? ==> |r.value.members| == |s.members|
    ensures r.Ok? ==> var owner := FindChallenge(s.challenges, challengeId).value.memberId;
      forall i | 0 <= i < |s.members| ::
        var m, m' := s.members[i], r.value.members[i];
        if m.id == owner then m' == ExtendStreak(m) else m' == m
    ensures r.Ok? ==> |r.value.challenges| == |s.challenges|
    ensures r.Ok? ==> forall j | 0 <= j < |s.challenges| ::
      var c, c' := s.challenges[j], r.value.challenges[j];
      if c.id == challengeId then
        c' == c.(status := Completed, solutionsSubmitted := true, completedDate := Some(today))
      else c' == c
  {
    match FindChallenge(s.challenges, challengeId)
    case None => Err(NotFound)
    case Some(target) =>
      if !AllSolved(target.problems) then Err(NotAllSolved)
      else
        var cs := Seqs.Map(s.challenges, (c: Challenge) =>
          if c.id == challengeId then c.(status := Completed, solutionsSubmitted := true, completedDate := Some(today))
          else c);
        var ms := Seqs.Map(s.members, (m: Member) =>
          if m.id == target.memberId then ExtendStreak(m) else m);
        Ok(State(ms, cs))
  }

  /** `markAsFailed`: no requirement on the problems or the status. Every
      member owning the challenge pays the penalty and loses the streak
      (the historical maximum stays); every other member earns the reward;
      every challenge with the id becomes failed on `today`. A missing
      challenge only throws when some member's callback reads its owner:
      with an empty registry nothing is read and nothing changes. */
  function MarkAsFailed(s: State, challengeId: int, today: int): (r: Result<State>)
    ensures r.Err? <==> !HasChallenge(s.challenges, challengeId) && s.members != []
    ensures r.Err? ==> r.error == NotFound
    ensures r.Ok? && !HasChallenge(s.challenges, challengeId) ==> r.value == s
    ensures r.Ok? ==> |r.value.members| == |s.members|
    ensures r.Ok? && HasChallenge(s.challenges, challengeId) ==>
      var owner := FindChallenge(s.challenges, challengeId).value.memberId;
      forall i | 0 <= i < |s.members| ::
        var m, m' := s.members[i], r.value.members[i];
        if m.id == owner then
          m'.totalPaid == m.totalPaid + PenaltyUnit && m'.streak == 0
          && m' == m.(totalPaid := m'.totalPaid, streak := 0)
        else
          m'.totalEarned == m.totalEarned + RewardUnit
          && m' == m.(totalEarned := m'.totalEarned)
    ensures r.Ok? ==> |r.value.challenges| == |s.challenges|
    ensures r.Ok? ==> forall j | 0 <= j < |s.challenges| ::
      var c, c' := s.challenges[j], r.value.challenges[j];
      if c.id == challengeId then c' == c.(status := Failed, failedDate := Some(today))
      else c' == c
  {
    match FindChallenge(s.challenges, challengeId)
    case None => if s.members == [] then Ok(s) else Err(NotFound)
    case Some(target) =>
      var ms := Seqs.Map(s.members, (m: Member) =>
        if m.id == target.memberId then m.(totalPaid := m.totalPaid + PenaltyUnit, streak := 0)
        else m.(totalEarned := m.totalEarned + RewardUnit));
      var cs := Seqs.Map(s.challenges, (c: Challenge) =>
        if c.id == challengeId then c.(status := Failed, failedDate := Some(today)) else c);
      Ok(State(ms, cs))
  }
}
