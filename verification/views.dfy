/** Views derived from the ledger and never stored: a member's challenge
    history, the ranking by streak, and the progress of pending challenges
    (app.js:255-264, 356-365). */
module Views {
  import opened Ledger
  import Lifecycle
  import Seqs

  /** The status argument of `getMemberChallenges`: `'all'` or one status. */
  datatype StatusFilter = All | Only(status: Status)

  predicate Selects(c: Challenge, memberId: int, f: StatusFilter) {
    c.memberId == memberId && (f.All? || c.status == f.status)
  }

  /** `getMemberChallenges`: the member's challenges, restricted to one
      status unless `All` is asked for, in ledger order. */
  function MemberChallenges(cs: seq<Challenge>, memberId: int, f: StatusFilter): (r: seq<Challenge>)
    ensures forall i | 0 <= i < |r| :: r[i] in cs && r[i].memberId == memberId
    ensures f.Only? ==> forall i | 0 <= i < |r| :: r[i].status == f.status
    ensures forall j | 0 <= j < |cs| && cs[j].memberId == memberId && (f.All? || cs[j].status == f.status) ::
      cs[j] in r
    ensures |r| == Seqs.Count(cs, (c: Challenge) => Selects(c, memberId, f))
  {
    Seqs.FilterLength(cs, (c: Challenge) => Selects(c, memberId, f));
    Seqs.Filter(cs, (c: Challenge) => Selects(c, memberId, f))
  }

  /** The history keeps ledger order: the view of a ledger split in two is
      the view of the first part followed by the view of the second. */
  lemma MemberChallengesKeepOrder(a: seq<Challenge>, b: seq<Challenge>, memberId: int, f: StatusFilter)
    ensures MemberChallenges(a + b, memberId, f) == MemberChallenges(a, memberId, f) + MemberChallenges(b, memberId, f)
  {
    Seqs.FilterConcat(a, b, (c: Challenge) => Selects(c, memberId, f));
  }

  /** Adding one challenge to the ledger extends the history by that
      challenge exactly when the filter selects it. */
  lemma MemberChallengesAppend(cs: seq<Challenge>, c: Challenge, memberId: int, f: StatusFilter)
    ensures MemberChallenges(cs + [c], memberId, f)
         == MemberChallenges(cs, memberId, f) + (if Selects(c, memberId, f) then [c] else [])
  {
    MemberChallengesKeepOrder(cs, [c], memberId, f);
    assert MemberChallenges([c], memberId, f) == (if Selects(c, memberId, f) then [c] else []) by {
      Seqs.FilterCons(c, [], (x: Challenge) => Selects(x, memberId, f));
      assert [c] + [] == [c];
    }
  }

  /** A member's whole history splits into the pending, completed and
      failed parts. */
  lemma HistoryPartition(cs: seq<Challenge>, memberId: int)
    ensures |MemberChallenges(cs, memberId, All)|
         == |MemberChallenges(cs, memberId, Only(Pending))|
          + |MemberChallenges(cs, memberId, Only(Completed))|
          + |MemberChallenges(cs, memberId, Only(Failed))|
  {
    StatusCountsAddUp(cs, memberId);
  }

  /** Each of a member's challenges has exactly one of the three statuses,
      so the per-status counts add up to the member's count. */
  lemma {:induction false} StatusCountsAddUp(cs: seq<Challenge>, memberId: int)
    ensures Seqs.Count(cs, (c: Challenge) => Selects(c, memberId, All))
         == Seqs.Count(cs, (c: Challenge) => Selects(c, memberId, Only(Pending)))
          + Seqs.Count(cs, (c: Challenge) => Selects(c, memberId, Only(Completed)))
          + Seqs.Count(cs, (c: Challenge) => Selects(c, memberId, Only(Failed)))
    decreases |cs|
  {
    if |cs| > 0 {
      StatusCountsAddUp(cs[1..], memberId);
      CountStep(cs, memberId, All);
      CountStep(cs, memberId, Only(Pending));
      CountStep(cs, memberId, Only(Completed));
      CountStep(cs, memberId, Only(Failed));
    }
  }

  /** The count of selected challenges in a non-empty ledger: the first
      challenge, when selected, plus the count of the rest. */
  lemma CountStep(cs: seq<Challenge>, memberId: int, f: StatusFilter)
    requires |cs| > 0
    ensures Seqs.Count(cs, (c: Challenge) => Selects(c, memberId, f))
         == (if Selects(cs[0], memberId, f) then 1 else 0)
          + Seqs.Count(cs[1..], (c: Challenge) => Selects(c, memberId, f))
  {
  }

  /** The challenges still pending, as the dashboard lists them. */
  function PendingChallenges(cs: seq<Challenge>): (r: seq<Challenge>)
    ensures forall i | 0 <= i < |r| :: r[i] in cs && r[i].status == Pending
    ensures forall j | 0 <= j < |cs| && cs[j].status == Pending :: cs[j] in r
    ensures |r| == Seqs.Count(cs, (c: Challenge) => c.status == Pending)
  {
    Seqs.FilterLength(cs, (c: Challenge) => c.status == Pending);
    Seqs.Filter(cs, (c: Challenge) => c.status == Pending)
  }

  /** The dashboard lists pending challenges in ledger order. */
  lemma PendingKeepsOrder(a: seq<Challenge>, b: seq<Challenge>)
    ensures PendingChallenges(a + b) == PendingChallenges(a) + PendingChallenges(b)
  {
    Seqs.FilterConcat(a, b, (c: Challenge) => c.status == Pending);
  }

  /** A newly created challenge appears last on the dashboard. */
  lemma NewChallengeListedLast(s: State, user: Option<int>, list: seq<Problem>, cid: int, today: int)
    requires Lifecycle.AddProblems(s, user, list, cid, today).Ok?
    ensures var t := Lifecycle.AddProblems(s, user, list, cid, today).value;
      PendingChallenges(t.challenges) == PendingChallenges(s.challenges) + [t.challenges[|s.challenges|]]
  {
    var t := Lifecycle.AddProblems(s, user, list, cid, today).value;
    var c := t.challenges[|s.challenges|];
    assert t.challenges == s.challenges + [c];
    PendingKeepsOrder(s.challenges, [c]);
    Seqs.FilterCons(c, [], (x: Challenge) => x.status == Pending);
    assert [c] + [] == [c];
  }

  /** Number of solved problems shown as a challenge's progress. */
  function SolvedCount(ps: seq<Problem>): (n: nat)
    ensures n <= |ps|
    ensures n == |ps| <==> AllSolved(ps)
    ensures n == 0 <==> forall i | 0 <= i < |ps| :: !ps[i].solved
  {
    Seqs.Count(ps, (p: Problem) => p.solved)
  }

  /** Toggling a problem moves the progress by exactly one, down when the
      problem was solved and up when it was not. */
  lemma {:induction false} ToggleMovesProgressByOne(ps: seq<Problem>, idx: nat)
    requires idx < |ps|
    ensures SolvedCount(Lifecycle.ToggleAt(ps, idx))
         == if ps[idx].solved then SolvedCount(ps) - 1 else SolvedCount(ps) + 1
    decreases |ps|
  {
    var t := Lifecycle.ToggleAt(ps, idx);
    assert SolvedCount(ps) == (if ps[0].solved then 1 else 0) + SolvedCount(ps[1..]);
    assert SolvedCount(t) == (if t[0].solved then 1 else 0) + SolvedCount(t[1..]);
    if idx == 0 {
      assert t[1..] == ps[1..];
    } else {
      assert t[0] == ps[0];
      assert t[1..] == Lifecycle.ToggleAt(ps[1..], idx - 1);
      ToggleMovesProgressByOne(ps[1..], idx - 1);
    }
  }

  /** Submitting solutions goes through exactly when the progress of the
      challenge it finds is full. */
  lemma SubmitNeedsFullProgress(s: State, challengeId: int, today: int)
    requires HasChallenge(s.challenges, challengeId)
    ensures var c := FindChallenge(s.challenges, challengeId).value;
      Lifecycle.SubmitSolutions(s, challengeId, today).Ok? <==> SolvedCount(c.problems) == |c.problems|
  {
  }

  /** Members ordered by streak, highest first. */
  predicate StreakDescending(ms: seq<Member>) {
    forall i, j | 0 <= i < j < |ms| :: ms[i].streak >= ms[j].streak
  }

  /** Puts `m` before the first member whose streak does not exceed its own. */
  function InsertByStreak(m: Member, ms: seq<Member>): (r: seq<Member>)
    ensures |r| == |ms| + 1
    ensures multiset(r) == multiset(ms) + multiset{m}
    ensures StreakDescending(ms) ==> StreakDescending(r)
  {
    if |ms| == 0 then [m]
    else if m.streak >= ms[0].streak then [m] + ms
    else
      var rest := InsertByStreak(m, ms[1..]);
      assert ms == [ms[0]] + ms[1..];
      if StreakDescending(ms) then
        InsertBelowHead(ms[0], m, ms[1..], rest);
        [ms[0]] + rest
      else [ms[0]] + rest
  }

  /** A head that outranks `m` and the tail still outranks the tail with `m` inserted. */
  lemma InsertBelowHead(h: Member, m: Member, tail: seq<Member>, rest: seq<Member>)
    requires StreakDescending([h] + tail) && StreakDescending(rest)
    requires h.streak > m.streak
    requires multiset(rest) == multiset(tail) + multiset{m}
    ensures StreakDescending([h] + rest)
  {
    forall i | 0 <= i < |rest|
      ensures h.streak >= rest[i].streak
    {
      var x := rest[i];
      assert x in multiset(rest);
      if x != m {
        assert multiset(rest)[x] == multiset(tail)[x];
        assert x in tail;
        var k :| 0 <= k < |tail| && tail[k] == x;
        assert ([h] + tail)[0] == h && ([h] + tail)[k + 1] == x;
      }
    }
  }

  /** The dashboard's ranking, `[...members].sort((a, b) => b.streak - a.streak)`:
      a stable sort by streak, highest first. */
  function RankByStreak(ms: seq<Member>): (r: seq<Member>)
    ensures multiset(r) == multiset(ms)
    ensures StreakDescending(r)
  {
    if |ms| == 0 then []
    else
      assert ms == [ms[0]] + ms[1..];
      InsertByStreak(ms[0], RankByStreak(ms[1..]))
  }

  /** The members with streak `k`, in order. */
  function WithStreak(ms: seq<Member>, k: nat): seq<Member> {
    Seqs.Filter(ms, StreakIs(k))
  }

  function StreakIs(k: nat): Member -> bool {
    (m: Member) => m.streak == k
  }

  /** Inserting `m` places it ahead of every member with the same streak. */
  lemma {:induction false} InsertKeepsTies(m: Member, ms: seq<Member>, k: nat)
    ensures WithStreak(InsertByStreak(m, ms), k)
         == (if m.streak == k then [m] else []) + WithStreak(ms, k)
    decreases |ms|
  {
    if |ms| == 0 {
      Seqs.FilterCons(m, [], StreakIs(k));
      assert InsertByStreak(m, ms) == [m] + [];
    } else if m.streak >= ms[0].streak {
      Seqs.FilterCons(m, ms, StreakIs(k));
    } else {
      InsertKeepsTies(m, ms[1..], k);
      InsertBehindHead(m, ms, k);
    }
  }

  /** The step of `InsertKeepsTies` where `m` goes behind the head. */
  lemma InsertBehindHead(m: Member, ms: seq<Member>, k: nat)
    requires |ms| > 0 && m.streak < ms[0].streak
    requires WithStreak(InsertByStreak(m, ms[1..]), k)
          == (if m.streak == k then [m] else []) + WithStreak(ms[1..], k)
    ensures WithStreak(InsertByStreak(m, ms), k)
         == (if m.streak == k then [m] else []) + WithStreak(ms, k)
  {
    InsertGoesBehind(m, ms);
    SameHeadKeepsTies(m, ms, InsertByStreak(m, ms[1..]), k);
  }

  /** A head ranked above `m` stays in front on both sides of the tie relation. */
  lemma SameHeadKeepsTies(m: Member, ms: seq<Member>, rest: seq<Member>, k: nat)
    requires |ms| > 0 && m.streak < ms[0].streak
    requires WithStreak(rest, k) == (if m.streak == k then [m] else []) + WithStreak(ms[1..], k)
    ensures WithStreak([ms[0]] + rest, k) == (if m.streak == k then [m] else []) + WithStreak(ms, k)
  {
    var h, tail := ms[0], ms[1..];
    assert ms == [h] + tail;
    WithStreakCons(h, rest, k);
    WithStreakCons(h, tail, k);
    if h.streak == k {
      assert WithStreak(rest, k) == WithStreak(tail, k);
    } else {
      assert WithStreak([h] + rest, k) == WithStreak(rest, k);
      assert WithStreak([h] + tail, k) == WithStreak(tail, k);
    }
  }

  /** The members with streak `k` of a registry with head `h`. */
  lemma WithStreakCons(h: Member, ms: seq<Member>, k: nat)
    ensures WithStreak([h] + ms, k) == (if h.streak == k then [h] else []) + WithStreak(ms, k)
  {
    Seqs.FilterCons(h, ms, StreakIs(k));
  }

  /** A member that ranks below the head is inserted into the tail. */
  lemma InsertGoesBehind(m: Member, ms: seq<Member>)
    requires |ms| > 0 && m.streak < ms[0].streak
    ensures InsertByStreak(m, ms) == [ms[0]] + InsertByStreak(m, ms[1..])
  {
  }

  /** The ranking is stable: members with equal streaks keep their
      relative order from the registry. */
  lemma {:induction false} RankIsStable(ms: seq<Member>, k: nat)
    ensures WithStreak(RankByStreak(ms), k) == WithStreak(ms, k)
    decreases |ms|
  {
    if |ms| > 0 {
      RankIsStable(ms[1..], k);
      InsertKeepsTies(ms[0], RankByStreak(ms[1..]), k);
    }
  }
}
