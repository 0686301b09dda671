/** The member registry: the three default members created on first run,
    what is restored from storage at start-up, and adding and removing
    members (app.js:51-131). */
module Registry {
  import opened Ledger
  import opened Text
  import Seqs

  /** The members created when no registry has been stored yet: ids 1 to 3,
      named "Member 1" to "Member 3", every counter at zero. */
  function DefaultMembers(): (ms: seq<Member>)
    ensures |ms| == 3
    ensures forall i | 0 <= i < |ms| :: ms[i].id == i + 1 && Zeroed(ms[i])
    ensures ms[0].name == "Member 1" && ms[1].name == "Member 2" && ms[2].name == "Member 3"
    ensures MemberIdsUnique(ms)
  {
    [ Member(1, "Member 1", 0, 0, 0, 0, 0),
      Member(2, "Member 2", 0, 0, 0, 0, 0),
      Member(3, "Member 3", 0, 0, 0, 0, 0) ]
  }

  /** What a storage key yields at start-up: nothing, text that does not
      parse, or a parsed collection. */
  datatype Stored<T> = Absent | Corrupt | Present(value: T)

  /** The state restored at start-up, and whether the default registry is
      written back to storage. */
  datatype Loaded = Loaded(state: State, writesDefaults: bool)

  /** Start-up: a stored registry is taken as is, an absent one is replaced
      by the defaults (which are then stored). A parse failure of either key
      lands in the error handler, which installs the default members; the
      ledger is then left at its initial empty value unless it had already
      been parsed. The members key is read first, so a corrupt ledger is
      only noticed after an absent registry has been written back. */
  function Load(members: Stored<seq<Member>>, challenges: Stored<seq<Challenge>>): (r: Loaded)
    ensures members.Present? && !challenges.Corrupt? ==> r.state.members == members.value
    ensures !members.Present? || challenges.Corrupt? ==> r.state.members == DefaultMembers()
    ensures challenges.Present? && !members.Corrupt? ==> r.state.challenges == challenges.value
    ensures !challenges.Present? || members.Corrupt? ==> r.state.challenges == []
    ensures r.writesDefaults <==> members.Absent?
  {
    if members.Corrupt? then Loaded(State(DefaultMembers(), []), false)
    else
      var ms := if members.Present? then members.value else DefaultMembers();
      var writes := members.Absent?;
      match challenges
      case Corrupt => Loaded(State(DefaultMembers(), []), writes)
      case Absent => Loaded(State(ms, []), writes)
      case Present(cs) => Loaded(State(ms, cs), writes)
  }

  /** `addMember`: a blank name is rejected; otherwise one member with the
      fresh id, the trimmed name and zeroed counters is appended and nothing
      else changes. */
  function AddMember(s: State, name: string, freshId: int): (r: Result<State>)
    ensures r.Err? <==> IsBlank(name)
    ensures r.Err? ==> r.error == EmptyName
    ensures r.Ok? ==> r.value.challenges == s.challenges
    ensures r.Ok? ==> |r.value.members| == |s.members| + 1
    ensures r.Ok? ==> r.value.members[..|s.members|] == s.members
    ensures r.Ok? ==> var m := r.value.members[|s.members|];
      m.id == freshId && m.name == Trim(name) && m.name != [] && Zeroed(m)
  {
    TrimEmptyIff(name);
    var trimmed := Trim(name);
    if trimmed == [] then Err(EmptyName)
    else
      var m := Member(freshId, trimmed, 0, 0, 0, 0, 0);
      assert (s.members + [m])[..|s.members|] == s.members;
      Ok(State(s.members + [m], s.challenges))
  }

  /** The registry without member `id`, in the original order. */
  function WithoutMember(ms: seq<Member>, id: int): seq<Member> {
    Seqs.Filter(ms, (m: Member) => m.id != id)
  }

  /** The ledger without the challenges owned by member `id`, in the original order. */
  function WithoutChallengesOf(cs: seq<Challenge>, id: int): seq<Challenge> {
    Seqs.Filter(cs, (c: Challenge) => c.memberId != id)
  }

  /** `removeMember`, with the confirmation dialog replaced by `force`. A
      member who owns challenges is only removed when `force` is set; when
      such challenges exist but the member does not, reading the member's
      name fails before anything changes. Otherwise exactly the member and
      exactly its challenges disappear. */
  function RemoveMember(s: State, id: int, force: bool): (r: Result<State>)
    ensures r.Err? <==> OwnedCount(s.challenges, id) > 0 && (!force || !HasMember(s.members, id))
    ensures r.Err? ==> r.error == (if HasMember(s.members, id) then Declined else NotFound)
    ensures r.Ok? ==> forall m :: m in r.value.members <==> m in s.members && m.id != id
    ensures r.Ok? ==> forall c :: c in r.value.challenges <==> c in s.challenges && c.memberId != id
    ensures r.Ok? ==> |r.value.challenges| == |s.challenges| - OwnedCount(s.challenges, id)
    ensures r.Ok? && MemberIdsUnique(s.members) && HasMember(s.members, id) ==>
      |r.value.members| == |s.members| - 1
  {
    var owned := OwnedCount(s.challenges, id);
    var found := FindMember(s.members, id);
    if owned > 0 && found.None? then Err(NotFound)
    else if owned > 0 && !force then Err(Declined)
    else
      var ms := WithoutMember(s.members, id);
      var cs := WithoutChallengesOf(s.challenges, id);
      Seqs.FilterLength(s.challenges, (c: Challenge) => c.memberId == id);
      Seqs.FilterComplement(s.challenges, (c: Challenge) => c.memberId == id, (c: Challenge) => c.memberId != id);
      if MemberIdsUnique(s.members) && found.Some? then
        var k :| 0 <= k < |s.members| && s.members[k] == found.value;
        OneMatchRemoved(s.members, id, k);
        Ok(State(ms, cs))
      else Ok(State(ms, cs))
  }

  /** Removing a member whose id occurs once shortens the registry by one. */
  lemma {:induction false} OneMatchRemoved(ms: seq<Member>, id: int, k: nat)
    requires MemberIdsUnique(ms) && k < |ms| && ms[k].id == id
    ensures |WithoutMember(ms, id)| == |ms| - 1
    decreases |ms|
  {
    if k == 0 {
      Seqs.FilterAll(ms[1..], (m: Member) => m.id != id);
    } else {
      OneMatchRemoved(ms[1..], id, k - 1);
    }
  }

  /** Removal keeps the relative order of the remaining members and
      challenges: removing from a concatenation removes from each part. */
  lemma RemoveMemberKeepsOrder(s: State, id: int, force: bool,
                               ma: seq<Member>, mb: seq<Member>,
                               ca: seq<Challenge>, cb: seq<Challenge>)
    requires s.members == ma + mb && s.challenges == ca + cb
    requires RemoveMember(s, id, force).Ok?
    ensures RemoveMember(s, id, force).value.members == WithoutMember(ma, id) + WithoutMember(mb, id)
    ensures RemoveMember(s, id, force).value.challenges
         == WithoutChallengesOf(ca, id) + WithoutChallengesOf(cb, id)
  {
    Seqs.FilterConcat(ma, mb, (m: Member) => m.id != id);
    Seqs.FilterConcat(ca, cb, (c: Challenge) => c.memberId != id);
  }
}
