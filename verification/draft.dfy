/** The draft list of problems a member assembles before submitting a
    challenge (app.js:167-183). */
module Draft {
  import opened Ledger
  import opened Text

  /** `addProblemToList`: a blank title is rejected first, then a full
      draft; otherwise the problem is appended unsolved. The title is stored
      as typed: only the emptiness test trims it. */
  function AddProblemToList(list: seq<Problem>, title: string, link: string, difficulty: Difficulty)
    : (r: Result<seq<Problem>>)
    ensures r.Err? <==> IsBlank(title) || |list| >= ProblemsPerChallenge
    ensures IsBlank(title) ==> r == Err(EmptyTitle)
    ensures !IsBlank(title) && |list| >= ProblemsPerChallenge ==> r == Err(ListFull)
    ensures r.Ok? ==> |r.value| == |list| + 1 <= ProblemsPerChallenge
    ensures r.Ok? ==> r.value[..|list|] == list
    ensures r.Ok? ==> var p := r.value[|list|];
      p.title == title && p.link == link && p.difficulty == difficulty && !p.solved
  {
    TrimEmptyIff(title);
    if Trim(title) == [] then Err(EmptyTitle)
    else if |list| >= ProblemsPerChallenge then Err(ListFull)
    else
      assert (list + [Problem(title, link, difficulty, false)])[..|list|] == list;
      Ok(list + [Problem(title, link, difficulty, false)])
  }

  /** `removeProblem`: keep every entry whose position differs from
      `index`. An index outside the list removes nothing. */
  function RemoveProblem(list: seq<Problem>, index: int): (r: seq<Problem>)
    ensures 0 <= index < |list| ==> r == list[..index] + list[index + 1..]
    ensures !(0 <= index < |list|) ==> r == list
    decreases |list|
  {
    if |list| == 0 then []
    else (if index == 0 then [] else [list[0]]) + RemoveProblem(list[1..], index - 1)
  }

  /** A draft as the form keeps it: at most six problems, none solved. */
  predicate DraftValid(list: seq<Problem>) {
    |list| <= ProblemsPerChallenge && forall i | 0 <= i < |list| :: !list[i].solved
  }

  /** One edit of the draft form; a rejected addition leaves the draft as it was. */
  datatype DraftEdit = Add(title: string, link: string, difficulty: Difficulty) | Remove(index: int)

  function ApplyEdit(list: seq<Problem>, e: DraftEdit): seq<Problem> {
    match e
    case Add(t, l, d) =>
      var r := AddProblemToList(list, t, l, d);
      if r.Ok? then r.value else list
    case Remove(i) => RemoveProblem(list, i)
  }

  function ApplyEdits(list: seq<Problem>, es: seq<DraftEdit>): seq<Problem>
    decreases |es|
  {
    if |es| == 0 then list else ApplyEdits(ApplyEdit(list, es[0]), es[1..])
  }

  /** A single edit keeps the draft valid. */
  lemma EditKeepsDraftValid(list: seq<Problem>, e: DraftEdit)
    requires DraftValid(list)
    ensures DraftValid(ApplyEdit(list, e))
  {
    var next := ApplyEdit(list, e);
    match e
    case Add(t, l, d) =>
      var r := AddProblemToList(list, t, l, d);
      if r.Ok? {
        assert next == list + [next[|list|]];
      }
    case Remove(i) =>
      if 0 <= i < |list| {
        assert forall k | 0 <= k < |next| :: next[k] == (if k < i then list[k] else list[k + 1]);
      }
  }

  /** Whatever edits are made, starting from a valid draft (the empty one in
      particular) the draft never holds more than six problems and never a
      solved one. */
  lemma {:induction false} EditsKeepDraftValid(list: seq<Problem>, es: seq<DraftEdit>)
    requires DraftValid(list)
    ensures DraftValid(ApplyEdits(list, es))
    decreases |es|
  {
    if |es| > 0 {
      EditKeepsDraftValid(list, es[0]);
      EditsKeepDraftValid(ApplyEdit(list, es[0]), es[1..]);
    }
  }
}
