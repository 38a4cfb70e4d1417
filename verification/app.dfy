/**
  The top-level state of src/App.jsx: the user collection, the loading flag,
  the add modal and its draft, driven by the fetch result, the add form and
  the effects the user cards report.

  The fetch itself is I/O; it enters the model only as its settled result.
 */
module App {
  import opened Users
  import opened Collection
  import Card

  /** How the one fetch of the user page settled. */
  datatype Fetch = Fetched(page: seq<User>) | FetchFailed

  datatype AppState = AppState(
    users: seq<User>,
    loading: bool,
    showAddModal: bool,
    newUser: Profile)

  datatype Event =
    | FetchSettled(result: Fetch)
    | OpenAdd
    | CloseAdd                      // the Cancel button and the modal's own close
    | AddInput(field: TextField, value: string)
    | AddNestedInput(path: NestedPath, value: string)
    | SubmitAdd
    | FromCard(effect: Card.Effect)

  /** The state before the fetch settles: no users, loading, a blank draft. */
  function Init(): (s: AppState)
    ensures s.users == [] && s.loading && !s.showAddModal
    ensures forall f :: Get(s.newUser, f) == ""
    ensures forall path :: GetNested(s.newUser, path) == ""
  {
    AppState([], true, false, Blank())
  }

  /** The app's reaction to one event. */
  function Step(s: AppState, e: Event): (r: AppState)
    // only a settled fetch clears the loading flag; a failed one keeps the users
    ensures r.loading == (s.loading && !e.FetchSettled?)
    ensures e == FetchSettled(FetchFailed) ==> r.users == s.users
    ensures e.FetchSettled? && e.result.Fetched? ==> r.users == e.result.page
    // a settled fetch touches nothing but the users and the loading flag
    ensures e.FetchSettled? ==> r == s.(users := r.users, loading := false)
    // the add form's inputs edit only the draft
    ensures e.AddInput? || e.AddNestedInput? ==> r.users == s.users && r.showAddModal == s.showAddModal
    ensures e.AddInput? ==> r.newUser == SetField(s.newUser, e.field, e.value)
    ensures e.AddNestedInput? ==> r.newUser == SetNested(s.newUser, e.path, e.value)
    // cancelling the add modal keeps the draft
    ensures e == OpenAdd ==> r == s.(showAddModal := true)
    ensures e == CloseAdd ==> r == s.(showAddModal := false)
    // adding appends one record, resets the draft to the initial one, closes the modal
    ensures e == SubmitAdd ==> |r.users| == |s.users| + 1 && r.users[..|s.users|] == s.users
    ensures e == SubmitAdd ==> r.users[|s.users|] == User(NextId(s.users), s.newUser)
    ensures e == SubmitAdd ==> r.newUser == Init().newUser && !r.showAddModal
    // card effects reach only the collection
    ensures e.FromCard? ==> r == s.(users := r.users)
    ensures e == FromCard(Card.NoEffect) ==> r == s
    ensures e.FromCard? && e.effect.UpdateUser? ==> r.users == Update(s.users, e.effect.updated)
    ensures e.FromCard? && e.effect.DeleteUser? ==> r.users == Delete(s.users, e.effect.id)
  {
    match e
    case FetchSettled(Fetched(page)) => s.(users := page, loading := false)
    case FetchSettled(FetchFailed) => s.(loading := false)
    case OpenAdd => s.(showAddModal := true)
    case CloseAdd => s.(showAddModal := false)
    case AddInput(f, v) => s.(newUser := SetField(s.newUser, f, v))
    case AddNestedInput(path, v) => s.(newUser := SetNested(s.newUser, path, v))
    case SubmitAdd => s.(users := Add(s.users, s.newUser), newUser := Blank(), showAddModal := false)
    case FromCard(effect) =>
      if effect.UpdateUser? then s.(users := Update(s.users, effect.updated))
      else if effect.DeleteUser? then s.(users := Delete(s.users, effect.id))
      else s
  }

  /** The app after a sequence of events. */
  function Run(s: AppState, events: seq<Event>): (r: AppState)
    decreases |events|
  {
    if |events| == 0 then s else Run(Step(s, events[0]), events[1..])
  }

  /** The one assumption on the outside world: a fetched page has strictly
      increasing ids (the demo API returns ids 1 to 10 in order). */
  predicate Admissible(e: Event) {
    e.FetchSettled? && e.result.Fetched? ==> IdsIncreasing(e.result.page)
  }

  /** Every event keeps the ids strictly increasing; in particular an update
      from a card keeps them whether or not its id is present. */
  lemma StepPreservesIncreasing(s: AppState, e: Event)
    requires IdsIncreasing(s.users)
    requires Admissible(e)
    ensures IdsIncreasing(Step(s, e).users)
  {
    match e
    case SubmitAdd => AddPreservesIncreasing(s.users, s.newUser);
    case FromCard(effect) =>
      if effect.UpdateUser? {
        UpdatePreservesIncreasing(s.users, effect.updated);
      } else if effect.DeleteUser? {
        DeletePreservesIncreasing(s.users, effect.id);
      }
    case _ =>
  }

  lemma {:induction false} RunPreservesIncreasing(s: AppState, events: seq<Event>)
    requires IdsIncreasing(s.users)
    requires forall i :: 0 <= i < |events| ==> Admissible(events[i])
    ensures IdsIncreasing(Run(s, events).users)
    decreases |events|
  {
    if |events| > 0 {
      StepPreservesIncreasing(s, events[0]);
      RunPreservesIncreasing(Step(s, events[0]), events[1..]);
    }
  }

  /** In every reachable state ids are unique, and the id the add form would
      assign next is "largest + 1" and not yet in use. */
  lemma ReachableIdsUniqueAndNextFresh(events: seq<Event>)
    requires forall i :: 0 <= i < |events| ==> Admissible(events[i])
    ensures UniqueIds(Run(Init(), events).users)
    ensures NextId(Run(Init(), events).users) == MaxPlusOne(Run(Init(), events).users)
    ensures !HasId(Run(Init(), events).users, NextId(Run(Init(), events).users))
  {
    var users := Run(Init(), events).users;
    RunPreservesIncreasing(Init(), events);
    IncreasingImpliesUnique(users);
    NextIdIsMaxPlusOne(users);
  }

  /** With unique non-zero ids, the cards of a collection all have different
      avatar URLs. */
  lemma CardAvatarsDistinct(users: seq<User>)
    requires UniqueIds(users)
    requires forall i :: 0 <= i < |users| ==> users[i].id != 0
    ensures forall i, j :: 0 <= i < j < |users| ==> Card.AvatarUrl(users[i]) != Card.AvatarUrl(users[j])
  {
    forall i, j | 0 <= i < j < |users|
      ensures Card.AvatarUrl(users[i]) != Card.AvatarUrl(users[j])
    {
      Card.DistinctIdsDistinctAvatars(users[i], users[j]);
    }
  }

  /** The demo API's ids are positive: a fetched page carries no id 0. */
  predicate PositivePage(e: Event) {
    e.FetchSettled? && e.result.Fetched? ==> IdsPositive(e.result.page)
  }

  /** Every event keeps every id positive, given a page of positive ids. */
  lemma StepKeepsPositive(s: AppState, e: Event)
    requires IdsPositive(s.users)
    requires PositivePage(e)
    ensures IdsPositive(Step(s, e).users)
  {
    match e
    case SubmitAdd => AddKeepsPositive(s.users, s.newUser);
    case FromCard(effect) =>
      if effect.UpdateUser? {
        UpdateKeepsPositive(s.users, effect.updated);
      } else if effect.DeleteUser? {
        DeleteKeepsPositive(s.users, effect.id);
      }
    case _ =>
  }

  lemma {:induction false} RunKeepsPositive(s: AppState, events: seq<Event>)
    requires IdsPositive(s.users)
    requires forall i :: 0 <= i < |events| ==> PositivePage(events[i])
    ensures IdsPositive(Run(s, events).users)
    decreases |events|
  {
    if |events| > 0 {
      StepKeepsPositive(s, events[0]);
      RunKeepsPositive(Step(s, events[0]), events[1..]);
    }
  }

  /** In every reachable state the cards have pairwise different avatar URLs:
      ids are unique and never the falsy 0, so no seed falls back to a name. */
  lemma ReachableAvatarsDistinct(events: seq<Event>)
    requires forall i :: 0 <= i < |events| ==> Admissible(events[i]) && PositivePage(events[i])
    ensures var users := Run(Init(), events).users;
            forall i, j :: 0 <= i < j < |users| ==> Card.AvatarUrl(users[i]) != Card.AvatarUrl(users[j])
  {
    var users := Run(Init(), events).users;
    ReachableIdsUniqueAndNextFresh(events);
    RunKeepsPositive(Init(), events);
    CardAvatarsDistinct(users);
  }

  /** A failed fetch leaves an empty collection and stops loading. */
  lemma FetchFailureLeavesEmpty()
    ensures Step(Init(), FetchSettled(FetchFailed)).users == []
    ensures !Step(Init(), FetchSettled(FetchFailed)).loading
  {
  }

  /** Adding to `[1]` appends a record with id 2. */
  lemma AddAfterOne(p: Profile, q: Profile)
    ensures var s := AppState([User(1, p)], false, true, q);
            Step(s, SubmitAdd).users == [User(1, p), User(2, q)]
  {
  }

  /** From `[1, 2, 3]`, deleting 2 gives `[1, 3]`, and the next add assigns 4. */
  lemma DeleteThenAdd(p: Profile, q: Profile)
    ensures var s := AppState([User(1, p), User(2, p), User(3, p)], false, false, q);
            var s1 := Step(s, FromCard(Card.DeleteUser(2)));
            && s1.users == [User(1, p), User(3, p)]
            && Step(s1, SubmitAdd).users == [User(1, p), User(3, p), User(4, q)]
  {
    var users := [User(1, p), User(2, p), User(3, p)];
    assert users[1..][1..] == [User(3, p)];
    assert [User(3, p)][1..] == [];
  }
}
