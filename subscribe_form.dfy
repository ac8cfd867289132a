/** The subscription form of the web front end (frontend/src/components/SubscribeForm.jsx):
    the toggle of a store or game-system id in a selection, and the state changes of
    a submission. The form's state is a class whose methods are its handlers; the
    outcome of the POST /subscribe call is a parameter. */
module SubscribeForm {
  import opened Wrappers
  import opened Sequences

  // ---------------------------------------------------------------------------
  // toggleId
  // ---------------------------------------------------------------------------

  /** The ids other than id. */
  function Other(id: int): int -> bool {
    x => x != id
  }

  /** toggleId: prev.includes(id) ? prev.filter((x) => x !== id) : [...prev, id] */
  function ToggleId(list: seq<int>, id: int): (r: seq<int>)
    ensures id in r <==> id !in list
    ensures forall x :: x != id ==> (x in r <==> x in list)
    ensures id !in list ==> r == list + [id]
  {
    if id in list then Filter(list, Other(id)) else list + [id]
  }

  /** Filtering an id out removes all its occurrences and keeps every other one. */
  lemma {:induction false} FilterOtherCounts(s: seq<int>, id: int)
    ensures multiset(Filter(s, Other(id))) == multiset(s)[id := 0]
    decreases |s|
  {
    if s != [] {
      FilterOtherCounts(s[1..], id);
      assert s == [s[0]] + s[1..];
      assert multiset(s) == multiset([s[0]]) + multiset(s[1..]);
    }
  }

  /** Removing a selected id takes out every occurrence of it and leaves each other
      id as often as it was there. */
  lemma ToggleIdRemovesAll(list: seq<int>, id: int)
    requires id in list
    ensures multiset(ToggleId(list, id)) == multiset(list)[id := 0]
  {
    FilterOtherCounts(list, id);
  }

  /** Filtering out an id that occurs once closes the gap it leaves. */
  lemma FilterOtherSingle(before: seq<int>, id: int, after: seq<int>)
    requires id !in before && id !in after
    ensures Filter(before + [id] + after, Other(id)) == before + after
  {
    var keep := Other(id);
    assert [id][1..] == [];
    assert Filter([id], keep) == [];
    calc {
      Filter(before + [id] + after, keep);
      { FilterAppend(before + [id], after, keep); }
      Filter(before + [id], keep) + Filter(after, keep);
      { FilterAppend(before, [id], keep); }
      Filter(before, keep) + Filter([id], keep) + Filter(after, keep);
      { FilterAll(before, keep); FilterAll(after, keep); }
      before + [] + after;
    }
    assert before + [] + after == before + after;
  }

  /** Removing an id selected once leaves the ids before and after it in place. */
  lemma ToggleIdKeepsOrder(before: seq<int>, id: int, after: seq<int>)
    requires id !in before && id !in after
    ensures ToggleId(before + [id] + after, id) == before + after
  {
    assert (before + [id] + after)[|before|] == id;
    FilterOtherSingle(before, id, after);
  }

  /** Toggling an unselected id twice gives the selection back. */
  lemma ToggleIdTwice(list: seq<int>, id: int)
    requires id !in list
    ensures ToggleId(ToggleId(list, id), id) == list
  {
    FilterAppend(list, [id], Other(id));
    FilterAll(list, Other(id));
    assert Filter([id], Other(id)) == [];
  }

  // ---------------------------------------------------------------------------
  // handleSubmit
  // ---------------------------------------------------------------------------

  /** null | 'loading' | 'success' | 'error' */
  datatype Status = Loading | Success | Error

  /** What subscribe(email, selectedStores, selectedGames) posts. */
  datatype Request = Request(email: string, locationIds: seq<int>, gameSystemIds: seq<int>)

  /** How the call ended: it resolved, or it rejected with the response's detail
      (None when the error has no response detail). */
  datatype Outcome = Subscribed | Failed(detail: Option<string>)

  /** The message shown after a failure. */
  const DefaultError := "Something went wrong. Please try again."

  /** err?.response?.data?.detail || 'Something went wrong. Please try again.' */
  function ErrorMessage(detail: Option<string>): (msg: string)
    ensures msg != ""
    ensures detail.Some? && detail.value != "" ==> msg == detail.value
  {
    if detail.Some? && detail.value != "" then detail.value else DefaultError
  }

  class FormState {
    var email: string
    var selectedStores: seq<int>
    var selectedGames: seq<int>
    var status: Option<Status>
    var errorMsg: string

    /** The first render: everything empty. */
    constructor()
      ensures email == "" && selectedStores == [] && selectedGames == []
      ensures status == None && errorMsg == ""
    {
      email := "";
      selectedStores := [];
      selectedGames := [];
      status := None;
      errorMsg := "";
    }

    /** The store button: toggles the id in the store selection only. */
    method ToggleStore(id: int)
      modifies this
      ensures selectedStores == ToggleId(old(selectedStores), id)
      ensures email == old(email) && selectedGames == old(selectedGames)
      ensures status == old(status) && errorMsg == old(errorMsg)
    {
      selectedStores := ToggleId(selectedStores, id);
    }

    /** The game-system button: toggles the id in the game selection only. */
    method ToggleGame(id: int)
      modifies this
      ensures selectedGames == ToggleId(old(selectedGames), id)
      ensures email == old(email) && selectedStores == old(selectedStores)
      ensures status == old(status) && errorMsg == old(errorMsg)
    {
      selectedGames := ToggleId(selectedGames, id);
    }

    /** handleSubmit: an empty email sends nothing and changes nothing. Otherwise the
        current email and selections are posted; success empties the form and
        shows 'success', failure shows 'error' with its message and keeps what was
        entered. */
    method Submit(outcome: Outcome) returns (sent: Option<Request>)
      modifies this
      ensures old(email) == "" ==> sent == None
      ensures old(email) == "" ==>
        email == old(email) && selectedStores == old(selectedStores) && selectedGames == old(selectedGames)
        && status == old(status) && errorMsg == old(errorMsg)
      ensures old(email) != "" ==> sent == Some(Request(old(email), old(selectedStores), old(selectedGames)))
      ensures old(email) != "" && outcome.Subscribed? ==>
        status == Some(Success) && email == "" && selectedStores == [] && selectedGames == [] && errorMsg == ""
      ensures old(email) != "" && outcome.Failed? ==>
        status == Some(Error) && errorMsg == ErrorMessage(outcome.detail)
        && email == old(email) && selectedStores == old(selectedStores) && selectedGames == old(selectedGames)
    {
      if email == "" {
        return None;
      }
      status := Some(Loading);
      errorMsg := "";
      sent := Some(Request(email, selectedStores, selectedGames));
      match outcome
      case Subscribed =>
        status := Some(Success);
        email := "";
        selectedStores := [];
        selectedGames := [];
      case Failed(detail) =>
        status := Some(Error);
        errorMsg := ErrorMessage(detail);
    }

    /** "Subscribe another email": back to the form. */
    method SubscribeAnother()
      modifies this
      ensures status == None
      ensures email == old(email) && selectedStores == old(selectedStores) && selectedGames == old(selectedGames)
      ensures errorMsg == old(errorMsg)
    {
      status := None;
    }
  }
}
