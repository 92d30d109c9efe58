/**
 * The `useUrl` hook and the filter controls' callbacks: the filter state lives in
 * the address's query string, edits push a new query string, and a history
 * listener decodes the query string back into state.
 */
module UseUrl {
  import opened Optional
  import opened JsObject
  import opened QueryString

  /** The `{...state, [field]: value}` object both controls hand to `setState`. */
  function WithField(state: Object, field: string, value: string): (r: Object)
    ensures Lookup(r, field) == Some(value)
    ensures forall k :: k != field ==> Lookup(r, k) == Lookup(state, k)
    ensures Keys(r) == if field in Keys(state) then Keys(state) else Keys(state) + [field]
    ensures DistinctKeys(state) ==> DistinctKeys(r)
  {
    AssignLookup(state, field, Some(value));
    AssignDistinctKeys(state, field, Some(value));
    AssignKeys(state, field, Some(value));
    Assign(state, field, Some(value))
  }

  /** Search's `onApply`: only `title` changes, to the submitted text (which may be empty). */
  function SubmitSearch(state: Object, value: string): (r: Object)
    ensures Lookup(r, "title") == Some(value)
    ensures forall k :: k != "title" ==> Lookup(r, k) == Lookup(state, k)
    ensures Keys(r) == if "title" in Keys(state) then Keys(state) else Keys(state) + ["title"]
  {
    WithField(state, "title", value)
  }

  /** DoneFilter's `onApply`: only `done` changes; `value as Done` checks nothing, so any string is stored. */
  function ChooseDone(state: Object, value: string): (r: Object)
    ensures Lookup(r, "done") == Some(value)
    ensures forall k :: k != "done" ==> Lookup(r, k) == Lookup(state, k)
    ensures Keys(r) == if "done" in Keys(state) then Keys(state) else Keys(state) + ["done"]
  {
    WithField(state, "done", value)
  }

  /**
   * The history listener: it decodes the new query string only when it differs
   * from the query string of the location it was registered with. Skipping the
   * decode is safe: a state decoded from the current query string is, afterwards,
   * the decoding of the new one either way.
   */
  function OnLocationChange(state: Object, currentSearch: string, newSearch: string): (r: Object)
    ensures currentSearch == newSearch ==> r == state
    ensures currentSearch != newSearch ==> r == Decode(newSearch)
    ensures state == Decode(currentSearch) ==> r == Decode(newSearch)
  {
    if currentSearch != newSearch then Decode(newSearch) else state
  }

  /** The hook's state together with the query string of the location of the last render. */
  datatype UrlState = UrlState(state: Object, search: string)

  /** The state is the decoding of the current query string. */
  predicate InSync(u: UrlState)
  {
    u.state == Decode(u.search)
  }

  /** On mount the state is decoded from the location's query string. */
  function Mount(search: string): (u: UrlState)
    ensures InSync(u) && u.search == search
  {
    UrlState(Decode(search), search)
  }

  /** A location change reaching the listener; the next render sees the new location. */
  function Navigate(u: UrlState, newSearch: string): (u': UrlState)
    ensures u'.search == newSearch
    ensures InSync(u) ==> InSync(u')
    ensures newSearch == u.search ==> u' == u
  {
    UrlState(OnLocationChange(u.state, u.search, newSearch), newSearch)
  }

  /** `setState(newState)`: push the encoding of `newState`, which the listener then receives. */
  function SetState(u: UrlState, newState: Object): (u': UrlState)
    ensures u'.search == Encode(newState)
    ensures InSync(u) ==> u'.state == Decode(Encode(newState))
  {
    Navigate(u, Encode(newState))
  }

  /** The same query string arriving twice updates the state at most once. */
  lemma NavigateTwice(u: UrlState, search: string)
    ensures Navigate(Navigate(u, search), search) == Navigate(u, search)
  {
  }

  lemma PlainFieldNames()
    ensures PlainKey("title") && PlainKey("done")
  {
    assert !('0' <= "title"[0] <= '9');
    assert !('0' <= "done"[0] <= '9');
  }

  /**
   * Setting one field and pushing the result: once the listener has run, the field
   * holds the new value (or is gone when the value is empty), and every other
   * property holds what it held before if that was a non-empty string and is gone otherwise.
   */
  lemma SetFieldThenNavigate(u: UrlState, field: string, value: string)
    requires InSync(u) && PlainObject(u.state) && PlainKey(field) && PlainValue(value)
    ensures var s := SetState(u, WithField(u.state, field, value)).state;
      && Lookup(s, field) == (if value == "" then None else Some(value))
      && forall k :: k != field ==> Lookup(s, k) == (if Truthy(Lookup(u.state, k)) then Lookup(u.state, k) else None)
  {
    var next := WithField(u.state, field, value);
    AssignOthers(u.state, field, Some(value));
    forall i | 0 <= i < |next|
      ensures PlainKey(next[i].key) && (next[i].value.Some? ==> PlainValue(next[i].value.value))
    {
      assert next[i] in u.state || next[i] == Entry(field, Some(value));
    }
    assert PlainObject(next);
    RoundTrip(next);
    forall k
      ensures Lookup(Decode(Encode(next)), k) == if Truthy(Lookup(next, k)) then Lookup(next, k) else None
    {
      LookupCompact(next, k);
    }
  }

  /** Submitting a search: afterwards `title` is the submitted text, or absent when it was empty. */
  lemma SearchSubmitted(u: UrlState, value: string)
    requires InSync(u) && PlainObject(u.state) && PlainValue(value)
    ensures var s := SetState(u, SubmitSearch(u.state, value)).state;
      && Lookup(s, "title") == (if value == "" then None else Some(value))
      && forall k :: k != "title" ==> Lookup(s, k) == (if Truthy(Lookup(u.state, k)) then Lookup(u.state, k) else None)
  {
    PlainFieldNames();
    SetFieldThenNavigate(u, "title", value);
  }

  /** Choosing a done value: afterwards `done` is the chosen value, or absent for the empty option. */
  lemma DoneChosen(u: UrlState, value: string)
    requires InSync(u) && PlainObject(u.state) && PlainValue(value)
    ensures var s := SetState(u, ChooseDone(u.state, value)).state;
      && Lookup(s, "done") == (if value == "" then None else Some(value))
      && forall k :: k != "done" ==> Lookup(s, k) == (if Truthy(Lookup(u.state, k)) then Lookup(u.state, k) else None)
  {
    PlainFieldNames();
    SetFieldThenNavigate(u, "done", value);
  }
}
