/** The list screen's two-stage filter over the todo fixture. */
module TodoList {
  import opened Optional
  import opened Sequences
  import opened JsObject

  /** The `Done` string type: `"yes" | "no"`. */
  datatype Done = Yes | No

  function DoneText(d: Done): string
  {
    match d
    case Yes => "yes"
    case No => "no"
  }

  /** A todo; its `done` field is optional. */
  datatype Todo = Todo(title: string, done: Option<Done>)

  /** `t.done === value`: an absent `done` equals no string. */
  predicate DoneIs(t: Todo, value: string)
  {
    t.done.Some? && DoneText(t.done.value) == value
  }

  /**
   * The criterion a visible todo meets, stated once for both fields: a field of the
   * filter state constrains the list only when it holds a non-empty string.
   */
  predicate Matches(t: Todo, state: Object)
  {
    && (Truthy(Lookup(state, "title")) ==> t.title == Lookup(state, "title").value)
    && (Truthy(Lookup(state, "done")) ==> DoneIs(t, Lookup(state, "done").value))
  }

  /** The first stage: `state.title ? todos.filter((t) => t.title == state.title) : todos`. */
  function ByTitle(todos: seq<Todo>, state: Object): seq<Todo>
  {
    var title := Lookup(state, "title");
    if Truthy(title) then
      var wanted := title.value;
      Select(todos, (t: Todo) => t.title == wanted)
    else todos
  }

  /** The second stage: `state.done ? filtered.filter((t) => t.done === state.done) : filtered`. */
  function ByDone(todos: seq<Todo>, state: Object): seq<Todo>
  {
    var done := Lookup(state, "done");
    if Truthy(done) then
      var wanted := done.value;
      Select(todos, (t: Todo) => DoneIs(t, wanted))
    else todos
  }

  /** The two stages together select, in one pass, exactly the todos that match the state. */
  lemma StagesAreOnePass(todos: seq<Todo>, state: Object)
    ensures ByDone(ByTitle(todos, state), state) == Select(todos, (t: Todo) => Matches(t, state))
  {
    var title := Lookup(state, "title");
    var done := Lookup(state, "done");
    var matches := (t: Todo) => Matches(t, state);
    if Truthy(title) && Truthy(done) {
      SelectSelect(todos, (t: Todo) => t.title == title.value, (t: Todo) => DoneIs(t, done.value), matches);
    } else if Truthy(title) {
      SelectSamePredicate(todos, (t: Todo) => t.title == title.value, matches);
    } else if Truthy(done) {
      SelectSamePredicate(todos, (t: Todo) => DoneIs(t, done.value), matches);
    } else {
      SelectAll(todos, matches);
    }
  }

  /** No todo's `done` reads as a string other than `"yes"` or `"no"`. */
  lemma UnknownDoneMatchesNothing(todos: seq<Todo>, state: Object)
    ensures Truthy(Lookup(state, "done")) && Lookup(state, "done").value !in {"yes", "no"}
      ==> Select(todos, (t: Todo) => Matches(t, state)) == []
  {
    var r := Select(todos, (t: Todo) => Matches(t, state));
    assert |r| > 0 ==> Matches(r[0], state);
  }

  /**
   * `filtered` on the list screen: the todos that meet every criterion the state
   * sets, in their original order; a `done` criterion outside `"yes"`/`"no"` shows
   * nothing, and a state setting neither field shows every todo.
   */
  function Visible(todos: seq<Todo>, state: Object): (r: seq<Todo>)
    ensures IsSubsequence(r, todos)
    ensures forall i :: 0 <= i < |r| ==> Matches(r[i], state)
    ensures forall t :: multiset(r)[t] == if Matches(t, state) then multiset(todos)[t] else 0
    ensures !Truthy(Lookup(state, "title")) && !Truthy(Lookup(state, "done")) ==> r == todos
    ensures Truthy(Lookup(state, "done")) && Lookup(state, "done").value !in {"yes", "no"} ==> r == []
  {
    StagesAreOnePass(todos, state);
    UnknownDoneMatchesNothing(todos, state);
    ByDone(ByTitle(todos, state), state)
  }
}
