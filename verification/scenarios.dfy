/** The list screen on its fixture, for a few addresses and one search. */
module Scenarios {
  import opened Optional
  import opened Sequences
  import opened Text
  import opened FormUrlEncoded
  import opened JsObject
  import opened QueryString
  import opened TodoList
  import opened UseUrl

  /** The two todos the list screen shows. */
  function Fixture(): seq<Todo>
  {
    [Todo("Mow the lawn", Some(Yes)), Todo("Clean the house", Some(No))]
  }

  function Titles(todos: seq<Todo>): seq<string>
  {
    seq(|todos|, i requires 0 <= i < |todos| => todos[i].title)
  }

  /** Letters and spaces only. */
  predicate Words(s: string)
  {
    forall i :: 0 <= i < |s| ==> s[i] == ' ' || 'a' <= s[i] <= 'z' || 'A' <= s[i] <= 'Z'
  }

  /** A text of words only holds no separator and no escape. */
  lemma WordsArePlain(s: string)
    requires Words(s)
    ensures PlainValue(s)
  {
  }

  /** The texts the scenarios use are plain: none holds a separator or an escape. */
  lemma PlainTexts()
    ensures PlainValue("Mow the lawn") && PlainValue("Clean the house")
    ensures PlainValue("no") && PlainValue("maybe")
  {
    WordsArePlain("Mow the lawn");
    WordsArePlain("Clean the house");
    WordsArePlain("no");
    WordsArePlain("maybe");
  }

  /** `?title=` or `?done=` followed by a plain text decodes to a state holding just that field. */
  lemma FieldQuery(field: string, v: string)
    requires field == "title" || field == "done"
    requires PlainValue(v) && v != ""
    ensures Decode("?" + field + "=" + v) == [Entry(field, Some(v))]
  {
    PlainFieldNames();
    assert "?" + field + "=" + v == "?" + (field + "=" + v);
    DecodeOne(field, v);
  }

  lemma Regroup(q: string, k1: string, eq: string, v: string, amp: string, k2: string, w: string)
    ensures (q + k1 + eq) + v + (amp + k2 + eq) + w == q + ((k1 + eq + v) + amp + (k2 + eq + w))
  {
  }

  function FieldTexts(v: string, w: string): seq<string>
  {
    [PairText(Pair("title", v)), PairText(Pair("done", w))]
  }

  lemma TitleAndDoneText(v: string, w: string)
    ensures "?title=" + v + "&done=" + w == "?" + Join(FieldTexts(v, w), '&')
  {
    var texts := FieldTexts(v, w);
    assert Join(texts, '&') == texts[0] + "&" + texts[1];
    assert "?title=" == "?" + "title" + "=";
    assert "&done=" == "&" + "done" + "=";
    Regroup("?", "title", "=", v, "&", "done", w);
  }

  /** The text of a tuple with no `=` in its name and no `&` anywhere is one non-empty sequence that splits back. */
  lemma PairTextSplits(p: Pair)
    requires '=' !in p.name && '&' !in p.name && '&' !in p.value
    ensures '&' !in PairText(p) && PairText(p) != "" && SplitNameValue(PairText(p)) == p
  {
    SplitNameValueOfPairText(p);
  }

  lemma DecodeTwoFields(k1: string, v: string, k2: string, w: string)
    requires '=' !in k1 && '&' !in k1 && '&' !in v && v != ""
    requires '=' !in k2 && '&' !in k2 && '&' !in w && w != "" && k1 != k2
    ensures Decode("?" + Join([PairText(Pair(k1, v)), PairText(Pair(k2, w))], '&'))
         == [Entry(k1, Some(v)), Entry(k2, Some(w))]
  {
    var texts := [PairText(Pair(k1, v)), PairText(Pair(k2, w))];
    var ps := [Pair(k1, v), Pair(k2, w)];
    forall i | 0 <= i < |texts|
      ensures '&' !in texts[i] && texts[i] != "" && SplitNameValue(texts[i]) == ps[i]
    {
      PairTextSplits(ps[i]);
    }
    DecodeJoined(texts, ps);
    assert seq(|ps|, i requires 0 <= i < |ps| => Entry(ps[i].name, Some(ps[i].value)))
        == [Entry(k1, Some(v)), Entry(k2, Some(w))];
  }

  /** `?title=v&done=w` decodes to a state holding both fields, title first. */
  lemma TitleAndDoneQuery(v: string, w: string)
    requires PlainValue(v) && v != "" && PlainValue(w) && w != ""
    ensures Decode("?title=" + v + "&done=" + w) == [Entry("title", Some(v)), Entry("done", Some(w))]
  {
    TitleAndDoneText(v, w);
    DecodeTwoFields("title", v, "done", w);
  }

  lemma SelectTwo(a: Todo, b: Todo, p: Todo -> bool)
    ensures Select([a, b], p) == (if p(a) then [a] else []) + (if p(b) then [b] else [])
  {
    assert [a, b][1..] == [b];
    assert [b][1..] == [];
  }

  /** The fixture shows each of its todos exactly when that todo matches the state. */
  lemma FixtureShows(state: Object)
    ensures var f := Fixture();
      Visible(f, state) == (if Matches(f[0], state) then [f[0]] else []) + (if Matches(f[1], state) then [f[1]] else [])
  {
    StagesAreOnePass(Fixture(), state);
    SelectTwo(Fixture()[0], Fixture()[1], (t: Todo) => Matches(t, state));
  }

  /** The two fixture titles differ (in their first letter). */
  lemma TitlesDiffer()
    ensures "Mow the lawn" != "Clean the house"
  {
    assert "Mow the lawn"[0] != "Clean the house"[0];
  }

  /** A state asking for the lawn by title, and for nothing by done, shows the lawn alone. */
  lemma ShowsLawnByTitle(state: Object)
    requires Lookup(state, "title") == Some("Mow the lawn") && !Truthy(Lookup(state, "done"))
    ensures Titles(Visible(Fixture(), state)) == ["Mow the lawn"]
  {
    FixtureShows(state);
    TitlesDiffer();
  }

  /** A state asking for the house by title, and for nothing by done, shows the house alone. */
  lemma ShowsHouseByTitle(state: Object)
    requires Lookup(state, "title") == Some("Clean the house") && !Truthy(Lookup(state, "done"))
    ensures Titles(Visible(Fixture(), state)) == ["Clean the house"]
  {
    FixtureShows(state);
    TitlesDiffer();
  }

  /** A state asking for the todos not done, and for nothing by title, shows the house alone. */
  lemma ShowsHouseByDone(state: Object)
    requires !Truthy(Lookup(state, "title")) && Lookup(state, "done") == Some("no")
    ensures Titles(Visible(Fixture(), state)) == ["Clean the house"]
  {
    FixtureShows(state);
    assert DoneText(Yes) != "no";
  }

  /** Asking for the lawn among the todos not done shows nothing. */
  lemma ShowsNoLawnUndone(state: Object)
    requires Lookup(state, "title") == Some("Mow the lawn") && Lookup(state, "done") == Some("no")
    ensures Visible(Fixture(), state) == []
  {
    FixtureShows(state);
    TitlesDiffer();
    assert DoneText(Yes) != "no";
  }

  /** An empty address shows every todo, in fixture order. */
  lemma EmptyAddressShowsAll()
    ensures Titles(Visible(Fixture(), Decode(""))) == ["Mow the lawn", "Clean the house"]
  {
    DecodeEmpty();
  }

  /** `?title=Mow the lawn`. */
  function LawnAddress(): string
  {
    "?title=" + "Mow the lawn"
  }

  /** `?done=no`. */
  function UndoneAddress(): string
  {
    "?done=" + "no"
  }

  /** `?done=maybe`, a `done` value outside `yes`/`no`. */
  function MaybeAddress(): string
  {
    "?done=" + "maybe"
  }

  /** `?title=Mow the lawn&done=no`. */
  function LawnUndoneAddress(): string
  {
    "?title=" + "Mow the lawn" + "&done=" + "no"
  }

  /** The state `?title=Mow the lawn` decodes to. */
  lemma LawnAddressState()
    ensures Lookup(Decode(LawnAddress()), "title") == Some("Mow the lawn")
    ensures Lookup(Decode(LawnAddress()), "done") == None
  {
    PlainTexts();
    assert LawnAddress() == "?" + "title" + "=" + "Mow the lawn";
    FieldQuery("title", "Mow the lawn");
  }

  /** `?title=Mow the lawn` shows only the lawn. */
  lemma TitleAddress()
    ensures Titles(Visible(Fixture(), Decode(LawnAddress()))) == ["Mow the lawn"]
  {
    LawnAddressState();
    ShowsLawnByTitle(Decode(LawnAddress()));
  }

  /** The state `?done=` followed by a plain value decodes to. */
  lemma DoneAddressState(v: string)
    requires PlainValue(v) && v != ""
    ensures Lookup(Decode("?done=" + v), "title") == None && Lookup(Decode("?done=" + v), "done") == Some(v)
  {
    assert "?done=" + v == "?" + "done" + "=" + v;
    FieldQuery("done", v);
  }

  /** `?done=no` shows only the house. */
  lemma DoneAddress()
    ensures Titles(Visible(Fixture(), Decode(UndoneAddress()))) == ["Clean the house"]
  {
    PlainTexts();
    DoneAddressState("no");
    ShowsHouseByDone(Decode(UndoneAddress()));
  }

  /** `?done=maybe`: the unchecked cast lets an unknown value through, and nothing is shown. */
  lemma UnknownDoneShowsNothing()
    ensures Visible(Fixture(), Decode(MaybeAddress())) == []
  {
    PlainTexts();
    DoneAddressState("maybe");
  }

  /** The state `?title=Mow the lawn&done=no` decodes to. */
  lemma LawnUndoneAddressState()
    ensures Lookup(Decode(LawnUndoneAddress()), "title") == Some("Mow the lawn")
    ensures Lookup(Decode(LawnUndoneAddress()), "done") == Some("no")
  {
    PlainTexts();
    TitleAndDoneQuery("Mow the lawn", "no");
  }

  /** `?title=Mow the lawn&done=no`: both criteria apply and no todo meets both. */
  lemma TitleAndDoneAddress()
    ensures Visible(Fixture(), Decode(LawnUndoneAddress())) == []
  {
    LawnUndoneAddressState();
    ShowsNoLawnUndone(Decode(LawnUndoneAddress()));
  }

  /** A search submitted while the state is empty: the state then holds that title and nothing else. */
  lemma SubmittedOnEmptyState(u: UrlState, v: string)
    requires InSync(u) && u.state == [] && PlainValue(v) && v != ""
    ensures var s := SetState(u, SubmitSearch(u.state, v)).state;
      Lookup(s, "title") == Some(v) && Lookup(s, "done") == None
  {
    SearchSubmitted(u, v);
    assert Lookup(u.state, "done") == None;
  }

  /** Submitting "Clean the house" on an empty address leaves only the house visible. */
  lemma SearchFromEmptyAddress()
    ensures var u := SetState(Mount(""), SubmitSearch(Mount("").state, "Clean the house"));
      Titles(Visible(Fixture(), u.state)) == ["Clean the house"]
  {
    PlainTexts();
    DecodeEmpty();
    SubmittedOnEmptyState(Mount(""), "Clean the house");
    ShowsHouseByTitle(SetState(Mount(""), SubmitSearch(Mount("").state, "Clean the house")).state);
  }
}
