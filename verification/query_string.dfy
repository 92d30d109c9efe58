/**
 * The query-string codec of the list screen: `parseStringToObject` (Decode) and
 * `parseObjectToQueryString` (Encode).
 */
module QueryString {
  import opened Optional
  import opened Sequences
  import opened Text
  import opened FormUrlEncoded
  import opened JsObject

  /**
   * `new URLSearchParams(query)` (section 6.2 of the WHATWG URL Standard): one
   * leading `?` is dropped and the rest is parsed as form data.
   */
  function SearchParams(query: string): seq<Pair>
  {
    Parse(if |query| > 0 && query[0] == '?' then query[1..] else query)
  }

  /**
   * Exactly one leading `?` is dropped: `?` followed by any text parses as that
   * text, a second `?` becomes part of the first name, and a query without a
   * leading `?` is parsed whole.
   */
  lemma SearchParamsDropsOneMark(q: string)
    ensures SearchParams("?" + q) == Parse(q)
    ensures (|q| == 0 || q[0] != '?') ==> SearchParams(q) == Parse(q)
  {
    assert ("?" + q)[1..] == q;
  }

  /** `ps.forEach((value, key) => { o[key] = value; })`. */
  function AssignAll(o: Object, ps: seq<Pair>): (r: Object)
    ensures (forall i :: 0 <= i < |o| ==> o[i].value.Some?) ==> forall i :: 0 <= i < |r| ==> r[i].value.Some?
    decreases |ps|
  {
    if |ps| == 0 then o
    else
      AssignOthers(o, ps[0].name, Some(ps[0].value));
      AssignAll(Assign(o, ps[0].name, Some(ps[0].value)), ps[1..])
  }

  /** `parseStringToObject(query)`: every parsed name becomes a property holding a string. */
  function Decode(query: string): (o: Object)
    ensures forall i :: 0 <= i < |o| ==> o[i].value.Some?
    ensures forall k :: k in Keys(o) <==> k in Names(SearchParams(query))
  {
    AssignAllKeys(SearchParams(query));
    AssignAll([], SearchParams(query))
  }

  /** The filter `params[key] !== undefined && params[key]` of the encoder. */
  predicate Emitted(e: Entry)
  {
    Truthy(e.value)
  }

  /** The emitted properties as name/value tuples. */
  function EmittedPairs(o: Object): (ps: seq<Pair>)
    ensures |ps| == |Select(o, Emitted)|
  {
    var kept := Select(o, Emitted);
    seq(|kept|, i requires 0 <= i < |kept| => Pair(kept[i].key, kept[i].value.value))
  }

  /**
   * `parseObjectToQueryString(o)`: `?` followed by `key=value` for every property
   * whose value is neither `undefined` nor empty, in property order, joined by `&`,
   * with nothing escaped.
   */
  function Encode(o: Object): (q: string)
    ensures |q| >= 1 && q[0] == '?'
    ensures q == "?" <==> forall i :: 0 <= i < |o| ==> !Emitted(o[i])
  {
    var texts := PairTexts(EmittedPairs(o));
    var q := "?" + Join(texts, '&');
    EncodeEmptyIff(o);
    q
  }

  lemma EncodeEmptyIff(o: Object)
    ensures Join(PairTexts(EmittedPairs(o)), '&') == "" <==> forall i :: 0 <= i < |o| ==> !Emitted(o[i])
  {
    var kept := Select(o, Emitted);
    var texts := PairTexts(EmittedPairs(o));
    if |kept| > 0 {
      assert texts[0] == PairText(EmittedPairs(o)[0]);
      assert |texts[0]| > 0;
      assert multiset(kept)[kept[0]] > 0;
      assert kept[0] in o;
    } else {
      forall i | 0 <= i < |o|
        ensures !Emitted(o[i])
      {
        assert multiset(kept)[o[i]] == 0;
        assert o[i] in multiset(o);
      }
    }
  }

  /** `o` without its `undefined` and empty-string properties. */
  function Compact(o: Object): (r: Object)
    ensures forall i :: 0 <= i < |r| ==> Truthy(r[i].value)
    ensures IsSubsequence(r, o)
  {
    Select(o, Emitted)
  }

  /**
   * The value of the last tuple named `k`, if there is one.
   */
  function LastValue(ps: seq<Pair>, k: string): (v: Option<string>)
    ensures v.None? <==> k !in Names(ps)
    decreases |ps|
  {
    if |ps| == 0 then None
    else
      assert Names(ps) == Names(ps[..|ps| - 1]) + [ps[|ps| - 1].name];
      if ps[|ps| - 1].name == k then Some(ps[|ps| - 1].value)
      else LastValue(ps[..|ps| - 1], k)
  }

  /** A value that survives the trip through the address bar unchanged. */
  predicate PlainValue(s: string)
  {
    '&' !in s && '+' !in s && '%' !in s && '#' !in s
  }

  /** Digits only: JavaScript enumerates such (array-index) property names first. */
  predicate AllDigits(k: string)
  {
    |k| > 0 && forall i :: 0 <= i < |k| ==> '0' <= k[i] <= '9'
  }

  /** A property name that survives the trip and that an object keeps in insertion order. */
  predicate PlainKey(k: string)
  {
    PlainValue(k) && '=' !in k && k != "__proto__" && !AllDigits(k)
  }

  predicate PlainObject(o: Object)
  {
    && DistinctKeys(o)
    && forall i :: 0 <= i < |o| ==> PlainKey(o[i].key) && (o[i].value.Some? ==> PlainValue(o[i].value.value))
  }

  /** Assigning the last tuple is the last step of `forEach`. */
  lemma {:induction false} AssignAllSnoc(o: Object, ps: seq<Pair>, p: Pair)
    ensures AssignAll(o, ps + [p]) == Assign(AssignAll(o, ps), p.name, Some(p.value))
    decreases |ps|
  {
    if |ps| > 0 {
      assert (ps + [p])[1..] == ps[1..] + [p];
      AssignAllSnoc(Assign(o, ps[0].name, Some(ps[0].value)), ps[1..], p);
    }
  }

  /** Tuples with distinct new names are appended to the object in order. */
  lemma {:induction false} AssignAllFresh(o: Object, ps: seq<Pair>)
    requires forall i, j :: 0 <= i < j < |ps| ==> ps[i].name != ps[j].name
    requires forall i :: 0 <= i < |ps| ==> ps[i].name !in Keys(o)
    ensures AssignAll(o, ps) == o + seq(|ps|, i requires 0 <= i < |ps| => Entry(ps[i].name, Some(ps[i].value)))
    decreases |ps|
  {
    if |ps| > 0 {
      var e := Entry(ps[0].name, Some(ps[0].value));
      var o' := Assign(o, ps[0].name, Some(ps[0].value));
      assert o' == o + [e];
      assert Keys(o') == Keys(o) + [e.key];
      AssignAllFresh(o', ps[1..]);
    }
  }

  /** After `forEach` from an empty object, `k` reads the value of the last tuple named `k`. */
  lemma {:induction false} AssignAllLookup(ps: seq<Pair>, k: string)
    ensures Lookup(AssignAll([], ps), k) == LastValue(ps, k)
    decreases |ps|
  {
    if |ps| > 0 {
      var init := ps[..|ps| - 1];
      var last := ps[|ps| - 1];
      assert ps == init + [last];
      AssignAllSnoc([], init, last);
      AssignAllLookup(init, k);
      AssignLookup(AssignAll([], init), last.name, Some(last.value));
    }
  }

  /** After `forEach` from an empty object, the properties stand in the order the names first occur. */
  lemma {:induction false} AssignAllKeys(ps: seq<Pair>)
    ensures Keys(AssignAll([], ps)) == FirstOccurrences(Names(ps))
    decreases |ps|
  {
    if |ps| > 0 {
      var init := ps[..|ps| - 1];
      var last := ps[|ps| - 1];
      assert ps == init + [last];
      AssignAllSnoc([], init, last);
      AssignAllKeys(init);
      var f := AssignAll([], init);
      assert Names(ps)[..|ps| - 1] == Names(init);
      assert Names(ps)[|ps| - 1] == last.name;
      if last.name !in Keys(f) {
        assert Keys(f + [Entry(last.name, Some(last.value))]) == Keys(f) + [last.name];
      }
    }
  }

  /** Duplicate names: the property holds the value of the last occurrence. */
  lemma LastValueWins(query: string, k: string)
    ensures Lookup(Decode(query), k) == LastValue(SearchParams(query), k)
  {
    AssignAllLookup(SearchParams(query), k);
  }

  /** Duplicate names: the property stands where the name first occurred. */
  lemma FirstOccurrenceOrder(query: string)
    ensures Keys(Decode(query)) == FirstOccurrences(Names(SearchParams(query)))
  {
    AssignAllKeys(SearchParams(query));
  }

  /** The empty query string and a lone `?` decode to the empty object. */
  lemma DecodeEmpty()
    ensures Decode("") == [] && Decode("?") == []
  {
    assert Split("", '&') == [""];
    assert "?"[1..] == "";
  }

  /** Decoding never yields two properties of one name. */
  lemma DecodeDistinctKeys(query: string)
    ensures DistinctKeys(Decode(query))
  {
    FirstOccurrenceOrder(query);
    var o := Decode(query);
    forall i, j | 0 <= i < j < |o|
      ensures o[i].key != o[j].key
    {
      assert Keys(o)[i] == o[i].key && Keys(o)[j] == o[j].key;
    }
  }

  /**
   * Round trip: decoding the encoding of an object whose names and values are
   * plain gives the object back without its `undefined` and empty properties.
   */
  lemma RoundTrip(o: Object)
    requires PlainObject(o)
    ensures Decode(Encode(o)) == Compact(o)
  {
    EncodeParses(o);
    AssignEmitted(o);
  }

  /** The query string of a plain object parses back to the tuples it was built from. */
  lemma EncodeParses(o: Object)
    requires PlainObject(o)
    ensures SearchParams(Encode(o)) == EmittedPairs(o)
  {
    var ps := EmittedPairs(o);
    EmittedPairsPlain(o);
    ParseJoinedPairTexts(ps);
    assert Encode(o)[1..] == Join(PairTexts(ps), '&');
  }

  /** `forEach` over the emitted tuples of an object with distinct names rebuilds its emitted properties. */
  lemma AssignEmitted(o: Object)
    requires DistinctKeys(o)
    ensures AssignAll([], EmittedPairs(o)) == Compact(o)
  {
    var kept := Select(o, Emitted);
    var ps := EmittedPairs(o);
    SubsequenceDistinctKeys(kept, o);
    AssignAllFresh([], ps);
    assert [] + seq(|ps|, i requires 0 <= i < |ps| => Entry(ps[i].name, Some(ps[i].value))) == kept;
  }

  /** The tuples a plain object emits hold no `=` in a name and no `&` anywhere. */
  lemma EmittedPairsPlain(o: Object)
    requires PlainObject(o)
    ensures var ps := EmittedPairs(o);
      forall j :: 0 <= j < |ps| ==> '=' !in ps[j].name && '&' !in ps[j].name && '&' !in ps[j].value
  {
    var kept := Select(o, Emitted);
    var ps := EmittedPairs(o);
    SubsequenceMembers(kept, o);
    forall j | 0 <= j < |ps|
      ensures '=' !in ps[j].name && '&' !in ps[j].name && '&' !in ps[j].value
    {
      assert kept[j] in o;
    }
  }

  /** Decode after Encode is idempotent on plain objects. */
  lemma RoundTripIdempotent(o: Object)
    requires PlainObject(o)
    ensures Decode(Encode(Decode(Encode(o)))) == Decode(Encode(o))
  {
    RoundTrip(o);
    var c := Compact(o);
    SubsequenceMembers(c, o);
    SubsequenceDistinctKeys(c, o);
    forall i | 0 <= i < |c|
      ensures PlainKey(c[i].key) && (c[i].value.Some? ==> PlainValue(c[i].value.value))
    {
      assert c[i] in o;
    }
    RoundTrip(c);
    SelectAll(c, Emitted);
  }

  /**
   * Values are not escaped: an `&` in a value ends the pair, and what follows it
   * comes back as a property of its own, with an empty value when it has no `=`.
   * Encoding again drops that empty property, so Decode after Encode is not
   * idempotent once a value holds `&`.
   */
  lemma UnescapedAmpersand(k: string, a: string, b: string)
    requires PlainKey(k) && PlainValue(a) && a != ""
    requires PlainKey(b) && b != "" && b != k
    ensures Decode(Encode([Entry(k, Some(a + "&" + b))])) == [Entry(k, Some(a)), Entry(b, Some(""))]
    ensures Decode(Encode(Decode(Encode([Entry(k, Some(a + "&" + b))])))) == [Entry(k, Some(a))]
  {
    AmpersandSplitsValue(k, a, b);
    EmptyPropertyDropped(k, a, b);
  }

  lemma EmptyPropertyDropped(k: string, a: string, b: string)
    requires PlainKey(k) && PlainValue(a) && a != ""
    requires PlainKey(b) && b != k
    ensures Decode(Encode([Entry(k, Some(a)), Entry(b, Some(""))])) == [Entry(k, Some(a))]
  {
    var d := [Entry(k, Some(a)), Entry(b, Some(""))];
    assert PlainObject(d);
    RoundTrip(d);
    assert Select(d, Emitted) == [Entry(k, Some(a))] by {
      assert d[1..] == [Entry(b, Some(""))];
      assert Select(d[1..], Emitted) == [];
    }
  }

  lemma AmpersandSplitsValue(k: string, a: string, b: string)
    requires '=' !in k && '&' !in k && '&' !in a
    requires b != "" && '&' !in b && '=' !in b && b != k
    ensures Decode(Encode([Entry(k, Some(a + "&" + b))])) == [Entry(k, Some(a)), Entry(b, Some(""))]
  {
    EncodeAmpersand(k, a, b);
    DecodeTwoSequences(k, a, b);
  }

  lemma EncodeAmpersand(k: string, a: string, b: string)
    ensures Encode([Entry(k, Some(a + "&" + b))]) == "?" + Join([k + "=" + a, b], '&')
  {
    EncodeOne(k, a + "&" + b);
    assert Join([k + "=" + a, b], '&') == (k + "=" + a) + ['&'] + b;
    calc {
      k + "=" + (a + "&" + b);
      (k + "=") + ((a + "&") + b);
      ((k + "=") + (a + "&")) + b;
      ((k + "=" + a) + "&") + b;
    }
  }

  lemma DecodeTwoSequences(k: string, a: string, b: string)
    requires '=' !in k && '&' !in k && '&' !in a
    requires b != "" && '&' !in b && '=' !in b && b != k
    ensures Decode("?" + Join([k + "=" + a, b], '&')) == [Entry(k, Some(a)), Entry(b, Some(""))]
  {
    var ps := [Pair(k, a), Pair(b, "")];
    TwoSequencesSplit(k, a, b);
    DecodeJoined([k + "=" + a, b], ps);
    assert seq(|ps|, i requires 0 <= i < |ps| => Entry(ps[i].name, Some(ps[i].value)))
        == [Entry(k, Some(a)), Entry(b, Some(""))];
  }

  /** `k=a` and a bare `b` are two non-empty `&`-free sequences, giving the tuples `(k, a)` and `(b, "")`. */
  lemma TwoSequencesSplit(k: string, a: string, b: string)
    requires '=' !in k && '&' !in k && '&' !in a
    requires b != "" && '&' !in b && '=' !in b
    ensures var texts := [k + "=" + a, b];
      var ps := [Pair(k, a), Pair(b, "")];
      forall i :: 0 <= i < |texts| ==> '&' !in texts[i] && texts[i] != "" && SplitNameValue(texts[i]) == ps[i]
  {
    var texts := [k + "=" + a, b];
    var ps := [Pair(k, a), Pair(b, "")];
    forall i | 0 <= i < |texts|
      ensures '&' !in texts[i] && texts[i] != "" && SplitNameValue(texts[i]) == ps[i]
    {
      if i == 0 {
        SplitNameValueOfPairText(Pair(k, a));
        assert texts[0] == PairText(ps[0]);
      } else {
        assert texts[1] == b;
      }
    }
  }

  /** `?key=value` with a plain name and a non-empty plain value decodes to that one property. */
  lemma DecodeOne(k: string, v: string)
    requires PlainKey(k) && PlainValue(v) && v != ""
    ensures Decode("?" + (k + "=" + v)) == [Entry(k, Some(v))]
  {
    var o := [Entry(k, Some(v))];
    EncodeOne(k, v);
    RoundTrip(o);
    assert Select(o, Emitted) == o;
  }

  /** An object with one truthy property encodes as `?key=value`. */
  lemma EncodeOne(k: string, v: string)
    requires v != ""
    ensures Encode([Entry(k, Some(v))]) == "?" + (k + "=" + v)
  {
    var o := [Entry(k, Some(v))];
    assert Select(o, Emitted) == o;
    assert EmittedPairs(o) == [Pair(k, v)];
    assert PairTexts(EmittedPairs(o)) == [k + "=" + v];
  }

  /** Decoding `?` and `&`-joined sequences with distinct names puts one property per sequence, in order. */
  lemma DecodeJoined(texts: seq<string>, ps: seq<Pair>)
    requires |texts| >= 1 && |texts| == |ps|
    requires forall i :: 0 <= i < |texts| ==> '&' !in texts[i] && texts[i] != "" && SplitNameValue(texts[i]) == ps[i]
    requires forall i, j :: 0 <= i < j < |ps| ==> ps[i].name != ps[j].name
    ensures Decode("?" + Join(texts, '&')) == seq(|ps|, i requires 0 <= i < |ps| => Entry(ps[i].name, Some(ps[i].value)))
  {
    SplitJoin(texts, '&');
    PairsOfNonEmpty(texts, ps);
    assert ("?" + Join(texts, '&'))[1..] == Join(texts, '&');
    AssignAllFresh([], ps);
  }

  lemma {:induction false} PairsOfNonEmpty(texts: seq<string>, ps: seq<Pair>)
    requires |texts| == |ps|
    requires forall i :: 0 <= i < |texts| ==> texts[i] != "" && SplitNameValue(texts[i]) == ps[i]
    ensures PairsOf(texts) == ps
    decreases |texts|
  {
    if |texts| > 0 {
      PairsOfNonEmpty(texts[1..], ps[1..]);
      assert ps == [ps[0]] + ps[1..];
    }
  }

  /** After compaction a property reads as before when it was truthy, and as `undefined` otherwise. */
  lemma LookupCompact(o: Object, k: string)
    requires DistinctKeys(o)
    ensures Lookup(Compact(o), k) == if Truthy(Lookup(o, k)) then Lookup(o, k) else None
  {
    var c := Compact(o);
    SubsequenceMembers(c, o);
    SubsequenceDistinctKeys(c, o);
    if k in Keys(c) {
      var i :| 0 <= i < |c| && Keys(c)[i] == k;
      assert c[i] in o;
      var j :| 0 <= j < |o| && o[j] == c[i];
    } else if Truthy(Lookup(o, k)) {
      var j :| 0 <= j < |o| && Keys(o)[j] == k;
      assert multiset(c)[o[j]] > 0;
    }
  }
}
