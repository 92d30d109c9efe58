/**
 * The application/x-www-form-urlencoded parser of section 5.1 of the WHATWG URL
 * Standard, at the level of its splitting: the input is cut at every `&`, empty
 * sequences are skipped, and each sequence is cut at its first `=`. The `+`-to-space
 * replacement and percent-decoding of names and values are not modelled.
 */
module FormUrlEncoded {
  import opened Optional
  import opened Sequences
  import opened Text

  /** One name/value tuple of the parser's output. */
  datatype Pair = Pair(name: string, value: string)

  /** The names of the tuples, in order. */
  function Names(ps: seq<Pair>): (ns: seq<string>)
  {
    seq(|ps|, i requires 0 <= i < |ps| => ps[i].name)
  }

  /** Cuts one sequence at its first `=`; without `=` the whole sequence is the name and the value is empty. */
  function SplitNameValue(sequence: string): (p: Pair)
    ensures '=' !in p.name
    ensures '=' in sequence ==> sequence == p.name + "=" + p.value
    ensures '=' !in sequence ==> p == Pair(sequence, "")
  {
    match IndexOf(sequence, '=')
    case None => Pair(sequence, "")
    case Some(i) =>
      assert sequence == sequence[..i] + "=" + sequence[i + 1..];
      Pair(sequence[..i], sequence[i + 1..])
  }

  /** `name=value`, written without any escaping. */
  function PairText(p: Pair): string
  {
    p.name + "=" + p.value
  }

  function PairTexts(ps: seq<Pair>): seq<string>
  {
    seq(|ps|, i requires 0 <= i < |ps| => PairText(ps[i]))
  }

  predicate NonEmpty(sequence: string)
  {
    sequence != ""
  }

  /** The tuples of the non-empty sequences, in order. */
  function PairsOf(sequences: seq<string>): (ps: seq<Pair>)
    ensures |ps| <= |sequences|
    ensures forall j :: 0 <= j < |ps| ==> '=' !in ps[j].name
    ensures (forall i :: 0 <= i < |sequences| ==> '&' !in sequences[i]) ==>
              forall j :: 0 <= j < |ps| ==> '&' !in ps[j].name && '&' !in ps[j].value
    decreases |sequences|
  {
    if |sequences| == 0 then []
    else if sequences[0] == "" then PairsOf(sequences[1..])
    else [SplitNameValue(sequences[0])] + PairsOf(sequences[1..])
  }

  /** Empty sequences give no tuple; every other sequence gives one, cut at its first `=`, in order. */
  lemma {:induction false} PairsOfKeptSequences(sequences: seq<string>)
    ensures var kept := Select(sequences, NonEmpty);
      |PairsOf(sequences)| == |kept| && forall j :: 0 <= j < |kept| ==> PairsOf(sequences)[j] == SplitNameValue(kept[j])
    decreases |sequences|
  {
    if |sequences| > 0 {
      var tail := sequences[1..];
      PairsOfKeptSequences(tail);
      var rest := Select(tail, NonEmpty);
      assert Select(sequences, NonEmpty) == if NonEmpty(sequences[0]) then [sequences[0]] + rest else rest;
      assert PairsOf(sequences) == if sequences[0] == "" then PairsOf(tail) else [SplitNameValue(sequences[0])] + PairsOf(tail);
    }
  }

  /** The parser's output for `input`. */
  function Parse(input: string): (ps: seq<Pair>)
    ensures forall j :: 0 <= j < |ps| ==> '=' !in ps[j].name && '&' !in ps[j].name && '&' !in ps[j].value
  {
    PairsOf(Split(input, '&'))
  }

  /** A tuple whose name has no `=` is recovered from its unescaped text. */
  lemma SplitNameValueOfPairText(p: Pair)
    requires '=' !in p.name
    ensures SplitNameValue(PairText(p)) == p
  {
    IndexOfAfterPrefix(p.name, '=', p.value);
  }

  lemma {:induction false} PairsOfPairTexts(ps: seq<Pair>)
    requires forall j :: 0 <= j < |ps| ==> '=' !in ps[j].name
    ensures PairsOf(PairTexts(ps)) == ps
    decreases |ps|
  {
    if |ps| > 0 {
      var texts := PairTexts(ps);
      assert texts[0] == PairText(ps[0]);
      assert |texts[0]| > 0;
      SplitNameValueOfPairText(ps[0]);
      assert texts[1..] == PairTexts(ps[1..]);
      PairsOfPairTexts(ps[1..]);
      assert ps == [ps[0]] + ps[1..];
    }
  }

  /**
   * Parsing tuples written as `name=value` and joined by `&` gives the tuples back,
   * provided no name holds `=` or `&` and no value holds `&`.
   */
  lemma {:induction false} ParseJoinedPairTexts(ps: seq<Pair>)
    requires forall j :: 0 <= j < |ps| ==> '=' !in ps[j].name && '&' !in ps[j].name && '&' !in ps[j].value
    ensures Parse(Join(PairTexts(ps), '&')) == ps
  {
    var texts := PairTexts(ps);
    if |ps| == 0 {
      assert Split("", '&') == [""];
    } else {
      forall i | 0 <= i < |texts|
        ensures '&' !in texts[i]
      {
        assert texts[i] == ps[i].name + "=" + ps[i].value;
      }
      SplitJoin(texts, '&');
      PairsOfPairTexts(ps);
    }
  }
}
