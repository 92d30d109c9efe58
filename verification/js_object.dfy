/**
 * A plain JavaScript object whose property values are strings or `undefined`,
 * as its own properties in enumeration order (the order `Object.keys`, `forEach`
 * over them and object spread all use).
 */
module JsObject {
  import opened Optional
  import opened Sequences

  /** One own property; a `None` value is `undefined`. */
  datatype Entry = Entry(key: string, value: Option<string>)

  type Object = seq<Entry>

  /** `Object.keys(o)`. */
  function Keys(o: Object): seq<string>
  {
    seq(|o|, i requires 0 <= i < |o| => o[i].key)
  }

  /** No property name occurs twice: true of every object JavaScript builds. */
  predicate DistinctKeys(o: Object)
  {
    forall i, j :: 0 <= i < j < |o| ==> o[i].key != o[j].key
  }

  /** JavaScript truthiness of a string-or-undefined value: defined and not empty. */
  predicate Truthy(v: Option<string>)
  {
    v.Some? && v.value != ""
  }

  /** `o[k]`: the value of the property named `k`, and `undefined` when there is none. */
  function Lookup(o: Object, k: string): (v: Option<string>)
    ensures k !in Keys(o) ==> v.None?
    ensures DistinctKeys(o) ==> forall i :: 0 <= i < |o| && o[i].key == k ==> v == o[i].value
    decreases |o|
  {
    if |o| == 0 then None
    else
      assert Keys(o) == [o[0].key] + Keys(o[1..]);
      if o[0].key == k then o[0].value
      else Lookup(o[1..], k)
  }

  /**
   * `o[k] = v`, and equally `{...o, [k]: v}`: a property that exists keeps its
   * place and takes the new value; a new one is appended at the end.
   */
  function Assign(o: Object, k: string, v: Option<string>): (r: Object)
    ensures k in Keys(o) ==> |r| == |o| && Keys(r) == Keys(o)
    ensures k !in Keys(o) ==> r == o + [Entry(k, v)]
    decreases |o|
  {
    if |o| == 0 then [Entry(k, v)]
    else
      assert Keys(o) == [o[0].key] + Keys(o[1..]);
      if o[0].key == k then
        var r := [Entry(k, v)] + o[1..];
        assert Keys(r) == [k] + Keys(o[1..]);
        r
      else
        var rest := Assign(o[1..], k, v);
        var r := [o[0]] + rest;
        assert Keys(r) == [o[0].key] + Keys(rest);
        r
  }

  /** An assignment leaves every other property where it was, and adds no property but `k`. */
  lemma {:induction false} AssignOthers(o: Object, k: string, v: Option<string>)
    ensures forall i :: 0 <= i < |o| && o[i].key != k ==> i < |Assign(o, k, v)| && Assign(o, k, v)[i] == o[i]
    ensures forall i :: 0 <= i < |Assign(o, k, v)| ==> Assign(o, k, v)[i] in o || Assign(o, k, v)[i] == Entry(k, v)
    decreases |o|
  {
    if |o| > 0 && o[0].key != k {
      AssignOthers(o[1..], k, v);
      var rest := Assign(o[1..], k, v);
      assert Assign(o, k, v) == [o[0]] + rest;
      forall i | 0 <= i < |rest|
        ensures rest[i] in o || rest[i] == Entry(k, v)
      {
        if rest[i] in o[1..] {
          assert o == [o[0]] + o[1..];
        }
      }
    }
  }

  /** The property names after an assignment: unchanged, or the new name appended. */
  lemma AssignKeys(o: Object, k: string, v: Option<string>)
    ensures Keys(Assign(o, k, v)) == if k in Keys(o) then Keys(o) else Keys(o) + [k]
  {
    if k !in Keys(o) {
      assert Keys(o + [Entry(k, v)]) == Keys(o) + [k];
    }
  }

  /** After the assignment `o[k]` reads the assigned value and every other property reads as before. */
  lemma {:induction false} AssignLookup(o: Object, k: string, v: Option<string>)
    ensures Lookup(Assign(o, k, v), k) == v
    ensures forall k' :: k' != k ==> Lookup(Assign(o, k, v), k') == Lookup(o, k')
    decreases |o|
  {
    if |o| > 0 && o[0].key != k {
      AssignLookup(o[1..], k, v);
      assert Assign(o, k, v)[1..] == Assign(o[1..], k, v);
    }
  }

  /** Assignment never creates a second property of the same name. */
  lemma AssignDistinctKeys(o: Object, k: string, v: Option<string>)
    ensures DistinctKeys(o) ==> DistinctKeys(Assign(o, k, v))
  {
    var r := Assign(o, k, v);
    AssignKeys(o, k, v);
    forall i, j | 0 <= i < j < |r| && DistinctKeys(o)
      ensures r[i].key != r[j].key
    {
      assert r[i].key == Keys(r)[i] && r[j].key == Keys(r)[j];
      assert Keys(r)[i] == o[i].key;
      if j < |o| {
        assert Keys(r)[j] == o[j].key;
      }
    }
  }

  /** Keeping some properties of an object, in order, keeps the property names distinct. */
  lemma {:induction false} SubsequenceDistinctKeys(a: Object, b: Object)
    requires IsSubsequence(a, b) && DistinctKeys(b)
    ensures DistinctKeys(a)
    decreases |b|
  {
    if |a| > 0 {
      if a[0] == b[0] && IsSubsequence(a[1..], b[1..]) {
        SubsequenceDistinctKeys(a[1..], b[1..]);
        SubsequenceMembers(a[1..], b[1..]);
        forall j | 1 <= j < |a|
          ensures a[0].key != a[j].key
        {
          assert a[j] in a[1..];
          var m :| 0 <= m < |b[1..]| && b[1..][m] == a[j];
          assert b[m + 1] == a[j];
        }
      } else {
        SubsequenceDistinctKeys(a, b[1..]);
      }
    }
  }
}
