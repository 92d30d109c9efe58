# Filter state in the address bar

A model of the list screen of a small React application. The screen shows a
fixed list of todos, filters it by title and by done status, and keeps the
filter in the query string of the browser's address. The model has three parts.

- The query-string codec (`query_string.dfy`).
  - `parseObjectToQueryString` is `QueryString.Encode`.
  - `parseStringToObject` is `QueryString.Decode`.
  - `Decode` rests on the `application/x-www-form-urlencoded` parser of section 5.1
    of the WHATWG URL Standard (`form_urlencoded.dfy`). It uses the
    `URLSearchParams` constructor of section 6.2, which drops one leading `?`.
- The two-stage list filter (`todo_list.dfy`).
- The filter controls' spread updates and the `useUrl` hook's listener, as pure
  steps over a hook state (`use_url.dfy`).

A JavaScript object whose values are strings or `undefined` is an ordered list
of properties (`js_object.dfy`), in the order JavaScript enumerates them,
except array-index names (see Left out).
`obj[k] = v` and `{...obj, k: v}` are one operation, `JsObject.Assign`:
- an existing property keeps its place and takes the new value;
- a new property is appended.

`scenarios.dfy` states what the screen shows for a few addresses and one
search. `sequences.dfy` and `text.dfy` hold the generic sequence and string
functions, and `optional.dfy` holds `Option`.

Three facts about the code shape what the model promises.
- Values are not escaped. `parseObjectToQueryString` writes each pair literally
  as `key + "=" + value` (src/App.tsx:139). `QueryString.UnescapedAmpersand`
  shows what a value holding `&` turns into.
- Unknown keys are not filtered out. `parseStringToObject` keeps every key
  (src/App.tsx:125-127), and the spread updates keep every property of the state
  (src/App.tsx:97-99). So an unknown key with a non-empty value survives every
  edit and is pushed again (`UseUrl.SetFieldThenNavigate`).
- Decode-after-encode is proved idempotent for plain values
  (`QueryString.RoundTripIdempotent`). A value holding `&` followed by a text
  without `=` breaks it (`QueryString.UnescapedAmpersand`).

The round trip needs every name and value to be plain (`QueryString.PlainObject`):
- no `&`, `+`, `%` or `#`;
- no `=` in a name;
- a name is not `__proto__` and is not all digits;
- names are distinct.

The reasons for these conditions are under "Left out".

## Model

| member | source | states |
|---|---|---|
| QueryString.Encode | src/App.tsx:132-142 | The query string always starts with `?`. It is exactly `?` if and only if no property is emitted, that is, every value is `undefined` or `""`. The helpers it is built from: `JsObject.Keys` lists the names (line 135), `QueryString.Emitted` keeps those with a truthy value (line 137), and `QueryString.EmittedPairs` with `FormUrlEncoded.PairText` write each as `key=value` (line 139). |
| QueryString.EncodeParses | src/App.tsx:135-140 | For a plain object, the query string parses back to one `name=value` tuple per property whose value is a non-empty string, in property order. No other tuples appear. |
| QueryString.EmittedPairsPlain | src/App.tsx:136-139 | The tuples a plain object emits hold no `=` in a name and no `&` anywhere, so each pair stays one `&`-separated sequence. |
| QueryString.AssignEmitted | src/App.tsx:125-127 | Assigning the emitted tuples one by one to `{}` rebuilds exactly the object's non-empty properties, in order. |
| QueryString.Decode | src/App.tsx:121-130 | Every decoded property holds a string, never `undefined`. The decoded names are exactly the names the parser yields. It reads the pairs of `QueryString.SearchParams`, which drops one leading `?` (line 122). |
| QueryString.AssignAll | src/App.tsx:125-127 | `forEach` with `obj[key] = value` never introduces an `undefined` value into an object that had none. |
| QueryString.LastValueWins | src/App.tsx:125-127 | For every name, the decoded own property holds the value of the last tuple of that name. A name that never occurs has no own property and reads as `undefined`. |
| QueryString.LastValue | src/App.tsx:125-127 | The reference definition of "value of the last tuple named `k`". It is `undefined` if and only if `k` is not among the names. |
| QueryString.FirstOccurrenceOrder | src/App.tsx:125-127 | The decoded properties stand in the order their names first occur in the query string. |
| QueryString.DecodeDistinctKeys | src/App.tsx:123-127 | A decoded object never has two properties with the same name. |
| QueryString.DecodeEmpty | src/App.tsx:121-130 | The empty query string and a lone `?` both decode to `{}`. |
| QueryString.RoundTrip | src/App.tsx:121-142 | For a plain object, decoding its encoding gives back the object without its `undefined` and empty properties. |
| QueryString.RoundTripIdempotent | src/App.tsx:121-142 | For a plain object, a second decode-after-encode changes nothing. |
| QueryString.UnescapedAmpersand | src/App.tsx:139 | Take a value `a&b` with `b` free of `=`. It decodes as `a` plus a new property `b` with the empty value. A second round trip drops `b`. So decode-after-encode is not idempotent here. |
| QueryString.LookupCompact | src/App.tsx:136-138 | Dropping the `undefined` and empty properties of an object keeps each truthy value and turns everything else into `undefined`. |
| QueryString.Compact | src/App.tsx:136-138 | The compacted object keeps the original order, and every value in it is a non-empty string. |
| FormUrlEncoded.SplitNameValue | src/App.tsx:122 | A sequence splits at its first `=`: the name holds no `=`, and name, `=` and value give the sequence back. A sequence without `=` is a name with the empty value. |
| FormUrlEncoded.PairsOf | src/App.tsx:122 | There are never more tuples than sequences. No name holds `=`. When no sequence holds `&`, no tuple holds `&`. |
| FormUrlEncoded.PairsOfKeptSequences | src/App.tsx:122 | Empty sequences give no tuple. The `j`-th tuple is the `j`-th non-empty sequence cut at its first `=`. |
| FormUrlEncoded.Parse | src/App.tsx:122 | No parsed name holds `=`, and no parsed name or value holds `&`. |
| FormUrlEncoded.ParseJoinedPairTexts | src/App.tsx:122 | Joining `name=value` texts with `&` and parsing the result gives the tuples back, given `=`-free, `&`-free names and `&`-free values. |
| Text.Split | src/App.tsx:122 | Splitting yields at least one part, and no part holds the separator. |
| Text.SplitJoin | src/App.tsx:122 | Splitting the join of separator-free parts gives the parts back. |
| Text.JoinSplit | src/App.tsx:140 | Joining the parts of a split gives the text back. |
| Text.Join | src/App.tsx:140 | `.join("&")` of no parts is `""`. Otherwise the result is at least as long as the first part. |
| Text.JoinFirstPart | src/App.tsx:140 | A join starts with the first part, followed by the separator when more parts follow. |
| QueryString.SearchParamsDropsOneMark | src/App.tsx:122 | `new URLSearchParams(query)` drops exactly one leading `?`: `?` followed by any text parses as that text, and a query without a leading `?` is parsed whole. |
| JsObject.Lookup | src/App.tsx:137 | Reading an own property: `o[k]` is `undefined` when `o` has no own property `k`. Otherwise it is that property's value, when names are distinct. |
| JsObject.Assign | src/App.tsx:126 | Assigning an existing name keeps the names and their order. Assigning a new name appends it. |
| JsObject.AssignLookup | src/App.tsx:126 | After `o[k] = v`, `o[k]` reads `v` and every other name reads as before. |
| JsObject.AssignOthers | src/App.tsx:97-99 | Every other property stays at its position, and the only property that can appear is `k: v`. |
| JsObject.AssignKeys | src/App.tsx:97-99 | The names after an assignment are the old names, with `k` appended when it was new. |
| JsObject.AssignDistinctKeys | src/App.tsx:126 | Assignment never creates a second property with the same name. |
| JsObject.SubsequenceDistinctKeys | src/App.tsx:136 | Keeping some properties, in order, keeps the names distinct. |
| Sequences.Select | src/App.tsx:86 | `filter` keeps an order-preserving subsequence. Every kept element satisfies the predicate, and it keeps exactly as many copies of each satisfying element as the input has. |
| Sequences.SelectSelect | src/App.tsx:85-90 | Filtering by `p` and then by `q` equals filtering once by `p && q`. |
| Sequences.FirstOccurrences | src/App.tsx:123-127 | The first occurrences of a sequence have the same members and no repeats. |
| TodoList.Visible | src/App.tsx:85-90 | The title stage (`TodoList.ByTitle`, lines 85-87) followed by the done stage (`TodoList.ByDone`, lines 88-90). The filtered list is an order-preserving subsequence of the todos, and every shown todo matches the filter. Each matching todo is kept with all its copies; no other todo is kept. With neither field truthy, the whole list is shown. A truthy `done` other than `yes`/`no` shows nothing. |
| TodoList.StagesAreOnePass | src/App.tsx:85-90 | The title stage followed by the done stage equals one pass that keeps the todos meeting every criterion the state sets. |
| UseUrl.WithField | src/App.tsx:97-100 | `{...state, [field]: value}` reads `value` at `field` and reads as before at every other name. Names keep their order, with `field` appended when new. Distinct names stay distinct. |
| UseUrl.SubmitSearch | src/App.tsx:96-101 | Search's update changes only `title`, to the submitted text. |
| UseUrl.ChooseDone | src/App.tsx:105-110 | The done filter's update changes only `done`, to any chosen string; the `as Done` cast checks nothing. |
| UseUrl.OnLocationChange | src/App.tsx:155-159 | The same query string leaves the state untouched, and a different one decodes it. A state in sync with the current query string is in sync with the new one either way. |
| UseUrl.Mount | src/App.tsx:147-149 | The first state is the decoding of the location's query string. |
| UseUrl.Navigate | src/App.tsx:155-158 | After a location change, the hook holds the new query string. A state in sync stays in sync. The same query string changes nothing. |
| UseUrl.NavigateTwice | src/App.tsx:155-158 | The same query string arriving twice updates the state at most once. |
| UseUrl.SetState | src/App.tsx:151-153 | `setState` pushes the encoding of the new state. From an in-sync state, once the listener has run, the state is the decoding of that encoding. |
| UseUrl.SetFieldThenNavigate | src/App.tsx:151-158 | From an in-sync state, for a plain field name and plain names and values: after one field is set and pushed, the field holds the new value, or is absent when the value is empty. Every other property keeps its value if that was a non-empty string, and is absent otherwise. |
| UseUrl.SearchSubmitted | src/App.tsx:96-100 | From an in-sync state, for plain names and values: after a search is submitted, `title` is the submitted text, or absent when empty. Every other field keeps its non-empty value. |
| UseUrl.DoneChosen | src/App.tsx:105-109 | From an in-sync state, for plain names and values: after a done value is chosen, `done` is that value, or absent for the empty option. Every other field keeps its non-empty value. |
| Scenarios.EmptyAddressShowsAll | src/App.tsx:73-90 | With no query string, both todos are shown in fixture order. |
| Scenarios.TitleAddress | src/App.tsx:85-87 | `?title=Mow the lawn` shows only the lawn. |
| Scenarios.DoneAddress | src/App.tsx:88-90 | `?done=no` shows only the house. |
| Scenarios.UnknownDoneShowsNothing | src/App.tsx:88-90 | `?done=maybe` shows nothing. |
| Scenarios.TitleAndDoneAddress | src/App.tsx:85-90 | `?title=Mow the lawn&done=no` shows nothing: no todo meets both criteria. |
| Scenarios.SearchFromEmptyAddress | src/App.tsx:96-101 | Submitting "Clean the house" on an empty address leaves only the house shown. |

## Left out

- React rendering is not modelled: the `Search` and `DoneFilter` markup, the `<ul>`, and `App` with its router. The model starts from the values those components hand to the callbacks.
- Hook mechanics are not modelled: `useState`, one `history.listen` registration per render and the lifetime of those listeners. The listener is one pure step, `UseUrl.OnLocationChange`. The hook state it acts on (`UseUrl.UrlState`) pairs the state with the query string of the location of the last render.
- `history.push` is not modelled as a side effect. `UseUrl.SetState` hands the pushed query string straight to the listener step.
- Percent-decoding and `+`-to-space conversion inside `URLSearchParams` are not modelled. The parser stops at splitting on `&` and on the first `=`. The round trip is stated only for values without `+` and `%`.
- Browser normalisation of a pushed address is not modelled (a space becoming `%20`, a `#` starting the fragment). Plain values exclude `#`.
- JavaScript lists array-index names (`"0"`, `"12"`) before all other names, and `obj["__proto__"] = value` sets no property. Neither is modelled. Plain names exclude both, so the round trip does not depend on them.
- Inherited properties are not modelled: `JsObject.Lookup` reads own properties only. In JavaScript, `({})["toString"]` is a function, not `undefined`. The code never reads an inherited name: it reads names from `Object.keys` (src/App.tsx:135-137) and reads only `title` and `done` (src/App.tsx:85-90).
- Values other than strings and `undefined` are not modelled (numbers, `null`, nested objects). The filter state only ever holds strings.
- `FormData` reading of the search field and the `console.log` calls are not modelled: they are input and output.
- QueryString.RoundTrip: requires plain names and values. The source makes no such promise. Without those conditions, `QueryString.UnescapedAmpersand` shows the kind of input on which the round trip fails.
