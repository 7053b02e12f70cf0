# references-dropdown-contentful, modelled in Dafny

The widget is a Contentful field extension. It shows a dropdown of the
published entries of one content type and stores the picked entry in its
field as a link. This project models its two pieces of logic, both in
`src/index.tsx`:

* **The label resolver and sorter.** This is the callback that runs when the
  bulk fetch of entries completes. A label is built for each fetched entry
  from the `fieldstouse` instance parameter. The parameter is split on `,`,
  and each segment yields one fragment:
  * a plain segment names a field of the entry;
  * a segment `a.b` follows the link stored in field `a` to the first entry
    in `includes.Entry` with that id, then reads that entry's field `b`.

  Every read is at the default locale. The fragments are joined with
  `" - "`. The `(id, label)` items are then sorted in descending label order.
* **The selection state machine.** This is the component's state: `value`,
  `hasLoaded` and `items`. Next to it is the host's field store, which owns
  the persisted link. The model covers the constructor, the parameter check
  at mount, the fetch completion, external change notifications, the user's
  pick, and `selectedItem`.

Files:

| file | module | contents |
|---|---|---|
| `wrappers.dfy` | `Wrappers` | `Option`, standing for `undefined` |
| `js_strings.dfy` | `JsStrings` | `split` with a one-character separator, `join` |
| `entries.dfy` | `Entries` | field values, entries, the fetch response, the TypeErrors, truthiness, join's stringification, the first-match `find`, a `map` that may throw |
| `resolver.dfy` | `Resolver` | per-segment fragment, label, resolved items, and the lemmas on navigation, fallback and errors |
| `resolver_examples.dfy` | `ResolverExamples` | the resolver on small literal entries |
| `sorting.dfy` | `Sorting` | the descending sort over an abstract collation, with a code-point instance |
| `selection.dfy` | `Selection` | link values, the parameter check, the fetch callback as a function, and the `FieldStore` and `App` classes |
| `selection_scenarios.dfy` | `SelectionScenarios` | event sequences on an `App` |

How the model represents things:

* A field value is `Scalar(text)`, `Ref(id)` or `Missing`. `Ref(id)` is a
  link object `{sys: {id}}`, and `Missing` is `undefined` or `null`, which the
  code reads, tests and joins alike.
* A value reaches `Array.prototype.join` (ECMA-262, 2023 edition, section
  23.1.3.18) as follows:
  * `undefined` becomes the empty string;
  * a link object becomes `"[object Object]"`.
* A read that throws a TypeError in JavaScript is an `Err` of the model.
  There are three such reads:
  * the link id at `src/index.tsx:86`;
  * the target field at line 90;
  * the plain field at line 98.

  A throw in any entry aborts the whole callback. The state is then not
  updated and the widget keeps loading.
* `localeCompare` becomes a parameter `collate(x, y)`, meaning
  `x.localeCompare(y) <= 0`. The sorting lemmas ask only that it be a total
  preorder. `Sorting.CodePointCollate` is one such order.
* The asynchronous fetch is split in two:
  * `App.ComponentDidMount` issues a query and records it as pending;
  * `App.CompleteFetch` is the callback, whose input is the response.

  `setValue` and `removeValue` update the store at once.

Behaviour of the code worth noting:

* A missing locale value joins as the empty string, not as the text
  `"undefined"` (`ResolverExamples.MissingLocaleExample`).
* A failed navigation does not fall back to the link field's value. It reads
  `fields[segment][lang]` with the whole dotted segment as the field name.
  An entry usually has no field named like that, so the read throws
  (`ResolverExamples.FallbackExample`).
* Navigation also throws when the link field holds no link at the locale
  (`Resolver.ReferenceReadThrows`), and when the included entry lacks the
  target field (`Resolver.TargetFieldThrows`).
* The linked entry is found by a linear first-match `find` over
  `includes.Entry` (`Entries.Find`, `Entries.FindFirst`).
* `onChange` writes only to the store, and fetch completion sets only
  `hasLoaded` and `items`. The selection changes only through
  `onExternalChange`.
* The dropdown's placeholder `<option>---</option>` has no `value`
  attribute, so its value is its text. Choosing it passes the non-empty id
  `"---"` to `onChange`, which writes a link to an entry `"---"` rather than
  clearing the field (`Selection.App.OnChange`). Only an empty value, which
  the rendered options never produce, removes the stored value.

## Model

| member | source | states |
|---|---|---|
| JsStrings.Split | src/index.tsx:77-78 | `split(',')` gives one more piece than there are separators; no piece holds the separator; joining the pieces with the separator gives back the string, so empty and untrimmed segments are kept |
| JsStrings.SplitJoin | src/index.tsx:77-78 | the other direction: a non-empty list of separator-free pieces is exactly what splitting its join returns |
| JsStrings.Join | src/index.tsx:101 | `join(sep)` puts `sep` between consecutive parts; `JsStrings.Split` and `JsStrings.SplitJoin` show it inverts `split` |
| JsStrings.FirstTwoPieces | src/index.tsx:82-85 | in `a.b` or `a.b.rest` with `a` and `b` dot-free, the first two pieces of `split('.')` are `a` and `b` |
| Entries.IncludedEntries | src/index.tsx:72-74 | the include list is `includes.Entry` when `includes` is present, else absent |
| Entries.AtLocale | src/index.tsx:86-98 | the `[lang]` read of a field: the locale's value, `undefined` when the locale has none |
| Entries.Truthy | src/index.tsx:87-91 | JavaScript truthiness: the empty string and `undefined` are falsy, other strings and link objects are truthy; `Resolver.NavigationSucceeds` and `Resolver.NavigationFallsBack` use it on the id and the target value |
| Entries.JoinText | src/index.tsx:101 | in the join, `undefined` contributes the empty string, a scalar its text, and a link object `"[object Object]"` |
| Entries.Find | src/index.tsx:88 | `find` by id gives nothing exactly when no included entry has the id; otherwise it gives an entry with that id that no earlier entry's id matches |
| Entries.FindFirst | src/index.tsx:88 | `find` returns the entry at the first index that holds the id |
| Entries.MapAll | src/index.tsx:76-103 | a `map` whose callback may throw succeeds exactly when every element succeeds; it then gives one result per element, in order; otherwise it fails with the error of the first failing element |
| Entries.MapAllFirstFailure | src/index.tsx:76-103 | when element `i` is the first to throw, the `map` throws element `i`'s error |
| Resolver.Plain | src/index.tsx:98-99 | the plain read throws exactly when the entry has no field named like the segment; otherwise it gives that field's value at the locale, `undefined` when the locale has none |
| Resolver.Navigates | src/index.tsx:81 | navigation is tried exactly when the segment has a dot and `includes` is a non-empty list; `Resolver.PlainWithoutNavigation` covers the other case |
| Resolver.Navigate | src/index.tsx:82-96 | the navigation attempt for `a.b`; `Resolver.NavigationSucceeds`, `Resolver.NavigationFallsBack`, `Resolver.ReferenceReadThrows` and `Resolver.TargetFieldThrows` state its outcomes |
| Resolver.Fragment | src/index.tsx:79-100 | one segment's fragment: the navigation result when it yields one, else the plain read; stated by `Resolver.PlainWithoutNavigation`, `Resolver.NavigationSucceeds` and `Resolver.NavigationFallsBack` |
| Resolver.Fragments | src/index.tsx:77-100 | one fragment per segment in `split` order; the list succeeds exactly when every segment succeeds; otherwise it fails with the first failing segment's error |
| Resolver.Display | src/index.tsx:77-101 | one entry's label: the fragment texts of the comma segments joined with `" - "`; stated by `Resolver.DisplayJoinsFragments` and `Resolver.DisplayThrowsAtFirstFailure` |
| Resolver.DisplayJoinsFragments | src/index.tsx:77-101 | given the fragments of all `Count(',') + 1` segments, the label is their texts joined with `" - "` |
| Resolver.DisplayThrowsAtFirstFailure | src/index.tsx:77-101 | the label throws with the error of the first segment whose fragment throws |
| Resolver.SingleSegmentDisplay | src/index.tsx:77-101 | with no comma, the label is the single fragment's text |
| Resolver.SingleSegmentThrows | src/index.tsx:77-101 | with no comma, the label throws when the single fragment throws |
| Resolver.TwoSegmentDisplay | src/index.tsx:77-101 | with two comma-free segments, the label is `text1 + " - " + text2` |
| Resolver.ResolveEntry | src/index.tsx:76-102 | an item carries the entry's `sys.id` and its label; it throws exactly when the label does |
| Resolver.ResolveAll | src/index.tsx:76-103 | the resolved list has one item per fetched entry, in fetch order; item `i` is entry `i`'s item and carries entry `i`'s id; the first entry whose label throws aborts the list with its error |
| Resolver.DotParts | src/index.tsx:81-85 | a segment `a.b` or `a.b.rest` names link field `a` and target field `b` |
| Resolver.PlainWithoutNavigation | src/index.tsx:81-99 | with no dot in the segment, or with `includes` absent or empty, the fragment is the plain read of the segment |
| Resolver.NavigationSucceeds | src/index.tsx:81-92 | `a.b` gives `fields[b][lang]` of the first included entry whose id is the one linked from `fields[a][lang]`, when the id is non-empty and the target value is truthy |
| Resolver.NavigationFallsBack | src/index.tsx:84-99 | when `fields[a]` is absent, the id is empty, no included entry has the id, or the target value is falsy, the fragment is the plain read of the whole dotted segment |
| Resolver.ReferenceReadThrows | src/index.tsx:84-86 | when `fields[a]` exists but holds no link at the locale, the fragment throws |
| Resolver.TargetFieldThrows | src/index.tsx:88-90 | when the first included entry with the linked id has no field `b`, the fragment throws |
| ResolverExamples.PlainExample | src/index.tsx:98-101 | `title` with `title.en = "Foo"` gives the label `"Foo"` |
| ResolverExamples.MissingLocaleExample | src/index.tsx:98-101 | `title` read at a locale with no value gives the empty label, not `"undefined"` |
| ResolverExamples.CategoryNameResolves | src/index.tsx:81-92 | `category.name` follows the link to C1 and yields `"Drinks"` |
| ResolverExamples.NavigationExample | src/index.tsx:77-101 | the label for `category.name` is `"Drinks"` |
| ResolverExamples.TitleResolves | src/index.tsx:98-99 | the plain segment `title` yields `"Foo"` even when includes are present |
| ResolverExamples.JoinExample | src/index.tsx:77-101 | `title,category.name` gives `"Foo - Drinks"` |
| ResolverExamples.JoinTexts | src/index.tsx:101 | a step of `ResolverExamples.JoinExample`: the literal texts `"Foo"` and `"Drinks"` joined with `" - "` read `"Foo - Drinks"` |
| ResolverExamples.FallbackExample | src/index.tsx:87-99 | with C1 missing from the includes, `category.name` falls back to a field literally named `category.name` and throws |
| ResolverExamples.LinkTextExample | src/index.tsx:98-101 | a link field read plainly shows as `"[object Object]"` |
| Sorting.Insert | src/index.tsx:104 | inserting adds exactly one element: the multiset grows by that item |
| Sorting.SortDescending | src/index.tsx:104 | the sorted list is a permutation of the resolved list |
| Sorting.InsertSorted | src/index.tsx:104 | for a total-preorder collation, inserting into a descending list keeps it descending |
| Sorting.SortDescendingSorted | src/index.tsx:104 | for a total-preorder collation, the sorted labels are in non-increasing order |
| Sorting.CodePointIsTotalPreorder | src/index.tsx:104 | lexicographic order on code points is a collation the sort accepts |
| Sorting.SortThreeAscending | src/index.tsx:104 | three items with strictly ascending labels come out reversed |
| Sorting.SortExample | src/index.tsx:104 | "Apple", "Banana", "Cherry" sort to "Cherry", "Banana", "Apple" |
| Selection.ToFieldValue | src/index.tsx:35-43 | `toFieldValue(id)` is a link with `sys.id = id`, `linkType = "Entry"` and `type = "Link"` |
| Selection.SelectedId | src/index.tsx:46-50 | `selectedItem` is undefined exactly when there is no value or the value has no `sys`; otherwise it is `sys.id` |
| Selection.SelectedIdOfFieldValue | src/index.tsx:35-50 | reading back a written link gives the written id |
| Selection.ToFieldValueInjective | src/index.tsx:35-43 | different ids give different links |
| Selection.CheckConfig | src/index.tsx:57-70 | mounting proceeds exactly when `entityname` and `fieldstouse` are both non-empty; a missing entity name is reported first; the fetch asks for that content type, 1000 entries and include depth 2 |
| Selection.Load | src/index.tsx:71-104 | the callback's outcome: when resolving succeeds, the resolved items up to a permutation; otherwise the resolver's TypeError |
| Selection.LoadedItems | src/index.tsx:76-104 | a loaded list has one item per fetched entry, is in non-increasing label order, is a permutation of the resolved items, and every item carries a fetched entry's id |
| Selection.FieldStore.constructor | src/index.tsx:28 | the store starts with the persisted value |
| Selection.FieldStore.SetValue | src/index.tsx:124 | `setValue` replaces the stored value |
| Selection.FieldStore.RemoveValue | src/index.tsx:126 | `removeValue` clears the stored value |
| Selection.App.constructor | src/index.tsx:25-33 | the initial state: `value` is the store's value, `hasLoaded = false`, `items = []`, `error = false`, no fetch pending |
| Selection.App.SelectedItem | src/index.tsx:46-50 | `selectedItem()` reads the id of the local `value`: `Selection.SelectedIdOfFieldValue` gives back a written id, and `SelectionScenarios.PickRoundTrip` shows a pick selected once notified |
| Selection.App.ComponentDidMount | src/index.tsx:52-70 | the external-change handler is attached before the check; the fetch is pending exactly when the check passes; a failed check issues no fetch; the selection, `hasLoaded` and `items` are unchanged |
| Selection.App.CompleteFetch | src/index.tsx:71-106 | on success, `hasLoaded = true` and `items` is the sorted resolved list; when resolving throws, `hasLoaded` and `items` keep their values; `value` is unchanged either way |
| Selection.App.OnExternalChange | src/index.tsx:115-117 | called only while the handler attached at mount is in place; the incoming value replaces `value` unconditionally |
| Selection.App.OnChange | src/index.tsx:119-128 | called only once loaded, as the `<select>` is rendered only then; a non-empty id writes `toFieldValue(id)` to the store; the empty id removes the value; local `value` is unchanged |
| Selection.App.ComponentWillUnmount | src/index.tsx:109-113 | the external-change handler is detached |
| SelectionScenarios.MountAndLoad | src/index.tsx:25-106 | mounting with usable parameters and a response that resolves leaves the widget subscribed, loaded with the sorted items, and mirroring the store |
| SelectionScenarios.PickRoundTrip | src/index.tsx:115-128 | on a loaded widget, a pick that comes back through the change notification becomes the selection |
| SelectionScenarios.ClearRoundTrip | src/index.tsx:115-128 | on a loaded widget, an empty `onChange` value, once notified, leaves nothing selected |
| SelectionScenarios.ExternalChangeWins | src/index.tsx:25-128 | after loading with `x` selected and a local pick, an external change to `y` decides the selection |
| SelectionScenarios.MissingEntityName | src/index.tsx:57-62 | without an entity name, nothing is fetched and the widget is not loaded |

## Left out

- Rendering is not modelled: the spinner, the `<select>` and `<option>` markup, the ReactDOM mount, hot module reload and the CSS imports (`src/index.tsx:1-6, 130-159`). These are UI and build plumbing.
- `startAutoResizer`, the `alert` and thrown message of a failed parameter check, and `console.log` are host side effects. A failed check is modelled only as the `Aborted` outcome.
- `getPublishedEntries` is a network call. Its response is an input of `App.CompleteFetch`, and `Query` records the arguments it was called with. A fetch that fails or never settles is modelled as `CompleteFetch` never being called.
- `setValue` and `removeValue` are asynchronous, and the fetch is awaited with `.then`. The model takes each as settled at once, so it does not capture how in-flight writes interleave with notifications.
- `onValueChanged` and its detach handle are callbacks into the host SDK. They are reduced to the `subscribed` flag, which `App.OnExternalChange` requires.
- Sorting.SortDescending: the proved contract is "permutation, in non-increasing order". The order among items whose labels collate equal is not stated. `Array.prototype.sort` is stable, and so is the insertion sort, but stability is not proved.
- Field values are strings, links, `undefined` and `null`. Booleans, arrays, other objects and numbers are not modelled. A non-zero number other than `NaN` behaves like its string form in a `Scalar`; `0` and `NaN` are falsy at `src/index.tsx:91`, unlike every non-empty `Scalar`, so they have no stand-in.
- A field name that hits a property inherited from `Object.prototype`, such as `constructor`, is not modelled.
- Instance parameters are modelled as strings. A non-string parameter and its `toString()` are not modelled.
- The `error` state field is set to `false` and never changed by the code. It is modelled as such and nothing depends on it.
