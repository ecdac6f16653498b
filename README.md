# Currency picker, modelled in Dafny

The repository holds one React Native component, `CurrencySelector`
(`components/CurrencySelector.tsx`). It shows a button with the selected
currency's code. Pressing the button opens a modal. The modal has a search box
and the list of currencies, narrowed case-insensitively by the search text.
Pressing a row passes that currency to the owner's `onSelect` callback and
closes the modal.

This project models the component's logic, not its rendering:

- `strings.dfy`, module `Strings`: the two JavaScript string operations
  the filter uses. `Lower` is `toLowerCase`, limited to ASCII letters.
  `Includes` is `includes`, a recursive substring search. Its contract
  proves it equal to the definition "the needle occurs at some position
  of the haystack".
- `currency_selector.dfy`, module `CurrencySelector`:
  - the `Currency` value (code, symbol, name);
  - the filter (`Matches`, `KeepMatching`, `Filter`) and the lemmas about it;
  - the selected-row test `IsSelectedRow` (code equality);
  - the class `Picker`. Its fields are the two pieces of local state,
    `modalVisible` and `searchQuery`. A ghost log `calls` records every
    `onSelect` invocation. There is one method per event handler.

Dismissing the modal does not clear the search text: the close button
(line 68) and the back/close request (line 62) only call
`setModalVisible(false)`. So `Picker.Dismiss` keeps the query, and
`ReopenAfterDismiss` shows that the old text is still there after the modal
is opened again. Only selecting a row (lines 40-44) clears the query.

## Model

| member | source | states |
|---|---|---|
| `Strings.LowerChar` | components/CurrencySelector.tsx:35-36 | an ASCII capital becomes the corresponding small letter; every other character is unchanged; the result is never a capital |
| `Strings.Lower` | components/CurrencySelector.tsx:35-36 | `toLowerCase` keeps the length and lower-cases each character in place |
| `Strings.LowerIdempotent` | components/CurrencySelector.tsx:35-36 | lower-casing an already lower-cased string changes nothing |
| `Strings.Includes` | components/CurrencySelector.tsx:35-36 | `includes` is true exactly when the needle occurs at some position of the haystack (the empty needle is always included) |
| `Strings.IncludesTransitive` | components/CurrencySelector.tsx:35-36 | a substring of a substring is a substring |
| `CurrencySelector.Matches` | components/CurrencySelector.tsx:35-36 | the `filter` callback: an entry passes when its lower-cased name or its lower-cased code includes the lower-cased query |
| `CurrencySelector.KeepMatching` | components/CurrencySelector.tsx:34-37 | `Array.filter` gives a subsequence of the input; every kept entry matches; every matching entry is kept as often as it occurs; no non-matching entry is kept |
| `CurrencySelector.Filter` | components/CurrencySelector.tsx:33-38 | an empty query gives back the input list; the result is a subsequence of the input (order kept, nothing added or duplicated); soundness (every kept entry's lower-cased name or code contains the lower-cased query); completeness (every matching input entry is kept, with its multiplicity); the empty-query shortcut agrees with filtering |
| `CurrencySelector.MatchesEmptyQuery` | components/CurrencySelector.tsx:33-38 | every entry matches the empty query, so the ternary's shortcut does not change the result |
| `CurrencySelector.FilterIdempotent` | components/CurrencySelector.tsx:33-38 | filtering the filtered list again with the same query gives the same list |
| `CurrencySelector.FilterCaseInsensitive` | components/CurrencySelector.tsx:35-36 | filtering with a query gives the same list as filtering with its lower-cased form |
| `CurrencySelector.FilterKeepsEntryForItsCode` | components/CurrencySelector.tsx:34-36 | a query that is the entry's code in any letter case keeps that entry |
| `CurrencySelector.LongerQueryNarrows` | components/CurrencySelector.tsx:33-38 | extending the query gives a subsequence of the list for the shorter query |
| `CurrencySelector.EuroScenario` | components/CurrencySelector.tsx:33-38 | with US Dollar and Euro listed and the query "eu", only Euro is kept |
| `CurrencySelector.IsSelectedRow` | components/CurrencySelector.tsx:92 | a row is marked selected exactly when its code equals the selected currency's code |
| `CurrencySelector.NoSelectedRowWithoutItsCode` | components/CurrencySelector.tsx:92 | if no entry carries the selected currency's code, no row of the filtered list is marked selected |
| `CurrencySelector.SelectedRowShownForItsCode` | components/CurrencySelector.tsx:101 | if some listed entry has the selected currency's code (its name and symbol may differ) and the query is that code in any case, the filtered list shows a row marked selected |
| `CurrencySelector.Picker.constructor` | components/CurrencySelector.tsx:30-31 | on mount the modal is hidden, the query is empty and no callback has happened |
| `CurrencySelector.Picker.Rows` | components/CurrencySelector.tsx:84-85 | the list the modal shows is the filter of the owner's list by the current query, with the filter's subsequence, soundness and completeness properties |
| `CurrencySelector.Picker.Open` | components/CurrencySelector.tsx:50 | the selector button shows the modal and keeps the query and the callback log |
| `CurrencySelector.Picker.Dismiss` | components/CurrencySelector.tsx:62-68 | the back/close request and the close button hide the modal; the query and the callback log are unchanged |
| `CurrencySelector.Picker.EditText` | components/CurrencySelector.tsx:79 | a text edit replaces the query; visibility and the callback log are unchanged |
| `CurrencySelector.Picker.Select` | components/CurrencySelector.tsx:40-44 | `onSelect` is invoked exactly once, with the given currency; afterwards the modal is hidden and the query is empty |
| `CurrencySelector.Picker.PressRow` | components/CurrencySelector.tsx:88-94 | pressing a shown row selects that row's currency, which is an entry of the owner's list and matches the query |
| `CurrencySelector.ReopenAfterDismiss` | components/CurrencySelector.tsx:62-68 | after typing, dismissing and reopening, the modal is shown with the typed query still in place |
| `CurrencySelector.ReopenAfterSelect` | components/CurrencySelector.tsx:40-50 | after a row is selected and the modal is reopened, the whole owner's list is shown |

## Left out

- Rendering and styling (lines 46-112 apart from the handlers and the row test, and the style sheet at lines 114-210): `View`, `Text`, `Modal`, `FlatList`, `TouchableOpacity`, `TextInput` and `Ionicons` are UI primitives from libraries whose code is not part of this model.
- `Strings.Lower`: models `toLowerCase` on ASCII letters only. JavaScript lower-cases by Unicode rules (for example accented capitals, and characters whose lower-case form is longer), which this model does not capture.
- `CurrencySelector.Filter`: for the empty query the source returns the very same array object; the model states value equality, since Dafny sequences have no identity.
- React's `useState` and its re-render scheduling: the state is two plain fields updated at once when a handler runs.
- `CurrencySelector.Picker.Select`: the ghost log records which currency was passed to `onSelect` and how often. It does not record that the call happens before the two state updates. What the owner does in the callback is not modelled.
- `CurrencySelector.Picker.PressRow`: requires the modal to be visible and the index to be a shown row, because rows exist only while the modal is rendered.
- Uniqueness of currency codes: `keyExtractor` (line 86) relies on it, but nothing enforces it. No lemma assumes it, and the filter lemmas count duplicates.
- The selected currency is an input of the component and is never changed by it. `IsSelectedRow` takes it as a parameter.
