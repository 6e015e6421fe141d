# To-do list container, modelled in Dafny

This project models the state container of a small React to-do application: the
top-level `App` component in `src/components/app/app.js`. The component holds these four things:

- an ordered list of items `{label, important, done, id}` (`todoData`);
- a search `term`;
- a status `filter` (`'all'`, `'active'` or `'done'`);
- an id counter `maxId` that starts at 100.

Its handlers do the following:

- create items with fresh ids;
- append an item;
- delete an item by id;
- flip an item's `done` or `important` flag;
- change the search term and the filter.

On each render the component works out three things:

- the visible items: a case-insensitive substring search, then the status filter;
- the number of items that are done;
- the number of items still to do.

The files:

- `js_array.dfy` (module `JsArray`) gives the meaning of the JavaScript array
  operations the component uses:
  - `slice`, including its rule that negative bounds count from the end;
  - `filter`;
  - the order-preserving subsequence relation, which states what `filter` keeps.
- `js_string.dfy` (module `JsString`) gives the meaning of `toLowerCase` and
  `indexOf`. Lower-casing covers ASCII only.
- `todo_data.dfy` (module `TodoData`) holds the pure part of the component:
  - the `Item` record;
  - `findIndex` by id;
  - the list built by `deleteItem`'s state updater;
  - `toggleProperty`;
  - `search` and `filter`;
  - the counts and the visible list computed in `render`.
- `app.dfy` (module `App`) holds the class `Store`:
  - its fields are `maxId`, `todoData`, `term` and `filter`;
  - its methods are `createTodoItem` and the handlers;
  - each method keeps the invariant that ids strictly increase along the list and
    stay below `maxId`.

  The module also has a client method, `ToggleThenShowDone`, which plays the
  component's first screen. It marks item 101 done, reads the counts as 2 to do
  and 1 done, then switches to the `'done'` view and sees only item 101.

`label` is a reserved word in Dafny, so the item's label field is called `text`.

### A missing id is not a no-op

One might expect deleting or toggling an id that is not in the list to change
nothing. The code does something else, and the model follows the code:

- `findIndex` returns -1 when no item has the id.
- `deleteItem` then builds `slice(0, -1)` followed by `slice(0)`. That is every item
  but the last, followed by the whole list. `TodoData.DeleteFrom` states this.
  `TodoData.DeleteMissingDuplicates` proves what happens with two or more items:
  the list grows to 2n-1 items and its first item appears twice.
- `toggleProperty` reads `arr[-1]`, which is `undefined`, and then reads a property
  of `undefined`, which throws a TypeError. `TodoData.ToggleProperty` returns
  `ThrowsTypeError` in that case.

The list view only ever passes ids of items it shows. So the `Store` handlers for
deleting and toggling require that the id is present.

## Model

| member | source | states |
|---|---|---|
| `App.Store.constructor` | src/components/app/app.js:12-22 | The initial state has items 100, 101 and 102 ("Drink Coffee", "Make Awesome App", "Hav a lunch"), none done or important. `maxId` is 103, the term is empty, the filter is `'all'`, and the id invariant holds. |
| `App.Store.CreateTodoItem` | src/components/app/app.js:25-31 | Returns an item with the given label, not done, not important, whose id is the old `maxId`. That id is above every listed id. `maxId` goes up by exactly 1 and the invariant is kept. |
| `App.Store.AddItem` | src/components/app/app.js:51-65 | The new list is the old list followed by exactly one new item with the label and a fresh id that no old item has. `maxId` goes up by 1, term and filter are unchanged, and the invariant is kept. |
| `App.Store.DeleteItem` | src/components/app/app.js:34-49 | For a present id, the list loses exactly that item. The length drops by 1 and the survivors are an order-preserving subsequence of the old list. The id is gone and every other id is still there. The invariant is kept. |
| `App.Store.OnToggleDone` | src/components/app/app.js:95-101 | For a present id, the new list is `toggleProperty(todoData, id, 'done')`. The length is the same and the invariant is kept. |
| `App.Store.OnToggleImportant` | src/components/app/app.js:87-93 | For a present id, the new list is `toggleProperty(todoData, id, 'important')`. The length is the same and the invariant is kept. |
| `App.Store.OnSearchChange` | src/components/app/app.js:103-105 | Sets the term. The items, `maxId` and the filter are unchanged. |
| `App.Store.OnFilterChange` | src/components/app/app.js:107-109 | Sets the filter. The items, `maxId` and the term are unchanged. |
| `App.Store.Render` | src/components/app/app.js:136-146 | The visible items are the search result run through the status filter, and they form an ordered subsequence of the items. The done count is the number of done items and the to-do count is the number of active items. The two counts add up to the number of items, whatever the term or filter. |
| `TodoData.FindIndex` | src/components/app/app.js:37 | Returns -1 exactly when no item has the id. Otherwise it returns the first position whose item has the id. |
| `TodoData.FindIndexUnique` | src/components/app/app.js:37 | When ids increase along the list, the found position is the only one holding that id. |
| `TodoData.FindIndexSameIds` | src/components/app/app.js:69 | Two lists with the same id at every position give the same `findIndex` result. |
| `TodoData.DeleteFrom` | src/components/app/app.js:36-47 | With the id present, the result is the list without the element at the first matching index, one shorter. With the id missing, it is every item but the last followed by the whole list (empty for an empty list). |
| `TodoData.DeletePresent` | src/components/app/app.js:36-47 | Deleting a present id from a list with increasing ids gives a list one shorter. The result is an ordered subsequence of the original with increasing ids. The deleted id is gone and every other id is kept. |
| `TodoData.DeleteMissingDuplicates` | src/components/app/app.js:37-43 | With the id missing and two or more items, the result has 2n-1 items. Its positions 0 and n-1 both hold the first item, so ids are no longer increasing. |
| `TodoData.Flip` | src/components/app/app.js:73-76 | The copy has the same label and id. The chosen flag is negated and the other flag is kept. |
| `TodoData.FlipTwice` | src/components/app/app.js:73-76 | Flipping the same flag twice gives back the item. |
| `TodoData.ToggleProperty` | src/components/app/app.js:68-84 | Throws exactly when the id is missing. Otherwise the length is the same and every element except the one at the found index is unchanged. In that element only the chosen flag is negated. |
| `TodoData.ToggleKeepsIds` | src/components/app/app.js:68-84 | Toggling keeps the length and the id at every position, so the increasing-ids invariant is kept. |
| `TodoData.ToggleTwice` | src/components/app/app.js:68-84 | Toggling the same flag of the same present id twice gives back the original list. |
| `TodoData.Search` | src/components/app/app.js:111-121 | An empty term gives back the items unchanged. Otherwise the result is an ordered subsequence holding exactly the items whose lower-cased label contains the lower-cased term, each with as many copies as the input has. |
| `TodoData.SearchIgnoresCase` | src/components/app/app.js:116-120 | Two terms with the same lower-case form give the same result. |
| `TodoData.SearchFindsCoffee` | src/components/app/app.js:116-120 | Searching ["Drink Coffee"] for "coffee" finds that item. |
| `TodoData.SearchMissesXyz` | src/components/app/app.js:116-120 | Searching ["Drink Coffee"] for "xyz" finds nothing. |
| `TodoData.FilterByStatus` | src/components/app/app.js:123-134 | `'active'` keeps exactly the items not done, and `'done'` keeps exactly the items done, both as ordered subsequences that keep every copy of a kept item. `'all'` and every other value give back the items unchanged. |
| `TodoData.ActiveAndDonePartition` | src/components/app/app.js:127-130 | The lengths of the `'active'` and `'done'` results add up to the number of items. |
| `TodoData.DoneCount` | src/components/app/app.js:145 | At most the number of items. It is zero exactly when no item is done. |
| `TodoData.TodoCount` | src/components/app/app.js:146 | Plus the done count it gives the number of items, and it equals the size of the `'active'` view. |
| `TodoData.Visible` | src/components/app/app.js:139-142 | The visible list is an ordered subsequence of the items and holds only listed items. With an empty term and the `'all'` filter it is the whole list. |
| `JsArray.Slice` | src/components/app/app.js:40-43 | Bounds inside the array select `s[start..end]`. `slice(0, -1)` drops the last element. |
| `JsArray.SliceFrom` | src/components/app/app.js:42 | `s.slice(start)`: a start inside the array gives `s[start..]`. A negative start down to `-len` counts back from the end. A start below `-len` gives the whole array, so `slice(0)` after a failed `findIndex` copies everything. |
| `JsArray.Filter` | src/components/app/app.js:128-130 | Keeps exactly the elements that satisfy the predicate, in their original order. Each kept value appears as many times as in the input; the others do not appear. |
| `JsArray.FilterComplement` | src/components/app/app.js:145-146 | Filtering with a predicate and with its negation gives lengths that add up to the whole. |
| `JsArray.SubsequenceTransitive` | src/components/app/app.js:139-142 | A subsequence of a subsequence is a subsequence, so search followed by the filter stays a subsequence of the items. |
| `JsString.IndexOf` | src/components/app/app.js:117-119 | Returns -1 exactly when the string does not contain the term. Otherwise it returns the first position where the term occurs. |
| `JsString.ToLower` | src/components/app/app.js:117-118 | Keeps the length and lower-cases each character. |
| `JsString.ToLowerIdempotent` | src/components/app/app.js:117-118 | Lower-casing twice is lower-casing once. |

## Left out

- The JSX tree of `render`, the CSS import and the child components (header, search panel, list, add form) are view markup.
- `src/components/item-status-filter/item-status-filter.js` is not part of this model. It only renders three fixed buttons and passes `'all'`, `'active'` or `'done'` to `onFilterChange`.
- React's `setState` machinery is left out: updater callbacks, batching, asynchronous application and the merge into the state object. Each handler is one synchronous replacement of the fields it sets.
- JsString.ToLower: lower-cases ASCII letters only. Full Unicode case mapping, where the length can change, is not modelled.
- Ids are unbounded integers. JavaScript numbers lose integer precision above 2^53; that is not modelled.
- App.Store.DeleteItem: requires the id to be present. The missing-id result (items duplicated) is stated on `TodoData.DeleteFrom` and `TodoData.DeleteMissingDuplicates`, not as a store transition, because it breaks the id invariant.
- App.Store.OnToggleDone: requires the id to be present. For a missing id the source throws, which is stated on `TodoData.ToggleProperty`.
- App.Store.OnToggleImportant: requires the id to be present, for the same reason as `OnToggleDone`.
- `toggleProperty` takes a property name. The model restricts it to the two names the component passes, `'done'` and `'important'`.
