# Personal inventory page — a verified Dafny model

This project models the logic of a single-page personal inventory tracker. The page keeps an
ordered list of items in memory. Each item has a name, quantity, category, location,
description, id and two timestamps. The user adds, edits, deletes and searches items through
a form that validates its fields first. The page also shows three statistics: item count,
distinct categories and total quantity.

The model has five modules:

- `Wrappers` (`wrappers.dfy`) holds the `Option` datatype: `None` stands for JavaScript's
  `null` and for `parseInt`'s `NaN`.
- `JsString` (`js_string.dfy`) states the JavaScript string built-ins the code relies on:
  - `trim`, over the full ECMAScript whitespace set;
  - `toLowerCase`, for ASCII letters;
  - `includes`;
  - the default `sort` order;
  - `parseInt` with no radix, including the optional sign and the `0x` prefix;
  - `String(n)` for integers.
- `Inventory` (`inventory.dfy`) models `src/pages/Index.tsx`:
  - the item record;
  - add, edit and delete as pure functions on the item list;
  - the search view, the sorted distinct categories, the total quantity and the category
    colour;
  - the class `InventoryPage`, which holds the component's state (`items`, `searchTerm`,
    `editingItem`, `deletingItem`) and whose handler methods apply those functions.
- `ItemForm` (`item_form.dfy`) models `src/components/AddEditItemForm.tsx`:
  - the category options and the initial form data;
  - the four validation rules and the error map they build;
  - the submit gate;
  - the per-field update, which clears only that field's error;
  - the quantity input coercion `parseInt(v) || 1`;
  - the class `ItemFormState`, which holds `formData` and `errors`.
- `Scenarios` (`scenarios.dfy`) proves what the page and the form compute on small concrete
  inputs.

The clock and id generation become parameters. `handleAddItem` reads the clock three times:
`Date.now()` for the id, and `new Date()` once for each timestamp. `InventoryPage.AddItem`
therefore takes three readings. The id is the decimal string of the first reading.

## Model

| member | source | states |
|---|---|---|
| `JsString.TrimStart` | src/components/AddEditItemForm.tsx:59 | the result is the suffix of the input left after a run of whitespace, and it does not start with whitespace |
| `JsString.TrimEnd` | src/components/AddEditItemForm.tsx:59 | the result is the prefix of the input before a run of whitespace, and it does not end with whitespace |
| `JsString.Trim` | src/components/AddEditItemForm.tsx:59-73 | `s.trim()` is empty iff every character of `s` is whitespace; a non-empty result starts and ends with non-whitespace |
| `JsString.ToLower` | src/pages/Index.tsx:67-69 | lower-casing keeps the length and lowers each character on its own |
| `JsString.ToLowerIdempotent` | src/pages/Index.tsx:67-69 | lower-casing twice equals lower-casing once |
| `JsString.Includes` | src/pages/Index.tsx:67-69 | no contract of its own; `IncludesIff` specifies it: `h.includes(n)` holds iff `n` occurs in `h` at some index |
| `JsString.IncludesIff` | src/pages/Index.tsx:67-69 | `h.includes(n)` holds iff `n` occurs in `h` at some index |
| `JsString.IncludesEmpty` | src/pages/Index.tsx:65-71 | every string includes the empty string |
| `JsString.Less` | src/pages/Index.tsx:75 | no contract of its own; `LessIrreflexive`, `LessTransitive` and `LessTotal` make it the strict total order `sort()` uses |
| `JsString.LessIrreflexive` | src/pages/Index.tsx:75 | no string sorts before itself |
| `JsString.LessTransitive` | src/pages/Index.tsx:75 | the default sort order is transitive |
| `JsString.LessTotal` | src/pages/Index.tsx:75 | of two distinct strings, one sorts before the other |
| `JsString.DigitPrefix` | src/components/AddEditItemForm.tsx:117 | `parseInt` reads the longest prefix of digits of the radix |
| `JsString.ParseInt` | src/components/AddEditItemForm.tsx:117 | no contract of its own; `DigitPrefix` states its digit scan, and `ParseIntRoundTrip` reads back every `String(n)` |
| `JsString.IntToString` | src/pages/Index.tsx:81 | no contract of its own; `ParseIntRoundTrip` and `IntToStringInjective` specify it: the rendering parses back to `n`, so distinct integers render differently |
| `JsString.ParseIntRoundTrip` | src/components/AddEditItemForm.tsx:117 | `parseInt(String(n)) === n` for every integer `n` |
| `JsString.IntToStringInjective` | src/pages/Index.tsx:81 | distinct clock readings give distinct id strings |
| `Inventory.Filter` | src/pages/Index.tsx:66-70 | no contract of its own; `FilterIsSubsequence`, `FilterMultiset`, `FilterMembership`, `FilterKeepsAll` and `FilterIdempotent` specify it |
| `Inventory.FilterIsSubsequence` | src/pages/Index.tsx:66-70 | `filter` returns an order-preserving subsequence of its input |
| `Inventory.FilterMultiset` | src/pages/Index.tsx:66-70 | `filter` keeps every occurrence of each element that passes and none of an element that fails |
| `Inventory.FilterMembership` | src/pages/Index.tsx:66-70 | an element is in the filtered list iff it is in the input and passes |
| `Inventory.FilterKeepsAll` | src/pages/Index.tsx:66-70 | filtering with a predicate every element passes returns the input unchanged |
| `Inventory.FilterIdempotent` | src/pages/Index.tsx:115 | filtering twice with the same predicate equals filtering once |
| `Inventory.Matches` | src/pages/Index.tsx:66-69 | no contract of its own; `SearchSpec` states that the view keeps exactly the items it accepts |
| `Inventory.Search` | src/pages/Index.tsx:65-71 | no contract of its own; `SearchSpec`, `SearchEmptyTermIsAll` and `SearchIgnoresTermCase` specify it |
| `Inventory.SearchSpec` | src/pages/Index.tsx:65-71 | the filtered view is an order-preserving subsequence of `items`. It keeps an item iff the lowercased term is included in its lowercased name, location or category, and keeps every copy of each such item |
| `Inventory.SearchEmptyTermIsAll` | src/pages/Index.tsx:65-71 | with the empty search term the filtered view equals `items` |
| `Inventory.SearchIgnoresTermCase` | src/pages/Index.tsx:67-69 | lower-casing the search term does not change the filtered view |
| `Inventory.CategoryList` | src/pages/Index.tsx:74 | `items.map(item => item.category)` has one entry per item, in order |
| `Inventory.Dedup` | src/pages/Index.tsx:74 | `Array.from(new Set(...))` has no duplicates and the same elements as its input |
| `Inventory.Insert` | src/pages/Index.tsx:75 | no contract of its own; `InsertMultiset` and `InsertStrictlySorted` specify it |
| `Inventory.Sort` | src/pages/Index.tsx:75 | no contract of its own; `SortSpec` specifies it: a permutation, strictly sorted on duplicate-free input |
| `Inventory.InsertMultiset` | src/pages/Index.tsx:75 | inserting into the sorted list adds exactly that one element |
| `Inventory.InsertStrictlySorted` | src/pages/Index.tsx:75 | inserting a new string into a strictly sorted list keeps it strictly sorted |
| `Inventory.SortSpec` | src/pages/Index.tsx:75 | `sort()` is a permutation of its input, and sorts a duplicate-free input strictly |
| `Inventory.Categories` | src/pages/Index.tsx:73-76 | no contract of its own; `CategoriesSpec` specifies it |
| `Inventory.CategoriesSpec` | src/pages/Index.tsx:73-76 | `categories` is strictly sorted, so it has no duplicates. Its elements are exactly the categories present in `items`, and its length (the "Categories" statistic) is their number |
| `Inventory.ReduceQuantity` | src/pages/Index.tsx:178 | no contract of its own; `ReduceIsSum` equates it with the recursive sum |
| `Inventory.TotalQuantity` | src/pages/Index.tsx:178 | no contract of its own; `TotalQuantityIsSum`, `AddTotalQuantity`, `EditTotalQuantity` and `DeleteUniqueRemovesOne` specify it |
| `Inventory.ReduceIsSum` | src/pages/Index.tsx:178 | the `reduce` left fold from an accumulator equals the accumulator plus the sum of the quantities |
| `Inventory.TotalQuantityIsSum` | src/pages/Index.tsx:178 | the "Total Quantity" statistic is the sum of `quantity` over `items`, and 0 for no items |
| `Inventory.SumAppend` | src/pages/Index.tsx:178 | the total of two concatenated lists is the sum of their totals |
| `Inventory.SumUpdate` | src/pages/Index.tsx:178 | replacing one item changes the total by the difference of the quantities |
| `Inventory.TotalAtLeastCount` | src/pages/Index.tsx:178 | when every quantity is at least 1, the total quantity is at least the item count |
| `Inventory.NewItem` | src/pages/Index.tsx:79-84 | no contract of its own; `AddSpec` states every field of the new item |
| `Inventory.WithAdded` | src/pages/Index.tsx:78-85 | no contract of its own; `AddSpec` and the add lemmas below specify it |
| `Inventory.AddSpec` | src/pages/Index.tsx:78-85 | add returns n+1 items. The first n are unchanged. The last carries the draft's five fields, the id of the `Date.now()` reading and `createdAt` and `updatedAt` from the two separate `new Date()` readings |
| `Inventory.AddPreservesWellFormed` | src/pages/Index.tsx:79-85 | adding a validated draft with non-decreasing clock readings keeps every item well-formed |
| `Inventory.AddKeepsIdsUnique` | src/pages/Index.tsx:81-85 | ids stay unique when the new id is not yet present; the code does not check this |
| `Inventory.SameMillisecondAddsCollide` | src/pages/Index.tsx:81 | two adds with the same `Date.now()` reading give two items with the same id |
| `Inventory.DistinctReadingsGiveDistinctIds` | src/pages/Index.tsx:81 | adds at distinct milliseconds give distinct ids |
| `Inventory.AddTotalQuantity` | src/pages/Index.tsx:85 | adding raises the total quantity by the draft's quantity |
| `Inventory.EditedItem` | src/pages/Index.tsx:96-100 | no contract of its own; `EditSpec` and `EditUnchangedDraftRefreshesTimestamp` state its fields |
| `Inventory.ApplyEdit` | src/pages/Index.tsx:102-104 | no contract of its own; `EditSpec` and the edit lemmas below specify it |
| `Inventory.EditSpec` | src/pages/Index.tsx:96-104 | edit keeps the length and every item whose id differs from the target's. Each matching item becomes the draft with the target's `id` and `createdAt` and the new `updatedAt` |
| `Inventory.EditAbsentIsIdentity` | src/pages/Index.tsx:102-104 | an edit whose target id is absent, for example because it was deleted, leaves the list unchanged |
| `Inventory.EditIdempotent` | src/pages/Index.tsx:102-104 | applying the same edit twice equals applying it once |
| `Inventory.EditKeepsIds` | src/pages/Index.tsx:96-104 | edit keeps every id in place, so unique ids stay unique |
| `Inventory.EditPreservesWellFormed` | src/pages/Index.tsx:96-104 | editing with a validated draft at a reading no earlier than the target's creation keeps every item well-formed |
| `Inventory.EditUnchangedDraftRefreshesTimestamp` | src/pages/Index.tsx:96-100 | resubmitting an item's own fields only changes its `updatedAt` |
| `Inventory.EditTotalQuantity` | src/pages/Index.tsx:102-104 | with unique ids, editing changes the total by the new quantity minus the old one |
| `Inventory.WithoutId` | src/pages/Index.tsx:115 | no contract of its own; `DeleteSpec` and the delete lemmas below specify it |
| `Inventory.DeleteSpec` | src/pages/Index.tsx:115 | delete keeps the relative order of the items whose id differs from the given one, with their multiplicity. It removes every item with that id |
| `Inventory.DeleteIdempotent` | src/pages/Index.tsx:115 | deleting twice equals deleting once |
| `Inventory.DeleteAbsentIsIdentity` | src/pages/Index.tsx:115 | deleting an absent id leaves the list unchanged |
| `Inventory.DeleteUniqueCutsOut` | src/pages/Index.tsx:115 | with unique ids, deleting the id at index k removes exactly index k |
| `Inventory.DeleteUniqueRemovesOne` | src/pages/Index.tsx:115 | with unique ids, deleting a present id removes one item and lowers the total by its quantity |
| `Inventory.DeletePreserves` | src/pages/Index.tsx:115 | delete keeps the remaining items well-formed and their ids unique |
| `Inventory.CategoryColorAsWritten` | src/pages/Index.tsx:123-132 | no contract of its own; `AsWrittenReturnsInheritedMember` exhibits its inherited-member result, and `CategoryColor` agrees with it off the `Object.prototype` names |
| `Inventory.AsWrittenReturnsInheritedMember` | src/pages/Index.tsx:123-132 | as written, the lookup for the category "toString" returns an inherited member, not a class string |
| `Inventory.CategoryColor` | src/pages/Index.tsx:123-132 | the colour is gray iff the category is not one of the five table keys. It agrees with the lookup as written on every category that is not an `Object.prototype` member |
| `Inventory.InventoryPage.constructor` | src/pages/Index.tsx:58-62 | the page starts with the given items, an empty search term and nothing selected |
| `Inventory.InventoryPage.SetSearchTerm` | src/pages/Index.tsx:199 | the search input sets `searchTerm` and nothing else |
| `Inventory.InventoryPage.SelectForEdit` | src/pages/Index.tsx:295 | an edit click or a dialog close sets `editingItem` and nothing else |
| `Inventory.InventoryPage.SelectForDelete` | src/pages/Index.tsx:303 | a delete click or a cancel sets `deletingItem` and nothing else |
| `Inventory.InventoryPage.AddItem` | src/pages/Index.tsx:78-86 | `items` becomes the old list plus the new item. The store invariant holds afterwards for a validated draft, non-decreasing readings and a fresh id |
| `Inventory.InventoryPage.EditItem` | src/pages/Index.tsx:93-105 | with no selected item, nothing changes. Otherwise the edit is applied to `items` and the selection is cleared. The store invariant is kept for a validated draft and a clock reading no earlier than the selected item's `createdAt` |
| `Inventory.InventoryPage.DeleteItem` | src/pages/Index.tsx:112-121 | with no selected item, nothing changes. Otherwise the items with its id are removed and the selection is cleared. The store invariant is kept |
| `ItemForm.InitialFormData` | src/components/AddEditItemForm.tsx:34-54 | no contract of its own; `InitialFormDataSpec` specifies it |
| `ItemForm.InitialFormDataSpec` | src/components/AddEditItemForm.tsx:34-54 | the form loaded from a well-formed item has no validation error; the empty form fails exactly the name, category and location rules |
| `ItemForm.ValidationErrors` | src/components/AddEditItemForm.tsx:56-73 | the error map has a `name` entry iff the trimmed name is empty, a `quantity` entry iff quantity < 1, a `category` entry iff the category is empty, and a `location` entry iff the trimmed location is empty. It never has a `description` entry, and each entry holds its rule's message |
| `ItemForm.ValidationAcceptsExactlyValidDrafts` | src/components/AddEditItemForm.tsx:56-77 | the error map is empty iff the draft satisfies all four rules |
| `ItemForm.ApplyFieldEdit` | src/components/AddEditItemForm.tsx:88 | `{ ...prev, [field]: value }` sets the edited field to the value and keeps every other field |
| `ItemForm.ClearError` | src/components/AddEditItemForm.tsx:89-91 | the error keys are unchanged. The edited field's error becomes empty where it existed, and every other error is kept |
| `ItemForm.ClearErrorIdempotent` | src/components/AddEditItemForm.tsx:89-91 | clearing a field's error twice equals clearing it once |
| `ItemForm.CoerceQuantity` | src/components/AddEditItemForm.tsx:117 | `parsed \|\| 1` is never 0. NaN and 0 become 1, and every other integer, negative ones included, passes through |
| `ItemForm.QuantityInput` | src/components/AddEditItemForm.tsx:117 | no contract of its own; `QuantityInputRoundTrip`, `QuantityInputEmpty` and `QuantityInputRejectedIffNegative` specify it |
| `ItemForm.QuantityInputRoundTrip` | src/components/AddEditItemForm.tsx:117 | typing the decimal form of a non-zero integer stores it, and typing 0 stores 1 |
| `ItemForm.QuantityInputEmpty` | src/components/AddEditItemForm.tsx:117 | clearing the input stores 1 |
| `ItemForm.QuantityInputRejectedIffNegative` | src/components/AddEditItemForm.tsx:63-65 | after a quantity input, validation flags the quantity iff the input parsed to a negative integer |
| `ItemForm.CategoryOptionsColors` | src/components/AddEditItemForm.tsx:16-27 | every category option is non-empty, and its colour as written equals the intended colour. The first five options have their own colour and the other five are gray |
| `ItemForm.SubmittedDraftKeepsStoreValid` | src/components/AddEditItemForm.tsx:79-85 | a draft that validation accepts, added with a fresh id and non-decreasing readings, keeps the store valid and raises the total quantity |
| `ItemForm.ItemFormState.constructor` | src/components/AddEditItemForm.tsx:34-54 | a fresh form holds `''`, 1, `''`, `''`, `''` and no errors. With `initialData` it holds that item's five fields |
| `ItemForm.ItemFormState.LoadInitialData` | src/components/AddEditItemForm.tsx:44-54 | the effect loads the item's five fields when an item is given, and leaves the form alone otherwise |
| `ItemForm.ItemFormState.ValidateForm` | src/components/AddEditItemForm.tsx:56-77 | `errors` becomes exactly the new error map. The result is true iff that map has no keys, which holds iff the draft satisfies the four rules |
| `ItemForm.ItemFormState.HandleSubmit` | src/components/AddEditItemForm.tsx:79-85 | `formData` reaches `onSubmit` only when validation succeeds, so every submitted draft satisfies the four rules |
| `ItemForm.ItemFormState.HandleInputChange` | src/components/AddEditItemForm.tsx:87-92 | only the edited field changes, and only that field's error is cleared |
| `ItemForm.ItemFormState.HandleQuantityInput` | src/components/AddEditItemForm.tsx:117 | the quantity input stores the coerced parse of the raw text and clears only the quantity error |
| `Scenarios.BlankNameScenario` | src/components/AddEditItemForm.tsx:59-61 | the draft `{name: "", quantity: 1, category: "Food", location: "Shelf"}` yields exactly `{name: "Item name is required"}` and is not valid |
| `Scenarios.DrillScenario` | src/pages/Index.tsx:78-85 | adding "Drill" (2, Tools, Garage) to no items gives one item named "Drill", the categories `["Tools"]` and total quantity 2 |
| `Scenarios.TwoCategoriesScenario` | src/pages/Index.tsx:73-76 | items in "Tools" and then "Food" list their categories as `["Food", "Tools"]` |
| `Scenarios.SearchScenario` | src/pages/Index.tsx:65-71 | "cabinet" finds the "Coffee Beans" item in "Kitchen Cabinet", and "zzz" finds nothing |
| `Scenarios.KitchenScenario` | src/pages/Index.tsx:65-71 | "kitchen" matches one item by its location "Kitchen Cabinet" and another by its category "Kitchen" |
| `Scenarios.QuantityTwelve` | src/components/AddEditItemForm.tsx:117 | typing "12" stores 12 |
| `Scenarios.QuantityMinusThree` | src/components/AddEditItemForm.tsx:117 | typing "-3" stores -3 |
| `Scenarios.QuantityNoDigits` | src/components/AddEditItemForm.tsx:117 | typing "abc" stores 1 |
| `Scenarios.QuantityFraction` | src/components/AddEditItemForm.tsx:117 | typing "2.5" stores 2 |

## Left out

- Rendering is not modelled: the JSX layout, the stats cards, the table, the dialogs and the
  add dialog's open flag (`isAddModalOpen`). `DeleteConfirmDialog.tsx` is pure presentation
  and is not part of this model.
- Toast notifications are a display side channel with no effect on state.
- React's scheduling is not modelled. State updates apply at once, in call order. `useMemo`
  derivations are plain functions of `items` and the search term.
- The seed list `initialItems` is not modelled. The page constructor takes any initial list.
- `Date.now()` and `new Date()` are parameters, because their values are nondeterministic.
  The lemmas about timestamps state the clock assumption they need, such as readings that do
  not decrease.
- Inventory.AddSpec: `createdAt == updatedAt` is not promised. The code reads the clock twice,
  and two readings can straddle a millisecond boundary; the timestamps agree only when the
  readings do.
- Inventory.AddKeepsIdsUnique: the code does not establish id uniqueness, so the lemma
  assumes a fresh id. `SameMillisecondAddsCollide` shows that two adds in the same
  millisecond break uniqueness.
- Inventory.WellFormed: the category rule is "non-empty", which is what validation checks.
  Membership in the ten options comes only from the select widget.
- `toLowerCase` is modelled for ASCII letters only. Full Unicode case mapping is out of scope.
- Sorting compares Dafny characters, which are Unicode scalar values. JavaScript compares
  UTF-16 code units. The two orders differ only for characters outside the Basic
  Multilingual Plane.
- Quantities are unbounded integers. JavaScript numbers are doubles, so `parseInt` loses
  precision on inputs past 2^53. That rounding is not modelled.
- `handleInputChange` takes `value: any`. The model pairs each field with the type its
  widget supplies (`FieldEdit`).
- Edit with a missing id is a silent no-op; nothing is reported to the caller.
- Delete removes every item with the id.
- The two timestamps come from separate clock reads (src/pages/Index.tsx:82-83).

## Findings

| source | as written | input that shows it | evidently intended | confidence | as-written member | corrected member |
|---|---|---|---|---|---|---|
| src/pages/Index.tsx:123-132 | `colors[category] \|\| 'bg-gray-100 text-gray-800'` looks the category up on a plain object, so names inherited from `Object.prototype` are found too | category `"toString"` (also `"constructor"`, `"valueOf"`, `"__proto__"`, ...) yields an inherited function or object as the badge class | every category other than the five table keys gets the gray class | not executed; only reachable with a category the select does not offer | `Inventory.AsWrittenReturnsInheritedMember` | `Inventory.CategoryColor` |
