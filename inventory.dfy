/** The inventory page (src/pages/Index.tsx): the item record, the three store transitions
    (add, edit, delete) and the four read-only views (search, distinct sorted categories,
    total quantity, category colour). The transitions are pure functions on the item list;
    `InventoryPage` holds the component's state and applies them. */
module Inventory {
  import opened Wrappers
  import opened JsString

  /** The five user-editable fields: an `InventoryItem` without `id` and timestamps. */
  datatype Draft = Draft(name: string, quantity: int, category: string, location: string, description: string)

  /** `InventoryItem`. Timestamps are milliseconds since the epoch. */
  datatype Item = Item(
    id: string,
    name: string,
    quantity: int,
    category: string,
    location: string,
    description: string,
    createdAt: int,
    updatedAt: int)

  function DraftOf(item: Item): Draft {
    Draft(item.name, item.quantity, item.category, item.location, item.description)
  }

  /** The rules every stored draft is meant to satisfy: what the item form checks before it
      submits. */
  predicate DraftValid(d: Draft) {
    Trim(d.name) != [] && d.quantity >= 1 && d.category != [] && Trim(d.location) != []
  }

  /** The data invariant of a stored item. */
  predicate WellFormed(item: Item) {
    DraftValid(DraftOf(item)) && item.createdAt <= item.updatedAt
  }

  predicate AllWellFormed(items: seq<Item>) {
    forall i :: 0 <= i < |items| ==> WellFormed(items[i])
  }

  predicate IdsUnique(items: seq<Item>) {
    forall i, j :: 0 <= i < j < |items| ==> items[i].id != items[j].id
  }

  predicate HasId(items: seq<Item>, id: string) {
    exists i :: 0 <= i < |items| && items[i].id == id
  }

  // ---------------------------------------------------------------------------------------
  // Array.prototype.filter and the subsequence relation it establishes

  /** `s.filter(keep)`. */
  function Filter<T>(s: seq<T>, keep: T -> bool): seq<T> {
    if s == [] then [] else (if keep(s[0]) then [s[0]] else []) + Filter(s[1..], keep)
  }

  /** `r` is `s` with some elements dropped and the order of the rest kept. */
  ghost predicate IsSubsequence<T>(r: seq<T>, s: seq<T>)
    decreases |s|
  {
    if r == [] then true
    else if s == [] then false
    else (r[0] == s[0] && IsSubsequence(r[1..], s[1..])) || IsSubsequence(r, s[1..])
  }

  lemma {:induction false} FilterIsSubsequence<T>(s: seq<T>, keep: T -> bool)
    ensures IsSubsequence(Filter(s, keep), s)
  {
    if s != [] {
      FilterIsSubsequence(s[1..], keep);
      var r := Filter(s, keep);
      if keep(s[0]) {
        assert r[0] == s[0] && r[1..] == Filter(s[1..], keep);
        assert IsSubsequence(r[1..], s[1..]);
      } else {
        assert r == Filter(s[1..], keep);
      }
    }
  }

  /** `filter` keeps every occurrence of an element that passes and none of one that fails. */
  lemma {:induction false} FilterMultiset<T>(s: seq<T>, keep: T -> bool)
    ensures forall x :: multiset(Filter(s, keep))[x] == if keep(x) then multiset(s)[x] else 0
  {
    if s != [] {
      FilterMultiset(s[1..], keep);
      assert s == [s[0]] + s[1..];
      assert multiset(s) == multiset{s[0]} + multiset(s[1..]);
    }
  }

  lemma FilterMembership<T>(s: seq<T>, keep: T -> bool)
    ensures forall x :: x in Filter(s, keep) <==> x in s && keep(x)
  {
    FilterMultiset(s, keep);
    forall x ensures x in Filter(s, keep) <==> x in s && keep(x) {
      assert x in Filter(s, keep) <==> multiset(Filter(s, keep))[x] > 0;
      assert x in s <==> multiset(s)[x] > 0;
    }
  }

  /** Filtering with a predicate every element passes changes nothing. */
  lemma {:induction false} FilterKeepsAll<T>(s: seq<T>, keep: T -> bool)
    requires forall i :: 0 <= i < |s| ==> keep(s[i])
    ensures Filter(s, keep) == s
  {
    if s != [] {
      FilterKeepsAll(s[1..], keep);
    }
  }

  lemma {:induction false} FilterIdempotent<T>(s: seq<T>, keep: T -> bool)
    ensures Filter(Filter(s, keep), keep) == Filter(s, keep)
  {
    if s != [] {
      FilterIdempotent(s[1..], keep);
      var f := Filter(s, keep);
      if keep(s[0]) {
        assert f == [s[0]] + Filter(s[1..], keep);
        assert f[0] == s[0] && f[1..] == Filter(s[1..], keep);
      } else {
        assert f == Filter(s[1..], keep);
      }
    }
  }

  /** Two predicates that agree everywhere filter alike. */
  lemma {:induction false} FilterCongruent<T>(s: seq<T>, p: T -> bool, q: T -> bool)
    requires forall x :: p(x) == q(x)
    ensures Filter(s, p) == Filter(s, q)
  {
    if s != [] {
      FilterCongruent(s[1..], p, q);
    }
  }

  // ---------------------------------------------------------------------------------------
  // Search (`filteredItems`)

  /** The item's lower-cased name, location or category includes the lower-cased term. */
  predicate Matches(item: Item, term: string) {
    var t := ToLower(term);
    Includes(ToLower(item.name), t) || Includes(ToLower(item.location), t) || Includes(ToLower(item.category), t)
  }

  /** `filteredItems`: the items that match the search term, in list order. */
  function Search(items: seq<Item>, term: string): seq<Item> {
    Filter(items, (item: Item) => Matches(item, term))
  }

  /** The filtered view is an order-preserving subsequence of the items, holding every
      occurrence of each matching item and nothing else. */
  lemma SearchSpec(items: seq<Item>, term: string)
    ensures IsSubsequence(Search(items, term), items)
    ensures forall it :: it in Search(items, term) <==> it in items && Matches(it, term)
    ensures forall it :: multiset(Search(items, term))[it] == if Matches(it, term) then multiset(items)[it] else 0
  {
    var keep := (item: Item) => Matches(item, term);
    FilterIsSubsequence(items, keep);
    FilterMembership(items, keep);
    FilterMultiset(items, keep);
  }

  /** With an empty search term every item is shown. */
  lemma SearchEmptyTermIsAll(items: seq<Item>)
    ensures Search(items, "") == items
  {
    forall i | 0 <= i < |items| ensures Matches(items[i], "") {
      IncludesEmpty(ToLower(items[i].name));
    }
    FilterKeepsAll(items, (item: Item) => Matches(item, ""));
  }

  /** The search ignores the case of the term. */
  lemma SearchIgnoresTermCase(items: seq<Item>, term: string)
    ensures Search(items, ToLower(term)) == Search(items, term)
  {
    ToLowerIdempotent(term);
    FilterCongruent(items, (item: Item) => Matches(item, ToLower(term)), (item: Item) => Matches(item, term));
  }

  // ---------------------------------------------------------------------------------------
  // Distinct sorted categories (`categories`)

  /** `items.map(item => item.category)`. */
  function CategoryList(items: seq<Item>): (r: seq<string>)
    ensures |r| == |items|
    ensures forall i :: 0 <= i < |items| ==> r[i] == items[i].category
  {
    if items == [] then [] else [items[0].category] + CategoryList(items[1..])
  }

  predicate NoDups(s: seq<string>) {
    forall i, j :: 0 <= i < j < |s| ==> s[i] != s[j]
  }

  /** `Array.from(new Set(s))`: first occurrences, in order. */
  function Dedup(s: seq<string>): (r: seq<string>)
    ensures NoDups(r)
    ensures forall x :: x in r <==> x in s
    decreases |s|
  {
    if s == [] then []
    else
      var d := Dedup(s[..|s| - 1]);
      var last := s[|s| - 1];
      assert s == s[..|s| - 1] + [last];
      if last in d then d else d + [last]
  }

  predicate StrictlySorted(s: seq<string>) {
    forall i, j :: 0 <= i < j < |s| ==> Less(s[i], s[j])
  }

  /** Insertion of one string into a sorted list, after the strings it does not precede. */
  function Insert(x: string, s: seq<string>): seq<string> {
    if s == [] then [x] else if Less(x, s[0]) then [x] + s else [s[0]] + Insert(x, s[1..])
  }

  /** `sort()` with the default comparison, as an insertion sort. */
  function Sort(s: seq<string>): seq<string> {
    if s == [] then [] else Insert(s[0], Sort(s[1..]))
  }

  lemma {:induction false} InsertMultiset(x: string, s: seq<string>)
    ensures multiset(Insert(x, s)) == multiset(s) + multiset{x}
  {
    if s != [] && !Less(x, s[0]) {
      InsertMultiset(x, s[1..]);
      assert s == [s[0]] + s[1..];
    }
  }

  lemma {:induction false} InsertStrictlySorted(x: string, s: seq<string>)
    requires StrictlySorted(s) && x !in s
    ensures StrictlySorted(Insert(x, s))
  {
    if s == [] {
    } else if Less(x, s[0]) {
      forall j | 0 < j < |s| ensures Less(x, s[j]) {
        LessTransitive(x, s[0], s[j]);
      }
    } else {
      LessTotal(x, s[0]);
      assert StrictlySorted(s[1..]);
      InsertStrictlySorted(x, s[1..]);
      InsertMultiset(x, s[1..]);
      var r := Insert(x, s[1..]);
      forall j | 0 <= j < |r| ensures Less(s[0], r[j]) {
        assert r[j] in multiset(r);
        assert r[j] == x || r[j] in s[1..];
      }
    }
  }

  lemma {:induction false} SortMultiset(s: seq<string>)
    ensures multiset(Sort(s)) == multiset(s)
  {
    if s != [] {
      SortMultiset(s[1..]);
      InsertMultiset(s[0], Sort(s[1..]));
      assert s == [s[0]] + s[1..];
    }
  }

  lemma {:induction false} SortStrictlySorted(s: seq<string>)
    requires NoDups(s)
    ensures StrictlySorted(Sort(s))
  {
    if s != [] {
      assert NoDups(s[1..]);
      SortStrictlySorted(s[1..]);
      SortMultiset(s[1..]);
      assert s[0] !in s[1..];
      assert s[0] !in multiset(Sort(s[1..]));
      InsertStrictlySorted(s[0], Sort(s[1..]));
    }
  }

  /** Sorting keeps the elements, and sorts a duplicate-free list strictly. */
  lemma SortSpec(s: seq<string>)
    ensures multiset(Sort(s)) == multiset(s)
    ensures NoDups(s) ==> StrictlySorted(Sort(s))
  {
    SortMultiset(s);
    if NoDups(s) {
      SortStrictlySorted(s);
    }
  }

  lemma StrictlySortedNoDups(s: seq<string>)
    requires StrictlySorted(s)
    ensures NoDups(s)
  {
    forall i, j | 0 <= i < j < |s| ensures s[i] != s[j] {
      LessIrreflexive(s[i]);
    }
  }

  /** A duplicate-free list has as many elements as its set. */
  lemma {:induction false} NoDupsCardinality(s: seq<string>)
    requires NoDups(s)
    ensures |set x | x in s| == |s|
  {
    if s != [] {
      assert NoDups(s[1..]);
      NoDupsCardinality(s[1..]);
      assert (set x | x in s) == {s[0]} + (set x | x in s[1..]);
    }
  }

  /** The set of category values present in the list. */
  function CategorySet(items: seq<Item>): set<string> {
    set i | 0 <= i < |items| :: items[i].category
  }

  /** `categories`: the distinct categories of the list, sorted. */
  function Categories(items: seq<Item>): seq<string> {
    Sort(Dedup(CategoryList(items)))
  }

  /** `categories` is strictly sorted (so duplicate-free), holds exactly the categories
      present in the list, and its length is the number of distinct categories. */
  lemma CategoriesSpec(items: seq<Item>)
    ensures StrictlySorted(Categories(items)) && NoDups(Categories(items))
    ensures forall c :: c in Categories(items) <==> c in CategorySet(items)
    ensures |Categories(items)| == |CategorySet(items)|
  {
    var d := Dedup(CategoryList(items));
    var r := Categories(items);
    SortSpec(d);
    StrictlySortedNoDups(r);
    forall c ensures c in r <==> c in CategorySet(items) {
      assert c in r <==> c in multiset(d);
      if c in CategoryList(items) {
        var i :| 0 <= i < |items| && CategoryList(items)[i] == c;
        assert items[i].category == c;
      }
    }
    assert (set x | x in r) == CategorySet(items);
    NoDupsCardinality(r);
  }

  // ---------------------------------------------------------------------------------------
  // Total quantity

  /** The sum of the quantities, by structural recursion. */
  function SumQuantity(items: seq<Item>): int {
    if items == [] then 0 else items[0].quantity + SumQuantity(items[1..])
  }

  /** `items.reduce((sum, item) => sum + item.quantity, acc)`: a left fold. */
  function ReduceQuantity(items: seq<Item>, acc: int): int {
    if items == [] then acc else ReduceQuantity(items[1..], acc + items[0].quantity)
  }

  /** The "Total Quantity" statistic. */
  function TotalQuantity(items: seq<Item>): int {
    ReduceQuantity(items, 0)
  }

  lemma {:induction false} ReduceIsSum(items: seq<Item>, acc: int)
    ensures ReduceQuantity(items, acc) == acc + SumQuantity(items)
  {
    if items != [] {
      ReduceIsSum(items[1..], acc + items[0].quantity);
    }
  }

  /** The total is the sum of the quantities; it is 0 for the empty list. */
  lemma TotalQuantityIsSum(items: seq<Item>)
    ensures TotalQuantity(items) == SumQuantity(items)
    ensures items == [] ==> TotalQuantity(items) == 0
  {
    ReduceIsSum(items, 0);
  }

  lemma {:induction false} SumAppend(a: seq<Item>, b: seq<Item>)
    ensures SumQuantity(a + b) == SumQuantity(a) + SumQuantity(b)
  {
    if a != [] {
      SumAppend(a[1..], b);
      assert (a + b)[0] == a[0] && (a + b)[1..] == a[1..] + b;
    } else {
      assert a + b == b;
    }
  }

  lemma {:induction false} SumUpdate(items: seq<Item>, k: nat, x: Item)
    requires k < |items|
    ensures SumQuantity(items[k := x]) == SumQuantity(items) - items[k].quantity + x.quantity
  {
    if k > 0 {
      SumUpdate(items[1..], k - 1, x);
      assert items[k := x][1..] == items[1..][k - 1 := x];
    }
  }

  /** With every quantity at least 1, the total is at least the number of items. */
  lemma {:induction false} TotalAtLeastCount(items: seq<Item>)
    requires forall i :: 0 <= i < |items| ==> items[i].quantity >= 1
    ensures TotalQuantity(items) >= |items|
  {
    ReduceIsSum(items, 0);
    if items != [] {
      TotalAtLeastCount(items[1..]);
      ReduceIsSum(items[1..], 0);
    }
  }

  // ---------------------------------------------------------------------------------------
  // Add (`handleAddItem`)

  /** The item `handleAddItem` builds: the draft's fields, `id` the decimal string of the
      `Date.now()` reading, and the two `new Date()` readings as timestamps. */
  function NewItem(d: Draft, idTime: int, createdTime: int, updatedTime: int): Item {
    Item(IntToString(idTime), d.name, d.quantity, d.category, d.location, d.description, createdTime, updatedTime)
  }

  /** `[...prev, newItem]`. */
  function WithAdded(items: seq<Item>, d: Draft, idTime: int, createdTime: int, updatedTime: int): seq<Item> {
    items + [NewItem(d, idTime, createdTime, updatedTime)]
  }

  /** Add appends one item after the unchanged list; it carries the draft, the id of the
      id reading, and one timestamp from each of the two other clock readings. */
  lemma AddSpec(items: seq<Item>, d: Draft, idTime: int, createdTime: int, updatedTime: int)
    ensures var r := WithAdded(items, d, idTime, createdTime, updatedTime);
      && |r| == |items| + 1
      && r[..|items|] == items
      && DraftOf(r[|items|]) == d
      && r[|items|].id == IntToString(idTime)
      && r[|items|].createdAt == createdTime && r[|items|].updatedAt == updatedTime
  {
  }

  /** Adding a validated draft keeps every item well-formed, provided the clock did not run
      backwards between the two readings. */
  lemma AddPreservesWellFormed(items: seq<Item>, d: Draft, idTime: int, createdTime: int, updatedTime: int)
    requires AllWellFormed(items) && DraftValid(d) && createdTime <= updatedTime
    ensures AllWellFormed(WithAdded(items, d, idTime, createdTime, updatedTime))
  {
    assert WellFormed(NewItem(d, idTime, createdTime, updatedTime));
  }

  /** Ids stay unique when the id reading gives an id not yet in the list. The source does
      not establish this freshness itself. */
  lemma AddKeepsIdsUnique(items: seq<Item>, d: Draft, idTime: int, createdTime: int, updatedTime: int)
    requires IdsUnique(items) && !HasId(items, IntToString(idTime))
    ensures IdsUnique(WithAdded(items, d, idTime, createdTime, updatedTime))
  {
    var r := WithAdded(items, d, idTime, createdTime, updatedTime);
    forall i, j | 0 <= i < j < |r| ensures r[i].id != r[j].id {
      if j == |items| {
        assert r[i] == items[i];
      }
    }
  }

  /** Two adds in the same millisecond produce two items with the same id: the source's
      id scheme does not guarantee uniqueness. */
  lemma SameMillisecondAddsCollide(items: seq<Item>, d1: Draft, d2: Draft, t: int, c1: int, u1: int, c2: int, u2: int)
    ensures var r := WithAdded(WithAdded(items, d1, t, c1, u1), d2, t, c2, u2);
      |r| == |items| + 2 && r[|items|].id == r[|items| + 1].id && !IdsUnique(r)
  {
  }

  /** Ids read at distinct milliseconds differ. */
  lemma DistinctReadingsGiveDistinctIds(d1: Draft, d2: Draft, t1: int, t2: int, c1: int, u1: int, c2: int, u2: int)
    requires t1 != t2
    ensures NewItem(d1, t1, c1, u1).id != NewItem(d2, t2, c2, u2).id
  {
    if IntToString(t1) == IntToString(t2) {
      IntToStringInjective(t1, t2);
    }
  }

  lemma AddTotalQuantity(items: seq<Item>, d: Draft, idTime: int, createdTime: int, updatedTime: int)
    ensures TotalQuantity(WithAdded(items, d, idTime, createdTime, updatedTime)) == TotalQuantity(items) + d.quantity
  {
    TotalQuantityIsSum(items);
    TotalQuantityIsSum(WithAdded(items, d, idTime, createdTime, updatedTime));
    SumAppend(items, [NewItem(d, idTime, createdTime, updatedTime)]);
  }

  // ---------------------------------------------------------------------------------------
  // Edit (`handleEditItem`)

  /** `{...editingItem, ...itemData, updatedAt: now}`. */
  function EditedItem(target: Item, d: Draft, now: int): Item {
    Item(target.id, d.name, d.quantity, d.category, d.location, d.description, target.createdAt, now)
  }

  /** `prev.map(item => item.id === target.id ? updatedItem : item)`. */
  function ApplyEdit(items: seq<Item>, target: Item, d: Draft, now: int): seq<Item> {
    if items == [] then []
    else [if items[0].id == target.id then EditedItem(target, d, now) else items[0]] + ApplyEdit(items[1..], target, d, now)
  }

  /** Edit keeps the length, leaves every item with another id untouched, and replaces each
      item with the target's id by the draft with the target's id and `createdAt` and the new
      `updatedAt`. */
  lemma {:induction false} EditSpec(items: seq<Item>, target: Item, d: Draft, now: int)
    ensures var r := ApplyEdit(items, target, d, now);
      && |r| == |items|
      && (forall i :: 0 <= i < |items| && items[i].id != target.id ==> r[i] == items[i])
      && (forall i :: 0 <= i < |items| && items[i].id == target.id ==>
            r[i].id == target.id && r[i].createdAt == target.createdAt && r[i].updatedAt == now
            && DraftOf(r[i]) == d)
  {
    if items != [] {
      EditSpec(items[1..], target, d, now);
    }
  }

  /** An edit whose target is no longer in the list (it was deleted) changes nothing. */
  lemma EditAbsentIsIdentity(items: seq<Item>, target: Item, d: Draft, now: int)
    requires !HasId(items, target.id)
    ensures ApplyEdit(items, target, d, now) == items
  {
    EditSpec(items, target, d, now);
  }

  /** Repeating the same edit changes nothing further. */
  lemma EditIdempotent(items: seq<Item>, target: Item, d: Draft, now: int)
    ensures var r := ApplyEdit(items, target, d, now);
      ApplyEdit(r, target, d, now) == r
  {
    var r := ApplyEdit(items, target, d, now);
    EditSpec(items, target, d, now);
    EditSpec(r, target, d, now);
  }

  /** Edit preserves the ids and their order, hence their uniqueness. */
  lemma EditKeepsIds(items: seq<Item>, target: Item, d: Draft, now: int)
    ensures var r := ApplyEdit(items, target, d, now);
      |r| == |items|
      && (forall i :: 0 <= i < |items| ==> r[i].id == items[i].id)
      && (IdsUnique(items) ==> IdsUnique(r))
  {
    EditSpec(items, target, d, now);
  }

  /** Editing with a validated draft keeps every item well-formed, provided the new reading is
      not earlier than the target's creation. */
  lemma EditPreservesWellFormed(items: seq<Item>, target: Item, d: Draft, now: int)
    requires AllWellFormed(items) && DraftValid(d) && target.createdAt <= now
    ensures AllWellFormed(ApplyEdit(items, target, d, now))
  {
    EditSpec(items, target, d, now);
    var r := ApplyEdit(items, target, d, now);
    forall i | 0 <= i < |r| ensures WellFormed(r[i]) {
      if items[i].id == target.id {
        assert DraftOf(r[i]) == d;
      }
    }
  }

  /** Submitting the form unchanged only refreshes `updatedAt`. */
  lemma EditUnchangedDraftRefreshesTimestamp(target: Item, now: int)
    ensures EditedItem(target, DraftOf(target), now) == target.(updatedAt := now)
  {
  }

  /** With unique ids and the target present at index `k`, the total changes by the
      difference of the two quantities. */
  lemma EditTotalQuantity(items: seq<Item>, target: Item, d: Draft, now: int, k: nat)
    requires IdsUnique(items) && k < |items| && items[k].id == target.id
    ensures TotalQuantity(ApplyEdit(items, target, d, now)) == TotalQuantity(items) - items[k].quantity + d.quantity
  {
    EditSpec(items, target, d, now);
    var r := ApplyEdit(items, target, d, now);
    assert r == items[k := EditedItem(target, d, now)];
    TotalQuantityIsSum(items);
    TotalQuantityIsSum(r);
    SumUpdate(items, k, EditedItem(target, d, now));
  }

  // ---------------------------------------------------------------------------------------
  // Delete (`handleDeleteItem`)

  /** `prev.filter(item => item.id !== id)`. */
  function WithoutId(items: seq<Item>, id: string): seq<Item> {
    Filter(items, (item: Item) => item.id != id)
  }

  /** Delete removes exactly the items with the id, every one of them, and keeps the order
      and multiplicity of the rest. */
  lemma DeleteSpec(items: seq<Item>, id: string)
    ensures IsSubsequence(WithoutId(items, id), items)
    ensures !HasId(WithoutId(items, id), id)
    ensures forall it :: it in WithoutId(items, id) <==> it in items && it.id != id
    ensures forall it :: multiset(WithoutId(items, id))[it] == if it.id != id then multiset(items)[it] else 0
  {
    var keep := (item: Item) => item.id != id;
    FilterIsSubsequence(items, keep);
    FilterMembership(items, keep);
    FilterMultiset(items, keep);
    var r := WithoutId(items, id);
    forall i | 0 <= i < |r| ensures r[i].id != id {
      assert r[i] in r;
    }
  }

  /** Deleting twice is deleting once. */
  lemma DeleteIdempotent(items: seq<Item>, id: string)
    ensures WithoutId(WithoutId(items, id), id) == WithoutId(items, id)
  {
    FilterIdempotent(items, (item: Item) => item.id != id);
  }

  /** Deleting an id that is not present changes nothing. */
  lemma DeleteAbsentIsIdentity(items: seq<Item>, id: string)
    requires !HasId(items, id)
    ensures WithoutId(items, id) == items
  {
    FilterKeepsAll(items, (item: Item) => item.id != id);
  }

  /** Filtering out one element surrounded by kept ones cuts out exactly that element. */
  lemma FilterDropsOne<T>(pre: seq<T>, x: T, post: seq<T>, keep: T -> bool)
    requires forall i :: 0 <= i < |pre| ==> keep(pre[i])
    requires !keep(x)
    requires forall i :: 0 <= i < |post| ==> keep(post[i])
    ensures Filter(pre + [x] + post, keep) == pre + post
  {
    FilterAppend(pre + [x], post, keep);
    FilterAppend(pre, [x], keep);
    assert [x][0] == x && [x][1..] == [];
    assert Filter([x], keep) == [] + Filter([], keep);
    FilterKeepsAll(pre, keep);
    FilterKeepsAll(post, keep);
    calc {
      Filter(pre + [x] + post, keep);
      Filter(pre + [x], keep) + Filter(post, keep);
      Filter(pre, keep) + Filter([x], keep) + Filter(post, keep);
      pre + [] + post;
    }
    assert pre + [] == pre;
  }

  /** With unique ids, deleting the id at index `k` cuts out exactly that index. */
  lemma DeleteUniqueCutsOut(items: seq<Item>, k: nat)
    requires IdsUnique(items) && k < |items|
    ensures WithoutId(items, items[k].id) == items[..k] + items[k + 1..]
  {
    var x := items[k];
    var keep := (item: Item) => item.id != x.id;
    var pre, post := items[..k], items[k + 1..];
    assert items == pre + [x] + post;
    assert forall i :: 0 <= i < |pre| ==> keep(pre[i]) by {
      forall i | 0 <= i < |pre| ensures pre[i].id != x.id {
        assert pre[i] == items[i];
      }
    }
    assert forall i :: 0 <= i < |post| ==> keep(post[i]) by {
      forall i | 0 <= i < |post| ensures post[i].id != x.id {
        assert post[i] == items[k + 1 + i];
      }
    }
    FilterDropsOne(pre, x, post, keep);
  }

  lemma SumCutOut(items: seq<Item>, k: nat)
    requires k < |items|
    ensures SumQuantity(items[..k] + items[k + 1..]) == SumQuantity(items) - items[k].quantity
  {
    var x := items[k];
    var pre, upto, post := items[..k], items[..k + 1], items[k + 1..];
    assert upto == pre + [x];
    assert items == upto + post;
    SumAppend(upto, post);
    SumAppend(pre, [x]);
    assert [x][1..] == [];
    assert SumQuantity([x]) == x.quantity;
    SumAppend(pre, post);
  }

  /** With unique ids, deleting a present id removes exactly one item and its quantity. */
  lemma DeleteUniqueRemovesOne(items: seq<Item>, k: nat)
    requires IdsUnique(items) && k < |items|
    ensures |WithoutId(items, items[k].id)| == |items| - 1
    ensures TotalQuantity(WithoutId(items, items[k].id)) == TotalQuantity(items) - items[k].quantity
  {
    DeleteUniqueCutsOut(items, k);
    SumCutOut(items, k);
    TotalQuantityIsSum(items);
    TotalQuantityIsSum(WithoutId(items, items[k].id));
  }

  lemma {:induction false} FilterAppend<T>(a: seq<T>, b: seq<T>, keep: T -> bool)
    ensures Filter(a + b, keep) == Filter(a, keep) + Filter(b, keep)
  {
    if a != [] {
      FilterAppend(a[1..], b, keep);
      assert (a + b)[0] == a[0] && (a + b)[1..] == a[1..] + b;
    } else {
      assert a + b == b;
    }
  }

  /** Filtering keeps ids unique. */
  lemma {:induction false} FilterKeepsIdsUnique(items: seq<Item>, keep: Item -> bool)
    requires IdsUnique(items)
    ensures IdsUnique(Filter(items, keep))
  {
    if items != [] {
      assert IdsUnique(items[1..]);
      FilterKeepsIdsUnique(items[1..], keep);
      FilterMembership(items[1..], keep);
      var rest := Filter(items[1..], keep);
      forall j | 0 <= j < |rest| ensures rest[j].id != items[0].id {
        assert rest[j] in items[1..];
      }
    }
  }

  /** Delete keeps every remaining item well-formed and the remaining ids unique. */
  lemma DeletePreserves(items: seq<Item>, id: string)
    ensures AllWellFormed(items) ==> AllWellFormed(WithoutId(items, id))
    ensures IdsUnique(items) ==> IdsUnique(WithoutId(items, id))
  {
    var keep := (item: Item) => item.id != id;
    FilterMembership(items, keep);
    var r := WithoutId(items, id);
    if AllWellFormed(items) {
      forall i | 0 <= i < |r| ensures WellFormed(r[i]) {
        assert r[i] in items;
      }
    }
    if IdsUnique(items) {
      FilterKeepsIdsUnique(items, keep);
    }
  }

  // ---------------------------------------------------------------------------------------
  // Category colour (`getCategoryColor`)

  const GrayClass := "bg-gray-100 text-gray-800"

  /** The colour table of `getCategoryColor`. */
  const ColorTable: map<string, string> := map[
    "Electronics" := "bg-blue-100 text-blue-800",
    "Food" := "bg-green-100 text-green-800",
    "Clothing" := "bg-purple-100 text-purple-800",
    "Books" := "bg-yellow-100 text-yellow-800",
    "Tools" := "bg-red-100 text-red-800"]

  /** The names a plain JavaScript object inherits from `Object.prototype`. */
  const ObjectPrototypeKeys: set<string> := {
    "constructor", "hasOwnProperty", "isPrototypeOf", "propertyIsEnumerable",
    "toLocaleString", "toString", "valueOf", "__proto__",
    "__defineGetter__", "__defineSetter__", "__lookupGetter__", "__lookupSetter__"}

  /** What `colors[category] || gray` yields: a class string, or an inherited member (a
      function or `Object.prototype` itself, which is truthy and so returned as is). */
  datatype ColorLookup = ClassName(cls: string) | InheritedMember(key: string)

  /** `getCategoryColor` as written: the lookup sees the own keys of the colour table first,
      then the members every object inherits. */
  function CategoryColorAsWritten(category: string): ColorLookup {
    if category in ColorTable then ClassName(ColorTable[category])
    else if category in ObjectPrototypeKeys then InheritedMember(category)
    else ClassName(GrayClass)
  }

  /** The category "toString" gets an inherited function instead of a class string. */
  lemma AsWrittenReturnsInheritedMember()
    ensures CategoryColorAsWritten("toString") == InheritedMember("toString")
    ensures !CategoryColorAsWritten("toString").ClassName?
  {
  }

  /** `getCategoryColor` as intended: the table's class for its five categories, gray for
      every other string. It agrees with the lookup as written on every category that is no
      `Object.prototype` member. */
  function CategoryColor(category: string): (cls: string)
    ensures cls == GrayClass <==> category !in ColorTable
    ensures category !in ObjectPrototypeKeys ==> CategoryColorAsWritten(category) == ClassName(cls)
  {
    if category in ColorTable then ColorTable[category] else GrayClass
  }

  // ---------------------------------------------------------------------------------------
  // The page's state

  /** The state of the `Index` component: the item list, the search term, and the items
      selected for editing and deleting (`null` is `None`). */
  class InventoryPage {
    var items: seq<Item>
    var searchTerm: string
    var editingItem: Option<Item>
    var deletingItem: Option<Item>

    /** The store invariant the form's validation is meant to keep. */
    predicate StoreValid()
      reads this
    {
      AllWellFormed(items) && IdsUnique(items)
    }

    constructor (initialItems: seq<Item>)
      ensures items == initialItems && searchTerm == []
      ensures editingItem == None && deletingItem == None
    {
      items := initialItems;
      searchTerm := [];
      editingItem := None;
      deletingItem := None;
    }

    /** `setSearchTerm`. */
    method SetSearchTerm(term: string)
      modifies this`searchTerm
      ensures searchTerm == term
    {
      searchTerm := term;
    }

    /** `setEditingItem`: a row's edit button selects its item, closing the dialog clears it. */
    method SelectForEdit(item: Option<Item>)
      modifies this`editingItem
      ensures editingItem == item
    {
      editingItem := item;
    }

    /** `setDeletingItem`. */
    method SelectForDelete(item: Option<Item>)
      modifies this`deletingItem
      ensures deletingItem == item
    {
      deletingItem := item;
    }

    /** `handleAddItem`, with the three clock readings it takes as parameters. */
    method AddItem(d: Draft, idTime: int, createdTime: int, updatedTime: int)
      modifies this`items
      ensures items == WithAdded(old(items), d, idTime, createdTime, updatedTime)
      ensures (old(StoreValid()) && DraftValid(d) && createdTime <= updatedTime
               && !HasId(old(items), IntToString(idTime))) ==> StoreValid()
    {
      if StoreValid() && DraftValid(d) && createdTime <= updatedTime && !HasId(items, IntToString(idTime)) {
        AddPreservesWellFormed(items, d, idTime, createdTime, updatedTime);
        AddKeepsIdsUnique(items, d, idTime, createdTime, updatedTime);
      }
      items := WithAdded(items, d, idTime, createdTime, updatedTime);
    }

    /** `handleEditItem`: a no-op without a selected item; otherwise applies the edit to the
      list and clears the selection. */
    method EditItem(d: Draft, now: int)
      modifies this`items, this`editingItem
      ensures old(editingItem).None? ==> items == old(items) && editingItem == None
      ensures old(editingItem).Some? ==>
        items == ApplyEdit(old(items), old(editingItem).value, d, now) && editingItem == None
      ensures (old(StoreValid()) && DraftValid(d)
               && (old(editingItem).Some? ==> old(editingItem).value.createdAt <= now)) ==> StoreValid()
    {
      if editingItem.None? {
        return;
      }
      var target := editingItem.value;
      if StoreValid() && DraftValid(d) && target.createdAt <= now {
        EditPreservesWellFormed(items, target, d, now);
      }
      EditKeepsIds(items, target, d, now);
      items := ApplyEdit(items, target, d, now);
      editingItem := None;
    }

    /** `handleDeleteItem`: a no-op without a selected item; otherwise removes the items with
      its id and clears the selection. */
    method DeleteItem()
      modifies this`items, this`deletingItem
      ensures old(deletingItem).None? ==> items == old(items) && deletingItem == None
      ensures old(deletingItem).Some? ==>
        items == WithoutId(old(items), old(deletingItem).value.id) && deletingItem == None
      ensures old(StoreValid()) ==> StoreValid()
    {
      if deletingItem.None? {
        return;
      }
      DeletePreserves(items, deletingItem.value.id);
      items := WithoutId(items, deletingItem.value.id);
      deletingItem := None;
    }
  }
}
