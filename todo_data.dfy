/** The pure part of the to-do container (src/components/app/app.js): the item record,
    the list transformations behind deleting and toggling, the search box and status
    filter, and the counts shown in the header. Every operation returns a new list and
    leaves its argument alone, as the component's state updaters do. */
module TodoData {
  import opened JsArray
  import opened JsString

  /** One to-do entry, with the fields in the order the component builds them
      (`label` is a reserved word in Dafny, so the label is called `text`). */
  datatype Item = Item(text: string, important: bool, done: bool, id: int)

  /** The two flags `toggleProperty` can flip ('important' and 'done'). */
  datatype Prop = Important | Done

  /** What a JavaScript expression does: return a value, or throw a TypeError. */
  datatype Outcome<T> = Returns(value: T) | ThrowsTypeError

  predicate HasId(items: seq<Item>, id: int)
  {
    exists k :: 0 <= k < |items| && items[k].id == id
  }

  /** Ids strictly increase along the list (so no id occurs twice). */
  predicate IdsIncreasing(items: seq<Item>)
  {
    forall i, j :: 0 <= i < j < |items| ==> items[i].id < items[j].id
  }

  lemma IdsIncreasingDistinct(items: seq<Item>, i: int, j: int)
    requires IdsIncreasing(items)
    requires 0 <= i < |items| && 0 <= j < |items| && i != j
    ensures items[i].id != items[j].id
  {
  }

  /** `items.findIndex(el => el.id === id)`: the first position holding `id`, or -1. */
  function FindIndex(items: seq<Item>, id: int): (idx: int)
    ensures -1 <= idx < |items|
    ensures idx == -1 <==> !HasId(items, id)
    ensures 0 <= idx ==> items[idx].id == id && forall k :: 0 <= k < idx ==> items[k].id != id
  {
    if items == [] then -1
    else if items[0].id == id then 0
    else
      var idx := FindIndex(items[1..], id);
      assert forall k :: 1 <= k < |items| ==> items[1..][k - 1] == items[k];
      if idx == -1 then -1 else idx + 1
  }

  /** With distinct ids, the position found is the only one holding `id`. */
  lemma FindIndexUnique(items: seq<Item>, id: int, k: int)
    requires IdsIncreasing(items)
    requires 0 <= k < |items| && items[k].id == id
    ensures FindIndex(items, id) == k
  {
  }

  /** Two lists with the same id at every position have the same `findIndex` for every id. */
  lemma FindIndexSameIds(a: seq<Item>, b: seq<Item>, id: int)
    requires |a| == |b|
    requires forall k :: 0 <= k < |a| ==> a[k].id == b[k].id
    ensures FindIndex(a, id) == FindIndex(b, id)
  {
  }

  /** The list `deleteItem`'s state updater builds:
      `[...todoData.slice(0, idx), ...todoData.slice(idx + 1)]` with `idx` from `findIndex`.
      When `id` is missing, `idx` is -1, so this is every item but the last followed by
      the whole list. */
  function DeleteFrom(todoData: seq<Item>, id: int): (r: seq<Item>)
    ensures HasId(todoData, id) ==>
      var idx := FindIndex(todoData, id);
      |r| == |todoData| - 1 && r == todoData[..idx] + todoData[idx + 1..]
    ensures !HasId(todoData, id) ==>
      r == if todoData == [] then [] else todoData[..|todoData| - 1] + todoData
  {
    var idx := FindIndex(todoData, id);
    Slice(todoData, 0, idx) + SliceFrom(todoData, idx + 1)
  }

  /** Deleting a present id from a list with increasing ids removes exactly that item:
      the survivors keep their order and their increasing ids, and every other id stays. */
  lemma DeletePresent(todoData: seq<Item>, id: int)
    requires IdsIncreasing(todoData) && HasId(todoData, id)
    ensures |DeleteFrom(todoData, id)| == |todoData| - 1
    ensures IdsIncreasing(DeleteFrom(todoData, id))
    ensures SubsequenceOf(DeleteFrom(todoData, id), todoData)
    ensures !HasId(DeleteFrom(todoData, id), id)
    ensures forall j :: j != id ==> (HasId(DeleteFrom(todoData, id), j) <==> HasId(todoData, j))
  {
    var idx := FindIndex(todoData, id);
    var r := DeleteFrom(todoData, id);
    assert forall k :: 0 <= k < |r| ==> r[k] == todoData[if k < idx then k else k + 1];
    forall j | HasId(todoData, j) && j != id ensures HasId(r, j) {
      var k :| 0 <= k < |todoData| && todoData[k].id == j;
      assert k != idx;
      assert r[if k < idx then k else k - 1].id == j;
    }
    if HasId(r, id) {
      var k :| 0 <= k < |r| && r[k].id == id;
      IdsIncreasingDistinct(todoData, idx, if k < idx then k else k + 1);
    }
    RemoveAtSubsequence(todoData, idx);
  }

  lemma {:induction false} RemoveAtSubsequence(s: seq<Item>, idx: int)
    requires 0 <= idx < |s|
    ensures SubsequenceOf(s[..idx] + s[idx + 1..], s)
    decreases idx
  {
    if idx == 0 {
      assert s[..idx] + s[idx + 1..] == s[1..];
      SubsequenceReflexive(s[1..]);
    } else {
      RemoveAtSubsequence(s[1..], idx - 1);
      assert (s[..idx] + s[idx + 1..])[1..] == s[1..][..idx - 1] + s[1..][idx..];
    }
  }

  /** With `id` missing and at least two items, the delete updater does not leave the list
      alone: it yields 2n-1 items and the first item now occurs twice, so ids repeat. */
  lemma DeleteMissingDuplicates(todoData: seq<Item>, id: int)
    requires !HasId(todoData, id) && |todoData| >= 2
    ensures |DeleteFrom(todoData, id)| == 2 * |todoData| - 1
    ensures DeleteFrom(todoData, id)[0] == DeleteFrom(todoData, id)[|todoData| - 1] == todoData[0]
    ensures !IdsIncreasing(DeleteFrom(todoData, id))
  {
  }

  /** Field `p` of the two items differ, and everything else is equal. */
  predicate FlippedIn(a: Item, b: Item, p: Prop)
  {
    && b.text == a.text && b.id == a.id
    && (if p == Done then b.done == !a.done else b.done == a.done)
    && (if p == Important then b.important == !a.important else b.important == a.important)
  }

  /** `{...oldItem, [propName]: !oldItem[propName]}`. */
  function Flip(item: Item, p: Prop): (r: Item)
    ensures FlippedIn(item, r, p)
  {
    match p
    case Done => item.(done := !item.done)
    case Important => item.(important := !item.important)
  }

  lemma FlipTwice(item: Item, p: Prop)
    ensures Flip(Flip(item, p), p) == item
  {
  }

  /** `toggleProperty(arr, id, propName)`. With `id` missing, `findIndex` gives -1,
      `arr[-1]` is `undefined`, and reading `propName` of `undefined` throws. */
  function ToggleProperty(arr: seq<Item>, id: int, p: Prop): (r: Outcome<seq<Item>>)
    ensures r.ThrowsTypeError? <==> !HasId(arr, id)
    ensures r.Returns? ==>
      var idx := FindIndex(arr, id);
      && |r.value| == |arr|
      && (forall k :: 0 <= k < |arr| && k != idx ==> r.value[k] == arr[k])
      && FlippedIn(arr[idx], r.value[idx], p)
  {
    var idx := FindIndex(arr, id);
    if idx < 0 then ThrowsTypeError
    else Returns(Slice(arr, 0, idx) + [Flip(arr[idx], p)] + SliceFrom(arr, idx + 1))
  }

  /** Toggling keeps the id at every position, hence the increasing-ids invariant. */
  lemma ToggleKeepsIds(arr: seq<Item>, id: int, p: Prop)
    requires HasId(arr, id)
    ensures |ToggleProperty(arr, id, p).value| == |arr|
    ensures forall k :: 0 <= k < |arr| ==> ToggleProperty(arr, id, p).value[k].id == arr[k].id
    ensures IdsIncreasing(arr) ==> IdsIncreasing(ToggleProperty(arr, id, p).value)
  {
  }

  /** Toggling the same flag of the same item twice gives back the original list. */
  lemma ToggleTwice(arr: seq<Item>, id: int, p: Prop)
    requires HasId(arr, id)
    ensures ToggleProperty(arr, id, p).Returns?
    ensures ToggleProperty(ToggleProperty(arr, id, p).value, id, p) == Returns(arr)
  {
    var idx := FindIndex(arr, id);
    var once := ToggleProperty(arr, id, p).value;
    assert |once| == |arr|;
    assert forall k :: 0 <= k < |arr| ==> once[k].id == arr[k].id;
    FindIndexSameIds(arr, once, id);
    assert FindIndex(once, id) == idx;
    var twice := ToggleProperty(once, id, p).value;
    assert |twice| == |arr|;
    assert FlippedIn(arr[idx], once[idx], p) && FlippedIn(once[idx], twice[idx], p);
    assert twice[idx] == arr[idx];
    assert forall k :: 0 <= k < |arr| && k != idx ==> twice[k] == once[k] == arr[k];
    assert twice == arr;
  }

  /** The test `search` applies to one item. */
  predicate LabelMatches(item: Item, term: string)
  {
    IndexOf(ToLower(item.text), ToLower(term)) > -1
  }

  /** `search(items, term)`. */
  function Search(items: seq<Item>, term: string): (r: seq<Item>)
    ensures |term| == 0 ==> r == items
    ensures SubsequenceOf(r, items)
    ensures |term| > 0 ==>
      forall x :: x in r <==> x in items && Contains(ToLower(x.text), ToLower(term))
    ensures |term| > 0 ==>
      forall x :: multiset(r)[x] ==
        if Contains(ToLower(x.text), ToLower(term)) then multiset(items)[x] else 0
  {
    SubsequenceReflexive(items);
    if |term| == 0 then items
    else Filter(items, (item: Item) => LabelMatches(item, term))
  }

  /** Search ignores case: terms with the same lower-case form find the same items. */
  lemma SearchIgnoresCase(items: seq<Item>, t1: string, t2: string)
    requires ToLower(t1) == ToLower(t2)
    ensures Search(items, t1) == Search(items, t2)
  {
    if |t1| > 0 {
      FilterExtensional(items, (item: Item) => LabelMatches(item, t1), (item: Item) => LabelMatches(item, t2));
    }
  }

  /** Searching the first item for "coffee" finds it whatever the case. */
  lemma SearchFindsCoffee()
    ensures Search([Item("Drink Coffee", false, false, 100)], "coffee")
         == [Item("Drink Coffee", false, false, 100)]
  {
    var lower, term := ToLower("Drink Coffee"), ToLower("coffee");
    assert term == "coffee";
    assert lower[6..12] == "coffee";
    assert OccursAt(lower, term, 6);
  }

  /** Searching the first item for "xyz" finds nothing. */
  lemma SearchMissesXyz()
    ensures Search([Item("Drink Coffee", false, false, 100)], "xyz") == []
  {
    var lower, term := ToLower("Drink Coffee"), ToLower("xyz");
    assert term == "xyz";
    ContainsFirstChar(lower, term);
    assert 'x' !in lower;
  }

  function IsDone(item: Item): bool { item.done }

  function IsActive(item: Item): bool { !item.done }

  /** `filter(items, filter)`: 'active' and 'done' keep the matching items, in order;
      'all' and every other value keep everything. */
  function FilterByStatus(items: seq<Item>, filter: string): (r: seq<Item>)
    ensures filter != "active" && filter != "done" ==> r == items
    ensures filter == "active" ==> forall x :: x in r <==> x in items && !x.done
    ensures filter == "done" ==> forall x :: x in r <==> x in items && x.done
    ensures filter == "active" ==> forall x :: multiset(r)[x] == if x.done then 0 else multiset(items)[x]
    ensures filter == "done" ==> forall x :: multiset(r)[x] == if x.done then multiset(items)[x] else 0
    ensures SubsequenceOf(r, items)
  {
    SubsequenceReflexive(items);
    if filter == "all" then items
    else if filter == "active" then Filter(items, IsActive)
    else if filter == "done" then Filter(items, IsDone)
    else items
  }

  /** The active and the done view together account for every item. */
  lemma ActiveAndDonePartition(items: seq<Item>)
    ensures |FilterByStatus(items, "active")| + |FilterByStatus(items, "done")| == |items|
  {
    FilterComplement(items, IsActive, IsDone);
  }

  /** `todoData.filter(el => el.done).length`. */
  function DoneCount(todoData: seq<Item>): (n: nat)
    ensures n <= |todoData|
    ensures n == 0 <==> forall k :: 0 <= k < |todoData| ==> !todoData[k].done
  {
    var done := Filter(todoData, IsDone);
    assert forall k :: 0 <= k < |todoData| && todoData[k].done ==> todoData[k] in done;
    assert done != [] ==> done[0] in todoData && done[0].done;
    |done|
  }

  /** `todoData.length - doneCount`: the number of items not yet done. */
  function TodoCount(todoData: seq<Item>): (n: nat)
    ensures n + DoneCount(todoData) == |todoData|
    ensures n == |FilterByStatus(todoData, "active")|
  {
    ActiveAndDonePartition(todoData);
    |todoData| - DoneCount(todoData)
  }

  /** The items `render` lists: search first, then the status filter. */
  function Visible(todoData: seq<Item>, term: string, filter: string): (r: seq<Item>)
    ensures SubsequenceOf(r, todoData)
    ensures forall x :: x in r ==> x in todoData
    ensures |term| == 0 && filter == "all" ==> r == todoData
  {
    var found := Search(todoData, term);
    var r := FilterByStatus(found, filter);
    SubsequenceTransitive(r, found, todoData);
    forall x | x in r ensures x in todoData {
      SubsequenceElements(r, todoData, x);
    }
    r
  }
}
