/** The to-do container component of src/components/app/app.js as an object: its id
    counter `maxId` and the three parts of its state (`todoData`, `term`, `filter`).
    Each handler is modelled as the synchronous state replacement its `setState` call
    performs. */
module App {
  import opened JsArray
  import opened TodoData

  class Store {
    var maxId: int
    var todoData: seq<Item>
    var term: string
    var filter: string

    /** Ids increase along the list and all lie below the counter, so the next id
        handed out is fresh. */
    ghost predicate Valid()
      reads this
    {
      && IdsIncreasing(todoData)
      && forall k :: 0 <= k < |todoData| ==> todoData[k].id < maxId
    }

    /** The component's field initialisers: the counter starts at 100 and three items
        are created in turn. */
    constructor ()
      ensures Valid()
      ensures todoData == [
        Item("Drink Coffee", false, false, 100),
        Item("Make Awesome App", false, false, 101),
        Item("Hav a lunch", false, false, 102)]
      ensures maxId == 103 && term == "" && filter == "all"
    {
      maxId := 100;
      todoData := [];
      term := "";
      filter := "all";
      new;
      var coffee := CreateTodoItem("Drink Coffee");
      var app := CreateTodoItem("Make Awesome App");
      var lunch := CreateTodoItem("Hav a lunch");
      todoData := [coffee, app, lunch];
    }

    /** `createTodoItem(label)`: a not-done, not-important item carrying the current
        counter, which then moves on by one. */
    method CreateTodoItem(text: string) returns (item: Item)
      requires Valid()
      modifies this`maxId
      ensures Valid()
      ensures item == Item(text, false, false, old(maxId))
      ensures maxId == old(maxId) + 1
      ensures forall k :: 0 <= k < |todoData| ==> todoData[k].id < item.id < maxId
    {
      item := Item(text, false, false, maxId);
      maxId := maxId + 1;
    }

    /** `addItem(text)`: one new item at the end; the earlier items are untouched. */
    method AddItem(text: string)
      requires Valid()
      modifies this
      ensures Valid()
      ensures todoData == old(todoData) + [Item(text, false, false, old(maxId))]
      ensures !HasId(old(todoData), old(maxId))
      ensures maxId == old(maxId) + 1
      ensures term == old(term) && filter == old(filter)
    {
      var newItem := CreateTodoItem(text);
      todoData := todoData + [newItem];
    }

    /** `deleteItem(id)`, for an id of a listed item (the only ids the list view passes):
        that item goes, the others keep their order. */
    method DeleteItem(id: int)
      requires Valid()
      requires HasId(todoData, id)
      modifies this`todoData
      ensures Valid()
      ensures todoData == DeleteFrom(old(todoData), id)
      ensures |todoData| == |old(todoData)| - 1
      ensures SubsequenceOf(todoData, old(todoData))
      ensures !HasId(todoData, id)
      ensures forall j :: j != id ==> (HasId(todoData, j) <==> HasId(old(todoData), j))
    {
      DeletePresent(todoData, id);
      todoData := DeleteFrom(todoData, id);
    }

    /** `onToggleDone(id)`, for an id of a listed item: that item's done flag flips. */
    method OnToggleDone(id: int)
      requires Valid()
      requires HasId(todoData, id)
      modifies this`todoData
      ensures Valid()
      ensures ToggleProperty(old(todoData), id, Done) == Returns(todoData)
      ensures |todoData| == |old(todoData)|
    {
      ToggleKeepsIds(todoData, id, Done);
      todoData := ToggleProperty(todoData, id, Done).value;
    }

    /** `onToggleImportant(id)`, for an id of a listed item: that item's important flag flips. */
    method OnToggleImportant(id: int)
      requires Valid()
      requires HasId(todoData, id)
      modifies this`todoData
      ensures Valid()
      ensures ToggleProperty(old(todoData), id, Important) == Returns(todoData)
      ensures |todoData| == |old(todoData)|
    {
      ToggleKeepsIds(todoData, id, Important);
      todoData := ToggleProperty(todoData, id, Important).value;
    }

    /** `onSearchChange(term)`: only the search term changes. */
    method OnSearchChange(term: string)
      modifies this`term
      ensures this.term == term
      ensures todoData == old(todoData) && maxId == old(maxId) && filter == old(filter)
    {
      this.term := term;
    }

    /** `onFilterChange(filter)`: only the status filter changes. */
    method OnFilterChange(filter: string)
      modifies this`filter
      ensures this.filter == filter
      ensures todoData == old(todoData) && maxId == old(maxId) && term == old(term)
    {
      this.filter := filter;
    }

    /** What `render` computes before building its view: the visible items and the
        two counts for the header. */
    method Render() returns (visibleItems: seq<Item>, todoCount: nat, doneCount: nat)
      ensures visibleItems == FilterByStatus(Search(todoData, term), filter)
      ensures SubsequenceOf(visibleItems, todoData)
      ensures todoCount + doneCount == |todoData|
      ensures doneCount == |Filter(todoData, IsDone)|
      ensures todoCount == |Filter(todoData, IsActive)|
    {
      visibleItems := Visible(todoData, term, filter);
      doneCount := DoneCount(todoData);
      todoCount := TodoCount(todoData);
    }
  }

  /** The scenario from the component's first screen: mark the second item done,
      read the counts, then switch to the 'done' view. */
  method ToggleThenShowDone()
  {
    var store := new Store();
    assert store.todoData[1].id == 101;
    store.OnToggleDone(101);
    assert store.todoData == [
      Item("Drink Coffee", false, false, 100),
      Item("Make Awesome App", false, true, 101),
      Item("Hav a lunch", false, false, 102)];
    var items := store.todoData;
    assert Filter(items[2..], IsDone) == [];
    assert Filter(items[1..], IsDone) == [items[1]];
    assert Filter(items, IsDone) == [items[1]];
    var visible, todo, done := store.Render();
    assert todo == 2 && done == 1;
    store.OnFilterChange("done");
    visible, todo, done := store.Render();
    assert visible == [Item("Make Awesome App", false, true, 101)];
  }
}
