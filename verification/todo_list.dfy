/**
 * The to-do list component of the playground page: a list of items that the
 * component appends to, toggles and removes from in place, and the text
 * input whose value is cleared after an add.
 */
module TodoListComponent {

  datatype Todo = Todo(id: int, description: string, isCompleted: bool)

  /** The key code of the Enter key. */
  const EnterKey := 13

  /** The position of the first item with id `todoId`, or -1 when there is none. */
  function IndexOf(todos: seq<Todo>, todoId: int): (index: int)
    ensures -1 <= index < |todos|
    ensures index >= 0 ==> todos[index].id == todoId && forall k | 0 <= k < index :: todos[k].id != todoId
    ensures index == -1 ==> forall k | 0 <= k < |todos| :: todos[k].id != todoId
    decreases |todos|
  {
    if |todos| == 0 then -1
    else if todos[0].id == todoId then 0
    else
      var k := IndexOf(todos[1..], todoId);
      if k < 0 then -1 else k + 1
  }

  /** The list after an add: a new, open item whose id is one more than the length. */
  function Appended(todos: seq<Todo>, text: string): seq<Todo> {
    todos + [Todo(|todos| + 1, text, false)]
  }

  /** The list after a toggle: the first item with the id has its flag flipped. */
  function Toggled(todos: seq<Todo>, todoId: int): seq<Todo> {
    var i := IndexOf(todos, todoId);
    if i < 0 then todos else todos[i := todos[i].(isCompleted := !todos[i].isCompleted)]
  }

  /** The list after a removal: the first item with the id is gone. */
  function Trashed(todos: seq<Todo>, todoId: int): seq<Todo> {
    var i := IndexOf(todos, todoId);
    if i < 0 then todos else todos[..i] + todos[i + 1..]
  }

  /** Two lists with the same ids in the same order find the same first index. */
  lemma IndexOfSameIds(a: seq<Todo>, b: seq<Todo>, todoId: int)
    requires |a| == |b| && forall k | 0 <= k < |a| :: a[k].id == b[k].id
    ensures IndexOf(a, todoId) == IndexOf(b, todoId)
  {
    var i, j := IndexOf(a, todoId), IndexOf(b, todoId);
    assert i >= 0 ==> b[i].id == todoId;
    assert j >= 0 ==> a[j].id == todoId;
  }

  /**
   * A toggle flips the flag of the first item with the id and changes
   * nothing else; an unknown id changes nothing.
   */
  lemma ToggledSpec(todos: seq<Todo>, todoId: int)
    ensures |Toggled(todos, todoId)| == |todos|
    ensures (forall k | 0 <= k < |todos| :: todos[k].id != todoId) ==> Toggled(todos, todoId) == todos
    ensures forall k | 0 <= k < |todos| ::
      var t := Toggled(todos, todoId)[k];
      && t.id == todos[k].id && t.description == todos[k].description
      && t.isCompleted == (if k == IndexOf(todos, todoId) then !todos[k].isCompleted else todos[k].isCompleted)
  {
  }

  /** Toggling the same id twice restores the list. */
  lemma ToggleTwice(todos: seq<Todo>, todoId: int)
    ensures Toggled(Toggled(todos, todoId), todoId) == todos
  {
    IndexOfSameIds(todos, Toggled(todos, todoId), todoId);
  }

  /** Removing the item at `i`: the others keep their order, and only that item is lost. */
  lemma RemovedAt(todos: seq<Todo>, i: int)
    requires 0 <= i < |todos|
    ensures
      var r := todos[..i] + todos[i + 1..];
      && |r| == |todos| - 1
      && (forall k | 0 <= k < i :: r[k] == todos[k])
      && (forall k | i <= k < |r| :: r[k] == todos[k + 1])
      && multiset(r) + multiset{todos[i]} == multiset(todos)
  {
    assert todos == todos[..i] + [todos[i]] + todos[i + 1..];
  }

  /**
   * A removal of a present id drops exactly the first item with it: the
   * length drops by one and the other items keep their order.  An unknown
   * id changes nothing.
   */
  lemma TrashedSpec(todos: seq<Todo>, todoId: int)
    ensures IndexOf(todos, todoId) < 0 ==> Trashed(todos, todoId) == todos
    ensures IndexOf(todos, todoId) >= 0 ==>
      var i, r := IndexOf(todos, todoId), Trashed(todos, todoId);
      && |r| == |todos| - 1
      && (forall k | 0 <= k < i :: r[k] == todos[k])
      && (forall k | i <= k < |r| :: r[k] == todos[k + 1])
      && multiset(r) + multiset{todos[i]} == multiset(todos)
  {
    var i := IndexOf(todos, todoId);
    if i >= 0 {
      RemovedAt(todos, i);
    }
  }

  /** The ids of a list built by adds alone: 1, 2, ..., n. */
  predicate NumberedInOrder(todos: seq<Todo>) {
    forall k | 0 <= k < |todos| :: todos[k].id == k + 1
  }

  /**
   * The new id depends on the length only: after removing any item but the
   * last from a list built by adds, the next add reuses the id of the item
   * that is now last, so two items share an id.
   */
  lemma AddAfterTrashReusesId(todos: seq<Todo>, todoId: int, text: string)
    requires NumberedInOrder(todos)
    requires 1 <= todoId < |todos|
    ensures
      var r := Appended(Trashed(todos, todoId), text);
      |r| == |todos| && r[|r| - 2].id == r[|r| - 1].id == |todos|
  {
    assert todos[todoId - 1].id == todoId;
    assert IndexOf(todos, todoId) == todoId - 1;
    TrashedSpec(todos, todoId);
  }

  /** The text input the add reads from and clears. */
  class InputElement {
    var value: string

    constructor (value: string)
      ensures this.value == value
    {
      this.value := value;
    }
  }

  class TodoList {
    var todos: seq<Todo>

    /** The component starts with an empty list. */
    constructor ()
      ensures todos == []
    {
      todos := [];
    }

    /**
     * Enter on a non-empty input appends a new item and clears the input;
     * any other key, or an empty input, changes nothing.
     */
    method AddTodo(keyCode: int, target: InputElement)
      modifies this, target
      ensures keyCode == EnterKey && old(target.value) != "" ==>
        todos == Appended(old(todos), old(target.value)) && target.value == ""
      ensures !(keyCode == EnterKey && old(target.value) != "") ==>
        todos == old(todos) && target.value == old(target.value)
    {
      if keyCode == EnterKey && target.value != "" {
        todos := todos + [Todo(|todos| + 1, target.value, false)];
        target.value := "";
      }
    }

    /** The search for the first item with id `todoId`, -1 when there is none. */
    method FindIndex(todoId: int) returns (index: int)
      ensures index == IndexOf(todos, todoId)
    {
      index := 0;
      while index < |todos|
        invariant 0 <= index <= |todos|
        invariant forall k | 0 <= k < index :: todos[k].id != todoId
      {
        if todos[index].id == todoId {
          return;
        }
        index := index + 1;
      }
      index := -1;
    }

    /** Flip the completion flag of the first item with id `todoId`, if any. */
    method ToggleTodo(todoId: int)
      modifies this
      ensures todos == Toggled(old(todos), todoId)
    {
      var index := FindIndex(todoId);
      if index >= 0 {
        todos := todos[index := todos[index].(isCompleted := !todos[index].isCompleted)];
      }
    }

    /** Remove the first item with id `todoId`, if any. */
    method TrashTodo(todoId: int)
      modifies this
      ensures todos == Trashed(old(todos), todoId)
    {
      var index := FindIndex(todoId);
      if index >= 0 {
        todos := todos[..index] + todos[index + 1..];
      }
    }
  }
}
