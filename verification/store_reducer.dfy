/** The older reducer (src/store/reducer.ts): the state is the task list
    alone, and toggling and deleting address a task by its position. */
module StoreReducer {
  import opened TodoData

  datatype State = State(todoList: seq<Todo>)

  /** The four action kinds; the index payload is a JavaScript number,
      modelled as an integer. The `default: throw` branch cannot be
      reached with this closed datatype. */
  datatype Action =
    | AddTodo(todo: Todo)
    | ToggleTodo(index: int)
    | DeleteTodo(index: int)
    | ClearTodo

  const InitialState: State := State([])

  /** The entry at position `k` with its completion flag flipped; every
      other entry is kept as it is. */
  function ToggleAt(l: seq<Todo>, k: int): (r: seq<Todo>)
    ensures |r| == |l|
  {
    if l == [] then []
    else [if k == 0 then Toggled(l[0]) else l[0]] + ToggleAt(l[1..], k - 1)
  }

  /** The entries at every position other than `k`, in list order; the
      list loses one entry exactly when `k` is one of its positions. */
  function DeleteAt(l: seq<Todo>, k: int): (r: seq<Todo>)
    ensures |r| == if 0 <= k < |l| then |l| - 1 else |l|
  {
    if l == [] then []
    else (if k == 0 then [] else [l[0]]) + DeleteAt(l[1..], k - 1)
  }

  /** One reducer step: adding grows the list by one entry, toggling keeps
      its length, deleting shrinks it by one exactly when the index is a
      position of the list, and clearing empties it. */
  function Step(s: State, a: Action): (r: State)
    ensures a.AddTodo? ==> |r.todoList| == |s.todoList| + 1
    ensures a.ToggleTodo? ==> |r.todoList| == |s.todoList|
    ensures a.DeleteTodo? ==>
      |r.todoList| == if 0 <= a.index < |s.todoList| then |s.todoList| - 1 else |s.todoList|
    ensures a.ClearTodo? ==> r.todoList == []
  {
    match a
    case AddTodo(t) => s.(todoList := s.todoList + [t])
    case ToggleTodo(k) => s.(todoList := ToggleAt(s.todoList, k))
    case DeleteTodo(k) => s.(todoList := DeleteAt(s.todoList, k))
    case ClearTodo => s.(todoList := [])
  }

  // ---------------------------------------------------------------------
  // ToggleAt

  /** Only position `k` changes, and only in its completion flag. */
  lemma {:induction false} ToggleAtOnly(l: seq<Todo>, k: int, i: int)
    requires 0 <= i < |l|
    ensures ToggleAt(l, k)[i] == if i == k then Toggled(l[i]) else l[i]
  {
    if i > 0 {
      ToggleAtOnly(l[1..], k - 1, i - 1);
    }
  }

  /** Toggling the same position twice restores the list. */
  lemma {:induction false} ToggleAtTwice(l: seq<Todo>, k: int)
    ensures ToggleAt(ToggleAt(l, k), k) == l
  {
    if l != [] {
      ToggleAtTwice(l[1..], k - 1);
      assert l == [l[0]] + l[1..];
    }
  }

  /** Toggling a position outside the list changes nothing. */
  lemma {:induction false} ToggleAtOutOfRange(l: seq<Todo>, k: int)
    requires k < 0 || k >= |l|
    ensures ToggleAt(l, k) == l
  {
    if l != [] {
      ToggleAtOutOfRange(l[1..], k - 1);
      assert l == [l[0]] + l[1..];
    }
  }

  // ---------------------------------------------------------------------
  // DeleteAt

  /** Deleting a position inside the list splices it out. */
  lemma {:induction false} DeleteAtSplices(l: seq<Todo>, k: int)
    requires 0 <= k < |l|
    ensures DeleteAt(l, k) == l[..k] + l[k + 1..]
  {
    if k == 0 {
      DeleteAtOutOfRange(l[1..], -1);
    } else {
      DeleteAtSplices(l[1..], k - 1);
      calc {
        DeleteAt(l, k);
        [l[0]] + DeleteAt(l[1..], k - 1);
        [l[0]] + (l[1..][..k - 1] + l[1..][k..]);
        { assert l[..k] == [l[0]] + l[1..][..k - 1]; assert l[k + 1..] == l[1..][k..]; }
        l[..k] + l[k + 1..];
      }
    }
  }

  /** Deleting a position outside the list changes nothing. */
  lemma {:induction false} DeleteAtOutOfRange(l: seq<Todo>, k: int)
    requires k < 0 || k >= |l|
    ensures DeleteAt(l, k) == l
  {
    if l != [] {
      DeleteAtOutOfRange(l[1..], k - 1);
      assert l == [l[0]] + l[1..];
    }
  }

  // ---------------------------------------------------------------------
  // The reducer, action by action

  /** ADD_TODO appends the payload after the old list. */
  lemma AddTodoAppends(s: State, t: Todo)
    ensures var r := Step(s, AddTodo(t)).todoList;
      |r| == |s.todoList| + 1 && r[..|s.todoList|] == s.todoList && r[|s.todoList|] == t
  {
  }

  /** TOGGLE_TODO keeps the length, every ID and every name, and flips the
      completion flag at the given index only; twice is a no-op, and so is
      an index outside the list. */
  lemma ToggleTodoFlipsOne(s: State, k: int)
    ensures var r := Step(s, ToggleTodo(k)).todoList;
      |r| == |s.todoList| &&
      forall i :: 0 <= i < |r| ==>
        r[i].taskID == s.todoList[i].taskID && r[i].taskName == s.todoList[i].taskName &&
        (r[i].isSuccessful <==> (s.todoList[i].isSuccessful != (i == k)))
    ensures Step(Step(s, ToggleTodo(k)), ToggleTodo(k)) == s
    ensures (k < 0 || k >= |s.todoList|) ==> Step(s, ToggleTodo(k)) == s
  {
    var r := Step(s, ToggleTodo(k)).todoList;
    forall i | 0 <= i < |r|
      ensures r[i].taskID == s.todoList[i].taskID && r[i].taskName == s.todoList[i].taskName &&
              (r[i].isSuccessful <==> (s.todoList[i].isSuccessful != (i == k)))
    {
      ToggleAtOnly(s.todoList, k, i);
    }
    ToggleAtTwice(s.todoList, k);
    if k < 0 || k >= |s.todoList| {
      ToggleAtOutOfRange(s.todoList, k);
    }
  }

  /** DELETE_TODO at an index inside the list drops that entry: the list is
      one shorter, earlier entries stay and later ones move down by one.
      An index outside the list changes nothing. */
  lemma DeleteTodoShifts(s: State, k: int)
    ensures var r := Step(s, DeleteTodo(k)).todoList;
      0 <= k < |s.todoList| ==>
        |r| == |s.todoList| - 1 &&
        (forall i :: 0 <= i < k ==> r[i] == s.todoList[i]) &&
        (forall i :: k <= i < |r| ==> r[i] == s.todoList[i + 1])
    ensures (k < 0 || k >= |s.todoList|) ==> Step(s, DeleteTodo(k)) == s
  {
    if 0 <= k < |s.todoList| {
      DeleteAtSplices(s.todoList, k);
    } else {
      DeleteAtOutOfRange(s.todoList, k);
    }
  }

  /** The initial state holds no tasks, so toggling or deleting any index
      leaves it as it is. */
  lemma InitialStateIsEmpty(k: int)
    ensures InitialState.todoList == []
    ensures Step(InitialState, ToggleTodo(k)) == InitialState
    ensures Step(InitialState, DeleteTodo(k)) == InitialState
  {
  }

  /** CLEAR_TODO empties the list, from any state. */
  lemma ClearTodoEmpties(s: State)
    ensures Step(s, ClearTodo) == InitialState
  {
  }
}
