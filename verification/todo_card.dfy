/** The card component (src/components/TodoCard/TodoCard.tsx): the rules
    it applies on top of the reducer state (which tasks are shown, how a
    title is shortened) and its event handlers, which read the current
    state and dispatch one or two reducer actions. */
module TodoCard {
  import opened TodoData
  import opened JsString
  import H = HooksReducer

  // ---------------------------------------------------------------------
  // The filter projection

  /** The predicate handed to `todoList.filter`. */
  predicate Shown(t: Todo, f: Filter) {
    match f
    case All => true
    case Pending => !t.isSuccessful
    case Completed => t.isSuccessful
  }

  /** The tasks of `l` that `f` shows, in list order. */
  function FilterBy(l: seq<Todo>, f: Filter): (r: seq<Todo>)
    ensures |r| <= |l|
  {
    if l == [] then []
    else (if Shown(l[0], f) then [l[0]] else []) + FilterBy(l[1..], f)
  }

  /** `filteredTodoList`: the list the card renders, an order-preserving
      selection from the task list that is the whole list under `All`. */
  function FilteredTodoList(s: H.State): (r: seq<Todo>)
    ensures IsSubsequence(r, s.todoList)
    ensures s.filter == All ==> r == s.todoList
  {
    FilterByIsSubsequence(s.todoList, s.filter);
    FilterAllIsIdentity(s.todoList);
    FilterBy(s.todoList, s.filter)
  }

  lemma {:induction false} FilterByIsSubsequence(l: seq<Todo>, f: Filter)
    ensures IsSubsequence(FilterBy(l, f), l)
  {
    if l != [] {
      FilterByIsSubsequence(l[1..], f);
      var r := FilterBy(l, f);
      if Shown(l[0], f) {
        assert r == [l[0]] + FilterBy(l[1..], f);
        assert r[0] == l[0] && r[1..] == FilterBy(l[1..], f);
      } else {
        assert r == FilterBy(l[1..], f);
      }
    }
  }

  lemma {:induction false} FilterByCounts(l: seq<Todo>, f: Filter)
    ensures forall t :: multiset(FilterBy(l, f))[t] == if Shown(t, f) then multiset(l)[t] else 0
  {
    if l != [] {
      FilterByCounts(l[1..], f);
      assert l == [l[0]] + l[1..];
      assert multiset(l) == multiset{l[0]} + multiset(l[1..]);
    }
  }

  /** The rendered list is an order-preserving subsequence of the task
      list holding exactly the tasks the filter shows, each as often as it
      occurs in the list. */
  lemma FilteredTodoListSelects(s: H.State)
    ensures IsSubsequence(FilteredTodoList(s), s.todoList)
    ensures forall t :: t in FilteredTodoList(s) <==> t in s.todoList && Shown(t, s.filter)
    ensures forall t :: multiset(FilteredTodoList(s))[t] ==
                        if Shown(t, s.filter) then multiset(s.todoList)[t] else 0
  {
    FilterByIsSubsequence(s.todoList, s.filter);
    FilterByCounts(s.todoList, s.filter);
    forall t ensures t in FilteredTodoList(s) <==> t in s.todoList && Shown(t, s.filter) {
      assert t in FilteredTodoList(s) <==> multiset(FilteredTodoList(s))[t] > 0;
      assert t in s.todoList <==> multiset(s.todoList)[t] > 0;
    }
  }

  /** Under `All` the card renders the whole list. */
  lemma {:induction false} FilterAllIsIdentity(l: seq<Todo>)
    ensures FilterBy(l, All) == l
  {
    if l != [] {
      FilterAllIsIdentity(l[1..]);
      assert l == [l[0]] + l[1..];
    }
  }

  /** The `Pending` and `Completed` views split the list: together they
      hold every task exactly once, and no task is in both. */
  lemma FilterPendingCompletedPartition(l: seq<Todo>)
    ensures multiset(FilterBy(l, Pending)) + multiset(FilterBy(l, Completed)) == multiset(l)
    ensures |FilterBy(l, Pending)| + |FilterBy(l, Completed)| == |l|
    ensures forall t :: !(t in FilterBy(l, Pending) && t in FilterBy(l, Completed))
  {
    FilterByCounts(l, Pending);
    FilterByCounts(l, Completed);
    var p, c := FilterBy(l, Pending), FilterBy(l, Completed);
    forall t ensures (multiset(p) + multiset(c))[t] == multiset(l)[t] {
      assert Shown(t, Pending) != Shown(t, Completed);
    }
    assert multiset(p) + multiset(c) == multiset(l);
    calc {
      |p| + |c|;
      |multiset(p)| + |multiset(c)|;
      |multiset(p) + multiset(c)|;
      |multiset(l)|;
      |l|;
    }
    forall t ensures !(t in p && t in c) {
      assert t in p ==> multiset(p)[t] > 0;
      assert t in c ==> multiset(c)[t] > 0;
    }
  }

  /** After CLEAR_ALL every view is empty. */
  lemma ClearEmptiesEveryView(s: H.State, f: Filter)
    ensures FilteredTodoList(H.Step(s, H.ClearTodo).(filter := f)) == []
  {
  }

  // ---------------------------------------------------------------------
  // Title shortening

  /** The text shown for a task that is not under edit: names shorter than
      25 characters in full, longer ones cut to 25 characters followed by
      "...". */
  function DisplayTitle(name: string): (r: string)
    ensures |r| <= 28
    ensures |name| < 25 ==> r == name
    ensures |name| >= 25 ==> |r| == 28 && r[..25] == name[..25] && r[25..] == "..."
  {
    if |name| < 25 then name else name[..25] + "..."
  }

  /** A name of exactly 25 characters is shown in full and still gets the
      "..." suffix. */
  lemma DisplayTitleOf25(name: string)
    requires |name| == 25
    ensures DisplayTitle(name) == name + "..."
  {
  }

  // ---------------------------------------------------------------------
  // Row click

  /** Clicking a row dispatches UPDATE_TODO with the rendered task's flag
      flipped. With distinct IDs this flips that task only, and a second
      click on the re-rendered task restores the state. */
  lemma ToggleClickTwice(s: H.State, i: int)
    requires UniqueIds(s.todoList) && 0 <= i < |s.todoList|
    ensures var s1 := H.Step(s, H.UpdateTodo(Toggled(s.todoList[i])));
      |s1.todoList| == |s.todoList| &&
      s1.todoList[i] == Toggled(s.todoList[i]) &&
      (forall j :: 0 <= j < |s.todoList| && j != i ==> s1.todoList[j] == s.todoList[j]) &&
      H.Step(s1, H.UpdateTodo(Toggled(s1.todoList[i]))) == s
  {
    var l := s.todoList;
    var s1 := H.Step(s, H.UpdateTodo(Toggled(l[i])));
    H.UpdateTodoReplaces(s, Toggled(l[i]));
    var s2 := H.Step(s1, H.UpdateTodo(Toggled(s1.todoList[i])));
    H.UpdateTodoReplaces(s1, Toggled(s1.todoList[i]));
    assert s2.todoList == l by {
      forall j | 0 <= j < |l| ensures s2.todoList[j] == l[j] {
        if j != i {
          assert l[j].taskID != l[i].taskID;
        }
      }
    }
  }

  // ---------------------------------------------------------------------
  // The component's state and handlers

  /** One mounted card: `state` is what `useReducer` holds, `inputValue`
      the text in the new-task input box. */
  class TodoCard {
    var state: H.State
    var inputValue: string

    constructor ()
      ensures state == H.InitialState && inputValue == ""
    {
      state := H.InitialState;
      inputValue := "";
    }

    /** `dispatch(action)` */
    method Dispatch(a: H.Action)
      modifies this`state
      ensures state == H.Step(old(state), a)
    {
      state := H.Step(state, a);
    }

    /** `handleFilterChange(filter)` */
    method HandleFilterChange(f: Filter)
      modifies this`state
      ensures state.filter == f && state.todoList == old(state.todoList)
      ensures state.editingTodo == old(state.editingTodo) && state.anchorEl == old(state.anchorEl)
    {
      Dispatch(H.SetFilter(f));
    }

    /** `createNewTodo(event)`: on Enter, trims the input and, when
        something is left, adds a pending task with ID `now` (the clock
        reading) and clears the input box. */
    method CreateNewTodo(enterPressed: bool, now: int)
      modifies this
      ensures var name := Trim(old(inputValue));
        if enterPressed && name != [] then
          state == old(state).(todoList := old(state.todoList) + [Todo(now, name, false)]) &&
          inputValue == ""
        else
          state == old(state) && inputValue == old(inputValue)
      ensures AllWhitespace(old(inputValue)) ==> state == old(state)
      ensures |state.todoList| != |old(state.todoList)| ==>
        var t := state.todoList[|state.todoList| - 1];
        t.taskName != [] && Trimmed(t.taskName) && !t.isSuccessful
      ensures UniqueIds(old(state.todoList)) && !HasId(old(state.todoList), now) ==>
        UniqueIds(state.todoList)
    {
      TrimEmptyIffBlank(inputValue);
      if enterPressed {
        var taskName := Trim(inputValue);
        if taskName != "" {
          var t := Todo(now, taskName, false);
          if UniqueIds(state.todoList) && !HasId(state.todoList, now) {
            H.StepKeepsUniqueIds(state, H.AddTodo(t));
          }
          Dispatch(H.AddTodo(t));
          assert state.todoList[|state.todoList| - 1] == t;
          inputValue := "";
        }
      }
    }

    /** `clearAllTodo()` */
    method ClearAllTodo()
      modifies this`state
      ensures state.todoList == []
      ensures state.editingTodo == old(state.editingTodo) && state.anchorEl == old(state.anchorEl)
      ensures state.filter == old(state.filter)
    {
      Dispatch(H.ClearTodo);
    }

    /** `updateTodo(todo)` */
    method UpdateTodo(todo: Todo)
      modifies this`state
      ensures |state.todoList| == |old(state.todoList)|
      ensures forall i :: 0 <= i < |state.todoList| ==>
        state.todoList[i] ==
          if old(state.todoList)[i].taskID == todo.taskID then todo else old(state.todoList)[i]
      ensures state.editingTodo == old(state.editingTodo) && state.anchorEl == old(state.anchorEl)
      ensures state.filter == old(state.filter)
      ensures UniqueIds(old(state.todoList)) ==> UniqueIds(state.todoList)
    {
      H.UpdateTodoReplaces(state, todo);
      if UniqueIds(state.todoList) {
        H.StepKeepsUniqueIds(state, H.UpdateTodo(todo));
      }
      Dispatch(H.UpdateTodo(todo));
    }

    /** `deleteTodo(todo)`: removes the task, then closes the menu. */
    method DeleteTodo(todo: Todo)
      modifies this`state
      ensures state.todoList == H.RemoveId(old(state.todoList), todo.taskID)
      ensures !HasId(state.todoList, todo.taskID)
      ensures IsSubsequence(state.todoList, old(state.todoList))
      ensures state.anchorEl == None
      ensures state.editingTodo == old(state.editingTodo) && state.filter == old(state.filter)
      ensures UniqueIds(old(state.todoList)) ==> UniqueIds(state.todoList)
    {
      H.DeleteTodoFilters(state, todo);
      if UniqueIds(state.todoList) {
        H.StepKeepsUniqueIds(state, H.DeleteTodo(todo));
      }
      Dispatch(H.DeleteTodo(todo));
      Dispatch(H.SetAnchorEl(None));
    }

    /** `SetEditClick(todo)`: makes `todo` the task under edit. */
    method SetEditClick(todo: Todo)
      modifies this`state
      ensures state.editingTodo == Some(todo)
      ensures state.todoList == old(state.todoList) && state.anchorEl == old(state.anchorEl)
      ensures state.filter == old(state.filter)
    {
      Dispatch(H.SetEditingTodo(Some(todo)));
    }

    /** The edit box's `onChange`: the working copy becomes the rendered
        task with the typed text as its name. */
    method EditChange(todo: Todo, text: string)
      modifies this`state
      ensures state.editingTodo == Some(Todo(todo.taskID, text, todo.isSuccessful))
      ensures state.todoList == old(state.todoList) && state.anchorEl == old(state.anchorEl)
      ensures state.filter == old(state.filter)
    {
      SetEditClick(todo.(taskName := text));
    }

    /** `handleEditSubmit(event, todo)`: on Enter while a task is under
        edit, stores the working name (blank or not) under the rendered
        task's ID and flag, then ends the edit. */
    method HandleEditSubmit(enterPressed: bool, todo: Todo)
      modifies this`state
      ensures if enterPressed && old(state.editingTodo).Some? then
          |state.todoList| == |old(state.todoList)| &&
          (forall i :: 0 <= i < |state.todoList| ==>
            state.todoList[i] ==
              if old(state.todoList)[i].taskID == todo.taskID
              then Todo(todo.taskID, old(state.editingTodo).value.taskName, todo.isSuccessful)
              else old(state.todoList)[i]) &&
          state.editingTodo == None &&
          state.anchorEl == old(state.anchorEl) && state.filter == old(state.filter)
        else
          state == old(state)
    {
      if enterPressed && state.editingTodo.Some? {
        UpdateTodo(todo.(taskName := state.editingTodo.value.taskName));
        Dispatch(H.SetEditingTodo(None));
      }
    }

    /** `handleEllipsisClick(anc)`: a click on the menu icon of the task
        whose menu is open closes it; any other click opens that task's
        menu. */
    method HandleEllipsisClick(anc: Anchor)
      modifies this`state
      ensures state.anchorEl ==
        if old(state.anchorEl).Some? && old(state.anchorEl).value.anchorActiveID == anc.anchorActiveID
        then None else Some(anc)
      ensures state.todoList == old(state.todoList) && state.editingTodo == old(state.editingTodo)
      ensures state.filter == old(state.filter)
    {
      if state.anchorEl.Some? && state.anchorEl.value.anchorActiveID == anc.anchorActiveID {
        Dispatch(H.SetAnchorEl(None));
      } else {
        Dispatch(H.SetAnchorEl(Some(anc)));
      }
    }

    /** The row's `onClick`: flips the rendered task's completion flag.
        Nothing checks whether that task is under edit. */
    method ToggleClick(todo: Todo)
      modifies this`state
      ensures |state.todoList| == |old(state.todoList)|
      ensures forall i :: 0 <= i < |state.todoList| ==>
        state.todoList[i] ==
          if old(state.todoList)[i].taskID == todo.taskID then Toggled(todo) else old(state.todoList)[i]
      ensures state.editingTodo == old(state.editingTodo) && state.anchorEl == old(state.anchorEl)
      ensures state.filter == old(state.filter)
    {
      UpdateTodo(Toggled(todo));
    }
  }

  // ---------------------------------------------------------------------
  // Usage scenarios, as a user would drive the card

  /** Two tasks are added and shown as pending; clicking the first moves it
      from the pending view to the completed one. */
  method FilterScenario() returns (pendingBefore: seq<Todo>, pendingAfter: seq<Todo>, completedAfter: seq<Todo>)
    ensures pendingBefore == [Todo(1, "Buy milk", false), Todo(2, "Walk dog", false)]
    ensures pendingAfter == [Todo(2, "Walk dog", false)]
    ensures completedAfter == [Todo(1, "Buy milk", true)]
  {
    var card := new TodoCard();
    card.inputValue := "Buy milk";
    assert Trim("Buy milk") == "Buy milk" by {
      TrimUnique("Buy milk", 0, 8);
      assert "Buy milk"[0..8] == "Buy milk";
    }
    card.CreateNewTodo(true, 1);
    card.inputValue := "Walk dog";
    assert Trim("Walk dog") == "Walk dog" by {
      TrimUnique("Walk dog", 0, 8);
      assert "Walk dog"[0..8] == "Walk dog";
    }
    card.CreateNewTodo(true, 2);
    card.HandleFilterChange(Pending);
    var milk, dog := Todo(1, "Buy milk", false), Todo(2, "Walk dog", false);
    assert card.state.todoList == [milk, dog];
    assert FilterBy([dog], Pending) == [dog] by { assert [dog][1..] == []; }
    assert FilterBy([milk, dog], Pending) == [milk, dog] by { assert [milk, dog][1..] == [dog]; }
    pendingBefore := FilteredTodoList(card.state);
    card.ToggleClick(card.state.todoList[0]);
    var done := Toggled(milk);
    assert card.state.todoList == [done, dog];
    assert FilterBy([done, dog], Pending) == [dog] by { assert [done, dog][1..] == [dog]; }
    assert FilterBy([dog], Completed) == [] by { assert [dog][1..] == []; }
    assert FilterBy([done, dog], Completed) == [done] by { assert [done, dog][1..] == [dog]; }
    pendingAfter := FilteredTodoList(card.state);
    card.HandleFilterChange(Completed);
    completedAfter := FilteredTodoList(card.state);
  }

  /** A blank input is ignored and stays in the input box. */
  method BlankInputScenario() returns (count: nat, left: string)
    ensures count == 0 && left == "   "
  {
    var card := new TodoCard();
    card.inputValue := "   ";
    card.CreateNewTodo(true, 1);
    count := |card.state.todoList|;
    left := card.inputValue;
  }

  /** Editing "X" to "Y" and pressing Enter stores "Y" and ends the edit. */
  method EditScenario() returns (stored: seq<Todo>, editing: Option<Todo>)
    ensures stored == [Todo(7, "Y", false)] && editing == None
  {
    var card := new TodoCard();
    card.inputValue := "X";
    assert Trim("X") == "X" by {
      TrimUnique("X", 0, 1);
      assert "X"[0..1] == "X";
    }
    card.CreateNewTodo(true, 7);
    var todo := card.state.todoList[0];
    assert card.state.todoList == [Todo(7, "X", false)];
    card.SetEditClick(todo);
    card.EditChange(todo, "Y");
    assert card.state.editingTodo == Some(Todo(7, "Y", false));
    card.HandleEditSubmit(true, todo);
    assert |card.state.todoList| == 1 && card.state.todoList[0] == Todo(7, "Y", false);
    stored := card.state.todoList;
    editing := card.state.editingTodo;
  }

  /** Two clicks on one task's menu icon open and then close its menu. */
  method MenuScenario(id: int) returns (afterFirst: Option<Anchor>, afterSecond: Option<Anchor>)
    ensures afterFirst == Some(Anchor(id)) && afterSecond == None
  {
    var card := new TodoCard();
    card.HandleEllipsisClick(Anchor(id));
    afterFirst := card.state.anchorEl;
    card.HandleEllipsisClick(Anchor(id));
    afterSecond := card.state.anchorEl;
  }

  /** From any card whose open menu, if any, belongs to another task, two
      clicks on one task's menu icon leave no menu open and change nothing
      else. */
  method TwoMenuClicks(card: TodoCard, anc: Anchor)
    requires card.state.anchorEl.None? || card.state.anchorEl.value.anchorActiveID != anc.anchorActiveID
    modifies card
    ensures card.state == old(card.state).(anchorEl := None)
    ensures card.inputValue == old(card.inputValue)
  {
    card.HandleEllipsisClick(anc);
    card.HandleEllipsisClick(anc);
  }
}
