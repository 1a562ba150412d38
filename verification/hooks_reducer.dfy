/** The reducer the card uses (src/hooks/reducer.ts): tasks are keyed by
    their `taskID`, and the state also holds the task under edit, the open
    context menu and the active filter. */
module HooksReducer {
  import opened TodoData

  datatype State = State(
    todoList: seq<Todo>,
    editingTodo: Option<Todo>,
    anchorEl: Option<Anchor>,
    filter: Filter)

  /** The seven action kinds. The source's `default: throw` branch cannot
      be reached with this closed datatype. */
  datatype Action =
    | AddTodo(todo: Todo)
    | UpdateTodo(todo: Todo)
    | DeleteTodo(todo: Todo)
    | ClearTodo
    | SetEditingTodo(editing: Option<Todo>)
    | SetAnchorEl(anchor: Option<Anchor>)
    | SetFilter(mode: Filter)

  const InitialState: State := State([], None, None, All)

  /** Every entry whose ID equals the payload's is merged with the payload;
      the payload carries all three fields, so such an entry becomes the
      payload. Every other entry is kept as it is. */
  function Replace(l: seq<Todo>, p: Todo): (r: seq<Todo>)
    ensures |r| == |l|
  {
    if l == [] then []
    else [if l[0].taskID == p.taskID then p else l[0]] + Replace(l[1..], p)
  }

  /** The entries whose ID differs from `id`, in list order. */
  function RemoveId(l: seq<Todo>, id: int): (r: seq<Todo>)
    ensures |r| <= |l|
  {
    if l == [] then []
    else (if l[0].taskID == id then [] else [l[0]]) + RemoveId(l[1..], id)
  }

  /** One reducer step. The list actions change the list alone and the
      setters leave the list alone; adding grows the list by one entry,
      updating keeps its length and deleting never grows it. */
  function Step(s: State, a: Action): (r: State)
    ensures IsListAction(a) ==>
      r.editingTodo == s.editingTodo && r.anchorEl == s.anchorEl && r.filter == s.filter
    ensures !IsListAction(a) ==> r.todoList == s.todoList
    ensures a.AddTodo? ==> |r.todoList| == |s.todoList| + 1
    ensures a.UpdateTodo? ==> |r.todoList| == |s.todoList|
    ensures a.DeleteTodo? ==> |r.todoList| <= |s.todoList|
  {
    match a
    case AddTodo(t) => s.(todoList := s.todoList + [t])
    case UpdateTodo(t) => s.(todoList := Replace(s.todoList, t))
    case DeleteTodo(t) => s.(todoList := RemoveId(s.todoList, t.taskID))
    case ClearTodo => s.(todoList := [])
    case SetEditingTodo(e) => s.(editingTodo := e)
    case SetAnchorEl(an) => s.(anchorEl := an)
    case SetFilter(f) => s.(filter := f)
  }

  predicate IsListAction(a: Action) {
    a.AddTodo? || a.UpdateTodo? || a.DeleteTodo? || a.ClearTodo?
  }

  // ---------------------------------------------------------------------
  // Replace (UPDATE_TODO)

  /** Entry by entry, a matching ID takes the payload and every other entry
      is kept. */
  lemma {:induction false} ReplaceAt(l: seq<Todo>, p: Todo, i: int)
    requires 0 <= i < |l|
    ensures Replace(l, p)[i] == if l[i].taskID == p.taskID then p else l[i]
  {
    if i > 0 {
      ReplaceAt(l[1..], p, i - 1);
    }
  }

  /** Replacing keeps every entry's ID in place. */
  lemma ReplaceKeepsIds(l: seq<Todo>, p: Todo)
    ensures forall i :: 0 <= i < |l| ==> Replace(l, p)[i].taskID == l[i].taskID
  {
    forall i | 0 <= i < |l| ensures Replace(l, p)[i].taskID == l[i].taskID {
      ReplaceAt(l, p, i);
    }
  }

  /** Updating an ID that is not in the list changes nothing. */
  lemma {:induction false} ReplaceAbsent(l: seq<Todo>, p: Todo)
    requires !HasId(l, p.taskID)
    ensures Replace(l, p) == l
  {
    if l != [] {
      assert !HasId(l[1..], p.taskID) by {
        forall i | 0 <= i < |l[1..]| ensures l[1..][i].taskID != p.taskID {
          assert l[1..][i] == l[i + 1];
        }
      }
      ReplaceAbsent(l[1..], p);
    }
  }

  // ---------------------------------------------------------------------
  // RemoveId (DELETE_TODO)

  /** Deleting keeps the order of the remaining entries. */
  lemma {:induction false} RemoveIdIsSubsequence(l: seq<Todo>, id: int)
    ensures IsSubsequence(RemoveId(l, id), l)
  {
    if l != [] {
      RemoveIdIsSubsequence(l[1..], id);
      var r := RemoveId(l, id);
      if l[0].taskID != id {
        assert r == [l[0]] + RemoveId(l[1..], id);
        assert r[0] == l[0] && r[1..] == RemoveId(l[1..], id);
      } else {
        assert r == RemoveId(l[1..], id);
      }
    }
  }

  /** Deleting keeps exactly the entries with a different ID, each as often
      as it occurred. */
  lemma {:induction false} RemoveIdCounts(l: seq<Todo>, id: int)
    ensures forall t :: multiset(RemoveId(l, id))[t] ==
                        if t.taskID == id then 0 else multiset(l)[t]
  {
    if l != [] {
      RemoveIdCounts(l[1..], id);
      assert l == [l[0]] + l[1..];
      assert multiset(l) == multiset{l[0]} + multiset(l[1..]);
    }
  }

  /** An entry survives deletion exactly when its ID differs. */
  lemma RemoveIdMembers(l: seq<Todo>, id: int)
    ensures forall t :: t in RemoveId(l, id) <==> t in l && t.taskID != id
  {
    RemoveIdCounts(l, id);
    forall t ensures t in RemoveId(l, id) <==> t in l && t.taskID != id {
      assert t in RemoveId(l, id) <==> multiset(RemoveId(l, id))[t] > 0;
      assert t in l <==> multiset(l)[t] > 0;
    }
  }

  /** When the ID is absent, deleting it changes nothing. */
  lemma {:induction false} RemoveIdAbsent(l: seq<Todo>, id: int)
    requires !HasId(l, id)
    ensures RemoveId(l, id) == l
  {
    if l != [] {
      assert !HasId(l[1..], id) by {
        forall i | 0 <= i < |l[1..]| ensures l[1..][i].taskID != id {
          assert l[1..][i] == l[i + 1];
        }
      }
      RemoveIdAbsent(l[1..], id);
      assert l == [l[0]] + l[1..];
    }
  }

  /** After deleting an ID, it is absent; the list shrinks exactly when the
      ID was present. */
  lemma RemoveIdRemoves(l: seq<Todo>, id: int)
    ensures !HasId(RemoveId(l, id), id)
    ensures HasId(l, id) <==> |RemoveId(l, id)| < |l|
  {
    var r := RemoveId(l, id);
    RemoveIdMembers(l, id);
    RemoveIdCounts(l, id);
    RemoveIdIsSubsequence(l, id);
    forall i | 0 <= i < |r| ensures r[i].taskID != id {
      assert r[i] in r;
    }
    if HasId(l, id) {
      var i :| 0 <= i < |l| && l[i].taskID == id;
      assert multiset(l)[l[i]] > 0 && multiset(r)[l[i]] == 0;
      assert multiset(r) != multiset(l);
      if |r| == |l| {
        SubsequenceSameLength(r, l);
      }
    } else {
      RemoveIdAbsent(l, id);
    }
  }

  /** A subsequence as long as the list is the list itself. */
  lemma {:induction false} SubsequenceSameLength<T>(a: seq<T>, b: seq<T>)
    requires IsSubsequence(a, b) && |a| == |b|
    ensures a == b
    decreases |b|
  {
    if a != [] {
      if a[0] == b[0] && IsSubsequence(a[1..], b[1..]) {
        SubsequenceSameLength(a[1..], b[1..]);
        assert a == [a[0]] + a[1..] && b == [b[0]] + b[1..];
      } else {
        SubsequenceMembers(a, b[1..]);
      }
    }
  }

  // ---------------------------------------------------------------------
  // The reducer, action by action

  /** The initial state: no tasks, nothing under edit, no menu open, every
      task shown; its list trivially has distinct IDs. */
  lemma InitialStateIsEmpty()
    ensures InitialState.todoList == [] && UniqueIds(InitialState.todoList)
    ensures InitialState.editingTodo == None && InitialState.anchorEl == None
    ensures InitialState.filter == All
  {
  }

  /** ADD_TODO appends the payload: one entry longer, the old list is a
      prefix and the new task is last. */
  lemma AddTodoAppends(s: State, t: Todo)
    ensures var r := Step(s, AddTodo(t)).todoList;
      |r| == |s.todoList| + 1 && r[..|s.todoList|] == s.todoList && r[|s.todoList|] == t
  {
  }

  /** UPDATE_TODO keeps the length and order; matching entries become the
      payload, the others are unchanged; an unknown ID changes nothing. */
  lemma UpdateTodoReplaces(s: State, t: Todo)
    ensures var r := Step(s, UpdateTodo(t)).todoList;
      |r| == |s.todoList| &&
      forall i :: 0 <= i < |r| ==>
        r[i] == if s.todoList[i].taskID == t.taskID then t else s.todoList[i]
    ensures !HasId(s.todoList, t.taskID) ==> Step(s, UpdateTodo(t)) == s
  {
    var r := Step(s, UpdateTodo(t)).todoList;
    forall i | 0 <= i < |r|
      ensures r[i] == if s.todoList[i].taskID == t.taskID then t else s.todoList[i]
    {
      ReplaceAt(s.todoList, t, i);
    }
    if !HasId(s.todoList, t.taskID) {
      ReplaceAbsent(s.todoList, t);
    }
  }

  /** DELETE_TODO keeps, in order, exactly the entries whose ID differs,
      and deleting the same ID twice is deleting it once. */
  lemma DeleteTodoFilters(s: State, t: Todo)
    ensures var r := Step(s, DeleteTodo(t)).todoList;
      IsSubsequence(r, s.todoList) &&
      (forall u :: u in r <==> u in s.todoList && u.taskID != t.taskID) &&
      !HasId(r, t.taskID)
    ensures var r := Step(s, DeleteTodo(t)).todoList;
      forall u :: multiset(r)[u] == if u.taskID == t.taskID then 0 else multiset(s.todoList)[u]
    ensures Step(Step(s, DeleteTodo(t)), DeleteTodo(t)) == Step(s, DeleteTodo(t))
  {
    RemoveIdIsSubsequence(s.todoList, t.taskID);
    RemoveIdCounts(s.todoList, t.taskID);
    RemoveIdMembers(s.todoList, t.taskID);
    RemoveIdRemoves(s.todoList, t.taskID);
    RemoveIdAbsent(RemoveId(s.todoList, t.taskID), t.taskID);
  }

  /** CLEAR_TODO empties the list and leaves the editing task, the open
      menu and the filter as they were. */
  lemma ClearTodoEmpties(s: State)
    ensures Step(s, ClearTodo).todoList == []
    ensures Step(s, ClearTodo).editingTodo == s.editingTodo
    ensures Step(s, ClearTodo).anchorEl == s.anchorEl
    ensures Step(s, ClearTodo).filter == s.filter
  {
  }

  /** Each setter replaces its own field and no other. */
  lemma SettersTouchOneField(s: State, e: Option<Todo>, an: Option<Anchor>, f: Filter)
    ensures Step(s, SetEditingTodo(e)) == State(s.todoList, e, s.anchorEl, s.filter)
    ensures Step(s, SetAnchorEl(an)) == State(s.todoList, s.editingTodo, an, s.filter)
    ensures Step(s, SetFilter(f)) == State(s.todoList, s.editingTodo, s.anchorEl, f)
  {
  }

  /** Distinct IDs survive every list action, provided an added task's ID
      is new. */
  lemma StepKeepsUniqueIds(s: State, a: Action)
    requires UniqueIds(s.todoList)
    requires a.AddTodo? ==> !HasId(s.todoList, a.todo.taskID)
    ensures UniqueIds(Step(s, a).todoList)
  {
    match a
    case AddTodo(t) =>
      var r := Step(s, a).todoList;
      forall i, j | 0 <= i < j < |r| ensures r[i].taskID != r[j].taskID {
        if j == |s.todoList| {
          assert r[i] == s.todoList[i];
        }
      }
    case UpdateTodo(t) =>
      ReplaceKeepsIds(s.todoList, t);
    case DeleteTodo(t) =>
      RemoveIdIsSubsequence(s.todoList, t.taskID);
      SubsequenceKeepsUniqueIds(RemoveId(s.todoList, t.taskID), s.todoList);
    case ClearTodo =>
    case SetEditingTodo(_) =>
    case SetAnchorEl(_) =>
    case SetFilter(_) =>
  }
}
