/** The value types shared by both reducers and the card component
    (src/data/todo.ts), and the vocabulary used to state properties
    of a task list. */
module TodoData {

  datatype Option<+T> = None | Some(value: T)

  /** Which tasks the card shows. */
  datatype Filter = All | Pending | Completed

  /** One task. `taskID` is a millisecond timestamp in the app; it is
      modelled as an unbounded integer. */
  datatype Todo = Todo(taskID: int, taskName: string, isSuccessful: bool)

  /** The open context menu. The DOM element it is anchored to only
      positions the popup, so the model keeps the task ID alone. */
  datatype Anchor = Anchor(anchorActiveID: int)

  /** The same task with its completion flag flipped. */
  function Toggled(t: Todo): (r: Todo)
    ensures r.taskID == t.taskID && r.taskName == t.taskName
    ensures r.isSuccessful != t.isSuccessful
  {
    t.(isSuccessful := !t.isSuccessful)
  }

  predicate HasId(l: seq<Todo>, id: int) {
    exists i :: 0 <= i < |l| && l[i].taskID == id
  }

  /** No two entries of the list share a `taskID`. */
  predicate UniqueIds(l: seq<Todo>) {
    forall i, j :: 0 <= i < j < |l| ==> l[i].taskID != l[j].taskID
  }

  /** `a` is obtained from `b` by dropping entries, keeping the order. */
  predicate IsSubsequence<T(==)>(a: seq<T>, b: seq<T>)
    decreases |b|
  {
    a == [] ||
    (b != [] &&
     ((a[0] == b[0] && IsSubsequence(a[1..], b[1..])) || IsSubsequence(a, b[1..])))
  }

  /** Every entry of a subsequence occurs in the larger list. */
  lemma {:induction false} SubsequenceMembers<T>(a: seq<T>, b: seq<T>)
    requires IsSubsequence(a, b)
    ensures |a| <= |b|
    ensures forall x :: x in a ==> x in b
    decreases |b|
  {
    if a != [] {
      if a[0] == b[0] && IsSubsequence(a[1..], b[1..]) {
        SubsequenceMembers(a[1..], b[1..]);
        forall x | x in a ensures x in b {
          if x != a[0] {
            assert x in a[1..];
          }
        }
      } else {
        SubsequenceMembers(a, b[1..]);
      }
    }
  }

  /** A subsequence of a list with distinct IDs has distinct IDs. */
  lemma {:induction false} SubsequenceKeepsUniqueIds(a: seq<Todo>, b: seq<Todo>)
    requires IsSubsequence(a, b) && UniqueIds(b)
    ensures UniqueIds(a)
    decreases |b|
  {
    if a != [] {
      if a[0] == b[0] && IsSubsequence(a[1..], b[1..]) {
        SubsequenceKeepsUniqueIds(a[1..], b[1..]);
        SubsequenceMembers(a[1..], b[1..]);
        forall j | 0 < j < |a| ensures a[0].taskID != a[j].taskID {
          assert a[j] in b[1..] by { assert a[1..][j - 1] == a[j]; }
          var k :| 0 <= k < |b[1..]| && b[1..][k] == a[j];
          assert b[k + 1] == a[j];
        }
        forall i, j | 0 <= i < j < |a| ensures a[i].taskID != a[j].taskID {
          if i > 0 {
            assert a[1..][i - 1] == a[i] && a[1..][j - 1] == a[j];
          }
        }
      } else {
        SubsequenceKeepsUniqueIds(a, b[1..]);
      }
    }
  }
}
