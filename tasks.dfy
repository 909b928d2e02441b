/**
 The task records kept inside the current user's profile, and the pure
 rules behind the three task mutations of the client's data layer:
 appending a task, writing a subtask's done flag together with the stored
 done-counter, and removing a task with the semantics of `splice(i, 1)`.
 */
module TaskModel {

  datatype Option<T> = None | Some(value: T)

  /** A task as the board stores it. `doneSubtask` runs parallel to
      `subtasks`; `numberOfDoneSubtasks` is a stored counter, not derived. */
  datatype Task = Task(
    title: string,
    description: string,
    dueDate: string,
    priority: string,
    category: string,
    subtasks: seq<string>,
    doneSubtask: seq<bool>,
    numberOfDoneSubtasks: int,
    assignedContacts: seq<string>)

  /** The current user's persisted profile; its task list is the one the
      mutations change. */
  datatype UserRecord = UserRecord(name: string, email: string, tasks: seq<Task>)

  /** Number of `true` entries in a flag sequence. */
  function CountDone(flags: seq<bool>): (n: nat)
    ensures n <= |flags|
    ensures n == 0 <==> forall k :: 0 <= k < |flags| ==> !flags[k]
  {
    if flags == [] then 0
    else (if flags[0] then 1 else 0) + CountDone(flags[1..])
  }

  /** The invariant the board relies on: the counter equals the number of
      done flags, and there is one flag per subtask. */
  predicate Consistent(t: Task) {
    |t.doneSubtask| == |t.subtasks| && t.numberOfDoneSubtasks == CountDone(t.doneSubtask)
  }

  predicate AllConsistent(ts: seq<Task>) {
    forall k :: 0 <= k < |ts| ==> Consistent(ts[k])
  }

  /** How far the stored counter is from the true number of done flags. */
  function Drift(t: Task): int {
    t.numberOfDoneSubtasks - CountDone(t.doneSubtask)
  }

  lemma {:induction false} CountDoneUpdate(flags: seq<bool>, j: int, b: bool)
    requires 0 <= j < |flags|
    ensures CountDone(flags[j := b])
         == CountDone(flags) - (if flags[j] then 1 else 0) + (if b then 1 else 0)
  {
    if j == 0 {
      assert flags[j := b][1..] == flags[1..];
    } else {
      CountDoneUpdate(flags[1..], j - 1, b);
      assert flags[j := b][1..] == flags[1..][j - 1 := b];
    }
  }

  /** One task after `doneSubtask[j] = s` and the counter step that
      follows it: +1 when `s` is true, -1 otherwise, whatever the old flag. */
  function SetSubtaskDone(t: Task, j: int, s: bool): (r: Task)
    requires 0 <= j < |t.doneSubtask|
    ensures |r.doneSubtask| == |t.doneSubtask| && r.doneSubtask[j] == s
    ensures forall k :: 0 <= k < |t.doneSubtask| && k != j ==> r.doneSubtask[k] == t.doneSubtask[k]
    ensures s ==> r.numberOfDoneSubtasks == t.numberOfDoneSubtasks + 1
    ensures !s ==> r.numberOfDoneSubtasks == t.numberOfDoneSubtasks - 1
    ensures r.(doneSubtask := t.doneSubtask, numberOfDoneSubtasks := t.numberOfDoneSubtasks) == t
  {
    t.(doneSubtask := t.doneSubtask[j := s],
       numberOfDoneSubtasks := if s then t.numberOfDoneSubtasks + 1 else t.numberOfDoneSubtasks - 1)
  }

  /** The drift grows by one when `true` is written over `true`, shrinks
      by one when `false` is written over `false`, and is kept when the flag
      really changes. */
  lemma DriftAfterSet(t: Task, j: int, s: bool)
    requires 0 <= j < |t.doneSubtask|
    ensures Drift(SetSubtaskDone(t, j, s))
         == Drift(t) + (if t.doneSubtask[j] != s then 0 else if s then 1 else -1)
  {
    CountDoneUpdate(t.doneSubtask, j, s);
  }

  /** Starting from a consistent task, the counter stays exact exactly when
      the call flips the flag. */
  lemma ConsistentAfterSetIffFlip(t: Task, j: int, s: bool)
    requires Consistent(t) && 0 <= j < |t.doneSubtask|
    ensures Consistent(SetSubtaskDone(t, j, s)) <==> t.doneSubtask[j] != s
  {
    DriftAfterSet(t, j, s);
  }

  /** Marking the same subtask done twice adds two to the counter while the
      number of done flags grows by at most one, so the invariant breaks. */
  lemma RepeatedDoneDrifts(t: Task, j: int)
    requires Consistent(t) && 0 <= j < |t.doneSubtask|
    ensures var t2 := SetSubtaskDone(SetSubtaskDone(t, j, true), j, true);
      && t2.numberOfDoneSubtasks == t.numberOfDoneSubtasks + 2
      && t2.doneSubtask[j]
      && CountDone(t2.doneSubtask) <= CountDone(t.doneSubtask) + 1
      && Drift(t2) >= 1
      && !Consistent(t2)
  {
    var t1 := SetSubtaskDone(t, j, true);
    DriftAfterSet(t, j, true);
    DriftAfterSet(t1, j, true);
  }

  /** Done then undone: the counter is back where it was, and a subtask that
      was open before is open again with the task otherwise untouched. */
  lemma DoneThenUndoneRestores(t: Task, j: int)
    requires 0 <= j < |t.doneSubtask|
    ensures var t2 := SetSubtaskDone(SetSubtaskDone(t, j, true), j, false);
      && t2.numberOfDoneSubtasks == t.numberOfDoneSubtasks
      && (!t.doneSubtask[j] ==> t2 == t)
  {
  }

  lemma {:induction false} CountDoneAppend(flags: seq<bool>, b: bool)
    ensures CountDone(flags + [b]) == CountDone(flags) + (if b then 1 else 0)
  {
    if flags != [] {
      CountDoneAppend(flags[1..], b);
      assert (flags + [b])[1..] == flags[1..] + [b];
    }
  }

  /** One task after `doneSubtask[j] = s` with `j` equal to the number of
      flags: JavaScript appends the flag, and the counter steps as always. */
  function AppendSubtaskDone(t: Task, s: bool): (r: Task)
    ensures r.doneSubtask == t.doneSubtask + [s]
    ensures s ==> r.numberOfDoneSubtasks == t.numberOfDoneSubtasks + 1
    ensures !s ==> r.numberOfDoneSubtasks == t.numberOfDoneSubtasks - 1
    ensures r.(doneSubtask := t.doneSubtask, numberOfDoneSubtasks := t.numberOfDoneSubtasks) == t
  {
    t.(doneSubtask := t.doneSubtask + [s],
       numberOfDoneSubtasks := if s then t.numberOfDoneSubtasks + 1 else t.numberOfDoneSubtasks - 1)
  }

  /** Writing one past the last flag keeps the drift when `s` is true and
      lowers it by one when `s` is false; either way a consistent task loses
      its one-flag-per-subtask clause. */
  lemma AppendSubtaskDoneBreaksConsistency(t: Task, s: bool)
    ensures Drift(AppendSubtaskDone(t, s)) == Drift(t) + (if s then 0 else -1)
    ensures Consistent(t) ==> !Consistent(AppendSubtaskDone(t, s))
  {
    CountDoneAppend(t.doneSubtask, s);
  }

  /** The task list after `tasks[i].doneSubtask[j] = s` and its counter
      step; `None` when `tasks[i]` does not exist or `j` is negative or past
      the end of the flags plus one. */
  function SetSubtaskDoneAt(ts: seq<Task>, i: int, j: int, s: bool): (r: Option<seq<Task>>)
    ensures r.None? <==> !(0 <= i < |ts| && 0 <= j <= |ts[i].doneSubtask|)
    ensures r.Some? && j < |ts[i].doneSubtask| ==> r.value == ts[i := SetSubtaskDone(ts[i], j, s)]
    ensures r.Some? && j == |ts[i].doneSubtask| ==> r.value == ts[i := AppendSubtaskDone(ts[i], s)]
    ensures r.Some? ==> |r.value| == |ts| && forall k :: 0 <= k < |ts| && k != i ==> r.value[k] == ts[k]
  {
    if 0 <= i < |ts| && 0 <= j < |ts[i].doneSubtask| then Some(ts[i := SetSubtaskDone(ts[i], j, s)])
    else if 0 <= i < |ts| && j == |ts[i].doneSubtask| then Some(ts[i := AppendSubtaskDone(ts[i], s)])
    else None
  }

  /** A flipping write keeps every task of a consistent list consistent. */
  lemma SetSubtaskDoneAtKeepsConsistency(ts: seq<Task>, i: int, j: int, s: bool)
    requires AllConsistent(ts)
    requires 0 <= i < |ts| && 0 <= j < |ts[i].doneSubtask| && ts[i].doneSubtask[j] != s
    ensures SetSubtaskDoneAt(ts, i, j, s).Some? && AllConsistent(SetSubtaskDoneAt(ts, i, j, s).value)
  {
    ConsistentAfterSetIffFlip(ts[i], j, s);
  }

  /** Where `splice(i, ...)` starts on an array of length n: a negative i
      counts from the end, and the result is clamped to [0, n]. */
  function SpliceStart(n: nat, i: int): (k: nat)
    ensures k <= n
    ensures 0 <= i <= n ==> k == i
    ensures i < 0 && 0 <= n + i ==> k == n + i
    ensures n + i < 0 ==> k == 0
    ensures i > n ==> k == n
  {
    if i < 0 then (if n + i < 0 then 0 else n + i)
    else if i > n then n else i
  }

  /** The array after `splice(i, 1)`: the element at the start position is
      removed and every later one moves down one place; when the start
      position is the end of the array nothing is removed. */
  function SpliceOne<T>(s: seq<T>, i: int): (r: seq<T>)
    ensures var k := SpliceStart(|s|, i);
      && (k == |s| ==> r == s)
      && (k < |s| ==>
            && |r| == |s| - 1
            && (forall m :: 0 <= m < k ==> r[m] == s[m])
            && (forall m :: k <= m < |r| ==> r[m] == s[m + 1]))
  {
    var k := SpliceStart(|s|, i);
    if k < |s| then s[..k] + s[k + 1..] else s
  }

  /** Removal takes out exactly the element at the start position and
      nothing else. */
  lemma SpliceOneRemovesOne<T>(s: seq<T>, i: int)
    requires SpliceStart(|s|, i) < |s|
    ensures multiset(SpliceOne(s, i)) + multiset{s[SpliceStart(|s|, i)]} == multiset(s)
  {
    var k := SpliceStart(|s|, i);
    assert s == s[..k] + [s[k]] + s[k + 1..];
  }

  /** Appending a task and then deleting the last index gives back the
      original list; so does deleting index -1, which `splice` reads as the
      last element. */
  lemma AppendThenDeleteLast(ts: seq<Task>, t: Task)
    ensures SpliceOne(ts + [t], |ts + [t]| - 1) == ts
    ensures SpliceOne(ts + [t], -1) == ts
  {
  }

  /** Appending a consistent task keeps a consistent list consistent. */
  lemma AppendKeepsConsistency(ts: seq<Task>, t: Task)
    requires AllConsistent(ts) && Consistent(t)
    ensures AllConsistent(ts + [t])
  {
  }

  /** Deleting any index keeps a consistent list consistent. */
  lemma DeleteKeepsConsistency(ts: seq<Task>, i: int)
    requires AllConsistent(ts)
    ensures AllConsistent(SpliceOne(ts, i))
  {
  }
}
