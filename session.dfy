/**
 The task mutations of the client's data layer as they run in a browser
 session: the current user record (what `getUser` reads and `saveUser`
 overwrites) and the module-level `tasks` cache are fields of one session
 object, and every mutation is a read, an in-memory change, and a write of
 the whole record.
 */
module UserTasks {
  import opened TaskModel

  datatype Status = Saved | IndexOutOfRange

  class Session {
    /** The current user's record, as `getUser` returns it and `saveUser` stores it. */
    var user: UserRecord
    /** The module-level task cache the board renders from. */
    var tasks: seq<Task>

    constructor (current: UserRecord)
      ensures user == current && tasks == []
    {
      user := current;
      tasks := [];
    }

    /** `getUser()`: a copy of the current record. */
    method GetUser() returns (u: UserRecord)
      ensures u == user
    {
      u := user;
    }

    /** `saveUser(u)`: the whole record is overwritten. */
    method SaveUser(u: UserRecord)
      modifies this`user
      ensures user == u
    {
      user := u;
    }

    /** `saveUserTask(task)`: the task goes last, every earlier task and the
        rest of the profile stay as they were, and the cache is not touched. */
    method SaveUserTask(task: Task)
      modifies this`user
      ensures user == old(user).(tasks := old(user.tasks) + [task])
      ensures |user.tasks| == |old(user.tasks)| + 1 && user.tasks[|user.tasks| - 1] == task
      ensures user.tasks[..|old(user.tasks)|] == old(user.tasks)
      ensures AllConsistent(old(user.tasks)) && Consistent(task) ==> AllConsistent(user.tasks)
    {
      var u := GetUser();
      if AllConsistent(u.tasks) && Consistent(task) {
        AppendKeepsConsistency(old(user.tasks), task);
      }
      u := u.(tasks := u.tasks + [task]);
      SaveUser(u);
    }

    /** `saveUserSubtaskDone(i, j, s)`: the flag is written (appended when
        `j` is the number of flags) and the counter moves on `s` alone. A
        missing task, or a subtask index that is negative or further out,
        stops the call before anything is saved. */
    method SaveUserSubtaskDone(taskIndex: int, subtaskIndex: int, state: bool) returns (status: Status)
      modifies this`user
      ensures status == IndexOutOfRange <==>
        !(0 <= taskIndex < |old(user.tasks)| && 0 <= subtaskIndex <= |old(user.tasks)[taskIndex].doneSubtask|)
      ensures status == IndexOutOfRange ==> user == old(user)
      ensures status == Saved ==>
        && user == old(user).(tasks := old(user.tasks)[taskIndex :=
             if subtaskIndex < |old(user.tasks)[taskIndex].doneSubtask|
             then SetSubtaskDone(old(user.tasks)[taskIndex], subtaskIndex, state)
             else AppendSubtaskDone(old(user.tasks)[taskIndex], state)])
        && user.tasks[taskIndex].numberOfDoneSubtasks
           == old(user.tasks)[taskIndex].numberOfDoneSubtasks + (if state then 1 else -1)
      ensures status == Saved && AllConsistent(old(user.tasks))
              && subtaskIndex < |old(user.tasks)[taskIndex].doneSubtask|
              && old(user.tasks)[taskIndex].doneSubtask[subtaskIndex] != state
              ==> AllConsistent(user.tasks)
      ensures status == Saved && Consistent(old(user.tasks)[taskIndex])
              && subtaskIndex == |old(user.tasks)[taskIndex].doneSubtask|
              ==> !Consistent(user.tasks[taskIndex])
    {
      var u := GetUser();
      var updated := SetSubtaskDoneAt(u.tasks, taskIndex, subtaskIndex, state);
      if updated.None? {
        return IndexOutOfRange;
      }
      if subtaskIndex < |u.tasks[taskIndex].doneSubtask| {
        if AllConsistent(u.tasks) && u.tasks[taskIndex].doneSubtask[subtaskIndex] != state {
          SetSubtaskDoneAtKeepsConsistency(u.tasks, taskIndex, subtaskIndex, state);
        }
      } else {
        AppendSubtaskDoneBreaksConsistency(u.tasks[taskIndex], state);
      }
      SaveUser(u.(tasks := updated.value));
      status := Saved;
    }

    /** `deleteUserTask(i)`: `splice(i, 1)` on the task list, then save. */
    method DeleteUserTask(i: int)
      modifies this`user
      ensures user == old(user).(tasks := SpliceOne(old(user.tasks), i))
      ensures 0 <= i < |old(user.tasks)| ==>
        && |user.tasks| == |old(user.tasks)| - 1
        && user.tasks == old(user.tasks)[..i] + old(user.tasks)[i + 1..]
      ensures AllConsistent(old(user.tasks)) ==> AllConsistent(user.tasks)
    {
      var u := GetUser();
      u := u.(tasks := SpliceOne(u.tasks, i));
      if AllConsistent(old(user.tasks)) {
        DeleteKeepsConsistency(old(user.tasks), i);
      }
      SaveUser(u);
    }

    /** `loadUserTasks()`: the cache is replaced by the record's task list. */
    method LoadUserTasks()
      modifies this`tasks
      ensures tasks == user.tasks
    {
      var u := GetUser();
      tasks := u.tasks;
    }

    /** A client run: add a task, delete the last index, reload; the record
        and the cache end where the record started. */
    method AddThenDeleteLast(task: Task)
      modifies this`user, this`tasks
      ensures user == old(user) && tasks == old(user.tasks)
    {
      SaveUserTask(task);
      DeleteUserTask(|user.tasks| - 1);
      AppendThenDeleteLast(old(user.tasks), task);
      LoadUserTasks();
    }
  }
}
