# Join client data layer — Dafny model

Join is a browser task board. Each user's tasks live inside that user's
profile record. A task carries a list of subtasks, a parallel list of "done"
flags and a stored counter of done subtasks. This project models the
stateful core of `data.js`:

- the three task mutations on the current user's record (append a task,
  write a subtask's done flag and step the counter, delete a task by index);
- the reload of the module-level `tasks` cache from that record;
- the two ways a name becomes initials: `getInitials` and the letter rule of
  the profile badge;
- the fixed colour palette.

Files:

- `tasks.dfy`, module `TaskModel`: the `Task` and `UserRecord` datatypes.
  It also holds the pure rules behind each mutation (`SetSubtaskDone`,
  `SetSubtaskDoneAt`, `SpliceOne`) and the lemmas about them.
- `session.dfy`, module `UserTasks`: class `Session`. Its field `user` is
  the record that `getUser` reads and `saveUser` overwrites. Its field
  `tasks` is the module-level cache. Each mutation is a method that reads
  the record, changes it in memory and writes the whole record back.
- `initials.dfy`, module `Initials`: `split(" ")` as `Split`, with `Join`
  as its inverse. It holds the `getInitials` loop, proved against the
  function `InitialsOf`, and the profile-letter rule.
- `palette.dfy`, module `Palette`: `colorPool`.

The done counter is modelled as written. It moves +1 when `state` is true
and −1 when it is false, whatever the old flag was. The invariant "counter
equals number of true flags" is therefore kept exactly when the call
flips the flag (`ConsistentAfterSetIffFlip`). Writing the same value again
makes the counter drift (`DriftAfterSet`, `RepeatedDoneDrifts`).

Behaviour of the code that the model keeps as it is:

- The counter moves on `state` alone, even when the flag does not change.
- `saveUserSubtaskDone` with a subtask index equal to the number of flags
  appends the flag, steps the counter and saves. The task then has one flag
  more than it has subtasks (`AppendSubtaskDoneBreaksConsistency`).
- `deleteUserTask` does not check its index: it calls `splice(i, 1)`. A
  negative index counts from the end, and an index at or past the end
  removes nothing but still saves the record. `SpliceOne` models this.
- For any piece count other than one or two, the profile-letter rule
  yields the empty string.

Upper-casing is an ASCII map. `getUser` and `saveUser` are not part of the
shown source. They are modelled as a read and an overwrite of
`Session.user`.

## Model

| member | source | states |
|---|---|---|
| `TaskModel.SetSubtaskDone` | data.js:104-109 | flag `j` becomes `s` and every other flag is kept; the counter moves +1 on `s` true and −1 on `s` false regardless of the old flag; no other task field changes |
| `TaskModel.CountDoneUpdate` | data.js:104 | overwriting one flag changes the number of true flags by (new − old) |
| `TaskModel.DriftAfterSet` | data.js:105-109 | counter-minus-true-flags is unchanged when the flag flips, +1 when true is written over true, −1 when false is written over false |
| `TaskModel.ConsistentAfterSetIffFlip` | data.js:104-109 | from a consistent task, the result is consistent if and only if the old flag differs from `s` |
| `TaskModel.RepeatedDoneDrifts` | data.js:105-106 | marking a subtask done twice raises the counter by 2; the true flags grow by at most 1, so the invariant breaks |
| `TaskModel.DoneThenUndoneRestores` | data.js:104-109 | done then undone leaves the counter where it was, and restores the whole task when the subtask was open |
| `TaskModel.CountDoneAppend` | data.js:104 | appending a flag adds one to the number of true flags exactly when the flag is true |
| `TaskModel.AppendSubtaskDone` | data.js:104-109 | writing at the index equal to the number of flags appends the flag; the counter moves +1 on `s` true and −1 on `s` false; no other field changes |
| `TaskModel.AppendSubtaskDoneBreaksConsistency` | data.js:104-109 | the append keeps the drift for `s` true and lowers it by one for `s` false; a consistent task always becomes inconsistent (one flag more than subtasks) |
| `TaskModel.SetSubtaskDoneAt` | data.js:104-109 | fails exactly when task `i` is missing or `j` is negative or greater than the number of flags; an index inside the flags updates task `i` by `SetSubtaskDone`, the index one past them by `AppendSubtaskDone`; every other task is kept and the count is the same |
| `TaskModel.SetSubtaskDoneAtKeepsConsistency` | data.js:102-111 | a flipping write keeps every task of a consistent list consistent |
| `TaskModel.SpliceStart` | data.js:120 | the start index `splice` uses: a negative index counts from the end, and the result is clamped to the array bounds |
| `TaskModel.SpliceOne` | data.js:120 | `splice(i, 1)` removes the element at the start index and shifts every later one down one place; nothing is removed when the start index is the length |
| `TaskModel.SpliceOneRemovesOne` | data.js:120 | the removed element plus the result is exactly the original multiset |
| `TaskModel.AppendThenDeleteLast` | data.js:89-122 | push then delete of the last index, or of index −1, gives back the original list |
| `TaskModel.AppendKeepsConsistency` | data.js:91 | appending a consistent task keeps the list consistent |
| `TaskModel.DeleteKeepsConsistency` | data.js:120 | deleting any index keeps the list consistent |
| `UserTasks.Session.SaveUserTask` | data.js:89-93 | the saved record is the old one with the task appended last; earlier tasks and other fields are unchanged; the cache is untouched |
| `UserTasks.Session.SaveUserSubtaskDone` | data.js:102-111 | a missing task, or a subtask index that is negative or beyond one past the flags, reports `IndexOutOfRange` and saves nothing; otherwise the saved record differs only in task `i`, as `SetSubtaskDone` (or `AppendSubtaskDone` one past the flags) gives it; the counter moves ±1 on `state`; consistency is kept when an existing flag flips and lost on an append |
| `UserTasks.Session.DeleteUserTask` | data.js:118-122 | the saved record holds `SpliceOne(tasks, i)`; for an index in range the list is `tasks[..i] + tasks[i+1..]` and one shorter; consistency is kept |
| `UserTasks.Session.LoadUserTasks` | data.js:128-130 | the cache equals the current record's task list |
| `UserTasks.Session.AddThenDeleteLast` | data.js:89-130 | save a task, delete the last index, reload: the record is as before and the cache equals its original task list |
| `Initials.Split` | data.js:221 | `split(" ")` yields at least one piece, and no piece contains a space |
| `Initials.JoinSplit` | data.js:221 | joining the pieces with single spaces gives back the string |
| `Initials.SplitJoin` | data.js:221 | splitting a join of space-free words gives back the words |
| `Initials.CharAt0` | data.js:227 | `charAt(0)` is the first character, or the empty string for an empty word |
| `Initials.FirstLettersAreHeads` | data.js:224-230 | the uncapped letters are the heads of the non-empty words, in order |
| `Initials.InitialsAreHeadsOfFirstTwo` | data.js:224-230 | the collected initials are the heads of the first two non-empty words (fewer when there are fewer) |
| `Initials.InitialsStep` | data.js:226-228 | one loop step appends the word's first character while fewer than two are held, else keeps the value |
| `Initials.ToUpper` | data.js:232 | upper-casing keeps the length and maps each character by the ASCII rule |
| `Initials.GetInitials` | data.js:220-233 | the loop returns the upper-cased first characters of the first two non-empty words, at most two characters |
| `Initials.GetInitialsTwoWords` | data.js:220-233 | "Max Mustermann" gives "MM" |
| `Initials.GetInitialsOneWordOrNone` | data.js:220-233 | "Max" gives "M" and "" gives "" |
| `Initials.Index0` | data.js:199 | `w[0]` is `undefined` exactly when the piece is empty, and otherwise the one-character string of its first character |
| `Initials.ProfileLettersAsWritten` | data.js:195-204 | with more than two pieces the letters are empty |
| `Initials.ProfileLettersAsWrittenShowsUndefined` | data.js:195-204 | as written, "Max " shows "Mundefined", "" shows "undefined" and " " shows "NaN" |
| `Initials.ProfileLetters` | data.js:195-204 | at most two letters; for one or two pieces they agree with the initials of those pieces; for more pieces they are empty |
| `Initials.ProfileLettersAgreeOnNonEmptyWords` | data.js:195-204 | when every piece is non-empty, the corrected rule and the code as written agree |
| `Palette.ColorPoolShape` | data.js:31-35 | the palette has 15 entries, each a `#RRGGBB` colour, all distinct |

## Findings

| source | as written | input that shows it | evidently intended | confidence | as-written member | corrected member |
|---|---|---|---|---|---|---|
| data.js:199-204 | `firstAndLastName[k][0]` is `undefined` on an empty piece, and `+` turns it into the text "undefined" (or `NaN` for two) | the name "Max " (trailing space) shows "Mundefined"; the name "" shows "undefined"; the name " " shows "NaN" | an empty piece contributes no letter, as `charAt(0)` does in `getInitials` | medium, not executed | `Initials.ProfileLettersAsWrittenShowsUndefined` | `Initials.ProfileLetters` |

## Left out

- `UserTasks.Session.SaveUserSubtaskDone`: a negative subtask index, or one more than one past the last flag, is reported as `IndexOutOfRange` with nothing saved. The code instead writes a non-element property (negative index) or leaves empty slots before the new flag (index further out), then steps the counter and saves. A `seq<bool>` has neither non-element properties nor empty slots.
- `putData`, `loadData`, `saveData`, `saveContacts`, `loadContacts`, `loadTasks`, `saveTasks` (data.js:49-177): HTTP transport, JSON encoding and asynchronous error logging. This is network I/O.
- `getUser` and `saveUser` are not part of this model's source. They are modelled only as a read and an overwrite of `Session.user`, so a fresh copy per read and JSON serialisation are not captured. Whether the `tasks` cache aliases the record's array is not captured either.
- The DOM side of `setProfileLetters`, `sharedInit`, `jura_window`, `goBack`, `goBackLogin` and the window click listener (data.js:184-273): UI, navigation and event wiring.
- Assigning colours to contacts: the code has only the palette constant and no assignment function.
- Unicode case mapping of `toUpperCase`: only ASCII letters are mapped.
- `Initials.CharAt0` and `Initials.Index0` take the first Unicode scalar value of a word. JavaScript's `charAt(0)` and `[0]` take the first UTF-16 code unit, so a word that starts with a character outside the Basic Multilingual Plane (an emoji, say) yields a lone surrogate there and the whole character here.
- Overlapping asynchronous read-modify-write cycles (a last-writer-wins race): a concurrency concern. Every method here runs to completion.
- Non-integer or non-numeric indices, which JavaScript would accept: indices are `int`.
