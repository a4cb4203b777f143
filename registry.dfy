/**
  The registry of tasks of internal/bot/bot.go:60-97 as operations on a value:
  the map from user id to that user's one task, and what AddTask, EditTask
  and RemoveTask do to it. The Bot class applies exactly these changes in
  place; the dispatcher's specification is written in terms of them.
 */
module Registry {

  import opened Wrappers
  import opened Tasks

  /** The registry: user id to that user's task. */
  type TaskMap = map<string, Task>

  /** Every task is filed under its owner's id. */
  predicate KeysMatch(m: TaskMap)
  {
    forall id :: id in m ==> m[id].user.id == id
  }

  /** The central invariant: no two entries belong to the same user. */
  predicate OneTaskPerUser(m: TaskMap)
  {
    forall a, b :: a in m && b in m && m[a].user.id == m[b].user.id ==> a == b
  }

  /** Filing every task under its owner's id leaves at most one task per user. */
  lemma KeysMatchOneTaskPerUser(m: TaskMap)
    requires KeysMatch(m)
    ensures OneTaskPerUser(m)
  {
  }

  /** AddTask: refuses a user who already has a task, else files a new task under the user's id. */
  function Add(m: TaskMap, user: TwitchUser, taskName: string): (r: (bool, TaskMap))
    ensures r.0 <==> user.id !in m
    ensures !r.0 ==> r.1 == m
    ensures r.0 ==> r.1.Keys == m.Keys + {user.id}
    ensures r.0 ==> r.1[user.id] == NewTask(user, taskName)
    ensures forall id :: id in m ==> id in r.1 && r.1[id] == m[id]
    ensures KeysMatch(m) ==> KeysMatch(r.1)
  {
    if user.id in m then (false, m)
    else (true, m[user.id := NewTask(user, taskName)])
  }

  /** EditTask: refuses a user without a task, else renames that user's task and nothing else. */
  function Edit(m: TaskMap, userId: string, taskName: string): (r: (bool, TaskMap))
    ensures r.0 <==> userId in m
    ensures !r.0 ==> r.1 == m
    ensures r.1.Keys == m.Keys
    ensures r.0 ==> r.1[userId].user == m[userId].user && r.1[userId].name == taskName
    ensures forall id :: id in m && id != userId ==> r.1[id] == m[id]
    ensures KeysMatch(m) ==> KeysMatch(r.1)
  {
    if userId !in m then (false, m)
    else (true, m[userId := m[userId].(name := taskName)])
  }

  /** RemoveTask: refuses a user without a task, else hands back that task and drops its entry. */
  function Remove(m: TaskMap, userId: string): (r: (Option<Task>, TaskMap))
    ensures r.0.Some? <==> userId in m
    ensures r.0.None? ==> r.1 == m
    ensures r.0.Some? ==> r.0.value == m[userId]
    ensures r.1.Keys == m.Keys - {userId}
    ensures forall id :: id in r.1 ==> r.1[id] == m[id]
    ensures KeysMatch(m) ==> KeysMatch(r.1)
  {
    if userId !in m then (None, m)
    else (Some(m[userId]), m - {userId})
  }

  /** A second add for the same user fails and keeps the first task's name. */
  lemma AddTwice(m: TaskMap, user: TwitchUser, x: string, y: string)
    requires user.id !in m
    ensures var (ok1, m1) := Add(m, user, x);
            var (ok2, m2) := Add(m1, user, y);
            ok1 && !ok2 && m2 == m1 && m2[user.id].name == x
  {
  }

  /** Removing right after adding returns the added task; a second remove fails. */
  lemma AddThenRemove(m: TaskMap, user: TwitchUser, x: string)
    requires user.id !in m
    ensures var (_, m1) := Add(m, user, x);
            var (t, m2) := Remove(m1, user.id);
            var (t2, m3) := Remove(m2, user.id);
            t == Some(NewTask(user, x)) && m2 == m && t2 == None && m3 == m
  {
    var (_, m1) := Add(m, user, x);
    assert m1 - {user.id} == m;
  }
}
