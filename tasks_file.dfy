/**
  The file of tasks written by UpdateTasksFile (internal/bot/bot.go:45-58):
  one rendered line per registry entry, in Go's unspecified map order. Its
  contents are therefore specified as a multiset of lines.
 */
module TasksFile {

  import opened Wrappers
  import opened Tasks
  import opened Registry

  /** The multiset of the values of a map. */
  ghost function Values<V>(m: map<string, V>): (values: multiset<V>)
    decreases |m|
  {
    if m == map[] then multiset{}
    else
      var id :| id in m;
      RemoveOne(m, id);
      multiset{m[id]} + Values(m - {id})
  }

  /** Every task's rendered line, filed under the same key. */
  function Lines(m: TaskMap): (lines: map<string, string>)
    ensures lines.Keys == m.Keys
    ensures forall id :: id in m ==> lines[id] == String(m[id])
  {
    map id | id in m :: String(m[id])
  }

  /** The multiset of lines one full rewrite of the file consists of. */
  ghost function Snapshot(m: TaskMap): (lines: multiset<string>)
  {
    Values(Lines(m))
  }

  /** Taking one entry out of a map leaves one entry fewer. */
  lemma RemoveOne<V>(m: map<string, V>, id: string)
    requires id in m
    ensures |m - {id}| == |m| - 1
  {
    assert (m - {id}).Keys == m.Keys - {id};
  }

  /** Taking two entries out in either order leaves the same map. */
  lemma RemoveTwo<V>(m: map<string, V>, a: string, b: string)
    ensures m - {a} - {b} == m - {b} - {a}
  {
    var l, r := m - {a} - {b}, m - {b} - {a};
    assert l.Keys == m.Keys - {a, b} == r.Keys;
    assert forall x :: x in l ==> l[x] == m[x] == r[x];
  }

  /** The definition's own choice of a first entry. */
  lemma ValuesChoice<V>(m: map<string, V>)
    requires m != map[]
    ensures exists id :: id in m && Values(m) == multiset{m[id]} + Values(m - {id})
  {
  }

  /** Any entry can be taken out first: the multiset does not depend on the order of the map. */
  lemma {:induction false} ValuesRemove<V>(m: map<string, V>, id: string)
    requires id in m
    ensures Values(m) == multiset{m[id]} + Values(m - {id})
    decreases |m|
  {
    ValuesChoice(m);
    var k :| k in m && Values(m) == multiset{m[k]} + Values(m - {k});
    if k != id {
      RemoveOne(m, k);
      RemoveOne(m, id);
      ValuesRemove(m - {k}, id);
      ValuesRemove(m - {id}, k);
      RemoveTwo(m, k, id);
    }
  }

  /** A value is in the multiset exactly when some key maps to it. */
  lemma {:induction false} ValuesMember<V>(m: map<string, V>, v: V)
    ensures v in Values(m) <==> exists k :: k in m && m[k] == v
    decreases |m|
  {
    if m != map[] {
      var id :| id in m;
      ValuesRemove(m, id);
      RemoveOne(m, id);
      ValuesMember(m - {id}, v);
      if v in Values(m - {id}) {
        var k :| k in m - {id} && (m - {id})[k] == v;
        assert k in m && m[k] == v;
      }
      if exists k :: k in m && m[k] == v {
        var k :| k in m && m[k] == v;
        if k != id {
          assert k in m - {id} && (m - {id})[k] == v;
        }
      }
    }
  }

  /** The multiset has one value per key. */
  lemma {:induction false} ValuesSize<V>(m: map<string, V>)
    ensures |Values(m)| == |m|
    decreases |m|
  {
    if m != map[] {
      var id :| id in m;
      ValuesRemove(m, id);
      RemoveOne(m, id);
      ValuesSize(m - {id});
    }
  }

  /** Overwriting an entry and then dropping it is the same as dropping it. */
  lemma UpdateThenRemove<V>(m: map<string, V>, id: string, v: V)
    ensures m[id := v] - {id} == m - {id}
  {
    var l, r := m[id := v] - {id}, m - {id};
    assert l.Keys == m.Keys - {id} == r.Keys;
    assert forall x :: x in l ==> l[x] == m[x] == r[x];
  }

  /** Dropping a key that is absent changes nothing. */
  lemma RemoveAbsent<V>(m: map<string, V>, id: string)
    requires id !in m
    ensures m - {id} == m
  {
    assert (m - {id}).Keys == m.Keys;
  }

  /** Rendering commutes with dropping an entry. */
  lemma LinesRemove(m: TaskMap, id: string)
    ensures Lines(m) - {id} == Lines(m - {id})
  {
    var l, r := Lines(m) - {id}, Lines(m - {id});
    assert l.Keys == r.Keys;
    assert forall x :: x in l ==> l[x] == String(m[x]) == r[x];
  }

  /** Any task's line can be taken out of the snapshot first. */
  lemma SnapshotRemove(m: TaskMap, id: string)
    requires id in m
    ensures Snapshot(m) == multiset{String(m[id])} + Snapshot(m - {id})
  {
    ValuesRemove(Lines(m), id);
    LinesRemove(m, id);
  }

  /** The file has exactly one line per registry entry. */
  lemma SnapshotSize(m: TaskMap)
    ensures |Snapshot(m)| == |m|
  {
    ValuesSize(Lines(m));
  }

  /** A line is in the file exactly when some current task renders to it: no stale or invented lines. */
  lemma SnapshotLines(m: TaskMap, line: string)
    ensures line in Snapshot(m) <==> exists id :: id in m && String(m[id]) == line
  {
    ValuesMember(Lines(m), line);
  }

  /** Every current task has its line in the file. */
  lemma SnapshotHas(m: TaskMap, id: string)
    requires id in m
    ensures String(m[id]) in Snapshot(m)
  {
    SnapshotLines(m, String(m[id]));
  }

  /** A successful add adds exactly the new task's line. */
  lemma SnapshotAfterAdd(m: TaskMap, user: TwitchUser, taskName: string)
    requires user.id !in m
    ensures Snapshot(Add(m, user, taskName).1) == Snapshot(m) + multiset{String(NewTask(user, taskName))}
  {
    var m' := Add(m, user, taskName).1;
    SnapshotRemove(m', user.id);
    UpdateThenRemove(m, user.id, NewTask(user, taskName));
    RemoveAbsent(m, user.id);
  }

  /** A successful edit swaps the old line of that user's task for the new one. */
  lemma SnapshotAfterEdit(m: TaskMap, userId: string, taskName: string)
    requires userId in m
    ensures Snapshot(Edit(m, userId, taskName).1)
         == Snapshot(m) - multiset{String(m[userId])} + multiset{String(m[userId].(name := taskName))}
  {
    var m' := Edit(m, userId, taskName).1;
    SnapshotRemove(m', userId);
    SnapshotRemove(m, userId);
    UpdateThenRemove(m, userId, m[userId].(name := taskName));
  }

  /** A successful remove drops exactly the removed task's line. */
  lemma SnapshotAfterRemove(m: TaskMap, userId: string)
    requires userId in m
    ensures Snapshot(Remove(m, userId).1) == Snapshot(m) - multiset{String(m[userId])}
  {
    SnapshotRemove(m, userId);
  }

  /** The entries of `m` whose keys are in `keys`: what is still to be written. */
  function Restrict(m: TaskMap, keys: set<string>): (r: TaskMap)
    ensures r.Keys == m.Keys * keys
    ensures forall id :: id in r ==> r[id] == m[id]
  {
    map id | id in m && id in keys :: m[id]
  }

  /** Nothing written yet: all entries remain. */
  lemma RestrictAll(m: TaskMap)
    ensures Restrict(m, m.Keys) == m
  {
  }

  /** Writing one more entry: its line leaves what is still to be written. */
  lemma RestrictStep(m: TaskMap, keys: set<string>, id: string)
    requires id in keys && keys <= m.Keys
    ensures Snapshot(Restrict(m, keys)) == multiset{String(m[id])} + Snapshot(Restrict(m, keys - {id}))
  {
    SnapshotRemove(Restrict(m, keys), id);
    RestrictRemove(m, keys, id);
  }

  /** Everything written: nothing remains. */
  lemma RestrictNone(m: TaskMap)
    ensures Snapshot(Restrict(m, {})) == multiset{}
  {
    assert Restrict(m, {}) == map[];
    SnapshotEmpty();
  }

  /** Writing one more entry. */
  lemma RestrictRemove(m: TaskMap, keys: set<string>, id: string)
    ensures Restrict(m, keys) - {id} == Restrict(m, keys - {id})
  {
    var l, r := Restrict(m, keys) - {id}, Restrict(m, keys - {id});
    assert l.Keys == r.Keys;
    assert forall x :: x in l ==> l[x] == m[x] == r[x];
  }

  /** An empty registry is written as an empty file. */
  lemma SnapshotEmpty()
    ensures Snapshot(map[]) == multiset{}
  {
    assert Lines(map[]) == map[];
  }
}
