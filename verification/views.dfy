/**
 The derived views as the store computes them: one pass over the keys of the
 map, copying each record whose completion flag matches into a fresh map.
 */
module TaskViews {
  import opened TaskStore

  /** A non-empty set of keys has an element to pick. */
  lemma SomeKey(keys: set<int>)
    requires keys != {}
    ensures exists k :: k in keys
  {
    if forall k :: k !in keys {
      assert false;
    }
  }

  /**
   One scan over the keys of `m`, keeping the records whose flag is `done`.
   The result is proved for every order of visiting the keys, and so for the
   ascending order in which `Object.keys` lists integer-like keys.
   */
  method Scan(m: Tasks, done: bool) returns (r: Tasks)
    ensures r == Filter(m, done)
  {
    r := map[];
    var todo := m.Keys;
    while todo != {}
      invariant todo <= m.Keys
      invariant r == Filter(m, done) - todo
      decreases todo
    {
      SomeKey(todo);
      var key :| key in todo;
      if m[key].isCompleted == done {
        r := r[key := m[key]];
      }
      todo := todo - {key};
    }
  }

  /** `getCompletedTask`: the completed records, under the keys the store uses. */
  method GetCompletedTask(s: Store) returns (r: Tasks)
    ensures r.Keys <= s.tasks.Keys
    ensures forall k :: k in s.tasks ==> (k in r <==> s.tasks[k].isCompleted)
    ensures forall k :: k in r ==> r[k] == s.tasks[k]
    ensures r == Completed(s)
  {
    r := Scan(s.tasks, true);
  }

  /** `getPendingTask`: the records not yet completed, under the keys the store uses. */
  method GetPendingTask(s: Store) returns (r: Tasks)
    ensures r.Keys <= s.tasks.Keys
    ensures forall k :: k in s.tasks ==> (k in r <==> !s.tasks[k].isCompleted)
    ensures forall k :: k in r ==> r[k] == s.tasks[k]
    ensures r == Pending(s)
  {
    r := Scan(s.tasks, false);
  }
}
