/**
 The task store of the to-do app: a map from task id to task record, written
 in full to the persistence adapter after every create and every complete or
 delete whose id is present, with two derived views that split it on the
 completion flag.

 The store is a value: every operation returns the next state instead of
 changing one in place, and read operations hand out the map by value.
 */
module TaskStore {
  import opened Storage

  /** Ids are drawn from 0 .. IdRange - 1. */
  const IdRange: int := 999

  datatype TaskRec = TaskRec(id: int, title: string, isCompleted: bool)

  type Tasks = map<int, TaskRec>

  /**
   The in-memory map and the slot it is persisted to under the key "TASK".
   `persisted` is what a fresh store would read back from the local store,
   with no other writer to the key.
   */
  datatype Store = Store(tasks: Tasks, persisted: Slot<Tasks>)

  /** The result of `createTask`: the next state and the record it returned. */
  datatype Created = Created(store: Store, task: TaskRec)

  /** The persisted copy holds exactly the in-memory map. */
  predicate Mirrored(s: Store)
  {
    s.persisted == Stored(s.tasks)
  }

  /** Every key names the record whose id it is. */
  predicate WellKeyed(m: Tasks)
  {
    forall k :: k in m ==> m[k].id == k
  }

  /** Every key is an id the generator can produce. */
  predicate KeysInRange(m: Tasks)
  {
    forall k :: k in m ==> 0 <= k < IdRange
  }

  /**
   The id `createTask` assigns for a draw of the random generator: the draw,
   scaled by the range, rounded down.
   */
  function DrawId(draw: real): (id: int)
    requires 0.0 <= draw < 1.0
    ensures 0 <= id < IdRange
  {
    (draw * IdRange as real).Floor
  }

  /**
   A new store (the constructor and `init`): the map is hydrated from
   whatever the slot holds, with the fail-open reading of the adapter.
   Hydration writes nothing back, so the new store agrees with its persisted
   copy exactly when the slot held a usable map.
   */
  function Init(slot: Slot<Tasks>): (s: Store)
    ensures s.persisted == slot
    ensures Mirrored(s) <==> slot.Stored?
    ensures !slot.Stored? ==> s.tasks == map[]
  {
    Store(GetItem(slot, map[]), slot)
  }

  /**
   `persistData`: the whole map replaces the persisted copy and the map itself
   is left alone. A map of records is written as a JSON object, which always
   reads back as itself.
   */
  function Persist(tasks: Tasks): (s: Store)
    ensures s.tasks == tasks
    ensures Mirrored(s)
  {
    Store(tasks, SetItem(tasks, Truthy))
  }

  /**
   `createTask`: a pending record under a freshly drawn id. There is no
   uniqueness check, so a record already under that id is replaced.
   */
  function CreateTask(s: Store, title: string, draw: real): (r: Created)
    requires 0.0 <= draw < 1.0
    ensures r.task.id == DrawId(draw)
    ensures r.task.title == title && !r.task.isCompleted
    ensures r.store.tasks.Keys == s.tasks.Keys + {r.task.id}
    ensures r.store.tasks[r.task.id] == r.task
    ensures forall k :: k in s.tasks && k != r.task.id ==> r.store.tasks[k] == s.tasks[k]
    ensures Mirrored(r.store)
  {
    var id := DrawId(draw);
    var task := TaskRec(id, title, false);
    Created(Persist(s.tasks[id := task]), task)
  }

  /**
   `completeTask`: sets the flag of the record under `id` and persists; an
   absent id changes nothing and writes nothing.
   */
  function CompleteTask(s: Store, id: int): (r: Store)
    ensures r.tasks.Keys == s.tasks.Keys
    ensures forall k :: k in s.tasks && k != id ==> r.tasks[k] == s.tasks[k]
    ensures id in s.tasks ==>
      && r.tasks[id].isCompleted
      && r.tasks[id].id == s.tasks[id].id
      && r.tasks[id].title == s.tasks[id].title
      && Mirrored(r)
    ensures id !in s.tasks ==> r == s
  {
    if id in s.tasks then
      Persist(s.tasks[id := s.tasks[id].(isCompleted := true)])
    else
      s
  }

  /**
   `deleteTask`: removes the record under `id` and persists; an absent id
   changes nothing and writes nothing.
   */
  function DeleteTask(s: Store, id: int): (r: Store)
    ensures r.tasks.Keys == s.tasks.Keys - {id}
    ensures forall k :: k in r.tasks ==> r.tasks[k] == s.tasks[k]
    ensures id in s.tasks ==> Mirrored(r)
    ensures id !in s.tasks ==> r == s
  {
    if id in s.tasks then Persist(s.tasks - {id}) else s
  }

  /** `getAllTask`: the whole map, by value; it is what the two views make up together. */
  function GetAllTask(s: Store): (r: Tasks)
    ensures r == Completed(s) + Pending(s)
  {
    s.tasks
  }

  /** The records of `m` whose completion flag is `done`, under their own keys. */
  function Filter(m: Tasks, done: bool): Tasks
  {
    map k | k in m && m[k].isCompleted == done :: m[k]
  }

  /** The map `getCompletedTask` returns. */
  function Completed(s: Store): Tasks
  {
    Filter(s.tasks, true)
  }

  /** The map `getPendingTask` returns. */
  function Pending(s: Store): Tasks
  {
    Filter(s.tasks, false)
  }

  /**
   The two views partition the whole map: disjoint key sets that together
   cover it, each key mapped to the record the store holds.
   */
  lemma ViewsPartition(s: Store)
    ensures Completed(s).Keys !! Pending(s).Keys
    ensures Completed(s).Keys + Pending(s).Keys == GetAllTask(s).Keys
    ensures Completed(s) + Pending(s) == GetAllTask(s)
    ensures forall k :: k in Completed(s) ==> Completed(s)[k] == s.tasks[k] && s.tasks[k].isCompleted
    ensures forall k :: k in Pending(s) ==> Pending(s)[k] == s.tasks[k] && !s.tasks[k].isCompleted
  {
  }

  /** Completing twice leaves the same map and persisted copy as completing once. */
  lemma CompleteIdempotent(s: Store, id: int)
    ensures CompleteTask(CompleteTask(s, id), id) == CompleteTask(s, id)
  {
  }

  /** Completing and deleting never clear a completion flag. */
  lemma CompletionMonotone(s: Store, id: int)
    ensures forall k :: k in s.tasks && s.tasks[k].isCompleted ==> CompleteTask(s, id).tasks[k].isCompleted
    ensures forall k :: k in DeleteTask(s, id).tasks && s.tasks[k].isCompleted ==> DeleteTask(s, id).tasks[k].isCompleted
  {
  }

  /**
   Creating under an id that is already taken replaces the old record: the
   size is unchanged and a completed task reads as pending again.
   */
  lemma CreateOverwrites(s: Store, title: string, draw: real)
    requires 0.0 <= draw < 1.0
    requires DrawId(draw) in s.tasks
    ensures |CreateTask(s, title, draw).store.tasks| == |s.tasks|
    ensures CreateTask(s, title, draw).store.tasks[DrawId(draw)] == TaskRec(DrawId(draw), title, false)
  {
  }

  /** Creating under a free id adds exactly one record. */
  lemma CreateFreshGrows(s: Store, title: string, draw: real)
    requires 0.0 <= draw < 1.0
    requires DrawId(draw) !in s.tasks
    ensures |CreateTask(s, title, draw).store.tasks| == |s.tasks| + 1
  {
  }

  /** Deleting the record just created under a free id restores the original map. */
  lemma DeleteUndoesFreshCreate(s: Store, title: string, draw: real)
    requires 0.0 <= draw < 1.0
    requires DrawId(draw) !in s.tasks
    ensures DeleteTask(CreateTask(s, title, draw).store, DrawId(draw)).tasks == s.tasks
  {
  }

  /** Creating keeps every key equal to its record's id. */
  lemma CreateKeepsWellKeyed(s: Store, title: string, draw: real)
    requires 0.0 <= draw < 1.0
    requires WellKeyed(s.tasks)
    ensures WellKeyed(CreateTask(s, title, draw).store.tasks)
  {
  }

  /** Completing keeps every key equal to its record's id. */
  lemma CompleteKeepsWellKeyed(s: Store, id: int)
    requires WellKeyed(s.tasks)
    ensures WellKeyed(CompleteTask(s, id).tasks)
  {
  }

  /** Deleting keeps every key equal to its record's id. */
  lemma DeleteKeepsWellKeyed(s: Store, id: int)
    requires WellKeyed(s.tasks)
    ensures WellKeyed(DeleteTask(s, id).tasks)
  {
  }

  /** Creating keeps every key inside the range of generated ids. */
  lemma CreateKeepsKeysInRange(s: Store, title: string, draw: real)
    requires 0.0 <= draw < 1.0
    requires KeysInRange(s.tasks)
    ensures KeysInRange(CreateTask(s, title, draw).store.tasks)
  {
  }

  /** Completing keeps every key inside the range of generated ids. */
  lemma CompleteKeepsKeysInRange(s: Store, id: int)
    requires KeysInRange(s.tasks)
    ensures KeysInRange(CompleteTask(s, id).tasks)
  {
  }

  /** Deleting keeps every key inside the range of generated ids. */
  lemma DeleteKeepsKeysInRange(s: Store, id: int)
    requires KeysInRange(s.tasks)
    ensures KeysInRange(DeleteTask(s, id).tasks)
  {
  }

  /** Reloading a mirrored store reproduces its map. */
  lemma ReloadRoundTrip(s: Store)
    requires Mirrored(s)
    ensures Init(s.persisted).tasks == s.tasks
    ensures Mirrored(Init(s.persisted))
  {
  }

  /**
   Create a task, then complete it: the completed view holds exactly that
   task and the pending view is empty.
   */
  lemma CreateThenComplete(title: string, draw: real)
    requires 0.0 <= draw < 1.0
    ensures var c := CreateTask(Init(Missing), title, draw);
      && c.task == TaskRec(DrawId(draw), title, false)
      && Completed(CompleteTask(c.store, c.task.id)) == map[c.task.id := TaskRec(c.task.id, title, true)]
      && Pending(CompleteTask(c.store, c.task.id)) == map[]
  {
  }
}
