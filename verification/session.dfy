/**
 A session of the store: the view layer's create, complete and delete intents
 applied one after another to a hydrated store. The invariants the store
 keeps for one mutation are carried over any number of them.
 */
module Session {
  import opened Storage
  import opened TaskStore

  /** One user intent; `draw` is the random generator's value for that create. */
  datatype Op =
    | Create(title: string, draw: real)
    | Complete(id: int)
    | Delete(id: int)

  /** Every create carries a draw the generator can return. */
  predicate ValidOps(ops: seq<Op>)
  {
    forall i :: 0 <= i < |ops| ==> (ops[i].Create? ==> 0.0 <= ops[i].draw < 1.0)
  }

  /**
   Whether an intent writes the persisted copy: every create, and every
   complete or delete whose id is present. Completing a task that is already
   completed writes without changing anything.
   */
  predicate Effective(s: Store, op: Op)
  {
    op.Create? || op.id in s.tasks
  }

  function Step(s: Store, op: Op): Store
    requires op.Create? ==> 0.0 <= op.draw < 1.0
  {
    match op
    case Create(title, draw) => CreateTask(s, title, draw).store
    case Complete(id) => CompleteTask(s, id)
    case Delete(id) => DeleteTask(s, id)
  }

  function Run(s: Store, ops: seq<Op>): Store
    requires ValidOps(ops)
    decreases |ops|
  {
    if ops == [] then s else Run(Step(s, ops[0]), ops[1..])
  }

  /** A step that writes leaves the persisted copy equal to the map; any other step changes nothing. */
  lemma StepMirrors(s: Store, op: Op)
    requires op.Create? ==> 0.0 <= op.draw < 1.0
    ensures Effective(s, op) ==> Mirrored(Step(s, op))
    ensures !Effective(s, op) ==> Step(s, op) == s
  {
  }

  /**
   After any run the persisted copy mirrors the map, unless no step of the run
   wrote, in which case the store is exactly as it started.
   */
  lemma {:induction false} RunMirrors(s: Store, ops: seq<Op>)
    requires ValidOps(ops)
    ensures Mirrored(Run(s, ops)) || Run(s, ops) == s
    decreases |ops|
  {
    if ops != [] {
      TailValid(ops);
      RunMirrors(Step(s, ops[0]), ops[1..]);
      StepMirrors(s, ops[0]);
    }
  }

  /** A store that mirrors its persisted copy keeps doing so over any run. */
  lemma RunKeepsMirrored(s: Store, ops: seq<Op>)
    requires ValidOps(ops)
    requires Mirrored(s)
    ensures Mirrored(Run(s, ops))
  {
    RunMirrors(s, ops);
  }

  /** Over any run, every key keeps naming the record whose id it is. */
  lemma {:induction false} RunKeepsWellKeyed(s: Store, ops: seq<Op>)
    requires ValidOps(ops)
    requires WellKeyed(s.tasks)
    ensures WellKeyed(Run(s, ops).tasks)
    decreases |ops|
  {
    if ops != [] {
      TailValid(ops);
      match ops[0] {
        case Create(title, draw) => CreateKeepsWellKeyed(s, title, draw);
        case Complete(id) => CompleteKeepsWellKeyed(s, id);
        case Delete(id) => DeleteKeepsWellKeyed(s, id);
      }
      RunKeepsWellKeyed(Step(s, ops[0]), ops[1..]);
    }
  }

  /** Over any run, every key stays inside the range of generated ids. */
  lemma {:induction false} RunKeepsKeysInRange(s: Store, ops: seq<Op>)
    requires ValidOps(ops)
    requires KeysInRange(s.tasks)
    ensures KeysInRange(Run(s, ops).tasks)
    decreases |ops|
  {
    if ops != [] {
      TailValid(ops);
      match ops[0] {
        case Create(title, draw) => CreateKeepsKeysInRange(s, title, draw);
        case Complete(id) => CompleteKeepsKeysInRange(s, id);
        case Delete(id) => DeleteKeepsKeysInRange(s, id);
      }
      RunKeepsKeysInRange(Step(s, ops[0]), ops[1..]);
    }
  }

  /**
   A session that starts from a missing, unparsable or falsy slot only ever
   holds ids the generator produced, each under its own key.
   */
  lemma FreshSessionInvariants(slot: Slot<Tasks>, ops: seq<Op>)
    requires ValidOps(ops)
    requires !slot.Stored?
    ensures WellKeyed(Run(Init(slot), ops).tasks)
    ensures KeysInRange(Run(Init(slot), ops).tasks)
  {
    RunKeepsWellKeyed(Init(slot), ops);
    RunKeepsKeysInRange(Init(slot), ops);
  }

  /**
   Whatever the slot held at start-up, and with no other writer to the key, a
   fresh store constructed after any session reads back the map the session
   ended with: either the session wrote, and the persisted copy mirrors the
   map, or it did not, and the slot still hydrates to the map the session
   started from.
   */
  lemma SessionReload(slot: Slot<Tasks>, ops: seq<Op>)
    requires ValidOps(ops)
    ensures Init(Run(Init(slot), ops).persisted).tasks == Run(Init(slot), ops).tasks
  {
    RunMirrors(Init(slot), ops);
    if Mirrored(Run(Init(slot), ops)) {
      ReloadRoundTrip(Run(Init(slot), ops));
    }
  }

  /** Dropping the first intent keeps every remaining draw valid. */
  lemma TailValid(ops: seq<Op>)
    requires ValidOps(ops) && ops != []
    ensures ValidOps(ops[1..])
  {
  }
}
