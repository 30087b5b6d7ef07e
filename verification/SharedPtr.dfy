/** One control block of `offset_shared_ptr` / `offset_weak_ptr` under any interleaving of the operations
  * that processes perform on its handles. Locking the mutex, loading a counter, storing it, deciding
  * what to dispose of, unlocking, destroying and freeing are separate steps.
  */
module SharedPtr {
  import opened Basics

  datatype Kind = Strong | Weak

  /** What a process does with the block. Making a strong handle from a weak one is `lock()` or the
    * converting constructor; the other copies need no check.
    */
  datatype Task =
    | Make(from: nat, kind: Kind, to: Kind)
    | Drop(handle: nat, kind: Kind)

  datatype Step =
    | Acquire     // about to lock the mutex
    | Check       // about to see whether any strong handle is left
    | Load        // about to load the counter
    | Store       // about to store the counter changed by one
    | Decide      // about to look at both counters
    | Dispose     // about to let go of the resource, mutex held
    | Release     // about to unlock the mutex and be done
    | Refuse      // about to unlock the mutex, having made nothing
    | LastUnlock  // about to unlock the mutex for good
    | Destroy     // about to run the block's destructor
    | Free        // about to free the block's memory

  datatype Operation = Operation(task: Task, step: Step, loaded: int)

  /** `strong` and `weak` are the live handles; `shared` and `weakly` the two counters. */
  datatype State = State(
    strong: set<nat>,
    weak: set<nat>,
    nextHandle: nat,
    shared: int,
    weakly: int,
    mutex: Option<nat>,
    resource: bool,
    deleterRuns: nat,
    destroyed: bool,
    timesFreed: nat,
    ops: map<nat, Operation>)

  datatype Event =
    | Begin(pid: nat, task: Task)
    | Advance(pid: nat)
    | Move(handle: nat)

  /** The block as its first strong handle is constructed. */
  const INITIAL: State := State({0}, {}, 1, 1, 0, None, true, 0, false, 0, map[])

  // ---------------------------------------------------------------- what callers may begin

  function Subject(task: Task): nat {
    match task
    case Make(from, _, _) => from
    case Drop(handle, _) => handle
  }

  function Handles(s: State, kind: Kind): set<nat> {
    if kind == Strong then s.strong else s.weak
  }

  ghost predicate Untouched(s: State, handle: nat) {
    forall p :: p in s.ops ==> Subject(s.ops[p].task) != handle
  }

  ghost predicate NotDropped(s: State, handle: nat) {
    forall p :: p in s.ops ==> !(s.ops[p].task.Drop? && s.ops[p].task.handle == handle)
  }

  /** A handle may be read by many at a time, but is destroyed or moved by one alone. */
  ghost predicate MayBegin(s: State, p: nat, task: Task) {
    && p !in s.ops
    && Subject(task) in Handles(s, task.kind)
    && (task.Drop? ==> Untouched(s, task.handle))
    && (task.Make? ==> NotDropped(s, task.from))
  }

  // ---------------------------------------------------------------- steps

  /** Whether a new handle of this task has to check that the resource is still owned. */
  predicate MustCheck(task: Task) {
    task.Make? && task.kind == Weak && task.to == Strong
  }

  function CountedKind(task: Task): Kind {
    match task
    case Make(_, _, to) => to
    case Drop(_, kind) => kind
  }

  function Counter(s: State, kind: Kind): int {
    if kind == Strong then s.shared else s.weakly
  }

  function At(s: State, p: nat, step: Step): State
    requires p in s.ops
  {
    s.(ops := s.ops[p := s.ops[p].(step := step)])
  }

  function Done(s: State, p: nat): State {
    s.(ops := s.ops - {p})
  }

  /** Stores the counter; with it the new handle comes to life or the dropped one is gone. */
  function StoreCounter(s: State, p: nat): State
    requires p in s.ops
  {
    var op := s.ops[p];
    match op.task
    case Make(_, _, to) =>
      var t := At(s, p, Release).(nextHandle := s.nextHandle + 1);
      if to == Strong then t.(shared := op.loaded + 1, strong := s.strong + {s.nextHandle})
      else t.(weakly := op.loaded + 1, weak := s.weak + {s.nextHandle})
    case Drop(handle, kind) =>
      var t := At(s, p, Decide);
      if kind == Strong then t.(shared := op.loaded - 1, strong := s.strong - {handle})
      else t.(weakly := op.loaded - 1, weak := s.weak - {handle})
  }

  /** Lets go of the resource: the deleter runs if it is still there. */
  function LetGo(s: State): State {
    if s.resource then s.(resource := false, deleterRuns := s.deleterRuns + 1) else s
  }

  function DecideNext(s: State): Step {
    if s.shared <= 0 && s.weakly <= 0 then LastUnlock
    else if s.shared <= 0 && s.weakly > 0 then Dispose
    else Release
  }

  function Progress(s: State, p: nat): State
    requires p in s.ops
  {
    var op := s.ops[p];
    match op.step
    case Acquire =>
      if s.mutex.None? then At(s, p, if MustCheck(op.task) then Check else Load).(mutex := Some(p)) else s
    case Check => At(s, p, if s.shared == 0 then Refuse else Load)
    case Load => s.(ops := s.ops[p := Operation(op.task, Store, Counter(s, CountedKind(op.task)))])
    case Store => StoreCounter(s, p)
    case Decide => At(s, p, DecideNext(s))
    case Dispose => At(LetGo(s), p, Release)
    case Release => Done(s, p).(mutex := None)
    case Refuse => Done(s, p).(mutex := None)
    case LastUnlock => At(s, p, Destroy).(mutex := None)
    case Destroy => At(LetGo(s), p, Free).(destroyed := true)
    case Free => Done(s, p).(timesFreed := s.timesFreed + 1)
  }

  /** One event; an event that does not apply changes nothing. */
  ghost function Next(s: State, e: Event): State {
    match e
    case Begin(p, task) =>
      if MayBegin(s, p, task) then s.(ops := s.ops[p := Operation(task, Acquire, 0)]) else s
    case Advance(p) => if p in s.ops then Progress(s, p) else s
    case Move(h) =>
      if h in s.strong && Untouched(s, h) then
        s.(strong := s.strong - {h} + {s.nextHandle}, nextHandle := s.nextHandle + 1)
      else if h in s.weak && Untouched(s, h) then
        s.(weak := s.weak - {h} + {s.nextHandle}, nextHandle := s.nextHandle + 1)
      else s
  }

  ghost function From(s: State, events: seq<Event>): State {
    if events == [] then s else Next(From(s, events[..|events| - 1]), events[|events| - 1])
  }

  // ---------------------------------------------------------------- the invariant

  predicate HoldsMutex(step: Step) {
    step != Acquire && step != Destroy && step != Free
  }

  /** The operation is past the point where its handle is gone. */
  predicate HandleGone(op: Operation) {
    op.task.Drop? && op.step != Acquire && op.step != Load && op.step != Store
  }

  predicate StepSuits(op: Operation) {
    match op.step
    case Acquire | Load | Store | Release => true
    case Check | Refuse => MustCheck(op.task)
    case Decide | Dispose | LastUnlock | Destroy | Free => op.task.Drop?
  }

  /** The operation is the one that ends the block's life. */
  predicate Ending(step: Step) {
    step == LastUnlock || step == Destroy || step == Free
  }

  ghost predicate OperationFine(s: State, p: nat, op: Operation) {
    && StepSuits(op)
    && (HoldsMutex(op.step) <==> s.mutex == Some(p))
    && (HandleGone(op) || Subject(op.task) in Handles(s, op.task.kind))
    && (op.step == Store ==> op.loaded == Counter(s, CountedKind(op.task)))
    && (MustCheck(op.task) && (op.step == Load || op.step == Store) ==> s.shared > 0)
    && (op.step == Dispose ==> s.strong == {} && s.weak != {})
    && (op.step == Release && op.task.Drop? && s.strong == {} ==> !s.resource)
    && (Ending(op.step) ==> s.strong == {} && s.weak == {} && s.ops == map[p := op])
    && (op.step == Free <==> s.destroyed) && (op.step == Free ==> !s.resource)
  }

  ghost predicate OperationsFine(s: State) {
    forall p :: p in s.ops ==> OperationFine(s, p, s.ops[p])
  }

  ghost predicate MutexFine(s: State) {
    s.mutex.Some? ==> s.mutex.value in s.ops && HoldsMutex(s.ops[s.mutex.value].step)
  }

  /** A handle about to be dropped is used by no other operation. */
  ghost predicate DropsAlone(s: State) {
    forall p, q :: p in s.ops && q in s.ops && p != q && s.ops[p].task.Drop? && !HandleGone(s.ops[p]) ==>
      Subject(s.ops[q].task) != s.ops[p].task.handle
  }

  ghost predicate CountersFine(s: State) {
    && s.shared == |s.strong| && s.weakly == |s.weak| && s.strong !! s.weak
    && (forall h :: h in s.strong + s.weak ==> h < s.nextHandle)
  }

  /** With no strong handle left, the resource is gone or is about to be let go. */
  ghost predicate LettingGo(s: State) {
    exists p :: p in s.ops && (s.ops[p].step == Decide || s.ops[p].step == Dispose || Ending(s.ops[p].step))
  }

  ghost predicate ResourceFine(s: State) {
    && (s.resource <==> s.deleterRuns == 0) && s.deleterRuns <= 1
    && (s.strong != {} ==> s.resource)
    && (s.strong == {} && s.resource ==> LettingGo(s))
  }

  /** With no handle left, the block is freed or some operation is about to free it. */
  ghost predicate Finishing(s: State) {
    exists p :: p in s.ops && (s.ops[p].step == Decide || Ending(s.ops[p].step))
  }

  ghost predicate BlockFine(s: State) {
    && s.timesFreed <= 1
    && (s.destroyed ==> s.strong == {} && s.weak == {})
    && (s.timesFreed == 1 ==> s.ops == map[] && s.destroyed)
    && (s.strong == {} && s.weak == {} ==> s.timesFreed == 1 || Finishing(s))
  }

  ghost predicate Invariant(s: State) {
    && OperationsFine(s) && MutexFine(s) && DropsAlone(s)
    && CountersFine(s) && ResourceFine(s) && BlockFine(s)
  }
}
