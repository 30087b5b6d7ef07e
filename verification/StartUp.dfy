/** The start-up and tear-down protocol of a named shared segment.
  *
  * Any number of processes run the set-up loop of `ipsm_mem::impl` and its destructor, coordinating by
  * `flock` on one lifetime control file, by the name of the segment and by the status word in its
  * header. Each step below is one system call or one store; a process may crash between any two.
  */
module StartUp {
  import opened Basics

  /** The status word: zero in a page just created, then the two values of `ipsm_mem::status`. */
  datatype Status = Blank | Initializing | Ready

  /** A segment object. Creating over an existing name truncates the object and starts a new
    * generation of it; a name that was removed leaves the object to those who still map it.
    */
  datatype Segment = Segment(generation: nat, status: Status, hint: int)

  /** A mapping of a segment, and the generation that was current when it was made. */
  datatype Mapping = Mapping(segment: nat, generation: nat)

  datatype Mode = Shared | Exclusive

  /** A process opens the control file once for its lifetime lock, and anew for each attempt at the
    * exclusive lock; flock treats the two as strangers.
    */
  datatype Which = Lifetime | Attempt

  datatype OpenFile = OpenFile(pid: nat, which: Which)

  datatype Phase =
    | TryExclusive    // top of the set-up loop
    | Creating        // exclusive lock held, about to create the segment
    | Created         // segment created and mapped, all zero
    | HeaderBuilt     // header constructed: initializing, hint 0
    | HintStored      // contents initialised, hint stored
    | ReadyStored     // status set to ready, about to release the exclusive lock
    | TryShared       // about to attempt the shared lock
    | Waiting         // attempt failed, asleep
    | Opening         // shared lock held, about to open the segment
    | Opened          // segment opened and mapped, about to read its status
    | BadStatus       // status was not ready, about to unmap
    | OpenFailed      // nothing mapped, about to release the shared lock and start over
    | InUse           // past the final break
    | Leaving         // shared lock released, about to attempt the exclusive lock
    | Unlinking       // exclusive lock held, about to remove the name
    | Unlinked        // about to release the exclusive lock
    | Gone

  /** `built` is the mapping made while creating, `used` the one made under the shared lock. */
  datatype Process = Process(phase: Phase, built: Option<Mapping>, used: Option<Mapping>)

  /** `published` records the hint each generation's creator stored. */
  datatype State = State(
    procs: map<nat, Process>,
    locks: map<OpenFile, Mode>,
    name: Option<nat>,
    segments: map<nat, Segment>,
    nextSegment: nat,
    generation: nat,
    published: map<nat, int>)

  /** What a scheduler decides: let the process take its next step (with the value its initialiser
    * returns, where it is called), let its wait time out, or let it crash.
    */
  datatype Choice = Go(hint: int) | Timeout | Crash

  datatype Event = Event(pid: nat, choice: Choice)

  const INITIAL: State := State(map[], map[], None, map[], 0, 0, map[])

  // ---------------------------------------------------------------- flock

  ghost predicate MayLockExclusive(locks: map<OpenFile, Mode>, f: OpenFile) {
    forall o :: o in locks ==> o == f
  }

  ghost predicate MayLockShared(locks: map<OpenFile, Mode>, f: OpenFile) {
    forall o :: o in locks ==> o == f || locks[o] == Shared
  }

  // ---------------------------------------------------------------- steps

  ghost function Moved(s: State, p: nat, phase: Phase): State
    requires p in s.procs
  {
    s.(procs := s.procs[p := s.procs[p].(phase := phase)])
  }

  ghost function Left(s: State, p: nat): State
    requires p in s.procs
  {
    s.(procs := s.procs[p := Process(Gone, None, None)],
       locks := s.locks - {OpenFile(p, Lifetime), OpenFile(p, Attempt)})
  }

  ghost function LockExclusive(s: State, p: nat, success: Phase, failure: Phase): State
    requires p in s.procs
  {
    var f := OpenFile(p, Attempt);
    if MayLockExclusive(s.locks, f)
    then Moved(s, p, success).(locks := s.locks[f := Exclusive])
    else Moved(s, p, failure)
  }

  ghost function LockShared(s: State, p: nat): State
    requires p in s.procs
  {
    var f := OpenFile(p, Lifetime);
    if MayLockShared(s.locks, f)
    then Moved(s, p, Opening).(locks := s.locks[f := Shared])
    else Moved(s, p, Waiting)
  }

  /** shm_open with O_CREAT and O_TRUNC, ftruncate and mmap. */
  ghost function Create(s: State, p: nat): State
    requires p in s.procs
  {
    var id := if s.name.Some? then s.name.value else s.nextSegment;
    var generation := s.generation + 1;
    s.(procs := s.procs[p := s.procs[p].(phase := Created, built := Some(Mapping(id, generation)))],
       name := Some(id),
       segments := s.segments[id := Segment(generation, Blank, 0)],
       nextSegment := if s.name.Some? then s.nextSegment else s.nextSegment + 1,
       generation := generation)
  }

  /** A store to the header through the mapping made while creating. */
  ghost function StoreHeader(s: State, p: nat, phase: Phase, status: Status, hint: int): State
    requires p in s.procs
  {
    var built := s.procs[p].built;
    if built.Some? && built.value.segment in s.segments then
      var id := built.value.segment;
      Moved(s, p, phase).(segments := s.segments[id := Segment(s.segments[id].generation, status, hint)])
    else Moved(s, p, phase)
  }

  ghost function BuiltHint(s: State, p: nat): int
    requires p in s.procs
  {
    var built := s.procs[p].built;
    if built.Some? && built.value.segment in s.segments then s.segments[built.value.segment].hint else 0
  }

  ghost function PublishHint(s: State, p: nat, hint: int): State
    requires p in s.procs
  {
    var t := StoreHeader(s, p, HintStored, Initializing, hint);
    if s.procs[p].built.Some? then t.(published := s.published[s.procs[p].built.value.generation := hint]) else t
  }

  ghost function Open(s: State, p: nat): State
    requires p in s.procs
  {
    if s.name.Some? && s.name.value in s.segments then
      var id := s.name.value;
      s.(procs := s.procs[p := s.procs[p].(phase := Opened, used := Some(Mapping(id, s.segments[id].generation)))])
    else Moved(s, p, OpenFailed)
  }

  ghost function CheckStatus(s: State, p: nat): State
    requires p in s.procs
  {
    var used := s.procs[p].used;
    if used.Some? && used.value.segment in s.segments && s.segments[used.value.segment].status == Ready
    then s.(procs := s.procs[p := s.procs[p].(phase := InUse, built := None)])
    else Moved(s, p, BadStatus)
  }

  ghost function Advance(s: State, p: nat, hint: int): State
    requires p in s.procs
  {
    match s.procs[p].phase
    case TryExclusive => LockExclusive(s, p, Creating, TryShared)
    case Creating => Create(s, p)
    case Created => StoreHeader(s, p, HeaderBuilt, Initializing, 0)
    case HeaderBuilt => PublishHint(s, p, hint)
    case HintStored => StoreHeader(s, p, ReadyStored, Ready, BuiltHint(s, p))
    case ReadyStored => Moved(s, p, TryShared).(locks := s.locks - {OpenFile(p, Attempt)})
    case TryShared => LockShared(s, p)
    case Waiting => Moved(s, p, TryShared)
    case Opening => Open(s, p)
    case Opened => CheckStatus(s, p)
    case BadStatus => s.(procs := s.procs[p := s.procs[p].(phase := OpenFailed, used := None)])
    case OpenFailed =>
      s.(procs := s.procs[p := Process(TryExclusive, None, None)],
         locks := s.locks - {OpenFile(p, Lifetime)})
    case InUse => Moved(s, p, Leaving).(locks := s.locks - {OpenFile(p, Lifetime)})
    case Leaving => LockExclusive(s, p, Unlinking, Gone)
    case Unlinking => Moved(s, p, Unlinked).(name := None)
    case Unlinked => Left(s, p)
    case Gone => s
  }

  /** One event; a choice that does not apply changes nothing. */
  ghost function Step(s: State, e: Event): State {
    match e.choice
    case Go(hint) =>
      if e.pid in s.procs then Advance(s, e.pid, hint)
      else s.(procs := s.procs[e.pid := Process(TryExclusive, None, None)])
    case Timeout =>
      if e.pid in s.procs && s.procs[e.pid].phase == Waiting then Left(s, e.pid) else s
    case Crash =>
      if e.pid in s.procs then Left(s, e.pid) else s
  }

  /** The state after a run from the empty system. */
  ghost function After(events: seq<Event>): State {
    if events == [] then INITIAL else Step(After(events[..|events| - 1]), events[|events| - 1])
  }

  // ---------------------------------------------------------------- the invariant

  /** The lock a phase holds on each of the process's open files. */
  function LockOf(phase: Phase, which: Which): Option<Mode> {
    match which
    case Lifetime =>
      (match phase
       case Opening | Opened | BadStatus | OpenFailed | InUse => Some(Shared)
       case _ => None)
    case Attempt =>
      (match phase
       case Creating | Created | HeaderBuilt | HintStored | ReadyStored | Unlinking | Unlinked => Some(Exclusive)
       case _ => None)
  }

  function Held(s: State, o: OpenFile): Option<Mode> {
    if o.pid in s.procs then LockOf(s.procs[o.pid].phase, o.which) else None
  }

  /** The lock table says what the processes' phases say. */
  ghost predicate TableAgrees(s: State) {
    forall o :: (o in s.locks <==> Held(s, o).Some?) && (o in s.locks ==> Held(s, o) == Some(s.locks[o]))
  }

  ghost predicate Excludes(locks: map<OpenFile, Mode>) {
    forall o, o' :: o in locks && o' in locks && locks[o] == Exclusive ==> o' == o
  }

  /** Names and generations are used once. */
  ghost predicate Fresh(s: State) {
    && (s.name.Some? ==> s.name.value in s.segments)
    && (forall id :: id in s.segments ==> id < s.nextSegment && s.segments[id].generation <= s.generation)
    && (forall id, id' :: id in s.segments && id' in s.segments && id != id' ==>
          s.segments[id].generation != s.segments[id'].generation)
  }

  /** A segment that is ready carries the hint its creator stored. */
  ghost predicate Published(s: State) {
    forall id :: id in s.segments && s.segments[id].status == Ready ==>
      s.segments[id].generation in s.published
      && s.segments[id].hint == s.published[s.segments[id].generation]
  }

  predicate Building(phase: Phase) {
    phase == Created || phase == HeaderBuilt || phase == HintStored || phase == ReadyStored
  }

  predicate Current(s: State, m: Option<Mapping>) {
    && m.Some? && s.name == Some(m.value.segment)
    && m.value.segment in s.segments && s.segments[m.value.segment].generation == m.value.generation
  }

  /** What each phase may rely on. */
  ghost predicate ProcessFine(s: State, q: Process) {
    && (Building(q.phase) ==>
          && Current(s, q.built)
          && (q.phase == HintStored ==>
                && q.built.value.generation in s.published
                && s.segments[q.built.value.segment].hint == s.published[q.built.value.generation])
          && (q.phase == ReadyStored ==> s.segments[q.built.value.segment].status == Ready))
    && (q.phase == Opened || q.phase == BadStatus || q.phase == InUse ==> Current(s, q.used))
    && (q.phase == InUse ==> s.segments[q.used.value.segment].status == Ready)
    && (q.phase == Unlinked ==> s.name == None)
  }

  ghost predicate ProcessesFine(s: State) {
    forall p :: p in s.procs ==> ProcessFine(s, s.procs[p])
  }

  ghost predicate Invariant(s: State) {
    TableAgrees(s) && Excludes(s.locks) && Fresh(s) && Published(s) && ProcessesFine(s)
  }
}
