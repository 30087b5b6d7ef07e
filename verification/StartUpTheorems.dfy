/** What the protocol guarantees over whole runs. */
module StartUpTheorems {
  import opened Basics
  import opened StartUp
  import opened StartUpInvariant

  // ---------------------------------------------------------------- agreement

  ghost predicate Using(s: State, p: nat) {
    p in s.procs && s.procs[p].phase == InUse
  }

  /** In every run all processes in use map one generation of the segment the name leads to, which is
    * ready and carries the hint its creator stored. In particular nobody uses the mapping it made
    * while creating, if others replaced the segment before it held the shared lock.
    */
  lemma Agreement(events: seq<Event>, p: nat, q: nat)
    requires Using(After(events), p) && Using(After(events), q)
    ensures var s := After(events);
            && s.procs[p].used == s.procs[q].used
            && Current(s, s.procs[p].used)
            && var segment := s.segments[s.procs[p].used.value.segment];
               && segment.status == Ready
               && segment.generation in s.published && segment.hint == s.published[segment.generation]
  {
    AlwaysInvariant(events);
    var s := After(events);
    assert ProcessFine(s, s.procs[p]) && ProcessFine(s, s.procs[q]);
  }

  /** Processes that use or may be about to use the segment exclude any that changes it. */
  lemma NoChangeWhileInUse(events: seq<Event>, p: nat, q: nat)
    requires Using(After(events), p) && q in After(events).procs
    ensures LockOf(After(events).procs[q].phase, Attempt).None?
  {
    AlwaysInvariant(events);
    var s := After(events);
    if LockOf(s.procs[q].phase, Attempt).Some? && q != p {
      ExclusiveAlone(s, q, p);
    }
  }

  // ---------------------------------------------------------------- no segment is left behind

  /** Phases from which a process either removes the segment, hands it on, or finds it gone. */
  predicate Responsible(phase: Phase) {
    match phase
    case TryExclusive | Waiting | BadStatus | OpenFailed | Unlinked | Gone => false
    case _ => true
  }

  ghost predicate Attended(s: State) {
    exists p :: p in s.procs && Responsible(s.procs[p].phase)
  }

  ghost predicate BeingBuilt(s: State) {
    exists p :: p in s.procs && Building(s.procs[p].phase)
  }

  /** Holds as long as nobody crashes. */
  ghost predicate Tidy(s: State) {
    && (s.name.Some? ==> Attended(s))
    && (s.name.Some? && s.name.value in s.segments && s.segments[s.name.value].status != Ready ==> BeingBuilt(s))
    && (forall p :: p in s.procs ==>
          && s.procs[p].phase != BadStatus
          && (s.procs[p].phase == OpenFailed ==> s.name == None))
  }

  lemma OtherAttends(s: State, t: State, p: nat, q: nat)
    requires q in s.procs && q != p && Responsible(s.procs[q].phase)
    requires q in t.procs && t.procs[q] == s.procs[q]
    ensures Attended(t)
  {
  }

  /** Whoever holds a lock while the name exists is responsible for it. */
  lemma HolderResponsible(s: State, o: OpenFile)
    requires Invariant(s) && Tidy(s) && o in s.locks && s.name.Some?
    ensures o.pid in s.procs && Responsible(s.procs[o.pid].phase)
  {
    assert Held(s, o).Some?;
    assert ProcessFine(s, s.procs[o.pid]);
  }

  /** Attendance passes from a process that gives up to the one whose lock stopped it. */
  lemma HandOver(s: State, t: State, p: nat, o: OpenFile)
    requires Invariant(s) && Tidy(s) && p in s.procs && o in s.locks && o.pid != p
    requires t.name == s.name && forall q :: q != p && q in s.procs ==> q in t.procs && t.procs[q] == s.procs[q]
    ensures t.name.Some? ==> Attended(t)
  {
    if s.name.Some? {
      HolderResponsible(s, o);
      OtherAttends(s, t, p, o.pid);
    }
  }

  /** A step after which p itself is responsible, or was not before. */
  lemma StillAttended(s: State, t: State, p: nat)
    requires Tidy(s) && p in s.procs && p in t.procs
    requires t.name.Some? ==> s.name.Some? || Responsible(t.procs[p].phase)
    requires forall q :: q != p && q in s.procs ==> q in t.procs && t.procs[q] == s.procs[q]
    requires Responsible(s.procs[p].phase) ==> Responsible(t.procs[p].phase)
    ensures t.name.Some? ==> Attended(t)
  {
    if t.name.Some? && !Responsible(t.procs[p].phase) {
      var q :| q in s.procs && Responsible(s.procs[q].phase);
      OtherAttends(s, t, p, q);
    }
  }

  lemma StillBuilt(s: State, t: State, p: nat)
    requires BeingBuilt(s) && p in t.procs
    requires forall q :: q != p && q in s.procs ==> q in t.procs && t.procs[q] == s.procs[q]
    requires p in s.procs && Building(s.procs[p].phase) ==> Building(t.procs[p].phase)
    ensures BeingBuilt(t)
  {
    var q :| q in s.procs && Building(s.procs[q].phase);
    assert q in t.procs && Building(t.procs[q].phase);
  }

  /** A process that holds no lock gives way to one that does. */
  lemma GivesWay(s: State, p: nat, phase: Phase, o: OpenFile)
    requires Invariant(s) && Tidy(s) && p in s.procs && o in s.locks
    requires LockOf(s.procs[p].phase, Lifetime).None? && LockOf(s.procs[p].phase, Attempt).None?
    ensures s.name.Some? ==> Attended(Moved(s, p, phase))
  {
    assert Held(s, o).Some?;
    assert o.pid != p;
    HandOver(s, Moved(s, p, phase), p, o);
  }

  lemma AttendedAfterTryShared(s: State, p: nat)
    requires Invariant(s) && Tidy(s) && p in s.procs && s.procs[p].phase == TryShared
    ensures LockShared(s, p).name.Some? ==> Attended(LockShared(s, p))
  {
    if MayLockShared(s.locks, OpenFile(p, Lifetime)) {
      StillAttended(s, LockShared(s, p), p);
    } else {
      var o :| o in s.locks && !(o == OpenFile(p, Lifetime) || s.locks[o] == Shared);
      GivesWay(s, p, Waiting, o);
    }
  }

  lemma AttendedAfterLeaving(s: State, p: nat)
    requires Invariant(s) && Tidy(s) && p in s.procs && s.procs[p].phase == Leaving
    ensures LockExclusive(s, p, Unlinking, Gone).name.Some? ==> Attended(LockExclusive(s, p, Unlinking, Gone))
  {
    if MayLockExclusive(s.locks, OpenFile(p, Attempt)) {
      StillAttended(s, LockExclusive(s, p, Unlinking, Gone), p);
    } else {
      var o :| o in s.locks && o != OpenFile(p, Attempt);
      GivesWay(s, p, Gone, o);
    }
  }

  /** A process stays responsible until it has removed the name, as long as what it opens is there and
    * ready.
    */
  lemma StaysResponsible(s: State, p: nat, hint: int)
    requires p in s.procs && s.procs[p].phase != TryShared && s.procs[p].phase != Leaving
    requires s.procs[p].phase == Opened ==> CheckStatus(s, p).procs[p].phase == InUse
    requires s.name.Some? ==> s.name.value in s.segments
    ensures var t := Advance(s, p, hint);
            && p in t.procs
            && (Responsible(s.procs[p].phase) ==> Responsible(t.procs[p].phase) || t.name.None?)
            && (t.name.Some? ==> s.name.Some? || Responsible(t.procs[p].phase))
  {
    match s.procs[p].phase
    case TryExclusive =>
    case Creating | Created | HeaderBuilt | HintStored | ReadyStored =>
    case Opening | Opened | BadStatus | OpenFailed =>
    case Waiting | InUse | Unlinking | Unlinked | Gone =>
  }

  lemma AttendedAfter(s: State, p: nat, hint: int)
    requires Invariant(s) && Tidy(s) && p in s.procs
    ensures Advance(s, p, hint).name.Some? ==> Attended(Advance(s, p, hint))
  {
    var q := s.procs[p];
    if q.phase == TryShared {
      AttendedAfterTryShared(s, p);
    } else if q.phase == Leaving {
      AttendedAfterLeaving(s, p);
    } else {
      if q.phase == Opened {
        OpenedIsReady(s, p);
      }
      StaysResponsible(s, p, hint);
      AttendedByOthers(s, p, hint);
    }
  }

  lemma AttendedByOthers(s: State, p: nat, hint: int)
    requires Tidy(s) && p in s.procs && p in Advance(s, p, hint).procs
    requires var t := Advance(s, p, hint);
             && (t.name.Some? ==> s.name.Some? || Responsible(t.procs[p].phase))
             && (Responsible(s.procs[p].phase) ==> Responsible(t.procs[p].phase) || t.name.None?)
    ensures Advance(s, p, hint).name.Some? ==> Attended(Advance(s, p, hint))
  {
    var t := Advance(s, p, hint);
    if t.name.Some? && !Responsible(t.procs[p].phase) {
      var r :| r in s.procs && Responsible(s.procs[r].phase);
      OthersUnmoved(s, p, hint, r);
      assert Responsible(t.procs[r].phase);
    }
  }

  /** Under the shared lock nobody is building, so what was opened is ready. */
  lemma OpenedIsReady(s: State, p: nat)
    requires Invariant(s) && Tidy(s) && p in s.procs && s.procs[p].phase == Opened
    ensures CheckStatus(s, p).procs[p].phase == InUse
  {
    assert ProcessFine(s, s.procs[p]);
    if BeingBuilt(s) {
      var q :| q in s.procs && Building(s.procs[q].phase);
      ExclusiveAlone(s, q, p);
    }
  }

  lemma OthersUnmoved(s: State, p: nat, hint: int, r: nat)
    requires p in s.procs && r != p
    ensures var t := Advance(s, p, hint);
            (r in t.procs <==> r in s.procs) && (r in t.procs ==> t.procs[r] == s.procs[r])
  {
    match s.procs[p].phase
    case TryExclusive | TryShared | Leaving =>
    case Creating | Created | HeaderBuilt | HintStored | ReadyStored =>
    case Opening | Opened | BadStatus | OpenFailed =>
    case Waiting | InUse | Unlinking | Unlinked | Gone =>
  }

  lemma OnlyCreationNames(s: State, p: nat, hint: int)
    requires p in s.procs && s.procs[p].phase != Creating
    ensures Advance(s, p, hint).name == s.name || Advance(s, p, hint).name == None
  {
  }

  /** What has to happen for an attempt to fail: a status found not to be ready, or opening with no
    * segment there.
    */
  lemma WhyStatusIsBad(s: State, p: nat, hint: int)
    requires p in s.procs && p in Advance(s, p, hint).procs
    requires Advance(s, p, hint).procs[p].phase == BadStatus
    ensures s.procs[p].phase == Opened && Advance(s, p, hint) == CheckStatus(s, p)
  {
  }

  lemma WhyOpenFails(s: State, p: nat, hint: int)
    requires p in s.procs && p in Advance(s, p, hint).procs
    requires Advance(s, p, hint).procs[p].phase == OpenFailed
    ensures s.procs[p].phase == BadStatus || (s.procs[p].phase == Opening && Advance(s, p, hint) == Open(s, p))
  {
    match s.procs[p].phase
    case Creating | Created | HeaderBuilt | HintStored | ReadyStored =>
    case Opening | Opened | BadStatus | OpenFailed =>
    case _ =>
  }

  lemma OwnPhaseTidy(s: State, p: nat, hint: int)
    requires Invariant(s) && Tidy(s) && p in s.procs && p in Advance(s, p, hint).procs
    ensures var t := Advance(s, p, hint);
            && t.procs[p].phase != BadStatus
            && (t.procs[p].phase == OpenFailed ==> t.name == None)
  {
    var t := Advance(s, p, hint);
    if t.procs[p].phase == BadStatus {
      WhyStatusIsBad(s, p, hint);
      OpenedIsReady(s, p);
    } else if t.procs[p].phase == OpenFailed {
      WhyOpenFails(s, p, hint);
    }
  }

  lemma PhasesTidyAfter(s: State, p: nat, hint: int, r: nat)
    requires Invariant(s) && Tidy(s) && p in s.procs && r in Advance(s, p, hint).procs
    ensures var t := Advance(s, p, hint);
            && t.procs[r].phase != BadStatus
            && (t.procs[r].phase == OpenFailed ==> t.name == None)
  {
    if r == p {
      OwnPhaseTidy(s, p, hint);
    } else {
      OthersUnmoved(s, p, hint, r);
      if s.procs[p].phase == Creating {
        ExclusiveAlone(s, p, r);
      } else {
        OnlyCreationNames(s, p, hint);
      }
    }
  }

  lemma TidyAfterAdvance(s: State, p: nat, hint: int)
    requires Invariant(s) && Tidy(s) && p in s.procs
    ensures Tidy(Advance(s, p, hint))
  {
    AttendedAfter(s, p, hint);
    ReadyOrBuilt(s, p, hint);
    var t := Advance(s, p, hint);
    forall r | r in t.procs ensures t.procs[r].phase != BadStatus && (t.procs[r].phase == OpenFailed ==> t.name == None) {
      PhasesTidyAfter(s, p, hint, r);
    }
  }

  /** The steps up to the last store build on; all others leave the segments alone and give no name. */
  lemma BuildsOrLeavesAlone(s: State, p: nat, hint: int)
    requires p in s.procs
    ensures var t := Advance(s, p, hint);
            || (p in t.procs && Building(t.procs[p].phase))
            || (t.segments == s.segments && (t.name == s.name || t.name == None)
                && (Building(s.procs[p].phase) ==> s.procs[p].phase == ReadyStored))
  {
    match s.procs[p].phase
    case TryExclusive | TryShared | Leaving =>
    case Creating | Created | HeaderBuilt | HintStored | ReadyStored =>
    case Opening | Opened | BadStatus | OpenFailed =>
    case Waiting | InUse | Unlinking | Unlinked | Gone =>
  }

  lemma ReadyOrBuilt(s: State, p: nat, hint: int)
    requires Invariant(s) && Tidy(s) && p in s.procs
    ensures var t := Advance(s, p, hint);
            t.name.Some? && t.name.value in t.segments && t.segments[t.name.value].status != Ready ==> BeingBuilt(t)
  {
    var t := Advance(s, p, hint);
    var q := s.procs[p];
    assert ProcessFine(s, q);
    BuildsOrLeavesAlone(s, p, hint);
    if p in t.procs && Building(t.procs[p].phase) {
      assert BeingBuilt(t);
    } else if BeingBuilt(s) && q.phase != ReadyStored {
      StillBuiltByOthers(s, p, hint);
    }
  }

  lemma StillBuiltByOthers(s: State, p: nat, hint: int)
    requires BeingBuilt(s) && p in s.procs && !Building(s.procs[p].phase)
    ensures BeingBuilt(Advance(s, p, hint))
  {
    var q :| q in s.procs && Building(s.procs[q].phase);
    OthersUnmoved(s, p, hint, q);
  }

  lemma TidyAfterLeaving(s: State, p: nat)
    requires Invariant(s) && Tidy(s) && p in s.procs && s.procs[p].phase == Waiting
    ensures Tidy(Left(s, p))
  {
    StillAttended(s, Left(s, p), p);
    if BeingBuilt(s) {
      StillBuilt(s, Left(s, p), p);
    }
  }

  lemma TidyAfterEntering(s: State, e: Event)
    requires Invariant(s) && Tidy(s) && e.choice.Go? && e.pid !in s.procs
    ensures Tidy(Step(s, e))
  {
    var t := Step(s, e);
    if q :| q in s.procs && Responsible(s.procs[q].phase) {
      OtherAttends(s, t, e.pid, q);
    }
    if BeingBuilt(s) {
      StillBuilt(s, t, e.pid);
    }
  }

  lemma TidyAfterStep(s: State, e: Event)
    requires Invariant(s) && Tidy(s) && !e.choice.Crash?
    ensures Tidy(Step(s, e))
  {
    if e.pid in s.procs {
      if e.choice.Go? {
        TidyAfterAdvance(s, e.pid, e.choice.hint);
      } else if s.procs[e.pid].phase == Waiting {
        TidyAfterLeaving(s, e.pid);
      }
    } else if e.choice.Go? {
      TidyAfterEntering(s, e);
    }
  }

  ghost predicate NoCrash(events: seq<Event>) {
    forall i :: 0 <= i < |events| ==> !events[i].choice.Crash?
  }

  lemma {:induction false} AlwaysTidy(events: seq<Event>)
    requires NoCrash(events)
    ensures Tidy(After(events))
    decreases |events|
  {
    if events != [] {
      var rest := events[..|events| - 1];
      AlwaysTidy(rest);
      AlwaysInvariant(rest);
      TidyAfterStep(After(rest), events[|events| - 1]);
    }
  }

  /** In a run without crashes, as long as the name exists some process is responsible for it; once
    * every process has left, including those whose wait timed out, the name is gone.
    */
  lemma NoLeakedSegment(events: seq<Event>)
    requires NoCrash(events)
    ensures After(events).name.Some? ==> Attended(After(events))
    ensures (forall p :: p in After(events).procs ==> After(events).procs[p].phase == Gone) ==> After(events).name == None
  {
    AlwaysTidy(events);
  }

  // ---------------------------------------------------------------- crash recovery

  /** The state after p alone has taken that many steps. */
  ghost function Solo(s: State, p: nat, hint: int, steps: nat): State {
    if steps == 0 then s else Step(Solo(s, p, hint, steps - 1), Event(p, Go(hint)))
  }

  /** The segment stands, built by p under the exclusive lock. */
  ghost predicate BuiltBy(s: State, p: nat, hint: int) {
    && p in s.procs && s.procs[p].phase == ReadyStored
    && s.locks == map[OpenFile(p, Attempt) := Exclusive]
    && s.name.Some? && s.name.value in s.segments
    && s.segments[s.name.value] == Segment(s.generation, Ready, hint)
    && s.procs[p].built == Some(Mapping(s.name.value, s.generation))
  }

  ghost predicate OthersSame(s: State, t: State, p: nat) {
    forall r :: r != p ==> (r in t.procs <==> r in s.procs) && (r in s.procs ==> t.procs[r] == s.procs[r])
  }

  lemma SoloCreates(s: State, p: nat, hint: int)
    requires Invariant(s) && p in s.procs && s.procs[p].phase == TryExclusive && s.locks == map[]
    ensures var t := Solo(s, p, hint, 2);
            && p in t.procs && t.procs[p].phase == Created
            && t.locks == map[OpenFile(p, Attempt) := Exclusive]
            && t.generation == s.generation + 1
            && t.name.Some? && t.name.value in t.segments
            && t.procs[p].built == Some(Mapping(t.name.value, t.generation))
            && t.segments[t.name.value].generation == t.generation
            && OthersSame(s, t, p)
  {
    var s1 := Solo(s, p, hint, 1);
    assert Solo(s, p, hint, 0) == s;
    assert s1 == LockExclusive(s, p, Creating, TryShared);
    assert s1.procs[p].phase == Creating;
    assert Solo(s, p, hint, 2) == Create(s1, p);
  }

  lemma SoloBuilds(s: State, p: nat, hint: int)
    requires Invariant(s) && p in s.procs && s.procs[p].phase == TryExclusive && s.locks == map[]
    ensures BuiltBy(Solo(s, p, hint, 5), p, hint) && Solo(s, p, hint, 5).generation == s.generation + 1
    ensures OthersSame(s, Solo(s, p, hint, 5), p)
  {
    SoloCreates(s, p, hint);
    var s2, s3, s4 := Solo(s, p, hint, 2), Solo(s, p, hint, 3), Solo(s, p, hint, 4);
    assert s3 == StoreHeader(s2, p, HeaderBuilt, Initializing, 0);
    assert s4 == PublishHint(s3, p, hint);
    assert Solo(s, p, hint, 5) == StoreHeader(s4, p, ReadyStored, Ready, BuiltHint(s4, p));
  }

  lemma SoloUses(s: State, p: nat, hint: int)
    requires BuiltBy(Solo(s, p, hint, 5), p, hint)
    ensures var u, t := Solo(s, p, hint, 5), Solo(s, p, hint, 9);
            && Using(t, p)
            && t.name == u.name && t.segments == u.segments && t.generation == u.generation
            && t.procs[p].used == Some(Mapping(u.name.value, u.generation))
  {
    var s6, s7, s8 := Solo(s, p, hint, 6), Solo(s, p, hint, 7), Solo(s, p, hint, 8);
    assert s6.procs[p].phase == TryShared && s6.locks == map[];
    assert s7.procs[p].phase == Opening;
    assert s8 == Open(s7, p);
    assert s8.procs[p].phase == Opened;
    assert Solo(s, p, hint, 9) == CheckStatus(s8, p);
  }

  /** From any reachable state in which no lock is held, whatever crashed before, a process at the
    * top of the set-up loop that runs alone is in use after one iteration, on a generation that it
    * created itself and that carries its own hint.
    */
  lemma CrashRecovery(events: seq<Event>, p: nat, hint: int)
    requires var s := After(events); p in s.procs && s.procs[p].phase == TryExclusive && s.locks == map[]
    ensures var s, t := After(events), Solo(After(events), p, hint, 9);
            && Using(t, p)
            && t.generation == s.generation + 1
            && Current(t, t.procs[p].used)
            && t.segments[t.procs[p].used.value.segment] == Segment(t.generation, Ready, hint)
  {
    AlwaysInvariant(events);
    SoloBuilds(After(events), p, hint);
    SoloUses(After(events), p, hint);
  }

  // ---------------------------------------------------------------- the gap between the two locks

  /** The name leads to the newest generation, a mapping made while creating is of a generation its segment
    * has reached, and whoever uses a segment has let go of the mapping made while creating.
    */
  ghost predicate Newest(s: State) {
    && (s.name.Some? ==> s.name.value in s.segments && s.segments[s.name.value].generation == s.generation)
    && (forall p :: p in s.procs ==> BuiltReached(s, s.procs[p]))
  }

  predicate BuiltReached(s: State, q: Process) {
    && (q.built.Some? ==>
          && q.built.value.segment in s.segments
          && q.built.value.generation <= s.segments[q.built.value.segment].generation)
    && (q.phase == InUse ==> q.built == None)
  }

  /** Segments stay, and their generations only grow. */
  lemma GenerationsGrow(s: State, p: nat, hint: int, id: nat)
    requires Fresh(s) && p in s.procs && id in s.segments
    ensures var t := Advance(s, p, hint);
            id in t.segments && t.segments[id].generation >= s.segments[id].generation
  {
    match s.procs[p].phase
    case Creating =>
    case Created | HeaderBuilt | HintStored =>
    case _ =>
  }

  lemma NameNewestAfter(s: State, p: nat, hint: int)
    requires Newest(s) && p in s.procs
    ensures var t := Advance(s, p, hint);
            t.name.Some? ==> t.name.value in t.segments && t.segments[t.name.value].generation == t.generation
  {
    match s.procs[p].phase
    case Creating =>
    case Created | HeaderBuilt | HintStored =>
    case _ =>
  }

  /** What becomes of the mapping made while creating. */
  lemma BuiltAfter(s: State, p: nat, hint: int)
    requires p in s.procs && p in Advance(s, p, hint).procs && s.procs[p].phase != Creating
    ensures var q, q' := s.procs[p], Advance(s, p, hint).procs[p];
            && (q'.built == q.built || q'.built == None)
            && (q'.phase == InUse ==> q'.built == None || q == q')
  {
    match s.procs[p].phase
    case Created | HeaderBuilt | HintStored | ReadyStored =>
    case Opening | Opened | BadStatus | OpenFailed =>
    case _ =>
  }

  lemma BuiltReachedAfter(s: State, p: nat, hint: int)
    requires Fresh(s) && Newest(s) && p in s.procs && p in Advance(s, p, hint).procs
    ensures BuiltReached(Advance(s, p, hint), Advance(s, p, hint).procs[p])
  {
    var q := s.procs[p];
    assert BuiltReached(s, q);
    if q.phase != Creating {
      BuiltAfter(s, p, hint);
      if q.built.Some? {
        GenerationsGrow(s, p, hint, q.built.value.segment);
      }
    }
  }

  lemma NewestAfterAdvance(s: State, p: nat, hint: int)
    requires Fresh(s) && Newest(s) && p in s.procs
    ensures Newest(Advance(s, p, hint))
  {
    var t := Advance(s, p, hint);
    NameNewestAfter(s, p, hint);
    forall r | r in t.procs ensures BuiltReached(t, t.procs[r]) {
      if r == p {
        BuiltReachedAfter(s, p, hint);
      } else {
        OthersUnmoved(s, p, hint, r);
        assert BuiltReached(s, s.procs[r]);
        if s.procs[r].built.Some? {
          GenerationsGrow(s, p, hint, s.procs[r].built.value.segment);
        }
      }
    }
  }

  lemma NewestAfterStep(s: State, e: Event)
    requires Fresh(s) && Newest(s)
    ensures Newest(Step(s, e))
  {
    if e.pid in s.procs && e.choice.Go? {
      NewestAfterAdvance(s, e.pid, e.choice.hint);
    } else {
      var t := Step(s, e);
      forall r | r in t.procs ensures BuiltReached(t, t.procs[r]) {
        if r != e.pid || t == s {
          assert BuiltReached(s, s.procs[r]);
        }
      }
    }
  }

  lemma {:induction false} AlwaysNewest(events: seq<Event>)
    ensures Newest(After(events))
    decreases |events|
  {
    if events != [] {
      var rest := events[..|events| - 1];
      AlwaysNewest(rest);
      AlwaysInvariant(rest);
      NewestAfterStep(After(rest), events[|events| - 1]);
    }
  }

  /** In every run, whatever overtook a creator in the gap between the two locks: what it has opened under the
    * shared lock is the newest generation, which is the one it built or a newer one; and once it uses the
    * segment it has let go of the mapping it made while building.
    */
  lemma StaleMappingNotUsed(events: seq<Event>, p: nat)
    requires var s := After(events);
             p in s.procs && (s.procs[p].phase == Opened || s.procs[p].phase == BadStatus || s.procs[p].phase == InUse)
    ensures var s := After(events);
            var q := s.procs[p];
            && Current(s, q.used) && q.used.value.generation == s.generation
            && (q.built.Some? ==> q.built == q.used || q.built.value.generation < q.used.value.generation)
            && (q.phase == InUse ==> q.built == None)
  {
    AlwaysInvariant(events);
    AlwaysNewest(events);
    StaleMapping(After(events), p);
  }

  lemma StaleMapping(s: State, p: nat)
    requires Fresh(s) && ProcessesFine(s) && Newest(s) && p in s.procs
    requires s.procs[p].phase == Opened || s.procs[p].phase == BadStatus || s.procs[p].phase == InUse
    ensures var q := s.procs[p];
            && Current(s, q.used) && q.used.value.generation == s.generation
            && (q.built.Some? ==> q.built == q.used || q.built.value.generation < q.used.value.generation)
            && (q.phase == InUse ==> q.built == None)
  {
    var q := s.procs[p];
    assert ProcessFine(s, q) && BuiltReached(s, q);
    if q.built.Some? && q.built.value.generation == q.used.value.generation {
      assert q.built.value.segment == q.used.value.segment;
    }
  }

  /** A creator overtaken after it released the exclusive lock and before it holds the shared one:
    * what it goes on to open is the newer generation, not the one it still has mapped.
    */
  lemma OvertakenCreatorReopens(s: State, p: nat, q: nat, hint: int)
    requires Invariant(s) && s.locks == map[] && p != q
    requires p in s.procs && s.procs[p].phase == TryShared
    requires s.procs[p].built.Some? && s.procs[p].built.value.generation <= s.generation
    requires q in s.procs && s.procs[q].phase == TryExclusive
    ensures var go := Event(p, Go(0));
            var t := Step(Step(Solo(s, q, hint, 6), go), go);
            && p in t.procs && t.procs[p].phase == Opened
            && t.procs[p].built == s.procs[p].built
            && t.procs[p].used.Some?
            && t.procs[p].built.value.generation < t.procs[p].used.value.generation
            && Current(t, t.procs[p].used)
  {
    SoloBuilds(s, q, hint);
    SoloLetsGo(s, q, hint);
    var s6 := Solo(s, q, hint, 6);
    var s7 := LockShared(s6, p);
    assert s7 == Step(s6, Event(p, Go(0)));
    assert s7.procs[p].phase == Opening;
    assert Open(s7, p) == Step(s7, Event(p, Go(0)));
  }

  /** A run in which that happens: process 0 builds and lets go of the exclusive lock, process 1 builds anew,
    * and only then process 0 takes the shared lock and opens the segment.
    */
  lemma OvertakingHappens() returns (events: seq<Event>)
    ensures var s := After(events);
            && 0 in s.procs && s.procs[0].phase == Opened
            && s.procs[0].built.Some? && s.procs[0].used.Some?
            && s.procs[0].built.value.generation < s.procs[0].used.value.generation
  {
    var go0, go1 := Event(0, Go(0)), Event(1, Go(0));
    events := OneBuilt();
    AlwaysInvariant(events);
    var s := After(events);
    OvertakenCreatorReopens(s, 0, 1, 0);
    events := RunAlone(events, 1, 6);
    assert (events + [go0])[..|events|] == events;
    events := events + [go0];
    assert (events + [go0])[..|events|] == events;
    events := events + [go0];
  }

  /** Process 0 has built a segment and holds no lock, process 1 is about to enter the set-up. */
  lemma OneBuilt() returns (events: seq<Event>)
    ensures var s := After(events);
            && s.locks == map[] && 0 in s.procs && s.procs[0].phase == TryShared
            && s.procs[0].built.Some? && s.procs[0].built.value.generation <= s.generation
            && 1 in s.procs && s.procs[1].phase == TryExclusive
  {
    var go0, go1 := Event(0, Go(0)), Event(1, Go(0));
    assert [go0][..0] == [];
    assert After([go0]) == INITIAL.(procs := map[0 := Process(TryExclusive, None, None)]);
    AlwaysInvariant([go0]);
    SoloBuilt(After([go0]), 0, 0);
    events := RunAlone([go0], 0, 6);
    assert (events + [go1])[..|events|] == events;
    events := events + [go1];
  }

  /** Alone, a process builds and lets go of the exclusive lock in six steps. */
  lemma SoloBuilt(s: State, p: nat, hint: int)
    requires Invariant(s) && p in s.procs && s.procs[p].phase == TryExclusive && s.locks == map[]
    ensures var t := Solo(s, p, hint, 6);
            && t.locks == map[] && p in t.procs && t.procs[p].phase == TryShared
            && t.procs[p].built.Some? && t.procs[p].built.value.generation == t.generation
            && OthersSame(s, t, p)
  {
    SoloBuilds(s, p, hint);
    SoloLetsGo(s, p, hint);
  }

  lemma SoloLetsGo(s: State, p: nat, hint: int)
    requires BuiltBy(Solo(s, p, hint, 5), p, hint)
    ensures var u := Solo(s, p, hint, 5);
            && Solo(s, p, hint, 6) == Moved(u, p, TryShared).(locks := u.locks - {OpenFile(p, Attempt)})
            && Solo(s, p, hint, 6).locks == map[]
  {
  }

  /** A run continued by one process alone. */
  lemma {:induction false} RunAlone(events: seq<Event>, p: nat, steps: nat) returns (more: seq<Event>)
    ensures After(more) == Solo(After(events), p, 0, steps)
  {
    if steps == 0 {
      more := events;
    } else {
      var before := RunAlone(events, p, steps - 1);
      more := before + [Event(p, Go(0))];
      assert more[..|more| - 1] == before;
    }
  }

  /** A crash can leave the name behind with nobody in the system: a process that crashes right after
    * it created the segment.
    */
  lemma CrashLeavesName() returns (events: seq<Event>)
    ensures var s := After(events);
            s.name.Some? && forall p :: p in s.procs ==> s.procs[p].phase == Gone
  {
    var go := Event(0, Go(0));
    var e1, e2, e3, e4 := [go], [go, go], [go, go, go], [go, go, go, Event(0, Crash)];
    events := e4;
    assert e4[..3] == e3 && e3[..2] == e2 && e2[..1] == e1 && e1[..0] == [];
    assert After(e1).procs == map[0 := Process(TryExclusive, None, None)];
    assert After(e2) == LockExclusive(After(e1), 0, Creating, TryShared);
    assert After(e2).procs[0].phase == Creating;
    assert After(e3) == Create(After(e2), 0);
    assert After(e4) == Left(After(e3), 0);
  }
}
