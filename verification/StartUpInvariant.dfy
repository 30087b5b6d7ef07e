/** Every event keeps the protocol's invariant. */
module StartUpInvariant {
  import opened Basics
  import opened StartUp

  lemma IdleFine(s: State, q: Process)
    requires LockOf(q.phase, Lifetime).None? && LockOf(q.phase, Attempt).None?
    ensures ProcessFine(s, q)
  {
  }

  /** While one process holds the exclusive lock, no other holds any. */
  lemma ExclusiveAlone(s: State, p: nat, q: nat)
    requires TableAgrees(s) && Excludes(s.locks)
    requires p in s.procs && LockOf(s.procs[p].phase, Attempt).Some? && q in s.procs && q != p
    ensures LockOf(s.procs[q].phase, Lifetime).None? && LockOf(s.procs[q].phase, Attempt).None?
  {
    assert Held(s, OpenFile(p, Attempt)).Some?;
    assert Held(s, OpenFile(q, Lifetime)) == LockOf(s.procs[q].phase, Lifetime);
    assert Held(s, OpenFile(q, Attempt)) == LockOf(s.procs[q].phase, Attempt);
  }

  // ---------------------------------------------------------------- the lock table

  lemma TableAfter(s: State, t: State, p: nat)
    requires TableAgrees(s) && p in t.procs
    requires forall q :: q != p ==> (q in t.procs <==> q in s.procs) && (q in s.procs ==> t.procs[q] == s.procs[q])
    requires forall o: OpenFile :: o.pid != p ==>
               (o in t.locks <==> o in s.locks) && (o in s.locks ==> t.locks[o] == s.locks[o])
    requires forall which :: var o, held := OpenFile(p, which), LockOf(t.procs[p].phase, which);
               (o in t.locks <==> held.Some?) && (o in t.locks ==> held == Some(t.locks[o]))
    ensures TableAgrees(t)
  {
    forall o: OpenFile
      ensures (o in t.locks <==> Held(t, o).Some?) && (o in t.locks ==> Held(t, o) == Some(t.locks[o]))
    {
      if o.pid == p {
        assert o == OpenFile(p, o.which);
      } else {
        assert Held(t, o) == Held(s, o);
      }
    }
  }

  // ---------------------------------------------------------------- steps that leave the segment alone

  /** A step that changes only the process table and the locks. */
  ghost predicate SameSegments(s: State, t: State) {
    t == s.(procs := t.procs, locks := t.locks)
  }

  lemma LockStepKeeps(s: State, t: State, p: nat)
    requires Invariant(s) && SameSegments(s, t) && TableAgrees(t) && Excludes(t.locks)
    requires forall q :: q != p && q in t.procs ==> q in s.procs && t.procs[q] == s.procs[q]
    requires p in t.procs ==> ProcessFine(s, t.procs[p])
    ensures Invariant(t)
  {
    forall q | q in t.procs ensures ProcessFine(t, t.procs[q]) {
      assert q != p ==> ProcessFine(s, s.procs[q]);
    }
  }

  lemma GrantExclusiveKeeps(s: State, p: nat, phase: Phase)
    requires Invariant(s) && p in s.procs && MayLockExclusive(s.locks, OpenFile(p, Attempt))
    requires LockOf(s.procs[p].phase, Lifetime).None?
    requires phase == Creating || phase == Unlinking
    ensures Invariant(Moved(s, p, phase).(locks := s.locks[OpenFile(p, Attempt) := Exclusive]))
  {
    var t := Moved(s, p, phase).(locks := s.locks[OpenFile(p, Attempt) := Exclusive]);
    assert forall o :: o in t.locks ==> o == OpenFile(p, Attempt);
    GrantExclusiveTable(s, p, phase);
    LockStepKeeps(s, t, p);
  }

  lemma GrantExclusiveTable(s: State, p: nat, phase: Phase)
    requires TableAgrees(s) && p in s.procs && MayLockExclusive(s.locks, OpenFile(p, Attempt))
    requires LockOf(s.procs[p].phase, Lifetime).None?
    requires phase == Creating || phase == Unlinking
    ensures TableAgrees(Moved(s, p, phase).(locks := s.locks[OpenFile(p, Attempt) := Exclusive]))
  {
    var t := Moved(s, p, phase).(locks := s.locks[OpenFile(p, Attempt) := Exclusive]);
    TableAfterOwn(s, p);
    assert OpenFile(p, Lifetime) !in t.locks;
    TableAfter(s, t, p);
  }

  lemma LockExclusiveKeeps(s: State, p: nat, success: Phase, failure: Phase)
    requires Invariant(s) && p in s.procs
    requires LockOf(s.procs[p].phase, Lifetime).None? && LockOf(s.procs[p].phase, Attempt).None?
    requires (success == Creating && failure == TryShared) || (success == Unlinking && failure == Gone)
    ensures Invariant(LockExclusive(s, p, success, failure))
  {
    if MayLockExclusive(s.locks, OpenFile(p, Attempt)) {
      GrantExclusiveKeeps(s, p, success);
    } else {
      DenyExclusiveKeeps(s, p, failure);
    }
  }

  lemma DenyExclusiveKeeps(s: State, p: nat, failure: Phase)
    requires Invariant(s) && p in s.procs && (failure == TryShared || failure == Gone)
    requires LockOf(s.procs[p].phase, Lifetime).None? && LockOf(s.procs[p].phase, Attempt).None?
    ensures Invariant(Moved(s, p, failure))
  {
    IdleFine(s, s.procs[p].(phase := failure));
    QuietKeeps(s, p, s.procs[p].(phase := failure));
  }

  lemma GrantSharedKeeps(s: State, p: nat)
    requires Invariant(s) && p in s.procs && s.procs[p].phase == TryShared
    requires MayLockShared(s.locks, OpenFile(p, Lifetime))
    ensures Invariant(Moved(s, p, Opening).(locks := s.locks[OpenFile(p, Lifetime) := Shared]))
  {
    var t := Moved(s, p, Opening).(locks := s.locks[OpenFile(p, Lifetime) := Shared]);
    TableAfterOwn(s, p);
    assert OpenFile(p, Lifetime) !in s.locks;
    TableAfter(s, t, p);
    LockStepKeeps(s, t, p);
  }

  lemma LockSharedKeeps(s: State, p: nat)
    requires Invariant(s) && p in s.procs && s.procs[p].phase == TryShared
    ensures Invariant(LockShared(s, p))
  {
    if MayLockShared(s.locks, OpenFile(p, Lifetime)) {
      GrantSharedKeeps(s, p);
    } else {
      QuietKeeps(s, p, s.procs[p].(phase := Waiting));
    }
  }

  /** What the table says of a process's own two files. */
  lemma TableAfterOwn(s: State, p: nat)
    requires TableAgrees(s) && p in s.procs
    ensures forall which :: var o, held := OpenFile(p, which), LockOf(s.procs[p].phase, which);
              (o in s.locks <==> held.Some?) && (o in s.locks ==> held == Some(s.locks[o]))
  {
    forall which
      ensures var o, held := OpenFile(p, which), LockOf(s.procs[p].phase, which);
              (o in s.locks <==> held.Some?) && (o in s.locks ==> held == Some(s.locks[o]))
    {
      assert Held(s, OpenFile(p, which)) == LockOf(s.procs[p].phase, which);
    }
  }

  lemma LeftKeeps(s: State, p: nat)
    requires Invariant(s) && p in s.procs
    ensures Invariant(Left(s, p))
  {
    var t := Left(s, p);
    forall which ensures OpenFile(p, which) !in t.locks {
      assert which == Lifetime || which == Attempt;
    }
    TableAfter(s, t, p);
    IdleFine(s, t.procs[p]);
    LockStepKeeps(s, t, p);
  }

  /** Releasing a lock and moving on. */
  lemma ReleaseKeeps(s: State, p: nat, q: Process, which: Which)
    requires Invariant(s) && p in s.procs
    requires LockOf(s.procs[p].phase, if which == Lifetime then Attempt else Lifetime).None?
    requires LockOf(q.phase, Lifetime).None? && LockOf(q.phase, Attempt).None?
    ensures Invariant(s.(procs := s.procs[p := q], locks := s.locks - {OpenFile(p, which)}))
  {
    var t := s.(procs := s.procs[p := q], locks := s.locks - {OpenFile(p, which)});
    TableAfterOwn(s, p);
    TableAfter(s, t, p);
    IdleFine(s, q);
    LockStepKeeps(s, t, p);
  }

  /** A step that takes no lock and releases none. */
  lemma QuietKeeps(s: State, p: nat, q: Process)
    requires Invariant(s) && p in s.procs && ProcessFine(s, q)
    requires LockOf(q.phase, Lifetime) == LockOf(s.procs[p].phase, Lifetime)
    requires LockOf(q.phase, Attempt) == LockOf(s.procs[p].phase, Attempt)
    ensures Invariant(s.(procs := s.procs[p := q]))
  {
    var t := s.(procs := s.procs[p := q]);
    TableAfterOwn(s, p);
    TableAfter(s, t, p);
    LockStepKeeps(s, t, p);
  }

  // ---------------------------------------------------------------- steps under the exclusive lock

  /** A step of the exclusive holder that may change the name and the segments. */
  lemma ExclusiveStepKeeps(s: State, t: State, p: nat)
    requires Invariant(s) && p in s.procs && LockOf(s.procs[p].phase, Attempt).Some?
    requires t.locks == s.locks && p in t.procs && t.procs == s.procs[p := t.procs[p]]
    requires forall which :: LockOf(t.procs[p].phase, which) == LockOf(s.procs[p].phase, which)
    requires Fresh(t) && Published(t) && ProcessFine(t, t.procs[p])
    ensures Invariant(t)
  {
    TableAfterOwn(s, p);
    TableAfter(s, t, p);
    forall q | q in t.procs ensures ProcessFine(t, t.procs[q]) {
      if q != p {
        ExclusiveAlone(s, p, q);
        IdleFine(t, s.procs[q]);
      }
    }
  }

  lemma CreateKeeps(s: State, p: nat)
    requires Invariant(s) && p in s.procs && s.procs[p].phase == Creating
    ensures Invariant(Create(s, p))
  {
    ExclusiveStepKeeps(s, Create(s, p), p);
  }

  lemma StoreHeaderKeeps(s: State, p: nat, phase: Phase, status: Status, hint: int)
    requires Invariant(s) && p in s.procs && Building(s.procs[p].phase)
    requires || (phase == HeaderBuilt && status == Initializing)
             || (phase == ReadyStored && status == Ready && s.procs[p].phase == HintStored && hint == BuiltHint(s, p))
    ensures Invariant(StoreHeader(s, p, phase, status, hint))
  {
    assert ProcessFine(s, s.procs[p]);
    ExclusiveStepKeeps(s, StoreHeader(s, p, phase, status, hint), p);
  }

  lemma PublishHintKeeps(s: State, p: nat, hint: int)
    requires Invariant(s) && p in s.procs && Building(s.procs[p].phase)
    ensures Invariant(PublishHint(s, p, hint))
  {
    assert ProcessFine(s, s.procs[p]);
    ExclusiveStepKeeps(s, PublishHint(s, p, hint), p);
  }

  lemma UnlinkKeeps(s: State, p: nat)
    requires Invariant(s) && p in s.procs && s.procs[p].phase == Unlinking
    ensures Invariant(Moved(s, p, Unlinked).(name := None))
  {
    ExclusiveStepKeeps(s, Moved(s, p, Unlinked).(name := None), p);
  }

  // ---------------------------------------------------------------- all events

  lemma BuildStepKeeps(s: State, p: nat, hint: int)
    requires Invariant(s) && p in s.procs && (Building(s.procs[p].phase) || s.procs[p].phase == Creating)
    ensures Invariant(Advance(s, p, hint))
  {
    var q := s.procs[p];
    assert ProcessFine(s, q);
    match q.phase
    case Creating => CreateKeeps(s, p);
    case Created => StoreHeaderKeeps(s, p, HeaderBuilt, Initializing, 0);
    case HeaderBuilt => PublishHintKeeps(s, p, hint);
    case HintStored => StoreHeaderKeeps(s, p, ReadyStored, Ready, BuiltHint(s, p));
    case ReadyStored => ReleaseKeeps(s, p, q.(phase := TryShared), Attempt);
  }

  lemma OpenStepKeeps(s: State, p: nat, hint: int)
    requires Invariant(s) && p in s.procs && LockOf(s.procs[p].phase, Lifetime).Some?
    ensures Invariant(Advance(s, p, hint))
  {
    var q := s.procs[p];
    match q.phase
    case Opening => OpeningKeeps(s, p);
    case Opened => OpenedKeeps(s, p);
    case BadStatus => QuietKeeps(s, p, q.(phase := OpenFailed, used := None));
    case OpenFailed => ReleaseKeeps(s, p, Process(TryExclusive, None, None), Lifetime);
    case InUse => ReleaseKeeps(s, p, q.(phase := Leaving), Lifetime);
  }

  lemma OpeningKeeps(s: State, p: nat)
    requires Invariant(s) && p in s.procs && s.procs[p].phase == Opening
    ensures Invariant(Open(s, p))
  {
    QuietKeeps(s, p, Open(s, p).procs[p]);
  }

  lemma OpenedKeeps(s: State, p: nat)
    requires Invariant(s) && p in s.procs && s.procs[p].phase == Opened
    ensures Invariant(CheckStatus(s, p))
  {
    assert ProcessFine(s, s.procs[p]);
    QuietKeeps(s, p, CheckStatus(s, p).procs[p]);
  }

  lemma AdvanceKeeps(s: State, p: nat, hint: int)
    requires Invariant(s) && p in s.procs
    ensures Invariant(Advance(s, p, hint))
  {
    var q := s.procs[p];
    match q.phase
    case TryExclusive => LockExclusiveKeeps(s, p, Creating, TryShared);
    case Creating | Created | HeaderBuilt | HintStored | ReadyStored => BuildStepKeeps(s, p, hint);
    case TryShared => LockSharedKeeps(s, p);
    case Waiting => QuietKeeps(s, p, q.(phase := TryShared));
    case Opening | Opened | BadStatus | OpenFailed | InUse => OpenStepKeeps(s, p, hint);
    case Leaving => LockExclusiveKeeps(s, p, Unlinking, Gone);
    case Unlinking => UnlinkKeeps(s, p);
    case Unlinked => LeftKeeps(s, p);
    case Gone =>
  }

  lemma StepKeeps(s: State, e: Event)
    requires Invariant(s)
    ensures Invariant(Step(s, e))
  {
    if e.pid in s.procs {
      match e.choice
      case Go(hint) => AdvanceKeeps(s, e.pid, hint);
      case Timeout => LeftKeeps(s, e.pid);
      case Crash => LeftKeeps(s, e.pid);
    } else {
      var t := Step(s, e);
      if e.choice.Go? {
        forall which ensures OpenFile(e.pid, which) !in s.locks {
          assert Held(s, OpenFile(e.pid, which)).None?;
        }
        TableAfter(s, t, e.pid);
        LockStepKeeps(s, t, e.pid);
      }
    }
  }

  /** The invariant holds after every run, whatever the schedule, the time-outs and the crashes. */
  lemma {:induction false} AlwaysInvariant(events: seq<Event>)
    ensures Invariant(After(events))
    decreases |events|
  {
    if events != [] {
      AlwaysInvariant(events[..|events| - 1]);
      StepKeeps(After(events[..|events| - 1]), events[|events| - 1]);
    }
  }
}
