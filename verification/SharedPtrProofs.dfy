/** The counters, the resource and the block itself under every interleaving. */
module SharedPtrProofs {
  import opened Basics
  import opened SharedPtr

  // ---------------------------------------------------------------- every step keeps the invariant

  /** While p holds the mutex, every other operation is still waiting for it. */
  lemma OthersWait(s: State, p: nat, q: nat)
    requires OperationsFine(s) && p in s.ops && q in s.ops && p != q && HoldsMutex(s.ops[p].step)
    ensures s.ops[q].step == Acquire
  {
    assert OperationFine(s, p, s.ops[p]) && OperationFine(s, q, s.ops[q]);
  }

  /** Some other operation is where LettingGo or Finishing looks for one: then p is not waiting. */
  lemma LastAlone(s: State, p: nat, q: nat)
    requires OperationsFine(s) && p in s.ops && q in s.ops && p != q
    requires s.ops[p].step != Acquire || s.mutex.None?
    ensures s.ops[q].step != Decide && s.ops[q].step != Dispose && !Ending(s.ops[q].step)
  {
    assert OperationFine(s, p, s.ops[p]) && OperationFine(s, q, s.ops[q]);
  }

  /** A step of p that takes, keeps or releases the mutex and changes nothing but its own progress. */
  lemma OwnStepKeeps(s: State, t: State, p: nat)
    requires Invariant(s) && p in s.ops && p in t.ops
    requires t == s.(ops := s.ops[p := t.ops[p]], mutex := t.mutex)
    requires t.ops[p].task == s.ops[p].task && (HandleGone(t.ops[p]) <==> HandleGone(s.ops[p]))
    requires if s.ops[p].step == Acquire then s.mutex.None? else s.mutex == Some(p)
    requires t.mutex.None? || t.mutex == Some(p)
    requires OperationFine(t, p, t.ops[p])
    requires s.strong == {} && s.resource ==> t.ops[p].step == Dispose || Ending(t.ops[p].step)
    requires s.strong == {} && s.weak == {} ==> Ending(t.ops[p].step)
    ensures Invariant(t)
  {
    forall q | q in t.ops ensures OperationFine(t, q, t.ops[q]) {
      if q != p {
        assert OperationFine(s, q, s.ops[q]) && OperationFine(s, p, s.ops[p]);
        LastAlone(s, p, q);
      }
    }
  }

  /** While p waits for a free mutex, or holds it without having gone to the end, nobody else is
    * letting go of anything.
    */
  lemma NobodyElseEnds(s: State, p: nat)
    requires Invariant(s) && p in s.ops
    requires if s.ops[p].step == Acquire then s.mutex.None? else s.mutex == Some(p)
    ensures s.ops[p].step != Decide && s.ops[p].step != Dispose && !Ending(s.ops[p].step) ==>
              (s.strong != {} || !s.resource)
    ensures s.ops[p].step != Decide && !Ending(s.ops[p].step) ==> s.strong != {} || s.weak != {}
  {
    forall q | q in s.ops && q != p
      ensures s.ops[q].step != Decide && s.ops[q].step != Dispose && !Ending(s.ops[q].step)
    {
      LastAlone(s, p, q);
    }
    assert s.timesFreed == 0;
  }

  lemma EarlyStepKeeps(s: State, p: nat)
    requires Invariant(s) && p in s.ops
    requires s.ops[p].step == Acquire || s.ops[p].step == Check || s.ops[p].step == Load
    ensures Invariant(Progress(s, p))
  {
    assert OperationFine(s, p, s.ops[p]);
    if s.ops[p].step != Acquire || s.mutex.None? {
      NobodyElseEnds(s, p);
      OwnStepKeeps(s, Progress(s, p), p);
    }
  }

  lemma DecideKeeps(s: State, p: nat)
    requires Invariant(s) && p in s.ops && s.ops[p].step == Decide
    ensures Invariant(Progress(s, p))
  {
    assert OperationFine(s, p, s.ops[p]);
    if s.strong == {} && s.weak == {} {
      forall q | q in s.ops ensures q == p {
        assert OperationFine(s, q, s.ops[q]);
        if q != p {
          OthersWait(s, p, q);
        }
      }
      assert Progress(s, p).ops == map[p := Progress(s, p).ops[p]];
    }
    OwnStepKeeps(s, Progress(s, p), p);
  }

  lemma LastUnlockKeeps(s: State, p: nat)
    requires Invariant(s) && p in s.ops && s.ops[p].step == LastUnlock
    ensures Invariant(Progress(s, p))
  {
    assert OperationFine(s, p, s.ops[p]);
    OwnStepKeeps(s, Progress(s, p), p);
  }

  /** The operation is over, the mutex free again. */
  lemma ReleaseKeeps(s: State, p: nat)
    requires Invariant(s) && p in s.ops && (s.ops[p].step == Release || s.ops[p].step == Refuse)
    ensures Invariant(Progress(s, p))
  {
    var t := Progress(s, p);
    assert OperationFine(s, p, s.ops[p]);
    NobodyElseEnds(s, p);
    forall q | q in t.ops ensures OperationFine(t, q, t.ops[q]) {
      assert OperationFine(s, q, s.ops[q]);
      LastAlone(s, p, q);
      OthersWait(s, p, q);
    }
  }

  lemma DisposeKeeps(s: State, p: nat)
    requires Invariant(s) && p in s.ops && s.ops[p].step == Dispose
    ensures Invariant(Progress(s, p))
  {
    var t := Progress(s, p);
    assert OperationFine(s, p, s.ops[p]);
    forall q | q in t.ops ensures OperationFine(t, q, t.ops[q]) {
      if q != p {
        assert OperationFine(s, q, s.ops[q]);
        LastAlone(s, p, q);
        OthersWait(s, p, q);
      }
    }
  }

  lemma EndKeeps(s: State, p: nat)
    requires Invariant(s) && p in s.ops && (s.ops[p].step == Destroy || s.ops[p].step == Free)
    ensures Invariant(Progress(s, p))
  {
    var t := Progress(s, p);
    assert OperationFine(s, p, s.ops[p]);
    assert s.ops == map[p := s.ops[p]];
    if s.ops[p].step == Destroy {
      assert t.ops == map[p := t.ops[p]];
    } else {
      assert t.ops == map[];
    }
  }

  // ---------------------------------------------------------------- storing a counter

  lemma OneMore(handles: set<nat>, h: nat)
    requires h !in handles
    ensures |handles + {h}| == |handles| + 1
  {
  }

  lemma MakeCounters(s: State, p: nat)
    requires CountersFine(s) && p in s.ops && s.ops[p].step == Store && s.ops[p].task.Make?
    requires s.ops[p].loaded == Counter(s, s.ops[p].task.to)
    ensures CountersFine(StoreCounter(s, p))
  {
    assert s.nextHandle !in s.strong + s.weak;
    if s.ops[p].task.to == Strong {
      OneMore(s.strong, s.nextHandle);
    } else {
      OneMore(s.weak, s.nextHandle);
    }
  }

  lemma DropCounters(s: State, p: nat)
    requires Invariant(s) && p in s.ops && s.ops[p].step == Store && s.ops[p].task.Drop?
    ensures CountersFine(StoreCounter(s, p))
  {
    var t := StoreCounter(s, p);
    assert OperationFine(s, p, s.ops[p]);
    assert t.strong + t.weak <= s.strong + s.weak;
  }

  lemma StoreOperations(s: State, p: nat)
    requires Invariant(s) && p in s.ops && s.ops[p].step == Store
    ensures OperationsFine(StoreCounter(s, p)) && DropsAlone(StoreCounter(s, p))
  {
    var t := StoreCounter(s, p);
    assert OperationFine(s, p, s.ops[p]);
    NobodyElseEnds(s, p);
    forall q | q in t.ops ensures OperationFine(t, q, t.ops[q]) {
      if q != p {
        assert OperationFine(s, q, s.ops[q]);
        LastAlone(s, p, q);
        OthersWait(s, p, q);
      }
    }
  }

  lemma StoreKeeps(s: State, p: nat)
    requires Invariant(s) && p in s.ops && s.ops[p].step == Store
    ensures Invariant(Progress(s, p))
  {
    assert OperationFine(s, p, s.ops[p]);
    NobodyElseEnds(s, p);
    StoreOperations(s, p);
    if s.ops[p].task.Make? {
      MakeCounters(s, p);
    } else {
      DropCounters(s, p);
    }
  }

  // ---------------------------------------------------------------- the other events

  lemma BeginKeeps(s: State, p: nat, task: Task)
    requires Invariant(s) && MayBegin(s, p, task)
    ensures Invariant(Next(s, Begin(p, task)))
  {
    var t := Next(s, Begin(p, task));
    forall q | q in t.ops ensures OperationFine(t, q, t.ops[q]) {
      assert q != p ==> OperationFine(s, q, s.ops[q]);
    }
    if LettingGo(s) {
      var q :| q in s.ops && (s.ops[q].step == Decide || s.ops[q].step == Dispose || Ending(s.ops[q].step));
      assert t.ops[q] == s.ops[q];
    }
  }

  lemma RenamedSet(x: set<nat>, h: nat, unused: nat)
    requires h in x && unused !in x
    ensures |x - {h} + {unused}| == |x| && x - {h} + {unused} != {}
  {
    assert unused in x - {h} + {unused};
  }

  /** A handle of one kind continues under a new identity. */
  ghost predicate Renamed(s: State, t: State, h: nat) {
    && h in s.strong + s.weak
    && t == s.(strong := t.strong, weak := t.weak, nextHandle := s.nextHandle + 1)
    && t.strong == (if h in s.strong then s.strong - {h} + {s.nextHandle} else s.strong)
    && t.weak == (if h in s.strong then s.weak else s.weak - {h} + {s.nextHandle})
  }

  lemma RenamedCounters(s: State, t: State, h: nat)
    requires CountersFine(s) && Renamed(s, t, h)
    ensures CountersFine(t) && (t.strong == {} <==> s.strong == {}) && (t.weak == {} <==> s.weak == {})
  {
    assert s.nextHandle !in s.strong + s.weak;
    if h in s.strong {
      RenamedSet(s.strong, h, s.nextHandle);
    } else {
      RenamedSet(s.weak, h, s.nextHandle);
    }
    assert t.strong + t.weak <= s.strong + s.weak + {s.nextHandle};
  }

  lemma RenamedOperation(s: State, t: State, h: nat, q: nat)
    requires OperationsFine(s) && Untouched(s, h) && Renamed(s, t, h) && q in s.ops
    requires (t.strong == {} <==> s.strong == {}) && (t.weak == {} <==> s.weak == {})
    ensures OperationFine(t, q, t.ops[q])
  {
    assert OperationFine(s, q, s.ops[q]) && Subject(s.ops[q].task) != h;
  }

  lemma RenamedRest(s: State, t: State, h: nat)
    requires MutexFine(s) && DropsAlone(s) && ResourceFine(s) && BlockFine(s) && Renamed(s, t, h)
    requires (t.strong == {} <==> s.strong == {}) && (t.weak == {} <==> s.weak == {})
    ensures MutexFine(t) && DropsAlone(t) && ResourceFine(t) && BlockFine(t)
  {
    assert LettingGo(s) ==> LettingGo(t);
    assert Finishing(s) ==> Finishing(t);
  }

  lemma MovedKeeps(s: State, t: State, h: nat)
    requires Invariant(s) && Untouched(s, h) && Renamed(s, t, h)
    ensures Invariant(t)
  {
    RenamedCounters(s, t, h);
    RenamedRest(s, t, h);
    forall q | q in t.ops ensures OperationFine(t, q, t.ops[q]) {
      RenamedOperation(s, t, h, q);
    }
  }

  lemma MoveKeeps(s: State, h: nat)
    requires Invariant(s)
    ensures Invariant(Next(s, Move(h)))
  {
    if h in s.strong + s.weak && Untouched(s, h) {
      MovedKeeps(s, Next(s, Move(h)), h);
    }
  }

  lemma NextKeeps(s: State, e: Event)
    requires Invariant(s)
    ensures Invariant(Next(s, e))
  {
    match e
    case Begin(p, task) =>
      if MayBegin(s, p, task) {
        BeginKeeps(s, p, task);
      }
    case Move(h) => MoveKeeps(s, h);
    case Advance(p) =>
      if p in s.ops {
        match s.ops[p].step
        case Acquire | Check | Load => EarlyStepKeeps(s, p);
        case Store => StoreKeeps(s, p);
        case Decide => DecideKeeps(s, p);
        case Dispose => DisposeKeeps(s, p);
        case Release | Refuse => ReleaseKeeps(s, p);
        case LastUnlock => LastUnlockKeeps(s, p);
        case Destroy | Free => EndKeeps(s, p);
      }
  }

  lemma {:induction false} AlwaysInvariant(s: State, events: seq<Event>)
    requires Invariant(s)
    ensures Invariant(From(s, events))
    decreases |events|
  {
    if events != [] {
      AlwaysInvariant(s, events[..|events| - 1]);
      NextKeeps(From(s, events[..|events| - 1]), events[|events| - 1]);
    }
  }

  lemma InitialInvariant()
    ensures Invariant(INITIAL)
  {
    assert |INITIAL.strong| == 1;
  }

  ghost function After(events: seq<Event>): State {
    From(INITIAL, events)
  }

  // ---------------------------------------------------------------- what holds of every run

  /** The counters equal the numbers of live handles, in every state of every run. */
  lemma CountersMatch(events: seq<Event>)
    ensures var s := After(events); s.shared == |s.strong| && s.weakly == |s.weak|
  {
    InitialInvariant();
    AlwaysInvariant(INITIAL, events);
  }

  /** No step touches a block that was freed, nor the mutex or the counters of one destroyed; the
    * block is freed at most once, and only after the last handle of either kind is gone.
    */
  lemma NoStepTouchesFreed(events: seq<Event>, p: nat)
    ensures var s := After(events);
            && (p in s.ops ==> s.timesFreed == 0 && (s.destroyed ==> s.ops[p].step == Free))
            && s.timesFreed <= 1
            && (s.timesFreed == 1 ==> s.strong == {} && s.weak == {})
  {
    InitialInvariant();
    AlwaysInvariant(INITIAL, events);
    var s := After(events);
    if p in s.ops {
      assert OperationFine(s, p, s.ops[p]);
    }
  }

  /** The deleter runs at most once, never while a strong handle lives; and whenever no operation is
    * under way it has run exactly if no strong handle is left, and the block has been freed exactly if
    * no handle is left.
    */
  lemma DisposedExactlyOnce(events: seq<Event>)
    ensures var s := After(events);
            && s.deleterRuns <= 1 && (s.strong != {} ==> s.deleterRuns == 0)
            && (s.ops == map[] ==>
                  && (s.deleterRuns == 1 <==> s.strong == {})
                  && (s.timesFreed == 1 <==> s.strong == {} && s.weak == {}))
  {
    InitialInvariant();
    AlwaysInvariant(INITIAL, events);
  }

  /** Two operations are never both inside the critical section. */
  lemma MutualExclusion(events: seq<Event>, p: nat, q: nat)
    requires p in After(events).ops && q in After(events).ops
    requires HoldsMutex(After(events).ops[p].step) && HoldsMutex(After(events).ops[q].step)
    ensures p == q
  {
    InitialInvariant();
    AlwaysInvariant(INITIAL, events);
    if p != q {
      OthersWait(After(events), p, q);
    }
  }

  /** Operations never block each other for good: while any is under way, one of them can step. */
  lemma NoDeadlock(events: seq<Event>) returns (p: nat)
    requires After(events).ops != map[]
    ensures p in After(events).ops && Next(After(events), Advance(p)) != After(events)
  {
    InitialInvariant();
    AlwaysInvariant(INITIAL, events);
    var s := After(events);
    if s.mutex.Some? {
      p := s.mutex.value;
    } else {
      p :| p in s.ops;
    }
    assert OperationFine(s, p, s.ops[p]);
    if s.ops[p].step == Free {
      assert Progress(s, p).timesFreed == s.timesFreed + 1;
    } else if s.ops[p].step == Release || s.ops[p].step == Refuse {
      assert p !in Progress(s, p).ops;
    } else {
      assert Progress(s, p).ops[p].step != s.ops[p].step;
    }
  }

  // ---------------------------------------------------------------- no resurrection

  lemma NextStaysDead(s: State, e: Event)
    requires Invariant(s) && s.strong == {}
    ensures Next(s, e).strong == {}
  {
    if e.Advance? && e.pid in s.ops {
      assert OperationFine(s, e.pid, s.ops[e.pid]);
    }
  }

  /** Once the shared count has reached zero it stays zero in every continuation, and no attempt to make a
    * strong handle from a weak one gets past its check.
    */
  lemma {:induction false} NoResurrection(events: seq<Event>, more: seq<Event>)
    requires After(events).shared == 0
    ensures var t := From(After(events), more);
            && t.shared == 0 && t.strong == {}
            && forall p :: p in t.ops && MustCheck(t.ops[p].task) ==> t.ops[p].step != Load && t.ops[p].step != Store
    decreases |more|
  {
    InitialInvariant();
    AlwaysInvariant(INITIAL, events);
    var s := After(events);
    if more != [] {
      var before := more[..|more| - 1];
      NoResurrection(events, before);
      AlwaysInvariant(s, before);
      NextKeeps(From(s, before), more[|more| - 1]);
      NextStaysDead(From(s, before), more[|more| - 1]);
    }
    AlwaysInvariant(s, more);
    var t := From(s, more);
    forall p | p in t.ops && MustCheck(t.ops[p].task) ensures t.ops[p].step != Load && t.ops[p].step != Store {
      assert OperationFine(t, p, t.ops[p]);
    }
  }

  /** An attempt to make a strong handle from a weak one, seen from its check on: it is refused
    * exactly when the shared count is zero.
    */
  lemma LockRefusedIff(events: seq<Event>, p: nat)
    requires p in After(events).ops && After(events).ops[p].step == Check
    ensures var s, t := After(events), Next(After(events), Advance(p));
            && p in t.ops
            && (t.ops[p].step == Refuse <==> s.strong == {})
            && (t.ops[p].step == Load <==> s.strong != {})
  {
    InitialInvariant();
    AlwaysInvariant(INITIAL, events);
  }

  /** An attempt that passed its check finds the resource still there when it stores the counter. */
  lemma LockKeepsResource(events: seq<Event>, p: nat)
    requires p in After(events).ops && After(events).ops[p].step == Store && MustCheck(After(events).ops[p].task)
    ensures var s, t := After(events), Next(After(events), Advance(p));
            && s.nextHandle in t.strong && t.resource && t.shared == s.shared + 1 && s.shared >= 1
  {
    InitialInvariant();
    AlwaysInvariant(INITIAL, events);
    assert OperationFine(After(events), p, After(events).ops[p]);
  }
}
