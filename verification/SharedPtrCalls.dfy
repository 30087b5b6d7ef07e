/** What whole operations on the handles of a control block achieve. */
module SharedPtrCalls {
  import opened Basics
  import opened SharedPtr
  import opened SharedPtrProofs

  /** The state after p alone has taken that many steps. */
  ghost function Alone(s: State, p: nat, steps: nat): State
    decreases steps
  {
    if steps == 0 then s else Alone(Next(s, Advance(p)), p, steps - 1)
  }

  lemma {:induction false} AloneKeeps(s: State, p: nat, steps: nat)
    requires Invariant(s)
    ensures Invariant(Alone(s, p, steps))
    decreases steps
  {
    if steps > 0 {
      NextKeeps(s, Advance(p));
      AloneKeeps(Next(s, Advance(p)), p, steps - 1);
    }
  }

  lemma NewHandleIsNew(s: State)
    requires Invariant(s)
    ensures s.nextHandle !in s.strong && s.nextHandle !in s.weak
  {
    assert s.nextHandle !in s.strong + s.weak;
  }

  /** What the invariant says of counters, deleter and block. */
  lemma Accounts(s: State)
    requires Invariant(s)
    ensures s.shared == |s.strong| && s.weakly == |s.weak|
    ensures s.strong != {} ==> s.deleterRuns == 0
    ensures s.timesFreed == 1 ==> s.strong == {} && s.weak == {}
  {
  }

  // ---------------------------------------------------------------- single steps, under any interleaving

  /** The step at which a drop stores its counter takes exactly its handle off. */
  lemma DropTakesOff(events: seq<Event>, p: nat)
    requires var s := After(events); p in s.ops && s.ops[p].step == Store && s.ops[p].task.Drop?
    ensures var s, t := After(events), Next(After(events), Advance(p));
            var h, strong := s.ops[p].task.handle, s.ops[p].task.kind == Strong;
            && h in (if strong then s.strong else s.weak)
            && t.strong == (if strong then s.strong - {h} else s.strong)
            && t.weak == (if strong then s.weak else s.weak - {h})
            && h !in t.strong && h !in t.weak
            && t.shared == |t.strong| && t.weakly == |t.weak|
  {
    InitialInvariant();
    AlwaysInvariant(INITIAL, events);
    var s := After(events);
    assert OperationFine(s, p, s.ops[p]);
    NextKeeps(s, Advance(p));
  }

  /** The step at which a copy stores its counter brings exactly one new handle to life. */
  lemma MakeAdds(events: seq<Event>, p: nat)
    requires var s := After(events); p in s.ops && s.ops[p].step == Store && s.ops[p].task.Make?
    ensures var s, t := After(events), Next(After(events), Advance(p));
            var h, strong := s.nextHandle, s.ops[p].task.to == Strong;
            && h !in s.strong && h !in s.weak
            && t.strong == (if strong then s.strong + {h} else s.strong)
            && t.weak == (if strong then s.weak else s.weak + {h})
            && t.shared == |t.strong| && t.weakly == |t.weak|
  {
    InitialInvariant();
    AlwaysInvariant(INITIAL, events);
    var s := After(events);
    assert OperationFine(s, p, s.ops[p]);
    NextKeeps(s, Advance(p));
  }

  /** Moving a handle nobody is working with replaces it by one of the same kind that is new. */
  lemma MoveReplaces(events: seq<Event>, h: nat)
    requires var s := After(events);
             (h in s.strong || h in s.weak) && forall p :: p in s.ops ==> Subject(s.ops[p].task) != h
    ensures var s, t := After(events), Next(After(events), Move(h));
            var n := s.nextHandle;
            && n !in s.strong && n !in s.weak && h !in t.strong && h !in t.weak
            && t.strong == (if h in s.strong then s.strong - {h} + {n} else s.strong)
            && t.weak == (if h in s.strong then s.weak else s.weak - {h} + {n})
            && t.shared == s.shared && t.weakly == s.weakly && t.ops == s.ops
  {
    InitialInvariant();
    AlwaysInvariant(INITIAL, events);
    assert Untouched(After(events), h);
    NewHandleIsNew(After(events));
  }

  // ---------------------------------------------------------------- whole operations

  /** Locking, loading and storing: the handle is off, the decision to come. */
  lemma DropStored(s: State, p: nat) returns (steps: nat)
    requires Invariant(s) && s.mutex.None? && p in s.ops && s.ops[p].step == Acquire && s.ops[p].task.Drop?
    ensures var t, strong, h := Alone(s, p, steps), s.ops[p].task.kind == Strong, s.ops[p].task.handle;
            && t.mutex == Some(p) && p in t.ops && t.ops[p].step == Decide && t.ops[p].task == s.ops[p].task
            && t.ops - {p} == s.ops - {p} && t.nextHandle == s.nextHandle
            && t.strong == (if strong then s.strong - {h} else s.strong)
            && t.weak == (if strong then s.weak else s.weak - {h})
  {
    var a := s.ops[p];
    steps := 3;
    assert OperationFine(s, p, a);
    assert Alone(s, p, 0) == s;
    assert Alone(s, p, 1) == At(s, p, Load).(mutex := Some(p));
    var s1 := Alone(s, p, 1);
    assert Alone(s, p, 2) == s1.(ops := s1.ops[p := Operation(a.task, Store, Counter(s1, CountedKind(a.task)))]);
    assert Alone(s, p, 3) == StoreCounter(Alone(s, p, 2), p);
  }

  lemma DropTaken(s: State, p: nat) returns (steps: nat)
    requires Invariant(s) && s.mutex.None? && p in s.ops && s.ops[p].step == Acquire && s.ops[p].task.Drop?
    ensures var u := Alone(s, p, steps); Invariant(u) && TakenOff(s, u, p, s.ops[p].task)
  {
    steps := DropStored(s, p);
    AloneKeeps(s, p, steps);
  }

  /** From the decision on: the resource is let go and the block freed where nobody is left. */
  lemma DropEnds(s: State, p: nat) returns (steps: nat)
    requires Invariant(s) && p in s.ops && s.ops[p].step == Decide
    ensures var t := Alone(s, p, steps);
            && t.ops == s.ops - {p} && t.strong == s.strong && t.weak == s.weak && t.mutex == None
            && t.nextHandle == s.nextHandle
            && (t.strong == {} ==> t.deleterRuns == 1)
            && (t.strong == {} && t.weak == {} ==> t.timesFreed == 1)
  {
    assert OperationFine(s, p, s.ops[p]);
    assert Alone(s, p, 0) == s;
    var s1 := Alone(s, p, 1);
    assert s1 == At(s, p, DecideNext(s));
    if s.strong == {} && s.weak == {} {
      steps := EndsBlock(s, p);
    } else if s.strong == {} {
      steps := 3;
      assert Alone(s, p, 2) == At(LetGo(s1), p, Release);
      assert Alone(s, p, 3) == Done(Alone(s, p, 2), p).(mutex := None);
    } else {
      steps := 2;
      assert Alone(s, p, 2) == Done(s1, p).(mutex := None);
    }
    assert Alone(s, p, steps).ops == s.ops - {p};
  }

  lemma EndsBlock(s: State, p: nat) returns (steps: nat)
    requires Invariant(s) && p in s.ops && s.ops[p].step == Decide && s.strong == {} && s.weak == {}
    ensures steps == 4
    ensures var t := Alone(s, p, 4);
            && t.ops == s.ops - {p} && t.strong == {} && t.weak == {} && t.mutex == None
            && t.nextHandle == s.nextHandle && t.deleterRuns == 1 && t.timesFreed == 1
  {
    assert OperationFine(s, p, s.ops[p]);
    steps := 4;
    assert Alone(s, p, 0) == s;
    var s1 := Alone(s, p, 1);
    assert s1 == At(s, p, LastUnlock);
    var s2 := Alone(s, p, 2);
    assert s2 == At(s1, p, Destroy).(mutex := None);
    var s3 := Alone(s, p, 3);
    assert s3 == At(LetGo(s2), p, Free).(destroyed := true);
    assert Alone(s, p, 4) == Done(s3, p).(timesFreed := s3.timesFreed + 1);
    assert Alone(s, p, 4).ops == s.ops - {p};
    assert s.timesFreed == 0;
  }

  lemma DropSettles(s: State, p: nat) returns (steps: nat)
    requires Invariant(s) && p in s.ops && s.ops[p].step == Decide
    ensures var t := Alone(s, p, steps);
            && t.ops == s.ops - {p} && t.strong == s.strong && t.weak == s.weak && t.mutex == None
            && t.shared == |t.strong| && t.weakly == |t.weak|
            && (t.strong == {} ==> t.deleterRuns == 1) && (t.strong != {} ==> t.deleterRuns == 0)
            && (t.timesFreed == 1 <==> t.strong == {} && t.weak == {})
  {
    steps := DropEnds(s, p);
    AloneKeeps(s, p, steps);
    Accounts(Alone(s, p, steps));
  }

  /** The handle is off and everything else settled: the deleter has run if no strong handle is left, and the
    * block is freed if none of either kind is.
    */
  ghost predicate Dropped(s: State, t: State, p: nat, task: Task)
    requires task.Drop?
  {
    && t.ops == s.ops - {p} && t.mutex == None
    && t.strong == (if task.kind == Strong then s.strong - {task.handle} else s.strong)
    && t.weak == (if task.kind == Strong then s.weak else s.weak - {task.handle})
    && t.shared == |t.strong| && t.weakly == |t.weak|
    && (t.deleterRuns == if t.strong == {} then 1 else 0)
    && (t.timesFreed == 1 <==> t.strong == {} && t.weak == {})
  }

  /** The handle is off, the decision to come. */
  ghost predicate TakenOff(s: State, u: State, p: nat, task: Task)
    requires task.Drop?
  {
    && p in u.ops && u.ops[p].step == Decide && u.ops - {p} == s.ops - {p}
    && u.strong == (if task.kind == Strong then s.strong - {task.handle} else s.strong)
    && u.weak == (if task.kind == Strong then s.weak else s.weak - {task.handle})
  }

  lemma DropFinishes(s: State, u: State, p: nat, task: Task) returns (steps: nat, t: State)
    requires Invariant(u) && task.Drop? && TakenOff(s, u, p, task)
    ensures t == Alone(u, p, steps) && Dropped(s, t, p, task)
  {
    steps := DropSettles(u, p);
    t := Alone(u, p, steps);
  }

  /** Exactly one new handle has come to life; or none and nothing has changed, where a strong handle was to
    * be made from a weak one and no strong one was left.
    */
  ghost predicate Made(s: State, t: State, p: nat, task: Task)
    requires task.Make?
  {
    if task.kind == Weak && task.to == Strong && s.strong == {} then
      t == s.(ops := s.ops - {p})
    else
      && t.ops == s.ops - {p} && t.mutex == None
      && s.nextHandle !in s.strong && s.nextHandle !in s.weak && t.nextHandle == s.nextHandle + 1
      && t.strong == (if task.to == Strong then s.strong + {s.nextHandle} else s.strong)
      && t.weak == (if task.to == Strong then s.weak else s.weak + {s.nextHandle})
      && t.shared == |t.strong| && t.weakly == |t.weak|
      && t.deleterRuns == s.deleterRuns && t.timesFreed == s.timesFreed
  }

  lemma MakeSettles(s: State, u: State, p: nat) returns (steps: nat)
    requires Invariant(s) && p in s.ops && s.ops[p].task.Make? && Invariant(u)
    requires u == s.(mutex := Some(p), ops := s.ops[p := s.ops[p].(step := Load)])
    ensures var t, task := Alone(u, p, steps), s.ops[p].task;
            && t.ops == s.ops - {p} && t.mutex == None
            && s.nextHandle !in s.strong && s.nextHandle !in s.weak && t.nextHandle == s.nextHandle + 1
            && t.strong == (if task.to == Strong then s.strong + {s.nextHandle} else s.strong)
            && t.weak == (if task.to == Strong then s.weak else s.weak + {s.nextHandle})
            && t.shared == |t.strong| && t.weakly == |t.weak|
            && t.deleterRuns == s.deleterRuns && t.timesFreed == s.timesFreed
  {
    NewHandleIsNew(s);
    steps := MakeLoaded(s, u, p);
    AloneKeeps(u, p, steps);
    Accounts(Alone(u, p, steps));
  }

  lemma MakeRefused(s: State, p: nat) returns (steps: nat)
    requires Invariant(s) && s.mutex.None? && p in s.ops && s.ops[p].step == Acquire
    requires MustCheck(s.ops[p].task) && s.strong == {}
    ensures Alone(s, p, steps) == s.(ops := s.ops - {p})
  {
    steps := 3;
    assert Alone(s, p, 0) == s;
    var s1 := Alone(s, p, 1);
    assert s1 == At(s, p, Check).(mutex := Some(p));
    assert Alone(s, p, 2) == At(s1, p, Refuse);
    assert Alone(s, p, 3) == Done(Alone(s, p, 2), p).(mutex := None);
    assert Alone(s, p, 3).ops == s.ops - {p};
  }

  /** Locking, and where it is called for the check. */
  lemma MakeAdmitted(s: State, p: nat) returns (steps: nat)
    requires Invariant(s) && s.mutex.None? && p in s.ops && s.ops[p].step == Acquire && s.ops[p].task.Make?
    requires MustCheck(s.ops[p].task) ==> s.strong != {}
    ensures Alone(s, p, steps) == s.(mutex := Some(p), ops := s.ops[p := s.ops[p].(step := Load)])
  {
    assert Alone(s, p, 0) == s;
    var s1 := Alone(s, p, 1);
    if MustCheck(s.ops[p].task) {
      steps := 2;
      assert s1 == At(s, p, Check).(mutex := Some(p));
      assert Alone(s, p, 2) == At(s1, p, Load);
      assert Alone(s, p, 2).ops == s.ops[p := s.ops[p].(step := Load)];
    } else {
      steps := 1;
      assert s1 == At(s, p, Load).(mutex := Some(p));
    }
  }

  /** Loading, storing and unlocking of a copy. */
  lemma MakeLoaded(s: State, u: State, p: nat) returns (steps: nat)
    requires s.nextHandle !in s.strong && s.nextHandle !in s.weak && p in s.ops && s.ops[p].task.Make?
    requires u == s.(mutex := Some(p), ops := s.ops[p := s.ops[p].(step := Load)])
    ensures var t, task := Alone(u, p, steps), s.ops[p].task;
            && t.ops == s.ops - {p} && t.mutex == None
            && s.nextHandle !in s.strong && s.nextHandle !in s.weak && t.nextHandle == s.nextHandle + 1
            && t.strong == (if task.to == Strong then s.strong + {s.nextHandle} else s.strong)
            && t.weak == (if task.to == Strong then s.weak else s.weak + {s.nextHandle})
            && t.deleterRuns == s.deleterRuns && t.timesFreed == s.timesFreed
  {
    var task := s.ops[p].task;
    steps := 3;
    assert Alone(u, p, 0) == u;
    MakeStored(u, p);
    var u2 := Alone(u, p, 2);
    assert Alone(u, p, 3) == Done(u2, p).(mutex := None);
    assert Alone(u, p, 3).ops == s.ops - {p};
  }

  lemma MakeStored(u: State, p: nat)
    requires p in u.ops && u.ops[p].step == Load && u.ops[p].task.Make?
    ensures var t, task := Alone(u, p, 2), u.ops[p].task;
            && p in t.ops && t.ops[p].step == Release && t.ops - {p} == u.ops - {p}
            && t.nextHandle == u.nextHandle + 1
            && t.strong == (if task.to == Strong then u.strong + {u.nextHandle} else u.strong)
            && t.weak == (if task.to == Strong then u.weak else u.weak + {u.nextHandle})
            && t.deleterRuns == u.deleterRuns && t.timesFreed == u.timesFreed
  {
    var task := u.ops[p].task;
    assert Alone(u, p, 0) == u;
    var u1 := Alone(u, p, 1);
    assert u1 == u.(ops := u.ops[p := Operation(task, Store, Counter(u, CountedKind(task)))]);
    assert Alone(u, p, 2) == StoreCounter(u1, p);
  }

  // ---------------------------------------------------------------- runs

  lemma RunOn(events: seq<Event>, e: Event)
    ensures After(events + [e]) == Next(After(events), e)
  {
    assert (events + [e])[..|events|] == events;
  }

  /** The run goes on with steps of p only. */
  ghost predicate GoesOnAlone(events: seq<Event>, more: seq<Event>, p: nat) {
    |events| <= |more| && more[..|events|] == events && forall i :: |events| <= i < |more| ==> more[i] == Advance(p)
  }

  lemma {:induction false} RunAlone(events: seq<Event>, p: nat, steps: nat) returns (more: seq<Event>)
    ensures GoesOnAlone(events, more, p) && After(more) == Alone(After(events), p, steps)
    decreases steps
  {
    if steps == 0 {
      more := events;
    } else {
      RunOn(events, Advance(p));
      var next := events + [Advance(p)];
      more := RunAlone(next, p, steps - 1);
      assert more[..|events|] == more[..|next|][..|events|];
      assert more[|events|] == more[..|next|][|events|];
    }
  }

  lemma GoesOn(events: seq<Event>, next: seq<Event>, more: seq<Event>, p: nat)
    requires GoesOnAlone(events, next, p) && GoesOnAlone(next, more, p)
    ensures GoesOnAlone(events, more, p)
  {
    assert more[..|events|] == more[..|next|][..|events|];
    forall i | |events| <= i < |more| ensures more[i] == Advance(p) {
      if i < |next| {
        assert more[i] == more[..|next|][i];
      }
    }
  }

  /** In any run, whenever the mutex is free, a drop that has begun and runs alone ends, with exactly its handle
    * gone; the deleter has run if no strong handle is left, and the block is freed if none of either kind is.
    */
  lemma DropEndsAlone(events: seq<Event>, p: nat) returns (more: seq<Event>)
    requires var s := After(events);
             s.mutex.None? && p in s.ops && s.ops[p].step == Acquire && s.ops[p].task.Drop?
    ensures GoesOnAlone(events, more, p) && Dropped(After(events), After(more), p, After(events).ops[p].task)
  {
    InitialInvariant();
    AlwaysInvariant(INITIAL, events);
    var s := After(events);
    var first := DropTaken(s, p);
    var next := RunAlone(events, p, first);
    var second, t := DropFinishes(s, After(next), p, s.ops[p].task);
    more := RunAlone(next, p, second);
    GoesOn(events, next, more, p);
  }

  /** The same of a copy or `lock()`: it ends with exactly one new handle, or is refused. */
  lemma MakeEndsAlone(events: seq<Event>, p: nat) returns (more: seq<Event>)
    requires var s := After(events);
             s.mutex.None? && p in s.ops && s.ops[p].step == Acquire && s.ops[p].task.Make?
    ensures GoesOnAlone(events, more, p) && Made(After(events), After(more), p, After(events).ops[p].task)
  {
    InitialInvariant();
    AlwaysInvariant(INITIAL, events);
    var s := After(events);
    if MustCheck(s.ops[p].task) && s.strong == {} {
      var steps := MakeRefused(s, p);
      more := RunAlone(events, p, steps);
    } else {
      var first := MakeAdmitted(s, p);
      var next := RunAlone(events, p, first);
      AlwaysInvariant(INITIAL, next);
      var second := MakeSettles(s, After(next), p);
      more := RunAlone(next, p, second);
      GoesOn(events, next, more, p);
    }
  }

  /** In any run, whenever the mutex is free, a handle that nobody is working with can be dropped: the run can
    * be continued to one in which exactly that handle is gone, the deleter has run if it was the last strong
    * one, and the block is freed if it was the last of all.
    */
  lemma DropCompletes(events: seq<Event>, p: nat, h: nat, kind: Kind) returns (more: seq<Event>)
    requires var s := After(events);
             && s.mutex == None && p !in s.ops && h in (if kind == Strong then s.strong else s.weak)
             && forall q :: q in s.ops ==> Subject(s.ops[q].task) != h
    ensures |events| <= |more| && more[..|events|] == events
    ensures var s, t := After(events), After(more);
            && t.ops == s.ops && t.mutex == None
            && t.strong == (if kind == Strong then s.strong - {h} else s.strong)
            && t.weak == (if kind == Strong then s.weak else s.weak - {h})
            && (t.deleterRuns == 1 <==> t.strong == {})
            && (t.timesFreed == 1 <==> t.strong == {} && t.weak == {})
  {
    InitialInvariant();
    AlwaysInvariant(INITIAL, events);
    var s := After(events);
    assert Untouched(s, h);
    var task := Drop(h, kind);
    RunOn(events, Begin(p, task));
    var begun := events + [Begin(p, task)];
    var u := After(begun);
    assert u == s.(ops := s.ops[p := Operation(task, Acquire, 0)]);
    AlwaysInvariant(INITIAL, begun);
    more := DropEndsAlone(begun, p);
    assert more[..|events|] == more[..|begun|][..|events|];
    assert u.ops - {p} == s.ops;
    AlwaysInvariant(INITIAL, more);
  }

  /** In any run, whenever the mutex is free, a handle that nobody is dropping can be copied, or locked while a
    * strong one is left: the run can be continued to one with exactly one handle more.
    */
  lemma MakeCompletes(events: seq<Event>, p: nat, from: nat, kind: Kind, to: Kind) returns (more: seq<Event>)
    requires var s := After(events);
             && s.mutex == None && p !in s.ops && from in (if kind == Strong then s.strong else s.weak)
             && (forall q :: q in s.ops ==> !(s.ops[q].task.Drop? && s.ops[q].task.handle == from))
    ensures |events| <= |more| && more[..|events|] == events
    ensures var s, t := After(events), After(more);
            var refused, n := kind == Weak && to == Strong && s.strong == {}, s.nextHandle;
            && t.ops == s.ops && t.mutex == None && n !in s.strong && n !in s.weak
            && t.strong == (if to == Strong && !refused then s.strong + {n} else s.strong)
            && t.weak == (if to == Weak then s.weak + {n} else s.weak)
            && t.deleterRuns == s.deleterRuns && t.timesFreed == s.timesFreed
  {
    InitialInvariant();
    AlwaysInvariant(INITIAL, events);
    var s := After(events);
    assert NotDropped(s, from);
    NewHandleIsNew(s);
    var task := Make(from, kind, to);
    RunOn(events, Begin(p, task));
    var begun := events + [Begin(p, task)];
    var u := After(begun);
    assert u == s.(ops := s.ops[p := Operation(task, Acquire, 0)]);
    AlwaysInvariant(INITIAL, begun);
    more := MakeEndsAlone(begun, p);
    assert more[..|events|] == more[..|begun|][..|events|];
    assert u.ops - {p} == s.ops;
  }
}
