/** Who is granted which lock, and that a process nobody stands in the way of gets in and out. */
module StartUpProgress {
  import opened Basics
  import opened StartUp
  import opened StartUpInvariant
  import opened StartUpTheorems

  // ---------------------------------------------------------------- who is granted a lock

  ghost predicate HoldsExclusive(s: State, p: nat) {
    p in s.procs && LockOf(s.procs[p].phase, Attempt).Some?
  }

  ghost predicate HoldsShared(s: State, p: nat) {
    p in s.procs && LockOf(s.procs[p].phase, Lifetime).Some?
  }

  lemma SharedGranted(s: State, p: nat)
    requires TableAgrees(s)
    ensures MayLockShared(s.locks, OpenFile(p, Lifetime)) <==> !exists q :: HoldsExclusive(s, q)
  {
    if q :| HoldsExclusive(s, q) {
      assert Held(s, OpenFile(q, Attempt)).Some?;
    }
    forall o | o in s.locks && s.locks[o] == Exclusive
      ensures HoldsExclusive(s, o.pid)
    {
      assert Held(s, o) == Some(Exclusive);
    }
  }

  lemma ExclusiveGranted(s: State, p: nat)
    requires TableAgrees(s) && !HoldsExclusive(s, p)
    ensures MayLockExclusive(s.locks, OpenFile(p, Attempt)) <==>
            !exists q :: HoldsExclusive(s, q) || HoldsShared(s, q)
  {
    if q :| HoldsExclusive(s, q) || HoldsShared(s, q) {
      var o := OpenFile(q, if HoldsShared(s, q) then Lifetime else Attempt);
      assert Held(s, o).Some?;
    }
    forall o | o in s.locks
      ensures HoldsExclusive(s, o.pid) || HoldsShared(s, o.pid)
    {
      assert Held(s, o).Some?;
    }
  }

  ghost function Goes(events: seq<Event>, p: nat, hint: int): seq<Event> {
    events + [Event(p, Go(hint))]
  }

  lemma AfterGoes(events: seq<Event>, p: nat, hint: int)
    ensures After(Goes(events, p, hint)) == Step(After(events), Event(p, Go(hint)))
  {
    assert Goes(events, p, hint)[..|events|] == events;
  }

  /** In every run: an attempt at the shared lock succeeds exactly when nobody builds the segment or removes its
    * name at that time; any number of processes may hold the shared lock already.
    */
  lemma SharedGrantIff(events: seq<Event>, p: nat, hint: int)
    requires p in After(events).procs && After(events).procs[p].phase == TryShared
    ensures var s, t := After(events), After(Goes(events, p, hint));
            && p in t.procs
            && t.procs[p].phase == (if exists q :: HoldsExclusive(s, q) then Waiting else Opening)
            && OthersSame(s, t, p) && t.name == s.name && t.segments == s.segments
  {
    AlwaysInvariant(events);
    AfterGoes(events, p, hint);
    SharedGranted(After(events), p);
  }

  /** In every run: an attempt at the exclusive lock, to build or to remove the name, succeeds exactly when no
    * process holds any lock.
    */
  lemma ExclusiveGrantIff(events: seq<Event>, p: nat, hint: int)
    requires p in After(events).procs
    requires After(events).procs[p].phase == TryExclusive || After(events).procs[p].phase == Leaving
    ensures var s, t := After(events), After(Goes(events, p, hint));
            var refused := exists q :: HoldsExclusive(s, q) || HoldsShared(s, q);
            && p in t.procs
            && (s.procs[p].phase == TryExclusive ==> t.procs[p].phase == if refused then TryShared else Creating)
            && (s.procs[p].phase == Leaving ==> t.procs[p].phase == if refused then Gone else Unlinking)
            && OthersSame(s, t, p) && t.name == s.name && t.segments == s.segments
  {
    AlwaysInvariant(events);
    AfterGoes(events, p, hint);
    ExclusiveGranted(After(events), p);
  }

  // ---------------------------------------------------------------- getting in

  ghost predicate NameReady(s: State) {
    s.name.Some? && s.name.value in s.segments && s.segments[s.name.value].status == Ready
  }

  predicate SettingUp(phase: Phase) {
    match phase
    case Leaving | Unlinking | Unlinked | Gone => false
    case _ => true
  }

  /** Nobody else holds the exclusive lock, and others hold the shared one only on a segment that is ready. */
  ghost predicate Unhindered(s: State, p: nat) {
    forall q :: q != p ==> !HoldsExclusive(s, q) && (HoldsShared(s, q) ==> NameReady(s))
  }

  ghost predicate OthersShare(s: State, p: nat) {
    exists q :: q != p && HoldsShared(s, q)
  }

  /** Steps a whole turn of the set-up loop takes: joining those who share the segment, or building it. */
  ghost function Turn(s: State, p: nat): nat {
    if OthersShare(s, p) then 4 else 9
  }

  /** Steps until the process is in use when it runs alone. */
  ghost function StepsIn(s: State, p: nat): nat
    requires p in s.procs && SettingUp(s.procs[p].phase)
  {
    var missing := if NameReady(s) then 0 else if s.name.None? then Turn(s, p) else Turn(s, p) + 2;
    match s.procs[p].phase
    case TryExclusive => Turn(s, p)
    case Creating => 8
    case Created => 7
    case HeaderBuilt => 6
    case HintStored => 5
    case ReadyStored => 4
    case Waiting => if NameReady(s) then 4 else missing + 4
    case TryShared => if NameReady(s) then 3 else missing + 3
    case Opening => if NameReady(s) then 2 else missing + 2
    case Opened => if NameReady(s) then 1 else Turn(s, p) + 3
    case BadStatus => Turn(s, p) + 2
    case OpenFailed => Turn(s, p) + 1
    case InUse => 0
  }

  lemma SameHolders(s: State, t: State, p: nat)
    requires OthersSame(s, t, p)
    ensures forall q :: q != p ==> HoldsExclusive(t, q) == HoldsExclusive(s, q) && HoldsShared(t, q) == HoldsShared(s, q)
    ensures OthersShare(t, p) == OthersShare(s, p)
  {
  }

  lemma StaysUnhindered(s: State, p: nat, hint: int)
    requires Invariant(s) && p in s.procs && SettingUp(s.procs[p].phase) && Unhindered(s, p)
    ensures OthersSame(s, Advance(s, p, hint), p) && Unhindered(Advance(s, p, hint), p)
  {
    var t := Advance(s, p, hint);
    forall q | q != p ensures (q in t.procs <==> q in s.procs) && (q in t.procs ==> t.procs[q] == s.procs[q]) {
      OthersUnmoved(s, p, hint, q);
    }
    SameHolders(s, t, p);
    forall q | q != p && HoldsShared(t, q) ensures NameReady(t) {
      if HoldsExclusive(s, p) {
        ExclusiveAlone(s, p, q);
      } else {
        KeepsSegments(s, p, hint);
      }
    }
  }

  lemma KeepsSegments(s: State, p: nat, hint: int)
    requires p in s.procs && SettingUp(s.procs[p].phase) && !HoldsExclusive(s, p)
    ensures Advance(s, p, hint).segments == s.segments && Advance(s, p, hint).name == s.name
  {
    match s.procs[p].phase
    case TryExclusive | TryShared | Waiting =>
    case Opening | Opened | BadStatus | OpenFailed | InUse =>
  }

  lemma BuildingCloser(s: State, p: nat, hint: int)
    requires Invariant(s) && HoldsExclusive(s, p) && SettingUp(s.procs[p].phase)
    ensures var t := Advance(s, p, hint);
            p in t.procs && SettingUp(t.procs[p].phase) && StepsIn(t, p) + 1 == StepsIn(s, p)
  {
    assert ProcessFine(s, s.procs[p]);
    match s.procs[p].phase
    case Creating =>
    case Created | HeaderBuilt | HintStored =>
    case ReadyStored =>
  }

  lemma EnteringCloser(s: State, p: nat, hint: int)
    requires Invariant(s) && p in s.procs && Unhindered(s, p) && s.procs[p].phase == TryExclusive
    requires OthersSame(s, Advance(s, p, hint), p)
    ensures var t := Advance(s, p, hint);
            p in t.procs && SettingUp(t.procs[p].phase) && StepsIn(t, p) + 1 == StepsIn(s, p)
  {
    SameHolders(s, Advance(s, p, hint), p);
    ExclusiveGranted(s, p);
    assert MayLockExclusive(s.locks, OpenFile(p, Attempt)) <==> !OthersShare(s, p);
  }

  lemma SharingCloser(s: State, p: nat, hint: int)
    requires Invariant(s) && p in s.procs && Unhindered(s, p)
    requires s.procs[p].phase == TryShared || s.procs[p].phase == Waiting
    requires OthersSame(s, Advance(s, p, hint), p)
    ensures var t := Advance(s, p, hint);
            p in t.procs && SettingUp(t.procs[p].phase) && StepsIn(t, p) + 1 == StepsIn(s, p)
  {
    SameHolders(s, Advance(s, p, hint), p);
    if s.procs[p].phase == TryShared {
      SharedGranted(s, p);
      assert MayLockShared(s.locks, OpenFile(p, Lifetime));
    }
  }

  lemma OpeningCloser(s: State, p: nat, hint: int)
    requires Invariant(s) && p in s.procs && HoldsShared(s, p) && s.procs[p].phase != InUse
    requires OthersSame(s, Advance(s, p, hint), p)
    ensures var t := Advance(s, p, hint);
            p in t.procs && SettingUp(t.procs[p].phase) && StepsIn(t, p) + 1 == StepsIn(s, p)
  {
    assert ProcessFine(s, s.procs[p]);
    SameHolders(s, Advance(s, p, hint), p);
    match s.procs[p].phase
    case Opening =>
    case Opened =>
    case BadStatus | OpenFailed =>
  }

  /** Each step that a process takes unhindered brings it one step closer to using the segment. */
  lemma OneStepCloser(s: State, p: nat, hint: int)
    requires Invariant(s) && p in s.procs && SettingUp(s.procs[p].phase) && Unhindered(s, p)
    requires s.procs[p].phase != InUse
    ensures var t := Advance(s, p, hint);
            p in t.procs && SettingUp(t.procs[p].phase) && StepsIn(t, p) + 1 == StepsIn(s, p)
  {
    StaysUnhindered(s, p, hint);
    if HoldsExclusive(s, p) {
      BuildingCloser(s, p, hint);
    } else if HoldsShared(s, p) {
      OpeningCloser(s, p, hint);
    } else if s.procs[p].phase == TryExclusive {
      EnteringCloser(s, p, hint);
    } else {
      SharingCloser(s, p, hint);
    }
  }

  /** The process is n steps away from using the segment. */
  ghost predicate Away(s: State, p: nat, n: int) {
    && Invariant(s) && p in s.procs && SettingUp(s.procs[p].phase) && Unhindered(s, p)
    && StepsIn(s, p) == n
  }

  lemma Nearer(s: State, p: nat, hint: int, n: int)
    requires Away(s, p, n) && n > 0
    ensures Away(Step(s, Event(p, Go(hint))), p, n - 1)
    ensures OthersSame(s, Step(s, Event(p, Go(hint))), p)
  {
    AdvanceKeeps(s, p, hint);
    StaysUnhindered(s, p, hint);
    OneStepCloser(s, p, hint);
  }

  /** A run of p alone has led from s to t, n steps away from using the segment. */
  ghost predicate Come(s: State, t: State, p: nat, n: int) {
    Away(t, p, n) && OthersSame(s, t, p)
  }

  lemma ComesOn(s: State, t: State, p: nat, hint: int, n: int)
    requires Come(s, t, p, n) && n > 0
    ensures Come(s, Step(t, Event(p, Go(hint))), p, n - 1)
  {
    Nearer(t, p, hint, n);
  }

  lemma {:induction false} OnTheWay(s: State, p: nat, hint: int, n: int, k: nat)
    requires Come(s, s, p, n) && k <= n
    ensures Come(s, Solo(s, p, hint, k), p, n - k)
  {
    if k > 0 {
      OnTheWay(s, p, hint, n, k - 1);
      ComesOn(s, Solo(s, p, hint, k - 1), p, hint, n - (k - 1));
    }
  }

  lemma ZeroStepsLeft(s: State, p: nat)
    requires p in s.procs && SettingUp(s.procs[p].phase) && StepsIn(s, p) == 0
    ensures Using(s, p)
  {
  }

  /** The set-up loop ends: from every reachable state in which nobody else holds the exclusive lock, and others
    * share only a segment that is ready, a process that is anywhere in the set-up and runs alone is in use after
    * at most fifteen steps, whatever crashed before. Nobody else moves.
    */
  lemma GetsIn(events: seq<Event>, p: nat, hint: int)
    requires var s := After(events); p in s.procs && SettingUp(s.procs[p].phase) && Unhindered(s, p)
    ensures var s := After(events);
            && StepsIn(s, p) <= 15
            && Using(Solo(s, p, hint, StepsIn(s, p)), p)
            && OthersSame(s, Solo(s, p, hint, StepsIn(s, p)), p)
  {
    AlwaysInvariant(events);
    var s := After(events);
    OnTheWay(s, p, hint, StepsIn(s, p), StepsIn(s, p));
    ZeroStepsLeft(Solo(s, p, hint, StepsIn(s, p)), p);
    if OthersShare(s, p) {
      var q :| q != p && HoldsShared(s, q);
    }
  }

  lemma NobodyHinders(s: State, p: nat, q: nat)
    requires Invariant(s) && Using(s, q)
    ensures Unhindered(s, p) && NameReady(s) && (p != q ==> OthersShare(s, p))
  {
    assert ProcessFine(s, s.procs[q]);
    forall r | r != p ensures !HoldsExclusive(s, r) {
      if HoldsExclusive(s, r) {
        ExclusiveAlone(s, r, q);
      }
    }
    assert HoldsShared(s, q);
  }

  /** The segment is shared: while q uses it, a process anywhere in the set-up that runs alone joins q on the
    * same mapping within six steps, four from the top of the loop. Nobody else moves, and the name stays.
    */
  lemma Joins(events: seq<Event>, p: nat, q: nat, hint: int) returns (n: nat)
    requires Using(After(events), q) && p in After(events).procs && SettingUp(After(events).procs[p].phase)
    ensures var s := After(events);
            var t := Solo(s, p, hint, n);
            && Using(t, p) && t.procs[p].used == s.procs[q].used
            && OthersSame(s, t, p) && t.name == s.name
            && n <= 6
            && (s.procs[p].phase == TryExclusive ==> n == 4)
            && (s.procs[p].phase == TryShared ==> n == 3)
  {
    AlwaysInvariant(events);
    var s := After(events);
    NobodyHinders(s, p, q);
    n := StepsIn(s, p);
    if HoldsExclusive(s, p) {
      ExclusiveAlone(s, p, q);
    }
    OnTheWay(s, p, hint, n, n);
    var t := Solo(s, p, hint, n);
    ZeroStepsLeft(t, p);
    assert ProcessFine(s, s.procs[q]) && ProcessFine(t, t.procs[p]) && ProcessFine(t, t.procs[q]);
  }

  /** A process that enters while q uses the segment joins it in five steps. */
  lemma NewcomerJoins(events: seq<Event>, p: nat, q: nat, hint: int)
    requires Using(After(events), q) && p !in After(events).procs
    ensures var s := After(events);
            var t := Solo(After(Goes(events, p, hint)), p, hint, 4);
            && Using(t, p) && t.procs[p].used == s.procs[q].used
            && q in t.procs && t.procs[q] == s.procs[q] && t.name == s.name
  {
    AfterGoes(events, p, hint);
    var n := Joins(Goes(events, p, hint), p, q, hint);
  }

  // ---------------------------------------------------------------- getting out

  lemma LeaverGranted(s: State, p: nat)
    requires TableAgrees(s) && !HoldsShared(s, p) && forall q :: !HoldsExclusive(s, q)
    ensures MayLockExclusive(s.locks, OpenFile(p, Attempt)) <==> !OthersShare(s, p)
  {
    ExclusiveGranted(s, p);
  }

  /** p has let go of its shared lock in state s and is about to look whether it was the last. */
  ghost predicate LeftOff(s: State, t: State, p: nat) {
    && p in s.procs && t == Moved(s, p, Leaving).(locks := t.locks)
    && (MayLockExclusive(t.locks, OpenFile(p, Attempt)) <==> !OthersShare(s, p))
  }

  lemma StartsLeaving(s: State, p: nat, hint: int)
    requires Invariant(s) && Using(s, p)
    ensures LeftOff(s, Advance(s, p, hint), p)
  {
    var t := Advance(s, p, hint);
    AdvanceKeeps(s, p, hint);
    assert OthersSame(s, t, p);
    SameHolders(s, t, p);
    NobodyHinders(s, p, p);
    LeaverGranted(t, p);
  }

  lemma FirstTwoSteps(s: State, p: nat, hint: int)
    requires Invariant(s) && Using(s, p)
    ensures var t := Solo(s, p, hint, 2);
            t.procs == Moved(s, p, if OthersShare(s, p) then Gone else Unlinking).procs
            && t.name == s.name && t.segments == s.segments
  {
    StartsLeaving(s, p, hint);
    var s1 := Solo(s, p, hint, 1);
    assert Solo(s, p, hint, 0) == s;
    assert LeftOff(s, s1, p);
    assert Solo(s, p, hint, 2) == LockExclusive(s1, p, Unlinking, Gone);
  }

  lemma LastTwoSteps(s: State, p: nat, hint: int, k: nat)
    requires p in Solo(s, p, hint, k).procs && Solo(s, p, hint, k).procs[p].phase == Unlinking
    ensures var t, u := Solo(s, p, hint, k), Solo(s, p, hint, k + 2);
            p in u.procs && u.procs[p].phase == Gone && u.name == None && OthersSame(t, u, p)
  {
    var t := Solo(s, p, hint, k);
    assert Solo(s, p, hint, k + 1) == Moved(t, p, Unlinked).(name := None);
    assert Solo(s, p, hint, k + 2) == Left(Moved(t, p, Unlinked).(name := None), p);
  }

  /** The last process to leave, running alone, removes the name; whoever leaves while another shares the segment
    * leaves name and segments as they are.
    */
  lemma LeavesAlone(events: seq<Event>, p: nat, hint: int)
    requires Using(After(events), p)
    ensures var s := After(events);
            var t := Solo(s, p, hint, if OthersShare(s, p) then 2 else 4);
            && p in t.procs && t.procs[p].phase == Gone && OthersSame(s, t, p)
            && (if OthersShare(s, p) then t.name == s.name && t.segments == s.segments else t.name == None)
  {
    AlwaysInvariant(events);
    FirstTwoSteps(After(events), p, hint);
    if !OthersShare(After(events), p) {
      LastTwoSteps(After(events), p, hint, 2);
    }
  }

  /** A process whose wait times out is gone, and nothing else changes. */
  lemma GivesUp(events: seq<Event>, p: nat)
    requires p in After(events).procs && After(events).procs[p].phase == Waiting
    ensures var s, t := After(events), After(events + [Event(p, Timeout)]);
            && p in t.procs && t.procs[p] == Process(Gone, None, None)
            && OthersSame(s, t, p) && t.name == s.name && t.segments == s.segments
  {
    assert (events + [Event(p, Timeout)])[..|events|] == events;
  }

  lemma NoHolderNoLock(s: State)
    requires TableAgrees(s) && forall q :: !HoldsExclusive(s, q) && !HoldsShared(s, q)
    ensures s.locks == map[]
  {
    forall o ensures o !in s.locks {
      assert !HoldsExclusive(s, o.pid) && !HoldsShared(s, o.pid);
      assert Held(s, o).None?;
    }
  }

  lemma CrashLetsGo(s: State, r: nat)
    requires Invariant(s) && HoldsExclusive(s, r)
    ensures Left(s, r).locks == map[]
  {
    var t := Left(s, r);
    LeftKeeps(s, r);
    forall q ensures !HoldsExclusive(t, q) && !HoldsShared(t, q) {
      if q in s.procs && q != r {
        ExclusiveAlone(s, r, q);
      }
    }
    NoHolderNoLock(t);
  }

  /** A crash under the exclusive lock, wherever in building or removing it strikes, hinders nobody: a process at
    * the top of the set-up loop that runs alone afterwards builds the segment anew and uses it, with its own
    * hint.
    */
  lemma BuilderCrashRecovered(events: seq<Event>, r: nat, p: nat, hint: int)
    requires HoldsExclusive(After(events), r)
    requires p in After(events).procs && After(events).procs[p].phase == TryExclusive
    ensures var s := After(events + [Event(r, Crash)]);
            var t := Solo(s, p, hint, 9);
            && Using(t, p) && t.generation == s.generation + 1
            && Current(t, t.procs[p].used)
            && t.segments[t.procs[p].used.value.segment] == Segment(t.generation, Ready, hint)
  {
    AlwaysInvariant(events);
    var crashed := events + [Event(r, Crash)];
    assert crashed[..|events|] == events;
    CrashLetsGo(After(events), r);
    CrashRecovery(crashed, p, hint);
  }
}
