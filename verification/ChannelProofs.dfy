/** Order, conservation, mutual exclusion and wake-ups of the message channels over all runs. */
module ChannelProofs {
  import opened Basics
  import opened Channels

  // ---------------------------------------------------------------- every step keeps the invariant

  lemma OnAppend<M>(log: seq<Record<M>>, r: Record<M>, ch: nat)
    ensures On(log + [r], ch) == On(log, ch) + if r.ch == ch then [r.message] else []
  {
    assert (log + [r])[..|log|] == log;
  }

  /** A step of p that leaves the queues, the records and every other call as they are. */
  lemma OwnStepKeeps<M>(s: State<M>, t: State<M>, p: nat)
    requires Invariant(s) && p in s.calls && p in t.calls
    requires t == s.(calls := s.calls[p := t.calls[p]], mutex := t.mutex)
    requires if HoldsMutex(s.calls[p].step) then t.mutex.None? || t.mutex == Some(p)
             else t.mutex == s.mutex || (s.mutex.None? && t.mutex == Some(p))
    requires CallFine(t, p, t.calls[p])
    requires Owes(s, p, s.calls[p].call.ch) ==> Owes(t, p, s.calls[p].call.ch)
    requires t.calls[p].step == Wait ==> s.queues[t.calls[p].call.ch] == []
    ensures Invariant(t)
  {
    assert CallFine(s, p, s.calls[p]);
    forall q | q in t.calls ensures CallFine(t, q, t.calls[q]) {
      if q != p {
        assert CallFine(s, q, s.calls[q]);
      }
    }
    forall ch | WakeUpDue(s, ch) ensures WakeUpDue(t, ch) {
      var q :| Owes(s, q, ch);
      assert Owes(t, q, ch);
    }
    forall ch {:trigger t.queues[ch]} | 0 <= ch < |t.queues|
      ensures On(t.sent, ch) == On(t.received, ch) + t.queues[ch]
    {
      assert s.queues[ch] == t.queues[ch];
    }
  }

  /** While p holds the mutex, what the other calls know does not depend on the queues. */
  lemma OthersKnowNothing<M>(s: State<M>, t: State<M>, p: nat, q: nat)
    requires CallsFine(s) && p in s.calls && HoldsMutex(s.calls[p].step)
    requires q in s.calls && q != p && |t.queues| == |s.queues| && (t.mutex == s.mutex || t.mutex.None?)
    ensures CallFine(t, q, s.calls[q])
  {
    assert CallFine(s, p, s.calls[p]) && CallFine(s, q, s.calls[q]);
  }

  /** A step of p that owes a wake-up at least as long as it did and puts nobody to sleep. */
  lemma WakeUpsKept<M>(s: State<M>, t: State<M>, p: nat)
    requires NoLostWakeUp(s) && p in s.calls && p in t.calls && t.calls == s.calls[p := t.calls[p]]
    requires |t.queues| == |s.queues| && t.calls[p].step != Wait
    requires Owes(s, p, s.calls[p].call.ch) ==> Owes(t, p, s.calls[p].call.ch)
    requires forall ch {:trigger t.queues[ch]} :: 0 <= ch < |t.queues| && s.queues[ch] == [] ==>
               t.queues[ch] == [] || Owes(t, p, ch)
    ensures NoLostWakeUp(t)
  {
    forall q | q in t.calls && t.calls[q].step == Wait
      ensures t.calls[q].call.ch < |t.queues|
      ensures t.queues[t.calls[q].call.ch] == [] || WakeUpDue(t, t.calls[q].call.ch)
    {
      var ch := t.calls[q].call.ch;
      if r :| Owes(s, r, ch) {
        assert Owes(t, r, ch);
      }
    }
  }

  lemma PushKeeps<M>(s: State<M>, p: nat)
    requires Invariant(s) && p in s.calls && s.calls[p].step == Push
    requires s.calls[p].call.ch < |s.queues|
    ensures Invariant(Progress(s, p))
  {
    var t := Progress(s, p);
    var call := s.calls[p].call;
    assert CallFine(s, p, s.calls[p]);
    forall q | q in t.calls ensures CallFine(t, q, t.calls[q]) {
      if q != p {
        OthersKnowNothing(s, t, p, q);
      }
    }
    forall ch {:trigger t.queues[ch]} | 0 <= ch < |t.queues|
      ensures On(t.sent, ch) == On(t.received, ch) + t.queues[ch]
    {
      assert On(s.sent, ch) == On(s.received, ch) + s.queues[ch];
      OnAppend(s.sent, Record(p, call.ch, call.message), ch);
    }
    assert Owes(t, p, call.ch);
    WakeUpsKept(s, t, p);
  }

  lemma PopConserves<M>(s: State<M>, p: nat, ch: nat)
    requires p in s.calls && s.calls[p].step == Pop && s.calls[p].call.ch < |s.queues| && ch < |s.queues|
    requires CallFine(s, p, s.calls[p])
    requires On(s.sent, ch) == On(s.received, ch) + s.queues[ch]
    ensures On(Progress(s, p).sent, ch) == On(Progress(s, p).received, ch) + Progress(s, p).queues[ch]
  {
    var a := s.calls[p];
    OnAppend(s.received, Record(p, a.call.ch, a.answer.value), ch);
    if ch == a.call.ch {
      assert s.queues[ch] == [a.answer.value] + s.queues[ch][1..];
    }
  }

  lemma PopKeeps<M>(s: State<M>, p: nat)
    requires Invariant(s) && p in s.calls && s.calls[p].step == Pop
    requires s.calls[p].call.ch < |s.queues|
    ensures Invariant(Progress(s, p))
  {
    var t := Progress(s, p);
    assert CallFine(s, p, s.calls[p]);
    forall q | q in t.calls ensures CallFine(t, q, t.calls[q]) {
      if q != p {
        OthersKnowNothing(s, t, p, q);
      }
    }
    forall ch {:trigger t.queues[ch]} | 0 <= ch < |t.queues|
      ensures On(t.sent, ch) == On(t.received, ch) + t.queues[ch]
    {
      assert On(s.sent, ch) == On(s.received, ch) + s.queues[ch];
      PopConserves(s, p, ch);
    }
    WakeUpsKept(s, t, p);
  }

  lemma NotifyKeeps<M>(s: State<M>, p: nat)
    requires Invariant(s) && p in s.calls && s.calls[p].step == Notify
    requires s.calls[p].call.ch < |s.queues|
    ensures Invariant(Progress(s, p))
  {
    var t := Progress(s, p);
    assert CallFine(s, p, s.calls[p]);
    forall q | q in t.calls ensures CallFine(t, q, t.calls[q]) {
      assert CallFine(s, q, s.calls[q]);
    }
    forall ch {:trigger t.queues[ch]} | 0 <= ch < |t.queues|
      ensures On(t.sent, ch) == On(t.received, ch) + t.queues[ch]
    {
      assert s.queues[ch] == t.queues[ch];
    }
  }

  lemma LeaveKeeps<M>(s: State<M>, p: nat)
    requires Invariant(s) && p in s.calls && s.calls[p].step == Leave
    requires s.calls[p].call.ch < |s.queues|
    ensures Invariant(Progress(s, p))
  {
    var t := Progress(s, p);
    assert CallFine(s, p, s.calls[p]);
    forall q | q in t.calls ensures CallFine(t, q, t.calls[q]) {
      assert CallFine(s, q, s.calls[q]);
    }
    forall ch {:trigger t.queues[ch]} | 0 <= ch < |t.queues|
      ensures On(t.sent, ch) == On(t.received, ch) + t.queues[ch]
    {
      assert s.queues[ch] == t.queues[ch];
    }
    forall ch | WakeUpDue(s, ch) ensures WakeUpDue(t, ch) {
      var q :| Owes(s, q, ch);
      assert Owes(t, q, ch);
    }
  }

  lemma ProgressKeeps<M>(s: State<M>, p: nat)
    requires Invariant(s) && p in s.calls && s.calls[p].call.ch < |s.queues|
    ensures Invariant(Progress(s, p))
  {
    var a := s.calls[p];
    assert CallFine(s, p, a);
    match a.step
    case Push => PushKeeps(s, p);
    case Pop => PopKeeps(s, p);
    case Notify => NotifyKeeps(s, p);
    case Leave => LeaveKeeps(s, p);
    case Wait =>
    case Lock | Relock | Overdue =>
      if s.mutex.None? {
        OwnStepKeeps(s, Progress(s, p), p);
      }
    case Unlock | Test | Park | LastTest | Front => OwnStepKeeps(s, Progress(s, p), p);
  }

  lemma BeginKeeps<M>(s: State<M>, p: nat, call: Call<M>)
    requires Invariant(s)
    ensures Invariant(Next(s, Begin(p, call)))
  {
    var t := Next(s, Begin(p, call));
    forall q | q in t.calls ensures CallFine(t, q, t.calls[q]) {
      if q in s.calls {
        assert CallFine(s, q, s.calls[q]);
      }
    }
    forall ch {:trigger t.queues[ch]} | 0 <= ch < |t.queues|
      ensures On(t.sent, ch) == On(t.received, ch) + t.queues[ch]
    {
      assert s.queues[ch] == t.queues[ch];
    }
    forall ch | WakeUpDue(s, ch) ensures WakeUpDue(t, ch) {
      var q :| Owes(s, q, ch);
      assert Owes(t, q, ch);
    }
  }

  lemma NextKeeps<M>(s: State<M>, e: Event<M>)
    requires Invariant(s)
    ensures Invariant(Next(s, e))
  {
    match e
    case Begin(p, call) => BeginKeeps(s, p, call);
    case Advance(p) =>
      if p in s.calls && s.calls[p].call.ch < |s.queues| {
        ProgressKeeps(s, p);
      }
    case WakeSpuriously(p) =>
      if p in s.calls && s.calls[p].step == Wait {
        assert CallFine(s, p, s.calls[p]);
        OwnStepKeeps(s, Next(s, e), p);
      }
    case TimeOut(p) =>
      if p in s.calls && s.calls[p].step == Wait && s.calls[p].call.TryReceiveUntil? {
        assert CallFine(s, p, s.calls[p]);
        OwnStepKeeps(s, Next(s, e), p);
      }
  }

  lemma {:induction false} AlwaysInvariant<M>(channels: nat, events: seq<Event<M>>)
    ensures Invariant(From(Initial<M>(channels), events))
  {
    if events != [] {
      AlwaysInvariant<M>(channels, events[..|events| - 1]);
      NextKeeps(From(Initial<M>(channels), events[..|events| - 1]), events[|events| - 1]);
    }
  }

  // ---------------------------------------------------------------- what holds in every run

  /** First in, first out, nothing lost, nothing received twice. */
  lemma FifoAndConservation<M>(channels: nat, events: seq<Event<M>>, ch: nat)
    requires ch < channels
    ensures var s := From(Initial<M>(channels), events);
            On(s.sent, ch) == On(s.received, ch) + s.queues[ch]
  {
    AlwaysInvariant<M>(channels, events);
  }

  /** No call reads the front of an empty queue or pops one, and what it answers is what it took off. */
  lemma NeverPopsEmpty<M>(channels: nat, events: seq<Event<M>>, p: nat)
    requires p in From(Initial<M>(channels), events).calls
    ensures var s := From(Initial<M>(channels), events);
            var a := s.calls[p];
            && a.call.ch < channels
            && (a.step == Front || a.step == Pop ==> s.queues[a.call.ch] != [])
            && (a.step == Pop ==> a.answer == Some(s.queues[a.call.ch][0]))
            && (a.step == Leave && a.answer.Some? ==>
                  s.received != [] && s.received[|s.received| - 1] == Record(p, a.call.ch, a.answer.value))
  {
    AlwaysInvariant<M>(channels, events);
    assert CallFine(From(Initial<M>(channels), events), p, From(Initial<M>(channels), events).calls[p]);
  }

  /** An empty answer is given only while the queue is empty, and never by `receive`. */
  lemma EmptyAnswer<M>(channels: nat, events: seq<Event<M>>, p: nat)
    requires p in From(Initial<M>(channels), events).calls
    requires From(Initial<M>(channels), events).calls[p].step == Leave
    requires From(Initial<M>(channels), events).calls[p].answer == None
    ensures var s := From(Initial<M>(channels), events);
            s.calls[p].call.ch < channels && s.queues[s.calls[p].call.ch] == [] && !s.calls[p].call.Receive?
  {
    AlwaysInvariant<M>(channels, events);
    assert CallFine(From(Initial<M>(channels), events), p, From(Initial<M>(channels), events).calls[p]);
  }

  /** Two processes are never both between locking and unlocking. */
  lemma MutualExclusion<M>(channels: nat, events: seq<Event<M>>, p: nat, q: nat)
    requires var s := From(Initial<M>(channels), events);
             && p in s.calls && HoldsMutex(s.calls[p].step)
             && q in s.calls && HoldsMutex(s.calls[q].step)
    ensures p == q
  {
    AlwaysInvariant<M>(channels, events);
    var s := From(Initial<M>(channels), events);
    assert CallFine(s, p, s.calls[p]) && CallFine(s, q, s.calls[q]);
  }

  /** A receiver that waits on a channel with a message has a sender of that channel about to wake it. */
  lemma WaiterIsAboutToBeWoken<M>(channels: nat, events: seq<Event<M>>, p: nat)
    requires var s := From(Initial<M>(channels), events);
             p in s.calls && s.calls[p].step == Wait
    ensures var s := From(Initial<M>(channels), events);
            && s.calls[p].call.ch < channels
            && (s.queues[s.calls[p].call.ch] != [] ==>
                  exists q :: q in s.calls && s.calls[q].call.Send? && s.calls[q].call.ch == s.calls[p].call.ch
                    && (s.calls[q].step == Unlock || s.calls[q].step == Notify))
  {
    AlwaysInvariant<M>(channels, events);
    var s := From(Initial<M>(channels), events);
    if s.queues[s.calls[p].call.ch] != [] {
      var q :| Owes(s, q, s.calls[p].call.ch);
      assert CallFine(s, q, s.calls[q]);
    }
  }

  lemma OnlyTheMutexOrAWaitStops<M>(s: State<M>, q: nat)
    requires Invariant(s) && q in s.calls && Next(s, Advance(q)) == s
    ensures !HoldsMutex(s.calls[q].step) && s.calls[q].step != Notify
    ensures s.calls[q].step == Wait || s.mutex.Some?
  {
    var a := s.calls[q];
    assert CallFine(s, q, a);
    assert a.step == Notify ==> q !in Next(s, Advance(q)).calls;
    assert a.step == Leave ==> q !in Next(s, Advance(q)).calls;
    assert Next(s, Advance(q)).calls == s.calls;
  }

  /** When no call can take a step of its own, every call waits, and waits on an empty queue. */
  lemma StuckOnlyWhenNothingToReceive<M>(channels: nat, events: seq<Event<M>>, p: nat)
    requires var s := From(Initial<M>(channels), events);
             p in s.calls && forall q :: q in s.calls ==> Next(s, Advance(q)) == s
    ensures var s := From(Initial<M>(channels), events);
            && s.calls[p].call.ch < channels && s.calls[p].step == Wait
            && s.queues[s.calls[p].call.ch] == []
  {
    AlwaysInvariant<M>(channels, events);
    var s := From(Initial<M>(channels), events);
    forall q | q in s.calls
      ensures !HoldsMutex(s.calls[q].step) && s.calls[q].step != Notify
      ensures s.calls[q].step == Wait || s.mutex.Some?
    {
      OnlyTheMutexOrAWaitStops(s, q);
    }
    assert s.mutex.None?;
    assert forall q, ch :: !Owes(s, q, ch);
  }

  // ---------------------------------------------------------------- a receiver left alone

  function Alone<M>(s: State<M>, p: nat, steps: nat): State<M> {
    if steps == 0 then s else Next(Alone(s, p, steps - 1), Advance(p))
  }

  ghost predicate AboutToReceive<M>(s: State<M>, p: nat) {
    && p in s.calls && !s.calls[p].call.Send?
    && (s.calls[p].step == Lock || s.calls[p].step == Relock || s.calls[p].step == Overdue)
    && s.calls[p].call.ch < |s.queues| && s.queues[s.calls[p].call.ch] != []
  }

  lemma LocksAndTests<M>(s: State<M>, p: nat)
    requires AboutToReceive(s, p) && s.mutex.None?
    ensures Alone(s, p, 2) == s.(mutex := Some(p), calls := s.calls[p := s.calls[p].(step := Front)])
  {
    var first := if s.calls[p].step == Overdue then LastTest else Test;
    assert Alone(s, p, 0) == s;
    assert Alone(s, p, 1) == Next(s, Advance(p));
    assert Alone(s, p, 1) == s.(mutex := Some(p), calls := s.calls[p := s.calls[p].(step := first)]);
    assert Alone(s, p, 2) == Next(Alone(s, p, 1), Advance(p));
    assert Alone(s, p, 2).calls == s.calls[p := s.calls[p].(step := Front)];
  }

  /** A process about to lock the mutex in order to receive, on a channel that holds a message, takes off
    * exactly the front of the queue when it is the next to run, whether it has just called, was woken or has
    * timed out. After four steps it has its answer, after five it has left.
    */
  lemma ServedWhenAlone<M>(s: State<M>, p: nat)
    requires AboutToReceive(s, p) && s.mutex.None?
    ensures var a := s.calls[p];
            var front := s.queues[a.call.ch][0];
            var taken := s.(queues := s.queues[a.call.ch := s.queues[a.call.ch][1..]],
                            received := s.received + [Record(p, a.call.ch, front)]);
            && Alone(s, p, 4) == taken.(mutex := Some(p),
                                        calls := s.calls[p := Activity(a.call, Leave, Some(front))])
            && Alone(s, p, 5) == taken.(calls := s.calls - {p})
  {
    var a := s.calls[p];
    var front := s.queues[a.call.ch][0];
    LocksAndTests(s, p);
    var s3 := Alone(s, p, 3);
    assert s3 == Next(Alone(s, p, 2), Advance(p));
    assert s3 == s.(mutex := Some(p), calls := s.calls[p := Activity(a.call, Pop, Some(front))]);
    var s4 := Alone(s, p, 4);
    assert s4 == Next(s3, Advance(p));
    assert s4.calls == s.calls[p := Activity(a.call, Leave, Some(front))];
    assert Alone(s, p, 5) == Next(s4, Advance(p));
    assert Alone(s, p, 5).calls == s.calls - {p};
  }
}
