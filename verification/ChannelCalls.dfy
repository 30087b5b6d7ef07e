/** What whole calls on the channels achieve: that a message sent is there to be received, once. */
module ChannelCalls {
  import opened Basics
  import opened Channels
  import opened ChannelProofs

  // ---------------------------------------------------------------- calls left alone

  lemma SenderQueues<M>(s: State<M>, p: nat)
    requires p in s.calls && s.calls[p].call.Send? && s.calls[p].step == Lock && s.mutex.None?
    requires s.calls[p].call.ch < |s.queues|
    ensures var ch, m := s.calls[p].call.ch, s.calls[p].call.message;
            Alone(s, p, 2) == s.(mutex := Some(p), calls := s.calls[p := s.calls[p].(step := Unlock)],
                                 queues := s.queues[ch := s.queues[ch] + [m]],
                                 sent := s.sent + [Record(p, ch, m)])
  {
    var a := s.calls[p];
    assert Alone(s, p, 0) == s;
    var s1 := Alone(s, p, 1);
    assert s1 == s.(mutex := Some(p), calls := s.calls[p := a.(step := Push)]);
    var s2 := Alone(s, p, 2);
    assert s2 == Next(s1, Advance(p));
    assert s2.calls == s.calls[p := a.(step := Unlock)];
  }

  lemma SenderUnlocks<M>(s: State<M>, p: nat, k: nat)
    requires var t := Alone(s, p, k);
             p in t.calls && t.calls[p].call.ch < |t.queues| && t.calls[p].step == Unlock
    ensures Alone(s, p, k + 1) == At(Alone(s, p, k), p, Notify).(mutex := None)
  {
    assert Alone(s, p, k + 1) == Next(Alone(s, p, k), Advance(p));
  }

  lemma SenderNotifies<M>(s: State<M>, p: nat, k: nat)
    requires var t := Alone(s, p, k);
             p in t.calls && t.calls[p].call.ch < |t.queues| && t.calls[p].step == Notify
    ensures Alone(s, p, k + 1) == NotifyAll(Alone(s, p, k).(calls := Alone(s, p, k).calls - {p}))
  {
    assert Alone(s, p, k + 1) == Next(Alone(s, p, k), Advance(p));
  }

  /** A sender about to lock a free mutex has after two steps put its message behind the queue of its channel
    * and nowhere else; after four its call is over and whoever waited is about to look again.
    */
  lemma SendsWhenAlone<M>(s: State<M>, p: nat)
    requires p in s.calls && s.calls[p].call.Send? && s.calls[p].step == Lock && s.mutex.None?
    requires s.calls[p].call.ch < |s.queues|
    ensures var t, ch, m := Alone(s, p, 2), s.calls[p].call.ch, s.calls[p].call.message;
            && t.queues == s.queues[ch := s.queues[ch] + [m]]
            && t.sent == s.sent + [Record(p, ch, m)] && t.received == s.received && t.mutex == Some(p)
    ensures var t, ch, m := Alone(s, p, 4), s.calls[p].call.ch, s.calls[p].call.message;
            && t.queues == s.queues[ch := s.queues[ch] + [m]]
            && t.sent == s.sent + [Record(p, ch, m)] && t.received == s.received && t.mutex == None
            && p !in t.calls
            && (forall q :: q != p ==> (q in t.calls <==> q in s.calls))
            && (forall q :: q in t.calls ==>
                  t.calls[q] == if s.calls[q].step == Wait then s.calls[q].(step := Relock) else s.calls[q])
  {
    SenderQueues(s, p);
    SenderUnlocks(s, p, 2);
    SenderNotifies(s, p, 3);
  }

  /** `try_receive` on an empty channel answers nothing and leaves everything as it was. */
  lemma NothingToTry<M>(s: State<M>, p: nat)
    requires p in s.calls && s.calls[p].call.TryReceive? && s.calls[p].step == Lock && s.mutex.None?
    requires s.calls[p].call.ch < |s.queues| && s.queues[s.calls[p].call.ch] == [] && s.calls[p].answer == None
    ensures Alone(s, p, 2) == s.(mutex := Some(p), calls := s.calls[p := Activity(s.calls[p].call, Leave, None)])
    ensures Alone(s, p, 3) == s.(calls := s.calls - {p})
  {
    var a := s.calls[p];
    assert Alone(s, p, 0) == s;
    assert Alone(s, p, 1) == s.(mutex := Some(p), calls := s.calls[p := a.(step := Test)]);
    var s2 := Alone(s, p, 2);
    assert s2 == Next(Alone(s, p, 1), Advance(p));
    assert s2.calls == s.calls[p := Activity(a.call, Leave, None)];
    assert Alone(s, p, 3) == Next(s2, Advance(p));
    assert Alone(s, p, 3).calls == s.calls - {p};
  }

  /** A blocking receive on an empty channel comes to wait, the mutex free again. */
  lemma WaitsWhenEmpty<M>(s: State<M>, p: nat)
    requires p in s.calls && (s.calls[p].call.Receive? || s.calls[p].call.TryReceiveUntil?) && s.mutex.None?
    requires s.calls[p].step == Lock || s.calls[p].step == Relock
    requires s.calls[p].call.ch < |s.queues| && s.queues[s.calls[p].call.ch] == []
    ensures Alone(s, p, 3) == s.(calls := s.calls[p := s.calls[p].(step := Wait)])
  {
    var a := s.calls[p];
    assert Alone(s, p, 0) == s;
    assert Alone(s, p, 1) == s.(mutex := Some(p), calls := s.calls[p := a.(step := Test)]);
    var s2 := Alone(s, p, 2);
    assert s2 == Next(Alone(s, p, 1), Advance(p));
    assert s2.calls == s.calls[p := a.(step := Park)];
    assert Alone(s, p, 3) == Next(s2, Advance(p));
    assert Alone(s, p, 3).calls == s.calls[p := a.(step := Wait)];
  }

  /** A receive with a deadline that passes while the channel is empty ends without an answer. */
  lemma DeadlinePasses<M>(s: State<M>, p: nat)
    requires p in s.calls && s.calls[p].call.TryReceiveUntil? && s.calls[p].step == Wait && s.mutex.None?
    requires s.calls[p].call.ch < |s.queues| && s.queues[s.calls[p].call.ch] == [] && s.calls[p].answer == None
    ensures var u := Next(s, TimeOut(p));
            && Alone(u, p, 2) == s.(mutex := Some(p), calls := s.calls[p := Activity(s.calls[p].call, Leave, None)])
            && Alone(u, p, 3) == s.(calls := s.calls - {p})
  {
    var a := s.calls[p];
    var u := Next(s, TimeOut(p));
    assert u == s.(calls := s.calls[p := a.(step := Overdue)]);
    assert Alone(u, p, 0) == u;
    var u1 := Alone(u, p, 1);
    assert u1 == Next(u, Advance(p));
    assert u1.calls == s.calls[p := a.(step := LastTest)];
    var u2 := Alone(u, p, 2);
    assert u2 == Next(u1, Advance(p));
    assert u2.calls == s.calls[p := Activity(a.call, Leave, None)];
    assert Alone(u, p, 3) == Next(u2, Advance(p));
    assert Alone(u, p, 3).calls == s.calls - {p};
  }

  // ---------------------------------------------------------------- every send, once and in order

  /** The records of one process. */
  function By<M>(log: seq<Record<M>>, p: nat): seq<Record<M>> {
    if log == [] then [] else
      var last := log[|log| - 1];
      By(log[..|log| - 1], p) + if last.pid == p then [last] else []
  }

  lemma ByAppend<M>(log: seq<Record<M>>, r: Record<M>, p: nat)
    ensures By(log + [r], p) == By(log, p) + if r.pid == p then [r] else []
  {
    assert (log + [r])[..|log|] == log;
  }

  /** What the call of p, if it is a send that has not come to the queue, is going to put there. */
  function Due<M>(s: State<M>, p: nat): seq<Record<M>> {
    if p in s.calls && s.calls[p].call.Send? && (s.calls[p].step == Lock || s.calls[p].step == Push)
    then [Record(p, s.calls[p].call.ch, s.calls[p].call.message)]
    else []
  }

  /** The send that an event begins: on a channel that exists, by a process that is in no other call. */
  function Begins<M>(s: State<M>, e: Event<M>, p: nat): seq<Record<M>> {
    if e.Begin? && e.pid == p && e.call.Send? && p !in s.calls && e.call.ch < |s.queues|
    then [Record(p, e.call.ch, e.call.message)]
    else []
  }

  /** All sends that a process has begun in a run, in order. */
  function Asked<M>(channels: nat, events: seq<Event<M>>, p: nat): seq<Record<M>> {
    if events == [] then [] else
      var before := events[..|events| - 1];
      Asked(channels, before, p) + Begins(From(Initial<M>(channels), before), events[|events| - 1], p)
  }

  /** Only a step at the queue changes what is recorded as sent or owed. */
  lemma OtherStepsOwe<M>(s: State<M>, q: nat, p: nat)
    requires q in s.calls && s.calls[q].call.ch < |s.queues| && s.calls[q].step != Push
    requires StepSuits(s.calls[q]) && (p in s.calls ==> StepSuits(s.calls[p]))
    ensures Progress(s, q).sent == s.sent && Due(Progress(s, q), p) == Due(s, p)
  {
    match s.calls[q].step
    case Lock | Unlock | Notify =>
    case Test | Park | Wait | Relock | Overdue | LastTest =>
    case Front | Pop | Leave =>
  }

  lemma PushOwes<M>(s: State<M>, q: nat, p: nat)
    requires q in s.calls && s.calls[q].call.ch < |s.queues| && s.calls[q].step == Push && s.calls[q].call.Send?
    ensures By(Progress(s, q).sent, p) + Due(Progress(s, q), p) == By(s.sent, p) + Due(s, p)
  {
    var a := s.calls[q];
    ByAppend(s.sent, Record(q, a.call.ch, a.call.message), p);
  }

  lemma ProgressOwes<M>(s: State<M>, q: nat, p: nat)
    requires CallsFine(s) && q in s.calls && s.calls[q].call.ch < |s.queues|
    ensures By(Progress(s, q).sent, p) + Due(Progress(s, q), p) == By(s.sent, p) + Due(s, p)
  {
    assert CallFine(s, q, s.calls[q]) && (p in s.calls ==> CallFine(s, p, s.calls[p]));
    if s.calls[q].step == Push {
      PushOwes(s, q, p);
    } else {
      OtherStepsOwe(s, q, p);
    }
  }

  lemma BeginOwes<M>(s: State<M>, q: nat, call: Call<M>, p: nat)
    ensures var e := Begin(q, call);
            Next(s, e).sent == s.sent && Due(Next(s, e), p) == Due(s, p) + Begins(s, e, p)
  {
  }

  lemma WakingOwes<M>(s: State<M>, e: Event<M>, p: nat)
    requires CallsFine(s) && (e.WakeSpuriously? || e.TimeOut?)
    ensures Next(s, e).sent == s.sent && Due(Next(s, e), p) == Due(s, p) && Begins(s, e, p) == []
  {
    if e.pid in s.calls {
      assert CallFine(s, e.pid, s.calls[e.pid]);
    }
  }

  lemma EventOwes<M>(s: State<M>, e: Event<M>, p: nat)
    requires Invariant(s)
    ensures By(Next(s, e).sent, p) + Due(Next(s, e), p) == By(s.sent, p) + Due(s, p) + Begins(s, e, p)
  {
    match e
    case Begin(q, call) => BeginOwes(s, q, call, p);
    case Advance(q) =>
      if q in s.calls && s.calls[q].call.ch < |s.queues| {
        ProgressOwes(s, q, p);
      }
    case WakeSpuriously(q) => WakingOwes(s, e, p);
    case TimeOut(q) => WakingOwes(s, e, p);
  }

  /** In every run, what a process has put on the queues is exactly what it asked to send, each message once,
    * on its channel and in order, up to the one it is about to put there.
    */
  lemma {:induction false} EverySendOnce<M>(channels: nat, events: seq<Event<M>>, p: nat)
    ensures var s := From(Initial<M>(channels), events);
            Asked(channels, events, p) == By(s.sent, p) + Due(s, p)
    decreases |events|
  {
    if events != [] {
      var before := events[..|events| - 1];
      EverySendOnce(channels, before, p);
      AlwaysInvariant(channels, before);
      EventOwes(From(Initial<M>(channels), before), events[|events| - 1], p);
    }
  }

  /** A send past its step at the queue has its message as the last that its process put on a queue. */
  ghost predicate JustSent<M>(s: State<M>, p: nat) {
    p in s.calls && (s.calls[p].step == Unlock || s.calls[p].step == Notify) ==>
      && s.calls[p].call.Send? && By(s.sent, p) != []
      && By(s.sent, p)[|By(s.sent, p)| - 1] == Record(p, s.calls[p].call.ch, s.calls[p].call.message)
  }

  lemma ProgressJustSent<M>(s: State<M>, q: nat, p: nat)
    requires CallsFine(s) && JustSent(s, p) && q in s.calls && s.calls[q].call.ch < |s.queues|
    ensures JustSent(Progress(s, q), p)
  {
    var a := s.calls[q];
    assert CallFine(s, q, a);
    if a.step == Push {
      ByAppend(s.sent, Record(q, a.call.ch, a.call.message), p);
    } else {
      OtherStepsSend(s, q, p);
    }
  }

  lemma OtherStepsSend<M>(s: State<M>, q: nat, p: nat)
    requires JustSent(s, p) && q in s.calls && s.calls[q].call.ch < |s.queues| && s.calls[q].step != Push
    ensures JustSent(Progress(s, q), p)
  {
    match s.calls[q].step
    case Lock | Unlock | Notify =>
    case Test | Park | Wait | Relock | Overdue | LastTest =>
    case Front | Pop | Leave =>
  }

  lemma EventJustSent<M>(s: State<M>, e: Event<M>, p: nat)
    requires CallsFine(s) && JustSent(s, p)
    ensures JustSent(Next(s, e), p)
  {
    if e.Advance? && e.pid in s.calls && s.calls[e.pid].call.ch < |s.queues| {
      ProgressJustSent(s, e.pid, p);
    }
  }

  lemma {:induction false} SentLast<M>(channels: nat, events: seq<Event<M>>, p: nat)
    ensures JustSent(From(Initial<M>(channels), events), p)
    decreases |events|
  {
    if events != [] {
      var before := events[..|events| - 1];
      SentLast(channels, before, p);
      AlwaysInvariant(channels, before);
      EventJustSent(From(Initial<M>(channels), before), events[|events| - 1], p);
    }
  }

  /** In every run, a send that has unlocked or is about to has its message on record, as the last of its
    * process, and everything its process asked to send is.
    */
  lemma SentWhenUnlocking<M>(channels: nat, events: seq<Event<M>>, p: nat)
    requires var s := From(Initial<M>(channels), events);
             p in s.calls && (s.calls[p].step == Unlock || s.calls[p].step == Notify)
    ensures var s := From(Initial<M>(channels), events);
            var mine, call := By(s.sent, p), s.calls[p].call;
            && call.Send? && mine == Asked(channels, events, p)
            && mine != [] && mine[|mine| - 1] == Record(p, call.ch, call.message)
  {
    EverySendOnce(channels, events, p);
    SentLast(channels, events, p);
  }
}
