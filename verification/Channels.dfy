/** The message channels under any interleaving of senders and receivers. One mutex and one condition
  * variable serve all channels, and a sender notifies after it has unlocked. Testing a queue, reading its
  * front, popping it, waiting, being woken and unlocking are separate steps.
  */
module Channels {
  import opened Basics

  datatype Call<M> =
    | Send(ch: nat, message: M)
    | Receive(ch: nat)
    | TryReceive(ch: nat)
    | TryReceiveUntil(ch: nat)

  datatype Step =
    | Lock       // about to lock the mutex
    | Push       // about to append the message
    | Unlock     // about to unlock the mutex, a notification still owed
    | Notify     // about to wake all waiting processes
    | Test       // about to test whether the queue is empty
    | Park       // about to wait, which unlocks the mutex in the same step
    | Wait       // in the wait set
    | Relock     // woken, about to lock the mutex again
    | Overdue    // timed out, about to lock the mutex again
    | LastTest   // about to test the queue once more after the timeout
    | Front      // about to read the front of the queue
    | Pop        // about to pop the queue
    | Leave      // about to unlock the mutex and return the answer

  datatype Activity<M> = Activity(call: Call<M>, step: Step, answer: Option<M>)

  /** A message that process `pid` has put on or taken off a channel. */
  datatype Record<M> = Record(pid: nat, ch: nat, message: M)

  /** `sent` and `received` record what was done to the queues, in the order in which it was done. */
  datatype State<M> = State(
    queues: seq<seq<M>>,
    mutex: Option<nat>,
    calls: map<nat, Activity<M>>,
    sent: seq<Record<M>>,
    received: seq<Record<M>>)

  datatype Event<M> =
    | Begin(pid: nat, call: Call<M>)
    | Advance(pid: nat)
    | WakeSpuriously(pid: nat)
    | TimeOut(pid: nat)

  function Initial<M>(channels: nat): State<M> {
    State(seq(channels, _ => []), None, map[], [], [])
  }

  // ---------------------------------------------------------------- what is done to the queues

  function Pushed<M>(queues: seq<seq<M>>, ch: nat, message: M): seq<seq<M>>
    requires ch < |queues|
  {
    queues[ch := queues[ch] + [message]]
  }

  /** Popping an empty list does nothing. */
  function Popped<M>(queues: seq<seq<M>>, ch: nat): seq<seq<M>>
    requires ch < |queues|
  {
    if queues[ch] == [] then queues else queues[ch := queues[ch][1..]]
  }

  // ---------------------------------------------------------------- steps

  function At<M>(s: State<M>, p: nat, step: Step): State<M>
    requires p in s.calls
  {
    s.(calls := s.calls[p := s.calls[p].(step := step)])
  }

  function Locked<M>(s: State<M>, p: nat, step: Step): State<M>
    requires p in s.calls
  {
    if s.mutex.None? then At(s, p, step).(mutex := Some(p)) else s
  }

  /** Every process in the wait set is woken, whatever channel it waits for. */
  function NotifyAll<M>(s: State<M>): State<M> {
    s.(calls := map q | q in s.calls ::
         if s.calls[q].step == Wait then s.calls[q].(step := Relock) else s.calls[q])
  }

  /** What follows a test that found the queue empty. */
  function OnEmpty<M>(call: Call<M>): Step {
    if call.TryReceive? then Leave else Park
  }

  function Progress<M>(s: State<M>, p: nat): (t: State<M>)
    requires p in s.calls && s.calls[p].call.ch < |s.queues|
    ensures |t.queues| == |s.queues|
  {
    var a := s.calls[p];
    var ch := a.call.ch;
    match a.step
    case Lock => Locked(s, p, if a.call.Send? then Push else Test)
    case Push =>
      if a.call.Send? then
        At(s, p, Unlock).(queues := Pushed(s.queues, ch, a.call.message),
                          sent := s.sent + [Record(p, ch, a.call.message)])
      else s
    case Unlock => At(s, p, Notify).(mutex := None)
    case Notify => NotifyAll(s.(calls := s.calls - {p}))
    case Test => At(s, p, if s.queues[ch] == [] then OnEmpty(a.call) else Front)
    case Park => At(s, p, Wait).(mutex := None)
    case Wait => s
    case Relock => Locked(s, p, Test)
    case Overdue => Locked(s, p, LastTest)
    case LastTest => At(s, p, if s.queues[ch] == [] then Leave else Front)
    case Front =>
      if s.queues[ch] == [] then s
      else s.(calls := s.calls[p := Activity(a.call, Pop, Some(s.queues[ch][0]))])
    case Pop =>
      var t := At(s, p, Leave).(queues := Popped(s.queues, ch));
      if a.answer.Some? then t.(received := s.received + [Record(p, ch, a.answer.value)]) else t
    case Leave => s.(calls := s.calls - {p}, mutex := None)
  }

  /** One event; an event that does not apply changes nothing. A call on a channel that does not exist
    * returns at once.
    */
  function Next<M>(s: State<M>, e: Event<M>): (t: State<M>)
    ensures |t.queues| == |s.queues|
  {
    match e
    case Begin(p, call) =>
      if p !in s.calls && call.ch < |s.queues|
      then s.(calls := s.calls[p := Activity(call, Lock, None)])
      else s
    case Advance(p) => if p in s.calls && s.calls[p].call.ch < |s.queues| then Progress(s, p) else s
    case WakeSpuriously(p) => if p in s.calls && s.calls[p].step == Wait then At(s, p, Relock) else s
    case TimeOut(p) =>
      if p in s.calls && s.calls[p].step == Wait && s.calls[p].call.TryReceiveUntil? then At(s, p, Overdue)
      else s
  }

  function From<M>(s: State<M>, events: seq<Event<M>>): (t: State<M>)
    ensures |t.queues| == |s.queues|
  {
    if events == [] then s else Next(From(s, events[..|events| - 1]), events[|events| - 1])
  }

  // ---------------------------------------------------------------- the invariant

  /** The messages recorded for one channel, in order. */
  function On<M>(log: seq<Record<M>>, ch: nat): seq<M> {
    if log == [] then [] else
      var last := log[|log| - 1];
      On(log[..|log| - 1], ch) + if last.ch == ch then [last.message] else []
  }

  predicate HoldsMutex(step: Step) {
    match step
    case Lock | Notify | Wait | Relock | Overdue => false
    case _ => true
  }

  predicate StepSuits<M>(a: Activity<M>) {
    match a.step
    case Lock => true
    case Push | Unlock | Notify => a.call.Send?
    case Park | Wait | Relock => a.call.Receive? || a.call.TryReceiveUntil?
    case Overdue | LastTest => a.call.TryReceiveUntil?
    case Test | Front | Pop | Leave => !a.call.Send?
  }

  /** What a call knows about its queue at each step. */
  ghost predicate CallFine<M>(s: State<M>, p: nat, a: Activity<M>) {
    && StepSuits(a) && a.call.ch < |s.queues|
    && (HoldsMutex(a.step) <==> s.mutex == Some(p))
    && (a.step == Park ==> s.queues[a.call.ch] == [])
    && (a.step == Front ==> s.queues[a.call.ch] != [])
    && (a.step == Pop ==> s.queues[a.call.ch] != [] && a.answer == Some(s.queues[a.call.ch][0]))
    && (a.step != Pop && a.step != Leave ==> a.answer == None)
    && (a.step == Leave && a.answer == None ==> s.queues[a.call.ch] == [] && !a.call.Receive?)
    && (a.step == Leave && a.answer.Some? ==>
          s.received != [] && s.received[|s.received| - 1] == Record(p, a.call.ch, a.answer.value))
  }

  ghost predicate CallsFine<M>(s: State<M>) {
    forall p :: p in s.calls ==> CallFine(s, p, s.calls[p])
  }

  ghost predicate MutexFine<M>(s: State<M>) {
    s.mutex.Some? ==> s.mutex.value in s.calls && HoldsMutex(s.calls[s.mutex.value].step)
  }

  /** Per channel, what was sent is what was received followed by what is queued. */
  ghost predicate Conserved<M>(s: State<M>) {
    forall ch {:trigger s.queues[ch]} :: 0 <= ch < |s.queues| ==>
      On(s.sent, ch) == On(s.received, ch) + s.queues[ch]
  }

  /** Process q has put a message on channel ch and still owes the notification. */
  predicate Owes<M>(s: State<M>, q: nat, ch: nat) {
    q in s.calls && s.calls[q].call.ch == ch && (s.calls[q].step == Unlock || s.calls[q].step == Notify)
  }

  ghost predicate WakeUpDue<M>(s: State<M>, ch: nat) {
    exists q :: Owes(s, q, ch)
  }

  /** Whoever waits while there is something to receive is about to be woken. */
  ghost predicate NoLostWakeUp<M>(s: State<M>) {
    forall p :: p in s.calls && s.calls[p].step == Wait ==>
      s.calls[p].call.ch < |s.queues| && (s.queues[s.calls[p].call.ch] == [] || WakeUpDue(s, s.calls[p].call.ch))
  }

  ghost predicate Invariant<M>(s: State<M>) {
    CallsFine(s) && MutexFine(s) && Conserved(s) && NoLostWakeUp(s)
  }
}
