/** All interleavings of a channel's handles and of the threads inside `pop`,
    src/async-core/mpmc-queue/mpmc_queue.hpp. A section under the mutex is one step; a wait ends one
    section and the wake-up is a later step, which may also come for no reason. */
module Channel {
  import opened Bytes
  import opened MpmcQueue

  // A thread inside pop, on one of the receiver handles.
  datatype Popper = Popper(receiver: nat, asleep: bool)

  datatype State<T> = State(
    shared: Shared<T>,
    senders: set<nat>,          // live handles that have not been moved from
    receivers: set<nat>,
    poppers: map<nat, Popper>,  // by thread
    sent: seq<T>,               // history: the successful pushes
    received: seq<T>)           // history: the values popped

  datatype Step<T> =
    | CloneSender(from: nat, to: nat)
    | MoveSender(from: nat, to: nat)
    | DropSender(from: nat)
    | CloneReceiver(from: nat, to: nat)
    | MoveReceiver(from: nat, to: nat)
    | DropReceiver(from: nat)
    | Send(from: nat, value: T, woken: Option<nat>)
    | TryRecv(from: nat)
    | EnterPop(thread: nat, from: nat)
    | Turn(thread: nat)
    | SpuriousWake(thread: nat)

  // channel()
  function Init<T>(): State<T> {
    State(Shared([], 1, 1), {0}, {0}, map[], [], [])
  }

  function Sleepers(poppers: map<nat, Popper>): set<nat> {
    set t | t in poppers && poppers[t].asleep
  }

  function Awake(poppers: map<nat, Popper>): set<nat> {
    set t | t in poppers && !poppers[t].asleep
  }

  predicate InUse<T>(s: State<T>, receiver: nat) {
    exists t :: t in s.poppers && s.poppers[t].receiver == receiver
  }

  // notify_one wakes one of the sleepers when there are any.
  predicate Notified<T>(s: State<T>, woken: Option<nat>) {
    if woken == None then Sleepers(s.poppers) == {} else woken.value in Sleepers(s.poppers)
  }

  ghost predicate Enabled<T>(s: State<T>, step: Step<T>) {
    match step
    case CloneSender(from, to) => from in s.senders && to !in s.senders
    case MoveSender(from, to) => from in s.senders && to !in s.senders
    case DropSender(from) => from in s.senders
    case CloneReceiver(from, to) => from in s.receivers && to !in s.receivers
    case MoveReceiver(from, to) => from in s.receivers && to !in s.receivers && !InUse(s, from)
    case DropReceiver(from) => from in s.receivers && !InUse(s, from)
    case Send(from, _, woken) =>
      from in s.senders && if s.shared.consumers == 0 then woken == None else Notified(s, woken)
    case TryRecv(from) => from in s.receivers
    case EnterPop(t, from) => from in s.receivers && t !in s.poppers
    case Turn(t) => t in Awake(s.poppers)
    case SpuriousWake(t) => t in Sleepers(s.poppers)
  }

  function Woken(poppers: map<nat, Popper>, t: nat): map<nat, Popper>
    requires t in poppers
  {
    poppers[t := poppers[t].(asleep := false)]
  }

  function AllWoken(poppers: map<nat, Popper>): map<nat, Popper> {
    map t | t in poppers :: poppers[t].(asleep := false)
  }

  // A value popped, or nothing.
  function Taken<T>(s: State<T>): State<T> {
    match PopAnswer(s.shared)
    case Value(v) => s.(shared := AfterPop(s.shared), received := s.received + [v])
    case _ => s
  }

  function Minus(n: nat): nat {
    if n == 0 then 0xFFFF_FFFF else n - 1
  }

  ghost function Apply<T>(s: State<T>, step: Step<T>): State<T>
    requires Enabled(s, step)
  {
    match step
    case CloneSender(_, to) =>
      s.(shared := s.shared.(producers := s.shared.producers + 1), senders := s.senders + {to})
    case MoveSender(from, to) => s.(senders := s.senders - {from} + {to})
    case DropSender(from) =>
      var left := Minus(s.shared.producers);
      s.(shared := s.shared.(producers := left), senders := s.senders - {from},
         poppers := if left == 0 then AllWoken(s.poppers) else s.poppers)
    case CloneReceiver(_, to) =>
      s.(shared := s.shared.(consumers := s.shared.consumers + 1), receivers := s.receivers + {to})
    case MoveReceiver(from, to) => s.(receivers := s.receivers - {from} + {to})
    case DropReceiver(from) =>
      s.(shared := s.shared.(consumers := Minus(s.shared.consumers)), receivers := s.receivers - {from})
    case Send(_, value, woken) =>
      if s.shared.consumers == 0 then s
      else s.(shared := Pushed(s.shared, value), sent := s.sent + [value],
              poppers := if woken.Some? then Woken(s.poppers, woken.value) else s.poppers)
    case TryRecv(_) => Taken(s)
    case EnterPop(t, from) => s.(poppers := s.poppers[t := Popper(from, false)])
    case Turn(t) =>
      if PopAnswer(s.shared) == MustWait then s.(poppers := s.poppers[t := s.poppers[t].(asleep := true)])
      else Taken(s.(poppers := s.poppers - {t}))
    case SpuriousWake(t) => s.(poppers := Woken(s.poppers, t))
  }

  // ---- what every step keeps

  // The counters are the numbers of live handles.
  ghost predicate CountersExact<T>(s: State<T>) {
    s.shared.producers == |s.senders| && s.shared.consumers == |s.receivers|
  }

  // Nothing is lost, repeated or reordered.
  ghost predicate Conserved<T>(s: State<T>) {
    s.received + s.shared.items == s.sent
  }

  // A sleeper is outnumbered: each value in the queue has an awake popper coming for it.
  ghost predicate NoLostWakeup<T>(s: State<T>) {
    && (Sleepers(s.poppers) != {} ==> |s.shared.items| <= |Awake(s.poppers)|)
    && (s.shared.producers == 0 ==> Sleepers(s.poppers) == {})
  }

  ghost predicate Inv<T>(s: State<T>) {
    && CountersExact(s) && Conserved(s) && NoLostWakeup(s)
    && forall t :: t in s.poppers ==> s.poppers[t].receiver in s.receivers
  }

  // Waking t moves it from the sleepers to the awake.
  lemma WokenSets(poppers: map<nat, Popper>, t: nat)
    requires t in Sleepers(poppers)
    ensures Sleepers(Woken(poppers, t)) == Sleepers(poppers) - {t}
    ensures Awake(Woken(poppers, t)) == Awake(poppers) + {t}
    ensures |Awake(Woken(poppers, t))| == |Awake(poppers)| + 1
  {
    assert Awake(Woken(poppers, t)) == Awake(poppers) + {t};
  }

  lemma EnteredSets(poppers: map<nat, Popper>, t: nat, from: nat)
    requires t !in poppers
    ensures Sleepers(poppers[t := Popper(from, false)]) == Sleepers(poppers)
    ensures |Awake(poppers[t := Popper(from, false)])| == |Awake(poppers)| + 1
  {
    assert Awake(poppers[t := Popper(from, false)]) == Awake(poppers) + {t};
  }

  lemma TurnedSets(poppers: map<nat, Popper>, t: nat)
    requires t in Awake(poppers)
    ensures Sleepers(poppers - {t}) == Sleepers(poppers)
    ensures |Awake(poppers - {t})| == |Awake(poppers)| - 1
    ensures Sleepers(poppers[t := poppers[t].(asleep := true)]) == Sleepers(poppers) + {t}
  {
    assert Awake(poppers - {t}) == Awake(poppers) - {t};
  }

  lemma EnterPopKeeps<T>(s: State<T>, t: nat, from: nat)
    requires Inv(s) && Enabled(s, EnterPop(t, from))
    ensures Inv(Apply(s, EnterPop(t, from)))
  {
    hide Awake, Sleepers;
    EnteredSets(s.poppers, t, from);
  }

  lemma TurnKeeps<T>(s: State<T>, t: nat)
    requires Inv(s) && Enabled(s, Turn(t))
    ensures Inv(Apply(s, Turn(t)))
  {
    TurnedSets(s.poppers, t);
  }

  lemma WakeKeeps<T>(s: State<T>, t: nat)
    requires Inv(s) && Enabled(s, SpuriousWake(t))
    ensures Inv(Apply(s, SpuriousWake(t)))
  {
    WokenSets(s.poppers, t);
  }

  lemma SendKeeps<T>(s: State<T>, step: Step<T>)
    requires Inv(s) && step.Send? && Enabled(s, step)
    ensures Inv(Apply(s, step))
  {
    if s.shared.consumers != 0 {
      assert s.received + (s.shared.items + [step.value]) == s.sent + [step.value];
      if step.woken.Some? {
        WokenSets(s.poppers, step.woken.value);
      }
    }
  }

  lemma SenderHandlesKeep<T>(s: State<T>, step: Step<T>)
    requires Inv(s) && (step.CloneSender? || step.MoveSender? || step.DropSender?) && Enabled(s, step)
    ensures Inv(Apply(s, step))
  {
    match step
    case MoveSender(from, to) => assert |s.senders - {from} + {to}| == |s.senders|;
    case DropSender(_) => assert Sleepers(AllWoken(s.poppers)) == {};
    case CloneSender(_, _) =>
  }

  lemma ReceiverHandlesKeep<T>(s: State<T>, step: Step<T>)
    requires Inv(s) && (step.CloneReceiver? || step.MoveReceiver? || step.DropReceiver?) && Enabled(s, step)
    ensures Inv(Apply(s, step))
  {
    hide Awake, Sleepers;
    match step
    case MoveReceiver(from, to) => assert |s.receivers - {from} + {to}| == |s.receivers|;
    case _ =>
  }

  lemma StepKeepsInv<T>(s: State<T>, step: Step<T>)
    requires Inv(s) && Enabled(s, step)
    ensures Inv(Apply(s, step))
  {
    if step.Send? {
      SendKeeps(s, step);
    } else if step.CloneSender? || step.MoveSender? || step.DropSender? {
      SenderHandlesKeep(s, step);
    } else if step.CloneReceiver? || step.MoveReceiver? || step.DropReceiver? {
      ReceiverHandlesKeep(s, step);
    } else {
      match step
      case EnterPop(t, from) => EnterPopKeeps(s, t, from);
      case Turn(t) => TurnKeeps(s, t);
      case SpuriousWake(t) => WakeKeeps(s, t);
      case TryRecv(_) =>
    }
  }

  // ---- runs

  ghost predicate IsRun<T>(states: seq<State<T>>, steps: seq<Step<T>>) {
    && |states| == |steps| + 1
    && forall i :: 0 <= i < |steps| ==> Enabled(states[i], steps[i]) && states[i + 1] == Apply(states[i], steps[i])
  }

  lemma {:induction false} RunKeepsInv<T>(states: seq<State<T>>, steps: seq<Step<T>>, n: nat)
    requires IsRun(states, steps) && Inv(states[0]) && n < |states|
    ensures Inv(states[n])
    decreases n
  {
    if n > 0 {
      RunKeepsInv(states, steps, n - 1);
      StepKeepsInv(states[n - 1], steps[n - 1]);
    }
  }

  lemma InitInv<T>()
    ensures Inv(Init<T>())
  {
    assert Sleepers(Init<T>().poppers) == {};
  }

  // In every reachable state of every interleaving: exact counters, conservation, no lost wake-up.
  lemma Safety<T>(states: seq<State<T>>, steps: seq<Step<T>>, n: nat)
    requires IsRun(states, steps) && states[0] == Init() && n < |states|
    ensures CountersExact(states[n]) && Conserved(states[n]) && NoLostWakeup(states[n])
  {
    InitInv<T>();
    RunKeepsInv(states, steps, n);
  }

  // A non-empty or closed queue never has all its poppers asleep.
  lemma SomeoneIsAwake<T>(states: seq<State<T>>, steps: seq<Step<T>>, n: nat)
    requires IsRun(states, steps) && states[0] == Init() && n < |states|
    requires states[n].poppers != map[] && (states[n].shared.items != [] || states[n].senders == {})
    ensures PopAnswer(states[n].shared) != MustWait
    ensures exists t :: Enabled(states[n], Turn(t))
  {
    Safety(states, steps, n);
    var s := states[n];
    var t :| t in s.poppers;
    if t in Sleepers(s.poppers) {
      assert |Awake(s.poppers)| > 0;
      var u :| u in Awake(s.poppers);
      assert Enabled(s, Turn(u));
    } else {
      assert t in Awake(s.poppers) && Enabled(s, Turn(t));
    }
  }

  // send fails exactly when no receiver lives, and recv reports a closed channel exactly when no sender
  // lives and everything pushed has been popped.
  lemma ErrorsExact<T>(states: seq<State<T>>, steps: seq<Step<T>>, n: nat)
    requires IsRun(states, steps) && states[0] == Init() && n < |states|
    ensures var s := states[n];
            && (s.shared.consumers == 0 <==> s.receivers == {})
            && (PopAnswer(s.shared) == Closed <==> s.senders == {} && s.received == s.sent)
  {
    Safety(states, steps, n);
    var s := states[n];
    assert s.shared.items == [] <==> s.received == s.sent by {
      assert |s.sent| == |s.received| + |s.shared.items|;
    }
  }

  // A live sender can always send, whoever sleeps.
  lemma CanSend<T>(s: State<T>, from: nat, value: T) returns (woken: Option<nat>)
    requires from in s.senders
    ensures Enabled(s, Send(from, value, woken))
  {
    woken := None;
    if s.shared.consumers != 0 && Sleepers(s.poppers) != {} {
      var t :| t in Sleepers(s.poppers);
      woken := Some(t);
    }
  }

  // A send takes effect exactly when a receiver lives: its value is the last of those sent, and one of the
  // sleeping threads, if any sleeps, is awake.
  lemma SendExact<T>(states: seq<State<T>>, steps: seq<Step<T>>, n: nat)
    requires IsRun(states, steps) && states[0] == Init() && n < |steps| && steps[n].Send?
    ensures var s, t := states[n], states[n + 1];
            && (s.receivers == {} ==> t == s)
            && (s.receivers != {} ==>
                  && t.sent == s.sent + [steps[n].value] && t.received == s.received
                  && t.senders == s.senders && t.receivers == s.receivers && t.poppers.Keys == s.poppers.Keys
                  && if Sleepers(s.poppers) == {} then t.poppers == s.poppers
                     else |Sleepers(t.poppers)| == |Sleepers(s.poppers)| - 1)
  {
    Safety(states, steps, n);
    var s, woken := states[n], steps[n].woken;
    if s.receivers != {} && woken.Some? {
      WokenSets(s.poppers, woken.value);
    }
  }

  // A receive gets the first value sent and not received, when there is one; without one a thread inside pop
  // returns empty-handed when no sender lives and goes to sleep otherwise.
  lemma ReceiveExact<T>(states: seq<State<T>>, steps: seq<Step<T>>, n: nat)
    requires IsRun(states, steps) && states[0] == Init() && n < |steps| && (steps[n].Turn? || steps[n].TryRecv?)
    ensures var s, t := states[n], states[n + 1];
            && t.sent == s.sent && t.senders == s.senders && t.receivers == s.receivers
            && (if |s.received| < |s.sent| then t.received == s.received + [s.sent[|s.received|]]
                else t.received == s.received)
            && (steps[n].TryRecv? ==> t.poppers == s.poppers)
            && (steps[n].Turn? ==>
                  var u := steps[n].thread;
                  if s.received != s.sent || s.senders == {} then t.poppers == s.poppers - {u}
                  else t.poppers == s.poppers[u := Popper(s.poppers[u].receiver, true)])
  {
    Safety(states, steps, n);
    var s := states[n];
    assert |s.sent| == |s.received| + |s.shared.items|;
    assert s.shared.items == [] <==> s.received == s.sent;
    if s.shared.items != [] {
      assert (s.received + s.shared.items)[|s.received|] == s.shared.items[0];
    }
  }

  lemma ClosedStays<T>(s: State<T>, step: Step<T>)
    requires Inv(s) && Enabled(s, step) && PopAnswer(s.shared) == Closed
    ensures PopAnswer(Apply(s, step).shared) == Closed && Apply(s, step).sent == s.sent
  {
    assert s.senders == {};
  }

  // A closed channel stays closed.
  lemma {:induction false} ClosedForever<T>(states: seq<State<T>>, steps: seq<Step<T>>, n: nat, m: nat)
    requires IsRun(states, steps) && states[0] == Init() && n <= m < |states|
    requires PopAnswer(states[n].shared) == Closed
    ensures PopAnswer(states[m].shared) == Closed && states[m].sent == states[n].sent
    decreases m
  {
    hide Apply, Enabled, PopAnswer;
    if n < m {
      ClosedForever(states, steps, n, m - 1);
      InitInv<T>();
      RunKeepsInv(states, steps, m - 1);
      ClosedStays(states[m - 1], steps[m - 1]);
    }
  }

  // The values received at some time are received for good, in the order in which they were sent.
  lemma {:induction false} ReceivedInOrder<T>(states: seq<State<T>>, steps: seq<Step<T>>, n: nat, m: nat)
    requires IsRun(states, steps) && states[0] == Init() && n <= m < |states|
    ensures states[n].received <= states[m].received <= states[m].sent && states[n].sent <= states[m].sent
    decreases m
  {
    Safety(states, steps, m);
    if n < m {
      ReceivedInOrder(states, steps, n, m - 1);
    }
  }
}
