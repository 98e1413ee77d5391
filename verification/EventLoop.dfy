/** The one-shot handlers of the event loop, src/async-core/io/out-of-context/ExecutionContext.cpp and .hpp.
    The executor runs a handler on the spot, as the server does; what a handler registers is an input. */
module EventLoop {
  import opened Bytes

  type Fd = int

  datatype Kind = ToRead | ToWrite | ToAccept | Closed | Error

  datatype Event = Event(fd: Fd, kind: Kind)

  // A handler is known by the number of its registration.
  datatype Context = Context(
    interest: set<Fd>,              // what the operating system watches
    handlers: map<Fd, nat>,
    registered: seq<Fd>,            // the descriptor of every registration so far
    ran: seq<(nat, Kind)>)          // the handlers run so far

  // Adding a watched descriptor and removing one that is not are errors of the operating system.
  datatype Outcome = Going(context: Context) | AddThrows | DelThrows | MustBeHere

  function Register(c: Context, fd: Fd): Outcome {
    if fd in c.interest then AddThrows
    else Going(c.(interest := c.interest + {fd},
                  handlers := c.handlers[fd := |c.registered|],
                  registered := c.registered + [fd]))
  }

  function Dispatch(c: Context, e: Event): Outcome {
    if e.fd !in c.interest then DelThrows
    else if e.fd !in c.handlers then MustBeHere
    else Going(c.(interest := c.interest - {e.fd},
                  handlers := c.handlers - {e.fd},
                  ran := c.ran + [(c.handlers[e.fd], e.kind)]))
  }

  function RegisterAll(c: Context, fds: seq<Fd>): Outcome
    decreases |fds|
  {
    if fds == [] then Going(c)
    else
      var o := Register(c, fds[0]);
      if o.Going? then RegisterAll(o.context, fds[1..]) else o
  }

  // One event: its handler is taken out and run, and registers `adds`.
  function Handle(c: Context, e: Event, adds: seq<Fd>): Outcome {
    var o := Dispatch(c, e);
    if o.Going? then RegisterAll(o.context, adds) else o
  }

  function Batch(c: Context, events: seq<Event>, adds: seq<seq<Fd>>): Outcome
    requires |adds| == |events|
    decreases |events|
  {
    if events == [] then Going(c)
    else
      var o := Handle(c, events[0], adds[0]);
      if o.Going? then Batch(o.context, events[1..], adds[1..]) else o
  }

  class ExecutionContext {
    var interest: set<Fd>
    var handlers: map<Fd, nat>
    var registered: seq<Fd>
    var ran: seq<(nat, Kind)>

    function View(): Context
      reads this
    {
      Context(interest, handlers, registered, ran)
    }

    constructor ()
      ensures View() == Context({}, map[], [], [])
    {
      interest, handlers, registered, ran := {}, map[], [], [];
    }

    method AddHandlerForEvent(fd: Fd) returns (o: Outcome)
      modifies this
      ensures o == Register(old(View()), fd)
      ensures View() == if o.Going? then o.context else old(View())
    {
      if fd in interest {
        return AddThrows;
      }
      interest := interest + {fd};
      handlers := handlers[fd := |registered|];
      registered := registered + [fd];
      o := Going(View());
    }

    // What loop() does with the events of one wakeup.
    method HandleBatch(events: seq<Event>, adds: seq<seq<Fd>>) returns (o: Outcome)
      requires |adds| == |events|
      modifies this
      ensures o == Batch(old(View()), events, adds)
      ensures o.Going? ==> View() == o.context
    {
      o := Going(View());
      for i := 0 to |events|
        invariant o == Going(View())
        invariant Batch(View(), events[i..], adds[i..]) == Batch(old(View()), events, adds)
      {
        ghost var before := View();
        var e := events[i];
        assert events[i..][0] == e && events[i..][1..] == events[i + 1..];
        assert adds[i..][0] == adds[i] && adds[i..][1..] == adds[i + 1..];
        if e.fd !in interest {
          return DelThrows;
        }
        interest := interest - {e.fd};
        if e.fd !in handlers {
          return MustBeHere;
        }
        var handler := handlers[e.fd];
        handlers := handlers - {e.fd};
        ran := ran + [(handler, e.kind)];
        ghost var taken := View();
        assert Dispatch(before, e) == Going(taken);
        var fds := adds[i];
        for k := 0 to |fds|
          invariant RegisterAll(View(), fds[k..]) == RegisterAll(taken, fds)
        {
          assert fds[k..][0] == fds[k] && fds[k..][1..] == fds[k + 1..];
          o := AddHandlerForEvent(fds[k]);
          if !o.Going? {
            return;
          }
        }
        o := Going(View());
      }
    }
  }

  // ---- what holds after every registration and every event

  predicate HasRun(c: Context, id: nat) {
    exists k :: 0 <= k < |c.ran| && c.ran[k].0 == id
  }

  // Interest and handlers agree; a registration waits under its own descriptor or has run, and not both;
  // no registration runs twice.
  predicate Inv(c: Context) {
    && c.interest == c.handlers.Keys
    && (forall fd :: fd in c.handlers ==> c.handlers[fd] < |c.registered| && c.registered[c.handlers[fd]] == fd)
    && (forall id :: 0 <= id < |c.registered| ==>
          (HasRun(c, id) <==> !(c.registered[id] in c.handlers && c.handlers[c.registered[id]] == id)))
    && (forall k :: 0 <= k < |c.ran| ==> c.ran[k].0 < |c.registered|)
    && (forall j, k :: 0 <= j < k < |c.ran| ==> c.ran[j].0 != c.ran[k].0)
  }

  lemma RegisterKeeps(c: Context, fd: Fd)
    requires Inv(c) && Register(c, fd).Going?
    ensures Inv(Register(c, fd).context)
  {
    var c' := Register(c, fd).context;
    assert forall id :: HasRun(c', id) <==> HasRun(c, id);
  }

  lemma DispatchKeeps(c: Context, e: Event)
    requires Inv(c) && e.fd in c.interest
    ensures Dispatch(c, e).Going? && Inv(Dispatch(c, e).context)
  {
    var c' := Dispatch(c, e).context;
    var id := c.handlers[e.fd];
    assert !HasRun(c, id);
    assert c'.ran[|c.ran|].0 == id;
    forall x: nat ensures HasRun(c', x) <==> HasRun(c, x) || x == id {
      if HasRun(c, x) {
        var k :| 0 <= k < |c.ran| && c.ran[k].0 == x;
        assert c'.ran[k].0 == x;
      }
    }
  }

  // Registering only adds descriptors, and runs nothing.
  lemma {:induction false} RegisterAllKeeps(c: Context, fds: seq<Fd>)
    requires Inv(c) && RegisterAll(c, fds).Going?
    ensures var c' := RegisterAll(c, fds).context;
            && Inv(c') && c'.ran == c.ran && c.registered <= c'.registered
            && (forall fd :: fd in c.handlers ==> fd in c'.handlers && c'.handlers[fd] == c.handlers[fd])
    decreases |fds|
  {
    hide Inv;
    if fds != [] {
      RegisterKeeps(c, fds[0]);
      var d := Register(c, fds[0]).context;
      RegisterAllKeeps(d, fds[1..]);
      Mapped(c);
    }
  }

  lemma Mapped(c: Context)
    requires Inv(c)
    ensures c.interest == c.handlers.Keys
  {
  }

  lemma {:induction false} RegisterAllThrows(c: Context, fds: seq<Fd>)
    ensures RegisterAll(c, fds).Going? || RegisterAll(c, fds) == AddThrows
    decreases |fds|
  {
    if fds != [] && Register(c, fds[0]).Going? {
      RegisterAllThrows(Register(c, fds[0]).context, fds[1..]);
    }
  }

  // What the operating system reports: different descriptors, all of them watched.
  predicate Reported(c: Context, events: seq<Event>) {
    && (forall i :: 0 <= i < |events| ==> events[i].fd in c.interest)
    && (forall i, j :: 0 <= i < j < |events| ==> events[i].fd != events[j].fd)
  }

  // The handlers registered for the events when the batch begins.
  function Due(c: Context, events: seq<Event>): seq<(nat, Kind)> {
    seq(|events|, i requires 0 <= i < |events| =>
      (if events[i].fd in c.handlers then c.handlers[events[i].fd] else 0, events[i].kind))
  }

  // A batch runs exactly the handlers registered for its events, once each and in its order, keeps the
  // handlers of other descriptors, and can only stop because a handler registers a watched descriptor.
  lemma {:induction false} BatchRuns(c: Context, events: seq<Event>, adds: seq<seq<Fd>>)
    requires |adds| == |events| && Inv(c) && Reported(c, events)
    ensures var o := Batch(c, events, adds);
            && (o.Going? || o == AddThrows)
            && (o.Going? ==>
                  && Inv(o.context) && o.context.ran == c.ran + Due(c, events) && c.registered <= o.context.registered
                  && (forall fd :: fd in c.handlers && (forall i :: 0 <= i < |events| ==> events[i].fd != fd) ==>
                        fd in o.context.handlers && o.context.handlers[fd] == c.handlers[fd]))
    decreases |events|
  {
    hide Inv, Register;
    if events == [] {
      assert c.ran + Due(c, events) == c.ran;
    } else {
      var e := events[0];
      DispatchKeeps(c, e);
      Mapped(c);
      var d := Dispatch(c, e).context;
      RegisterAllThrows(d, adds[0]);
      if RegisterAll(d, adds[0]).Going? {
        RegisterAllKeeps(d, adds[0]);
        var m := RegisterAll(d, adds[0]).context;
        Mapped(m);
        assert forall i :: 0 <= i < |events[1..]| ==> events[1..][i] == events[i + 1];
        BatchRuns(m, events[1..], adds[1..]);
        assert Due(m, events[1..]) == Due(c, events)[1..];
        assert c.ran + Due(c, events) == d.ran + Due(m, events[1..]);
      }
    }
  }

  lemma {:induction false} RegisterAllExact(c: Context, fds: seq<Fd>)
    ensures RegisterAll(c, fds).Going? <==>
              && (forall i :: 0 <= i < |fds| ==> fds[i] !in c.interest)
              && (forall i, j :: 0 <= i < j < |fds| ==> fds[i] != fds[j])
    decreases |fds|
  {
    if fds != [] {
      var o := Register(c, fds[0]);
      if o.Going? {
        var rest := fds[1..];
        RegisterAllExact(o.context, rest);
        assert forall i :: 0 < i < |fds| ==> fds[i] == rest[i - 1];
        assert forall i :: 0 <= i < |rest| ==> rest[i] == fds[i + 1];
      }
    }
  }

  // A handler can register exactly the descriptors that are not watched and, once more, its own, each once.
  lemma MayRegister(c: Context, e: Event, fds: seq<Fd>)
    requires Inv(c) && e.fd in c.interest
    ensures Handle(c, e, fds).Going? <==>
              && (forall i :: 0 <= i < |fds| ==> fds[i] == e.fd || fds[i] !in c.interest)
              && (forall i, j :: 0 <= i < j < |fds| ==> fds[i] != fds[j])
  {
    DispatchKeeps(c, e);
    RegisterAllExact(Dispatch(c, e).context, fds);
  }

  // ---- what a batch registers

  function AllOf(adds: seq<seq<Fd>>): seq<Fd> {
    if adds == [] then [] else adds[0] + AllOf(adds[1..])
  }

  function FdsOf(events: seq<Event>): set<Fd> {
    set i | 0 <= i < |events| :: events[i].fd
  }

  // Every registration from the id-th on waits under its own descriptor.
  predicate Wait(c: Context, from: nat) {
    forall id :: from <= id < |c.registered| ==> c.registered[id] in c.handlers && c.handlers[c.registered[id]] == id
  }

  lemma {:induction false} RegisterAllAdds(c: Context, fds: seq<Fd>)
    requires Inv(c) && RegisterAll(c, fds).Going?
    ensures var c' := RegisterAll(c, fds).context;
            && c'.registered == c.registered + fds
            && c'.interest == c.interest + (set fd | fd in fds)
            && Wait(c', |c.registered|)
    decreases |fds|
  {
    hide Inv;
    if fds != [] {
      var d := Register(c, fds[0]).context;
      RegisterKeeps(c, fds[0]);
      RegisterAllKeeps(d, fds[1..]);
      RegisterAllAdds(d, fds[1..]);
      assert fds == [fds[0]] + fds[1..];
    }
  }

  // What the handlers of the first event register is not touched by the later events.
  lemma FirstStays(c: Context, events: seq<Event>, fds: seq<Fd>)
    requires Inv(c) && Reported(c, events) && events != [] && Handle(c, events[0], fds).Going?
    ensures var m := Handle(c, events[0], fds).context;
            && events[0].fd in c.interest && Inv(m) && Reported(m, events[1..])
            && m.registered == c.registered + fds && Wait(m, |c.registered|)
            && m.interest == c.interest - {events[0].fd} + (set fd | fd in fds)
            && (forall fd :: fd in fds ==> fd !in FdsOf(events[1..]))
  {
    hide Inv, RegisterAll;
    var d := Dispatch(c, events[0]).context;
    DispatchKeeps(c, events[0]);
    RegisterAllKeeps(d, fds);
    RegisterAllAdds(d, fds);
    RegisterAllExact(d, fds);
    assert forall i :: 0 <= i < |events[1..]| ==> events[1..][i] == events[i + 1];
  }

  // A batch that goes through has registered all that its handlers added, in order: the descriptors reported
  // are not watched, those added are, and each waits for the handler that was added with it.
  lemma {:induction false} BatchRegisters(c: Context, events: seq<Event>, adds: seq<seq<Fd>>)
    requires |adds| == |events| && Inv(c) && Reported(c, events) && Batch(c, events, adds).Going?
    ensures var c' := Batch(c, events, adds).context;
            && c'.registered == c.registered + AllOf(adds)
            && c'.interest == c.interest - FdsOf(events) + (set fd | fd in AllOf(adds))
            && Wait(c', |c.registered|)
    decreases |events|
  {
    hide Inv, Handle, Reported;
    if events == [] {
      assert c.registered + AllOf(adds) == c.registered;
    } else {
      var m, rest, more := Handle(c, events[0], adds[0]).context, events[1..], adds[1..];
      FirstStays(c, events, adds[0]);
      BatchRuns(m, rest, more);
      BatchRegisters(m, rest, more);
      var c' := Batch(c, events, adds).context;
      assert c.registered + adds[0] + AllOf(more) == c.registered + AllOf(adds);
      assert FdsOf(events) == {events[0].fd} + FdsOf(rest);
      forall id | |c.registered| <= id < |m.registered|
        ensures c'.registered[id] in c'.handlers && c'.handlers[c'.registered[id]] == id
      {
        var fd := m.registered[id];
        assert fd == adds[0][id - |c.registered|] && fd == c'.registered[id];
        assert forall i :: 0 <= i < |rest| ==> rest[i].fd in FdsOf(rest);
      }
    }
  }

  // ---- when a batch goes through

  predicate Distinct(fds: seq<Fd>) {
    forall i, j :: 0 <= i < j < |fds| ==> fds[i] != fds[j]
  }

  // A descriptor that is watched when the batch begins is added only once its own event has come.
  predicate ComesAfter(c: Context, events: seq<Event>, adds: seq<seq<Fd>>)
    requires |adds| == |events|
  {
    forall i, fd :: 0 <= i < |adds| && fd in adds[i] && fd in c.interest ==>
                      exists k :: 0 <= k <= i && events[k].fd == fd
  }

  lemma {:induction false} InAll(adds: seq<seq<Fd>>, fd: Fd)
    ensures fd in AllOf(adds) <==> exists i :: 0 <= i < |adds| && fd in adds[i]
    decreases |adds|
  {
    if adds != [] {
      InAll(adds[1..], fd);
      assert forall i :: 0 < i < |adds| ==> adds[i] == adds[1..][i - 1];
      assert forall i :: 0 <= i < |adds[1..]| ==> adds[1..][i] == adds[i + 1];
    }
  }

  lemma DistinctSplit(a: seq<Fd>, b: seq<Fd>)
    ensures Distinct(a + b) <==> Distinct(a) && Distinct(b) && forall fd :: fd in a ==> fd !in b
  {
    var s, n := a + b, |a|;
    assert forall i :: 0 <= i < n ==> s[i] == a[i] && s[i] in a;
    assert forall j :: n <= j < |s| ==> s[j] == b[j - n] && s[j] in b;
    if Distinct(s) {
      forall i, j | 0 <= i < n && 0 <= j < |b| ensures a[i] != b[j] {
        assert s[i] != s[n + j];
      }
      forall i, j | 0 <= i < j < |b| ensures b[i] != b[j] {
        assert s[n + i] != s[n + j];
      }
      assert forall i, j :: 0 <= i < j < n ==> s[i] == a[i] && s[j] == a[j];
    }
  }

  // The condition before the first event gives the one after it, and conversely.
  lemma ConditionGoesOn(c: Context, events: seq<Event>, adds: seq<seq<Fd>>, m: Context)
    requires |adds| == |events| && Inv(c) && Reported(c, events) && events != []
    requires Handle(c, events[0], adds[0]) == Going(m)
    requires ComesAfter(c, events, adds) && forall fd :: fd in adds[0] ==> fd !in AllOf(adds[1..])
    ensures ComesAfter(m, events[1..], adds[1..])
  {
    hide Inv, Handle, Reported, AllOf;
    var rest, more := events[1..], adds[1..];
    FirstStays(c, events, adds[0]);
    forall i, fd | 0 <= i < |more| && fd in more[i] && fd in m.interest
      ensures exists k :: 0 <= k <= i && rest[k].fd == fd
    {
      InAll(more, fd);
      assert fd in adds[i + 1] && fd in c.interest;
      var k :| 0 <= k <= i + 1 && events[k].fd == fd;
      assert rest[k - 1].fd == fd;
    }
  }

  lemma ConditionComesFrom(c: Context, events: seq<Event>, adds: seq<seq<Fd>>, m: Context)
    requires |adds| == |events| && Inv(c) && Reported(c, events) && events != []
    requires Handle(c, events[0], adds[0]) == Going(m) && ComesAfter(m, events[1..], adds[1..])
    ensures ComesAfter(c, events, adds)
    ensures forall fd :: fd in adds[0] ==> fd !in AllOf(adds[1..])
  {
    hide Inv, Handle, Reported, AllOf;
    var rest, more := events[1..], adds[1..];
    FirstStays(c, events, adds[0]);
    MayRegister(c, events[0], adds[0]);
    forall fd | fd in adds[0] ensures fd !in AllOf(more) {
      InAll(more, fd);
      assert fd in m.interest;
      assert forall k :: 0 <= k < |rest| ==> rest[k].fd in FdsOf(rest);
    }
    forall i, fd | 0 <= i < |adds| && fd in adds[i] && fd in c.interest
      ensures exists k :: 0 <= k <= i && events[k].fd == fd
    {
      if i == 0 || fd == events[0].fd {
        assert events[0].fd == fd;
      } else {
        assert fd in more[i - 1] && fd in m.interest;
        var k :| 0 <= k <= i - 1 && rest[k].fd == fd;
        assert events[k + 1].fd == fd;
      }
    }
  }

  lemma ConditionMoves(c: Context, events: seq<Event>, adds: seq<seq<Fd>>, m: Context)
    requires |adds| == |events| && Inv(c) && Reported(c, events) && events != []
    requires Handle(c, events[0], adds[0]) == Going(m)
    ensures ComesAfter(c, events, adds) && Distinct(AllOf(adds)) <==>
              ComesAfter(m, events[1..], adds[1..]) && Distinct(AllOf(adds[1..]))
  {
    hide Inv, Handle, Reported, AllOf, Distinct, ComesAfter;
    var more := AllOf(adds[1..]);
    AllSplits(adds);
    DistinctSplit(adds[0], more);
    AddedOnce(c, events, adds[0]);
    if ComesAfter(c, events, adds) && Distinct(AllOf(adds)) {
      ConditionGoesOn(c, events, adds, m);
    }
    if ComesAfter(m, events[1..], adds[1..]) && Distinct(more) {
      ConditionComesFrom(c, events, adds, m);
    }
  }

  lemma AddedOnce(c: Context, events: seq<Event>, fds: seq<Fd>)
    requires Inv(c) && Reported(c, events) && events != [] && Handle(c, events[0], fds).Going?
    ensures Distinct(fds)
  {
    MayRegister(c, events[0], fds);
  }

  lemma AllSplits(adds: seq<seq<Fd>>)
    requires adds != []
    ensures AllOf(adds) == adds[0] + AllOf(adds[1..])
  {
  }

  // A batch goes through exactly when no descriptor is added twice, and none that is watched before its event.
  lemma {:induction false} BatchExact(c: Context, events: seq<Event>, adds: seq<seq<Fd>>)
    requires |adds| == |events| && Inv(c) && Reported(c, events)
    ensures Batch(c, events, adds).Going? <==> ComesAfter(c, events, adds) && Distinct(AllOf(adds))
    decreases |events|
  {
    hide Inv, Handle, Reported, ComesAfter, AllOf, Distinct;
    if events == [] {
      NothingAdded(c, events, adds);
    } else {
      var o := Handle(c, events[0], adds[0]);
      if o.Going? {
        FirstStays(c, events, adds[0]);
        ConditionMoves(c, events, adds, o.context);
        BatchExact(o.context, events[1..], adds[1..]);
      } else {
        FirstThrows(c, events, adds);
      }
    }
  }

  lemma NothingAdded(c: Context, events: seq<Event>, adds: seq<seq<Fd>>)
    requires events == [] && adds == []
    ensures ComesAfter(c, events, adds) && Distinct(AllOf(adds))
  {
  }

  lemma FirstThrows(c: Context, events: seq<Event>, adds: seq<seq<Fd>>)
    requires |adds| == |events| && Inv(c) && Reported(c, events) && events != []
    requires !Handle(c, events[0], adds[0]).Going?
    ensures !(ComesAfter(c, events, adds) && Distinct(AllOf(adds)))
  {
    hide Inv, Handle;
    MayRegister(c, events[0], adds[0]);
    DistinctSplit(adds[0], AllOf(adds[1..]));
  }

  // ---- whole runs

  datatype Input = Adding(fd: Fd) | Waking(events: seq<Event>, adds: seq<seq<Fd>>)

  function Take(c: Context, i: Input): Outcome
    requires i.Waking? ==> |i.adds| == |i.events|
  {
    match i
    case Adding(fd) => Register(c, fd)
    case Waking(events, adds) => Batch(c, events, adds)
  }

  ghost predicate IsRun(contexts: seq<Context>, inputs: seq<Input>) {
    && |contexts| == |inputs| + 1 && contexts[0] == Context({}, map[], [], [])
    && forall i :: 0 <= i < |inputs| ==>
         && (inputs[i].Waking? ==> |inputs[i].adds| == |inputs[i].events| && Reported(contexts[i], inputs[i].events))
         && Take(contexts[i], inputs[i]) == Going(contexts[i + 1])
  }

  lemma {:induction false} RunKeepsInv(contexts: seq<Context>, inputs: seq<Input>, n: nat)
    requires IsRun(contexts, inputs) && n < |contexts|
    ensures Inv(contexts[n])
    decreases n
  {
    hide Register, Batch, Reported;
    if n > 0 {
      var c, i := contexts[n - 1], inputs[n - 1];
      RunKeepsInv(contexts, inputs, n - 1);
      assert Take(c, i) == Going(contexts[n]);
      if i.Adding? {
        RegisterKeeps(c, i.fd);
      } else {
        BatchRuns(c, i.events, i.adds);
      }
    }
  }

  // Over any run: the interest set is the set of handler keys; a registration has run or waits under its
  // descriptor, never both; none runs twice; and the next wakeup, whatever it reports, finds every handler.
  lemma {:induction false} OneShot(contexts: seq<Context>, inputs: seq<Input>, n: nat,
                                   events: seq<Event>, adds: seq<seq<Fd>>)
    requires IsRun(contexts, inputs) && n < |contexts|
    requires |adds| == |events| && Reported(contexts[n], events)
    ensures var c := contexts[n];
            && c.interest == c.handlers.Keys
            && (forall id :: 0 <= id < |c.registered| ==>
                  (HasRun(c, id) <==> !(c.registered[id] in c.handlers && c.handlers[c.registered[id]] == id)))
            && (forall j, k :: 0 <= j < k < |c.ran| ==> c.ran[j].0 != c.ran[k].0)
            && Batch(c, events, adds) != MustBeHere && Batch(c, events, adds) != DelThrows
            && (Batch(c, events, adds).Going? ==> Batch(c, events, adds).context.ran == c.ran + Due(c, events))
  {
    hide Register, Batch, Reported, Due;
    RunKeepsInv(contexts, inputs, n);
    BatchRuns(contexts[n], events, adds);
  }
}
