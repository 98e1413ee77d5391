/** The container behind `collect`, src/async-core/future/detail/_promise_container.hpp, and `collect`
    itself, src/async-core/future/future.hpp. */
module PromiseContainer {
  import opened Bytes
  import opened Folds
  import opened Futures
  import opened FuturesSafety

  // A callback is held or not; calling one hands it a copy of the values.
  datatype Container<+T> = Container(values: seq<T>, required: nat, held: bool)

  datatype Outcome<+T> = Outcome(after: Container<T>, called: Option<seq<T>>)

  function Added<T>(c: Container<T>, value: T): Outcome<T> {
    var values := c.values + [value];
    if |values| >= c.required && c.held then Outcome(Container(values, c.required, false), Some(values))
    else Outcome(c.(values := values), None)
  }

  function CallbackSet<T>(c: Container<T>): Outcome<T> {
    if |c.values| >= c.required then Outcome(c, Some(c.values)) else Outcome(c.(held := true), None)
  }

  class SharedContainer<T> {
    var values: seq<T>
    const required: nat
    var callback: bool

    function View(): Container<T>
      reads this
    {
      Container(values, required, callback)
    }

    constructor (required: nat)
      ensures View() == Container([], required, false)
    {
      this.required := required;
      values, callback := [], false;
    }

    method AddValue(value: T) returns (called: Option<seq<T>>)
      modifies this
      ensures Outcome(View(), called) == Added(old(View()), value)
    {
      called := None;
      if |values| + 1 >= required {
        values := values + [value];
        if callback {
          called := Some(values);
          callback := false;
        }
      } else {
        values := values + [value];
      }
    }

    method SetCallback() returns (called: Option<seq<T>>)
      modifies this
      ensures Outcome(View(), called) == CallbackSet(old(View()))
    {
      called := None;
      if |values| >= required {
        called := Some(values);
      } else {
        callback := true;
      }
    }
  }

  // ---- any completion order, the callback set at any time

  datatype Event<+T> = Add(value: T) | SetCallback

  datatype History<+T> = History(container: Container<T>, calls: seq<seq<T>>)

  function Happen<T>(h: History<T>, e: Event<T>): History<T> {
    var o := match e { case Add(v) => Added(h.container, v) case SetCallback => CallbackSet(h.container) };
    History(o.after, if o.called.Some? then h.calls + [o.called.value] else h.calls)
  }

  function Events<T>(h: History<T>, es: seq<Event<T>>): History<T> {
    Fold(Happen<T>, h, es)
  }

  function Adds<T>(vs: seq<T>): seq<Event<T>> {
    if vs == [] then [] else [Add(vs[0])] + Adds(vs[1..])
  }

  lemma {:induction false} QuietAdds<T>(h: History<T>, vs: seq<T>)
    requires !h.container.held
    ensures Events(h, Adds(vs)) == h.(container := h.container.(values := h.container.values + vs))
    decreases |vs|
  {
    if vs == [] {
      assert h.container.values + vs == h.container.values;
    } else {
      QuietAdds(Happen(h, Add(vs[0])), vs[1..]);
      assert h.container.values + [vs[0]] + vs[1..] == h.container.values + vs;
    }
  }

  // A held callback is called by the add that makes the number of values the required one.
  lemma {:induction false} HeldAdds<T>(h: History<T>, vs: seq<T>)
    requires h.container.held && |h.container.values| < h.container.required
    ensures var n, all := h.container.required, h.container.values + vs;
            Events(h, Adds(vs)) == if |all| < n then h.(container := h.container.(values := all))
                                   else History(Container(all, n, false), h.calls + [all[..n]])
    decreases |vs|
  {
    var all := h.container.values + vs;
    if vs == [] {
      assert all == h.container.values;
    } else {
      var h' := Happen(h, Add(vs[0]));
      assert h.container.values + [vs[0]] + vs[1..] == all;
      if h'.container.held {
        HeldAdds(h', vs[1..]);
      } else {
        QuietAdds(h', vs[1..]);
        assert all[..h.container.required] == h'.container.values;
      }
    }
  }

  // The values handed over when the callback is set after `before` and followed by `after`: all there are
  // when they are enough already, and else exactly the first n, as soon as there are n.
  function Delivery<T>(n: nat, before: seq<T>, after: seq<T>): seq<seq<T>> {
    if |before| >= n then [before]
    else if |before + after| >= n then [(before + after)[..n]]
    else []
  }

  lemma CollectExact<T>(n: nat, before: seq<T>, after: seq<T>)
    ensures var h := Events(History(Container([], n, false), []), Adds(before) + [SetCallback] + Adds(after));
            && h.calls == Delivery(n, before, after)
            && h.container == Container(before + after, n, |before| < n && |before + after| < n)
  {
    var start: History<T> := History(Container([], n, false), []);
    FoldSplit(Happen<T>, start, Adds(before) + [SetCallback], Adds(after));
    FoldSplit(Happen<T>, start, Adds(before), [SetCallback]);
    QuietAdds(start, before);
    assert [] + before == before;
    var h := Events(start, Adds(before));
    var none: seq<Event<T>> := [];
    assert [SetCallback][1..] == none;
    var k := Events(h, [SetCallback]);
    assert k == Happen(h, SetCallback);
    if |before| >= n {
      QuietAdds(k, after);
    } else {
      HeldAdds(k, after);
    }
  }

  // ---- collect over futures: the terminal callback of every chain adds to one container

  function Values(calls: seq<(nat, V)>): seq<V> {
    seq(|calls|, i requires 0 <= i < |calls| => calls[i].1)
  }

  // What is delivered comes from different futures, in the order in which they completed, and is what
  // their chains denote.
  ghost predicate ComesFrom(p: Program, from: seq<nat>, values: seq<V>) {
    && |from| == |values|
    && (forall i :: 0 <= i < |from| ==> from[i] < |p.chains| && Denotes(p, p.chains[from[i]], values[i]))
    && (forall i, j :: 0 <= i < j < |from| ==> from[i] != from[j])
  }

  function Indices(calls: seq<(nat, V)>): seq<nat> {
    seq(|calls|, i requires 0 <= i < |calls| => calls[i].0)
  }

  // The container of `collect` with its callback set after the first a of these completions.
  function Collected(n: nat, calls: seq<(nat, V)>, a: nat): History<V>
    requires a <= |calls|
  {
    var values := Values(calls);
    Events(History(Container([], n, false), []), Adds(values[..a]) + [SetCallback] + Adds(values[a..]))
  }

  // At any moment of any run, with the callback set after a completions: nothing is delivered before n
  // futures have completed, and whatever is delivered is delivered once, by that many different futures.
  lemma CollectAtAnyTime(p: Program, states: seq<World>, taken: seq<nat>, m: nat, a: nat, n: nat)
    requires IsRun(p, states, taken) && m < |states| && a <= |states[m].calls|
    ensures var values, from := Values(states[m].calls), Indices(states[m].calls);
            var h := Collected(n, states[m].calls, a);
            && (h.calls == [] <==> |values| < n)
            && (|values| >= n ==>
                  var k := if a >= n then a else n;
                  h.calls == [values[..k]] && ComesFrom(p, from[..k], values[..k]))
  {
    hide Events, Step, Start, Denotes;
    var values := Values(states[m].calls);
    RightValueAtMostOnce(p, states, taken, m);
    CollectExact(n, values[..a], values[a..]);
    assert values[..a] + values[a..] == values;
  }

  // The delivery is settled as soon as n futures have completed: at any later moment m it is what the
  // completions up to the moment k say, those first called first.
  lemma CollectIsFixed(p: Program, states: seq<World>, taken: seq<nat>, k: nat, m: nat, a: nat, n: nat)
    requires IsRun(p, states, taken) && k <= m < |states|
    requires a <= |states[k].calls| && n <= |states[k].calls|
    ensures states[k].calls <= states[m].calls
    ensures Collected(n, states[m].calls, a).calls == Collected(n, states[k].calls, a).calls
            == [Values(states[k].calls)[..if a >= n then a else n]]
  {
    hide Collected, Step, Start, Denotes, IsRun, ComesFrom;
    CallsGrow(p, states, taken, k, m);
    CollectAtAnyTime(p, states, taken, k, a, n);
    CollectAtAnyTime(p, states, taken, m, a, n);
    var early, late := Values(states[k].calls), Values(states[m].calls);
    assert forall i :: 0 <= i < |early| ==> early[i] == late[i];
    var j := if a >= n then a else n;
    assert early[..j] == late[..j];
  }

  function Elements(xs: seq<nat>): set<nat> {
    set x | x in xs
  }

  lemma {:induction false} ElementCount(xs: seq<nat>)
    requires forall i, j :: 0 <= i < j < |xs| ==> xs[i] != xs[j]
    ensures |Elements(xs)| == |xs|
    decreases |xs|
  {
    if xs == [] {
      assert Elements(xs) == {};
    } else {
      ElementCount(xs[1..]);
      assert Elements(xs) == Elements(xs[1..]) + {xs[0]};
    }
  }

  function Below(n: nat): (r: set<nat>)
    ensures |r| == n && forall i: nat :: i in r <==> i < n
  {
    if n == 0 then {} else Below(n - 1) + {n - 1}
  }

  // In a complete run all of them have completed, so `collect` of n delivers exactly when it was given n.
  lemma CollectAtTheEnd(p: Program, states: seq<World>, taken: seq<nat>)
    requires IsRun(p, states, taken) && states[|taken|].jobs == map[]
    ensures |states[|taken|].calls| == |p.chains|
  {
    hide Step, Start, Denotes;
    var calls := states[|taken|].calls;
    RightValueAtMostOnce(p, states, taken, |taken|);
    var xs := Indices(calls);
    forall i: nat ensures i < |p.chains| <==> i in xs {
      if i < |p.chains| {
        AllCalledAtTheEnd(p, states, taken, |taken|, i);
        var k :| 0 <= k < |calls| && calls[k].0 == i;
        assert xs[k] == i;
      }
    }
    ElementCount(xs);
    assert Elements(xs) == Below(|p.chains|);
  }
}
