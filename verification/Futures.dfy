/** Futures chained with map and flatmap, run by any number of threads,
    src/async-core/future/future.hpp on top of src/async-core/future/detail/_shared_state.hpp.

    A future is used once, so what hangs on one promise is a chain of operations. The callbacks that the
    source builds from closures are data here. Every job below may be taken by any thread at any time. */
module Futures {
  import opened Bytes
  import opened SharedState

  // Values are integers; nothing looks inside them.
  type V = int

  // A promise that somebody sets to `start`, and the operations put on its future.
  datatype Chain = Chain(start: V, ops: seq<Op>)
  datatype Op = Map(f: V -> V) | FlatMap(tag: int)

  // The function given to a flatmap is named by a tag and looked up in the program, so that it may
  // build chains that name it again, as the write and read loops of src/async-core/io do.
  datatype Program = Program(chains: seq<Chain>, code: (int, V) -> Chain)

  // ---- what a chain denotes

  // The shape of a finite evaluation.
  datatype Deriv = End | ThroughMap(rest: Deriv) | ThroughFlatMap(inner: Deriv, rest: Deriv)

  ghost function Value(p: Program, d: Deriv, v: V, ops: seq<Op>): Option<V>
    decreases d
  {
    match d
    case End => if ops == [] then Some(v) else None
    case ThroughMap(rest) =>
      if ops != [] && ops[0].Map? then Value(p, rest, ops[0].f(v), ops[1..]) else None
    case ThroughFlatMap(inner, rest) =>
      if ops != [] && ops[0].FlatMap? then
        var c := p.code(ops[0].tag, v);
        match Value(p, inner, c.start, c.ops)
        case Some(u) => Value(p, rest, u, ops[1..])
        case None => None
      else None
  }

  ghost predicate Denotes(p: Program, c: Chain, r: V) {
    exists d :: Value(p, d, c.start, c.ops) == Some(r)
  }

  // Every value of a is a value of b.
  ghost predicate Refines(p: Program, a: Chain, b: Chain) {
    forall r :: Denotes(p, a, r) ==> Denotes(p, b, r)
  }

  function Ext(c: Chain, op: Op): Chain {
    Chain(c.start, c.ops + [op])
  }

  ghost function Append(d: Deriv, e: Deriv): Deriv {
    match d
    case End => e
    case ThroughMap(rest) => ThroughMap(Append(rest, e))
    case ThroughFlatMap(inner, rest) => ThroughFlatMap(inner, Append(rest, e))
  }

  lemma {:induction false} AppendValue(p: Program, d: Deriv, e: Deriv, v: V, a: seq<Op>, b: seq<Op>, u: V)
    requires Value(p, d, v, a) == Some(u)
    ensures Value(p, Append(d, e), v, a + b) == Value(p, e, u, b)
    decreases d
  {
    match d
    case End => assert a + b == b;
    case ThroughMap(rest) =>
      assert (a + b)[1..] == a[1..] + b;
      AppendValue(p, rest, e, a[0].f(v), a[1..], b, u);
    case ThroughFlatMap(inner, rest) =>
      assert (a + b)[1..] == a[1..] + b;
      var c := p.code(a[0].tag, v);
      AppendValue(p, rest, e, Value(p, inner, c.start, c.ops).value, a[1..], b, u);
  }

  // A chain has at most one value.
  lemma {:induction false} ValueIsUnique(p: Program, d: Deriv, e: Deriv, v: V, ops: seq<Op>)
    requires Value(p, d, v, ops).Some? && Value(p, e, v, ops).Some?
    ensures d == e
    decreases d
  {
    match d
    case End =>
    case ThroughMap(rest) => ValueIsUnique(p, rest, e.rest, ops[0].f(v), ops[1..]);
    case ThroughFlatMap(inner, rest) =>
      var c := p.code(ops[0].tag, v);
      ValueIsUnique(p, inner, e.inner, c.start, c.ops);
      ValueIsUnique(p, rest, e.rest, Value(p, inner, c.start, c.ops).value, ops[1..]);
  }

  lemma DenotationIsUnique(p: Program, c: Chain, r: V, s: V)
    requires Denotes(p, c, r) && Denotes(p, c, s)
    ensures r == s
  {
    var d :| Value(p, d, c.start, c.ops) == Some(r);
    var e :| Value(p, e, c.start, c.ops) == Some(s);
    ValueIsUnique(p, d, e, c.start, c.ops);
  }

  lemma StartDenotes(p: Program, v: V)
    ensures Denotes(p, Chain(v, []), v)
  {
    assert Value(p, End, v, []) == Some(v);
  }

  lemma MapDenotes(p: Program, c: Chain, f: V -> V, v: V)
    requires Denotes(p, c, v)
    ensures Denotes(p, Ext(c, Map(f)), f(v))
  {
    var d :| Value(p, d, c.start, c.ops) == Some(v);
    var e := ThroughMap(End);
    AppendValue(p, d, e, c.start, c.ops, [Map(f)], v);
    assert [Map(f)][1..] == [];
    assert Value(p, e, v, [Map(f)]) == Value(p, End, f(v), []) == Some(f(v));
  }

  lemma FlatMapDenotes(p: Program, c: Chain, k: int, v: V)
    requires Denotes(p, c, v)
    ensures Refines(p, p.code(k, v), Ext(c, FlatMap(k)))
  {
    var d :| Value(p, d, c.start, c.ops) == Some(v);
    forall r | Denotes(p, p.code(k, v), r) ensures Denotes(p, Ext(c, FlatMap(k)), r) {
      var inner :| Value(p, inner, p.code(k, v).start, p.code(k, v).ops) == Some(r);
      var e := ThroughFlatMap(inner, End);
      AppendValue(p, d, e, c.start, c.ops, [FlatMap(k)], v);
      assert [FlatMap(k)][1..] == [];
      assert Value(p, e, v, [FlatMap(k)]) == Value(p, End, r, []) == Some(r);
    }
  }

  // ---- the machine

  datatype Callback =
    | Sink(index: nat)                          // a terminal on_complete
    | MapTo(f: V -> V, target: nat)             // map: promise.set(func(val))
    | FlatMapTo(tag: int, target: nat)     // flatmap: func(val), then attach the next callback
    | ForwardTo(target: nat)                    // the inner callback of flatmap: promise.set(val2)

  datatype Job =
    | SetJob(cell: nat, value: V)                            // a promise is set
    | CallJob(callback: Callback, value: V)                  // an executor runs a callback
    | AttachJob(cell: nat, ops: seq<Op>, last: Callback)     // the operations are still to be put on a future

  type FutureCell = Cell<V, Callback>

  datatype World = World(
    cells: map<nat, FutureCell>,
    jobs: map<nat, Job>,
    nextCell: nat,
    nextJob: nat,
    calls: seq<(nat, V)>,   // the terminal callbacks called, in order
    broken: bool)           // an emptied callback or value was used

  const NEW_CELL: FutureCell := Cell(Empty, NoHook)

  function CellAt(s: World, c: nat): FutureCell {
    if c in s.cells then s.cells[c] else NEW_CELL
  }

  function OpCallback(op: Op, target: nat): Callback {
    match op
    case Map(f) => MapTo(f, target)
    case FlatMap(k) => FlatMapTo(k, target)
  }

  // The job t becomes what the cell handed to the executor.
  function Dispatched(s: World, t: nat, dispatch: Dispatch<V, Callback>): World {
    match dispatch
    case Nothing => s.(jobs := s.jobs - {t})
    case Call(cb, v) => s.(jobs := s.jobs[t := CallJob(cb, v)])
    case CallSpent => s.(jobs := s.jobs - {t}, broken := true)
  }

  function SetStep(s: World, t: nat, c: nat, v: V): World {
    var e := Put(CellAt(s, c), v);
    Dispatched(s.(cells := s.cells[c := e.cell]), t, e.dispatch)
  }

  function CallStep(p: Program, s: World, t: nat, cb: Callback, v: V): World {
    match cb
    case Sink(i) => s.(jobs := s.jobs - {t}, calls := s.calls + [(i, v)])
    case MapTo(f, d) => s.(jobs := s.jobs[t := SetJob(d, f(v))])
    case ForwardTo(d) => s.(jobs := s.jobs[t := SetJob(d, v)])
    case FlatMapTo(k, d) =>
      var inner := p.code(k, v);
      var c := s.nextCell;
      s.(cells := s.cells[c := NEW_CELL], nextCell := c + 1,
         jobs := s.jobs[t := AttachJob(c, inner.ops, ForwardTo(d))][s.nextJob := SetJob(c, inner.start)],
         nextJob := s.nextJob + 1)
  }

  function AttachStep(s: World, t: nat, c: nat, ops: seq<Op>, last: Callback): World {
    if ops == [] then
      var e := Attach(CellAt(s, c), last);
      Dispatched(s.(cells := s.cells[c := e.cell]), t, e.dispatch)
    else
      var d, u := s.nextCell, s.nextJob;
      var e := Attach(CellAt(s, c), OpCallback(ops[0], d));
      var s' := s.(cells := s.cells[c := e.cell][d := NEW_CELL], nextCell := d + 1,
                   jobs := s.jobs[t := AttachJob(d, ops[1..], last)]);
      match e.dispatch
      case Nothing => s'
      case Call(cb, v) => s'.(jobs := s'.jobs[u := CallJob(cb, v)], nextJob := u + 1)
      case CallSpent => s'.(broken := true)
  }

  function Step(p: Program, s: World, t: nat): World
    requires t in s.jobs
  {
    match s.jobs[t]
    case SetJob(c, v) => SetStep(s, t, c, v)
    case CallJob(cb, v) => CallStep(p, s, t, cb, v)
    case AttachJob(c, ops, last) => AttachStep(s, t, c, ops, last)
  }

  // One promise, its chain and a terminal callback for each element of cs; nothing has happened yet.
  function Start(cs: seq<Chain>): (s: World)
    ensures s.nextCell == |cs| && s.nextJob == 2 * |cs| && s.calls == [] && !s.broken
    decreases |cs|
  {
    if cs == [] then World(map[], map[], 0, 0, [], false)
    else
      var n := |cs| - 1;
      var s := Start(cs[..n]);
      s.(cells := s.cells[n := NEW_CELL], nextCell := n + 1,
         jobs := s.jobs[2 * n := SetJob(n, cs[n].start)][2 * n + 1 := AttachJob(n, cs[n].ops, Sink(n))],
         nextJob := 2 * n + 2)
  }

  // The jobs taken, in the order in which they were taken.
  ghost predicate IsRun(p: Program, states: seq<World>, taken: seq<nat>) {
    && |states| == |taken| + 1 && states[0] == Start(p.chains)
    && forall i :: 0 <= i < |taken| ==> taken[i] in states[i].jobs && states[i + 1] == Step(p, states[i], taken[i])
  }
}
