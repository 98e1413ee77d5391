/** How long a run of futures is: delivering a value through chained callbacks stops exactly when every
    chain has a value, and then every complete run takes the same number of steps. */
module FuturesCost {
  import opened Bytes
  import opened SharedState
  import opened Futures
  import opened FuturesSafety
  import opened Sums

  // ---- the cost of a chain

  ghost predicate Halts(p: Program, v: V, ops: seq<Op>) {
    exists d :: Value(p, d, v, ops).Some?
  }

  ghost predicate HasValue(p: Program, c: Chain) {
    exists r :: Denotes(p, c, r)
  }

  ghost function ValueOf(p: Program, c: Chain): V {
    if HasValue(p, c) then var r :| Denotes(p, c, r); r else 0
  }

  // Two steps for an operation, and what its callback starts.
  function Steps(d: Deriv): nat {
    match d
    case End => 1
    case ThroughMap(rest) => 3 + Steps(rest)
    case ThroughFlatMap(inner, rest) => 5 + Steps(inner) + Steps(rest)
  }

  ghost function Cost(p: Program, v: V, ops: seq<Op>): nat {
    if Halts(p, v, ops) then var d :| Value(p, d, v, ops).Some?; Steps(d) else 0
  }

  lemma CostIs(p: Program, d: Deriv, v: V, ops: seq<Op>)
    requires Value(p, d, v, ops).Some?
    ensures Halts(p, v, ops) && Cost(p, v, ops) == Steps(d)
  {
    var e :| Value(p, e, v, ops).Some? && Cost(p, v, ops) == Steps(e);
    ValueIsUnique(p, d, e, v, ops);
  }

  lemma ValueIs(p: Program, d: Deriv, c: Chain, v: V)
    requires Value(p, d, c.start, c.ops) == Some(v)
    ensures Denotes(p, c, v) && HasValue(p, c) && ValueOf(p, c) == v
  {
    assert Denotes(p, c, v);
    DenotationIsUnique(p, c, v, ValueOf(p, c));
  }

  lemma DenotedIs(p: Program, c: Chain, v: V)
    requires Denotes(p, c, v)
    ensures HasValue(p, c) && ValueOf(p, c) == v
  {
    DenotationIsUnique(p, c, v, ValueOf(p, c));
  }

  lemma HasValueMeansHalts(p: Program, c: Chain)
    ensures HasValue(p, c) <==> Halts(p, c.start, c.ops)
  {
    if Halts(p, c.start, c.ops) {
      var d :| Value(p, d, c.start, c.ops).Some?;
      ValueIs(p, d, c, Value(p, d, c.start, c.ops).value);
    }
  }

  lemma EndCost(p: Program, v: V)
    ensures Halts(p, v, []) && Cost(p, v, []) == 1
  {
    CostIs(p, End, v, []);
  }

  lemma MapCost(p: Program, v: V, ops: seq<Op>)
    requires Halts(p, v, ops) && ops != [] && ops[0].Map?
    ensures var w := ops[0].f(v);
            Halts(p, w, ops[1..]) && Cost(p, v, ops) == 3 + Cost(p, w, ops[1..])
  {
    var d :| Value(p, d, v, ops).Some?;
    CostIs(p, d, v, ops);
    CostIs(p, d.rest, ops[0].f(v), ops[1..]);
  }

  lemma FlatMapCost(p: Program, v: V, ops: seq<Op>)
    requires Halts(p, v, ops) && ops != [] && ops[0].FlatMap?
    ensures var c := p.code(ops[0].tag, v);
            && HasValue(p, c) && Halts(p, c.start, c.ops) && Halts(p, ValueOf(p, c), ops[1..])
            && Cost(p, v, ops) == 5 + Cost(p, c.start, c.ops) + Cost(p, ValueOf(p, c), ops[1..])
  {
    var d :| Value(p, d, v, ops).Some?;
    var c := p.code(ops[0].tag, v);
    var u := Value(p, d.inner, c.start, c.ops).value;
    CostIs(p, d, v, ops);
    ValueIs(p, d.inner, c, u);
    CostIs(p, d.inner, c.start, c.ops);
    CostIs(p, d.rest, u, ops[1..]);
  }

  // The value of a longer chain is the value of its last operation on the value before.
  lemma ExtValue(p: Program, c: Chain, op: Op)
    requires HasValue(p, c) && (op.FlatMap? ==> HasValue(p, p.code(op.tag, ValueOf(p, c))))
    ensures HasValue(p, Ext(c, op))
    ensures ValueOf(p, Ext(c, op)) == if op.Map? then op.f(ValueOf(p, c)) else ValueOf(p, p.code(op.tag, ValueOf(p, c)))
  {
    var v := ValueOf(p, c);
    if op.Map? {
      MapDenotes(p, c, op.f, v);
      DenotedIs(p, Ext(c, op), op.f(v));
    } else {
      FlatMapDenotes(p, c, op.tag, v);
      DenotedIs(p, Ext(c, op), ValueOf(p, p.code(op.tag, v)));
    }
  }

  // ---- the load of a state: the steps still to be taken

  ghost function CallLoad(p: Program, cb: Callback, v: V): nat {
    match cb
    case Sink(_) => 1
    case MapTo(_, _) => 2
    case ForwardTo(_) => 2
    case FlatMapTo(k, _) => 4 + Cost(p, p.code(k, v).start, p.code(k, v).ops)
  }

  ghost function JobLoad(p: Program, mean: map<nat, Chain>, job: Job): nat {
    match job
    case SetJob(_, _) => 1
    case CallJob(cb, v) => CallLoad(p, cb, v)
    case AttachJob(c, ops, last) =>
      (if c in mean then Cost(p, ValueOf(p, mean[c]), ops) else 0) + CallLoad(p, last, 0)
  }

  ghost function CellLoad(p: Program, mean: map<nat, Chain>, c: nat, cell: FutureCell): nat {
    if cell.hook.Hook? && c in mean then CallLoad(p, cell.hook.callback, ValueOf(p, mean[c])) else 0
  }

  ghost function JobLoads(p: Program, s: World, mean: map<nat, Chain>): map<nat, nat> {
    map j | j in s.jobs :: JobLoad(p, mean, s.jobs[j])
  }

  ghost function CellLoads(p: Program, s: World, mean: map<nat, Chain>): map<nat, nat> {
    map c | c in s.cells :: CellLoad(p, mean, c, s.cells[c])
  }

  ghost function Load(p: Program, s: World, mean: map<nat, Chain>): nat {
    Sum(JobLoads(p, s, mean)) + Sum(CellLoads(p, s, mean))
  }

  // Whatever is called or attached has a value.
  ghost predicate CallHalts(p: Program, cb: Callback, v: V) {
    cb.FlatMapTo? ==> HasValue(p, p.code(cb.tag, v))
  }

  ghost predicate JobHalts(p: Program, mean: map<nat, Chain>, job: Job) {
    match job
    case SetJob(_, _) => true
    case CallJob(cb, v) => CallHalts(p, cb, v)
    case AttachJob(c, ops, _) => c in mean && Halts(p, ValueOf(p, mean[c]), ops)
  }

  ghost predicate CellHalts(p: Program, mean: map<nat, Chain>, c: nat, cell: FutureCell) {
    && c in mean && HasValue(p, mean[c])
    && (cell.hook.Hook? ==> CallHalts(p, cell.hook.callback, ValueOf(p, mean[c])))
  }

  ghost predicate Halting(p: Program, s: World, mean: map<nat, Chain>) {
    && (forall j :: j in s.jobs ==> JobHalts(p, mean, s.jobs[j]))
    && (forall c :: c in s.cells ==> CellHalts(p, mean, c, s.cells[c]))
  }

  // ---- a step takes one off the load

  ghost predicate MeansMore(mean: map<nat, Chain>, mean': map<nat, Chain>) {
    forall c :: c in mean ==> c in mean' && mean'[c] == mean[c]
  }

  // The jobs and cells a step does not name keep their load.
  lemma JobLoadsFrame(p: Program, s: World, mean: map<nat, Chain>, s': World, mean': map<nat, Chain>, j: nat)
    requires Halting(p, s, mean) && MeansMore(mean, mean') && j in s.jobs && j in s'.jobs && s'.jobs[j] == s.jobs[j]
    ensures JobHalts(p, mean', s'.jobs[j]) && JobLoad(p, mean', s'.jobs[j]) == JobLoad(p, mean, s.jobs[j])
  {
    hide Halts, HasValue, ValueOf, Cost;
    assert JobHalts(p, mean, s.jobs[j]);
  }

  lemma CellLoadsFrame(p: Program, s: World, mean: map<nat, Chain>, s': World, mean': map<nat, Chain>, c: nat)
    requires Halting(p, s, mean) && MeansMore(mean, mean') && c in s.cells && c in s'.cells && s'.cells[c] == s.cells[c]
    ensures CellHalts(p, mean', c, s'.cells[c])
    ensures CellLoad(p, mean', c, s'.cells[c]) == CellLoad(p, mean, c, s.cells[c])
  {
    hide Halts, HasValue, ValueOf, Cost;
    assert CellHalts(p, mean, c, s.cells[c]);
  }

  ghost function JobLoadAt(p: Program, s: World, mean: map<nat, Chain>, j: nat): nat {
    if j in s.jobs then JobLoad(p, mean, s.jobs[j]) else 0
  }

  ghost function CellLoadAt(p: Program, s: World, mean: map<nat, Chain>, c: nat): nat {
    if c in s.cells then CellLoad(p, mean, c, s.cells[c]) else 0
  }

  // Only the jobs t and u and the cells c and d differ.
  ghost predicate Touches(s: World, s': World, t: nat, u: nat, c: nat, d: nat) {
    && t != u && c != d
    && (forall j :: j != t && j != u ==>
          (j in s'.jobs <==> j in s.jobs) && (j in s.jobs ==> s'.jobs[j] == s.jobs[j]))
    && (forall x :: x != c && x != d ==>
          (x in s'.cells <==> x in s.cells) && (x in s.cells ==> s'.cells[x] == s.cells[x]))
  }

  lemma JobSum(p: Program, s: World, mean: map<nat, Chain>, s': World, mean': map<nat, Chain>,
               t: nat, u: nat, c: nat, d: nat)
    requires Halting(p, s, mean) && MeansMore(mean, mean') && Touches(s, s', t, u, c, d)
    ensures Sum(JobLoads(p, s', mean')) + JobLoadAt(p, s, mean, t) + JobLoadAt(p, s, mean, u)
            == Sum(JobLoads(p, s, mean)) + JobLoadAt(p, s', mean', t) + JobLoadAt(p, s', mean', u)
  {
    hide Halting, JobLoad, Sum;
    var a, b := JobLoads(p, s, mean), JobLoads(p, s', mean');
    forall j | j in s.jobs && j != t && j != u ensures b[j] == a[j] {
      JobLoadsFrame(p, s, mean, s', mean', j);
    }
    SumsAgree(a, b, t, u);
  }

  lemma CellSum(p: Program, s: World, mean: map<nat, Chain>, s': World, mean': map<nat, Chain>,
               t: nat, u: nat, c: nat, d: nat)
    requires Halting(p, s, mean) && MeansMore(mean, mean') && Touches(s, s', t, u, c, d)
    ensures Sum(CellLoads(p, s', mean')) + CellLoadAt(p, s, mean, c) + CellLoadAt(p, s, mean, d)
            == Sum(CellLoads(p, s, mean)) + CellLoadAt(p, s', mean', c) + CellLoadAt(p, s', mean', d)
  {
    hide Halting, CellLoad, Sum;
    var a, b := CellLoads(p, s, mean), CellLoads(p, s', mean');
    forall x | x in s.cells && x != c && x != d ensures b[x] == a[x] {
      CellLoadsFrame(p, s, mean, s', mean', x);
    }
    SumsAgree(a, b, c, d);
  }

  ghost predicate JobHaltsAt(p: Program, s: World, mean: map<nat, Chain>, j: nat) {
    j in s.jobs ==> JobHalts(p, mean, s.jobs[j])
  }

  ghost predicate CellHaltsAt(p: Program, s: World, mean: map<nat, Chain>, c: nat) {
    c in s.cells ==> CellHalts(p, mean, c, s.cells[c])
  }

  // What a step does to the load, read off the jobs and cells it names.
  ghost predicate TakesOne(p: Program, s: World, mean: map<nat, Chain>, s': World, mean': map<nat, Chain>) {
    Halting(p, s', mean') && Load(p, s', mean') + 1 == Load(p, s, mean)
  }

  lemma Assemble(p: Program, s: World, mean: map<nat, Chain>, s': World, mean': map<nat, Chain>,
               t: nat, u: nat, c: nat, d: nat)
    requires Halting(p, s, mean) && MeansMore(mean, mean') && Touches(s, s', t, u, c, d)
    requires u !in s.jobs && d !in s.cells
    requires JobHaltsAt(p, s', mean', t) && JobHaltsAt(p, s', mean', u)
    requires CellHaltsAt(p, s', mean', c) && CellHaltsAt(p, s', mean', d)
    requires JobLoadAt(p, s', mean', t) + JobLoadAt(p, s', mean', u)
             + CellLoadAt(p, s', mean', c) + CellLoadAt(p, s', mean', d) + 1
             == JobLoadAt(p, s, mean, t) + CellLoadAt(p, s, mean, c)
    ensures TakesOne(p, s, mean, s', mean')
  {
    hide JobHalts, CellHalts, JobLoad, CellLoad, Sum;
    JobSum(p, s, mean, s', mean', t, u, c, d);
    CellSum(p, s, mean, s', mean', t, u, c, d);
    forall j | j in s'.jobs ensures JobHalts(p, mean', s'.jobs[j]) {
      if j != t && j != u {
        JobLoadsFrame(p, s, mean, s', mean', j);
      }
    }
    forall x | x in s'.cells ensures CellHalts(p, mean', x, s'.cells[x]) {
      if x != c && x != d {
        CellLoadsFrame(p, s, mean, s', mean', x);
      }
    }
  }

  lemma SetTakesOne(p: Program, s: World, g: Ghost, t: nat)
    requires Inv(p, s, g) && Halting(p, s, g.mean) && t in s.jobs && s.jobs[t].SetJob?
    ensures TakesOne(p, s, g.mean, Step(p, s, t), MeanAfter(p, s, t, g.mean))
  {
    hide Inv, TakesOne, Denotes, Cost, ValueOf, HasValue;
    SetMeans(p, s, g, t);
    Holds(p, s, g, t);
    Broad(p, s, g);
    var c, v := s.jobs[t].cell, s.jobs[t].value;
    DenotedIs(p, g.mean[c], v);
    assert CellHalts(p, g.mean, c, s.cells[c]);
    Assemble(p, s, g.mean, Step(p, s, t), g.mean, t, s.nextJob, c, s.nextCell);
  }

  lemma CallTakesOne(p: Program, s: World, g: Ghost, t: nat)
    requires Inv(p, s, g) && Halting(p, s, g.mean) && t in s.jobs && s.jobs[t].CallJob?
    requires !s.jobs[t].callback.FlatMapTo?
    ensures TakesOne(p, s, g.mean, Step(p, s, t), MeanAfter(p, s, t, g.mean))
  {
    hide Inv, TakesOne, Denotes, Cost, ValueOf, HasValue, Halts;
    Broad(p, s, g);
    Assemble(p, s, g.mean, Step(p, s, t), g.mean, t, s.nextJob, s.nextCell + 1, s.nextCell);
  }

  lemma FlatMapTakesOne(p: Program, s: World, g: Ghost, t: nat)
    requires Inv(p, s, g) && Halting(p, s, g.mean) && t in s.jobs && s.jobs[t].CallJob?
    requires s.jobs[t].callback.FlatMapTo?
    ensures TakesOne(p, s, g.mean, Step(p, s, t), MeanAfter(p, s, t, g.mean))
  {
    hide Inv, TakesOne, Denotes, Cost, ValueOf, HasValue, Halts;
    Broad(p, s, g);
    var c := s.nextCell;
    assert JobHalts(p, g.mean, s.jobs[t]);
    var inner := p.code(s.jobs[t].callback.tag, s.jobs[t].value);
    StartDenotes(p, inner.start);
    DenotedIs(p, Chain(inner.start, []), inner.start);
    HasValueMeansHalts(p, inner);
    Assemble(p, s, g.mean, Step(p, s, t), MeanAfter(p, s, t, g.mean), t, s.nextJob, c + 1, c);
  }

  lemma AttachEndTakesOne(p: Program, s: World, g: Ghost, t: nat)
    requires Inv(p, s, g) && Halting(p, s, g.mean) && t in s.jobs && s.jobs[t].AttachJob? && s.jobs[t].ops == []
    ensures TakesOne(p, s, g.mean, Step(p, s, t), MeanAfter(p, s, t, g.mean))
  {
    hide Inv, TakesOne, Denotes, Cost, ValueOf, HasValue, Halts;
    AttachMeans(p, s, g, t);
    Broad(p, s, g);
    var c := s.jobs[t].cell;
    assert CellHalts(p, g.mean, c, s.cells[c]);
    EndCost(p, ValueOf(p, g.mean[c]));
    Assemble(p, s, g.mean, Step(p, s, t), g.mean, t, s.nextJob, c, s.nextCell);
  }

  lemma AttachOpTakesOne(p: Program, s: World, g: Ghost, t: nat)
    requires Inv(p, s, g) && Halting(p, s, g.mean) && t in s.jobs && s.jobs[t].AttachJob? && s.jobs[t].ops != []
    ensures TakesOne(p, s, g.mean, Step(p, s, t), MeanAfter(p, s, t, g.mean))
  {
    hide Inv, TakesOne, Denotes, Cost, ValueOf, HasValue, Halts;
    AttachMeans(p, s, g, t);
    Broad(p, s, g);
    var c, ops := s.jobs[t].cell, s.jobs[t].ops;
    assert CellHalts(p, g.mean, c, s.cells[c]) && JobHalts(p, g.mean, s.jobs[t]);
    var v := ValueOf(p, g.mean[c]);
    if ops[0].Map? {
      MapCost(p, v, ops);
    } else {
      FlatMapCost(p, v, ops);
    }
    ExtValue(p, g.mean[c], ops[0]);
    if s.cells[c].slot.Full? {
      DenotedIs(p, g.mean[c], s.cells[c].slot.value);
    }
    Assemble(p, s, g.mean, Step(p, s, t), MeanAfter(p, s, t, g.mean), t, s.nextJob, c, s.nextCell);
  }

  lemma StepTakesOne(p: Program, s: World, g: Ghost, t: nat)
    requires Inv(p, s, g) && Halting(p, s, g.mean) && t in s.jobs
    ensures TakesOne(p, s, g.mean, Step(p, s, t), MeanAfter(p, s, t, g.mean))
  {
    hide *;
    match s.jobs[t]
    case SetJob(_, _) => SetTakesOne(p, s, g, t);
    case CallJob(cb, _) =>
      if cb.FlatMapTo? {
        FlatMapTakesOne(p, s, g, t);
      } else {
        CallTakesOne(p, s, g, t);
      }
    case AttachJob(_, ops, _) =>
      if ops == [] {
        AttachEndTakesOne(p, s, g, t);
      } else {
        AttachOpTakesOne(p, s, g, t);
      }
  }

  // ---- whole runs

  ghost predicate AllHaveValues(p: Program) {
    forall i :: 0 <= i < |p.chains| ==> HasValue(p, p.chains[i])
  }

  // The steps that the first n chains take: for each its set, its terminal callback, and what its operations cost.
  ghost function BudgetOf(p: Program, n: nat): nat
    requires n <= |p.chains|
  {
    if n == 0 then 0 else BudgetOf(p, n - 1) + 2 + Cost(p, p.chains[n - 1].start, p.chains[n - 1].ops)
  }

  ghost function Budget(p: Program): nat {
    BudgetOf(p, |p.chains|)
  }

  lemma StartMeans(p: Program, c: nat)
    requires c < |p.chains|
    ensures c in StartGhost(p.chains).mean && HasValue(p, StartGhost(p.chains).mean[c])
    ensures ValueOf(p, StartGhost(p.chains).mean[c]) == p.chains[c].start
  {
    hide StartGhost, Denotes, ValueOf, HasValue;
    StartMaps(p.chains, c);
    StartDenotes(p, p.chains[c].start);
    DenotedIs(p, Chain(p.chains[c].start, []), p.chains[c].start);
  }

  lemma StartHalts(p: Program)
    requires AllHaveValues(p)
    ensures Halting(p, Start(p.chains), StartGhost(p.chains).mean)
  {
    hide Start, StartGhost, HasValue, ValueOf, Halts;
    var s, mean := Start(p.chains), StartGhost(p.chains).mean;
    forall j | j in s.jobs ensures JobHalts(p, mean, s.jobs[j]) {
      StartJobs(p.chains, j);
      StartMeans(p, j / 2);
      HasValueMeansHalts(p, p.chains[j / 2]);
    }
    forall c | c in s.cells ensures CellHalts(p, mean, c, s.cells[c]) {
      StartCells(p.chains, c);
      StartMeans(p, c);
    }
  }

  lemma {:induction false} StartLoad(p: Program, n: nat, mean: map<nat, Chain>)
    requires n <= |p.chains|
    requires forall i: nat :: i < n ==> i in mean && ValueOf(p, mean[i]) == p.chains[i].start
    ensures Load(p, Start(p.chains[..n]), mean) == BudgetOf(p, n)
    decreases n
  {
    hide ValueOf, Cost, Sum;
    var s := Start(p.chains[..n]);
    if n == 0 {
      assert JobLoads(p, s, mean) == map[] && CellLoads(p, s, mean) == map[];
      EmptySum();
    } else {
      StartLoad(p, n - 1, mean);
      StartGrows(p, n, mean);
    }
  }

  lemma StartGrows(p: Program, n: nat, mean: map<nat, Chain>)
    requires 0 < n <= |p.chains| && n - 1 in mean && ValueOf(p, mean[n - 1]) == p.chains[n - 1].start
    ensures var chain := p.chains[n - 1];
            Load(p, Start(p.chains[..n]), mean)
            == Load(p, Start(p.chains[..n - 1]), mean) + 2 + Cost(p, chain.start, chain.ops)
  {
    hide ValueOf, Cost, Sum;
    var cs, m := p.chains[..n], n - 1;
    assert cs[..m] == p.chains[..m];
    var r, s := Start(p.chains[..m]), Start(cs);
    StartJobs(p.chains[..m], 2 * m);
    StartJobs(p.chains[..m], 2 * m + 1);
    SumsAgree(JobLoads(p, r, mean), JobLoads(p, s, mean), 2 * m, 2 * m + 1);
    StartCellsGrow(p, n, mean);
  }

  lemma StartCellsGrow(p: Program, n: nat, mean: map<nat, Chain>)
    requires 0 < n <= |p.chains|
    ensures Sum(CellLoads(p, Start(p.chains[..n]), mean)) == Sum(CellLoads(p, Start(p.chains[..n - 1]), mean))
  {
    hide ValueOf, Cost, Sum;
    var cs, m := p.chains[..n], n - 1;
    assert cs[..m] == p.chains[..m];
    StartCells(p.chains[..m], m);
    SumsAgree(CellLoads(p, Start(p.chains[..m]), mean), CellLoads(p, Start(cs), mean), m, m + 1);
  }

  lemma {:induction false} RunLoad(p: Program, states: seq<World>, taken: seq<nat>, n: nat) returns (g: Ghost)
    requires AllHaveValues(p) && IsRun(p, states, taken) && n < |states|
    ensures Inv(p, states[n], g) && Halting(p, states[n], g.mean) && Load(p, states[n], g.mean) + n == Budget(p)
    decreases n
  {
    hide Inv, Step, Start, AllHaveValues, Halting, Load, BudgetOf, MeanAfter;
    if n == 0 {
      StartInv(p);
      StartHalts(p);
      g := StartGhost(p.chains);
      forall i: nat | i < |p.chains| ensures i in g.mean && ValueOf(p, g.mean[i]) == p.chains[i].start {
        StartMeans(p, i);
      }
      StartLoad(p, |p.chains|, g.mean);
      assert p.chains[..|p.chains|] == p.chains;
    } else {
      var b := RunLoad(p, states, taken, n - 1);
      StepTakesOne(p, states[n - 1], b, taken[n - 1]);
      g := StepKeepsInv(p, states[n - 1], b, taken[n - 1]);
    }
  }

  // A state is out of load exactly when it is out of jobs.
  lemma LoadIsLeft(p: Program, s: World, g: Ghost)
    requires Inv(p, s, g)
    ensures Load(p, s, g.mean) == 0 <==> s.jobs == map[]
  {
    hide Inv, Sum, Cost;
    if s.jobs == map[] {
      NothingWaits(p, s, g);
      assert forall c :: c in s.cells && s.cells[c].hook.Hook? ==> c in Waiting(s);
      ZeroSum(JobLoads(p, s, g.mean));
      ZeroSum(CellLoads(p, s, g.mean));
    } else {
      var j :| j in s.jobs;
      SumWithout(JobLoads(p, s, g.mean), j);
      assert JobLoad(p, g.mean, s.jobs[j]) >= 1;
    }
  }

  // However the threads interleave, a run has at most Budget(p) steps, and it is complete exactly when it has them.
  lemma CompleteExact(p: Program, states: seq<World>, taken: seq<nat>)
    requires AllHaveValues(p) && IsRun(p, states, taken)
    ensures |taken| <= Budget(p)
    ensures states[|taken|].jobs == map[] <==> |taken| == Budget(p)
  {
    hide Inv, Load, Halting, Budget, Start, Step;
    var g := RunLoad(p, states, taken, |taken|);
    LoadIsLeft(p, states[|taken|], g);
  }

  ghost predicate IsCompleteRun(p: Program, states: seq<World>, taken: seq<nat>) {
    IsRun(p, states, taken) && states[|taken|].jobs == map[]
  }

  // Every run of programs that have values goes on to a complete one, whichever jobs are taken.
  lemma {:induction false} RunCompletes(p: Program, states: seq<World>, taken: seq<nat>)
    returns (states': seq<World>, taken': seq<nat>)
    requires AllHaveValues(p) && IsRun(p, states, taken)
    ensures IsCompleteRun(p, states', taken') && states <= states' && taken <= taken'
    decreases Budget(p) - |taken|
  {
    hide Step, Start, Budget, AllHaveValues;
    CompleteExact(p, states, taken);
    if states[|taken|].jobs == map[] {
      states', taken' := states, taken;
    } else {
      var t :| t in states[|taken|].jobs;
      var longer := states + [Step(p, states[|taken|], t)];
      CompleteExact(p, longer, taken + [t]);
      states', taken' := RunCompletes(p, longer, taken + [t]);
    }
  }

  // Some run is complete exactly when every chain has a value.
  lemma CascadeStopsExact(p: Program)
    ensures (exists states, taken :: IsCompleteRun(p, states, taken)) <==> AllHaveValues(p)
  {
    hide Step, Denotes, Inv;
    if AllHaveValues(p) {
      var states, taken := RunCompletes(p, [Start(p.chains)], []);
    }
    if exists states, taken :: IsCompleteRun(p, states, taken) {
      var states: seq<World>, taken: seq<nat> :| IsCompleteRun(p, states, taken);
      forall i | 0 <= i < |p.chains| ensures HasValue(p, p.chains[i]) {
        AllCalledAtTheEnd(p, states, taken, |taken|, i);
        RightValueAtMostOnce(p, states, taken, |taken|);
        var calls := states[|taken|].calls;
        var k :| 0 <= k < |calls| && calls[k].0 == i;
        assert Denotes(p, p.chains[i], calls[k].1);
      }
    }
  }

  // A flatmap that asks for itself again: no value, so no run ends.
  lemma EndlessRetry(v: V)
    ensures var p := Program([Chain(v, [FlatMap(0)])], (k, x) => Chain(x, [FlatMap(k)]));
            !AllHaveValues(p) && !exists states, taken :: IsCompleteRun(p, states, taken)
  {
    var p := Program([Chain(v, [FlatMap(0)])], (k, x) => Chain(x, [FlatMap(k)]));
    forall d ensures Value(p, d, v, [FlatMap(0)]).None? {
      NoValue(p, d, v);
    }
    assert !HasValue(p, p.chains[0]);
    CascadeStopsExact(p);
  }

  lemma {:induction false} NoValue(p: Program, d: Deriv, v: V)
    requires forall k, x :: p.code(k, x) == Chain(x, [FlatMap(k)])
    ensures Value(p, d, v, [FlatMap(0)]).None?
    decreases d
  {
    match d
    case End =>
    case ThroughMap(_) =>
    case ThroughFlatMap(inner, _) => NoValue(p, inner, v);
  }
}
