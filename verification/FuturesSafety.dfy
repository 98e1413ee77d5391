/** Every interleaving delivers the right value, once: the part that needs no termination. */
module FuturesSafety {
  import opened Bytes
  import opened SharedState
  import opened Futures

  // Who waits for a value, and where the one promise of that value is kept.
  datatype Target = ToCell(cell: nat) | ToSink(index: nat)
  datatype Holder = InJob(job: nat) | InCell(cell: nat)

  datatype Ghost = Ghost(
    mean: map<nat, Chain>,         // the closed chain whose value belongs in a cell
    pos: map<nat, real>,           // cells feed cells further right
    holder: map<Target, Holder>,   // every value still to come has one producer
    att: map<nat, nat>)            // the job that attaches to a cell

  function CallbackTarget(cb: Callback): Target {
    if cb.Sink? then ToSink(cb.index) else ToCell(cb.target)
  }

  function JobTarget(job: Job): Target {
    match job
    case SetJob(c, _) => ToCell(c)
    case CallJob(cb, _) => CallbackTarget(cb)
    case AttachJob(_, _, last) => CallbackTarget(last)
  }

  // The chain whose value belongs at a target.
  function Wanted(p: Program, g: Ghost, t: Target): Option<Chain> {
    match t
    case ToSink(i) => if i < |p.chains| then Some(p.chains[i]) else None
    case ToCell(c) => if c in g.mean then Some(g.mean[c]) else None
  }

  // A callback on a value of the chain c does right by its target.
  ghost predicate CallbackFits(p: Program, g: Ghost, cb: Callback, c: Chain) {
    var want := Wanted(p, g, CallbackTarget(cb));
    want.Some? &&
    match cb
    case Sink(_) => want.value == c
    case MapTo(f, _) => want.value == Ext(c, Map(f))
    case FlatMapTo(k, _) => want.value == Ext(c, FlatMap(k))
    case ForwardTo(_) => Refines(p, c, want.value)
  }

  ghost predicate CallFits(p: Program, g: Ghost, cb: Callback, v: V) {
    var want := Wanted(p, g, CallbackTarget(cb));
    want.Some? &&
    match cb
    case Sink(_) => Denotes(p, want.value, v)
    case MapTo(f, _) => Denotes(p, want.value, f(v))
    case FlatMapTo(k, _) => Refines(p, p.code(k, v), want.value)
    case ForwardTo(_) => Denotes(p, want.value, v)
  }

  lemma FitsWhenCalled(p: Program, g: Ghost, cb: Callback, c: Chain, v: V)
    requires CallbackFits(p, g, cb, c) && Denotes(p, c, v)
    ensures CallFits(p, g, cb, v)
  {
    match cb
    case Sink(_) =>
    case MapTo(f, _) => MapDenotes(p, c, f, v);
    case FlatMapTo(k, _) => FlatMapDenotes(p, c, k, v);
    case ForwardTo(_) =>
  }

  predicate LeftOf(g: Ghost, c: nat, t: Target) {
    c in g.pos && (t.ToCell? ==> t.cell in g.pos && g.pos[c] < g.pos[t.cell])
  }

  ghost predicate JobFits(p: Program, g: Ghost, job: Job) {
    match job
    case SetJob(c, v) => c in g.mean && Denotes(p, g.mean[c], v)
    case CallJob(cb, v) => CallFits(p, g, cb, v)
    case AttachJob(c, ops, last) =>
      && c in g.mean && LeftOf(g, c, CallbackTarget(last)) && (last.Sink? || last.ForwardTo?)
      && CallbackFits(p, g, last, Chain(g.mean[c].start, g.mean[c].ops + ops))
  }

  ghost predicate JobInv(p: Program, s: World, g: Ghost, t: nat)
    requires t in s.jobs
  {
    var job := s.jobs[t];
    && t < s.nextJob
    && JobTarget(job) in g.holder && g.holder[JobTarget(job)] == InJob(t)
    && (job.AttachJob? ==> job.cell in g.att && g.att[job.cell] == t)
    && JobFits(p, g, job)
  }

  ghost predicate CellInv(p: Program, s: World, g: Ghost, c: nat)
    requires c in s.cells
  {
    var cell := s.cells[c];
    && c < s.nextCell && c in g.mean && c in g.pos
    && (cell.slot.Empty? <==> ToCell(c) in g.holder)
    && (cell.slot.Full? ==> Denotes(p, g.mean[c], cell.slot.value))
    && (if c in g.att then
          && cell.hook == NoHook && !cell.slot.MovedFrom?
          && g.att[c] in s.jobs && s.jobs[g.att[c]].AttachJob? && s.jobs[g.att[c]].cell == c
        else
          || cell.slot.MovedFrom?
          || (cell.slot.Empty? && cell.hook.Hook?))
    && (cell.hook.Hook? ==>
          var cb := cell.hook.callback;
          && c !in g.att && cell.slot.Empty?
          && CallbackTarget(cb) in g.holder && g.holder[CallbackTarget(cb)] == InCell(c)
          && CallbackFits(p, g, cb, g.mean[c]) && LeftOf(g, c, CallbackTarget(cb)))
  }

  ghost predicate HolderInv(p: Program, s: World, g: Ghost, t: Target)
    requires t in g.holder
  {
    && (match t case ToCell(c) => c in s.cells case ToSink(i) => i < |p.chains|)
    && match g.holder[t]
       case InJob(j) => j in s.jobs && JobTarget(s.jobs[j]) == t
       case InCell(c) => c in s.cells && s.cells[c].hook.Hook? && CallbackTarget(s.cells[c].hook.callback) == t
  }

  predicate Called(s: World, i: nat) {
    exists k :: 0 <= k < |s.calls| && s.calls[k].0 == i
  }

  ghost predicate CallsInv(p: Program, s: World, g: Ghost) {
    && !s.broken
    && (forall k :: 0 <= k < |s.calls| ==>
          s.calls[k].0 < |p.chains| && Denotes(p, p.chains[s.calls[k].0], s.calls[k].1))
    && (forall j, k :: 0 <= j < k < |s.calls| ==> s.calls[j].0 != s.calls[k].0)
    && (forall i :: 0 <= i < |p.chains| ==> (ToSink(i) in g.holder <==> !Called(s, i)))
  }

  ghost predicate Inv(p: Program, s: World, g: Ghost) {
    && g.mean.Keys == s.cells.Keys && g.pos.Keys == s.cells.Keys && g.att.Keys <= s.cells.Keys
    && (forall t :: t in s.jobs ==> JobInv(p, s, g, t))
    && (forall c :: c in s.cells ==> CellInv(p, s, g, c))
    && (forall t :: t in g.holder ==> HolderInv(p, s, g, t))
    && CallsInv(p, s, g)
  }

  // ---- what a step leaves alone

  // g' knows all that g knows of the old cells.
  predicate Extends(g: Ghost, g': Ghost) {
    && (forall c :: c in g.mean ==> c in g'.mean && g'.mean[c] == g.mean[c])
    && (forall c :: c in g.pos ==> c in g'.pos && g'.pos[c] == g.pos[c])
  }

  lemma FitsExtend(p: Program, g: Ghost, g': Ghost, job: Job)
    requires Extends(g, g') && JobFits(p, g, job)
    ensures JobFits(p, g', job)
  {
    hide Denotes, Refines, Ext;
  }

  lemma CallbackFitsExtend(p: Program, g: Ghost, g': Ghost, cb: Callback, c: Chain)
    requires Extends(g, g') && CallbackFits(p, g, cb, c)
    ensures CallbackFits(p, g', cb, c)
  {
    hide Denotes, Refines, Ext;
  }

  // Outside the jobs js, the cells ks and the targets ts nothing changes, and nothing outside leans on them.
  ghost predicate Local(s: World, g: Ghost, s': World, g': Ghost, js: set<nat>, ks: set<nat>, ts: set<Target>) {
    && Extends(g, g') && s.nextCell <= s'.nextCell && s.nextJob <= s'.nextJob
    && (forall j :: j !in js ==> (j in s'.jobs <==> j in s.jobs) && (j in s.jobs ==> s'.jobs[j] == s.jobs[j]))
    && (forall c :: c !in ks ==> (c in s'.cells <==> c in s.cells) && (c in s.cells ==> s'.cells[c] == s.cells[c]))
    && (forall t :: t !in ts ==> (t in g'.holder <==> t in g.holder) && (t in g.holder ==> g'.holder[t] == g.holder[t]))
    && (forall c :: c !in ks ==> (c in g'.att <==> c in g.att) && (c in g.att ==> g'.att[c] == g.att[c]))
    && s.cells.Keys <= s'.cells.Keys
  }

  ghost predicate Apart(s: World, g: Ghost, g': Ghost, js: set<nat>, ks: set<nat>, ts: set<Target>) {
    && (forall t :: t in ts && t in g.holder ==> match g.holder[t] case InJob(j) => j in js case InCell(c) => c in ks)
    && (forall t :: t !in ts && t in g.holder ==>
          match g.holder[t] case InJob(j) => j !in js case InCell(c) => c !in ks)
    && (forall c :: ToCell(c) in ts && c !in ks ==> (ToCell(c) in g'.holder <==> ToCell(c) in g.holder))
    && (forall c :: c !in ks && c in g.att ==> g.att[c] !in js)
    && (forall j :: j in s.jobs && j !in js && s.jobs[j].AttachJob? ==>
          s.jobs[j].cell in g'.att && g'.att[s.jobs[j].cell] == j)
  }

  lemma JobFrame(p: Program, s: World, g: Ghost, s': World, g': Ghost,
                 js: set<nat>, ks: set<nat>, ts: set<Target>, j: nat)
    requires Local(s, g, s', g', js, ks, ts) && Apart(s, g, g', js, ks, ts)
    requires j in s.jobs && j !in js && JobInv(p, s, g, j)
    ensures j in s'.jobs && JobInv(p, s', g', j)
  {
    hide JobFits;
    FitsExtend(p, g, g', s.jobs[j]);
  }

  lemma CellFrame(p: Program, s: World, g: Ghost, s': World, g': Ghost,
                  js: set<nat>, ks: set<nat>, ts: set<Target>, c: nat)
    requires Local(s, g, s', g', js, ks, ts) && Apart(s, g, g', js, ks, ts)
    requires c in s.cells && c !in ks && CellInv(p, s, g, c)
    ensures c in s'.cells && CellInv(p, s', g', c)
  {
    hide CallbackFits, Denotes;
    if s.cells[c].hook.Hook? {
      CallbackFitsExtend(p, g, g', s.cells[c].hook.callback, g.mean[c]);
    }
  }

  lemma HolderFrame(p: Program, s: World, g: Ghost, s': World, g': Ghost,
                    js: set<nat>, ks: set<nat>, ts: set<Target>, t: Target)
    requires Local(s, g, s', g', js, ks, ts) && Apart(s, g, g', js, ks, ts)
    requires t in g.holder && t !in ts && HolderInv(p, s, g, t)
    ensures t in g'.holder && HolderInv(p, s', g', t)
  {
  }

  lemma LocalKeeps(p: Program, s: World, g: Ghost, s': World, g': Ghost,
                   js: set<nat>, ks: set<nat>, ts: set<Target>)
    requires Inv(p, s, g) && Local(s, g, s', g', js, ks, ts) && Apart(s, g, g', js, ks, ts)
    requires g'.mean.Keys == s'.cells.Keys && g'.pos.Keys == s'.cells.Keys && g'.att.Keys <= s'.cells.Keys
    requires forall j :: j in js && j in s'.jobs ==> JobInv(p, s', g', j)
    requires forall c :: c in ks && c in s'.cells ==> CellInv(p, s', g', c)
    requires forall t :: t in ts && t in g'.holder ==> HolderInv(p, s', g', t)
    requires CallsInv(p, s', g')
    ensures Inv(p, s', g')
  {
    hide JobInv, CellInv, HolderInv, CallsInv, Apart;
    forall j | j in s'.jobs ensures JobInv(p, s', g', j) {
      if j !in js {
        JobFrame(p, s, g, s', g', js, ks, ts, j);
      }
    }
    forall c | c in s'.cells ensures CellInv(p, s', g', c) {
      if c !in ks {
        CellFrame(p, s, g, s', g', js, ks, ts, c);
      }
    }
    forall t | t in g'.holder ensures HolderInv(p, s', g', t) {
      if t !in ts {
        HolderFrame(p, s, g, s', g', js, ks, ts, t);
      }
    }
  }

  // What the invariant says about one job, one cell and the targets they hold.
  lemma Holds(p: Program, s: World, g: Ghost, t: nat)
    requires Inv(p, s, g) && t in s.jobs
    ensures JobInv(p, s, g, t) && HolderInv(p, s, g, JobTarget(s.jobs[t]))
    ensures s.jobs[t].SetJob? ==> s.jobs[t].cell in s.cells && CellInv(p, s, g, s.jobs[t].cell)
    ensures s.jobs[t].AttachJob? ==> s.jobs[t].cell in s.cells && CellInv(p, s, g, s.jobs[t].cell)
  {
    hide CellInv, JobFits, CallsInv;
  }

  lemma OthersApart(p: Program, s: World, g: Ghost, t: nat)
    requires Inv(p, s, g) && t in s.jobs
    ensures forall u :: u in g.holder && g.holder[u] == InJob(t) ==> u == JobTarget(s.jobs[t])
    ensures forall c :: c in g.att && g.att[c] == t ==> s.jobs[t].AttachJob? && c == s.jobs[t].cell
    ensures forall j :: j in s.jobs && s.jobs[j].AttachJob? ==> s.jobs[j].cell in g.att && g.att[s.jobs[j].cell] == j
  {
    hide JobFits, CallsInv;
    forall c | c in g.att && g.att[c] == t ensures s.jobs[t].AttachJob? && c == s.jobs[t].cell {
      assert CellInv(p, s, g, c);
    }
  }

  lemma CellApart(p: Program, s: World, g: Ghost, c: nat)
    requires Inv(p, s, g) && c in s.cells
    ensures forall u :: u in g.holder && g.holder[u] == InCell(c) ==>
              s.cells[c].hook.Hook? && CallbackTarget(s.cells[c].hook.callback) == u
    ensures g.mean.Keys == s.cells.Keys && g.pos.Keys == s.cells.Keys && g.att.Keys <= s.cells.Keys && !s.broken
  {
    hide JobInv, CellInv;
  }

  lemma CallsFrame(p: Program, s: World, g: Ghost, s': World, g': Ghost)
    requires Inv(p, s, g) && s'.calls == s.calls && !s'.broken
    requires forall i :: ToSink(i) in g'.holder <==> ToSink(i) in g.holder
    ensures CallsInv(p, s', g')
  {
    hide JobInv, CellInv, HolderInv, Denotes;
    assert forall i :: Called(s', i) == Called(s, i);
  }

  // A step gives a meaning to the cell it makes, and changes no other.
  function MeanAfter(p: Program, s: World, t: nat, mean: map<nat, Chain>): map<nat, Chain>
    requires t in s.jobs
  {
    match s.jobs[t]
    case CallJob(FlatMapTo(k, _), v) => mean[s.nextCell := Chain(p.code(k, v).start, [])]
    case AttachJob(c, ops, _) =>
      if ops != [] && c in mean then mean[s.nextCell := Ext(mean[c], ops[0])] else mean
    case _ => mean
  }

  // ---- a promise is set

  // The cell of a set is empty and its value is right.
  lemma SetMeans(p: Program, s: World, g: Ghost, t: nat)
    requires Inv(p, s, g) && t in s.jobs && s.jobs[t].SetJob?
    ensures var c := s.jobs[t].cell;
            && c in s.cells && c in g.mean && Denotes(p, g.mean[c], s.jobs[t].value) && s.cells[c].slot.Empty?
            && s.cells[c].hook != SpentHook
            && ToCell(c) in g.holder && g.holder[ToCell(c)] == InJob(t)
  {
    hide Denotes;
    Holds(p, s, g, t);
  }

  lemma SetQuietKeeps(p: Program, s: World, g: Ghost, t: nat) returns (g': Ghost)
    requires Inv(p, s, g) && t in s.jobs && s.jobs[t].SetJob? && !CellAt(s, s.jobs[t].cell).hook.Hook?
    ensures Inv(p, Step(p, s, t), g')
    ensures g'.mean == MeanAfter(p, s, t, g.mean)
  {
    hide Denotes, Inv, HolderInv, JobFits, CallbackFits, LeftOf;
    Holds(p, s, g, t);
    SetMeans(p, s, g, t);
    OthersApart(p, s, g, t);
    var c, v := s.jobs[t].cell, s.jobs[t].value;
    CellApart(p, s, g, c);
    var s' := Step(p, s, t);
    g' := g.(holder := g.holder - {ToCell(c)});
    CallsFrame(p, s, g, s', g');
    LocalKeeps(p, s, g, s', g', {t}, {c}, {ToCell(c)});
  }

  // The callback waiting in a cell fits the value set there, and holds its target.
  lemma WaitingFits(p: Program, s: World, g: Ghost, c: nat, v: V)
    requires Inv(p, s, g) && c in s.cells && s.cells[c].hook.Hook? && c in g.mean && Denotes(p, g.mean[c], v)
    ensures var cb := s.cells[c].hook.callback;
            && JobFits(p, g, CallJob(cb, v)) && CallbackTarget(cb) != ToCell(c) && c !in g.att
            && CallbackTarget(cb) in g.holder && g.holder[CallbackTarget(cb)] == InCell(c)
            && HolderInv(p, s, g, CallbackTarget(cb))
  {
    hide Denotes, CallbackFits, CallFits;
    assert CellInv(p, s, g, c);
    FitsWhenCalled(p, g, s.cells[c].hook.callback, g.mean[c], v);
  }

  ghost function SetCallsGhost(g: Ghost, t: nat, c: nat, cb: Callback): Ghost {
    g.(holder := (g.holder - {ToCell(c)})[CallbackTarget(cb) := InJob(t)])
  }

  lemma SetCallsLocal(p: Program, s: World, g: Ghost, t: nat)
    requires Inv(p, s, g) && t in s.jobs && s.jobs[t].SetJob? && CellAt(s, s.jobs[t].cell).hook.Hook?
    ensures var c := s.jobs[t].cell;
            var cb := s.cells[c].hook.callback;
            Local(s, g, Step(p, s, t), SetCallsGhost(g, t, c, cb), {t}, {c}, {ToCell(c), CallbackTarget(cb)})
  {
    hide Denotes, Inv, JobFits, CallbackFits, LeftOf, HolderInv, CellInv, JobInv;
    SetMeans(p, s, g, t);
  }

  lemma SetCallsApart(p: Program, s: World, g: Ghost, t: nat)
    requires Inv(p, s, g) && t in s.jobs && s.jobs[t].SetJob? && CellAt(s, s.jobs[t].cell).hook.Hook?
    ensures var c := s.jobs[t].cell;
            var cb := s.cells[c].hook.callback;
            Apart(s, g, SetCallsGhost(g, t, c, cb), {t}, {c}, {ToCell(c), CallbackTarget(cb)})
  {
    hide Denotes, Inv, JobFits, CallbackFits, LeftOf, HolderInv, CellInv, JobInv, Step;
    var c, v := s.jobs[t].cell, s.jobs[t].value;
    SetMeans(p, s, g, t);
    WaitingFits(p, s, g, c, v);
    OthersApart(p, s, g, t);
    CellApart(p, s, g, c);
  }

  lemma SetCallsKeeps(p: Program, s: World, g: Ghost, t: nat) returns (g': Ghost)
    requires Inv(p, s, g) && t in s.jobs && s.jobs[t].SetJob? && CellAt(s, s.jobs[t].cell).hook.Hook?
    ensures Inv(p, Step(p, s, t), g')
    ensures g'.mean == MeanAfter(p, s, t, g.mean)
  {
    hide Denotes, Inv, JobFits, CallbackFits, LeftOf, Local, Apart;
    var c, v := s.jobs[t].cell, s.jobs[t].value;
    SetMeans(p, s, g, t);
    WaitingFits(p, s, g, c, v);
    Holds(p, s, g, t);
    CellApart(p, s, g, c);
    var cb := s.cells[c].hook.callback;
    var s' := Step(p, s, t);
    g' := SetCallsGhost(g, t, c, cb);
    SetCallsLocal(p, s, g, t);
    SetCallsApart(p, s, g, t);
    FitsExtend(p, g, g', CallJob(cb, v));
    CallsFrame(p, s, g, s', g');
    LocalKeeps(p, s, g, s', g', {t}, {c}, {ToCell(c), CallbackTarget(cb)});
  }

  // ---- a callback is called

  // The target of a call is held by the call, and so is not yet served.
  lemma CallMeans(p: Program, s: World, g: Ghost, t: nat)
    requires Inv(p, s, g) && t in s.jobs && s.jobs[t].CallJob?
    ensures var u := JobTarget(s.jobs[t]);
            && t < s.nextJob && u in g.holder && g.holder[u] == InJob(t) && HolderInv(p, s, g, u)
            && (u.ToSink? ==> u.index < |p.chains|)
            && (u.ToCell? ==> u.cell in s.cells && u.cell in g.mean && u.cell in g.pos)
            && CallFits(p, g, s.jobs[t].callback, s.jobs[t].value)
  {
    hide CallFits, CallsInv;
    Holds(p, s, g, t);
  }

  lemma SinkCalls(p: Program, s: World, g: Ghost, i: nat, v: V, s': World, g': Ghost)
    requires Inv(p, s, g) && ToSink(i) in g.holder && i < |p.chains| && Denotes(p, p.chains[i], v)
    requires s'.calls == s.calls + [(i, v)] && !s'.broken && g'.holder == g.holder - {ToSink(i)}
    ensures CallsInv(p, s', g')
  {
    hide JobInv, CellInv, HolderInv, Denotes;
    assert s'.calls[|s.calls|] == (i, v);
    forall j ensures Called(s', j) <==> Called(s, j) || j == i {
      if Called(s, j) {
        var k :| 0 <= k < |s.calls| && s.calls[k].0 == j;
        assert s'.calls[k].0 == j;
      }
    }
  }

  lemma CallSinkKeeps(p: Program, s: World, g: Ghost, t: nat) returns (g': Ghost)
    requires Inv(p, s, g) && t in s.jobs && s.jobs[t].CallJob? && s.jobs[t].callback.Sink?
    ensures Inv(p, Step(p, s, t), g')
    ensures g'.mean == MeanAfter(p, s, t, g.mean)
  {
    hide Denotes, Inv, HolderInv, JobFits;
    CallMeans(p, s, g, t);
    OthersApart(p, s, g, t);
    Broad(p, s, g);
    var i := s.jobs[t].callback.index;
    var s' := Step(p, s, t);
    g' := g.(holder := g.holder - {ToSink(i)});
    SinkCalls(p, s, g, i, s.jobs[t].value, s', g');
    LocalKeeps(p, s, g, s', g', {t}, {}, {ToSink(i)});
  }

  lemma CallSetsKeeps(p: Program, s: World, g: Ghost, t: nat)
    requires Inv(p, s, g) && t in s.jobs && s.jobs[t].CallJob?
    requires s.jobs[t].callback.MapTo? || s.jobs[t].callback.ForwardTo?
    ensures Inv(p, Step(p, s, t), g)
  {
    hide Denotes, Inv;
    CallMeans(p, s, g, t);
    OthersApart(p, s, g, t);
    Broad(p, s, g);
    var s' := Step(p, s, t);
    CallsFrame(p, s, g, s', g);
    LocalKeeps(p, s, g, s', g, {t}, {}, {JobTarget(s.jobs[t])});
  }

  // Names not given out yet are unknown everywhere.
  lemma Broad(p: Program, s: World, g: Ghost)
    requires Inv(p, s, g)
    ensures s.nextCell !in s.cells && s.nextJob !in s.jobs && !s.broken
    ensures ToCell(s.nextCell) !in g.holder && s.nextCell !in g.att
    ensures g.mean.Keys == s.cells.Keys && g.pos.Keys == s.cells.Keys && g.att.Keys <= s.cells.Keys
    ensures forall c :: c in g.att ==> g.att[c] != s.nextJob
    ensures forall u :: u in g.holder ==> g.holder[u] != InJob(s.nextJob) && g.holder[u] != InCell(s.nextCell)
    ensures forall j :: j in s.jobs && s.jobs[j].AttachJob? ==> s.jobs[j].cell in s.cells
  {
    hide JobFits, CallbackFits, Denotes;
    forall c | c in s.cells ensures c < s.nextCell && (c in g.att ==> g.att[c] in s.jobs) {
      assert CellInv(p, s, g, c);
    }
    forall j | j in s.jobs ensures j < s.nextJob && (s.jobs[j].AttachJob? ==> s.jobs[j].cell in s.cells) {
      assert JobInv(p, s, g, j);
    }
    forall u | u in g.holder
      ensures u != ToCell(s.nextCell) && g.holder[u] != InJob(s.nextJob) && g.holder[u] != InCell(s.nextCell)
    {
      assert HolderInv(p, s, g, u);
    }
  }

  // flatmap: the inner future is a new cell left of the target.
  ghost function FlatMapGhost(g: Ghost, t: nat, u: nat, c: nat, inner: Chain, d: nat): Ghost
    requires d in g.pos
  {
    g.(mean := g.mean[c := Chain(inner.start, [])],
       pos := g.pos[c := g.pos[d] - 1.0],
       holder := g.holder[ToCell(c) := InJob(u)],
       att := g.att[c := t])
  }

  lemma CallFlatMapFits(p: Program, s: World, g: Ghost, t: nat)
    requires Inv(p, s, g) && t in s.jobs && s.jobs[t].CallJob? && s.jobs[t].callback.FlatMapTo?
    ensures var d, inner := s.jobs[t].callback.target, p.code(s.jobs[t].callback.tag, s.jobs[t].value);
            && d in g.pos
            && var g' := FlatMapGhost(g, t, s.nextJob, s.nextCell, inner, d);
               && Extends(g, g')
               && JobFits(p, g', AttachJob(s.nextCell, inner.ops, ForwardTo(d)))
               && JobFits(p, g', SetJob(s.nextCell, inner.start))
  {
    hide Denotes, Inv;
    CallMeans(p, s, g, t);
    Broad(p, s, g);
    var inner := p.code(s.jobs[t].callback.tag, s.jobs[t].value);
    StartDenotes(p, inner.start);
    assert Chain(inner.start, [] + inner.ops) == inner;
  }

  lemma CallFlatMapLocal(p: Program, s: World, g: Ghost, t: nat)
    requires Inv(p, s, g) && t in s.jobs && s.jobs[t].CallJob? && s.jobs[t].callback.FlatMapTo?
    ensures var d, inner := s.jobs[t].callback.target, p.code(s.jobs[t].callback.tag, s.jobs[t].value);
            && d in g.pos
            && var c, u := s.nextCell, s.nextJob;
               Local(s, g, Step(p, s, t), FlatMapGhost(g, t, u, c, inner, d), {t, u}, {c}, {ToCell(c), ToCell(d)})
  {
    hide Denotes, Inv, JobFits, CallFits, HolderInv;
    CallMeans(p, s, g, t);
    Broad(p, s, g);
  }

  lemma CallFlatMapApart(p: Program, s: World, g: Ghost, t: nat)
    requires Inv(p, s, g) && t in s.jobs && s.jobs[t].CallJob? && s.jobs[t].callback.FlatMapTo?
    ensures var d, inner := s.jobs[t].callback.target, p.code(s.jobs[t].callback.tag, s.jobs[t].value);
            && d in g.pos && d in s.cells
            && var c, u := s.nextCell, s.nextJob;
               Apart(s, g, FlatMapGhost(g, t, u, c, inner, d), {t, u}, {c}, {ToCell(c), ToCell(d)})
  {
    hide Denotes, Inv, JobFits, CallFits, HolderInv, Step;
    CallMeans(p, s, g, t);
    OthersApart(p, s, g, t);
    Broad(p, s, g);
  }

  lemma CallFlatMapKeeps(p: Program, s: World, g: Ghost, t: nat) returns (g': Ghost)
    requires Inv(p, s, g) && t in s.jobs && s.jobs[t].CallJob? && s.jobs[t].callback.FlatMapTo?
    ensures Inv(p, Step(p, s, t), g')
    ensures g'.mean == MeanAfter(p, s, t, g.mean)
  {
    hide Denotes, Inv, JobFits, CallFits, Extends, Local, Apart;
    CallMeans(p, s, g, t);
    Broad(p, s, g);
    CallFlatMapFits(p, s, g, t);
    CallFlatMapLocal(p, s, g, t);
    CallFlatMapApart(p, s, g, t);
    var d, inner := s.jobs[t].callback.target, p.code(s.jobs[t].callback.tag, s.jobs[t].value);
    var c, u := s.nextCell, s.nextJob;
    var s' := Step(p, s, t);
    g' := FlatMapGhost(g, t, u, c, inner, d);
    CallsFrame(p, s, g, s', g');
    LocalKeeps(p, s, g, s', g', {t, u}, {c}, {ToCell(c), ToCell(d)});
  }

  // ---- an operation or the last callback is attached

  lemma AttachMeans(p: Program, s: World, g: Ghost, t: nat)
    requires Inv(p, s, g) && t in s.jobs && s.jobs[t].AttachJob?
    ensures var c, last := s.jobs[t].cell, s.jobs[t].last;
            var u := CallbackTarget(last);
            && t < s.nextJob && c < s.nextCell && c in s.cells && c in g.mean && c in g.pos
            && c in g.att && g.att[c] == t
            && s.cells[c].hook == NoHook && !s.cells[c].slot.MovedFrom?
            && (s.cells[c].slot.Empty? <==> ToCell(c) in g.holder)
            && (s.cells[c].slot.Full? ==> Denotes(p, g.mean[c], s.cells[c].slot.value))
            && u in g.holder && g.holder[u] == InJob(t) && HolderInv(p, s, g, u)
            && u != ToCell(c) && LeftOf(g, c, u) && (last.Sink? || last.ForwardTo?)
            && CallbackFits(p, g, last, Chain(g.mean[c].start, g.mean[c].ops + s.jobs[t].ops))
  {
    hide Denotes, CallbackFits;
    Holds(p, s, g, t);
  }

  ghost function AttachEndGhost(g: Ghost, c: nat, u: Target): Ghost {
    g.(holder := g.holder[u := InCell(c)], att := g.att - {c})
  }

  lemma AttachEndLocal(p: Program, s: World, g: Ghost, t: nat, g': Ghost)
    requires Inv(p, s, g) && t in s.jobs && s.jobs[t].AttachJob? && s.jobs[t].ops == []
    requires var c, u := s.jobs[t].cell, CallbackTarget(s.jobs[t].last);
             g' == AttachEndGhost(g, c, u) || g' == g.(att := g.att - {c})
    ensures Local(s, g, Step(p, s, t), g', {t}, {s.jobs[t].cell}, {CallbackTarget(s.jobs[t].last)})
  {
    hide Denotes, Inv, CallbackFits, JobFits, HolderInv, LeftOf;
    AttachMeans(p, s, g, t);
    CellApart(p, s, g, s.jobs[t].cell);
  }

  lemma AttachEndApart(p: Program, s: World, g: Ghost, t: nat, g': Ghost)
    requires Inv(p, s, g) && t in s.jobs && s.jobs[t].AttachJob? && s.jobs[t].ops == []
    requires var c, u := s.jobs[t].cell, CallbackTarget(s.jobs[t].last);
             g' == AttachEndGhost(g, c, u) || g' == g.(att := g.att - {c})
    ensures Apart(s, g, g', {t}, {s.jobs[t].cell}, {CallbackTarget(s.jobs[t].last)})
  {
    hide Denotes, Inv, CallbackFits, JobFits, HolderInv, LeftOf;
    AttachMeans(p, s, g, t);
    OthersApart(p, s, g, t);
    CellApart(p, s, g, s.jobs[t].cell);
  }

  lemma AttachEndFits(p: Program, s: World, g: Ghost, t: nat)
    requires Inv(p, s, g) && t in s.jobs && s.jobs[t].AttachJob? && s.jobs[t].ops == []
    ensures var c, last := s.jobs[t].cell, s.jobs[t].last;
            && c in s.cells && c in g.mean && CallbackFits(p, g, last, g.mean[c])
            && (s.cells[c].slot.Full? ==> JobFits(p, g, CallJob(last, s.cells[c].slot.value)))
  {
    hide Denotes, Inv, CallbackFits, CallFits;
    AttachMeans(p, s, g, t);
    var c, last := s.jobs[t].cell, s.jobs[t].last;
    assert Chain(g.mean[c].start, g.mean[c].ops + []) == g.mean[c];
    if s.cells[c].slot.Full? {
      FitsWhenCalled(p, g, last, g.mean[c], s.cells[c].slot.value);
    }
  }

  lemma AttachEndWaits(p: Program, s: World, g: Ghost, t: nat) returns (g': Ghost)
    requires Inv(p, s, g) && t in s.jobs && s.jobs[t].AttachJob? && s.jobs[t].ops == []
    requires CellAt(s, s.jobs[t].cell).slot.Empty?
    ensures Inv(p, Step(p, s, t), g')
    ensures g'.mean == MeanAfter(p, s, t, g.mean)
  {
    hide Denotes, Inv, CallbackFits, JobFits, Local, Apart;
    AttachMeans(p, s, g, t);
    AttachEndFits(p, s, g, t);
    var c, last := s.jobs[t].cell, s.jobs[t].last;
    CellApart(p, s, g, c);
    var s' := Step(p, s, t);
    g' := AttachEndGhost(g, c, CallbackTarget(last));
    AttachEndLocal(p, s, g, t, g');
    AttachEndApart(p, s, g, t, g');
    CallbackFitsExtend(p, g, g', last, g.mean[c]);
    CallsFrame(p, s, g, s', g');
    LocalKeeps(p, s, g, s', g', {t}, {c}, {CallbackTarget(last)});
  }

  lemma AttachEndCalls(p: Program, s: World, g: Ghost, t: nat) returns (g': Ghost)
    requires Inv(p, s, g) && t in s.jobs && s.jobs[t].AttachJob? && s.jobs[t].ops == []
    requires CellAt(s, s.jobs[t].cell).slot.Full?
    ensures Inv(p, Step(p, s, t), g')
    ensures g'.mean == MeanAfter(p, s, t, g.mean)
  {
    hide Denotes, Inv, CallbackFits, JobFits, Local, Apart;
    AttachMeans(p, s, g, t);
    AttachEndFits(p, s, g, t);
    var c, last := s.jobs[t].cell, s.jobs[t].last;
    CellApart(p, s, g, c);
    var s' := Step(p, s, t);
    g' := g.(att := g.att - {c});
    AttachEndLocal(p, s, g, t, g');
    AttachEndApart(p, s, g, t, g');
    FitsExtend(p, g, g', CallJob(last, s.cells[c].slot.value));
    CallsFrame(p, s, g, s', g');
    LocalKeeps(p, s, g, s', g', {t}, {c}, {CallbackTarget(last)});
  }

  // map or flatmap: the new cell lies between the old one and the target of the last callback.
  ghost function AttachOpGhost(g: Ghost, t: nat, c: nat, d: nat, op: Op, last: Target, keeper: Holder): Ghost
    requires c in g.mean && LeftOf(g, c, last)
  {
    g.(mean := g.mean[d := Ext(g.mean[c], op)],
       pos := g.pos[d := if last.ToSink? then g.pos[c] + 1.0 else (g.pos[c] + g.pos[last.cell]) / 2.0],
       holder := g.holder[ToCell(d) := keeper],
       att := (g.att - {c})[d := t])
  }

  lemma AttachOpFits(p: Program, s: World, g: Ghost, t: nat, keeper: Holder)
    requires Inv(p, s, g) && t in s.jobs && s.jobs[t].AttachJob? && s.jobs[t].ops != []
    ensures var c, ops, last := s.jobs[t].cell, s.jobs[t].ops, s.jobs[t].last;
            var d := s.nextCell;
            && c in g.mean && LeftOf(g, c, CallbackTarget(last))
            && var g' := AttachOpGhost(g, t, c, d, ops[0], CallbackTarget(last), keeper);
               && Extends(g, g')
               && JobFits(p, g', AttachJob(d, ops[1..], last))
               && CallbackFits(p, g', OpCallback(ops[0], d), g.mean[c])
               && LeftOf(g', c, ToCell(d))
               && (s.cells[c].slot.Full? ==> JobFits(p, g', CallJob(OpCallback(ops[0], d), s.cells[c].slot.value)))
  {
    hide Denotes, Refines, Inv;
    AttachMeans(p, s, g, t);
    Broad(p, s, g);
    var c, ops, last := s.jobs[t].cell, s.jobs[t].ops, s.jobs[t].last;
    var d := s.nextCell;
    var g' := AttachOpGhost(g, t, c, d, ops[0], CallbackTarget(last), keeper);
    assert g.mean[c].ops + ops == (g.mean[c].ops + [ops[0]]) + ops[1..];
    if s.cells[c].slot.Full? {
      FitsWhenCalled(p, g', OpCallback(ops[0], d), g.mean[c], s.cells[c].slot.value);
    }
  }

  lemma AttachOpLocal(p: Program, s: World, g: Ghost, t: nat, keeper: Holder)
    requires Inv(p, s, g) && t in s.jobs && s.jobs[t].AttachJob? && s.jobs[t].ops != []
    ensures var c, d, u, last := s.jobs[t].cell, s.nextCell, s.nextJob, CallbackTarget(s.jobs[t].last);
            && c in g.mean && LeftOf(g, c, last)
            && var js := if CellAt(s, c).slot.Empty? then {t} else {t, u};
               var g' := AttachOpGhost(g, t, c, d, s.jobs[t].ops[0], last, keeper);
               Local(s, g, Step(p, s, t), g', js, {c, d}, {ToCell(d), last})
  {
    hide Denotes, Inv, JobFits, CallbackFits, HolderInv, Ext, OpCallback, CallbackTarget;
    AttachMeans(p, s, g, t);
    Broad(p, s, g);
  }

  lemma AttachOpApart(p: Program, s: World, g: Ghost, t: nat, keeper: Holder, js: set<nat>)
    requires Inv(p, s, g) && t in s.jobs && s.jobs[t].AttachJob? && s.jobs[t].ops != []
    requires js == {t} || js == {t, s.nextJob}
    ensures var c, d, last := s.jobs[t].cell, s.nextCell, CallbackTarget(s.jobs[t].last);
            && c in g.mean && LeftOf(g, c, last)
            && Apart(s, g, AttachOpGhost(g, t, c, d, s.jobs[t].ops[0], last, keeper), js, {c, d}, {ToCell(d), last})
  {
    hide Denotes, Inv, JobFits, CallbackFits, HolderInv, Step;
    AttachMeans(p, s, g, t);
    OthersApart(p, s, g, t);
    CellApart(p, s, g, s.jobs[t].cell);
    Broad(p, s, g);
  }

  lemma AttachOpWaits(p: Program, s: World, g: Ghost, t: nat) returns (g': Ghost)
    requires Inv(p, s, g) && t in s.jobs && s.jobs[t].AttachJob? && s.jobs[t].ops != []
    requires CellAt(s, s.jobs[t].cell).slot.Empty?
    ensures Inv(p, Step(p, s, t), g')
    ensures g'.mean == MeanAfter(p, s, t, g.mean)
  {
    hide Denotes, Inv, JobFits, CallbackFits, LeftOf, Extends, Local, Apart;
    AttachMeans(p, s, g, t);
    Broad(p, s, g);
    var c, d, last := s.jobs[t].cell, s.nextCell, CallbackTarget(s.jobs[t].last);
    AttachOpFits(p, s, g, t, InCell(c));
    AttachOpLocal(p, s, g, t, InCell(c));
    AttachOpApart(p, s, g, t, InCell(c), {t});
    var s' := Step(p, s, t);
    g' := AttachOpGhost(g, t, c, d, s.jobs[t].ops[0], last, InCell(c));
    CallsFrame(p, s, g, s', g');
    LocalKeeps(p, s, g, s', g', {t}, {c, d}, {ToCell(d), last});
  }

  lemma AttachOpCalls(p: Program, s: World, g: Ghost, t: nat) returns (g': Ghost)
    requires Inv(p, s, g) && t in s.jobs && s.jobs[t].AttachJob? && s.jobs[t].ops != []
    requires CellAt(s, s.jobs[t].cell).slot.Full?
    ensures Inv(p, Step(p, s, t), g')
    ensures g'.mean == MeanAfter(p, s, t, g.mean)
  {
    hide Denotes, Inv, JobFits, CallbackFits, LeftOf, Extends, Local, Apart;
    AttachMeans(p, s, g, t);
    Broad(p, s, g);
    var c, d, u, last := s.jobs[t].cell, s.nextCell, s.nextJob, CallbackTarget(s.jobs[t].last);
    AttachOpFits(p, s, g, t, InJob(u));
    AttachOpLocal(p, s, g, t, InJob(u));
    AttachOpApart(p, s, g, t, InJob(u), {t, u});
    var s' := Step(p, s, t);
    g' := AttachOpGhost(g, t, c, d, s.jobs[t].ops[0], last, InJob(u));
    CallsFrame(p, s, g, s', g');
    LocalKeeps(p, s, g, s', g', {t, u}, {c, d}, {ToCell(d), last});
  }

  lemma StepKeepsInv(p: Program, s: World, g: Ghost, t: nat) returns (g': Ghost)
    requires Inv(p, s, g) && t in s.jobs
    ensures Inv(p, Step(p, s, t), g')
    ensures g'.mean == MeanAfter(p, s, t, g.mean)
  {
    hide Inv, Step;
    match s.jobs[t]
    case SetJob(c, v) =>
      if CellAt(s, c).hook.Hook? {
        g' := SetCallsKeeps(p, s, g, t);
      } else {
        g' := SetQuietKeeps(p, s, g, t);
      }
    case CallJob(cb, v) =>
      match cb {
        case Sink(_) => g' := CallSinkKeeps(p, s, g, t);
        case FlatMapTo(_, _) => g' := CallFlatMapKeeps(p, s, g, t);
        case _ =>
          CallSetsKeeps(p, s, g, t);
          g' := g;
      }
    case AttachJob(c, ops, last) =>
      AttachMeans(p, s, g, t);
      if ops == [] {
        if CellAt(s, c).slot.Empty? {
          g' := AttachEndWaits(p, s, g, t);
        } else {
          g' := AttachEndCalls(p, s, g, t);
        }
      } else if CellAt(s, c).slot.Empty? {
        g' := AttachOpWaits(p, s, g, t);
      } else {
        g' := AttachOpCalls(p, s, g, t);
      }
  }

  // ---- the start

  ghost function StartGhost(cs: seq<Chain>): Ghost
    decreases |cs|
  {
    if cs == [] then Ghost(map[], map[], map[], map[])
    else
      var n := |cs| - 1;
      var g := StartGhost(cs[..n]);
      Ghost(g.mean[n := Chain(cs[n].start, [])], g.pos[n := 0.0],
            g.holder[ToCell(n) := InJob(2 * n)][ToSink(n) := InJob(2 * n + 1)], g.att[n := 2 * n + 1])
  }

  function TargetIndex(t: Target): nat {
    if t.ToCell? then t.cell else t.index
  }

  // What Start and StartGhost say, element by element.
  lemma {:induction false} StartCells(cs: seq<Chain>, c: nat)
    ensures c in Start(cs).cells <==> c < |cs|
    ensures c < |cs| ==> Start(cs).cells[c] == NEW_CELL
    decreases |cs|
  {
    if cs != [] {
      StartCells(cs[..|cs| - 1], c);
    }
  }

  function StartJob(cs: seq<Chain>, j: nat): Job
    requires j < 2 * |cs|
  {
    if j % 2 == 0 then SetJob(j / 2, cs[j / 2].start) else AttachJob(j / 2, cs[j / 2].ops, Sink(j / 2))
  }

  lemma {:induction false} StartJobs(cs: seq<Chain>, j: nat)
    ensures j in Start(cs).jobs <==> j < 2 * |cs|
    ensures j < 2 * |cs| ==> Start(cs).jobs[j] == StartJob(cs, j)
    decreases |cs|
  {
    if cs != [] {
      var n := |cs| - 1;
      StartJobs(cs[..n], j);
      if j < 2 * n {
        assert cs[..n][j / 2] == cs[j / 2];
      }
    }
  }

  lemma {:induction false} StartMaps(cs: seq<Chain>, c: nat)
    ensures var g, n := StartGhost(cs), |cs|;
            && (c in g.mean <==> c < n) && (c in g.pos <==> c < n) && (c in g.att <==> c < n)
            && (c < n ==> g.mean[c] == Chain(cs[c].start, []) && g.att[c] == 2 * c + 1)
    decreases |cs|
  {
    if cs != [] {
      StartMaps(cs[..|cs| - 1], c);
    }
  }

  lemma {:induction false} StartHolders(cs: seq<Chain>, t: Target)
    ensures var g := StartGhost(cs);
            && (t in g.holder <==> TargetIndex(t) < |cs|)
            && (t in g.holder ==> g.holder[t] == InJob(2 * TargetIndex(t) + if t.ToCell? then 0 else 1))
    decreases |cs|
  {
    if cs != [] {
      StartHolders(cs[..|cs| - 1], t);
    }
  }

  lemma StartJobInv(p: Program, j: nat)
    requires j < 2 * |p.chains|
    ensures j in Start(p.chains).jobs && JobInv(p, Start(p.chains), StartGhost(p.chains), j)
  {
    hide Start, StartGhost, Refines, Denotes;
    var i := j / 2;
    StartJobs(p.chains, j);
    StartMaps(p.chains, i);
    StartHolders(p.chains, ToCell(i));
    StartHolders(p.chains, ToSink(i));
    StartDenotes(p, p.chains[i].start);
    assert Chain(p.chains[i].start, [] + p.chains[i].ops) == p.chains[i];
  }

  lemma StartCellInv(p: Program, c: nat)
    requires c < |p.chains|
    ensures c in Start(p.chains).cells && CellInv(p, Start(p.chains), StartGhost(p.chains), c)
  {
    hide Start, StartGhost, Refines, Denotes, CallbackFits;
    StartCells(p.chains, c);
    StartJobs(p.chains, 2 * c + 1);
    StartMaps(p.chains, c);
    StartHolders(p.chains, ToCell(c));
  }

  lemma StartHolderInv(p: Program, t: Target)
    requires t in StartGhost(p.chains).holder
    ensures HolderInv(p, Start(p.chains), StartGhost(p.chains), t)
  {
    hide Start, StartGhost;
    StartHolders(p.chains, t);
    StartCells(p.chains, TargetIndex(t));
    StartJobs(p.chains, 2 * TargetIndex(t));
    StartJobs(p.chains, 2 * TargetIndex(t) + 1);
  }

  lemma StartInv(p: Program)
    ensures Inv(p, Start(p.chains), StartGhost(p.chains))
  {
    hide Start, StartGhost, JobInv, CellInv, HolderInv;
    var s, g := Start(p.chains), StartGhost(p.chains);
    forall j: nat ensures j in s.jobs ==> JobInv(p, s, g, j) {
      StartJobs(p.chains, j);
      if j in s.jobs {
        StartJobInv(p, j);
      }
    }
    forall c: nat
      ensures (c in s.cells <==> c in g.mean) && (c in s.cells <==> c in g.pos) && (c in s.cells <==> c in g.att)
      ensures c in s.cells ==> CellInv(p, s, g, c)
    {
      StartCells(p.chains, c);
      StartMaps(p.chains, c);
      if c in s.cells {
        StartCellInv(p, c);
      }
    }
    forall t | t in g.holder ensures HolderInv(p, s, g, t) {
      StartHolderInv(p, t);
    }
    assert CallsInv(p, s, g) by {
      forall i | 0 <= i < |p.chains| ensures ToSink(i) in g.holder {
        StartHolders(p.chains, ToSink(i));
      }
    }
  }

  // ---- when nothing is left to do

  lemma {:induction false} Leftmost(cells: set<nat>, pos: map<nat, real>) returns (c: nat)
    requires cells != {} && cells <= pos.Keys
    ensures c in cells && forall x :: x in cells ==> pos[c] <= pos[x]
    decreases |cells|
  {
    c :| c in cells;
    if cells - {c} != {} {
      var d := Leftmost(cells - {c}, pos);
      assert forall x :: x in cells && x != c ==> x in cells - {c};
      c := if pos[d] < pos[c] then d else c;
    } else {
      assert forall x :: x in cells && x != c ==> x in cells - {c};
    }
  }

  function Waiting(s: World): set<nat> {
    set c | c in s.cells && s.cells[c].hook.Hook?
  }

  // A cell whose callback waits is fed by another such cell, to its left.
  lemma Feeder(p: Program, s: World, g: Ghost, c: nat) returns (left: nat)
    requires Inv(p, s, g) && s.jobs == map[] && c in Waiting(s)
    ensures left in Waiting(s) && left in g.pos && c in g.pos && g.pos[left] < g.pos[c]
  {
    hide CallbackFits, JobFits, CallsInv, Denotes;
    assert CellInv(p, s, g, c);
    assert HolderInv(p, s, g, ToCell(c));
    left := g.holder[ToCell(c)].cell;
    assert CellInv(p, s, g, left);
  }

  lemma NothingWaits(p: Program, s: World, g: Ghost)
    requires Inv(p, s, g) && s.jobs == map[]
    ensures Waiting(s) == {}
  {
    hide JobInv, CellInv, HolderInv, CallsInv;
    if Waiting(s) != {} {
      var c := Leftmost(Waiting(s), g.pos);
      var left := Feeder(p, s, g, c);
    }
  }

  // A target still to be served is kept by a waiting callback, since no job is left.
  lemma KeptByWaiting(p: Program, s: World, g: Ghost, t: Target)
    requires Inv(p, s, g) && s.jobs == map[] && t in g.holder
    ensures Waiting(s) != {}
  {
    hide JobInv, CellInv, CallsInv;
    assert HolderInv(p, s, g, t);
    assert g.holder[t].cell in Waiting(s);
  }

  lemma AllServed(p: Program, s: World, g: Ghost, t: Target)
    requires Inv(p, s, g) && s.jobs == map[]
    ensures t !in g.holder
  {
    hide Inv;
    NothingWaits(p, s, g);
    if t in g.holder {
      KeptByWaiting(p, s, g, t);
    }
  }

  // ---- nested locks

  // With the lock of c held, a callback called on the spot locks d next: the callback that waits in c, or the
  // one that a job is about to attach to c, which locks a cell it has just made when operations are left.
  predicate LocksNext(s: World, c: nat, d: nat) {
    || (c in Waiting(s) && CallbackTarget(s.cells[c].hook.callback) == ToCell(d))
    || exists t :: t in s.jobs && s.jobs[t].AttachJob? && s.jobs[t].cell == c
                   && if s.jobs[t].ops == [] then CallbackTarget(s.jobs[t].last) == ToCell(d) else d == s.nextCell
  }

  predicate IsLockPath(s: World, path: seq<nat>) {
    forall i :: 0 <= i < |path| - 1 ==> LocksNext(s, path[i], path[i + 1])
  }

  // Further right, or the cell about to be made.
  predicate Before(s: World, g: Ghost, c: nat, d: nat) {
    c in g.pos && (d == s.nextCell || (d in g.pos && g.pos[c] < g.pos[d]))
  }

  lemma LocksGoRight(p: Program, s: World, g: Ghost, c: nat, d: nat)
    requires Inv(p, s, g) && LocksNext(s, c, d)
    ensures Before(s, g, c, d)
  {
    hide CallbackFits, CallsInv, Denotes;
    if c in Waiting(s) && CallbackTarget(s.cells[c].hook.callback) == ToCell(d) {
      assert CellInv(p, s, g, c);
    } else {
      var t :| t in s.jobs && s.jobs[t].AttachJob? && s.jobs[t].cell == c
               && if s.jobs[t].ops == [] then CallbackTarget(s.jobs[t].last) == ToCell(d) else d == s.nextCell;
      AttachMeans(p, s, g, t);
    }
  }

  lemma {:induction false} PathGoesRight(p: Program, s: World, g: Ghost, path: seq<nat>, i: nat, j: nat)
    requires Inv(p, s, g) && IsLockPath(s, path) && i < j < |path|
    ensures Before(s, g, path[i], path[j])
    decreases j
  {
    hide Inv, LocksNext;
    LocksGoRight(p, s, g, path[j - 1], path[j]);
    if i < j - 1 {
      PathGoesRight(p, s, g, path, i, j - 1);
      Broad(p, s, g);
    }
  }

  // ---- runs

  lemma {:induction false} RunKeepsInv(p: Program, states: seq<World>, taken: seq<nat>, n: nat) returns (g: Ghost)
    requires IsRun(p, states, taken) && n < |states|
    ensures Inv(p, states[n], g)
    decreases n
  {
    hide Inv, Step;
    if n == 0 {
      StartInv(p);
      g := StartGhost(p.chains);
    } else {
      g := RunKeepsInv(p, states, taken, n - 1);
      g := StepKeepsInv(p, states[n - 1], g, taken[n - 1]);
    }
  }

  // A terminal callback is recorded when it is called, behind those called before it.
  lemma CallIsRecorded(p: Program, states: seq<World>, taken: seq<nat>, k: nat)
    requires IsRun(p, states, taken) && k < |taken|
    ensures var job := states[k].jobs[taken[k]];
            states[k + 1].calls
            == states[k].calls + if job.CallJob? && job.callback.Sink? then [(job.callback.index, job.value)] else []
  {
    hide Start, Put, Attach;
    assert states[k].calls + [] == states[k].calls;
  }

  // So what has been called at one time is the beginning of what has been called at any later time.
  lemma {:induction false} CallsGrow(p: Program, states: seq<World>, taken: seq<nat>, k: nat, m: nat)
    requires IsRun(p, states, taken) && k <= m < |states|
    ensures states[k].calls <= states[m].calls
    decreases m
  {
    hide Start, Step;
    if k < m {
      CallsGrow(p, states, taken, k, m - 1);
      CallIsRecorded(p, states, taken, m - 1);
    }
  }

  // In every interleaving, at any time: no terminal callback is called twice, each is called with the
  // value its chain denotes, and no emptied callback or value is used.
  lemma RightValueAtMostOnce(p: Program, states: seq<World>, taken: seq<nat>, n: nat)
    requires IsRun(p, states, taken) && n < |states|
    ensures var s := states[n];
            && !s.broken
            && (forall k :: 0 <= k < |s.calls| ==>
          s.calls[k].0 < |p.chains| && Denotes(p, p.chains[s.calls[k].0], s.calls[k].1))
            && (forall j, k :: 0 <= j < k < |s.calls| ==> s.calls[j].0 != s.calls[k].0)
  {
    hide JobInv, CellInv, HolderInv, Denotes;
    var g := RunKeepsInv(p, states, taken, n);
  }

  // When no job is left, every terminal callback has been called.
  lemma AllCalledAtTheEnd(p: Program, states: seq<World>, taken: seq<nat>, n: nat, i: nat)
    requires IsRun(p, states, taken) && n < |states| && states[n].jobs == map[] && i < |p.chains|
    ensures Called(states[n], i)
  {
    hide JobInv, CellInv, HolderInv, Denotes;
    var g := RunKeepsInv(p, states, taken, n);
    AllServed(p, states[n], g, ToSink(i));
  }

  // Two complete runs of the same program call the same callbacks with the same values.
  lemma ScheduleIndependence(p: Program, states: seq<World>, taken: seq<nat>,
                             states': seq<World>, taken': seq<nat>, k: nat)
    requires IsRun(p, states, taken) && states[|taken|].jobs == map[] && k < |states[|taken|].calls|
    requires IsRun(p, states', taken') && states'[|taken'|].jobs == map[]
    ensures states[|taken|].calls[k] in states'[|taken'|].calls
  {
    hide Start, Step, Denotes;
    var a, b := states[|taken|].calls, states'[|taken'|].calls;
    RightValueAtMostOnce(p, states, taken, |taken|);
    RightValueAtMostOnce(p, states', taken', |taken'|);
    AllCalledAtTheEnd(p, states', taken', |taken'|, a[k].0);
    var j :| 0 <= j < |b| && b[j].0 == a[k].0;
    DenotationIsUnique(p, p.chains[a[k].0], a[k].1, b[j].1);
    assert b[j] == a[k];
  }

  // set_value and set_callback call the callback with their cell locked, and with the executor that runs it on
  // the spot that callback locks the next cell, and so on. No cell comes twice on such a path, and two paths
  // that share cells meet them in the same order, so such calls do not wait for each other.
  lemma LocksNestInOrder(p: Program, states: seq<World>, taken: seq<nat>, n: nat, path: seq<nat>, other: seq<nat>)
    requires IsRun(p, states, taken) && n < |states|
    requires IsLockPath(states[n], path) && IsLockPath(states[n], other)
    ensures forall i, j :: 0 <= i < j < |path| ==> path[i] != path[j]
    ensures forall i, j, k, l ::
              (0 <= i < j < |path| && 0 <= k < |other| && 0 <= l < |other|
               && path[i] == other[k] && path[j] == other[l]) ==> k < l
  {
    hide Inv, IsLockPath;
    var s := states[n];
    var g := RunKeepsInv(p, states, taken, n);
    Broad(p, s, g);
    forall i, j | 0 <= i < j < |path| ensures Before(s, g, path[i], path[j]) {
      PathGoesRight(p, s, g, path, i, j);
    }
    forall k, l | 0 <= k < l < |other| ensures Before(s, g, other[k], other[l]) {
      PathGoesRight(p, s, g, other, k, l);
    }
  }
}
