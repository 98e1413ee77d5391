/** The static thread pool, src/async-core/executors/StaticThreadPool.hpp: N workers receive from one
    channel, and shutdown sends N empty jobs and joins. Every step below is a step of `Channel`. */
module ThreadPool {
  import opened Bytes
  import opened MpmcQueue
  import opened Channel

  type Job = nat
  type Item = Option<Job>   // None makes one worker leave its loop

  // Idle: at the top of the loop. Leaving: the loop is left, the receiver still lives.
  // Crashed: recv reported a closed channel and the worker threw.
  datatype Worker = Idle | Popping | Running(job: Job) | Leaving | Gone | Crashed

  datatype Phase = Open | Poisoning(pills: nat) | Joining | Joined

  datatype Pool = Pool(
    size: nat,
    ch: State<Item>,
    workers: map<nat, Worker>,  // worker i is thread i and holds receiver i
    phase: Phase,
    submitted: seq<Job>,        // history: the jobs the channel took
    started: seq<Job>)          // history: the jobs workers began to run

  datatype Move =
    | Execute(job: Job, woken: Option<nat>)
    | StartShutdown
    | SendPill(woken: Option<nat>)
    | StartJoin
    | EndJoin
    | Enter(worker: nat)
    | WorkerTurn(worker: nat)
    | Spurious(worker: nat)
    | Finish(worker: nat)
    | Leave(worker: nat)

  const SENDER: nat := 1   // to_workers

  function Ids(n: nat): (ids: set<nat>)
    ensures |ids| == n && forall i :: i in ids <==> 1 <= i <= n
  {
    if n == 0 then {} else Ids(n - 1) + {n}
  }

  // The channel of create(n) once k workers have been given their copies of the receiver.
  function Handing(k: nat): State<Item> {
    State(Shared([], 1 + k, 1), {0}, Ids(k) + {0}, map[], [], [])
  }

  // The channel of create(n): the pool keeps a copy of the sender, and the local handles have ended.
  function CreatedChannel(n: nat): State<Item> {
    State(Shared([], n, 1), {SENDER}, Ids(n), map[], [], [])
  }

  function Create(n: nat): Pool {
    Pool(n, CreatedChannel(n), map i | i in Ids(n) :: Idle, Open, [], [])
  }

  lemma HandNone()
    ensures Handing(0) == Init()
  {
    assert Ids(0) + {0} == {0};
  }

  lemma HandOne(k: nat)
    requires k > 0
    ensures Enabled(Handing(k - 1), CloneReceiver(0, k)) && Apply(Handing(k - 1), CloneReceiver(0, k)) == Handing(k)
  {
    assert Ids(k - 1) + {0} + {k} == Ids(k) + {0};
  }

  // The pool's channel is reached from a new channel by copying and ending handles.
  lemma {:induction false} CreateHandsOut(k: nat) returns (states: seq<State<Item>>, steps: seq<Step<Item>>)
    ensures IsRun(states, steps) && states[0] == Init() && states[|steps|] == Handing(k)
  {
    hide Enabled, Apply, Handing, Init;
    if k == 0 {
      HandNone();
      states, steps := [Init()], [];
    } else {
      HandOne(k);
      states, steps := CreateHandsOut(k - 1);
      states, steps := Extended(states, steps, CloneReceiver(0, k));
    }
  }

  lemma Extended(states: seq<State<Item>>, steps: seq<Step<Item>>, step: Step<Item>)
    returns (more: seq<State<Item>>, moreSteps: seq<Step<Item>>)
    requires IsRun(states, steps) && Enabled(states[|steps|], step)
    ensures IsRun(more, moreSteps) && more[0] == states[0] && |moreSteps| == |steps| + 1
    ensures more[|moreSteps|] == Apply(states[|steps|], step)
  {
    hide Enabled, Apply;
    more, moreSteps := states + [Apply(states[|steps|], step)], steps + [step];
  }

  lemma CreateIsARun(n: nat) returns (states: seq<State<Item>>, steps: seq<Step<Item>>)
    ensures IsRun(states, steps) && states[0] == Init() && states[|steps|] == CreatedChannel(n)
  {
    states, steps := CreateHandsOut(n);
    states, steps := Extended(states, steps, CloneSender(0, SENDER));
    states, steps := Extended(states, steps, DropSender(0));
    assert !InUse(states[|steps|], 0);
    states, steps := Extended(states, steps, DropReceiver(0));
    assert {0} + {SENDER} - {0} == {SENDER};
    assert Ids(n) + {0} - {0} == Ids(n);
  }

  lemma CreatedIsSound(n: nat)
    ensures PoolInv(Create(n))
  {
    hide Ids;
    var p := Create(n);
    assert Poisoned(p.workers) == {};
    assert HistoriesMatch(p, [], []);
    assert Sleepers(map[]) == {};
  }

  // The step that a move makes on the channel.
  function ChannelStep(p: Pool, m: Move): Option<Step<Item>> {
    match m
    case Execute(job, woken) => Some(Send(SENDER, Some(job), woken))
    case SendPill(woken) => Some(Send(SENDER, None, woken))
    case Enter(i) => Some(EnterPop(i, i))
    case WorkerTurn(i) => Some(Turn(i))
    case Spurious(i) => Some(SpuriousWake(i))
    case Leave(i) => Some(DropReceiver(i))
    case _ => None
  }

  ghost predicate CanMove(p: Pool, m: Move) {
    && (match ChannelStep(p, m)
        case Some(step) => Enabled(p.ch, step)
        case None => true)
    && match m
       case Execute(_, _) => p.phase == Open
       case StartShutdown => p.phase == Open
       case SendPill(_) => p.phase.Poisoning? && p.phase.pills < p.size
       case StartJoin => p.phase == Poisoning(p.size)
       case EndJoin => p.phase == Joining && forall i :: i in p.workers ==> p.workers[i] == Gone
       case Enter(i) => i in p.workers && p.workers[i] == Idle
       case WorkerTurn(i) => i in p.workers && p.workers[i] == Popping
       case Spurious(i) => i in p.workers
       case Finish(i) => i in p.workers && p.workers[i].Running?
       case Leave(i) => i in p.workers && p.workers[i] == Leaving
  }

  // What a worker does with what recv answered.
  function AfterRecv(answer: Popped<Item>): Worker {
    match answer
    case MustWait => Popping
    case Closed => Crashed
    case Value(Some(job)) => Running(job)
    case Value(None) => Leaving
  }

  ghost function MoveTo(p: Pool, m: Move): Pool
    requires CanMove(p, m)
  {
    var ch := match ChannelStep(p, m) { case Some(step) => Apply(p.ch, step) case None => p.ch };
    match m
    case Execute(job, _) =>
      p.(ch := ch, submitted := if p.ch.shared.consumers == 0 then p.submitted else p.submitted + [job])
    case StartShutdown => p.(phase := Poisoning(0))
    case SendPill(_) => p.(ch := ch, phase := Poisoning(p.phase.pills + 1))
    case StartJoin => p.(phase := Joining)
    case EndJoin => p.(phase := Joined)
    case Enter(i) => p.(ch := ch, workers := p.workers[i := Popping])
    case WorkerTurn(i) =>
      var w := AfterRecv(PopAnswer(p.ch.shared));
      p.(ch := ch, workers := p.workers[i := w], started := if w.Running? then p.started + [w.job] else p.started)
    case Spurious(_) => p.(ch := ch)
    case Finish(i) => p.(workers := p.workers[i := Idle])
    case Leave(i) => p.(ch := ch, workers := p.workers[i := Gone])
  }

  // ---- invariant

  function Somes(jobs: seq<Job>): seq<Item> {
    if jobs == [] then [] else Somes(jobs[..|jobs| - 1]) + [Some(jobs[|jobs| - 1])]
  }

  function Pills(n: nat): seq<Item> {
    if n == 0 then [] else Pills(n - 1) + [None]
  }

  lemma {:induction false} SomesAre(jobs: seq<Job>)
    ensures |Somes(jobs)| == |jobs| && forall i :: 0 <= i < |jobs| ==> Somes(jobs)[i] == Some(jobs[i])
  {
    if jobs != [] {
      SomesAre(jobs[..|jobs| - 1]);
    }
  }

  lemma {:induction false} PillsAre(n: nat)
    ensures |Pills(n)| == n && forall i :: 0 <= i < n ==> Pills(n)[i] == None
  {
    if n > 0 {
      PillsAre(n - 1);
    }
  }

  lemma SomesSnoc(jobs: seq<Job>, job: Job)
    ensures Somes(jobs + [job]) == Somes(jobs) + [Some(job)]
  {
    assert (jobs + [job])[..|jobs|] == jobs;
  }

  // The workers that have taken their pill.
  function Poisoned(workers: map<nat, Worker>): set<nat> {
    set i | i in workers && (workers[i] == Leaving || workers[i] == Gone)
  }

  function PillsSent(p: Pool): nat {
    match p.phase
    case Open => 0
    case Poisoning(k) => k
    case _ => p.size
  }

  // The handles and the threads inside pop are those of the workers.
  ghost predicate WorkersMatch(workers: map<nat, Worker>, receivers: set<nat>, poppers: map<nat, Popper>) {
    && (forall i :: i in workers ==> workers[i] != Crashed)
    && (forall i :: i in receivers <==> i in workers && workers[i] != Gone)
    && (forall i :: i in poppers <==> i in workers && workers[i] == Popping)
    && (forall i :: i in poppers ==> poppers[i].receiver == i)
  }

  // First jobs, then pills, on both ends of the channel.
  ghost predicate HistoriesMatch(p: Pool, sent: seq<Item>, received: seq<Item>) {
    && sent == Somes(p.submitted) + Pills(PillsSent(p))
    && received == Somes(p.started) + Pills(|Poisoned(p.workers)|)
  }

  ghost predicate PoolInv(p: Pool) {
    && Channel.Inv(p.ch) && p.ch.senders == {SENDER}
    && WorkersMatch(p.workers, p.ch.receivers, p.ch.poppers) && p.workers.Keys == Ids(p.size)
    && HistoriesMatch(p, p.ch.sent, p.ch.received) && PillsSent(p) <= p.size
    && (p.phase == Joined ==> forall i :: i in p.workers ==> p.workers[i] == Gone)
  }

  // What conservation says about jobs and pills: first come, first served.
  lemma JobsBeforePills(a: seq<Job>, c: nat, items: seq<Item>, b: seq<Job>, k: nat)
    requires Somes(a) + Pills(c) + items == Somes(b) + Pills(k)
    ensures a <= b && c <= k
    ensures c > 0 ==> a == b
    ensures items != [] && items[0] != None ==> c == 0
    ensures a == b ==> items == Pills(k - c)
    ensures a != b ==> items != [] && items[0] == Some(b[|a|])
  {
    SomesAre(a);
    SomesAre(b);
    PillsAre(c);
    PillsAre(k);
    var left, right := Somes(a) + Pills(c) + items, Somes(b) + Pills(k);
    assert |left| == |a| + c + |items| == |b| + k;
    assert forall i :: 0 <= i < |a| ==> left[i] == Some(a[i]);
    assert forall i :: |a| <= i < |a| + c ==> left[i] == None;
    assert forall i :: 0 <= i < |items| ==> left[|a| + c + i] == items[i];
    assert forall i :: 0 <= i < |b| ==> right[i] == Some(b[i]);
    assert forall i :: |b| <= i < |right| ==> right[i] == None;
    ItemsAgree(left, right, |a|, |b|);
    assert forall i :: 0 <= i < |a| ==> Some(a[i]) == right[i] == Some(b[i]);
    if a == b {
      PillsAre(k - c);
    }
  }

  lemma ItemsAgree(left: seq<Item>, right: seq<Item>, a: nat, b: nat)
    requires left == right && a <= |left| && b <= |left|
    requires forall i :: 0 <= i < a ==> left[i].Some?
    requires forall i :: 0 <= i < b ==> right[i].Some?
    requires forall i :: b <= i < |right| ==> right[i] == None
    ensures a <= b && (a < b ==> left[a].Some?)
  {
    assert b < |left| ==> right[b] == None;
  }

  lemma Queue(p: Pool)
    requires PoolInv(p)
    ensures var c := |Poisoned(p.workers)|;
            && p.started <= p.submitted && c <= PillsSent(p)
            && (c > 0 ==> p.started == p.submitted)
            && (p.ch.shared.items != [] && p.ch.shared.items[0] != None ==> c == 0)
            && (p.started == p.submitted ==> p.ch.shared.items == Pills(PillsSent(p) - c))
            && (p.started != p.submitted ==>
                  p.ch.shared.items != [] && p.ch.shared.items[0] == Some(p.submitted[|p.started|]))
  {
    JobsBeforePills(p.started, |Poisoned(p.workers)|, p.ch.shared.items, p.submitted, PillsSent(p));
  }

  // Until every worker has taken a pill, some receiver lives.
  lemma SomeReceiverLives(p: Pool)
    requires PoolInv(p) && |Poisoned(p.workers)| < p.size
    ensures p.ch.shared.consumers != 0
  {
    if p.workers.Keys <= Poisoned(p.workers) {
      Cardinality(Ids(p.size), Poisoned(p.workers));
      assert false;
    }
    var i :| i in p.workers && i !in Poisoned(p.workers);
    assert i in p.ch.receivers;
  }

  // What the pool needs to know about the steps of the channel.
  lemma SendEffect(s: State<Item>, value: Item, woken: Option<nat>)
    requires Channel.Inv(s) && Enabled(s, Send(SENDER, value, woken))
    ensures var s' := Apply(s, Send(SENDER, value, woken));
            && Channel.Inv(s') && s'.senders == s.senders && s'.receivers == s.receivers
            && s'.poppers.Keys == s.poppers.Keys
            && (forall t :: t in s.poppers ==> s'.poppers[t].receiver == s.poppers[t].receiver)
            && s'.sent == (if s.shared.consumers != 0 then s.sent + [value] else s.sent)
            && s'.received == s.received
  {
    StepKeepsInv(s, Send(SENDER, value, woken));
  }

  lemma EnterEffect(s: State<Item>, i: nat)
    requires Channel.Inv(s) && Enabled(s, EnterPop(i, i))
    ensures var s' := Apply(s, EnterPop(i, i));
            && Channel.Inv(s') && s' == s.(poppers := s.poppers[i := Popper(i, false)])
  {
    StepKeepsInv(s, EnterPop(i, i));
  }

  lemma WakeEffect(s: State<Item>, i: nat)
    requires Channel.Inv(s) && Enabled(s, SpuriousWake(i))
    ensures i in s.poppers
    ensures var s' := Apply(s, SpuriousWake(i));
            && Channel.Inv(s') && s' == s.(poppers := s.poppers[i := Popper(s.poppers[i].receiver, false)])
  {
    StepKeepsInv(s, SpuriousWake(i));
  }

  lemma DropEffect(s: State<Item>, i: nat)
    requires Channel.Inv(s) && Enabled(s, DropReceiver(i))
    ensures var s' := Apply(s, DropReceiver(i));
            && Channel.Inv(s') && s'.receivers == s.receivers - {i} && s'.poppers == s.poppers
            && s'.senders == s.senders && s'.sent == s.sent && s'.received == s.received
  {
    StepKeepsInv(s, DropReceiver(i));
  }

  lemma TurnEffect(s: State<Item>, t: nat)
    requires Channel.Inv(s) && Enabled(s, Turn(t))
    ensures var s', answer := Apply(s, Turn(t)), PopAnswer(s.shared);
            && Channel.Inv(s') && s'.senders == s.senders && s'.receivers == s.receivers && s'.sent == s.sent
            && s'.poppers.Keys == (if answer == MustWait then s.poppers.Keys else s.poppers.Keys - {t})
            && (forall u :: u in s'.poppers ==> s'.poppers[u].receiver == s.poppers[u].receiver)
            && s'.received == (if answer.Value? then s.received + [answer.value] else s.received)
            && (answer == Closed ==> s.senders == {})
  {
    StepKeepsInv(s, Turn(t));
  }

  // Worker i changes to w, and its receiver and its place in pop with it.
  lemma WorkerSet(workers: map<nat, Worker>, receivers: set<nat>, poppers: map<nat, Popper>,
                  i: nat, w: Worker, receivers': set<nat>, poppers': map<nat, Popper>)
    requires WorkersMatch(workers, receivers, poppers) && i in workers && workers[i] != Gone && w != Crashed
    requires receivers' == if w == Gone then receivers - {i} else receivers
    requires poppers'.Keys == if w == Popping then poppers.Keys + {i} else poppers.Keys - {i}
    requires forall t :: t in poppers' ==> poppers'[t].receiver == t
    ensures WorkersMatch(workers[i := w], receivers', poppers')
  {
  }

  lemma PoisonedSet(workers: map<nat, Worker>, i: nat, w: Worker)
    requires i in workers
    ensures Poisoned(workers[i := w])
            == if w == Leaving || w == Gone then Poisoned(workers) + {i} else Poisoned(workers) - {i}
  {
  }

  lemma PillSentHistories(p: Pool, q: Pool)
    requires HistoriesMatch(p, p.ch.sent, p.ch.received) && p.phase.Poisoning?
    requires q.submitted == p.submitted && q.started == p.started && q.workers == p.workers
    requires q.phase == Poisoning(p.phase.pills + 1)
    ensures HistoriesMatch(q, p.ch.sent + [None], p.ch.received)
  {
    var k := p.phase.pills;
    assert Somes(p.submitted) + Pills(k) + [None] == Somes(p.submitted) + Pills(k + 1);
  }

  lemma JobSentHistories(p: Pool, q: Pool, job: Job)
    requires HistoriesMatch(p, p.ch.sent, p.ch.received) && p.phase == Open
    requires q.started == p.started && q.workers == p.workers && q.phase == Open
    requires q.submitted == p.submitted + [job]
    ensures HistoriesMatch(q, p.ch.sent + [Some(job)], p.ch.received)
  {
    SomesSnoc(p.submitted, job);
    assert Somes(p.submitted) + Pills(0) == Somes(p.submitted);
    assert Somes(p.submitted + [job]) + Pills(0) == Somes(p.submitted + [job]);
  }

  lemma PillTakenHistories(p: Pool, q: Pool)
    requires HistoriesMatch(p, p.ch.sent, p.ch.received)
    requires q.submitted == p.submitted && q.started == p.started && PillsSent(q) == PillsSent(p)
    requires |Poisoned(q.workers)| == |Poisoned(p.workers)| + 1
    ensures HistoriesMatch(q, p.ch.sent, p.ch.received + [None])
  {
    var c := |Poisoned(p.workers)|;
    assert Somes(p.started) + Pills(c) + [None] == Somes(p.started) + Pills(c + 1);
  }

  lemma JobTakenHistories(p: Pool, q: Pool, job: Job)
    requires HistoriesMatch(p, p.ch.sent, p.ch.received) && |Poisoned(p.workers)| == 0
    requires q.submitted == p.submitted && q.started == p.started + [job] && PillsSent(q) == PillsSent(p)
    requires Poisoned(q.workers) == Poisoned(p.workers)
    ensures HistoriesMatch(q, p.ch.sent, p.ch.received + [Some(job)])
  {
    SomesSnoc(p.started, job);
    assert Somes(p.started) + Pills(0) == Somes(p.started);
    assert Somes(p.started + [job]) + Pills(0) == Somes(p.started + [job]);
  }

  lemma SendPillKeeps(p: Pool, woken: Option<nat>)
    requires PoolInv(p) && CanMove(p, SendPill(woken))
    ensures PoolInv(MoveTo(p, SendPill(woken)))
  {
    hide Apply, Enabled, Channel.Inv, HistoriesMatch, Somes, Pills;
    var step := Send(SENDER, None, woken);
    assert Enabled(p.ch, step);
    SendEffect(p.ch, None, woken);
    Queue(p);
    SomeReceiverLives(p);
    var q := p.(ch := Apply(p.ch, step), phase := Poisoning(p.phase.pills + 1));
    assert MoveTo(p, SendPill(woken)) == q;
    PillSentHistories(p, q);
  }

  lemma ExecuteKeeps(p: Pool, job: Job, woken: Option<nat>)
    requires PoolInv(p) && CanMove(p, Execute(job, woken))
    ensures PoolInv(MoveTo(p, Execute(job, woken)))
  {
    hide Apply, Enabled, Channel.Inv, HistoriesMatch, Somes, Pills;
    var step := Send(SENDER, Some(job), woken);
    assert Enabled(p.ch, step);
    SendEffect(p.ch, Some(job), woken);
    var q := MoveTo(p, Execute(job, woken));
    if p.ch.shared.consumers != 0 {
      JobSentHistories(p, q, job);
    } else {
      SameHistories(p, q);
    }
  }

  lemma SameHistories(p: Pool, q: Pool)
    requires HistoriesMatch(p, p.ch.sent, p.ch.received)
    requires q.submitted == p.submitted && q.started == p.started && PillsSent(q) == PillsSent(p)
    requires Poisoned(q.workers) == Poisoned(p.workers)
    ensures HistoriesMatch(q, p.ch.sent, p.ch.received)
  {
  }

  lemma TurnHistories(p: Pool, q: Pool, i: nat)
    requires PoolInv(p) && i in p.workers && i !in Poisoned(p.workers)
    requires var w := AfterRecv(PopAnswer(p.ch.shared));
             && q.workers == p.workers[i := w] && w != Crashed
             && q.submitted == p.submitted && q.size == p.size && q.phase == p.phase
             && q.started == (if w.Running? then p.started + [w.job] else p.started)
    ensures var answer := PopAnswer(p.ch.shared);
            HistoriesMatch(q, p.ch.sent, if answer.Value? then p.ch.received + [answer.value] else p.ch.received)
  {
    hide Channel.Inv, HistoriesMatch, WorkersMatch, Poisoned, Somes, Pills, Ids;
    Queue(p);
    var answer: Popped<Item> := PopAnswer(p.ch.shared);
    PoisonedSet(p.workers, i, AfterRecv(answer));
    match answer
    case MustWait => SameHistories(p, q);
    case Value(None) => PillTakenHistories(p, q);
    case Value(Some(job)) => JobTakenHistories(p, q, job);
  }

  lemma WorkerTurnKeeps(p: Pool, i: nat)
    requires PoolInv(p) && CanMove(p, WorkerTurn(i))
    ensures PoolInv(MoveTo(p, WorkerTurn(i)))
  {
    hide Apply, Enabled, Channel.Inv, HistoriesMatch, WorkersMatch, Poisoned, Somes, Pills, Ids, PopAnswer;
    assert Enabled(p.ch, Turn(i));
    TurnEffect(p.ch, i);
    TurnIsOf(p, i);
    var w := AfterRecv(PopAnswer(p.ch.shared));
    var q := MoveTo(p, WorkerTurn(i));
    WorkerSet(p.workers, p.ch.receivers, p.ch.poppers, i, w, q.ch.receivers, q.ch.poppers);
    TurnHistories(p, q, i);
  }

  lemma TurnIsOf(p: Pool, i: nat)
    requires PoolInv(p) && i in p.workers && p.workers[i] == Popping
    ensures i in p.ch.poppers && i !in Poisoned(p.workers)
    ensures forall t :: t in p.ch.poppers ==> p.ch.poppers[t].receiver == t
  {
    hide Channel.Inv, HistoriesMatch;
  }

  lemma PoppersOwn(p: Pool)
    requires PoolInv(p)
    ensures forall t :: t in p.ch.poppers ==> p.ch.poppers[t].receiver == t
  {
    hide Channel.Inv, HistoriesMatch;
  }

  lemma EnterKeeps(p: Pool, i: nat)
    requires PoolInv(p) && CanMove(p, Enter(i))
    ensures PoolInv(MoveTo(p, Enter(i)))
  {
    hide Apply, Enabled, Channel.Inv, HistoriesMatch, WorkersMatch, Poisoned, Somes, Pills, Ids;
    assert Enabled(p.ch, EnterPop(i, i));
    EnterEffect(p.ch, i);
    PoppersOwn(p);
    var q := MoveTo(p, Enter(i));
    WorkerSet(p.workers, p.ch.receivers, p.ch.poppers, i, Popping, q.ch.receivers, q.ch.poppers);
    PoisonedSet(p.workers, i, Popping);
    NotPoisoned(p.workers, i);
    SameHistories(p, q);
  }

  lemma NotPoisoned(workers: map<nat, Worker>, i: nat)
    requires i in workers && workers[i] == Idle
    ensures i !in Poisoned(workers) && Poisoned(workers) - {i} == Poisoned(workers)
  {
  }

  lemma SpuriousKeeps(p: Pool, i: nat)
    requires PoolInv(p) && CanMove(p, Spurious(i))
    ensures PoolInv(MoveTo(p, Spurious(i)))
  {
    hide Apply, Enabled, Channel.Inv, HistoriesMatch, Somes, Pills, Ids;
    assert Enabled(p.ch, SpuriousWake(i));
    WakeEffect(p.ch, i);
    SameHistories(p, MoveTo(p, Spurious(i)));
  }

  lemma LeaveKeeps(p: Pool, i: nat)
    requires PoolInv(p) && CanMove(p, Leave(i))
    ensures PoolInv(MoveTo(p, Leave(i)))
  {
    hide Apply, Enabled, Channel.Inv, HistoriesMatch, Somes, Pills, Ids;
    assert Enabled(p.ch, DropReceiver(i));
    DropEffect(p.ch, i);
    var q := MoveTo(p, Leave(i));
    WorkerSet(p.workers, p.ch.receivers, p.ch.poppers, i, Gone, q.ch.receivers, q.ch.poppers);
    PoisonedSet(p.workers, i, Gone);
    SameHistories(p, q);
  }

  lemma FinishKeeps(p: Pool, i: nat)
    requires PoolInv(p) && CanMove(p, Finish(i))
    ensures PoolInv(MoveTo(p, Finish(i)))
  {
    hide Apply, Enabled, Channel.Inv, HistoriesMatch, Somes, Pills, Ids;
    var q := MoveTo(p, Finish(i));
    WorkerSet(p.workers, p.ch.receivers, p.ch.poppers, i, Idle, q.ch.receivers, q.ch.poppers);
    PoisonedSet(p.workers, i, Idle);
    SameHistories(p, q);
  }

  lemma PhaseMovesKeep(p: Pool, m: Move)
    requires PoolInv(p) && CanMove(p, m) && (m.StartShutdown? || m.StartJoin? || m.EndJoin?)
    ensures PoolInv(MoveTo(p, m))
  {
    hide Channel.Inv, HistoriesMatch, WorkersMatch;
    SameHistories(p, MoveTo(p, m));
  }

  lemma MoveKeepsInv(p: Pool, m: Move)
    requires PoolInv(p) && CanMove(p, m)
    ensures PoolInv(MoveTo(p, m))
  {
    hide PoolInv, CanMove, MoveTo;
    match m
    case Execute(job, woken) => ExecuteKeeps(p, job, woken);
    case SendPill(woken) => SendPillKeeps(p, woken);
    case WorkerTurn(i) => WorkerTurnKeeps(p, i);
    case Enter(i) => EnterKeeps(p, i);
    case Spurious(i) => SpuriousKeeps(p, i);
    case Leave(i) => LeaveKeeps(p, i);
    case Finish(i) => FinishKeeps(p, i);
    case _ => PhaseMovesKeep(p, m);
  }

  // ---- runs

  ghost predicate IsPoolRun(n: nat, pools: seq<Pool>, moves: seq<Move>) {
    && |pools| == |moves| + 1 && pools[0] == Create(n)
    && forall i :: 0 <= i < |moves| ==> CanMove(pools[i], moves[i]) && pools[i + 1] == MoveTo(pools[i], moves[i])
  }

  lemma {:induction false} RunKeepsPool(n: nat, pools: seq<Pool>, moves: seq<Move>, k: nat)
    requires IsPoolRun(n, pools, moves) && k < |pools|
    ensures PoolInv(pools[k]) && pools[k].size == n
    decreases k
  {
    hide PoolInv, CanMove;
    if k == 0 {
      CreatedIsSound(n);
    } else {
      RunKeepsPool(n, pools, moves, k - 1);
      MoveKeepsInv(pools[k - 1], moves[k - 1]);
    }
  }

  // No worker ever sees a closed channel; execute throws exactly when the pool has no worker; no pill is refused.
  lemma NoThrow(n: nat, pools: seq<Pool>, moves: seq<Move>, k: nat)
    requires IsPoolRun(n, pools, moves) && k < |pools|
    ensures var p := pools[k];
            && (forall i :: i in p.workers ==> p.workers[i] != Crashed)
            && (p.phase == Open ==> (p.ch.shared.consumers == 0 <==> n == 0))
            && (p.phase.Poisoning? && p.phase.pills < n ==> p.ch.shared.consumers != 0)
  {
    RunKeepsPool(n, pools, moves, k);
    var p := pools[k];
    Queue(p);
    if PillsSent(p) < n {
      SomeReceiverLives(p);
    }
    if n == 0 {
      assert p.ch.receivers == {};
    }
  }

  // At any time the jobs have started in the order in which they were submitted, each once;
  // when shutdown returns all of them have, the queue is empty and every worker took one pill and left.
  lemma Shutdown(n: nat, pools: seq<Pool>, moves: seq<Move>, k: nat)
    requires IsPoolRun(n, pools, moves) && k < |pools|
    ensures var p := pools[k];
            && p.started <= p.submitted
            && (p.phase == Joined ==>
                  && (n > 0 ==> p.started == p.submitted) && (n == 0 ==> p.submitted == [])
                  && p.ch.shared.items == []
                  && p.workers.Keys == Ids(n) && (forall i :: i in Ids(n) ==> p.workers[i] == Gone)
                  && p.ch.received == Somes(p.submitted) + Pills(n))
  {
    RunKeepsPool(n, pools, moves, k);
    var p := pools[k];
    Queue(p);
    if n == 0 {
      NothingIsTaken(pools, moves, k);
    }
    if p.phase == Joined {
      assert Poisoned(p.workers) == Ids(n);
    }
  }

  lemma {:induction false} NothingIsTaken(pools: seq<Pool>, moves: seq<Move>, k: nat)
    requires IsPoolRun(0, pools, moves) && k < |pools|
    ensures pools[k].submitted == [] && pools[k].started == []
    decreases k
  {
    hide PoolInv, Apply, Enabled;
    if k > 0 {
      NothingIsTaken(pools, moves, k - 1);
      NoThrow(0, pools, moves, k - 1);
      RunKeepsPool(0, pools, moves, k);
      Queue(pools[k]);
    }
  }

  // The jobs handed to execute, in order.
  function Asked(moves: seq<Move>): seq<Job> {
    if moves == [] then []
    else
      var before, last := moves[..|moves| - 1], moves[|moves| - 1];
      if last.Execute? then Asked(before) + [last.job] else Asked(before)
  }

  // A pool with workers takes every job it is given, and no other.
  lemma {:induction false} SubmittedExact(n: nat, pools: seq<Pool>, moves: seq<Move>, k: nat)
    requires IsPoolRun(n, pools, moves) && k < |pools| && n > 0
    ensures pools[k].submitted == Asked(moves[..k])
    decreases k
  {
    hide PoolInv, Apply, Enabled;
    if k > 0 {
      SubmittedExact(n, pools, moves, k - 1);
      NoThrow(n, pools, moves, k - 1);
      assert moves[..k][..k - 1] == moves[..k - 1];
    }
  }

  // A job starts exactly when a worker goes over to running it, and a worker that runs a job goes on to the
  // end of it.
  lemma StartedExact(n: nat, pools: seq<Pool>, moves: seq<Move>, k: nat, i: nat)
    requires IsPoolRun(n, pools, moves) && k < |moves| && i in pools[k].workers
    ensures i in pools[k + 1].workers
    ensures var p, q := pools[k], pools[k + 1];
            && (!p.workers[i].Running? && q.workers[i].Running? ==> q.started == p.started + [q.workers[i].job])
            && (q.started != p.started ==>
                  exists j :: j in q.workers && !p.workers[j].Running? && q.workers[j].Running?)
            && (p.workers[i].Running? ==>
                  q.workers[i] == if moves[k] == Finish(i) then Idle else p.workers[i])
  {
    hide Apply, Enabled;
  }

  // While shutdown joins, some worker that is not asleep can go on: join cannot hang on a lost wake-up.
  lemma JoinIsNotStuck(n: nat, pools: seq<Pool>, moves: seq<Move>, k: nat)
    requires IsPoolRun(n, pools, moves) && k < |pools| && pools[k].phase == Joining
    ensures exists m :: CanMove(pools[k], m) && !m.Spurious?
  {
    RunKeepsPool(n, pools, moves, k);
    var p := pools[k];
    var m := WayOn(p);
    assert CanMove(p, m);
  }

  lemma WayOn(p: Pool) returns (m: Move)
    requires PoolInv(p) && p.phase == Joining
    ensures CanMove(p, m) && !m.Spurious?
  {
    if i :| i in p.workers && p.workers[i] == Idle {
      m := Enter(i);
    } else if i :| i in p.workers && p.workers[i].Running? {
      m := Finish(i);
    } else if i :| i in p.workers && p.workers[i] == Leaving {
      m := Leave(i);
    } else if i :| i in p.workers && p.workers[i] == Popping {
      var u := PillAwaits(p, i);
      m := WorkerTurn(u);
    } else {
      m := EndJoin;
    }
  }

  // A worker still in recv after the last pill was sent: its pill is in the queue and someone is awake to take it.
  lemma PillAwaits(p: Pool, i: nat) returns (u: nat)
    requires PoolInv(p) && p.phase == Joining && i in p.workers && p.workers[i] == Popping
    ensures u in Awake(p.ch.poppers)
  {
    hide Channel.Inv;
    Queue(p);
    assert Poisoned(p.workers) <= Ids(p.size) - {i};
    Cardinality(Poisoned(p.workers), Ids(p.size) - {i});
    PillsAre(p.size - |Poisoned(p.workers)|);
    assert p.ch.shared.items != [];
    u := AwakePopper(p.ch, i);
  }

  lemma AwakePopper(s: State<Item>, t: nat) returns (u: nat)
    requires Channel.Inv(s) && t in s.poppers && s.shared.items != []
    ensures u in Awake(s.poppers)
  {
    if t in Sleepers(s.poppers) {
      assert |Awake(s.poppers)| > 0;
      u :| u in Awake(s.poppers);
    } else {
      u := t;
    }
  }

  lemma {:induction false} Cardinality(a: set<nat>, b: set<nat>)
    requires a <= b
    ensures |a| <= |b|
    decreases a
  {
    if a != {} {
      var x :| x in a;
      Cardinality(a - {x}, b - {x});
    }
  }
}
