/** Joining the workers of a thread pool ends, and after how many steps,
    src/async-core/executors/StaticThreadPool.hpp. */
module JoinEnds {
  import opened Bytes
  import opened MpmcQueue
  import opened Channel
  import opened ThreadPool
  import opened Sums

  // The steps a worker still makes before it is at the top of its loop with nothing taken from the queue,
  // and those that an item of the queue makes it take.
  function WorkerLeft(w: Worker): nat {
    match w
    case Idle => 2
    case Popping => 1
    case Running(_) => 3
    case Leaving => 1
    case Gone => 0
    case Crashed => 0
  }

  function ItemsLeft(items: seq<Item>): nat {
    if items == [] then 0 else (if items[0].Some? then 3 else 1) + ItemsLeft(items[1..])
  }

  function WorkersLeft(workers: map<nat, Worker>): map<nat, nat> {
    map i | i in workers :: WorkerLeft(workers[i])
  }

  // The steps until every worker is joined.
  ghost function Left(p: Pool): nat {
    (if p.phase == Joining then 1 else 0) + ItemsLeft(p.ch.shared.items) + Sum(WorkersLeft(p.workers))
  }

  // While the pool joins, a worker that has not taken its pill finds one in the queue, and nobody sleeps.
  lemma NobodySleeps(p: Pool)
    requires PoolInv(p) && p.phase == Joining
    ensures Sleepers(p.ch.poppers) == {}
    ensures (exists i :: i in p.workers && p.workers[i] == Popping) ==> p.ch.shared.items != []
  {
    hide Channel.Inv;
    Queue(p);
    var poppers := p.ch.poppers;
    var awake, asleep := Awake(poppers), Sleepers(poppers);
    assert Poisoned(p.workers) + awake + asleep <= Ids(p.size);
    Cardinality(Poisoned(p.workers) + awake + asleep, Ids(p.size));
    assert |Poisoned(p.workers) + awake + asleep| == |Poisoned(p.workers)| + |awake| + |asleep|;
    assert |p.ch.shared.items| >= p.size - |Poisoned(p.workers)| by {
      EnoughPills(p);
    }
    if asleep != {} {
      FewItems(p.ch);
    }
    if i :| i in p.workers && p.workers[i] == Popping {
      assert i in awake + asleep;
    }
  }

  lemma FewItems(s: State<Item>)
    requires Channel.Inv(s) && Sleepers(s.poppers) != {}
    ensures |s.shared.items| <= |Awake(s.poppers)|
  {
  }

  // The pills not yet taken are all in the queue.
  lemma EnoughPills(p: Pool)
    requires PoolInv(p) && p.phase == Joining
    ensures |p.ch.shared.items| >= p.size - |Poisoned(p.workers)|
  {
    var c := |Poisoned(p.workers)|;
    Queue(p);
    SomesAre(p.started);
    SomesAre(p.submitted);
    PillsAre(c);
    PillsAre(p.size);
    assert |p.ch.received + p.ch.shared.items| == |p.ch.sent|;
  }

  // One worker changes.
  lemma WorkerSum(workers: map<nat, Worker>, i: nat, w: Worker)
    requires i in workers
    ensures Sum(WorkersLeft(workers[i := w])) + WorkerLeft(workers[i]) == Sum(WorkersLeft(workers)) + WorkerLeft(w)
  {
    hide Sum, WorkerLeft;
    var a, b := WorkersLeft(workers), WorkersLeft(workers[i := w]);
    SumWithout(a, i);
    SumWithout(b, i);
    assert a - {i} == b - {i};
  }

  lemma AllGone(workers: map<nat, Worker>)
    requires forall i :: i in workers ==> workers[i] == Gone
    ensures Sum(WorkersLeft(workers)) == 0
  {
    ZeroSum(WorkersLeft(workers));
  }

  lemma TurnItems(s: State<Item>, t: nat)
    requires Enabled(s, Turn(t)) && s.shared.items != []
    ensures Apply(s, Turn(t)).shared.items == s.shared.items[1..] && PopAnswer(s.shared) == Value(s.shared.items[0])
  {
  }

  lemma SameItems(s: State<Item>, step: Step<Item>)
    requires Enabled(s, step) && (step.EnterPop? || step.DropReceiver?)
    ensures Apply(s, step).shared.items == s.shared.items
  {
  }

  lemma TurnTakesOne(p: Pool, i: nat)
    requires PoolInv(p) && p.phase == Joining && CanMove(p, WorkerTurn(i))
    ensures Left(MoveTo(p, WorkerTurn(i))) + 1 == Left(p)
  {
    hide PoolInv, Apply, Enabled, Sum;
    NobodySleeps(p);
    assert Enabled(p.ch, Turn(i)) && p.workers[i] == Popping;
    TurnItems(p.ch, i);
    WorkerSum(p.workers, i, AfterRecv(Value(p.ch.shared.items[0])));
  }

  // Every move takes one off what is left.
  lemma MoveTakesOne(p: Pool, m: Move)
    requires PoolInv(p) && p.phase == Joining && CanMove(p, m)
    ensures Left(MoveTo(p, m)) + 1 == Left(p) && (MoveTo(p, m).phase == Joining || MoveTo(p, m).phase == Joined)
  {
    hide PoolInv, Apply, Enabled, Sum, ItemsLeft;
    match m
    case Enter(i) =>
      WorkerSum(p.workers, i, Popping);
      SameItems(p.ch, EnterPop(i, i));
    case WorkerTurn(i) => TurnTakesOne(p, i);
    case Finish(i) => WorkerSum(p.workers, i, Idle);
    case Leave(i) =>
      WorkerSum(p.workers, i, Gone);
      SameItems(p.ch, DropReceiver(i));
    case Spurious(i) =>
      NobodySleeps(p);
      WakesSleeper(p.ch, i);
    case _ =>
  }

  lemma WakesSleeper(s: State<Item>, i: nat)
    requires Enabled(s, SpuriousWake(i))
    ensures i in Sleepers(s.poppers)
  {
  }

  // ---- runs

  lemma {:induction false} LeftAlong(n: nat, pools: seq<Pool>, moves: seq<Move>, k: nat, m: nat)
    requires IsPoolRun(n, pools, moves) && k <= m < |pools| && pools[k].phase == Joining
    ensures pools[m].phase == Joining || pools[m].phase == Joined
    ensures Left(pools[m]) + (m - k) == Left(pools[k])
    decreases m
  {
    hide Left, PoolInv, MoveTo;
    if k < m {
      LeftAlong(n, pools, moves, k, m - 1);
      RunKeepsPool(n, pools, moves, m - 1);
      JoinedIsStill(pools[m - 1], moves[m - 1]);
      MoveTakesOne(pools[m - 1], moves[m - 1]);
    }
  }

  // A joined pool makes no move.
  lemma JoinedIsStill(p: Pool, m: Move)
    requires PoolInv(p) && CanMove(p, m)
    ensures p.phase != Joined
  {
    hide Channel.Inv, HistoriesMatch;
    if m.Spurious? {
      WakesSleeper(p.ch, m.worker);
    }
  }

  lemma JoinedHasNothingLeft(n: nat, pools: seq<Pool>, moves: seq<Move>, k: nat)
    requires IsPoolRun(n, pools, moves) && k < |pools| && pools[k].phase == Joined
    ensures Left(pools[k]) == 0
  {
    hide Sum, PoolInv;
    Shutdown(n, pools, moves, k);
    assert Ids(n) == pools[k].workers.Keys;
    AllGone(pools[k].workers);
  }

  // Whatever the threads do once shutdown joins, it returns after exactly Left steps, and until then some step
  // is possible: no schedule and no wake-up for no reason makes it longer.
  lemma JoiningEnds(n: nat, pools: seq<Pool>, moves: seq<Move>, k: nat, m: nat)
    requires IsPoolRun(n, pools, moves) && k <= m < |pools| && pools[k].phase == Joining
    ensures m - k <= Left(pools[k])
    ensures pools[m].phase == Joined <==> m - k == Left(pools[k])
    ensures pools[m].phase != Joined ==> exists move :: CanMove(pools[m], move)
  {
    hide PoolInv, CanMove, MoveTo, Sum, ItemsLeft;
    LeftAlong(n, pools, moves, k, m);
    if pools[m].phase == Joined {
      JoinedHasNothingLeft(n, pools, moves, m);
    } else {
      JoinIsNotStuck(n, pools, moves, m);
    }
  }
}
