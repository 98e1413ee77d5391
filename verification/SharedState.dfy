/** The cell that a future and its promise share, src/async-core/future/detail/_shared_state.hpp. */
module SharedState {
  import opened Bytes
  import opened Folds

  // std::optional<T>: moving the value out leaves the optional engaged.
  datatype Slot<+V> = Empty | Full(value: V) | MovedFrom

  // std::optional of the callback: dispatching from set_callback leaves it engaged too.
  datatype Hook<+C> = NoHook | Hook(callback: C) | SpentHook

  datatype Cell<+V, +C> = Cell(slot: Slot<V>, hook: Hook<C>)

  // What goes to the executor: nothing, a call, or a call with an emptied callback or value.
  datatype Dispatch<+V, +C> = Nothing | Call(callback: C, value: V) | CallSpent

  datatype Effect<+V, +C> = Effect(cell: Cell<V, C>, dispatch: Dispatch<V, C>)

  function Put<V, C>(cell: Cell<V, C>, value: V): Effect<V, C> {
    match cell.hook
    case NoHook => Effect(Cell(Full(value), NoHook), Nothing)
    case Hook(c) => Effect(Cell(MovedFrom, NoHook), Call(c, value))
    case SpentHook => Effect(Cell(MovedFrom, NoHook), CallSpent)
  }

  function Attach<V, C>(cell: Cell<V, C>, callback: C): Effect<V, C> {
    match cell.slot
    case Empty => Effect(Cell(Empty, Hook(callback)), Nothing)
    case Full(v) => Effect(Cell(MovedFrom, SpentHook), Call(callback, v))
    case MovedFrom => Effect(Cell(MovedFrom, SpentHook), CallSpent)
  }

  class State<V(0), C(0)> {
    var slot: Slot<V>
    var hook: Hook<C>

    function View(): Cell<V, C>
      reads this
    {
      Cell(slot, hook)
    }

    constructor ()
      ensures View() == Cell(Empty, NoHook)
    {
      slot, hook := Empty, NoHook;
    }

    // _call_by_executor: moves the value and the callback into the executor's job.
    method CallByExecutor() returns (dispatch: Dispatch<V, C>)
      requires slot != Empty && hook != NoHook
      modifies this
      ensures View() == Cell(MovedFrom, SpentHook)
      ensures dispatch == if old(slot).Full? && old(hook).Hook? then Call(old(hook).callback, old(slot).value)
                          else CallSpent
    {
      dispatch := if slot.Full? && hook.Hook? then Call(hook.callback, slot.value) else CallSpent;
      slot, hook := MovedFrom, SpentHook;
    }

    method SetValue(value: V) returns (dispatch: Dispatch<V, C>)
      modifies this
      ensures Effect(View(), dispatch) == Put(old(View()), value)
    {
      slot := Full(value);
      if hook != NoHook {
        dispatch := CallByExecutor();
        hook := NoHook;
      } else {
        dispatch := Nothing;
      }
    }

    method SetCallback(callback: C) returns (dispatch: Dispatch<V, C>)
      modifies this
      ensures Effect(View(), dispatch) == Attach(old(View()), callback)
    {
      hook := Hook(callback);
      if slot != Empty {
        dispatch := CallByExecutor();
      } else {
        dispatch := Nothing;
      }
    }
  }

  // ---- one future, any number of sets, one callback: what `fastest` builds

  datatype Event<+V> = Set(value: V) | OnComplete

  datatype History<+V> = History(cell: Cell<V, ()>, calls: seq<V>, broken: bool)

  function Happen<V>(h: History<V>, e: Event<V>): History<V> {
    var effect: Effect<V, ()> := match e { case Set(v) => Put(h.cell, v) case OnComplete => Attach(h.cell, ()) };
    match effect.dispatch
    case Nothing => h.(cell := effect.cell)
    case Call(_, v) => h.(cell := effect.cell, calls := h.calls + [v])
    case CallSpent => h.(cell := effect.cell, broken := true)
  }

  function Events<V>(h: History<V>, es: seq<Event<V>>): History<V> {
    Fold(Happen<V>, h, es)
  }

  function Sets<V>(vs: seq<V>): seq<Event<V>> {
    if vs == [] then [] else [Set(vs[0])] + Sets(vs[1..])
  }

  function New<V>(): History<V> {
    History(Cell(Empty, NoHook), [], false)
  }

  // Sets without a callback waiting only replace the value.
  lemma {:induction false} QuietSets<V>(h: History<V>, vs: seq<V>)
    requires h.cell.hook == NoHook
    ensures Events(h, Sets(vs))
            == if vs == [] then h else h.(cell := Cell(Full(vs[|vs| - 1]), NoHook))
    decreases |vs|
  {
    if vs != [] {
      QuietSets(Happen(h, Set(vs[0])), vs[1..]);
    }
  }

  // After the sets before it, the callback is called with the last of them, or waits.
  function Attached<V>(before: seq<V>): History<V> {
    if before == [] then History(Cell(Empty, Hook(())), [], false)
    else History(Cell(MovedFrom, SpentHook), [before[|before| - 1]], false)
  }

  lemma SetsThenCallback<V>(before: seq<V>)
    ensures Events(New(), Sets(before) + [OnComplete]) == Attached(before)
  {
    FoldSplit(Happen<V>, New(), Sets(before), [OnComplete]);
    QuietSets(New(), before);
    var h := Events(New(), Sets(before));
    var none: seq<Event<V>> := [];
    assert [OnComplete][1..] == none;
    assert Events(h, [OnComplete]) == Happen(h, OnComplete);
  }

  lemma SetsAfterCallback<V>(before: seq<V>, after: seq<V>)
    ensures var k := Attached(before);
            var h := Events(k, Sets(after));
            h.broken == (before != [] && after != [])
            && h.calls == if before == [] && after != [] then [after[0]] else k.calls
  {
    if after != [] {
      var l := Happen(Attached(before), Set(after[0]));
      QuietSets(l, after[1..]);
    }
  }

  // The promise of `fastest` is set by every input. Its one callback is called with the first value
  // when it came before all sets; no call uses an emptied callback exactly when the sets are all on
  // one side of it.
  lemma FastestExact<V>(before: seq<V>, after: seq<V>)
    ensures var h := Events(New(), Sets(before) + [OnComplete] + Sets(after));
            && (h.broken <==> before != [] && after != [])
            && (before == [] && after != [] ==> h.calls == [after[0]])
            && (before != [] ==> h.calls == [before[|before| - 1]])
            && (before == [] && after == [] ==> h.calls == [])
  {
    FoldSplit(Happen<V>, New(), Sets(before) + [OnComplete], Sets(after));
    SetsThenCallback(before);
    SetsAfterCallback(before, after);
  }
}
