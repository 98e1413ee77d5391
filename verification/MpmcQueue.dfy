/** The queue behind a channel, src/async-core/mpmc-queue/mpmc_queue.hpp.
    Each method is one section under the mutex; `Channel` interleaves the sections. */
module MpmcQueue {
  import opened Bytes
  import ForwardList

  // What the mutex protects.
  datatype Shared<+T> = Shared(items: seq<T>, consumers: nat, producers: nat)

  // One turn of the loop in pop: a value, the closed error, or a wait on the condition variable.
  datatype Popped<+T> = Value(value: T) | Closed | MustWait

  function Pushed<T>(q: Shared<T>, value: T): Shared<T> {
    if q.consumers == 0 then q else q.(items := q.items + [value])
  }

  function PopAnswer<T>(q: Shared<T>): Popped<T> {
    if q.items != [] then Value(q.items[0])
    else if q.producers == 0 then Closed
    else MustWait
  }

  function AfterPop<T>(q: Shared<T>): Shared<T> {
    if q.items != [] then q.(items := q.items[1..]) else q
  }

  class UnboundedMPMCQueue<T> {
    const queue: ForwardList.List<T>
    var consumers: nat
    var producers: nat

    ghost predicate Valid()
      reads this, queue, queue.spine
    {
      queue.Valid()
    }

    ghost function View(): Shared<T>
      requires Valid()
      reads this, queue, queue.spine
    {
      Shared(queue.Contents(), consumers, producers)
    }

    constructor ()
      ensures Valid() && View() == Shared([], 1, 1)
      ensures fresh(queue) && fresh(queue.spine)
    {
      queue := new ForwardList.List<T>();
      consumers, producers := 1, 1;
    }

    method IncrConsumers()
      requires Valid()
      modifies `consumers
      ensures Valid() && View() == old(View()).(consumers := old(consumers) + 1)
    {
      consumers := consumers + 1;
    }

    method DecrConsumers()
      requires Valid() && consumers > 0
      modifies `consumers
      ensures Valid() && View() == old(View()).(consumers := old(consumers) - 1)
    {
      consumers := consumers - 1;
    }

    method IncrProducers()
      requires Valid()
      modifies `producers
      ensures Valid() && View() == old(View()).(producers := old(producers) + 1)
    {
      producers := producers + 1;
    }

    // notifyAll: every sleeper is to be woken.
    method DecrProducers() returns (notifyAll: bool)
      requires Valid() && producers > 0
      modifies `producers
      ensures Valid() && View() == old(View()).(producers := old(producers) - 1)
      ensures notifyAll <==> producers == 0
    {
      producers := producers - 1;
      notifyAll := producers == 0;
    }

    // ok: the value was taken, and one sleeper is to be woken.
    method Push(value: T) returns (ok: bool)
      requires Valid()
      modifies queue, queue.spine
      ensures Valid() && View() == Pushed(old(View()), value)
      ensures ok <==> consumers != 0
      ensures forall n :: n in queue.spine ==> n in old(queue.spine) || fresh(n)
    {
      if consumers == 0 {
        return false;
      }
      queue.PushBack(value);
      return true;
    }

    method PopOrWait() returns (answer: Popped<T>)
      requires Valid()
      modifies queue, queue.spine
      ensures Valid() && answer == PopAnswer(old(View())) && View() == AfterPop(old(View()))
      ensures forall n :: n in queue.spine ==> n in old(queue.spine)
    {
      var empty := queue.IsEmpty();
      if empty {
        return if producers == 0 then Closed else MustWait;
      }
      var value := queue.PopFront();
      answer := Value(value.value);
    }

    // None is the closed error; Some(None) is an empty open queue.
    method TryPop() returns (answer: Option<Option<T>>)
      requires Valid()
      modifies queue, queue.spine
      ensures Valid() && View() == AfterPop(old(View()))
      ensures answer == match PopAnswer(old(View()))
                        case Value(v) => Some(Some(v))
                        case Closed => None
                        case MustWait => Some(None)
      ensures forall n :: n in queue.spine ==> n in old(queue.spine)
    {
      var empty := queue.IsEmpty();
      if empty && producers == 0 {
        return None;
      }
      var value := queue.PopFront();
      return Some(value);
    }
  }
}
