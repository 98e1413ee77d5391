/** The singly linked list under the queue, src/async-core/mpmc-queue/detail/forward_list.hpp. */
module ForwardList {
  import opened Bytes

  // The dummy node's value is never constructed.
  class Node<T> {
    var next: Node?<T>
    var value: Option<T>

    constructor (value: Option<T>)
      ensures next == null && this.value == value
    {
      this.next, this.value := null, value;
    }
  }

  class List<T> {
    var head: Node<T>
    var tail: Node<T>
    // The nodes from the dummy to the last one.
    ghost var spine: seq<Node<T>>

    ghost predicate Valid()
      reads this, spine
    {
      && spine != [] && head == spine[0] && tail == spine[|spine| - 1] && tail.next == null
      && (forall i :: 0 <= i < |spine| - 1 ==> spine[i].next == spine[i + 1])
      && (forall i, j :: 0 <= i < j < |spine| ==> spine[i] != spine[j])
      && (forall i :: 0 < i < |spine| ==> spine[i].value.Some?)
    }

    ghost function Contents(): (s: seq<T>)
      requires Valid()
      reads this, spine
      ensures |s| == |spine| - 1
    {
      seq(|spine| - 1, i requires 0 <= i < |spine| - 1 && Valid() reads this, spine => spine[i + 1].value.value)
    }

    constructor ()
      ensures Valid() && fresh(spine) && Contents() == []
    {
      var dummy := new Node<T>(None);
      head, tail := dummy, dummy;
      spine := [dummy];
    }

    method PushBack(value: T)
      requires Valid()
      modifies this, tail
      ensures Valid() && spine == old(spine) + [tail] && fresh(tail)
      ensures Contents() == old(Contents()) + [value]
    {
      var node := new Node(Some(value));
      tail.next := node;
      tail := node;
      spine := spine + [node];
    }

    method IsEmpty() returns (empty: bool)
      requires Valid()
      ensures empty <==> Contents() == []
    {
      empty := head == tail;
      assert |spine| > 1 ==> spine[0] != spine[|spine| - 1];
    }

    // The removed node is deallocated; here it is dropped from the spine.
    method PopFront() returns (value: Option<T>)
      requires Valid()
      modifies this, head
      ensures Valid() && head == old(head)
      ensures spine == if |old(spine)| > 1 then [head] + old(spine)[2..] else old(spine)
      ensures old(Contents()) == [] ==> value == None && Contents() == []
      ensures old(Contents()) != [] ==> value == Some(old(Contents())[0]) && Contents() == old(Contents())[1..]
    {
      var empty := IsEmpty();
      if empty {
        return None;
      }
      assert spine[0].next == spine[1];
      var node := head.next;
      assert |spine| > 2 ==> node.next == spine[2];
      head.next := node.next;
      if node.next == null {
        tail := head;
      }
      spine := [head] + spine[2..];
      value := node.value;
    }
  }
}
