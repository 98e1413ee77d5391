/** Pushing a message through a writer that takes as little as it likes, src/async-core/io/FutWrite.hpp. */
module WriteEntity {
  import opened Bytes
  import opened MessageParser
  import opened Serializer

  // What the successive low-level writes answer. Wrote(n): up to n bytes were taken, zero included.
  datatype Write = Wrote(n: nat) | Failed(error: int)

  // Done(count): the future is completed with count. Waiting: the writer has not become writable again.
  datatype Outcome = Done(count: nat) | Broken(error: int) | Waiting

  // The bytes the writer has seen, the answer, and the writes not used.
  datatype Sent = Sent(log: Data, outcome: Outcome, left: seq<Write>)

  function Taken(w: Write, available: nat): (k: nat)
    requires w.Wrote?
    ensures k <= available
  {
    if w.n <= available then w.n else available
  }

  // write_all. The recursive call leaves `sended` at its default.
  function WriteAll(d: Data, from: nat, sended: nat, writes: seq<Write>, log: Data): (r: Sent)
    requires from <= |d|
    ensures |r.left| <= |writes|
    decreases |writes|
  {
    if writes == [] then Sent(log, Waiting, [])
    else match writes[0]
      case Failed(error) => Sent(log, Broken(error), writes[1..])
      case Wrote(_) =>
        var k := Taken(writes[0], |d| - from);
        var seen := log + d[from..from + k];
        if from + k != |d| then WriteAll(d, from + k, 0, writes[1..], seen)
        else Sent(seen, Done(sended + k), writes[1..])
  }

  function PartsLeft(s: Serial): nat {
    match s.stage
    case HeadersStage => 2
    case BodyStage => 1
    case ReadyStage => 0
  }

  // write_entity
  function WriteMessage(s: Serial, sended: nat, writes: seq<Write>, log: Data): (r: Sent)
    decreases PartsLeft(s)
  {
    if s.stage == ReadyStage then Sent(log, Done(sended), writes)
    else
      var part := NextPart(s);
      var r := WriteAll(part.data, 0, 0, writes, log);
      if r.outcome.Done? then WriteMessage(part.next, sended, r.left, r.log) else r
  }

  // Nothing is lost, repeated or reordered, whatever the writes took.
  lemma {:induction false} WriteAllDelivers(d: Data, from: nat, sended: nat, writes: seq<Write>, log: Data)
    requires from <= |d|
    ensures var r := WriteAll(d, from, sended, writes, log);
            && log <= r.log <= log + d[from..]
            && (r.outcome.Done? ==> r.log == log + d[from..])
    decreases |writes|
  {
    if writes != [] && writes[0].Wrote? {
      var k := Taken(writes[0], |d| - from);
      assert d[from..] == d[from..from + k] + d[from + k..];
      if from + k != |d| {
        WriteAllDelivers(d, from + k, 0, writes[1..], log + d[from..from + k]);
      }
    }
  }

  lemma {:induction false} WriteMessageDelivers(s: Serial, sended: nat, writes: seq<Write>, log: Data)
    ensures var r := WriteMessage(s, sended, writes, log);
            && log <= r.log <= log + Remaining(s)
            && (r.outcome.Done? ==> r.log == log + Remaining(s) && r.outcome.count == sended)
    decreases PartsLeft(s)
  {
    if s.stage != ReadyStage {
      var part := NextPart(s);
      var r := WriteAll(part.data, 0, 0, writes, log);
      WriteAllDelivers(part.data, 0, 0, writes, log);
      assert part.data[0..] == part.data;
      assert Remaining(s) == part.data + Remaining(part.next);
      assert log + Remaining(s) == log + part.data + Remaining(part.next);
      if r.outcome.Done? {
        WriteMessageDelivers(part.next, sended, r.left, r.log);
      }
    }
  }

  // The writes before the one that takes something take nothing, and that one takes everything.
  predicate FirstTakesAll(d: Data, writes: seq<Write>) {
    writes != [] && writes[0].Wrote? &&
    (writes[0].n >= |d| || (writes[0].n == 0 && FirstTakesAll(d, writes[1..])))
  }

  lemma {:induction false} CountFromTheMiddle(d: Data, from: nat, writes: seq<Write>, log: Data)
    requires 0 < from <= |d| && WriteAll(d, from, 0, writes, log).outcome.Done?
    ensures WriteAll(d, from, 0, writes, log).outcome.count < |d|
    decreases |writes|
  {
    var k := Taken(writes[0], |d| - from);
    if from + k != |d| {
      CountFromTheMiddle(d, from + k, writes[1..], log + d[from..from + k]);
    }
  }

  // The count write_all reports is the size of the data exactly when one write took it all:
  // earlier short writes are forgotten by the recursion.
  lemma {:induction false} CountExact(d: Data, writes: seq<Write>, log: Data)
    requires WriteAll(d, 0, 0, writes, log).outcome.Done?
    ensures WriteAll(d, 0, 0, writes, log).outcome.count == |d| <==> FirstTakesAll(d, writes)
    decreases |writes|
  {
    var k := Taken(writes[0], |d|);
    if k != |d| {
      if k == 0 {
        CountExact(d, writes[1..], log + d[0..0]);
      } else {
        CountFromTheMiddle(d, k, writes[1..], log + d[0..k]);
      }
    }
  }

  // Two short writes of one byte each: both bytes arrive, one is reported.
  lemma CountForgets()
    ensures WriteAll("ab", 0, 0, [Wrote(1), Wrote(1)], "") == Sent("ab", Done(1), [])
  {
    assert WriteAll("ab", 1, 0, [Wrote(1), Wrote(1)][1..], "" + "ab"[0..1])
           == Sent("" + "ab"[0..1] + "ab"[1..2], Done(1), []);
  }

  predicate AllProgress(writes: seq<Write>) {
    forall i :: 0 <= i < |writes| ==> writes[i].Wrote? && writes[i].n > 0
  }

  // As many writes as there are bytes are enough, and one for empty data; no more are used.
  lemma {:induction false} WriteAllFinishes(d: Data, from: nat, sended: nat, writes: seq<Write>, log: Data)
    requires from <= |d| && AllProgress(writes) && writes != [] && |writes| >= |d| - from
    ensures var r := WriteAll(d, from, sended, writes, log);
            r.outcome.Done? && AllProgress(r.left)
            && |writes| - |r.left| <= if from < |d| then |d| - from else 1
    decreases |writes|
  {
    var k := Taken(writes[0], |d| - from);
    if from + k != |d| {
      WriteAllFinishes(d, from + k, 0, writes[1..], log + d[from..from + k]);
    }
  }

  // The writes still needed at most: as many as bytes in each part, and one for an empty part.
  function WritesNeeded(s: Serial): nat {
    match s.stage
    case HeadersStage => AtLeastOne(|s.headers|) + AtLeastOne(|s.body|)
    case BodyStage => AtLeastOne(|s.body|)
    case ReadyStage => 0
  }

  function AtLeastOne(n: nat): nat {
    if n == 0 then 1 else n
  }

  // A writer that never fails and always takes something gets the whole message in a bounded number of writes.
  lemma {:induction false} WriteMessageFinishes(s: Serial, sended: nat, writes: seq<Write>, log: Data)
    requires AllProgress(writes) && |writes| >= WritesNeeded(s)
    ensures var r := WriteMessage(s, sended, writes, log);
            r.outcome == Done(sended) && |writes| - |r.left| <= WritesNeeded(s)
    decreases PartsLeft(s)
  {
    if s.stage != ReadyStage {
      var part := NextPart(s);
      WriteAllFinishes(part.data, 0, 0, writes, log);
      var r := WriteAll(part.data, 0, 0, writes, log);
      WriteMessageFinishes(part.next, sended, r.left, r.log);
    }
  }

  // How much the writes offer to take, up to the first that fails.
  function Offered(writes: seq<Write>): nat {
    if writes == [] || writes[0].Failed? then 0 else writes[0].n + Offered(writes[1..])
  }

  predicate NoneFails(writes: seq<Write>) {
    forall i :: 0 <= i < |writes| ==> writes[i].Wrote?
  }

  // write_all has sent as much as the writes offered and was there to send.
  lemma {:induction false} WriteAllSends(d: Data, from: nat, sended: nat, writes: seq<Write>, log: Data, upto: nat)
    requires from <= |d| && upto == if Offered(writes) <= |d| - from then from + Offered(writes) else |d|
    ensures WriteAll(d, from, sended, writes, log).log == log + d[from..upto]
    decreases |writes|
  {
    if writes != [] && writes[0].Wrote? {
      var k := Taken(writes[0], |d| - from);
      if from + k != |d| {
        WriteAllSends(d, from + k, 0, writes[1..], log + d[from..from + k], upto);
        assert d[from..upto] == d[from..from + k] + d[from + k..upto];
      }
    }
  }

  // It is complete exactly when they offered all of it, in one write at least.
  lemma {:induction false} DoneExact(d: Data, from: nat, sended: nat, writes: seq<Write>, log: Data)
    requires from <= |d| && NoneFails(writes)
    ensures var r := WriteAll(d, from, sended, writes, log);
            && (r.outcome.Done? <==> writes != [] && Offered(writes) >= |d| - from)
            && (!r.outcome.Done? ==> r.outcome == Waiting)
    decreases |writes|
  {
    if writes != [] {
      var k := Taken(writes[0], |d| - from);
      if from + k != |d| {
        DoneExact(d, from + k, 0, writes[1..], log + d[from..from + k]);
      }
    }
  }

  // ---- writes that fail

  // An answer stands, whatever writes are left.
  lemma {:induction false} WriteAllStands(d: Data, from: nat, sended: nat, writes: seq<Write>, later: seq<Write>,
                                          log: Data)
    requires from <= |d| && WriteAll(d, from, sended, writes, log).outcome != Waiting
    ensures var r := WriteAll(d, from, sended, writes, log);
            WriteAll(d, from, sended, writes + later, log) == r.(left := r.left + later)
    decreases |writes|
  {
    assert (writes + later)[1..] == writes[1..] + later;
    if writes[0].Wrote? {
      var k := Taken(writes[0], |d| - from);
      if from + k != |d| {
        WriteAllStands(d, from + k, 0, writes[1..], later, log + d[from..from + k]);
      }
    }
  }

  lemma {:induction false} WriteAllFails(d: Data, from: nat, sended: nat, writes: seq<Write>, error: int,
                                         later: seq<Write>, log: Data)
    requires from <= |d| && WriteAll(d, from, sended, writes, log).outcome == Waiting
    ensures WriteAll(d, from, sended, writes + ([Write.Failed(error)] + later), log)
            == Sent(WriteAll(d, from, sended, writes, log).log, Broken(error), later)
    decreases |writes|
  {
    var all := writes + ([Write.Failed(error)] + later);
    if writes == [] {
      assert all == [Write.Failed(error)] + later;
    } else {
      assert all[1..] == writes[1..] + ([Write.Failed(error)] + later);
      var k := Taken(writes[0], |d| - from);
      WriteAllFails(d, from + k, 0, writes[1..], error, later, log + d[from..from + k]);
    }
  }

  lemma {:induction false} WriteAllBroke(d: Data, from: nat, sended: nat, writes: seq<Write>, log: Data)
    requires from <= |d| && WriteAll(d, from, sended, writes, log).outcome.Broken?
    ensures var r := WriteAll(d, from, sended, writes, log);
            var k := |writes| - |r.left| - 1;
            && k >= 0 && writes[k] == Write.Failed(r.outcome.error) && r.left == writes[k + 1..]
            && WriteAll(d, from, sended, writes[..k], log) == Sent(r.log, Waiting, [])
    decreases |writes|
  {
    if writes[0].Wrote? {
      var taken := Taken(writes[0], |d| - from);
      var r := WriteAll(d, from, sended, writes, log);
      var k := |writes| - |r.left| - 1;
      WriteAllBroke(d, from + taken, 0, writes[1..], log + d[from..from + taken]);
      assert writes[..k][1..] == writes[1..][..k - 1];
    }
  }

  // The writes that were used make the same answer alone.
  lemma {:induction false} WriteAllUsed(d: Data, from: nat, sended: nat, writes: seq<Write>, log: Data)
    returns (used: seq<Write>)
    requires from <= |d| && WriteAll(d, from, sended, writes, log).outcome != Waiting
    ensures var r := WriteAll(d, from, sended, writes, log);
            used + r.left == writes && WriteAll(d, from, sended, used, log) == r.(left := [])
    decreases |writes|
  {
    used := [writes[0]];
    assert used[1..] == [];
    if writes[0].Wrote? {
      var k := Taken(writes[0], |d| - from);
      if from + k != |d| {
        var more := WriteAllUsed(d, from + k, 0, writes[1..], log + d[from..from + k]);
        used := used + more;
        assert used[1..] == more;
      }
    }
  }

  // A write that fails while write_entity waits ends it with that error and adds nothing to what was sent.
  lemma {:induction false} WriteMessageFails(s: Serial, sended: nat, writes: seq<Write>, error: int,
                                             later: seq<Write>, log: Data)
    requires WriteMessage(s, sended, writes, log).outcome == Waiting
    ensures WriteMessage(s, sended, writes + ([Write.Failed(error)] + later), log)
            == Sent(WriteMessage(s, sended, writes, log).log, Broken(error), later)
    decreases PartsLeft(s)
  {
    hide WriteAll;
    var part, tail := NextPart(s), [Write.Failed(error)] + later;
    var r := WriteAll(part.data, 0, 0, writes, log);
    if r.outcome == Waiting {
      WriteAllFails(part.data, 0, 0, writes, error, later, log);
    } else {
      WriteAllStands(part.data, 0, 0, writes, tail, log);
      WriteMessageFails(part.next, sended, r.left, error, later, r.log);
    }
  }

  // Part by part.
  lemma PartFirst(s: Serial, sended: nat, writes: seq<Write>, log: Data)
    requires s.stage != ReadyStage
    ensures var part := NextPart(s);
            var r := WriteAll(part.data, 0, 0, writes, log);
            && PartsLeft(part.next) < PartsLeft(s)
            && WriteMessage(s, sended, writes, log)
               == if r.outcome.Done? then WriteMessage(part.next, sended, r.left, r.log) else r
  {
    hide WriteAll;
  }

  lemma {:induction false} WriteMessageBroke(s: Serial, sended: nat, writes: seq<Write>, log: Data) returns (k: nat)
    requires WriteMessage(s, sended, writes, log).outcome.Broken?
    ensures k < |writes| && writes[k] == Write.Failed(WriteMessage(s, sended, writes, log).outcome.error)
    ensures WriteMessage(s, sended, writes[..k], log).outcome == Waiting
    decreases PartsLeft(s)
  {
    assert s.stage != ReadyStage;
    hide WriteAll, WriteMessage, NextPart;
    var part := NextPart(s);
    var r := WriteAll(part.data, 0, 0, writes, log);
    PartFirst(s, sended, writes, log);
    if r.outcome.Broken? {
      WriteAllBroke(part.data, 0, 0, writes, log);
      k := |writes| - |r.left| - 1;
    } else {
      var n := WriteMessageBroke(part.next, sended, r.left, r.log);
      var used := WriteAllUsed(part.data, 0, 0, writes, log);
      WriteAllStands(part.data, 0, 0, used, r.left[..n], log);
      k := |used| + n;
      assert writes[..k] == used + r.left[..n];
      assert [] + r.left[..n] == r.left[..n];
    }
    PartFirst(s, sended, writes[..k], log);
  }

  // It ends with an error in no other way.
  lemma BrokenExact(s: Serial, sended: nat, writes: seq<Write>, error: int, log: Data)
    ensures WriteMessage(s, sended, writes, log).outcome == Broken(error) <==>
              exists k :: 0 <= k < |writes| && writes[k] == Write.Failed(error)
                          && WriteMessage(s, sended, writes[..k], log).outcome == Waiting
  {
    hide WriteMessage;
    forall k | 0 <= k < |writes| && writes[k] == Write.Failed(error)
               && WriteMessage(s, sended, writes[..k], log).outcome == Waiting
      ensures WriteMessage(s, sended, writes, log).outcome == Broken(error)
    {
      WriteMessageFails(s, sended, writes[..k], error, writes[k + 1..], log);
      assert writes == writes[..k] + ([Write.Failed(error)] + writes[k + 1..]);
    }
    if WriteMessage(s, sended, writes, log).outcome == Broken(error) {
      var k := WriteMessageBroke(s, sended, writes, log);
    }
  }
}
