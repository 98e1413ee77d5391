/** The order in which std::map and std::set iterate over string keys. */
module Ordering {
  import opened Bytes

  // std::string::operator<
  predicate Less(a: Data, b: Data) {
    b != [] && (a == [] || a[0] < b[0] || (a[0] == b[0] && Less(a[1..], b[1..])))
  }

  lemma {:induction false} LessIsIrreflexive(a: Data)
    ensures !Less(a, a)
  {
    if a != [] {
      LessIsIrreflexive(a[1..]);
    }
  }

  lemma {:induction false} LessIsTotal(a: Data, b: Data)
    ensures a == b || Less(a, b) || Less(b, a)
  {
    if a != [] && b != [] && a[0] == b[0] {
      LessIsTotal(a[1..], b[1..]);
      assert a[1..] == b[1..] ==> a == [a[0]] + a[1..] == b;
    }
  }

  lemma {:induction false} LessIsTransitive(a: Data, b: Data, c: Data)
    requires Less(a, b) && Less(b, c)
    ensures Less(a, c)
  {
    if a != [] && a[0] == b[0] && b[0] == c[0] {
      LessIsTransitive(a[1..], b[1..], c[1..]);
    }
  }

  lemma LessIsAsymmetric(a: Data, b: Data)
    requires Less(a, b)
    ensures !Less(b, a)
  {
    if Less(b, a) {
      LessIsTransitive(a, b, a);
      LessIsIrreflexive(a);
    }
  }

  // A proper prefix comes first; otherwise the first character that differs decides.
  lemma {:induction false} LessExact(a: Data, b: Data)
    ensures Less(a, b) <==>
              || (|a| < |b| && a == b[..|a|])
              || exists i :: 0 <= i < |a| && i < |b| && a[..i] == b[..i] && a[i] < b[i]
    decreases |a|
  {
    if a != [] && b != [] && a[0] == b[0] {
      var x, y := a[1..], b[1..];
      LessExact(x, y);
      assert a == [a[0]] + x && b == [b[0]] + y;
      if |a| < |b| && a == b[..|a|] {
        assert x == y[..|x|];
      }
      if |x| < |y| && x == y[..|x|] {
        assert a == b[..|a|];
      }
      forall i | 0 <= i < |a| && i < |b|
        ensures a[..i] == b[..i] && a[i] < b[i] <==> i > 0 && x[..i - 1] == y[..i - 1] && x[i - 1] < y[i - 1]
      {
        if i > 0 {
          assert a[..i] == [a[0]] + x[..i - 1] && b[..i] == [b[0]] + y[..i - 1];
          assert a[..i][1..] == x[..i - 1] && b[..i][1..] == y[..i - 1];
        }
      }
      if exists i :: 0 <= i < |x| && i < |y| && x[..i] == y[..i] && x[i] < y[i] {
        var i :| 0 <= i < |x| && i < |y| && x[..i] == y[..i] && x[i] < y[i];
        assert a[..i + 1] == b[..i + 1] && a[i + 1] < b[i + 1];
      }
    } else if a != [] && b != [] {
      assert a[..0] == b[..0];
    }
  }

  predicate IsFirst(k: Data, keys: set<Data>) {
    k in keys && forall x :: x in keys && x != k ==> Less(k, x)
  }

  lemma {:induction false} FirstExists(keys: set<Data>)
    requires keys != {}
    ensures exists k :: IsFirst(k, keys)
    decreases |keys|
  {
    var k :| k in keys;
    var rest := keys - {k};
    if rest == {} {
      assert forall x :: x in keys && x != k ==> x in rest;
      assert IsFirst(k, keys);
    } else {
      FirstExists(rest);
      var r :| IsFirst(r, rest);
      LessIsTotal(r, k);
      if Less(r, k) {
        assert IsFirst(r, keys);
      } else {
        forall x | x in keys && x != k ensures Less(k, x) {
          if x != r {
            LessIsTransitive(k, r, x);
          }
        }
        assert IsFirst(k, keys);
      }
    }
  }

  lemma FirstIsUnique(j: Data, k: Data, keys: set<Data>)
    requires IsFirst(j, keys) && IsFirst(k, keys)
    ensures j == k
  {
    if j != k {
      LessIsAsymmetric(j, k);
    }
  }

  function First(keys: set<Data>): (k: Data)
    requires keys != {}
    ensures IsFirst(k, keys)
  {
    FirstExists(keys);
    assert forall j, k | IsFirst(j, keys) && IsFirst(k, keys) :: j == k by {
      forall j, k | IsFirst(j, keys) && IsFirst(k, keys) ensures j == k {
        FirstIsUnique(j, k, keys);
      }
    }
    var k :| IsFirst(k, keys);
    k
  }

  predicate Ascending(s: seq<Data>) {
    forall i, j :: 0 <= i < j < |s| ==> Less(s[i], s[j])
  }

  // The keys in iteration order.
  function InOrder(keys: set<Data>): (s: seq<Data>)
    ensures forall k :: k in s <==> k in keys
    ensures Ascending(s)
    decreases |keys|
  {
    if keys == {} then [] else
      var k := First(keys);
      [k] + InOrder(keys - {k})
  }
}
