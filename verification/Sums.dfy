/** The sum of the values of a finite map. */
module Sums {
  ghost function Sum(m: map<nat, nat>): nat
    decreases |m|
  {
    if m == map[] then 0
    else
      var k :| k in m;
      m[k] + Sum(m - {k})
  }

  lemma {:induction false} SumWithout(m: map<nat, nat>, k: nat)
    requires k in m
    ensures Sum(m) == m[k] + Sum(m - {k})
    decreases |m|
  {
    var j :| j in m && Sum(m) == m[j] + Sum(m - {j});
    if j != k {
      SumWithout(m - {j}, k);
      SumWithout(m - {k}, j);
      assert m - {j} - {k} == m - {k} - {j};
    }
  }

  function At(m: map<nat, nat>, k: nat): nat {
    if k in m then m[k] else 0
  }

  lemma SumMinus(m: map<nat, nat>, k: nat)
    ensures Sum(m - {k}) + At(m, k) == Sum(m)
  {
    if k in m {
      SumWithout(m, k);
    } else {
      assert m - {k} == m;
    }
  }

  lemma SumMinusTwo(m: map<nat, nat>, k: nat, l: nat)
    requires k != l
    ensures Sum(m - {k} - {l}) + At(m, k) + At(m, l) == Sum(m)
  {
    hide Sum;
    SumMinus(m, k);
    SumMinus(m - {k}, l);
    assert At(m - {k}, l) == At(m, l);
  }

  lemma SumsAgree(a: map<nat, nat>, b: map<nat, nat>, k: nat, l: nat)
    requires k != l
    requires forall x :: x != k && x != l ==> (x in b <==> x in a) && (x in a ==> b[x] == a[x])
    ensures Sum(b) + At(a, k) + At(a, l) == Sum(a) + At(b, k) + At(b, l)
  {
    hide Sum, At;
    assert b - {k} - {l} == a - {k} - {l};
    SumMinusTwo(a, k, l);
    SumMinusTwo(b, k, l);
  }

  lemma EmptySum()
    ensures Sum(map[]) == 0
  {
  }

  lemma {:induction false} ZeroSum(m: map<nat, nat>)
    requires forall k :: k in m ==> m[k] == 0
    ensures Sum(m) == 0
    decreases |m|
  {
    if m != map[] {
      var k :| k in m;
      SumWithout(m, k);
      ZeroSum(m - {k});
    }
  }
}
