/** Sums of multisets: how the references of a tree add up. */
module Multisets {

  function Sum(s: seq<multiset<nat>>): multiset<nat> {
    if s == [] then multiset{} else Sum(s[..|s| - 1]) + s[|s| - 1]
  }

  ghost predicate Distinct(m: multiset<nat>) {
    forall x :: m[x] <= 1
  }

  lemma SumSnoc(s: seq<multiset<nat>>, x: multiset<nat>)
    ensures Sum(s + [x]) == Sum(s) + x
  {
    assert (s + [x])[..|s|] == s;
  }

  /** Replacing one summand shifts the total by the difference. */
  lemma {:induction false} SumUpdate(s: seq<multiset<nat>>, j: nat, x: multiset<nat>)
    requires j < |s|
    ensures Sum(s[j := x]) + s[j] == Sum(s) + x
  {
    var n := |s| - 1;
    if j < n {
      SumUpdate(s[..n], j, x);
      assert s[j := x][..n] == s[..n][j := x];
      calc {
        Sum(s[j := x]) + s[j];
        Sum(s[..n][j := x]) + s[n] + s[j];
        (Sum(s[..n][j := x]) + s[..n][j]) + s[n];
        Sum(s[..n]) + x + s[n];
        Sum(s) + x;
      }
    } else {
      assert s[j := x][..n] == s[..n];
    }
  }

  lemma {:induction false} SumHas(s: seq<multiset<nat>>, j: nat)
    requires j < |s|
    ensures s[j] <= Sum(s)
  {
    if j < |s| - 1 {
      SumHas(s[..|s| - 1], j);
    }
  }

  /** Two summands at different places are both part of the total. */
  lemma SumHasTwo(s: seq<multiset<nat>>, i: nat, j: nat)
    requires i < |s| && j < |s| && i != j
    ensures s[i] + s[j] <= Sum(s)
  {
    SumUpdate(s, i, multiset{});
    var t := s[i := multiset{}];
    SumHas(t, j);
    assert s[i] + s[j] <= Sum(t) + s[i] == Sum(s) + multiset{} == Sum(s);
  }

  /** Something counted in the total is counted in some summand. */
  lemma {:induction false} SumWitness(s: seq<multiset<nat>>, x: nat) returns (j: nat)
    requires x in Sum(s)
    ensures j < |s| && x in s[j]
  {
    var n := |s| - 1;
    if x in s[n] {
      j := n;
    } else {
      j := SumWitness(s[..n], x);
    }
  }

  lemma {:induction false} SumMono(s: seq<multiset<nat>>, t: seq<multiset<nat>>)
    requires |s| == |t| && forall i | 0 <= i < |s| :: s[i] <= t[i]
    ensures Sum(s) <= Sum(t)
  {
    if s != [] {
      SumMono(s[..|s| - 1], t[..|t| - 1]);
    }
  }

  lemma SumEmpty(s: seq<multiset<nat>>)
    requires forall i | 0 <= i < |s| :: s[i] == multiset{}
    ensures Sum(s) == multiset{}
  {
  }

  lemma Shift(p: multiset<nat>, a: multiset<nat>, b: multiset<nat>, c: multiset<nat>, d: multiset<nat>)
    requires a + b == c + d
    ensures (p + a) + b == (p + c) + d
  {
    assert (p + a) + b == p + (a + b) == p + (c + d) == (p + c) + d;
  }

  lemma SizeMore(a: set<nat>, b: set<nat>, i: nat, more: bool)
    requires i !in a && (more <==> i in b) && forall x | x != i :: x in b <==> x in a
    ensures |b| == |a| + if more then 1 else 0
  {
    if more {
      assert b == a + {i};
    } else {
      assert b == a;
    }
  }
}
