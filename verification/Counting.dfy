/** Sizes of sets and lists, and totals over a table of processes: how many are
    in some phase, or how much each of them may still use. */
module Counting {

  lemma {:induction false} SubsetSize<T>(a: set<T>, b: set<T>)
    requires a <= b
    ensures |a| <= |b|
  {
    if a != {} {
      var x :| x in a;
      SubsetSize(a - {x}, b - {x});
    }
  }

  lemma {:induction false} SetFitsList(a: set<nat>, s: seq<nat>)
    requires forall x :: x in a ==> x in s
    ensures |a| <= |s|
  {
    if s == [] {
      assert a == {};
    } else {
      forall x | x in a - {s[0]} ensures x in s[1..] {
        assert x in s;
      }
      SetFitsList(a - {s[0]}, s[1..]);
    }
  }

  ghost function Total<T(!new)>(ps: seq<T>, w: T -> nat): nat {
    if ps == [] then 0 else Total(ps[..|ps| - 1], w) + w(ps[|ps| - 1])
  }

  lemma {:induction false} TotalUpdate<T(!new)>(ps: seq<T>, w: T -> nat, p: nat, x: T)
    requires p < |ps|
    ensures Total(ps[p := x], w) == Total(ps, w) - w(ps[p]) + w(x)
  {
    var last := |ps| - 1;
    if p == last {
      assert ps[p := x][..last] == ps[..last];
    } else {
      assert ps[p := x][..last] == ps[..last][p := x];
      TotalUpdate(ps[..last], w, p, x);
    }
  }

  lemma {:induction false} TotalSame<T(!new)>(ps: seq<T>, qs: seq<T>, w: T -> nat)
    requires |ps| == |qs| && forall p :: 0 <= p < |ps| ==> w(ps[p]) == w(qs[p])
    ensures Total(ps, w) == Total(qs, w)
  {
    if ps != [] {
      TotalSame(ps[..|ps| - 1], qs[..|ps| - 1], w);
    }
  }

  lemma {:induction false} TotalAtLeast<T(!new)>(ps: seq<T>, w: T -> nat, p: nat)
    requires p < |ps|
    ensures Total(ps, w) >= w(ps[p])
  {
    if p < |ps| - 1 {
      TotalAtLeast(ps[..|ps| - 1], w, p);
    }
  }

  /** Two different processes. */
  lemma {:induction false} TotalAtLeastTwo<T(!new)>(ps: seq<T>, w: T -> nat, p: nat, q: nat)
    requires p < q < |ps|
    ensures Total(ps, w) >= w(ps[p]) + w(ps[q])
  {
    if q == |ps| - 1 {
      TotalAtLeast(ps[..q], w, p);
    } else {
      TotalAtLeastTwo(ps[..|ps| - 1], w, p, q);
    }
  }

  lemma {:induction false} TotalPositive<T(!new)>(ps: seq<T>, w: T -> nat) returns (p: nat)
    requires Total(ps, w) > 0
    ensures p < |ps| && w(ps[p]) > 0
  {
    var last := |ps| - 1;
    if w(ps[last]) > 0 {
      p := last;
    } else {
      p := TotalPositive(ps[..last], w);
    }
  }

  lemma {:induction false} TotalZero<T(!new)>(ps: seq<T>, w: T -> nat)
    requires forall p :: 0 <= p < |ps| ==> w(ps[p]) == 0
    ensures Total(ps, w) == 0
  {
    if ps != [] {
      TotalZero(ps[..|ps| - 1], w);
    }
  }
}
