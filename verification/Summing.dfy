/** Sums and bags over the threads of a pool, and what changing one thread does to them. */
module Summing {

  ghost function Sum<T>(s: seq<T>, f: T -> nat): nat {
    if s == [] then 0 else Sum(s[..|s| - 1], f) + f(s[|s| - 1])
  }

  lemma {:induction false} SumUpdate<T>(s: seq<T>, i: nat, x: T, f: T -> nat)
    requires i < |s|
    ensures Sum(s[i := x], f) + f(s[i]) == Sum(s, f) + f(x)
    decreases |s|
  {
    var front := s[..|s| - 1];
    if i == |s| - 1 {
      assert s[i := x][..i] == front;
    } else {
      assert s[i := x][..|s| - 1] == front[i := x];
      SumUpdate(front, i, x, f);
    }
  }

  lemma SumAppend<T>(s: seq<T>, x: T, f: T -> nat)
    ensures Sum(s + [x], f) == Sum(s, f) + f(x)
  {
    assert (s + [x])[..|s|] == s;
  }

  lemma {:induction false} SumMember<T>(s: seq<T>, i: nat, f: T -> nat)
    requires i < |s|
    ensures f(s[i]) <= Sum(s, f)
    decreases |s|
  {
    if i == |s| - 1 {
    } else {
      SumMember(s[..|s| - 1], i, f);
    }
  }

  lemma {:induction false} SumBound<T>(s: seq<T>, f: T -> nat, c: nat)
    requires forall i :: 0 <= i < |s| ==> f(s[i]) <= c
    ensures Sum(s, f) <= c * |s|
    decreases |s|
  {
    if s == [] {
    } else {
      SumBound(s[..|s| - 1], f, c);
    }
  }

  lemma {:induction false} SumWitness<T>(s: seq<T>, f: T -> nat) returns (i: nat)
    requires Sum(s, f) > 0
    ensures i < |s| && f(s[i]) > 0
    decreases |s|
  {
    i := |s| - 1;
    if f(s[i]) == 0 {
      i := SumWitness(s[..i], f);
    }
  }

  lemma SumZero<T>(s: seq<T>, f: T -> nat)
    requires forall i :: 0 <= i < |s| ==> f(s[i]) == 0
    ensures Sum(s, f) == 0
  {
    if Sum(s, f) > 0 {
      var i := SumWitness(s, f);
    }
  }

  /** What a thread has in its hands. */
  datatype Load<U> = Free | Carries(item: U)

  /** How many threads have `u` in their hands. */
  ghost function Carrying<T, U>(s: seq<T>, f: T -> Load<U>, u: U): nat {
    if s == [] then 0 else Carrying(s[..|s| - 1], f, u) + if f(s[|s| - 1]) == Carries(u) then 1 else 0
  }

  /** Everything in `from` is in `to` or in the hands of one thread. */
  ghost predicate HandedOn<T, U(!new)>(from: seq<U>, to: seq<U>, s: seq<T>, f: T -> Load<U>) {
    forall u :: multiset(from)[u] == multiset(to)[u] + Carrying(s, f, u)
  }

  lemma {:induction false} CarryingUpdate<T, U>(s: seq<T>, i: nat, x: T, f: T -> Load<U>, u: U)
    requires i < |s|
    ensures Carrying(s[i := x], f, u) + (if f(s[i]) == Carries(u) then 1 else 0)
         == Carrying(s, f, u) + (if f(x) == Carries(u) then 1 else 0)
    decreases |s|
  {
    var front := s[..|s| - 1];
    if i == |s| - 1 {
      assert s[i := x][..i] == front;
    } else {
      assert s[i := x][..|s| - 1] == front[i := x];
      CarryingUpdate(front, i, x, f, u);
    }
  }

  lemma HandsSame<T, U(!new)>(from: seq<U>, to: seq<U>, s: seq<T>, i: nat, x: T, f: T -> Load<U>)
    requires HandedOn(from, to, s, f) && i < |s| && f(x) == f(s[i])
    ensures HandedOn(from, to, s[i := x], f)
  {
    forall u ensures Carrying(s[i := x], f, u) == Carrying(s, f, u) {
      CarryingUpdate(s, i, x, f, u);
    }
  }

  /** A free thread takes up the new last item of `from`. */
  lemma HandsTake<T, U(!new)>(from: seq<U>, to: seq<U>, s: seq<T>, i: nat, x: T, f: T -> Load<U>)
    requires HandedOn(from, to, s, f) && i < |s| && f(s[i]).Free? && f(x).Carries?
    ensures HandedOn(from + [f(x).item], to, s[i := x], f)
  {
    forall u ensures multiset(from + [f(x).item])[u] == multiset(to)[u] + Carrying(s[i := x], f, u) {
      CarryingUpdate(s, i, x, f, u);
    }
  }

  /** A thread puts its load down as the new last item of `to`. */
  lemma HandsDrop<T, U(!new)>(from: seq<U>, to: seq<U>, s: seq<T>, i: nat, x: T, f: T -> Load<U>)
    requires HandedOn(from, to, s, f) && i < |s| && f(s[i]).Carries? && f(x).Free?
    ensures HandedOn(from, to + [f(s[i]).item], s[i := x], f)
  {
    forall u ensures multiset(from)[u] == multiset(to + [f(s[i]).item])[u] + Carrying(s[i := x], f, u) {
      CarryingUpdate(s, i, x, f, u);
    }
  }

  lemma HandsAppend<T, U(!new)>(from: seq<U>, to: seq<U>, s: seq<T>, x: T, f: T -> Load<U>)
    requires HandedOn(from, to, s, f) && f(x).Free?
    ensures HandedOn(from, to, s + [x], f)
  {
    assert (s + [x])[..|s|] == s;
  }

  lemma {:induction false} CarryingNone<T, U>(s: seq<T>, f: T -> Load<U>, u: U)
    requires forall i :: 0 <= i < |s| ==> f(s[i]) != Carries(u)
    ensures Carrying(s, f, u) == 0
    decreases |s|
  {
    if s == [] {
    } else {
      CarryingNone(s[..|s| - 1], f, u);
    }
  }
}
