/** Facts about sequences that the solver is glad to be told. */
module SeqFacts {

  lemma ConcatAssociates<T>(a: seq<T>, b: seq<T>, c: seq<T>)
    ensures a + (b + c) == (a + b) + c
  {
  }

  lemma DropAppends<T>(a: seq<T>, n: nat, b: seq<T>)
    requires n <= |a|
    ensures (a + b)[n..] == a[n..] + b
    ensures (a + b)[..n] == a[..n]
  {
  }
}
