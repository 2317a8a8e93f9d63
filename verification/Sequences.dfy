/**
 Facts about concatenation that the solver needs spelled out.
 */
module Sequences {

  lemma Associate<T>(a: seq<T>, b: seq<T>, c: seq<T>)
    ensures a + (b + c) == (a + b) + c
  {
  }

  lemma MoveHead<T>(a: seq<T>, b: seq<T>)
    requires b != []
    ensures (a + [b[0]]) + b[1..] == a + b
  {
  }

  lemma MoveLast<T>(a: seq<T>, b: seq<T>)
    requires a != []
    ensures a[..|a| - 1] + ([a[|a| - 1]] + b) == a + b
  {
  }

  lemma Swap<T>(a: seq<T>, b: seq<T>)
    ensures multiset(a + b) == multiset(b + a)
  {
  }
}
