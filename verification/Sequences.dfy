/** Facts about sequences that are cheapest to state for any element type. */
module Sequences {
  lemma Associate<T>(a: seq<T>, b: seq<T>, c: seq<T>)
    ensures a + (b + c) == (a + b) + c
  {
  }

  lemma SplitFirst<T>(s: seq<T>)
    requires s != []
    ensures s == [s[0]] + s[1..]
  {
  }

  lemma SplitPrefix<T>(s: seq<T>, i: nat, j: nat)
    requires i <= j <= |s|
    ensures s[..j] == s[..i] + s[i..j]
  {
  }

  lemma MiddlePart<T>(a: seq<T>, b: seq<T>, c: seq<T>, i: nat, j: nat)
    requires i <= j <= |b|
    ensures ((a + b) + c)[|a| + i..|a| + j] == b[i..j]
  {
  }

  function Map<A, B>(f: A -> B, xs: seq<A>): (ys: seq<B>)
    ensures |ys| == |xs| && forall i :: 0 <= i < |xs| ==> ys[i] == f(xs[i])
  {
    seq(|xs|, i requires 0 <= i < |xs| => f(xs[i]))
  }

  lemma MapUpdate<A, B>(f: A -> B, xs: seq<A>, i: nat, x: A)
    requires i < |xs|
    ensures Map(f, xs[i := x]) == Map(f, xs)[i := f(x)]
  {
  }

  function Repeat<T>(x: T, n: nat): (xs: seq<T>)
    ensures |xs| == n
  {
    seq(n, _ => x)
  }

  lemma RepeatGrows<T>(x: T, n: nat)
    ensures Repeat(x, n) + [x] == Repeat(x, n + 1)
  {
  }

  /** `picked` are the entries of `from` at `places`, in order and each at most once. */
  ghost predicate Chosen<T>(picked: seq<T>, from: seq<T>, places: seq<int>) {
    && |places| == |picked|
    && (forall i :: 0 <= i < |places| ==> 0 <= places[i] < |from| && picked[i] == from[places[i]])
    && (forall i, j :: 0 <= i < j < |places| ==> places[i] < places[j])
  }

  lemma ChosenFromMore<T>(picked: seq<T>, from: seq<T>, places: seq<int>, x: T)
    requires Chosen(picked, from, places)
    ensures Chosen(picked, from + [x], places)
    ensures forall i :: 0 <= i < |places| ==> places[i] < |from + [x]| - 1
  {
  }

  lemma ChooseLast<T>(picked: seq<T>, from: seq<T>, places: seq<int>)
    requires Chosen(picked, from, places) && from != []
    requires forall i :: 0 <= i < |places| ==> places[i] < |from| - 1
    ensures Chosen(picked + [from[|from| - 1]], from, places + [|from| - 1])
  {
  }

  lemma ChosenPrefix<T>(picked: seq<T>, from: seq<T>, places: seq<int>, n: nat)
    requires Chosen(picked, from, places) && n <= |picked|
    ensures Chosen(picked[..n], from, places[..n])
  {
  }

  lemma PrefixAt<T>(part: seq<T>, whole: seq<T>, i: nat)
    requires part <= whole && i < |part|
    ensures i < |whole| && whole[i] == part[i]
  {
  }

  lemma OneLonger<T>(part: seq<T>, whole: seq<T>, last: T)
    requires |whole| == |part| + 1 && whole[|part|] == last
    requires forall i :: 0 <= i < |part| ==> whole[i] == part[i]
    ensures whole[..|whole| - 1] == part && whole[|whole| - 1] == last
  {
  }

  lemma SplitLast<T>(s: seq<T>)
    requires s != []
    ensures s == s[..|s| - 1] + [s[|s| - 1]]
  {
  }
}
