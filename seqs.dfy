/**
 * Concatenating what each element of a list yields, in list order: the shape of
 * a loop that pushes every output of every element onto one array.
 */
module Seqs {

  function ConcatMap<T, U>(s: seq<T>, f: T -> seq<U>): seq<U> {
    if |s| == 0 then [] else ConcatMap(s[..|s| - 1], f) + f(s[|s| - 1])
  }

  /** Handling one more element appends its outputs. */
  lemma ConcatMapSnoc<T, U>(s: seq<T>, x: T, f: T -> seq<U>)
    ensures ConcatMap(s + [x], f) == ConcatMap(s, f) + f(x)
  {
    assert (s + [x])[..|s|] == s;
  }

  /** Splitting the input splits the output the same way. */
  lemma {:induction false} ConcatMapAppend<T, U>(a: seq<T>, b: seq<T>, f: T -> seq<U>)
    ensures ConcatMap(a + b, f) == ConcatMap(a, f) + ConcatMap(b, f)
    decreases |b|
  {
    if |b| == 0 {
      assert a + b == a;
    } else {
      assert (a + b)[..|a + b| - 1] == a + b[..|b| - 1];
      ConcatMapAppend(a, b[..|b| - 1], f);
    }
  }

  /** An element that yields nothing can be dropped. */
  lemma ConcatMapDropEmpty<T, U>(a: seq<T>, x: T, b: seq<T>, f: T -> seq<U>)
    requires f(x) == []
    ensures ConcatMap(a + [x] + b, f) == ConcatMap(a, f) + ConcatMap(b, f)
  {
    ConcatMapAppend(a + [x], b, f);
    ConcatMapSnoc(a, x, f);
  }

  /** When every element yields exactly one output, output `i` is that of element `i`. */
  lemma {:induction false} ConcatMapSingletons<T, U>(s: seq<T>, f: T -> seq<U>)
    requires forall x :: |f(x)| == 1
    ensures |ConcatMap(s, f)| == |s|
    ensures forall i :: 0 <= i < |s| ==> ConcatMap(s, f)[i] == f(s[i])[0]
  {
    if |s| > 0 {
      ConcatMapSingletons(s[..|s| - 1], f);
    }
  }

  /** Every output satisfies `p` when every output of every element does. */
  lemma {:induction false} ConcatMapAll<T, U>(s: seq<T>, f: T -> seq<U>, p: U -> bool)
    requires forall x, y :: x in s && y in f(x) ==> p(y)
    ensures forall y :: y in ConcatMap(s, f) ==> p(y)
  {
    if |s| > 0 {
      ConcatMapAll(s[..|s| - 1], f, p);
      assert s[|s| - 1] in s;
    }
  }

  /** The number of elements of `s` satisfying `p`. */
  function Count<T>(s: seq<T>, p: T -> bool): (n: nat)
    ensures n <= |s|
  {
    if |s| == 0 then 0 else Count(s[..|s| - 1], p) + if p(s[|s| - 1]) then 1 else 0
  }

  /** Counting over two lists adds up. */
  lemma {:induction false} CountAppend<T>(a: seq<T>, b: seq<T>, p: T -> bool)
    ensures Count(a + b, p) == Count(a, p) + Count(b, p)
    decreases |b|
  {
    if |b| == 0 {
      assert a + b == a;
    } else {
      assert (a + b)[..|a + b| - 1] == a + b[..|b| - 1];
      CountAppend(a, b[..|b| - 1], p);
    }
  }
}
