/** Splitting a list into consecutive pages, as lodash's `chunk(array, size)` does. */
module Chunking {

  /** The pages of `s`, each `size` long except possibly the last; no pages when `size < 1`. */
  function Chunk<T>(s: seq<T>, size: int): seq<seq<T>>
    decreases |s|
  {
    if size < 1 || |s| == 0 then []
    else if |s| <= size then [s]
    else [s[..size]] + Chunk(s[size..], size)
  }

  /** Concatenation of a list of pages. */
  function Flatten<T>(pages: seq<seq<T>>): seq<T> {
    if |pages| == 0 then [] else pages[0] + Flatten(pages[1..])
  }

  /** The number of pages needed for `n` elements: `ceil(n / size)`. */
  function PageCount(n: nat, size: nat): nat
    requires size >= 1
  {
    (n + size - 1) / size
  }

  lemma {:induction false} FlattenAppend<T>(a: seq<seq<T>>, b: seq<seq<T>>)
    ensures Flatten(a + b) == Flatten(a) + Flatten(b)
  {
    if |a| == 0 {
      assert a + b == b;
    } else {
      assert (a + b)[1..] == a[1..] + b;
      FlattenAppend(a[1..], b);
    }
  }

  /** Concatenating the pages in order gives back the original list. */
  lemma {:induction false} ChunkFlatten<T>(s: seq<T>, size: int)
    requires size >= 1
    ensures Flatten(Chunk(s, size)) == s
    decreases |s|
  {
    if |s| == 0 {
    } else if |s| <= size {
      assert Flatten([s]) == s + Flatten([]);
    } else {
      ChunkFlatten(s[size..], size);
      var rest := Chunk(s[size..], size);
      assert ([s[..size]] + rest)[1..] == rest;
      assert s[..size] + s[size..] == s;
    }
  }

  /** There are `ceil(|s| / size)` pages. */
  lemma {:induction false} ChunkCount<T>(s: seq<T>, size: int)
    requires size >= 1
    ensures |Chunk(s, size)| == PageCount(|s|, size)
    decreases |s|
  {
    if |s| == 0 {
    } else if |s| <= size {
      assert Chunk(s, size) == [s];
      DivisionByRange(|s| + size - 1, size, 1);
    } else {
      var rest := s[size..];
      assert Chunk(s, size) == [s[..size]] + Chunk(rest, size);
      ChunkCount(rest, size);
      PageCountStep(|rest|, size);
      assert |rest| + size == |s|;
    }
  }

  /** `size` more elements need exactly one more page. */
  lemma PageCountStep(n: nat, size: nat)
    requires size >= 1
    ensures PageCount(n + size, size) == PageCount(n, size) + 1
  {
    var m := n + size - 1;
    var q, r := m / size, m % size;
    assert m == q * size + r && 0 <= r < size;
    assert (q + 1) * size == q * size + size;
    DivisionByRange(m + size, size, q + 1);
  }

  lemma DivisionByRange(n: nat, size: nat, q: nat)
    requires size >= 1 && q * size <= n < q * size + size
    ensures n / size == q
  {
    var d, r := n / size, n % size;
    assert n == d * size + r && 0 <= r < size;
    assert (d - q) * size == d * size - q * size;
    BelowOneMultiple(d - q, size);
    assert (q - d) * size == q * size - d * size;
    BelowOneMultiple(q - d, size);
  }

  /** A multiple `x * size` smaller than `size` has a factor below 1. */
  lemma BelowOneMultiple(x: int, size: nat)
    requires size >= 1 && x * size < size
    ensures x < 1
  {
  }

  /**
   * Every page is non-empty and at most `size` long, and every page but the last
   * is exactly `size` long.
   */
  lemma {:induction false} ChunkSizes<T>(s: seq<T>, size: int)
    requires size >= 1
    ensures forall i :: 0 <= i < |Chunk(s, size)| ==> 1 <= |Chunk(s, size)[i]| <= size
    ensures forall i :: 0 <= i < |Chunk(s, size)| - 1 ==> |Chunk(s, size)[i]| == size
    decreases |s|
  {
    if |s| > size {
      ChunkSizes(s[size..], size);
      var rest := Chunk(s[size..], size);
      assert Chunk(s, size) == [s[..size]] + rest;
      forall i | 1 <= i < |Chunk(s, size)|
        ensures Chunk(s, size)[i] == rest[i - 1]
      {
      }
    }
  }

  /** An empty list gives no pages. */
  lemma ChunkEmpty<T>(s: seq<T>, size: int)
    requires |s| == 0
    ensures Chunk(s, size) == []
  {
  }
}
