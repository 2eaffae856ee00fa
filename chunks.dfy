/** `chunkify` (desk.py, inside `search_images_by_description`): split a list into batches. */
module Chunks {

  function Min(a: int, b: int): int
  {
    if a <= b then a else b
  }

  /**
   * The consecutive slices `lst[i:i + n]` for `i` in `range(0, len(lst), n)`.
   * The only caller passes `batch_size=10`, so only positive sizes are modelled
   * (`range` would refuse zero and yield nothing for a negative step).
   */
  function Chunkify<T>(lst: seq<T>, n: nat): (chunks: seq<seq<T>>)
    requires n > 0
    ensures forall k :: 0 <= k < |chunks| ==> 0 < |chunks[k]| <= n
    ensures forall k :: 0 <= k < |chunks| - 1 ==> |chunks[k]| == n
    decreases |lst|
  {
    if lst == [] then []
    else if |lst| <= n then [lst]
    else [lst[..n]] + Chunkify(lst[n..], n)
  }

  /** The concatenation of a list of lists. */
  function Flatten<T>(chunks: seq<seq<T>>): seq<T>
  {
    if chunks == [] then [] else chunks[0] + Flatten(chunks[1..])
  }

  /** Concatenating the chunks gives the list back. */
  lemma {:induction false} FlattenChunkify<T>(lst: seq<T>, n: nat)
    requires n > 0
    ensures Flatten(Chunkify(lst, n)) == lst
    decreases |lst|
  {
    if lst != [] && |lst| > n {
      FlattenChunkify(lst[n..], n);
      assert lst == lst[..n] + lst[n..];
    }
  }

  lemma MulNonNegative(a: int, b: int)
    requires a >= 0 && b >= 0
    ensures a * b >= 0
  {
  }

  /** Integer division is determined by quotient and remainder. */
  lemma DivUnique(a: int, n: int, q: int, r: int)
    requires n > 0 && 0 <= r < n && a == q * n + r
    ensures a / n == q
  {
    var q', r' := a / n, a % n;
    assert (q - q') * n == r' - r;
    if q > q' {
      assert (q - q') * n == (q - q' - 1) * n + n;
      MulNonNegative(q - q' - 1, n);
    } else if q < q' {
      assert (q' - q) * n == (q' - q - 1) * n + n;
      MulNonNegative(q' - q - 1, n);
    }
  }

  lemma DivStep(x: nat, n: nat)
    requires n > 0
    ensures (x + n) / n == x / n + 1
  {
    var q, r := x / n, x % n;
    assert x + n == (q + 1) * n + r;
    DivUnique(x + n, n, q + 1, r);
  }

  /** There are ceil(|lst| / n) chunks. */
  lemma {:induction false} ChunkCount<T>(lst: seq<T>, n: nat)
    requires n > 0
    ensures |Chunkify(lst, n)| == (|lst| + n - 1) / n
    decreases |lst|
  {
    if lst == [] {
    } else if |lst| <= n {
      var x := |lst| - 1;
      assert x / n == 0;
      DivStep(x, n);
    } else {
      ChunkCount(lst[n..], n);
      DivStep(|lst| - 1, n);
    }
  }

  /** Slicing after dropping `n` elements is slicing further along. */
  lemma SliceOfDrop<T>(lst: seq<T>, n: nat, a: nat, b: nat)
    requires n <= |lst| && a <= b <= |lst| - n
    ensures lst[n..][a..b] == lst[a + n..b + n]
  {
  }

  /** The `k`-th chunk is the slice starting at `k * n`, as `range(0, len(lst), n)` produces it. */
  lemma {:induction false} ChunkAt<T>(lst: seq<T>, n: nat, k: nat)
    requires n > 0
    requires k < |Chunkify(lst, n)|
    ensures k * n < |lst|
    ensures Chunkify(lst, n)[k] == lst[k * n..Min(k * n + n, |lst|)]
    decreases |lst|
  {
    if k == 0 {
      assert k * n == 0;
    } else {
      var rest := lst[n..];
      assert |lst| > n;
      assert Chunkify(lst, n) == [lst[..n]] + Chunkify(rest, n);
      ChunkAt(rest, n, k - 1);
      var start := (k - 1) * n;
      assert start + n == k * n;
      var stop := Min(start + n, |rest|);
      assert Chunkify(lst, n)[k] == rest[start..stop];
      SliceOfDrop(lst, n, start, stop);
      assert stop + n == Min(k * n + n, |lst|);
    }
  }
}
