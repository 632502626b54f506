/**
 * split_zmws.py: the ZMW list is cut into n near-equal contiguous chunks, one
 * per output file, by `split(a, n)` (split_zmws.py:6-8).
 */
module SplitZmws {
  import opened Common

  /** `min(i, m)`. */
  function Min(i: int, m: int): int {
    if i < m then i else m
  }

  /**
   * Where chunk i starts: `i * k + min(i, m)`, with `(k, m) = divmod(len(a), n)`;
   * chunk i ends where chunk i + 1 starts.
   */
  function Bound(k: nat, m: nat, i: nat): nat {
    i * k + Min(i, m)
  }

  lemma MulSucc(i: nat, k: nat)
    ensures (i + 1) * k == i * k + k
  {
  }

  /** Each chunk is k long, one more for the first m. */
  lemma BoundStep(k: nat, m: nat, i: nat)
    ensures Bound(k, m, i + 1) == Bound(k, m, i) + k + (if i < m then 1 else 0)
  {
    MulSucc(i, k);
  }

  /** The quotient and remainder `divmod(len, n)` computes for a positive n. */
  lemma DivMod(len: nat, n: nat)
    requires n > 0
    ensures len == n * (len / n) + len % n && len % n < n
  {
  }

  /** The chunks start at 0, end at len(a), and their bounds never decrease. */
  lemma {:induction false} BoundRange(len: nat, n: nat, k: nat, m: nat, i: nat)
    requires n > 0 && len == n * k + m && m < n && i <= n
    ensures Bound(k, m, 0) == 0
    ensures Bound(k, m, n) == len
    ensures Bound(k, m, i) <= len
    decreases n - i
  {
    if i < n {
      BoundRange(len, n, k, m, i + 1);
      BoundStep(k, m, i);
    }
  }

  /** `a[i * k + min(i, m) : (i + 1) * k + min(i + 1, m)]`. */
  function Chunk<T>(a: seq<T>, n: nat, i: nat): (c: seq<T>)
    requires 0 <= i < n
  {
    var k, m := |a| / n, |a| % n;
    DivMod(|a|, n);
    BoundStep(k, m, i);
    BoundRange(|a|, n, k, m, i + 1);
    a[Bound(k, m, i)..Bound(k, m, i + 1)]
  }

  /**
   * `split(a, n)`, with its generator drawn out as a sequence: n chunks, or
   * ZeroDivisionError from `divmod` when n is 0 (a negative n gives an empty
   * range and so no chunk).
   */
  function Split<T>(a: seq<T>, n: int): (r: Result<seq<seq<T>>>)
    ensures r.Err? <==> n == 0
    ensures r.Err? ==> r.error == ZeroDivisionError
    ensures r.Ok? ==> |r.value| == if n > 0 then n else 0
  {
    if n == 0 then Err(ZeroDivisionError)
    else if n < 0 then Ok([])
    else Ok(seq(n, i requires 0 <= i < n => Chunk(a, n, i)))
  }

  /** Chunk i has k + 1 elements when i < m and k otherwise, with (k, m) = divmod(len(a), n). */
  lemma ChunkSizes<T>(a: seq<T>, n: nat, i: nat)
    requires 0 <= i < n
    ensures |Split(a, n).value[i]| == if i < |a| % n then |a| / n + 1 else |a| / n
  {
    var k, m := |a| / n, |a| % n;
    DivMod(|a|, n);
    BoundStep(k, m, i);
    BoundRange(|a|, n, k, m, i + 1);
    assert Split(a, n).value[i] == a[Bound(k, m, i)..Bound(k, m, i + 1)];
  }

  /** Any two chunks differ in size by at most one. */
  lemma ChunksBalanced<T>(a: seq<T>, n: nat, i: nat, j: nat)
    requires 0 <= i < n && 0 <= j < n
    ensures |Split(a, n).value[i]| - |Split(a, n).value[j]| <= 1
  {
    ChunkSizes(a, n, i);
    ChunkSizes(a, n, j);
  }

  /** With more chunks than elements, every chunk from len(a) on is empty (and the others hold one element). */
  lemma TrailingChunksEmpty<T>(a: seq<T>, n: nat, i: nat)
    requires n > |a| && 0 <= i < n
    ensures |Split(a, n).value[i]| == if i < |a| then 1 else 0
  {
    ChunkSizes(a, n, i);
    SmallDivMod(|a|, n);
  }

  lemma SmallDivMod(len: nat, n: nat)
    requires len < n
    ensures len / n == 0 && len % n == len
  {
  }

  /**
   * The chunks are contiguous: the first i of them, in order, are exactly the
   * prefix of `a` up to where chunk i starts.
   */
  lemma {:induction false} ChunksPrefix<T>(a: seq<T>, n: nat, i: nat)
    requires n > 0 && i <= n
    ensures var k, m := |a| / n, |a| % n;
            Bound(k, m, i) <= |a| && Flatten(Split(a, n).value[..i]) == a[..Bound(k, m, i)]
  {
    var chunks := Split(a, n).value;
    var k, m := |a| / n, |a| % n;
    DivMod(|a|, n);
    BoundRange(|a|, n, k, m, i);
    if i > 0 {
      ChunksPrefix(a, n, i - 1);
      BoundStep(k, m, i - 1);
      BoundRange(|a|, n, k, m, i - 1);
      assert chunks[i - 1] == a[Bound(k, m, i - 1)..Bound(k, m, i)];
      assert chunks[..i] == chunks[..i - 1] + [chunks[i - 1]];
      FlattenAppend(chunks[..i - 1], chunks[i - 1]);
      assert a[..Bound(k, m, i)] == a[..Bound(k, m, i - 1)] + chunks[i - 1];
    }
  }

  /** Concatenating the chunks in order gives back `a`. */
  lemma SplitFlatten<T>(a: seq<T>, n: nat)
    requires n > 0
    ensures Flatten(Split(a, n).value) == a
  {
    var chunks := Split(a, n).value;
    var k, m := |a| / n, |a| % n;
    DivMod(|a|, n);
    ChunksPrefix(a, n, n);
    BoundRange(|a|, n, k, m, n);
    assert chunks[..n] == chunks;
    assert a[..|a|] == a;
  }

  /** Chunk i + 1 starts right where chunk i ends, in `a`. */
  lemma ChunksAdjacent<T>(a: seq<T>, n: nat, i: nat)
    requires 0 <= i && i + 1 < n
    ensures var k, m := |a| / n, |a| % n;
            Bound(k, m, i + 2) <= |a| &&
            a[Bound(k, m, i)..Bound(k, m, i + 2)] == Split(a, n).value[i] + Split(a, n).value[i + 1]
  {
    var k, m := |a| / n, |a| % n;
    DivMod(|a|, n);
    BoundStep(k, m, i);
    BoundStep(k, m, i + 1);
    BoundRange(|a|, n, k, m, i + 2);
    var lo, mid, hi := Bound(k, m, i), Bound(k, m, i + 1), Bound(k, m, i + 2);
    assert Split(a, n).value[i] == a[lo..mid];
    assert Split(a, n).value[i + 1] == a[mid..hi];
    assert a[lo..hi] == a[lo..mid] + a[mid..hi];
  }
}
