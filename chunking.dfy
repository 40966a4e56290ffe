/** Shard partitioning, `chunkify(lst, n)` of commons/utils.py: the list
    is cut into contiguous slices of `ceil(len(lst) / n)` elements. The
    generator is modelled as fully consumed (`list(chunkify(...))`, as
    its callers do), so its exceptions are results here. */
module Chunking {
  import opened PyBase

  /** Python's `a // b`: division rounding towards minus infinity. */
  function FloorDiv(a: int, b: int): int
    requires b != 0
  {
    if b > 0 then a / b else (-a) / (-b)
  }

  /** Python's `a % b`: the remainder, with the sign of `b`. */
  function FloorMod(a: int, b: int): int
    requires b != 0
  {
    a - b * FloorDiv(a, b)
  }

  /** `len(lst) // n + (len(lst) % n > 0)`; a Python `True` adds 1. */
  function ChunkSize(len: nat, n: int): int
    requires n != 0
  {
    FloorDiv(len, n) + (if FloorMod(len, n) > 0 then 1 else 0)
  }

  /** `lst[i : i + size] for i in range(0, len(lst), size)` for a
      positive step; the last slice is cut short by the end of the list. */
  function Chunks<T>(lst: seq<T>, size: nat): seq<seq<T>>
    requires size > 0
    decreases |lst|
  {
    if lst == [] then []
    else if |lst| <= size then [lst]
    else [lst[..size]] + Chunks(lst[size..], size)
  }

  /** `list(chunkify(lst, n))`: a zero `n` divides by zero; a zero chunk
      size (the empty list) is a zero `range` step; a negative chunk
      size (negative `n`, non-empty list) makes an empty `range`. */
  function Chunkify<T>(lst: seq<T>, n: int): Result<seq<seq<T>>> {
    if n == 0 then Err(ZeroDivisionError)
    else
      var size := ChunkSize(|lst|, n);
      if size == 0 then Err(ValueError(ZeroRangeStep))
      else if size < 0 then Ok([])
      else Ok(Chunks(lst, size))
  }

  /** Every chunk is non-empty, every chunk but the last has exactly
      `size` elements, and the last has between 1 and `size`. */
  predicate WellChunked<T>(cs: seq<seq<T>>, size: nat) {
    && (forall i :: 0 <= i < |cs| ==> 1 <= |cs[i]| <= size)
    && (forall i :: 0 <= i < |cs| - 1 ==> |cs[i]| == size)
  }

  /** For positive `n` and a non-empty list the chunk size is the
      ceiling of `len / n`: the least size whose `n` chunks cover it. */
  lemma ChunkSizeIsCeiling(len: nat, n: int)
    requires n > 0 && len > 0
    ensures ChunkSize(len, n) >= 1
    ensures (ChunkSize(len, n) - 1) * n < len <= ChunkSize(len, n) * n
  {
    var q, r := len / n, len % n;
    assert len == n * q + r && 0 <= r < n;
    assert FloorMod(len, n) == r;
    if r > 0 {
      assert ChunkSize(len, n) == q + 1;
      assert (q + 1) * n == q * n + n;
    } else {
      assert ChunkSize(len, n) == q;
      assert q >= 1;
      assert (q - 1) * n == q * n - n;
    }
  }

  /** The chunks, concatenated in order, are the list. */
  lemma {:induction false} ChunksFlatten<T>(lst: seq<T>, size: nat)
    requires size > 0
    ensures Flatten(Chunks(lst, size)) == lst
    decreases |lst|
  {
    if lst != [] && |lst| > size {
      var rest := Chunks(lst[size..], size);
      ChunksFlatten(lst[size..], size);
      assert ([lst[..size]] + rest)[1..] == rest;
      assert lst == lst[..size] + lst[size..];
    }
  }

  lemma {:induction false} ChunksShape<T>(lst: seq<T>, size: nat)
    requires size > 0
    ensures WellChunked(Chunks(lst, size), size)
    decreases |lst|
  {
    if lst != [] && |lst| > size {
      ChunksShape(lst[size..], size);
      var rest := Chunks(lst[size..], size);
      assert Chunks(lst, size) == [lst[..size]] + rest;
      assert rest != [];
    }
  }

  /** A list that `m` chunks of `size` can hold yields at most `m`. */
  lemma {:induction false} ChunksCount<T>(lst: seq<T>, size: nat, m: nat)
    requires size > 0 && |lst| <= m * size
    ensures |Chunks(lst, size)| <= m
    decreases |lst|
  {
    if lst != [] && |lst| > size {
      assert m <= 1 ==> m * size <= size;
      assert m >= 2;
      assert (m - 1) * size == m * size - size;
      ChunksCount(lst[size..], size, m - 1);
    } else if lst != [] {
      assert m >= 1;
    }
  }

  /** What `chunkify` promises for positive `n` and a non-empty list:
      at most `n` well-formed chunks of size `ceil(len / n)` whose
      concatenation is the list. */
  lemma ChunkifyCorrect<T>(lst: seq<T>, n: int)
    requires n > 0 && lst != []
    ensures Chunkify(lst, n).Ok?
    ensures var cs := Chunkify(lst, n).value;
            && Flatten(cs) == lst
            && 1 <= |cs| <= n
            && WellChunked(cs, ChunkSize(|lst|, n))
  {
    var size := ChunkSize(|lst|, n);
    ChunkSizeIsCeiling(|lst|, n);
    assert size * n == n * size;
    ChunksFlatten(lst, size);
    ChunksShape(lst, size);
    ChunksCount(lst, size, n);
  }

  /** The failures and the degenerate case of `chunkify`. */
  lemma ChunkifyEdges<T>(lst: seq<T>, n: int)
    ensures Chunkify(lst, n) == Err(ZeroDivisionError) <==> n == 0
    ensures Chunkify(lst, n) == Err(ValueError(ZeroRangeStep)) <==> n != 0 && lst == []
    ensures n < 0 && lst != [] ==> Chunkify(lst, n) == Ok([])
  {
    if n < 0 && lst != [] {
      var d, q := -n, (-|lst|) / (-n);
      assert FloorDiv(|lst|, n) == q;
      assert q * d + (-|lst|) % d == -|lst| && 0 <= (-|lst|) % d < d;
      assert q >= 0 ==> q * d >= 0;
      assert q < 0;
      assert FloorMod(|lst|, n) == |lst| + d * q;
      assert d * q <= -d by { assert d * q == -(d * (-q)); assert d * (-q) >= d * 1; }
    }
  }

  /** The generator loop of `chunkify`, run to exhaustion:
      `for i in range(0, len(lst), chunk_size): yield lst[i : i + chunk_size]`. */
  method ChunkifyGen<T>(lst: seq<T>, n: int) returns (r: Result<seq<seq<T>>>)
    ensures r == Chunkify(lst, n)
  {
    if n == 0 {
      return Err(ZeroDivisionError);
    }
    var size := FloorDiv(|lst|, n) + (if FloorMod(|lst|, n) > 0 then 1 else 0);
    if size == 0 {
      return Err(ValueError(ZeroRangeStep));
    }
    if size < 0 {
      // range(0, len(lst), size) counts down from 0 and stops at once
      return Ok([]);
    }
    var chunks: seq<seq<T>> := [];
    var i := 0;
    while i < |lst|
      invariant 0 <= i
      invariant Chunks(lst, size) == chunks + Chunks(lst[Min(i, |lst|)..], size)
      decreases |lst| - i
    {
      var end := if i + size <= |lst| then i + size else |lst|;
      var next := lst[Min(i + size, |lst|)..];
      ChunksStep(lst, i, size);
      assert chunks + ([lst[i..end]] + Chunks(next, size)) == (chunks + [lst[i..end]]) + Chunks(next, size);
      chunks := chunks + [lst[i..end]];
      i := i + size;
    }
    assert lst[Min(i, |lst|)..] == [];
    assert chunks + [] == chunks;
    assert size == ChunkSize(|lst|, n);
    return Ok(chunks);
  }

  /** One step of the generator: the chunk at `i`, then the chunks of
      what follows it. */
  lemma ChunksStep<T>(lst: seq<T>, i: nat, size: nat)
    requires size > 0 && i < |lst|
    ensures var end := if i + size <= |lst| then i + size else |lst|;
            Chunks(lst[i..], size) == [lst[i..end]] + Chunks(lst[Min(i + size, |lst|)..], size)
  {
    if i + size < |lst| {
      assert lst[i..][size..] == lst[i + size..];
      assert lst[i..][..size] == lst[i..i + size];
    } else {
      assert lst[Min(i + size, |lst|)..] == [];
      assert lst[i..|lst|] == lst[i..];
      assert Chunks(lst[i..], size) == [lst[i..]];
    }
  }

  /** Ten items in three shards: chunks of 4, 4 and 2. */
  lemma TenIntoThree(lst: seq<int>)
    requires |lst| == 10
    ensures Chunkify(lst, 3).Ok?
    ensures var cs := Chunkify(lst, 3).value;
            |cs| == 3 && |cs[0]| == 4 && |cs[1]| == 4 && |cs[2]| == 2
  {
    assert FloorDiv(10, 3) == 3 && FloorMod(10, 3) == 1;
    assert ChunkSize(10, 3) == 4;
    var cs := Chunks(lst, 4);
    assert lst[4..][4..] == lst[8..];
    assert Chunks(lst[8..], 4) == [lst[8..]];
    assert Chunks(lst[4..], 4) == [lst[4..][..4]] + [lst[8..]];
    assert cs == [lst[..4], lst[4..][..4], lst[8..]];
  }

  /** Nine items in four shards give only three chunks (of 3, 3, 3):
      fewer chunks than shards. */
  lemma NineIntoFour(lst: seq<int>)
    requires |lst| == 9
    ensures Chunkify(lst, 4).Ok? && |Chunkify(lst, 4).value| == 3
  {
    assert FloorDiv(9, 4) == 2 && FloorMod(9, 4) == 1;
    assert ChunkSize(9, 4) == 3;
    assert lst[3..][3..] == lst[6..];
    assert Chunks(lst[6..], 3) == [lst[6..]];
    assert Chunks(lst[3..], 3) == [lst[3..][..3]] + [lst[6..]];
  }
}
