/** Cutting a sequence into consecutive fixed-size pieces. Both ingestion
    scripts do this: the page chunker over characters and the product
    indexer over batches of records. */
module Slices {

  function Min(a: int, b: int): int { if a <= b then a else b }

  function Max(a: int, b: int): int { if a >= b then a else b }

  /** The consecutive pieces of `s` of length `size`, left to right; only the
      last may be shorter, and the empty sequence has no pieces. */
  function Windows<T>(s: seq<T>, size: nat): seq<seq<T>>
    requires size > 0
    decreases |s|
  {
    if s == [] then []
    else if |s| <= size then [s]
    else [s[..size]] + Windows(s[size..], size)
  }

  function Flatten<T>(ss: seq<seq<T>>): seq<T>
    decreases |ss|
  {
    if ss == [] then [] else ss[0] + Flatten(ss[1..])
  }

  /** The pieces put back together give the input. */
  lemma {:induction false} FlattenWindows<T>(s: seq<T>, size: nat)
    requires size > 0
    ensures Flatten(Windows(s, size)) == s
    decreases |s|
  {
    if |s| > size {
      var w := Windows(s, size);
      assert w[1..] == Windows(s[size..], size);
      FlattenWindows(s[size..], size);
      assert s == s[..size] + s[size..];
    } else if s != [] {
      assert Flatten(Windows(s, size)) == s + Flatten<T>([]);
    }
  }

  /** Every piece is non-empty and at most `size` long; all but the last are exactly `size`. */
  lemma {:induction false} WindowSizes<T>(s: seq<T>, size: nat)
    requires size > 0
    ensures forall k | 0 <= k < |Windows(s, size)| ::
      0 < |Windows(s, size)[k]| <= size && (k < |Windows(s, size)| - 1 ==> |Windows(s, size)[k]| == size)
    decreases |s|
  {
    if |s| > size {
      WindowSizes(s[size..], size);
      var w := Windows(s, size);
      assert forall k | 1 <= k < |w| :: w[k] == Windows(s[size..], size)[k - 1];
    }
  }

  lemma MulAtLeast(d: int, n: nat)
    requires d >= 1
    ensures d * n >= n
  {
  }

  /** Euclidean division is determined by quotient and remainder. */
  lemma DivUnique(x: int, n: nat, q: int, r: int)
    requires n > 0 && 0 <= r < n && x == q * n + r
    ensures x / n == q
  {
    var q', r' := x / n, x % n;
    assert (q' - q) * n == r - r';
    if q' > q {
      MulAtLeast(q' - q, n);
    } else if q' < q {
      MulAtLeast(q - q', n);
    }
  }

  lemma DivStep(x: nat, n: nat)
    requires n > 0
    ensures (x + n) / n == x / n + 1
  {
    var q, r := x / n, x % n;
    assert x + n == (q + 1) * n + r;
    DivUnique(x + n, n, q + 1, r);
  }

  /** There are `ceil(|s| / size)` pieces. */
  lemma {:induction false} WindowCount<T>(s: seq<T>, size: nat)
    requires size > 0
    ensures |Windows(s, size)| == (|s| + size - 1) / size
    decreases |s|
  {
    if |s| > size {
      WindowCount(s[size..], size);
      DivStep(|s| - 1, size);
    } else if s != [] {
      DivStep(|s| - 1, size);
      assert (|s| - 1) / size == 0;
    }
  }

  /** Piece `k` is the slice starting at `k * size`: the pieces neither overlap nor leave gaps. */
  lemma {:induction false} WindowAt<T>(s: seq<T>, size: nat, k: nat)
    requires size > 0
    requires k < |Windows(s, size)|
    ensures k * size < |s|
    ensures Windows(s, size)[k] == s[k * size .. Min((k + 1) * size, |s|)]
    decreases |s|
  {
    if k > 0 {
      assert |s| > size;
      var t := s[size..];
      assert Windows(s, size)[k] == Windows(t, size)[k - 1];
      WindowAt(t, size, k - 1);
      var a, b := (k - 1) * size, Min(k * size, |t|);
      assert a + size == k * size;
      assert b + size == Min((k + 1) * size, |s|);
      assert t[a..b] == s[a + size .. b + size];
    }
  }

  /** Every piece, stated for all of them at once. */
  lemma WindowsAreSlices<T>(s: seq<T>, size: nat)
    requires size > 0
    ensures forall k | 0 <= k < |Windows(s, size)| ::
      k * size < |s| && Windows(s, size)[k] == s[k * size .. Min((k + 1) * size, |s|)]
  {
    forall k | 0 <= k < |Windows(s, size)|
      ensures k * size < |s| && Windows(s, size)[k] == s[k * size .. Min((k + 1) * size, |s|)]
    {
      WindowAt(s, size, k);
    }
  }
}
