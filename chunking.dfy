/**
 * Splitting a sequence of records into chunks of a fixed size: the full
 * chunks the input processor emits inside its read loop, and the
 * remainder it emits when the array ends.
 */
module Chunking {

  /** The concatenation of a sequence of chunks. */
  function Flatten<T>(chunks: seq<seq<T>>): (r: seq<T>)
    ensures chunks == [] ==> r == []
  {
    if chunks == [] then [] else chunks[0] + Flatten(chunks[1..])
  }

  /** Flattening distributes over concatenation of chunk sequences. */
  lemma {:induction false} FlattenAppend<T>(a: seq<seq<T>>, b: seq<seq<T>>)
    ensures Flatten(a + b) == Flatten(a) + Flatten(b)
  {
    if a == [] {
      assert a + b == b;
    } else {
      assert (a + b)[1..] == a[1..] + b;
      FlattenAppend(a[1..], b);
    }
  }

  /** The chunks of exactly `k` records, in order, that fill up while reading `rs`. */
  function FullChunks<T>(rs: seq<T>, k: nat): (r: seq<seq<T>>)
    requires k >= 1
    decreases |rs|
  {
    if |rs| < k then [] else [rs[..k]] + FullChunks(rs[k..], k)
  }

  /** Every full chunk holds exactly `k` records. */
  lemma {:induction false} FullChunkSizes<T>(rs: seq<T>, k: nat)
    requires k >= 1
    ensures forall i | 0 <= i < |FullChunks(rs, k)| :: |FullChunks(rs, k)[i]| == k
    decreases |rs|
  {
    if |rs| >= k {
      FullChunkSizes(rs[k..], k);
      var rest := FullChunks(rs[k..], k);
      assert forall i | 1 <= i < |[rs[..k]] + rest| :: ([rs[..k]] + rest)[i] == rest[i - 1];
    }
  }

  /** The records left over after the full chunks: fewer than `k`, and a suffix of `rs`. */
  function Remainder<T>(rs: seq<T>, k: nat): (r: seq<T>)
    requires k >= 1
    ensures |r| < k && |r| <= |rs|
    decreases |rs|
  {
    if |rs| < k then rs else Remainder(rs[k..], k)
  }

  /** A non-empty remainder becomes one more, shorter, chunk. */
  function Trailing<T>(rest: seq<T>): (r: seq<seq<T>>)
    ensures r == [] <==> rest == []
    ensures Flatten(r) == rest
  {
    if rest == [] then [] else [rest]
  }

  /** All chunks of `rs` at size `k`. */
  function Chunks<T>(rs: seq<T>, k: nat): seq<seq<T>>
    requires k >= 1
  {
    FullChunks(rs, k) + Trailing(Remainder(rs, k))
  }

  /** The full chunks followed by the remainder are exactly the input. */
  lemma {:induction false} SplitIsExact<T>(rs: seq<T>, k: nat)
    requires k >= 1
    ensures Flatten(FullChunks(rs, k)) + Remainder(rs, k) == rs
    decreases |rs|
  {
    if |rs| >= k {
      var head, tail := rs[..k], rs[k..];
      var rest := FullChunks(tail, k);
      SplitIsExact(tail, k);
      assert ([head] + rest)[1..] == rest;
      assert Flatten(FullChunks(rs, k)) == head + Flatten(rest);
      assert head + tail == rs;
    }
  }

  /** The record counts add up: `k` per full chunk, plus the remainder. */
  lemma {:induction false} SplitCount<T>(rs: seq<T>, k: nat)
    requires k >= 1
    ensures |FullChunks(rs, k)| * k + |Remainder(rs, k)| == |rs|
    decreases |rs|
  {
    if |rs| >= k {
      var q := |FullChunks(rs[k..], k)|;
      SplitCount(rs[k..], k);
      MulSucc(q, k);
    }
  }

  /** Concatenating all chunks gives back the records, in order. */
  lemma ChunksFlatten<T>(rs: seq<T>, k: nat)
    requires k >= 1
    ensures Flatten(Chunks(rs, k)) == rs
  {
    SplitIsExact(rs, k);
    FlattenAppend(FullChunks(rs, k), Trailing(Remainder(rs, k)));
  }

  lemma MulSucc(q: nat, k: nat)
    ensures (q + 1) * k == q * k + k
  {
  }

  lemma {:induction false} MulAtLeast(d: nat, k: nat)
    requires d >= 1
    ensures d * k >= k
  {
    if d > 1 {
      MulAtLeast(d - 1, k);
      MulSucc(d - 1, k);
    }
  }

  lemma MulDiff(a: nat, b: nat, k: nat)
    requires a >= b
    ensures a * k - b * k == (a - b) * k
  {
  }

  /** Euclidean division is unique. */
  lemma DivisionIsUnique(n: nat, k: nat, q: nat, m: nat)
    requires k >= 1 && m < k && q * k + m == n
    ensures q == n / k && m == n % k
  {
    var q0, m0 := n / k, n % k;
    assert q0 * k + m0 == n;
    if q > q0 {
      MulDiff(q, q0, k);
      MulAtLeast(q - q0, k);
    } else if q < q0 {
      MulDiff(q0, q, k);
      MulAtLeast(q0 - q, k);
    }
  }

  /** Every chunk but the last has exactly `k` records; the last has between 1 and `k`. */
  lemma ChunkSizes<T>(rs: seq<T>, k: nat)
    requires k >= 1
    ensures forall i | 0 <= i < |Chunks(rs, k)| :: 1 <= |Chunks(rs, k)[i]| <= k
    ensures forall i | 0 <= i < |Chunks(rs, k)| - 1 :: |Chunks(rs, k)[i]| == k
  {
    var full := FullChunks(rs, k);
    var trailing := Trailing(Remainder(rs, k));
    FullChunkSizes(rs, k);
    forall i | 0 <= i < |full + trailing|
      ensures 1 <= |(full + trailing)[i]| <= k
      ensures i < |full + trailing| - 1 ==> |(full + trailing)[i]| == k
    {
      if i >= |full| {
        assert (full + trailing)[i] == Remainder(rs, k);
      }
    }
  }

  /** `n` records at size `k` make ceil(n / k) chunks. */
  lemma ChunkCount<T>(rs: seq<T>, k: nat)
    requires k >= 1
    ensures |FullChunks(rs, k)| == |rs| / k
    ensures |Remainder(rs, k)| == |rs| % k
    ensures |Chunks(rs, k)| == (|rs| + k - 1) / k
  {
    var q, m := |FullChunks(rs, k)|, |Remainder(rs, k)|;
    SplitCount(rs, k);
    DivisionIsUnique(|rs|, k, q, m);
    if m == 0 {
      DivisionIsUnique(|rs| + k - 1, k, q, k - 1);
    } else {
      MulSucc(q, k);
      DivisionIsUnique(|rs| + k - 1, k, q + 1, m - 1);
    }
  }

  /**
   * Reading one more record either completes the pending chunk (when it
   * reaches `k` records) or extends it.
   */
  lemma {:induction false} AppendOne<T>(rs: seq<T>, x: T, k: nat)
    requires k >= 1
    ensures |Remainder(rs, k)| + 1 == k ==>
      FullChunks(rs + [x], k) == FullChunks(rs, k) + [Remainder(rs, k) + [x]] &&
      Remainder(rs + [x], k) == []
    ensures |Remainder(rs, k)| + 1 < k ==>
      FullChunks(rs + [x], k) == FullChunks(rs, k) &&
      Remainder(rs + [x], k) == Remainder(rs, k) + [x]
    decreases |rs|
  {
    var ext := rs + [x];
    if |rs| >= k {
      assert ext[..k] == rs[..k];
      assert ext[k..] == rs[k..] + [x];
      AppendOne(rs[k..], x, k);
    } else if |rs| + 1 == k {
      assert ext[..k] == ext;
      assert ext[k..] == [];
    }
  }

  /** The full chunks of a prefix are a prefix of the full chunks. */
  lemma {:induction false} FullChunksOfPrefix<T>(rs: seq<T>, n: nat, k: nat)
    requires k >= 1 && n <= |rs|
    ensures FullChunks(rs[..n], k) <= FullChunks(rs, k)
    decreases |rs|
  {
    if n >= k {
      assert rs[..n][..k] == rs[..k];
      assert rs[..n][k..] == rs[k..][..n - k];
      FullChunksOfPrefix(rs[k..], n - k, k);
    }
  }
}
