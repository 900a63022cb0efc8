/** The slicing generator `_chunked` and the chunk-by-chunk reading of a
    store (`pd.read_csv(..., chunksize=n)`), both modelled as a split of a
    sequence into consecutive slices. */
module Chunks {

  /** `_chunked(sequence, size)`: the slices `sequence[k*size : (k+1)*size]`
      for k = 0, 1, ...; a negative size gives an empty `range` and so no
      chunk (a zero size makes `range` raise, hence the precondition). */
  function Chunked<T>(s: seq<T>, size: int): (r: seq<seq<T>>)
    requires size != 0
    ensures size < 0 ==> r == []
    ensures size > 0 ==> forall i :: 0 <= i < |r| ==> 0 < |r[i]| <= size
    ensures size > 0 ==> forall i :: 0 <= i < |r| - 1 ==> |r[i]| == size
    ensures size > 0 ==> (|s| == 0 <==> |r| == 0)
    decreases |s|
  {
    if size < 0 || |s| == 0 then []
    else
      var n := if |s| < size then |s| else size;
      [s[..n]] + Chunked(s[n..], size)
  }

  /** Concatenation of a sequence of chunks. */
  function Flatten<T>(ss: seq<seq<T>>): seq<T> {
    if |ss| == 0 then [] else ss[0] + Flatten(ss[1..])
  }

  lemma {:induction false} FlattenAppend<T>(a: seq<seq<T>>, b: seq<seq<T>>)
    ensures Flatten(a + b) == Flatten(a) + Flatten(b)
  {
    if |a| > 0 {
      assert (a + b)[1..] == a[1..] + b;
      FlattenAppend(a[1..], b);
    } else {
      assert a + b == b;
    }
  }

  /** Flattening a prefix one chunk longer adds that chunk at the end. */
  lemma FlattenSnoc<T>(ss: seq<seq<T>>, i: nat)
    requires i < |ss|
    ensures Flatten(ss[..i + 1]) == Flatten(ss[..i]) + ss[i]
  {
    assert ss[..i + 1] == ss[..i] + [ss[i]];
    FlattenAppend(ss[..i], [ss[i]]);
    assert Flatten([ss[i]]) == ss[i] + Flatten([]);
  }

  /** The chunks of `_chunked`, put back together, are the input. */
  lemma {:induction false} ChunkedFlatten<T>(s: seq<T>, size: int)
    requires size > 0
    ensures Flatten(Chunked(s, size)) == s
    decreases |s|
  {
    if |s| > 0 {
      var n := if |s| < size then |s| else size;
      ChunkedFlatten(s[n..], size);
      assert s == s[..n] + s[n..];
    }
  }
}
