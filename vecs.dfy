/** Row flattening of vector batches (utils/vecs.go). */
module Vecs {
  import opened Types

  /** The rows of `rows`, concatenated in order. */
  function Flatten<T>(rows: seq<seq<T>>): seq<T>
  {
    if rows == [] then [] else Flatten(rows[..|rows| - 1]) + rows[|rows| - 1]
  }

  /** `FlattenFloat32Slice`: append each row to the result in turn. */
  method FlattenFloat32Slice(input: seq<seq<Float32>>) returns (result: seq<Float32>)
    ensures result == Flatten(input)
    ensures |result| == TotalLength(input)
  {
    result := [];
    var i := 0;
    while i < |input|
      invariant 0 <= i <= |input|
      invariant result == Flatten(input[..i])
    {
      assert input[..i + 1][..i] == input[..i];
      result := result + input[i];
      i := i + 1;
    }
    assert input[..|input|] == input;
    FlattenLength(input);
  }

  lemma {:induction false} FlattenLength<T>(rows: seq<seq<T>>)
    ensures |Flatten(rows)| == TotalLength(rows)
  {
    if rows != [] {
      FlattenLength(rows[..|rows| - 1]);
    }
  }

  lemma FlattenEmpty<T>()
    ensures Flatten<T>([]) == []
  {
  }

  /** Flattening distributes over concatenation of row lists. */
  lemma {:induction false} FlattenConcat<T>(a: seq<seq<T>>, b: seq<seq<T>>)
    ensures Flatten(a + b) == Flatten(a) + Flatten(b)
  {
    if b == [] {
      assert a + b == a;
    } else {
      var b' := b[..|b| - 1];
      assert (a + b)[..|a + b| - 1] == a + b';
      FlattenConcat(a, b');
    }
  }

  /** When every row has length `d`, element `j` of row `i` lands at index `i * d + j`. */
  lemma {:induction false} FlattenUniformIndex<T>(rows: seq<seq<T>>, d: nat, i: nat, j: nat)
    requires forall k :: 0 <= k < |rows| ==> |rows[k]| == d
    requires i < |rows| && j < d
    ensures |Flatten(rows)| == |rows| * d
    ensures i * d + j < |Flatten(rows)| && Flatten(rows)[i * d + j] == rows[i][j]
  {
    var n := |rows|;
    var front := rows[..n - 1];
    FlattenUniformLength(front, d);
    FlattenUniformLength(rows, d);
    MulSucc(i, d);
    MulSucc(n - 1, d);
    if i < n - 1 {
      FlattenUniformIndex(front, d, i, j);
      MulMonotone(i + 1, n - 1, d);
    } else {
      assert i * d == (n - 1) * d;
    }
  }

  lemma {:induction false} FlattenUniformLength<T>(rows: seq<seq<T>>, d: nat)
    requires forall k :: 0 <= k < |rows| ==> |rows[k]| == d
    ensures |Flatten(rows)| == |rows| * d
  {
    if rows != [] {
      FlattenUniformLength(rows[..|rows| - 1], d);
      MulSucc(|rows| - 1, d);
    }
  }

  lemma MulMonotone(a: nat, b: nat, d: nat)
    requires a <= b
    ensures a * d <= b * d
  {
  }

  lemma MulSucc(a: nat, d: nat)
    ensures (a + 1) * d == a * d + d
  {
  }
}
