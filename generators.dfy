/** `all_combinations`: every tuple taking its k-th component from the
    k-th sequence, the first component varying fastest. */
module Generators {
  import opened Wrappers
  import opened Arith
  import opened MixedRadix

  function Lengths<T>(seqs: seq<seq<T>>): (lens: seq<nat>)
    ensures |lens| == |seqs| && forall k :: 0 <= k < |seqs| ==> lens[k] == |seqs[k]|
  {
    seq(|seqs|, k requires 0 <= k < |seqs| => |seqs[k]|)
  }

  /** `(s0,) + s1` for every `s0` of `first`, in order. */
  function Block<T>(first: seq<T>, tail: seq<T>): (r: seq<seq<T>>)
    ensures |r| == |first| && forall i :: 0 <= i < |first| ==> r[i] == [first[i]] + tail
  {
    seq(|first|, i requires 0 <= i < |first| => [first[i]] + tail)
  }

  /** The outer loop over the combinations of the rest, the inner loop
      over `first`. */
  function Outer<T>(first: seq<T>, rest: seq<seq<T>>): (r: seq<seq<T>>)
  {
    if rest == [] then [] else Block(first, rest[0]) + Outer(first, rest[1..])
  }

  lemma {:induction false} OuterLength<T>(first: seq<T>, rest: seq<seq<T>>)
    ensures |Outer(first, rest)| == |first| * |rest|
    decreases |rest|
  {
    if rest != [] {
      OuterLength(first, rest[1..]);
      assert |first| * |rest| == |first| + |first| * (|rest| - 1);
    }
  }

  /** Tuple `i` of block `j` sits at `j * |first| + i`. */
  lemma {:induction false} OuterAt<T>(first: seq<T>, rest: seq<seq<T>>, j: nat, i: nat)
    requires j < |rest| && i < |first|
    ensures j * |first| + i < |Outer(first, rest)|
    ensures Outer(first, rest)[j * |first| + i] == [first[i]] + rest[j]
    decreases j
  {
    var n := |first|;
    OuterLength(first, rest);
    MulBelow(j, n, |rest|);
    if j > 0 {
      OuterAt(first, rest[1..], j - 1, i);
      assert j * n == n + (j - 1) * n;
      assert Outer(first, rest) == Block(first, rest[0]) + Outer(first, rest[1..]);
    }
  }

  /** The generator body for at least one sequence, as a sequence of the
      tuples it yields. */
  function Combinations<T>(seqs: seq<seq<T>>): (r: seq<seq<T>>)
    requires |seqs| >= 1
    decreases |seqs|
  {
    if |seqs| == 1 then seq(|seqs[0]|, i requires 0 <= i < |seqs[0]| => [seqs[0][i]])
    else Outer(seqs[0], Combinations(seqs[1..]))
  }

  /** `all_combinations(seq)`: an empty `seq` fails at `seq[0]`. */
  function AllCombinations<T>(seqs: seq<seq<T>>): (r: Result<seq<seq<T>>>)
    ensures r.Err? <==> |seqs| == 0
    ensures r.Err? ==> r.error == IndexError
    ensures r.Ok? ==> r.value == Combinations(seqs)
  {
    if |seqs| == 0 then Err(IndexError) else Ok(Combinations(seqs))
  }

  /** The tuple whose k-th component is `seqs[k][c[k]]`. */
  function Pick<T>(seqs: seq<seq<T>>, c: seq<nat>): (t: seq<T>)
    requires |c| == |seqs| && forall k :: 0 <= k < |seqs| ==> c[k] < |seqs[k]|
    ensures |t| == |seqs|
  {
    seq(|seqs|, k requires 0 <= k < |seqs| => seqs[k][c[k]])
  }

  lemma PickCons<T>(seqs: seq<seq<T>>, c: seq<nat>)
    requires |c| == |seqs| >= 1 && forall k :: 0 <= k < |seqs| ==> c[k] < |seqs[k]|
    ensures forall k :: 0 <= k < |seqs| - 1 ==> c[1..][k] < |seqs[1..][k]|
    ensures Pick(seqs, c) == [seqs[0][c[0]]] + Pick(seqs[1..], c[1..])
  {
  }

  /** There are as many tuples as the product of the lengths. */
  lemma {:induction false} CombinationsLength<T>(seqs: seq<seq<T>>)
    requires |seqs| >= 1
    ensures |Combinations(seqs)| == Product(Lengths(seqs))
    decreases |seqs|
  {
    var lens := Lengths(seqs);
    if |seqs| == 1 {
      assert lens[1..] == [];
    } else {
      CombinationsLength(seqs[1..]);
      assert Lengths(seqs[1..]) == lens[1..];
      OuterLength(seqs[0], Combinations(seqs[1..]));
    }
  }

  /** Tuple `idx` picks from each sequence the digit of `idx` in the mixed
      radix of the lengths, the first digit varying fastest. */
  lemma {:induction false} CombinationAt<T>(seqs: seq<seq<T>>, idx: nat)
    requires |seqs| >= 1 && idx < |Combinations(seqs)|
    ensures AllPositive(Lengths(seqs))
    ensures Combinations(seqs)[idx] == Pick(seqs, Radix(Lengths(seqs), idx))
    decreases |seqs|
  {
    var lens := Lengths(seqs);
    var n := |seqs[0]|;
    CombinationsLength(seqs);
    ProductPositive(lens);
    var c := Radix(lens, idx);
    if |seqs| == 1 {
      assert idx % n == idx by { DivModUnique(idx, n, 0, idx); }
      assert c == [idx % n] + Radix(lens[1..], idx / n);
    } else {
      var rest := seqs[1..];
      var sub := Combinations(rest);
      var i, j := idx % n, idx / n;
      assert Lengths(rest) == lens[1..];
      assert j < |sub| by {
        CombinationsLength(rest);
        DivBelow(idx, n, |sub|);
      }
      assert Combinations(seqs)[idx] == [seqs[0][i]] + sub[j] by {
        assert idx == j * n + i;
        OuterAt(seqs[0], sub, j, i);
      }
      CombinationAt(rest, j);
      assert c[0] == i && c[1..] == Radix(lens[1..], j);
      PickCons(seqs, c);
    }
  }

  /** Conversely every tuple of choices occurs, at the index that encodes
      its digits. */
  lemma EveryTupleOccurs<T>(seqs: seq<seq<T>>, c: seq<nat>)
    requires |seqs| >= 1
    requires |c| == |seqs| && forall k :: 0 <= k < |seqs| ==> c[k] < |seqs[k]|
    ensures Encode(Lengths(seqs), c) < |Combinations(seqs)|
    ensures Combinations(seqs)[Encode(Lengths(seqs), c)] == Pick(seqs, c)
  {
    RadixEncode(Lengths(seqs), c);
    CombinationsLength(seqs);
    CombinationAt(seqs, Encode(Lengths(seqs), c));
  }

  lemma BlockOfRange(d: int)
    ensures Block([0, 1, 2, 3], [d]) == [[0, d], [1, d], [2, d], [3, d]]
  {
    var b := Block([0, 1, 2, 3], [d]);
    assert b[0] == [0] + [d] == [0, d];
    assert b[1] == [1] + [d] == [1, d];
    assert b[2] == [2] + [d] == [2, d];
    assert b[3] == [3] + [d] == [3, d];
  }

  /** The example of the documentation: two ranges of four and three. */
  lemma Example()
    ensures Combinations([[0, 1, 2, 3], [0, 1, 2]]) ==
      [[0, 0], [1, 0], [2, 0], [3, 0], [0, 1], [1, 1], [2, 1], [3, 1], [0, 2], [1, 2], [2, 2], [3, 2]]
  {
    var first := [0, 1, 2, 3];
    var sub := Combinations([[0, 1, 2]]);
    assert [[0, 1, 2, 3], [0, 1, 2]][1..] == [[0, 1, 2]];
    assert sub == [[0], [1], [2]];
    assert sub[1..][1..] == [[2]];
    assert [[2]][1..] == [];
    BlockOfRange(0);
    BlockOfRange(1);
    BlockOfRange(2);
  }
}
