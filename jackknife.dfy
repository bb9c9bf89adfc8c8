/** The index logic of leave-one-out (jackknife) resampling: the dataset
    without point `i`, all `N` such datasets as the rows of an
    `N x (N-1)` array, and the recovery of the full dataset from the first
    two rows. */
module Jackknife {
  import opened Wrappers

  /** `s` with the element at `i` deleted. */
  function Deleted<T>(s: seq<T>, i: nat): (r: seq<T>)
    requires i < |s|
    ensures |r| == |s| - 1
    ensures forall k :: 0 <= k < i ==> r[k] == s[k]
    ensures forall k :: i <= k < |r| ==> r[k] == s[k + 1]
  {
    s[..i] + s[i + 1..]
  }

  /** Deleting a point and putting it back where it was gives the dataset. */
  lemma DeletedReinsert<T>(s: seq<T>, i: nat)
    requires i < |s|
    ensures Deleted(s, i)[..i] + [s[i]] + Deleted(s, i)[i..] == s
  {
    assert Deleted(s, i)[..i] == s[..i];
    assert Deleted(s, i)[i..] == s[i + 1..];
    assert s == s[..i] + [s[i]] + s[i + 1..];
  }

  /** `jk_select_dataset(a, i)`: a fresh array holding `a` without element
      `i`; `i` outside `0 <= i < N` fails the assertion. */
  method SelectDataset<T(0)>(a: array<T>, i: int) returns (r: Result<array<T>>)
    ensures r.Err? <==> !(0 <= i < a.Length)
    ensures r.Err? ==> r.error == AssertionError
    ensures r.Ok? ==> fresh(r.value) && r.value[..] == Deleted(a[..], i)
  {
    var n := a.Length;
    if !(0 <= i < n) {
      return Err(AssertionError);
    }
    var rslt := new T[n - 1];
    forall k | 0 <= k < i {
      rslt[k] := a[k];
    }
    forall k | i <= k < n - 1 {
      rslt[k] := a[k + 1];
    }
    assert rslt[..] == Deleted(a[..], i);
    return Ok(rslt);
  }

  /** `jk_generate_datasets(a)`: a fresh `N x (N-1)` array whose row `i` is
      `a` without element `i`.  For `N == 0` the shape `(0, -1)` is refused
      by numpy with ValueError. */
  method GenerateDatasets<T(0)>(a: array<T>) returns (r: Result<array2<T>>)
    ensures r.Err? <==> a.Length == 0
    ensures r.Err? ==> r.error == ValueError
    ensures r.Ok? ==> fresh(r.value) && r.value.Length0 == a.Length && r.value.Length1 == a.Length - 1
    ensures r.Ok? ==> forall i, k :: 0 <= i < a.Length && 0 <= k < a.Length - 1 ==>
      r.value[i, k] == Deleted(a[..], i)[k]
  {
    var n := a.Length;
    if n == 0 {
      return Err(ValueError);
    }
    var rslt := new T[n, n - 1];
    var i := 0;
    while i < n
      invariant 0 <= i <= n
      invariant forall j, k :: 0 <= j < i && 0 <= k < n - 1 ==> rslt[j, k] == Deleted(a[..], j)[k]
    {
      forall k | 0 <= k < i {
        rslt[i, k] := a[k];
      }
      forall k | i <= k < n - 1 {
        rslt[i, k] := a[k + 1];
      }
      i := i + 1;
    }
    return Ok(rslt);
  }

  /** The reconstruction step of `jk_wstats_dsets`, for input shaped as
      `jk_generate_datasets` makes it: entries `1..N-1` come from row 0 and
      entry 0 from the first entry of row 1, which a single row lacks. */
  method Reconstruct<T(0)>(ajk: array2<T>) returns (r: Result<array<T>>)
    requires ajk.Length1 == ajk.Length0 - 1
    ensures r.Err? <==> ajk.Length0 < 2
    ensures r.Err? ==> r.error == IndexError
    ensures r.Ok? ==> fresh(r.value) && r.value.Length == ajk.Length0
    ensures r.Ok? ==> r.value[0] == ajk[1, 0]
    ensures r.Ok? ==> forall k :: 1 <= k < ajk.Length0 ==> r.value[k] == ajk[0, k - 1]
  {
    var n := ajk.Length0;
    var a := new T[n];
    forall k | 1 <= k < n {
      a[k] := ajk[0, k - 1];
    }
    if n < 2 {
      return Err(IndexError);
    }
    a[0] := ajk[1, 0];
    return Ok(a);
  }

  /** The rows `jk_generate_datasets` makes, as sequences. */
  function Rows<T>(s: seq<T>): (rows: seq<seq<T>>)
    ensures |rows| == |s|
    ensures forall i :: 0 <= i < |s| ==> rows[i] == Deleted(s, i)
  {
    seq(|s|, i requires 0 <= i < |s| => Deleted(s, i))
  }

  /** Row 0 lacks only the first point and row 1 starts with it, so the
      first two rows determine the dataset. */
  lemma RowsRecoverDataset<T>(s: seq<T>)
    requires |s| >= 2
    ensures [Rows(s)[1][0]] + Rows(s)[0] == s
  {
    assert Rows(s)[0] == s[1..];
    assert s == [s[0]] + s[1..];
  }

  /** Generating the datasets and reconstructing from them gives back the
      original values, for at least two points. */
  method RoundTrip<T(0)>(a: array<T>) returns (r: Result<array<T>>)
    ensures a.Length >= 2 ==> r.Ok? && r.value[..] == a[..]
    ensures a.Length < 2 ==> r.Err?
  {
    var rows := GenerateDatasets(a);
    if rows.Err? {
      return Err(rows.error);
    }
    r := Reconstruct(rows.value);
    if r.Ok? {
      assert r.value[..] == a[..] by {
        forall k | 0 <= k < a.Length
          ensures r.value[k] == a[k]
        {
          if k == 0 {
            assert r.value[0] == Deleted(a[..], 1)[0];
          } else {
            assert r.value[k] == Deleted(a[..], 0)[k - 1];
          }
        }
      }
    }
  }
}
