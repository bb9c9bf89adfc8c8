/** `array_indices_cond_1d`: the ascending indices of a one-dimensional
    array whose elements satisfy a condition given as a mask or as a
    function computing the mask from the whole array. */
module ArrayTools {
  import opened Wrappers

  /** The `cond` argument: a truth array, or a callable applied once to
      the whole array. */
  datatype Cond<-T> = Mask(m: seq<bool>) | Ufunc(f: seq<T> -> seq<bool>)

  /** `numpy.array(xrange(len(mask)))[mask]`. */
  function IndicesWhere(mask: seq<bool>): (r: seq<nat>)
    decreases |mask|
  {
    if |mask| == 0 then []
    else
      var last := |mask| - 1;
      IndicesWhere(mask[..last]) + (if mask[last] then [last] else [])
  }

  /** The result lists, in ascending order, exactly the indices whose
      mask entry is true. */
  lemma {:induction false} IndicesWhereSpec(mask: seq<bool>)
    ensures forall k :: 0 <= k < |IndicesWhere(mask)| ==> IndicesWhere(mask)[k] < |mask|
    ensures forall k, l :: 0 <= k < l < |IndicesWhere(mask)| ==> IndicesWhere(mask)[k] < IndicesWhere(mask)[l]
    ensures forall i: nat :: i in IndicesWhere(mask) <==> i < |mask| && mask[i]
    decreases |mask|
  {
    if |mask| > 0 {
      var last := |mask| - 1;
      var init := mask[..last];
      IndicesWhereSpec(init);
      forall i | 0 <= i < last
        ensures init[i] == mask[i]
      {
      }
    }
  }

  /** There is one index per true entry. */
  lemma {:induction false} IndicesWhereCount(mask: seq<bool>)
    ensures |IndicesWhere(mask)| == multiset(mask)[true]
    decreases |mask|
  {
    if |mask| > 0 {
      var last := |mask| - 1;
      IndicesWhereCount(mask[..last]);
      assert mask == mask[..last] + [mask[last]];
    }
  }

  /** The mask `cond` stands for. */
  function MaskOf<T>(arr: seq<T>, cond: Cond<T>): seq<bool>
  {
    match cond
    case Mask(m) => m
    case Ufunc(f) => f(arr)
  }

  /** `array_indices_cond_1d(arr, cond)` with its module's missing `numpy`
      import supplied: `arr` has `ndim` axes (the assertion wants one), and
      a mask of another length than `arr` is refused by the indexing. */
  function ArrayIndicesCond1d<T>(ndim: nat, arr: seq<T>, cond: Cond<T>): (r: Result<seq<nat>>)
    ensures ndim != 1 ==> r == Err(AssertionError)
    ensures ndim == 1 && |MaskOf(arr, cond)| != |arr| ==> r == Err(IndexError)
    ensures r.Ok? ==> ndim == 1 && |MaskOf(arr, cond)| == |arr|
    ensures r.Ok? ==> forall i: nat :: i in r.value <==> i < |arr| && MaskOf(arr, cond)[i]
    ensures r.Ok? ==> forall k, l :: 0 <= k < l < |r.value| ==> r.value[k] < r.value[l]
  {
    if ndim != 1 then Err(AssertionError)
    else
      var mask := MaskOf(arr, cond);
      if |mask| != |arr| then Err(IndexError)
      else
        IndicesWhereSpec(mask);
        Ok(IndicesWhere(mask))
  }

  /** As written, the module never imports `numpy`, so the first statement
      fails for every input. */
  function ArrayIndicesAsWritten<T>(ndim: nat, arr: seq<T>, cond: Cond<T>): (r: Result<seq<nat>>)
    ensures r == Err(NameError)
  {
    Err(NameError)
  }

  /** The as-written function never gives the indices the corrected one
      gives for a one-dimensional array and a matching mask. */
  lemma AsWrittenNeverSelects<T>(arr: seq<T>, m: seq<bool>)
    requires |m| == |arr|
    ensures ArrayIndicesCond1d(1, arr, Mask(m)).Ok?
    ensures ArrayIndicesAsWritten(1, arr, Mask(m)) != ArrayIndicesCond1d(1, arr, Mask(m))
  {
  }

  /** The documented use `r <= 2.5`, as a callable on the whole array. */
  function AtMost(bound: int): seq<int> -> seq<bool>
  {
    (a: seq<int>) => seq(|a|, k requires 0 <= k < |a| => a[k] <= bound)
  }

  /** With the callable, the result is the indices of the elements at most
      the bound. */
  lemma AtMostBound(arr: seq<int>, bound: int)
    ensures ArrayIndicesCond1d(1, arr, Ufunc(AtMost(bound))).Ok?
    ensures forall i: nat ::
      (i in ArrayIndicesCond1d(1, arr, Ufunc(AtMost(bound))).value <==> i < |arr| && arr[i] <= bound)
  {
  }
}
