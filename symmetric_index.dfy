/** Packed storage of a symmetric N x N matrix: only one triangle is kept,
    in a linear array.  Three layouts are used:
      LD  - lower triangle (i >= j), Fortran column-major order;
      UD  - upper triangle (i <= j), Fortran column-major order;
      LDC - lower triangle, C row-major order.
    Each layout has a 1-based form (Fortran indices) and, for LD and UD,
    a 0-based form (Python indices).  Python's `//` by 2 is floor division,
    which is what Dafny's `/` computes for a positive divisor. */
module SymmetricIndex {
  import opened Wrappers

  // ---------------------------------------------------------------------
  // Triangular numbers and the exact integer square root

  /** Number of entries in a k x k triangle: 1 + 2 + ... + k. */
  function Tri(k: int): int { k * (k + 1) / 2 }

  /** Number of entries of the packed triangle of an N x N matrix
      (the `LDsize` of the decoders). */
  function LDSize(n: int): int { n * (n + 1) / 2 }

  lemma TriDouble(k: int)
    ensures 2 * Tri(k) == k * (k + 1)
  {
    var q := k / 2;
    if k == 2 * q {
      assert k * (k + 1) == 2 * (q * (k + 1));
    } else {
      assert k + 1 == 2 * (q + 1);
      assert k * (k + 1) == 2 * (k * (q + 1));
    }
  }

  lemma TriStep(k: int)
    ensures Tri(k + 1) == Tri(k) + k + 1
  {
    TriDouble(k);
    TriDouble(k + 1);
    assert (k + 1) * (k + 2) == k * (k + 1) + 2 * (k + 1);
  }

  lemma TriMonotone(a: int, b: int)
    requires 0 <= a <= b
    ensures Tri(a) <= Tri(b)
    decreases b - a
  {
    if a < b {
      TriStep(b - 1);
      TriMonotone(a, b - 1);
    }
  }

  lemma TriNonNegative(k: int)
    requires k >= -1
    ensures Tri(k) >= 0
  {
    if k >= 0 { TriMonotone(0, k); }
  }

  /** A non-negative number whose square is below y*y is below y. */
  lemma SquareBelow(s: int, y: int)
    requires 0 <= s && 0 <= y
    ensures s * s < y * y ==> s < y
  {
    if y <= s {
      assert y * y <= s * y <= s * s;
    }
  }

  /** The integer square root: floor(sqrt(x)) for x >= 0.  The decoders
      `*_v2`/`*_v3` compute `int(numpy.sqrt(x))`; this model takes that as
      exact. */
  function ISqrt(x: nat): (r: nat)
    ensures r * r <= x < (r + 1) * (r + 1)
  {
    if x == 0 then 0
    else
      var s := ISqrt(x - 1);
      if (s + 1) * (s + 1) <= x then s + 1 else s
  }

  // ---------------------------------------------------------------------
  // LD: lower triangle, column-major

  /** Column offset of 1-based column `jj` in the LD layout
      (`jskip` of LD1). */
  function JSkip1(jj: int, n: int): int { (jj - 1) * n - (jj - 2) * (jj - 1) / 2 }

  /** Column offset of 0-based column `jj` in the LD layout
      (`jskip` of LD). */
  function JSkip0(jj: int, n: int): int { jj * n - (jj - 1) * jj / 2 }

  /** Reference for the column offsets: the number of entries in the
      1-based columns 1 .. j-1 of the lower triangle, added up column by
      column (column c holds the n + 1 - c rows c .. n). */
  function ColumnsBefore(j: int, n: int): int
    decreases j
  {
    if j <= 1 then 0 else ColumnsBefore(j - 1, n) + (n + 2 - j)
  }

  /** The closed-form offset of LD1 is the column-by-column sum. */
  lemma {:induction false} JSkip1IsColumnsBefore(j: int, n: int)
    requires j >= 1
    ensures JSkip1(j, n) == ColumnsBefore(j, n)
  {
    if j > 1 {
      JSkip1IsColumnsBefore(j - 1, n);
      JSkip1Step(j - 1, n);
    }
  }

  /** The closed-form offset of LD is the 1-based offset of the next column. */
  lemma JSkip0IsColumnsBefore(j: int, n: int)
    requires j >= 0
    ensures JSkip0(j, n) == ColumnsBefore(j + 1, n)
  {
    JSkip1IsColumnsBefore(j + 1, n);
    assert JSkip0(j, n) == JSkip1(j + 1, n);
  }

  lemma {:induction false} ColumnsBeforeMonotone(a: int, b: int, n: int)
    requires 1 <= a <= b <= n + 1
    ensures ColumnsBefore(a, n) <= ColumnsBefore(b, n)
    decreases b - a
  {
    if a < b {
      ColumnsBeforeMonotone(a, b - 1, n);
    }
  }

  /** All n columns together hold the whole triangle. */
  lemma ColumnsBeforeEnd(n: int)
    requires n >= 0
    ensures ColumnsBefore(n + 1, n) == LDSize(n)
  {
    JSkip1IsColumnsBefore(n + 1, n);
    JSkip1End(n);
  }

  /** 0-based pair to 0-based linear index; the pair is first swapped so
      that the row is not below the column. */
  function LD(i: int, j: int, n: int): int {
    var ii := if i >= j then i else j;
    var jj := if i >= j then j else i;
    (ii - jj) + JSkip0(jj, n)
  }

  /** 1-based pair to 1-based linear index. */
  function LD1(i: int, j: int, n: int): int {
    var ii := if i >= j then i else j;
    var jj := if i >= j then j else i;
    (ii - jj + 1) + JSkip1(jj, n)
  }

  /** Going one column to the right skips the n + 1 - j entries of column j. */
  lemma JSkip1Step(j: int, n: int)
    ensures JSkip1(j + 1, n) == JSkip1(j, n) + n + 1 - j
  {
    assert j * n == (j - 1) * n + n;
    TriStep(j - 2);
  }

  lemma JSkip0Step(j: int, n: int)
    ensures JSkip0(j + 1, n) == JSkip0(j, n) + n - j
  {
    assert (j + 1) * n == j * n + n;
    TriStep(j - 1);
  }

  /** After the last column, the offset is the size of the triangle. */
  lemma JSkip1End(n: int)
    ensures JSkip1(n + 1, n) == LDSize(n)
  {
    TriDouble(n - 1);
    TriDouble(n);
    assert (n - 1) * n + 2 * n == n * (n + 1);
  }

  /** Entries remaining from 1-based column j to the end: a triangle of
      side n + 1 - j. */
  lemma JSkip1Remaining(j: int, n: int)
    ensures LDSize(n) - JSkip1(j, n) == Tri(n + 1 - j)
  {
    TriDouble(n);
    TriDouble(j - 2);
    TriDouble(n + 1 - j);
    assert 2 * JSkip1(j, n) == 2 * ((j - 1) * n) - (j - 2) * (j - 1);
    assert (n + 1 - j) * (n + 2 - j) == n * (n + 1) - 2 * ((j - 1) * n) + (j - 2) * (j - 1);
  }

  /** The 0-based code is the 1-based code of the shifted pair, minus one. */
  lemma LDFromLD1(i: int, j: int, n: int)
    ensures LD(i, j, n) == LD1(i + 1, j + 1, n) - 1
  {
    var jj := if i >= j then j else i;
    assert JSkip0(jj, n) == JSkip1(jj + 1, n);
  }

  /** LD1 of a pair and of the swapped pair agree. */
  lemma LD1Symmetric(i: int, j: int, n: int)
    ensures LD1(i, j, n) == LD1(j, i, n)
  {
  }

  /** On the triangle 1 <= j <= i <= n, LD1 is one-to-one and lands in
      1 .. n(n+1)/2. */
  lemma {:induction false} LD1RangeInjective(i: int, j: int, i': int, j': int, n: int)
    requires 1 <= j <= i <= n && 1 <= j' <= i' <= n
    ensures 1 <= LD1(i, j, n) <= LDSize(n)
    ensures LD1(i, j, n) == LD1(i', j', n) ==> i == i' && j == j'
  {
    LD1ColumnBounds(i, j, n);
    LD1ColumnBounds(i', j', n);
    if j < j' {
      JSkip1Monotone(j + 1, j', n);
    } else if j' < j {
      JSkip1Monotone(j' + 1, j, n);
    }
  }

  /** Column j occupies the codes JSkip1(j) + 1 .. JSkip1(j + 1). */
  lemma LD1ColumnBounds(i: int, j: int, n: int)
    requires 1 <= j <= i <= n
    ensures JSkip1(j, n) < LD1(i, j, n) <= JSkip1(j + 1, n)
    ensures 0 <= JSkip1(j, n) && JSkip1(j + 1, n) <= LDSize(n)
  {
    JSkip1Step(j, n);
    JSkip1Remaining(j + 1, n);
    TriNonNegative(n - j);
    JSkip1Monotone(1, j, n);
  }

  lemma {:induction false} JSkip1Monotone(a: int, b: int, n: int)
    requires 1 <= a <= b <= n + 1
    ensures JSkip1(a, n) <= JSkip1(b, n)
    decreases b - a
  {
    if a < b {
      JSkip1Step(b - 1, n);
      JSkip1Monotone(a, b - 1, n);
    }
  }

  /** Every code 1 .. n(n+1)/2 is used by some pair of the triangle, so
      LD1 is a bijection from the triangle onto that range. */
  lemma LD1Onto(ij: int, n: int)
    requires 1 <= n && 1 <= ij <= LDSize(n)
    ensures exists i, j :: 1 <= j <= i <= n && LD1(i, j, n) == ij
  {
    LDdec1V2Correct(ij, n);
    var p := LDdec1V2(ij, n).value;
    assert 1 <= p.1 <= p.0 <= n && LD1(p.0, p.1, n) == ij;
  }

  /** LD_generate_ref_mapping: numbers the pairs 1 <= j <= i <= N
      consecutively, column by column, starting at 1.  The result is
      exactly LD1 on the triangle. */
  method LDGenerateRefMapping(n: int) returns (m: map<(int, int), int>)
    ensures forall p :: p in m <==> 1 <= p.1 <= p.0 <= n
    ensures forall p :: p in m ==> m[p] == LD1(p.0, p.1, n)
  {
    m := map[];
    var ij := 1;
    var j := 1;
    while j <= n
      invariant 1 <= j <= (if n < 1 then 1 else n + 1)
      invariant ij == LD1(j, j, n)
      invariant forall p :: p in m <==> 1 <= p.1 < j && p.1 <= p.0 <= n
      invariant forall p :: p in m ==> m[p] == LD1(p.0, p.1, n)
    {
      var i := j;
      while i <= n
        invariant j <= i <= n + 1
        invariant ij == LD1(i, j, n)
        invariant forall p :: p in m <==> (1 <= p.1 < j && p.1 <= p.0 <= n) || (p.1 == j && j <= p.0 < i)
        invariant forall p :: p in m ==> m[p] == LD1(p.0, p.1, n)
      {
        m := m[(i, j) := ij];
        ij := ij + 1;
        i := i + 1;
      }
      JSkip1Step(j, n);
      j := j + 1;
    }
  }

  /** The column the LDdec loop stops at holds the code. */
  lemma LDdecFound(ij: int, jskip: int, j: int, n: int)
    requires 0 <= j < n && jskip == ColumnsBefore(j + 1, n)
    requires (j > 0 ==> jskip <= ij) && ij < jskip + (n - j)
    ensures ij < LDSize(n)
    ensures ij < 0 ==> j == 0 && jskip == 0
    ensures 0 <= ij ==> 0 <= j <= ij - jskip + j < n && LD(ij - jskip + j, j, n) == ij
  {
    JSkip0IsColumnsBefore(j, n);
    ColumnsBeforeMonotone(1, j + 1, n);
    ColumnsBeforeMonotone(j + 2, n + 1, n);
    ColumnsBeforeEnd(n);
  }

  /** LDdec: 0-based linear index back to the 0-based pair (ii >= jj),
      by walking the columns and accumulating their lengths. */
  method LDdec(ij: int, n: int) returns (r: Result<(int, int)>)
    ensures r.Ok? <==> 1 <= n && ij < LDSize(n)
    ensures r.Err? ==> r.error == ValueError
    ensures r.Ok? && ij < 0 ==> r.value == (ij, 0)
    ensures r.Ok? && 0 <= ij ==>
      0 <= r.value.1 <= r.value.0 < n && LD(r.value.0, r.value.1, n) == ij
  {
    var jskip := 0;
    var j := 0;
    while j < n
      invariant 0 <= j <= (if n < 0 then 0 else n)
      invariant jskip == ColumnsBefore(j + 1, n)
      invariant j > 0 ==> jskip <= ij
    {
      if jskip + (n - j) > ij {
        LDdecFound(ij, jskip, j, n);
        return Ok((ij - jskip + j, j));
      }
      jskip := jskip + (n - j);
      j := j + 1;
    }
    if n >= 1 {
      ColumnsBeforeEnd(n);
    }
    return Err(ValueError);
  }

  /** The column the LDdec1 loop stops at holds the code. */
  lemma LDdec1Found(ij: int, jskip: int, j: int, n: int)
    requires 1 <= j <= n && jskip == ColumnsBefore(j, n)
    requires (j > 1 ==> jskip < ij) && ij <= jskip + (n + 1 - j)
    ensures ij <= LDSize(n)
    ensures ij < 1 ==> j == 1 && jskip == 0
    ensures 1 <= ij ==> 1 <= j <= ij - jskip + j - 1 <= n && LD1(ij - jskip + j - 1, j, n) == ij
  {
    JSkip1IsColumnsBefore(j, n);
    ColumnsBeforeMonotone(1, j, n);
    ColumnsBeforeMonotone(j + 1, n + 1, n);
    ColumnsBeforeEnd(n);
  }

  /** LDdec1: 1-based linear index back to the 1-based pair (ii >= jj). */
  method LDdec1(ij: int, n: int) returns (r: Result<(int, int)>)
    ensures r.Ok? <==> 1 <= n && ij <= LDSize(n)
    ensures r.Err? ==> r.error == ValueError
    ensures r.Ok? && ij < 1 ==> r.value == (ij, 1)
    ensures r.Ok? && 1 <= ij ==>
      1 <= r.value.1 <= r.value.0 <= n && LD1(r.value.0, r.value.1, n) == ij
  {
    var jskip := 0;
    var j := 1;
    while j <= n
      invariant 1 <= j <= (if n < 1 then 1 else n + 1)
      invariant jskip == ColumnsBefore(j, n)
      invariant j > 1 ==> jskip < ij
    {
      if jskip + (n + 1 - j) >= ij {
        LDdec1Found(ij, jskip, j, n);
        return Ok((ij - jskip + j - 1, j));
      }
      jskip := jskip + (n + 1 - j);
      j := j + 1;
    }
    if n >= 1 {
      ColumnsBeforeEnd(n);
    }
    return Err(ValueError);
  }

  /** LDdec1_v2: the loop-free decoder.  The column is guessed from the
      square root of twice the number of entries left after ij; the guess
      is the true column or one past it.  A negative square-root argument
      (ij beyond the end) makes numpy's sqrt return nan, and int(nan)
      raises ValueError. */
  function LDdec1V2(ij: int, n: int): Result<(int, int)> {
    var x := (LDSize(n) - ij) * 2;
    if x < 0 then Err(ValueError)
    else
      var j := n + 1 - ISqrt(x);
      var jskip := JSkip1(j, n);
      if ij > jskip then Ok((ij - jskip + j - 1, j))
      else
        var j' := j - 1;
        var jskip' := JSkip1(j', n);
        Ok((ij - jskip' + j' - 1, j'))
  }

  /** With an exact square root, LDdec1_v2 decodes every valid code to a
      triangle pair whose LD1 code it is (the bound j <= j_guess <= j+1
      derived in the module docstring). */
  lemma LDdec1V2Correct(ij: int, n: int)
    requires 1 <= n && 1 <= ij <= LDSize(n)
    ensures LDdec1V2(ij, n).Ok?
    ensures var p := LDdec1V2(ij, n).value;
      1 <= p.1 <= p.0 <= n && LD1(p.0, p.1, n) == ij
  {
    var x := (LDSize(n) - ij) * 2;
    var s := ISqrt(x);
    var j := n + 1 - s;
    // entries left from column j on, and from column j + 1 on
    JSkip1Remaining(j, n);
    JSkip1Remaining(j + 1, n);
    TriDouble(s);
    TriDouble(s - 1);
    assert n + 1 - (j + 1) == s - 1;
    TriDouble(n);
    assert x <= n * (n + 1) - 2;
    SquareBelow(s, n + 1);
    if ij > JSkip1(j, n) {
      // s(s+1) > x, so the code lies inside column j
      assert 2 * (LDSize(n) - JSkip1(j, n)) == s * (s + 1);
      assert j >= 1;
      JSkip1Step(j, n);
      assert 2 * (LDSize(n) - JSkip1(j + 1, n)) == (s - 1) * s;
      assert (s - 1) * s <= s * s;
      assert ij <= JSkip1(j + 1, n);
    } else {
      // the code lies in column j - 1
      JSkip1Step(j - 1, n);
      JSkip1Remaining(j - 1, n);
      TriDouble(s + 1);
      assert 2 * (LDSize(n) - JSkip1(j - 1, n)) == (s + 1) * (s + 2);
      assert x < (s + 1) * (s + 2);
      assert JSkip1(j - 1, n) < ij;
      assert s * s <= x;
      assert 2 * (LDSize(n) - JSkip1(j, n)) == s * (s + 1);
      if j - 1 < 1 {
        assert false;
      }
    }
  }

  /** Hack3_LD_enc_dec: for every pair of the triangle, the loop-free
      decoder and the loop decoder both return the pair that was encoded. */
  method LDEncDecAgree(i: int, j: int, n: int) returns (p: (int, int), q: (int, int))
    requires 1 <= j <= i <= n
    ensures p == (i, j) && q == (i, j)
  {
    var ij := LD1(i, j, n);
    LD1RangeInjective(i, j, i, j, n);
    var r := LDdec1(ij, n);
    p := r.value;
    LD1RangeInjective(i, j, p.0, p.1, n);
    LDdec1V2Correct(ij, n);
    q := LDdec1V2(ij, n).value;
    LD1RangeInjective(i, j, q.0, q.1, n);
  }

  /** test_LD_enc_dec: for every 0-based pair, encoding with LD and decoding
      with LDdec gives the pair back with the larger index first. */
  method LDEncDec(i: int, j: int, n: int) returns (r: Result<(int, int)>)
    requires 0 <= i < n && 0 <= j < n
    ensures r == Ok((if i >= j then i else j, if i >= j then j else i))
  {
    var ij := LD(i, j, n);
    var ii := if i >= j then i else j;
    var jj := if i >= j then j else i;
    LDFromLD1(i, j, n);
    LD1RangeInjective(ii + 1, jj + 1, ii + 1, jj + 1, n);
    assert LD1(ii + 1, jj + 1, n) == LD1(i + 1, j + 1, n);
    r := LDdec(ij, n);
    var p := r.value;
    LDFromLD1(p.0, p.1, n);
    LD1RangeInjective(ii + 1, jj + 1, p.0 + 1, p.1 + 1, n);
  }

  /** LD codes of the triangle 0 <= j <= i < n fill 0 .. n(n+1)/2 - 1. */
  lemma LDRange(i: int, j: int, n: int)
    requires 0 <= j <= i < n
    ensures 0 <= LD(i, j, n) < LDSize(n)
  {
    LDFromLD1(i, j, n);
    LD1RangeInjective(i + 1, j + 1, i + 1, j + 1, n);
  }

  /** The last diagonal entry takes the last code. */
  lemma LDLast(n: int)
    requires n >= 1
    ensures LD(n - 1, n - 1, n) == LDSize(n) - 1
  {
    JSkip0IsColumnsBefore(n - 1, n);
    ColumnsBeforeEnd(n);
  }

  /** copy_over_array: unpacks an LD-packed vector into a full N x N array,
      row by row, filling the lower triangle (row >= column) from the
      packed vector and leaving zeros above the diagonal.  numpy.zeros
      refuses a negative size; reading past the end of the packed vector
      raises IndexError. */
  method CopyOverArray(n: int, arrL: seq<real>) returns (r: Result<array2<real>>)
    ensures n < 0 ==> r == Err(ValueError)
    ensures n >= 0 ==> (r.Ok? <==> |arrL| >= LDSize(n))
    ensures r.Err? ==> r.error in {ValueError, IndexError}
    ensures r.Ok? ==> fresh(r.value) && r.value.Length0 == n && r.value.Length1 == n
    ensures r.Ok? ==> forall i, j :: 0 <= j <= i < n ==>
      0 <= LD(i, j, n) < |arrL| && r.value[i, j] == arrL[LD(i, j, n)]
    ensures r.Ok? ==> forall i, j :: 0 <= i < j < n ==> r.value[i, j] == 0.0
  {
    if n < 0 {
      return Err(ValueError);
    }
    var rslt := new real[n, n]((_, _) => 0.0);
    var i := 0;
    while i < n
      invariant 0 <= i <= n
      invariant forall a, b :: 0 <= b <= a < i ==>
        0 <= LD(a, b, n) < |arrL| && rslt[a, b] == arrL[LD(a, b, n)]
      invariant forall a, b :: 0 <= a < n && 0 <= b < n && (a >= i || b > a) ==> rslt[a, b] == 0.0
    {
      var j := 0;
      while j < n
        invariant 0 <= j <= n
        invariant forall a, b :: 0 <= b <= a < i ==>
          0 <= LD(a, b, n) < |arrL| && rslt[a, b] == arrL[LD(a, b, n)]
        invariant forall b :: 0 <= b < j && b <= i ==>
          0 <= LD(i, b, n) < |arrL| && rslt[i, b] == arrL[LD(i, b, n)]
        invariant forall a, b :: 0 <= a < n && 0 <= b < n && (a > i || b > a || (a == i && b >= j)) ==> rslt[a, b] == 0.0
      {
        if j <= i {
          var ii := i + 1;
          var jj := j + 1;
          var jskip := (jj - 1) * n - (jj - 2) * (jj - 1) / 2;
          var iskip := ii - jj + 1;
          var ldiagIndex := iskip + jskip - 1;
          assert ldiagIndex == LD(i, j, n);
          LDRange(i, j, n);
          if ldiagIndex >= |arrL| {
            return Err(IndexError);
          }
          rslt[i, j] := arrL[ldiagIndex];
        }
        j := j + 1;
      }
      i := i + 1;
    }
    if n >= 1 {
      LDLast(n);
    }
    return Ok(rslt);
  }

  // ---------------------------------------------------------------------
  // UD: upper triangle, column-major

  /** UD as written: the pair is swapped into (ii <= jj), but the column
      offset is computed from the unswapped `j` (line 455). */
  function UD(i: int, j: int, n: int): int {
    var ii := if i <= j then i else j;
    var jj := if i <= j then j else i;
    (ii - jj) + ((j + 1) * (j + 2) / 2 - 1)
  }

  /** UD1 as written: same slip as UD, with `j` for `jj` (line 488). */
  function UD1(i: int, j: int, n: int): int {
    var ii := if i <= j then i else j;
    var jj := if i <= j then j else i;
    (ii - jj) + j * (j + 1) / 2
  }

  /** UD with the swapped column index used for the offset, as the swap
      evidently intends. */
  function UDFixed(i: int, j: int, n: int): (r: int)
    ensures i <= j ==> r == UD(i, j, n)
    ensures j <= i ==> r == UD(j, i, n)
  {
    var ii := if i <= j then i else j;
    var jj := if i <= j then j else i;
    (ii - jj) + ((jj + 1) * (jj + 2) / 2 - 1)
  }

  /** UD1 with the swapped column index used for the offset. */
  function UD1Fixed(i: int, j: int, n: int): (r: int)
    ensures i <= j ==> r == UD1(i, j, n)
    ensures j <= i ==> r == UD1(j, i, n)
  {
    var ii := if i <= j then i else j;
    var jj := if i <= j then j else i;
    (ii - jj) + jj * (jj + 1) / 2
  }

  /** The swap in UD/UD1 is undone by the offset: for a pair below the
      diagonal the code is not the code of the mirrored pair. */
  lemma UDAsWrittenNotSymmetric()
    ensures UD(1, 0, 2) == -1 && UD(0, 1, 2) == 1
    ensures UD1(2, 1, 2) == 0 && UD1(1, 2, 2) == 2
  {
  }

  /** Column j (1-based) of UD holds the codes Tri(j-1) + 1 .. Tri(j). */
  lemma UD1ColumnBounds(i: int, j: int, n: int)
    requires 1 <= i <= j
    ensures Tri(j - 1) < UD1(i, j, n) <= Tri(j)
    ensures UD1(i, j, n) == i - j + Tri(j)
  {
    TriStep(j - 1);
  }

  /** On the triangle 1 <= i <= j <= n, UD1 is one-to-one into 1 .. n(n+1)/2. */
  lemma {:induction false} UD1RangeInjective(i: int, j: int, i': int, j': int, n: int)
    requires 1 <= i <= j <= n && 1 <= i' <= j' <= n
    ensures 1 <= UD1(i, j, n) <= LDSize(n)
    ensures UD1(i, j, n) == UD1(i', j', n) ==> i == i' && j == j'
  {
    UD1ColumnBounds(i, j, n);
    UD1ColumnBounds(i', j', n);
    TriMonotone(j, n);
    TriNonNegative(j - 1);
    if j < j' {
      TriMonotone(j, j' - 1);
    } else if j' < j {
      TriMonotone(j', j - 1);
    }
  }

  /** The 0-based code is the 1-based code of the shifted pair, minus one. */
  lemma UDFromUD1(i: int, j: int, n: int)
    requires i <= j
    ensures UD(i, j, n) == UD1(i + 1, j + 1, n) - 1
  {
  }

  /** UD_generate_ref_mapping: numbers the pairs 1 <= i <= j <= N
      consecutively, column by column.  The result is UD1 on the triangle. */
  method UDGenerateRefMapping(n: int) returns (m: map<(int, int), int>)
    ensures forall p :: p in m <==> 1 <= p.0 <= p.1 <= n
    ensures forall p :: p in m ==> m[p] == UD1(p.0, p.1, n)
  {
    m := map[];
    var ij := 1;
    var j := 1;
    while j <= n
      invariant 1 <= j <= (if n < 1 then 1 else n + 1)
      invariant ij == Tri(j - 1) + 1
      invariant forall p :: p in m <==> 1 <= p.0 <= p.1 < j && p.1 <= n
      invariant forall p :: p in m ==> m[p] == UD1(p.0, p.1, n)
    {
      var i := 1;
      while i <= j
        invariant 1 <= i <= j + 1
        invariant ij == Tri(j - 1) + i
        invariant forall p :: p in m <==> (1 <= p.0 <= p.1 < j && p.1 <= n) || (p.1 == j && 1 <= p.0 < i)
        invariant forall p :: p in m ==> m[p] == UD1(p.0, p.1, n)
      {
        UD1ColumnBounds(i, j, n);
        m := m[(i, j) := ij];
        ij := ij + 1;
        i := i + 1;
      }
      TriStep(j - 1);
      j := j + 1;
    }
  }

  /** UDdec: 0-based code back to the 0-based pair (ii <= jj).  When no
      column fits, the loop falls through and the function returns None. */
  method UDdec(ij: int, n: int) returns (r: Option<(int, int)>)
    ensures r.Some? <==> 1 <= n && ij < Tri(n)
    ensures r.Some? && ij < 0 ==> r.value == (ij, 0)
    ensures r.Some? && 0 <= ij ==>
      0 <= r.value.0 <= r.value.1 < n && UD(r.value.0, r.value.1, n) == ij
  {
    var j := 1;
    while j <= n
      invariant 1 <= j <= (if n < 1 then 1 else n + 1)
      invariant j > 1 ==> Tri(j - 1) <= ij
    {
      var jskip := j * (j + 1) / 2;
      if ij < jskip {
        TriStep(j - 1);
        TriMonotone(j, n);
        return Some((ij - jskip + j, j - 1));
      }
      j := j + 1;
    }
    if n >= 1 {
      assert Tri(n) <= ij;
    }
    return None;
  }

  /** UDdec1: 1-based code back to the 1-based pair (ii <= jj). */
  method UDdec1(ij: int, n: int) returns (r: Result<(int, int)>)
    ensures r.Ok? <==> 1 <= n && ij <= Tri(n)
    ensures r.Err? ==> r.error == ValueError
    ensures r.Ok? && ij < 1 ==> r.value == (ij, 1)
    ensures r.Ok? && 1 <= ij ==>
      1 <= r.value.0 <= r.value.1 <= n && UD1(r.value.0, r.value.1, n) == ij
  {
    var j := 1;
    while j <= n
      invariant 1 <= j <= (if n < 1 then 1 else n + 1)
      invariant j > 1 ==> Tri(j - 1) < ij
    {
      var jskip := j * (j + 1) / 2;
      if ij < jskip + 1 {
        TriStep(j - 1);
        TriMonotone(j, n);
        return Ok((ij - jskip + j, j));
      }
      j := j + 1;
    }
    return Err(ValueError);
  }

  /** UDdec1_v2: column guessed as isqrt(2 ij + 1), corrected by one if the
      code lies past that column's end.  A negative argument raises
      ValueError (int of nan). */
  function UDdec1V2(ij: int, n: int): Result<(int, int)> {
    if ij * 2 + 1 < 0 then Err(ValueError)
    else Ok(UDFromGuess(ij, ISqrt(ij * 2 + 1)))
  }

  /** UDdec1_v3: as v2 with isqrt(2 ij). */
  function UDdec1V3(ij: int, n: int): Result<(int, int)> {
    if ij * 2 < 0 then Err(ValueError)
    else Ok(UDFromGuess(ij, ISqrt(ij * 2)))
  }

  /** The common tail of UDdec1_v2 and UDdec1_v3: the pair in column `j`
      when `ij` lies within it, else the pair in column `j + 1`. */
  function UDFromGuess(ij: int, j: int): (int, int) {
    var jskip := j * (j + 1) / 2;
    if ij < jskip + 1 then (ij - jskip + j, j)
    else
      var j' := j + 1;
      var jskip' := j' * (j' + 1) / 2;
      (ij - jskip' + j', j')
  }

  /** Both loop-free UD decoders give, for a positive code, a pair above the
      diagonal whose UD1 code it is; they need no N. */
  lemma UDdec1SqrtCorrect(ij: int, n: int)
    requires 1 <= ij
    ensures UDdec1V2(ij, n).Ok? && UDdec1V3(ij, n).Ok?
    ensures var p := UDdec1V2(ij, n).value; 1 <= p.0 <= p.1 && UD1(p.0, p.1, n) == ij
    ensures var p := UDdec1V3(ij, n).value; 1 <= p.0 <= p.1 && UD1(p.0, p.1, n) == ij
  {
    UDSqrtGuess(ij, ISqrt(ij * 2 + 1), n);
    UDSqrtGuess(ij, ISqrt(ij * 2), n);
  }

  /** A column guess s with s*s <= 2 ij + 1 and 2 ij < (s+1)^2 is the true
      column or one short of it. */
  lemma UDSqrtGuess(ij: int, s: nat, n: int)
    requires 1 <= ij
    requires s * s <= ij * 2 + 1 && ij * 2 < (s + 1) * (s + 1)
    ensures var p := UDFromGuess(ij, s); 1 <= p.0 <= p.1 && UD1(p.0, p.1, n) == ij
  {
    TriDouble(s);
    TriDouble(s - 1);
    TriDouble(s + 1);
    TriStep(s - 1);
    TriStep(s);
    if s == 0 {
      assert false;
    }
    if ij < Tri(s) + 1 {
      assert (s - 1) * s < s * s - 1 || s == 1;
      assert Tri(s - 1) < ij;
    } else {
      assert (s + 1) * (s + 1) < (s + 1) * (s + 2);
      assert ij <= Tri(s + 1);
    }
  }

  /** test_UD_enc_dec1 and hack1_UD_enc_dec1: for every pair of the upper
      triangle, the loop decoder and both loop-free decoders return the
      encoded pair. */
  method UDEncDecAgree(i: int, j: int, n: int) returns (p: (int, int), q: (int, int), s: (int, int))
    requires 1 <= i <= j <= n
    ensures p == (i, j) && q == (i, j) && s == (i, j)
  {
    var ij := UD1(i, j, n);
    UD1RangeInjective(i, j, i, j, n);
    var r := UDdec1(ij, n);
    p := r.value;
    UD1RangeInjective(i, j, p.0, p.1, n);
    UDdec1SqrtCorrect(ij, n);
    q := UDdec1V2(ij, n).value;
    UD1Unique(q.0, q.1, i, j, n);
    s := UDdec1V3(ij, n).value;
    UD1Unique(s.0, s.1, i, j, n);
  }

  /** Above the diagonal, a UD1 code determines its pair, whatever N is. */
  lemma UD1Unique(i: int, j: int, i': int, j': int, n: int)
    requires 1 <= i <= j && 1 <= i' <= j' && UD1(i, j, n) == UD1(i', j', n)
    ensures i == i' && j == j'
  {
    UD1ColumnBounds(i, j, n);
    UD1ColumnBounds(i', j', n);
    if j < j' {
      TriMonotone(j, j' - 1);
    } else if j' < j {
      TriMonotone(j', j - 1);
    }
  }

  /** test_UD_enc_dec: for every 0-based pair with i <= j, UD then UDdec
      gives the pair back. */
  method UDEncDec(i: int, j: int, n: int) returns (r: Option<(int, int)>)
    requires 0 <= i <= j < n
    ensures r == Some((i, j))
  {
    var ij := UD(i, j, n);
    UDFromUD1(i, j, n);
    UD1RangeInjective(i + 1, j + 1, i + 1, j + 1, n);
    r := UDdec(ij, n);
    var p := r.value;
    UDFromUD1(p.0, p.1, n);
    UD1RangeInjective(i + 1, j + 1, p.0 + 1, p.1 + 1, n);
  }

  /** With the corrected encoder the round trip holds for every pair in
      either order, returning (min, max). */
  method UDFixedEncDec(i: int, j: int, n: int) returns (r: Option<(int, int)>)
    requires 0 <= i < n && 0 <= j < n
    ensures r == Some((if i <= j then i else j, if i <= j then j else i))
  {
    var lo := if i <= j then i else j;
    var hi := if i <= j then j else i;
    assert UDFixed(i, j, n) == UD(lo, hi, n);
    r := UDEncDec(lo, hi, n);
  }

  // ---------------------------------------------------------------------
  // LDC: lower triangle, row-major (C order)

  /** The direct formula of the LDC layout: rows before i hold Tri(i)
      entries, then j more. */
  function LDCIndex(i: int, j: int): int { i * (i + 1) / 2 + j }

  /** LDC_generate_ref_mapping: numbers the 0-based pairs 0 <= j <= i < N
      consecutively, row by row, from 0; the numbering is the direct
      formula. */
  method LDCGenerateRefMapping(n: int) returns (m: map<(int, int), int>)
    ensures forall p :: p in m <==> 0 <= p.1 <= p.0 < n
    ensures forall p :: p in m ==> m[p] == LDCIndex(p.0, p.1)
  {
    m := map[];
    var ij := 0;
    var i := 0;
    while i < n
      invariant 0 <= i <= (if n < 0 then 0 else n)
      invariant ij == Tri(i)
      invariant forall p :: p in m <==> 0 <= p.1 <= p.0 < i
      invariant forall p :: p in m ==> m[p] == LDCIndex(p.0, p.1)
    {
      var j := 0;
      while j < i + 1
        invariant 0 <= j <= i + 1
        invariant ij == Tri(i) + j
        invariant forall p :: p in m <==> 0 <= p.1 <= p.0 < i || (p.0 == i && 0 <= p.1 < j)
        invariant forall p :: p in m ==> m[p] == LDCIndex(p.0, p.1)
      {
        m := m[(i, j) := ij];
        ij := ij + 1;
        j := j + 1;
      }
      TriStep(i);
      i := i + 1;
    }
  }

  /** The LDC numbering is one-to-one on the triangle and fills
      0 .. N(N+1)/2 - 1. */
  lemma {:induction false} LDCRangeInjective(i: int, j: int, i': int, j': int, n: int)
    requires 0 <= j <= i < n && 0 <= j' <= i' < n
    ensures 0 <= LDCIndex(i, j) < LDSize(n)
    ensures LDCIndex(i, j) == LDCIndex(i', j') ==> i == i' && j == j'
  {
    TriStep(i);
    TriMonotone(i + 1, n);
    TriNonNegative(i);
    if i < i' {
      TriStep(i);
      TriMonotone(i + 1, i');
    } else if i' < i {
      TriStep(i');
      TriMonotone(i' + 1, i);
    }
  }
}
