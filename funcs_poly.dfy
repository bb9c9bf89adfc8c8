/** The index logic of the polynomial fit ansatz: how many coefficients a
    polynomial of a given kind has, which coefficient each term reads, and
    how the order-2 cross-term polynomial packs its coefficients into a
    symmetric matrix. */
module FuncsPoly {
  import opened Wrappers
  import opened SymmetricIndex

  /** The polynomial classes: no cross terms of order 2, 3 and 4, the
      squares only (declared with order 1), and order 2 with all cross
      terms. */
  datatype Kind = Order2 | Order2Only | Order3 | Order4 | Order2xOnly

  /** The class attribute `order`. */
  function Order(kind: Kind): nat {
    match kind
    case Order2 => 2
    case Order2Only => 1
    case Order3 => 3
    case Order4 => 4
    case Order2xOnly => 2
  }

  /** A constructed polynomial: its class, `dim`, and the `guess` attribute
      when one was made. */
  datatype Poly = Poly(kind: Kind, dim: int, guess: Option<seq<real>>)

  /** `NParams`: one constant plus `order` coefficients per dimension, or,
      with all cross terms, one plus one per unordered pair of dimensions
      (the diagonal included). */
  function NParams(kind: Kind, dim: int): int {
    if kind == Order2xOnly then 1 + dim * (dim + 1) / 2 else 1 + Order(kind) * dim
  }

  /** How `__init__` takes `dim`: the length of `xdata` when given, else
      `ndim`, else ValueError. */
  function Dim(xdata: Option<seq<real>>, ndim: Option<int>): (r: Result<int>)
    ensures xdata.Some? ==> r == Ok(|xdata.value|)
    ensures xdata.None? && ndim.Some? ==> r == Ok(ndim.value)
    ensures xdata.None? && ndim.None? ==> r == Err(ValueError)
  {
    if xdata.Some? then Ok(|xdata.value|)
    else if ndim.Some? then Ok(ndim.value)
    else Err(ValueError)
  }

  /** `[x] * n` for Python's list repetition: empty for `n <= 0`. */
  function Repeat(x: real, n: int): (r: seq<real>)
    ensures |r| == if n > 0 then n else 0
    ensures forall k :: 0 <= k < |r| ==> r[k] == x
  {
    seq(if n > 0 then n else 0, _ => x)
  }

  /** `__init__` as written: the module never imports numpy, so a
      non-empty `ydata` raises NameError at `numpy.mean`. */
  function InitAsWritten(kind: Kind, xdata: Option<seq<real>>, ydata: seq<real>, ndim: Option<int>): (r: Result<Poly>)
    ensures Dim(xdata, ndim).Err? ==> r == Err(ValueError)
    ensures Dim(xdata, ndim).Ok? && |ydata| > 0 ==> r == Err(NameError)
    ensures Dim(xdata, ndim).Ok? && |ydata| == 0 ==> r == Ok(Poly(kind, Dim(xdata, ndim).value, None))
  {
    var dim :- Dim(xdata, ndim);
    if |ydata| > 0 then Err(NameError) else Ok(Poly(kind, dim, None))
  }

  /** `Guess` as written: NameError for the missing numpy import. */
  function GuessAsWritten(p: Poly, ydata: seq<real>): (r: Result<seq<real>>)
    ensures r == Err(NameError)
  {
    Err(NameError)
  }

  /** A guess is never produced by the code as written. */
  lemma NoGuessAsWritten(kind: Kind, xdata: Option<seq<real>>, ydata: seq<real>, ndim: Option<int>)
    ensures InitAsWritten(kind, xdata, ydata, ndim).Ok? ==> InitAsWritten(kind, xdata, ydata, ndim).value.guess.None?
    ensures InitAsWritten(kind, xdata, ydata, ndim).Err? <==> Dim(xdata, ndim).Err? || |ydata| > 0
  {
  }

  /** `Guess` with numpy available: the mean of `ydata` (computed by numpy
      and passed in as `mean`) for the constant, zero for the rest; one
      entry per parameter. */
  function Guess(p: Poly, mean: real): (r: seq<real>)
    ensures NParams(p.kind, p.dim) >= 1 ==> |r| == NParams(p.kind, p.dim)
    ensures |r| >= 1 && r[0] == mean
    ensures forall k :: 1 <= k < |r| ==> r[k] == 0.0
  {
    [mean] + Repeat(0.0, NParams(p.kind, p.dim) - 1)
  }

  /** The guess line 40 would build once numpy is imported: it counts
      `order * dim` further entries, which is not `NParams - 1` for the
      cross-term polynomial. */
  function InitGuessAsWritten(p: Poly, mean: real): (r: seq<real>)
    ensures |r| == 1 + (if Order(p.kind) * p.dim > 0 then Order(p.kind) * p.dim else 0)
  {
    [mean] + Repeat(0.0, Order(p.kind) * p.dim)
  }

  lemma InitGuessMismatch()
    ensures |InitGuessAsWritten(Poly(Order2xOnly, 1, None), 0.0)| == 3
    ensures NParams(Order2xOnly, 1) == 2
  {
  }

  /** The other kinds agree: without cross terms, the guess of line 40 has
      `NParams` entries. */
  lemma InitGuessAgrees(p: Poly, mean: real)
    requires p.kind != Order2xOnly && p.dim >= 0
    ensures InitGuessAsWritten(p, mean) == Guess(p, mean)
  {
  }

  /** `__init__` with numpy available and the guess made by `Guess`. */
  function Init(kind: Kind, xdata: Option<seq<real>>, ydata: seq<real>, ndim: Option<int>, mean: real): (r: Result<Poly>)
    ensures r.Err? <==> Dim(xdata, ndim).Err?
    ensures r.Err? ==> r.error == ValueError
    ensures r.Ok? ==> r.value.kind == kind && r.value.dim == Dim(xdata, ndim).value
    ensures r.Ok? ==> (r.value.guess.Some? <==> |ydata| > 0)
    ensures r.Ok? && r.value.guess.Some? && r.value.dim >= 0 ==>
      |r.value.guess.value| == NParams(kind, r.value.dim) && r.value.guess.value[0] == mean
  {
    var dim :- Dim(xdata, ndim);
    var p := Poly(kind, dim, None);
    assert dim >= 0 ==> NParams(kind, dim) >= 1 by {
      if dim >= 0 && kind == Order2xOnly {
        TriNonNegative(dim);
      }
    }
    if |ydata| > 0 then Ok(p.(guess := Some(Guess(p, mean)))) else Ok(p)
  }

  /** The coefficient indices `__call__` reads, in reading order, for the
      kinds without cross terms: the constant, then for each dimension `i`
      the powers `1..order` at `i * order + power`. */
  function CallIndices(order: nat, dim: nat): (r: seq<int>)
  {
    if dim == 0 then [0]
    else CallIndices(order, dim - 1) + seq(order, p => (dim - 1) * order + p + 1)
  }

  function Range(n: nat): (r: seq<int>)
    ensures |r| == n && forall k :: 0 <= k < n ==> r[k] == k
  {
    seq(n, k => k)
  }

  /** Each coefficient `0 .. order * dim` is read exactly once, in order. */
  lemma {:induction false} CallIndicesAreRange(order: nat, dim: nat)
    ensures CallIndices(order, dim) == Range(1 + order * dim)
  {
    if dim > 0 {
      CallIndicesAreRange(order, dim - 1);
      assert order * dim == order * (dim - 1) + order;
      var last := seq(order, p => (dim - 1) * order + p + 1);
      assert forall p :: 0 <= p < order ==> last[p] == 1 + order * (dim - 1) + p;
    }
  }

  /** So every kind without cross terms reads exactly `NParams`
      coefficients, the squares-only kind included. */
  lemma CallIndicesMatchNParams(kind: Kind, dim: nat)
    requires kind != Order2xOnly
    ensures CallIndices(Order(kind), dim) == Range(NParams(kind, dim))
  {
    CallIndicesAreRange(Order(kind), dim);
  }

  /** The coefficient index where row `r` of the strict upper triangle
      starts: after the constant and the `n` diagonal entries, each row
      `q < r` holding `n - 1 - q` entries. */
  function RowStart(r: nat, n: nat): int {
    if r == 0 then n + 1 else RowStart(r - 1, n) + (n - r)
  }

  /** The coefficient of the off-diagonal position `(r, c)`, `r < c`. */
  function UpperIndex(r: nat, c: nat, n: nat): int
    requires r < c < n
  {
    RowStart(r, n) + (c - r - 1)
  }

  lemma {:induction false} RowStartTotal(r: nat, n: nat)
    requires r < n
    ensures RowStart(r, n) + Tri(n - 1 - r) == 1 + Tri(n)
  {
    if r == 0 {
      TriStep(n - 1);
    } else {
      RowStartTotal(r - 1, n);
      TriStep(n - 1 - r);
    }
  }

  lemma {:induction false} RowStartMonotone(a: nat, b: nat, n: nat)
    requires a <= b < n
    ensures n + 1 <= RowStart(a, n) <= RowStart(b, n)
    decreases b
  {
    if a < b {
      RowStartMonotone(a, b - 1, n);
    } else if a > 0 {
      RowStartMonotone(a - 1, a - 1, n);
    }
  }

  /** Off-diagonal positions get the indices `n+1 .. NParams-1`. */
  lemma UpperIndexRange(r: nat, c: nat, n: nat)
    requires r < c < n
    ensures n + 1 <= UpperIndex(r, c, n) < NParams(Order2xOnly, n)
  {
    RowStartMonotone(r, r + 1, n);
    RowStartMonotone(r + 1, n - 1, n);
    RowStartTotal(n - 1, n);
  }

  /** Distinct positions get distinct indices. */
  lemma UpperIndexInjective(r: nat, c: nat, r': nat, c': nat, n: nat)
    requires r < c < n && r' < c' < n
    requires UpperIndex(r, c, n) == UpperIndex(r', c', n)
    ensures r == r' && c == c'
  {
    if r < r' {
      RowStartMonotone(r + 1, r', n);
      assert false;
    } else if r' < r {
      RowStartMonotone(r' + 1, r, n);
      assert false;
    }
  }

  /** Every index `n+1 .. NParams-1` fills some off-diagonal position. */
  lemma UpperIndexOnto(m: int, n: nat)
    requires n + 1 <= m < NParams(Order2xOnly, n)
    ensures exists r: nat, c: nat :: r < c < n && UpperIndex(r, c, n) == m
  {
    if n < 2 {
      assert false;
    }
    RowStartTotal(n - 1, n);
    FindRow(m, n, 0);
  }

  lemma {:induction false} FindRow(m: int, n: nat, r: nat)
    requires r < n && RowStart(r, n) <= m < RowStart(n - 1, n)
    ensures exists r': nat, c: nat :: r' < c < n && UpperIndex(r', c, n) == m
    decreases n - r
  {
    if m < RowStart(r + 1, n) {
      var c := r + 1 + (m - RowStart(r, n));
      assert UpperIndex(r, c, n) == m;
    } else {
      if r + 1 == n - 1 {
        assert false;
      }
      FindRow(m, n, r + 1);
    }
  }

  /** The 4 x 4 layout drawn next to the packing loop. */
  lemma Layout4()
    ensures UpperIndex(0, 1, 4) == 5 && UpperIndex(0, 2, 4) == 6 && UpperIndex(0, 3, 4) == 7
    ensures UpperIndex(1, 2, 4) == 8 && UpperIndex(1, 3, 4) == 9 && UpperIndex(2, 3, 4) == 10
    ensures NParams(Order2xOnly, 4) == 11
  {
  }

  /** `Poly_order2x_only.__call__`'s packing of the coefficients into the
      symmetric matrix `Cmat`: the diagonal from `C[1..ndim]`, then the
      rows of the strict upper triangle from consecutive coefficients,
      mirrored below the diagonal.  `used` is the running index at the
      end. */
  method PackCmat(C: seq<real>, ndim: nat) returns (Cmat: array2<real>, used: int)
    requires |C| >= NParams(Order2xOnly, ndim)
    ensures fresh(Cmat) && Cmat.Length0 == ndim && Cmat.Length1 == ndim
    ensures forall i :: 0 <= i < ndim ==> Cmat[i, i] == C[1 + i]
    ensures forall r, c :: 0 <= r < c < ndim ==> 0 <= UpperIndex(r, c, ndim) < |C|
    ensures forall r, c :: 0 <= r < c < ndim ==>
      Cmat[r, c] == C[UpperIndex(r, c, ndim)] && Cmat[c, r] == C[UpperIndex(r, c, ndim)]
    ensures used == NParams(Order2xOnly, ndim)
  {
    TriNonNegative(ndim);
    Cmat := new real[ndim, ndim]((i, k) => if i == k && 0 <= i < ndim then C[1 + i] else 0.0);
    var j := ndim + 1;
    var r := 0;
    while r < ndim - 1
      invariant 0 <= r <= (if ndim > 0 then ndim - 1 else 0)
      invariant j == RowStart(r, ndim)
      invariant Packed(Cmat, C, r)
    {
      PackRow(Cmat, C, r, j);
      j := j + ndim - 1 - r;
      r := r + 1;
    }
    if ndim > 0 {
      RowStartTotal(ndim - 1, ndim);
    }
    used := j;
  }

  /** The matrix holds the diagonal and the rows above `rows` of the strict
      upper triangle, mirrored below the diagonal. */
  predicate Packed(Cmat: array2<real>, C: seq<real>, rows: nat)
    reads Cmat
  {
    var n := Cmat.Length0;
    Cmat.Length1 == n
    && (forall i :: 0 <= i < n ==> 1 + i < |C| && Cmat[i, i] == C[1 + i])
    && (forall q, c :: 0 <= q < rows && q < c < n ==>
          0 <= UpperIndex(q, c, n) < |C|
          && Cmat[q, c] == C[UpperIndex(q, c, n)] && Cmat[c, q] == C[UpperIndex(q, c, n)])
  }

  /** The body of the packing loop: row `r`, which starts at coefficient
      `j`, is filled and mirrored, and the rows before it are kept. */
  method PackRow(Cmat: array2<real>, C: seq<real>, r: nat, j: int)
    requires Packed(Cmat, C, r) && r + 1 < Cmat.Length0
    requires |C| >= NParams(Order2xOnly, Cmat.Length0) && j == RowStart(r, Cmat.Length0)
    modifies Cmat
    ensures Packed(Cmat, C, r + 1)
  {
    var n := Cmat.Length0;
    RowStartMonotone(r + 1, n - 1, n);
    RowStartTotal(n - 1, n);
    TriNonNegative(0);
    label Before:
    FillRow(Cmat, C, r, j);
    forall q, c | 0 <= q < r + 1 && q < c < n
      ensures 0 <= UpperIndex(q, c, n) < |C|
      ensures Cmat[q, c] == C[UpperIndex(q, c, n)] && Cmat[c, q] == C[UpperIndex(q, c, n)]
    {
      UpperIndexRange(q, c, n);
      if q < r {
        assert Cmat[q, c] == old@Before(Cmat[q, c]) && Cmat[c, q] == old@Before(Cmat[c, q]);
      }
    }
  }

  /** One pass of the packing loop: row `r` right of the diagonal and
      column `r` below it take `C[j ..]`; nothing else changes. */
  method FillRow(Cmat: array2<real>, C: seq<real>, r: nat, j: int)
    requires Cmat.Length0 == Cmat.Length1 && r < Cmat.Length0
    requires 0 <= j && j + Cmat.Length0 - 1 - r <= |C|
    modifies Cmat
    ensures forall c :: r < c < Cmat.Length0 ==> Cmat[r, c] == C[j + c - r - 1] && Cmat[c, r] == C[j + c - r - 1]
    ensures forall q, c :: 0 <= q < Cmat.Length0 && 0 <= c < Cmat.Length0 && !(q == r && r < c) && !(c == r && r < q) ==>
      Cmat[q, c] == old(Cmat[q, c])
  {
    var n := Cmat.Length0;
    forall c | r + 1 <= c < n {
      Cmat[r, c] := C[j + c - r - 1];
    }
    forall c | r + 1 <= c < n {
      Cmat[c, r] := C[j + c - r - 1];
    }
  }
}
