/** The data handling of `spline_2d` (the (x, y) pairs stored sorted by x)
    and `spline_2d_piecewise` (pieces with their x ranges, and the choice
    of the first piece whose range holds a coordinate). */
module Spline2d {
  import opened Wrappers

  datatype Point = Point(x: real, y: real)

  /** The order of `sort(order=['x'])` on the structured array: by `x`,
      ties broken by the remaining field `y`. */
  predicate Before(a: Point, b: Point) {
    a.x < b.x || (a.x == b.x && a.y <= b.y)
  }

  predicate Sorted(s: seq<Point>) {
    forall i, j :: 0 <= i < j < |s| ==> Before(s[i], s[j])
  }

  /** `zip(x, y)`: as many pairs as the shorter input has elements. */
  function Zip(x: seq<real>, y: seq<real>): (r: seq<Point>)
    ensures |r| == if |x| <= |y| then |x| else |y|
    ensures forall k :: 0 <= k < |r| ==> r[k] == Point(x[k], y[k])
  {
    var n := if |x| <= |y| then |x| else |y|;
    seq(n, k requires 0 <= k < n => Point(x[k], y[k]))
  }

  function Insert(p: Point, s: seq<Point>): (r: seq<Point>)
    requires Sorted(s)
    ensures Sorted(r)
    ensures multiset(r) == multiset(s) + multiset{p}
  {
    if |s| == 0 then [p]
    else if Before(p, s[0]) then
      InsertFront(p, s);
      [p] + s
    else
      SortedTail(s);
      var rest := Insert(p, s[1..]);
      InsertBehind(p, s, rest);
      [s[0]] + rest
  }

  lemma InsertFront(p: Point, s: seq<Point>)
    requires Sorted(s) && |s| > 0 && Before(p, s[0])
    ensures Sorted([p] + s)
  {
    forall i, j | 0 <= i < j < |s| + 1
      ensures Before(([p] + s)[i], ([p] + s)[j])
    {
      if i == 0 {
        assert j - 1 == 0 || Before(s[0], s[j - 1]);
      }
    }
  }

  lemma InsertBehind(p: Point, s: seq<Point>, rest: seq<Point>)
    requires Sorted(s) && |s| > 0 && !Before(p, s[0])
    requires Sorted(rest) && multiset(rest) == multiset(s[1..]) + multiset{p}
    ensures Sorted([s[0]] + rest)
    ensures multiset([s[0]] + rest) == multiset(s) + multiset{p}
  {
    assert s == [s[0]] + s[1..];
    forall j | 0 <= j < |rest|
      ensures Before(s[0], rest[j])
    {
      assert rest[j] in multiset(rest);
      if rest[j] != p {
        assert rest[j] in s[1..];
      }
    }
  }

  /** The sorted copy of the data. */
  function SortPoints(s: seq<Point>): (r: seq<Point>)
    ensures Sorted(r)
    ensures multiset(r) == multiset(s)
    ensures |r| == |s|
  {
    if |s| == 0 then []
    else
      assert s == [s[0]] + s[1..];
      Insert(s[0], SortPoints(s[1..]))
  }

  /** The order is total on points, so a sorted arrangement of given pairs
      is unique: whichever way the library sorts, it gives `SortPoints`. */
  lemma {:induction false} SortedUnique(a: seq<Point>, b: seq<Point>)
    requires Sorted(a) && Sorted(b) && multiset(a) == multiset(b)
    ensures a == b
    decreases |a|
  {
    assert |a| == |multiset(a)| == |multiset(b)| == |b|;
    if |a| > 0 {
      SortedHeads(a, b);
      PointsTail(a);
      PointsTail(b);
      SortedTail(a);
      SortedTail(b);
      SortedUnique(a[1..], b[1..]);
      assert a == [a[0]] + a[1..] && b == [b[0]] + b[1..];
    }
  }

  /** Two sorted arrangements of the same points start alike. */
  lemma SortedHeads(a: seq<Point>, b: seq<Point>)
    requires Sorted(a) && Sorted(b) && multiset(a) == multiset(b) && |a| > 0
    ensures |b| > 0 && a[0] == b[0]
  {
    assert a[0] in multiset(b);
    assert b[0] in multiset(a);
    var j :| 0 <= j < |b| && b[j] == a[0];
    var i :| 0 <= i < |a| && a[i] == b[0];
    assert i == 0 || Before(a[0], a[i]);
    assert j == 0 || Before(b[0], b[j]);
  }

  lemma SortedTail(a: seq<Point>)
    requires Sorted(a) && |a| > 0
    ensures Sorted(a[1..])
  {
    forall i, j | 0 <= i < j < |a| - 1
      ensures Before(a[1..][i], a[1..][j])
    {
      assert a[1..][i] == a[i + 1] && a[1..][j] == a[j + 1];
    }
  }

  lemma PointsTail(a: seq<Point>)
    requires |a| > 0
    ensures multiset(a[1..]) == multiset(a) - multiset{a[0]}
  {
    assert a == [a[0]] + a[1..];
  }

  function Xs(s: seq<Point>): (r: seq<real>)
    ensures |r| == |s| && forall k :: 0 <= k < |s| ==> r[k] == s[k].x
  {
    seq(|s|, k requires 0 <= k < |s| => s[k].x)
  }

  function Ys(s: seq<Point>): (r: seq<real>)
    ensures |r| == |s| && forall k :: 0 <= k < |s| ==> r[k] == s[k].y
  {
    seq(|s|, k requires 0 <= k < |s| => s[k].y)
  }

  /** The stored data holds each input pair once per occurrence, kept
      together, and its x column ascends. */
  lemma SortedData(x: seq<real>, y: seq<real>)
    ensures multiset(SortPoints(Zip(x, y))) == multiset(Zip(x, y))
    ensures forall i, j :: 0 <= i < j < |Zip(x, y)| ==> Xs(SortPoints(Zip(x, y)))[i] <= Xs(SortPoints(Zip(x, y)))[j]
    ensures forall p :: p in SortPoints(Zip(x, y)) <==> exists k :: 0 <= k < |x| && k < |y| && p == Point(x[k], y[k])
  {
    var z := Zip(x, y);
    var d := SortPoints(z);
    assert |d| == |z| by {
      assert |multiset(d)| == |multiset(z)|;
    }
    forall p
      ensures p in d <==> exists k :: 0 <= k < |x| && k < |y| && p == Point(x[k], y[k])
    {
      assert p in d <==> p in multiset(z);
      if p in z {
        var k :| 0 <= k < |z| && z[k] == p;
        assert p == Point(x[k], y[k]);
      }
    }
  }

  /** `numpy.min(x)`; empty input raises ValueError. */
  function Min(x: seq<real>): (m: real)
    requires |x| > 0
    ensures m in x && forall k :: 0 <= k < |x| ==> m <= x[k]
  {
    if |x| == 1 then x[0]
    else
      var rest := Min(x[1..]);
      assert forall k :: 1 <= k < |x| ==> x[k] == x[1..][k - 1];
      if x[0] <= rest then x[0] else rest
  }

  /** `numpy.max(x)`; empty input raises ValueError. */
  function Max(x: seq<real>): (m: real)
    requires |x| > 0
    ensures m in x && forall k :: 0 <= k < |x| ==> x[k] <= m
  {
    if |x| == 1 then x[0]
    else
      var rest := Max(x[1..]);
      assert forall k :: 1 <= k < |x| ==> x[k] == x[1..][k - 1];
      if x[0] >= rest then x[0] else rest
  }

  /** When no x value is dropped by `zip`, a piece's range is that of its
      stored data: its first and last x. */
  lemma RangeOfData(x: seq<real>, y: seq<real>)
    requires 0 < |x| <= |y|
    ensures |SortPoints(Zip(x, y))| == |x|
    ensures SortPoints(Zip(x, y))[0].x == Min(x)
    ensures SortPoints(Zip(x, y))[|x| - 1].x == Max(x)
  {
    var d := SortPoints(Zip(x, y));
    assert |d| == |x| by {
      assert |multiset(d)| == |multiset(Zip(x, y))|;
    }
    DataFirst(x, y, d);
    DataLast(x, y, d);
  }

  lemma DataFirst(x: seq<real>, y: seq<real>, d: seq<Point>)
    requires 0 < |x| <= |y| && |d| == |x|
    requires Sorted(d) && multiset(d) == multiset(Zip(x, y))
    ensures d[0].x == Min(x)
  {
    var z := Zip(x, y);
    var a :| 0 <= a < |x| && x[a] == Min(x);
    assert d[0] in multiset(z) && z[a] in multiset(d);
    SortedEnds(d, z[a]);
    var k :| 0 <= k < |z| && z[k] == d[0];
  }

  lemma DataLast(x: seq<real>, y: seq<real>, d: seq<Point>)
    requires 0 < |x| <= |y| && |d| == |x|
    requires Sorted(d) && multiset(d) == multiset(Zip(x, y))
    ensures d[|x| - 1].x == Max(x)
  {
    var z := Zip(x, y);
    var b :| 0 <= b < |x| && x[b] == Max(x);
    assert d[|x| - 1] in multiset(z) && z[b] in multiset(d);
    SortedEnds(d, z[b]);
    var k :| 0 <= k < |z| && z[k] == d[|x| - 1];
  }

  /** In sorted data the first x is the least and the last the greatest. */
  lemma SortedEnds(d: seq<Point>, p: Point)
    requires Sorted(d) && p in d
    ensures d[0].x <= p.x <= d[|d| - 1].x
  {
    var i :| 0 <= i < |d| && d[i] == p;
    assert i == 0 || Before(d[0], d[i]);
    assert i == |d| - 1 || Before(d[i], d[|d| - 1]);
  }

  /** A `spline_2d` object: its sorted data, the x and y columns, whether
      spline parameters are cached, and the `xmin`/`xmax` attributes that
      `spline_2d_piecewise` attaches to it. */
  class Spline2d {
    var data: seq<Point>
    var xs: seq<real>
    var ys: seq<real>
    var hasParams: bool
    var xmin: real
    var xmax: real

    constructor (x: seq<real>, y: seq<real>)
      ensures data == SortPoints(Zip(x, y)) && xs == Xs(data) && ys == Ys(data)
      ensures !hasParams
    {
      new;
      Init(x, y);
    }

    /** `init(x, y)`: store the pairs sorted and drop the cached spline
        parameters. */
    method Init(x: seq<real>, y: seq<real>)
      modifies this
      ensures data == SortPoints(Zip(x, y)) && xs == Xs(data) && ys == Ys(data)
      ensures !hasParams
      ensures xmin == old(xmin) && xmax == old(xmax)
    {
      data := SortPoints(Zip(x, y));
      xs := Xs(data);
      ys := Ys(data);
      hasParams := false;
    }
  }

  /** `piece` stores the pairs of dataset `ds`, sorted; by `SortedUnique`
      its data is then `SortPoints(Zip(ds.0, ds.1))`. */
  predicate Stores(piece: Spline2d, ds: (seq<real>, seq<real>))
    reads piece
  {
    Sorted(piece.data) && multiset(piece.data) == multiset(Zip(ds.0, ds.1))
  }

  /** Whatever sort the library runs, stored data equals `SortPoints`. */
  lemma StoredIsSortPoints(d: seq<Point>, x: seq<real>, y: seq<real>)
    requires Sorted(d) && multiset(d) == multiset(Zip(x, y))
    ensures d == SortPoints(Zip(x, y))
  {
    SortedUnique(d, SortPoints(Zip(x, y)));
  }

  /** `piece` spans the x values of dataset `ds`. */
  predicate Spans(piece: Spline2d, ds: (seq<real>, seq<real>))
    reads piece
  {
    |ds.0| > 0 && piece.xmin == Min(ds.0) && piece.xmax == Max(ds.0)
  }

  /** `piece` is the one built for dataset `ds`. */
  predicate Holds(piece: Spline2d, ds: (seq<real>, seq<real>))
    reads piece
  {
    Stores(piece, ds) && Spans(piece, ds)
  }

  /** The body of the construction loop: a `spline_2d` for one dataset,
      with its x range attached. */
  method NewPiece(dset: (seq<real>, seq<real>)) returns (piece: Spline2d)
    requires |dset.0| > 0
    ensures fresh(piece) && Holds(piece, dset)
  {
    var x := dset.0;
    var y := dset.1;
    var xlo := Min(x);
    var xhi := Max(x);
    piece := new Spline2d(x, y);
    piece.xmin := xlo;
    piece.xmax := xhi;
  }

  /** The loop of `spline_2d_piecewise.init`: one piece per dataset, in
      order, up to the first dataset without x values, where `numpy.min`
      raises. */
  method BuildPieces(datasets: seq<(seq<real>, seq<real>)>) returns (built: seq<Spline2d>)
    ensures |built| <= |datasets|
    ensures forall k :: 0 <= k < |built| ==> |datasets[k].0| > 0
    ensures |built| < |datasets| ==> |datasets[|built|].0| == 0
    ensures forall k :: 0 <= k < |built| ==> fresh(built[k])
    ensures forall k :: 0 <= k < |built| ==> Holds(built[k], datasets[k])
  {
    built := [];
    var i := 0;
    while i < |datasets| && |datasets[i].0| > 0
      invariant 0 <= i <= |datasets| && |built| == i
      invariant forall k :: 0 <= k < i ==> fresh(built[k]) && Holds(built[k], datasets[k])
    {
      var piece := NewPiece(datasets[i]);
      built := built + [piece];
      i := i + 1;
    }
  }

  /** A `spline_2d_piecewise` object: its list of pieces. */
  class Spline2dPiecewise {
    var pieces: seq<Spline2d>

    /** `__init__` calls `init`, whose ValueError escapes: an object exists
        only when every dataset has x values, and it then has one piece per
        dataset.  `Create` models the raising call. */
    constructor (datasets: seq<(seq<real>, seq<real>)>)
      requires forall k :: 0 <= k < |datasets| ==> |datasets[k].0| > 0
      ensures |pieces| == |datasets|
      ensures forall k :: 0 <= k < |pieces| ==> fresh(pieces[k])
      ensures forall k :: 0 <= k < |pieces| ==> Stores(pieces[k], datasets[k]) && Spans(pieces[k], datasets[k])
    {
      new;
      var _ := Init(datasets);
    }

    /** `init(*datasets)`: one piece per dataset, in order; an empty x
        array makes `numpy.min` raise, leaving the pieces built before it. */
    method Init(datasets: seq<(seq<real>, seq<real>)>) returns (err: Option<Error>)
      modifies this
      ensures |pieces| <= |datasets|
      ensures forall k :: 0 <= k < |pieces| ==> |datasets[k].0| > 0
      ensures |pieces| < |datasets| ==> |datasets[|pieces|].0| == 0
      ensures err.None? <==> |pieces| == |datasets|
      ensures err.Some? ==> err.value == ValueError
      ensures forall k :: 0 <= k < |pieces| ==> fresh(pieces[k])
      ensures forall k :: 0 <= k < |pieces| ==> Stores(pieces[k], datasets[k])
      ensures forall k :: 0 <= k < |pieces| ==> Spans(pieces[k], datasets[k])
    {
      pieces := BuildPieces(datasets);
      err := if |pieces| < |datasets| then Some(ValueError) else None;
    }

    /** `in_range(piece, x)`: both ends included. */
    predicate InRange(piece: Spline2d, x: real)
      reads piece
    {
      piece.xmin <= x && x <= piece.xmax
    }

    /** `get_piece(x)`: the first piece, in construction order, whose range
        holds `x`; ValueError when there is none. */
    method GetPiece(x: real) returns (r: Result<Spline2d>)
      ensures r.Err? <==> forall k :: 0 <= k < |pieces| ==> !InRange(pieces[k], x)
      ensures r.Err? ==> r.error == ValueError
      ensures r.Ok? ==> exists i :: (0 <= i < |pieces| && pieces[i] == r.value && InRange(pieces[i], x)
        && forall k :: 0 <= k < i ==> !InRange(pieces[k], x))
    {
      var i := 0;
      while i < |pieces|
        invariant 0 <= i <= |pieces|
        invariant forall k :: 0 <= k < i ==> !InRange(pieces[k], x)
      {
        if InRange(pieces[i], x) {
          return Ok(pieces[i]);
        }
        i := i + 1;
      }
      return Err(ValueError);
    }
  }

  /** `spline_2d_piecewise(*datasets)`: the new object, or the ValueError
      `numpy.min` raises for the first dataset without x values. */
  method Create(datasets: seq<(seq<real>, seq<real>)>) returns (r: Result<Spline2dPiecewise>)
    ensures r.Err? <==> exists k :: 0 <= k < |datasets| && |datasets[k].0| == 0
    ensures r.Err? ==> r.error == ValueError
    ensures r.Ok? ==> fresh(r.value) && |r.value.pieces| == |datasets|
    ensures r.Ok? ==> forall k :: 0 <= k < |datasets| ==> Holds(r.value.pieces[k], datasets[k])
  {
    var i := 0;
    while i < |datasets|
      invariant 0 <= i <= |datasets|
      invariant forall k :: 0 <= k < i ==> |datasets[k].0| > 0
    {
      if |datasets[i].0| == 0 {
        return Err(ValueError);
      }
      i := i + 1;
    }
    var p := new Spline2dPiecewise(datasets);
    return Ok(p);
  }
}
