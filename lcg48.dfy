/** The 48-bit linear congruential generator of the legacy Fortran
    `rannyu` routine, with its hard-coded seed library and the 12-bit
    split/join helpers used to convert legacy seeds. */
module RngLcg48 {
  import opened Wrappers

  /** 2^48: the generator works on the low 48 bits. */
  const Modulus: int := 0x1_0000_0000_0000

  /** The multiplier 11^13. */
  const Multiplier: int := 34522712143931

  /** 2^12: the width of one part of a split 48-bit number. */
  const Part: int := 0x1000

  /** The value returned for a state L, as a fraction of 2^48: a zero state
      yields the smallest positive fraction instead of 0. */
  function Draw(l: int): (u: real)
    requires 0 <= l < Modulus
    ensures 0.0 < u < 1.0
    ensures l > 0 ==> u == l as real / Modulus as real
  {
    (if l == 0 then 1 else l) as real / Modulus as real
  }

  /** The legacy seed library: entry k (1 .. 102) is (k, L, n); entry 0 is
      an unused empty tuple.  The table is written in four consecutive
      blocks of entries 0-25, 26-51, 52-77 and 78-102. */
  const SeedLib: seq<seq<int>> := SeedLibA + SeedLibB + SeedLibC + SeedLibD

  const SeedLibA: seq<seq<int>> := [
    [],
    [1, 127, 11863279],
    [2, 127, 11863259],
    [3, 127, 11863253],
    [4, 127, 11863249],
    [5, 127, 11863237],
    [6, 127, 11863213],
    [7, 152656382984915, 11863279],
    [8, 152656382984915, 11863259],
    [9, 152656382984915, 11863253],
    [10, 152656382984915, 11863249],
    [11, 152656382984915, 11863237],
    [12, 152656382984915, 11863213],
    [13, 127, 11863207],
    [14, 127, 11863183],
    [15, 152656382984915, 11863207],
    [16, 152656382984915, 11863183],
    [17, 152656382984915, 11863171],
    [18, 152656382984915, 11863153],
    [19, 152656382984915, 11863151],
    [20, 152656382984915, 11863133],
    [21, 152656382984915, 11863123],
    [22, 152656382984915, 11863121],
    [23, 152656382984915, 11863109],
    [24, 152656382984915, 11863099],
    [25, 127, 11863171]
  ]

  const SeedLibB: seq<seq<int>> := [
    [26, 127, 11863153],
    [27, 127, 11863151],
    [28, 127, 11863133],
    [29, 127, 11863123],
    [30, 127, 11863121],
    [31, 127, 11863109],
    [32, 127, 11863099],
    [33, 152656382984915, 11863073],
    [34, 127, 11863073],
    [35, 152656382984915, 11863067],
    [36, 127, 11863067],
    [37, 152656382984915, 11863057],
    [38, 127, 11863057],
    [39, 152656382984915, 11863039],
    [40, 127, 11863039],
    [41, 152656382984915, 11863037],
    [42, 127, 11863037],
    [43, 127, 11863031],
    [44, 127, 11863021],
    [45, 127, 11862997],
    [46, 127, 11862989],
    [47, 127, 11862979],
    [48, 127, 11862959],
    [49, 127, 11862919],
    [50, 127, 11862911],
    [51, 127, 11862881]
  ]

  const SeedLibC: seq<seq<int>> := [
    [52, 127, 11862869],
    [53, 127, 11862857],
    [54, 127, 11862841],
    [55, 127, 11862839],
    [56, 127, 11862803],
    [57, 127, 11862791],
    [58, 127, 11862761],
    [59, 127, 11862713],
    [60, 127, 11862013],
    [61, 127, 11862007],
    [62, 127, 11861987],
    [63, 127, 11861959],
    [64, 127, 11861953],
    [65, 127, 11861923],
    [66, 127, 11861819],
    [67, 127, 11861803],
    [68, 127, 11861791],
    [69, 127, 11861749],
    [70, 127, 11861713],
    [71, 127, 11861711],
    [72, 127, 11861701],
    [73, 152656382984915, 11863031],
    [74, 152656382984915, 11863021],
    [75, 152656382984915, 11862997],
    [76, 152656382984915, 11862989],
    [77, 152656382984915, 11862979]
  ]

  const SeedLibD: seq<seq<int>> := [
    [78, 152656382984915, 11862959],
    [79, 152656382984915, 11862919],
    [80, 152656382984915, 11862911],
    [81, 152656382984915, 11862881],
    [82, 152656382984915, 11862869],
    [83, 152656382984915, 11862857],
    [84, 152656382984915, 11862841],
    [85, 152656382984915, 11862839],
    [86, 152656382984915, 11862803],
    [87, 152656382984915, 11862791],
    [88, 152656382984915, 11862761],
    [89, 152656382984915, 11862713],
    [90, 152656382984915, 11862013],
    [91, 152656382984915, 11862007],
    [92, 152656382984915, 11861987],
    [93, 152656382984915, 11861959],
    [94, 152656382984915, 11861953],
    [95, 152656382984915, 11861923],
    [96, 152656382984915, 11861819],
    [97, 152656382984915, 11861803],
    [98, 152656382984915, 11861791],
    [99, 152656382984915, 11861749],
    [100, 152656382984915, 11861713],
    [101, 152656382984915, 11861711],
    [102, 152656382984915, 11861701]
  ]

  lemma SeedLibAIndexed()
    ensures |SeedLibA| == 26
    ensures forall j :: 1 <= j < |SeedLibA| ==> |SeedLibA[j]| == 3 && SeedLibA[j][0] == j + 0
  {
  }

  lemma SeedLibBIndexed()
    ensures |SeedLibB| == 26
    ensures forall j :: 0 <= j < |SeedLibB| ==> |SeedLibB[j]| == 3 && SeedLibB[j][0] == j + 26
  {
  }

  lemma SeedLibCIndexed()
    ensures |SeedLibC| == 26
    ensures forall j :: 0 <= j < |SeedLibC| ==> |SeedLibC[j]| == 3 && SeedLibC[j][0] == j + 52
  {
  }

  lemma SeedLibDIndexed()
    ensures |SeedLibD| == 25
    ensures forall j :: 0 <= j < |SeedLibD| ==> |SeedLibD[j]| == 3 && SeedLibD[j][0] == j + 78
  {
  }

  /** Every library entry k in 1 .. 102 is a full seed whose seed index is k;
      entry 0 is empty. */
  lemma SeedLibIndexed()
    ensures |SeedLib| == 103 && SeedLib[0] == []
    ensures forall k :: 1 <= k <= 102 ==> |SeedLib[k]| == 3 && SeedLib[k][0] == k
  {
    SeedLibAIndexed();
    SeedLibBIndexed();
    SeedLibCIndexed();
    SeedLibDIndexed();
    assert SeedLib[0] == SeedLibA[0];
    forall k | 1 <= k <= 102
      ensures |SeedLib[k]| == 3 && SeedLib[k][0] == k
    {
      if k < 26 {
        assert SeedLib[k] == SeedLibA[k];
      } else if k < 52 {
        assert SeedLib[k] == SeedLibB[k - 26];
      } else if k < 78 {
        assert SeedLib[k] == SeedLibC[k - 52];
      } else {
        assert SeedLib[k] == SeedLibD[k - 78];
      }
    }
  }

  lemma SeedLibSize()
    ensures |SeedLib| == 103
  {
    SeedLibIndexed();
  }

  /** The entry `use_seed_lib(index)` looks up: empty for position 0, else
      a triple starting with its position. */
  lemma SeedLibEntry(index: int)
    requires -103 <= index <= 102
    ensures var k := if index >= 0 then index else index + 103;
      && |SeedLib| == 103
      && ListItem(SeedLib, index) == Ok(SeedLib[k])
      && (k == 0 ==> |SeedLib[k]| == 0)
      && (k != 0 ==> |SeedLib[k]| == 3 && SeedLib[k][0] == k)
  {
    SeedLibIndexed();
  }

  /** Python list indexing: negative positions count from the end; anything
      outside -|s| .. |s|-1 raises IndexError. */
  function ListItem<T>(s: seq<T>, index: int): (r: Result<T>)
    ensures r.Ok? <==> -|s| <= index < |s|
    ensures r.Ok? && index >= 0 ==> r.value == s[index]
    ensures r.Ok? && index < 0 ==> r.value == s[|s| + index]
    ensures r.Err? ==> r.error == IndexError
  {
    if 0 <= index < |s| then Ok(s[index])
    else if -|s| <= index < 0 then Ok(s[|s| + index])
    else Err(IndexError)
  }

  /** class lcg48: the generator state.  The class attributes give the
      defaults (seed 1 of the library). */
  class Lcg48 {
    var m: int
    var L: int
    var n: int
    var seedIndex: Option<int>

    constructor ()
      ensures m == Multiplier && L == 127 && n == 11863279 && seedIndex == Some(1)
    {
      m := Multiplier;
      L := 127;
      n := 11863279;
      seedIndex := Some(1);
    }

    /** __call__: one step of the recurrence on the low 48 bits, returning
        the new state as a fraction of 2^48 (never 0, always below 1). */
    method Call() returns (u: real)
      modifies this
      ensures L == (old(m) * old(L) + old(n)) % Modulus
      ensures 0 <= L < Modulus
      ensures u == Draw(L) && 0.0 < u < 1.0
      ensures m == old(m) && n == old(n) && seedIndex == old(seedIndex)
    {
      var lNew := (m * L + n) % Modulus;
      L := lNew;
      if lNew == 0 {
        u := 1.0 / Modulus as real;
      } else {
        u := lNew as real / Modulus as real;
      }
    }

    /** update_seed: a 2-tuple sets (L, n) and forgets the seed index; a
        3-tuple sets (seed index, L, n); any other length raises TypeError
        and changes nothing.  The multiplier is never touched. */
    method UpdateSeed(ln: seq<int>) returns (r: Result<()>)
      modifies this
      ensures m == old(m)
      ensures r.Ok? <==> |ln| == 2 || |ln| == 3
      ensures |ln| == 2 ==> L == ln[0] && n == ln[1] && seedIndex == None
      ensures |ln| == 3 ==> seedIndex == Some(ln[0]) && L == ln[1] && n == ln[2]
      ensures r.Err? ==> r.error == TypeError && L == old(L) && n == old(n) && seedIndex == old(seedIndex)
    {
      if |ln| == 2 {
        L, n := ln[0], ln[1];
        seedIndex := None;
        r := Ok(());
      } else if |ln| == 3 {
        seedIndex, L, n := Some(ln[0]), ln[1], ln[2];
        r := Ok(());
      } else {
        r := Err(TypeError);
      }
    }

    /** use_seed_lib: resets the multiplier to 11^13 (before the lookup, so
        even a failing lookup resets it), then loads library entry `index`;
        a negative index counts from the end of the library, so -1 loads
        entry 102. */
    method UseSeedLib(index: int) returns (r: Result<()>)
      modifies this
      ensures m == Multiplier
      ensures r.Ok? <==> (1 <= index <= 102 || -102 <= index <= -1)
      ensures 1 <= index <= 102 ==>
        seedIndex == Some(index) && [index, L, n] == SeedLib[index]
      ensures -102 <= index <= -1 ==>
        seedIndex == Some(index + 103) && [index + 103, L, n] == SeedLib[index + 103]
      ensures (index < -103 || index > 102) ==> r == Err(IndexError)
      ensures (index == 0 || index == -103) ==> r == Err(TypeError)
      ensures r.Err? ==> L == old(L) && n == old(n) && seedIndex == old(seedIndex)
    {
      m := Multiplier;
      SeedLibSize();
      var entry := ListItem(SeedLib, index);
      if entry.Err? {
        return Err(entry.error);
      }
      SeedLibEntry(index);
      r := UpdateSeed(entry.value);
    }
  }

  /** rannyu.__init__ as written: with no seed, the seed is drawn with
      numpy.random.randint, but the module never imports numpy, so the name
      lookup fails with NameError before anything is drawn. */
  method NewRannyuAsWritten(seed: Option<int>) returns (r: Result<Lcg48>)
    ensures seed.None? ==> r == Err(NameError)
    ensures seed.Some? && 1 <= seed.value <= 102 ==>
      r.Ok? && r.value.seedIndex == seed && [seed.value, r.value.L, r.value.n] == SeedLib[seed.value]
    ensures seed.Some? ==> (r.Ok? <==> (1 <= seed.value <= 102 || -102 <= seed.value <= -1))
    ensures seed.Some? && -102 <= seed.value <= -1 ==>
      r.Ok? && r.value.seedIndex == Some(seed.value + 103) &&
      [seed.value + 103, r.value.L, r.value.n] == SeedLib[seed.value + 103]
    ensures seed.Some? && (seed.value < -103 || seed.value > 102) ==> r == Err(IndexError)
    ensures seed.Some? && (seed.value == 0 || seed.value == -103) ==> r == Err(TypeError)
  {
    if seed.None? {
      return Err(NameError);
    }
    r := NewRannyu(seed, 0);
  }

  /** rannyu.__init__ with the random draw passed in: `draw` plays the value
      of numpy.random.randint(102), so a missing seed becomes library entry
      draw + 1, which is always one of the entries 1 .. 102; a given seed goes
      to use_seed_lib unchanged, with its negative indices and its errors. */
  method NewRannyu(seed: Option<int>, draw: int) returns (r: Result<Lcg48>)
    requires 0 <= draw < 102
    ensures r.Ok? ==> fresh(r.value) && r.value.m == Multiplier
    ensures seed.None? ==>
      r.Ok? && r.value.seedIndex == Some(draw + 1) && [draw + 1, r.value.L, r.value.n] == SeedLib[draw + 1]
    ensures seed.Some? && 1 <= seed.value <= 102 ==>
      r.Ok? && r.value.seedIndex == seed && [seed.value, r.value.L, r.value.n] == SeedLib[seed.value]
    ensures seed.Some? ==> (r.Ok? <==> (1 <= seed.value <= 102 || -102 <= seed.value <= -1))
    ensures seed.Some? && -102 <= seed.value <= -1 ==>
      r.Ok? && r.value.seedIndex == Some(seed.value + 103) &&
      [seed.value + 103, r.value.L, r.value.n] == SeedLib[seed.value + 103]
    ensures seed.Some? && (seed.value < -103 || seed.value > 102) ==> r == Err(IndexError)
    ensures seed.Some? && (seed.value == 0 || seed.value == -103) ==> r == Err(TypeError)
  {
    var s := if seed.None? then draw + 1 else seed.value;
    var g := new Lcg48();
    var u := g.UseSeedLib(s);
    if u.Err? {
      return Err(u.error);
    }
    r := Ok(g);
  }

  /** mkint48: joins four 12-bit parts, most significant first. */
  function Mkint48(t: (int, int, int, int)): int {
    t.3 + t.2 * Part + t.1 * Part * Part + t.0 * Part * Part * Part
  }

  /** Whether every part of a split number is a 12-bit value. */
  predicate Parts12(t: (int, int, int, int)) {
    0 <= t.0 < Part && 0 <= t.1 < Part && 0 <= t.2 < Part && 0 <= t.3 < Part
  }

  /** Joining four 12-bit parts gives a 48-bit number. */
  lemma Mkint48Range(t: (int, int, int, int))
    requires Parts12(t)
    ensures 0 <= Mkint48(t) < Modulus
  {
    var a := t.3 + t.2 * Part;
    assert 0 <= a < Part * Part;
    var b := a + t.1 * Part * Part;
    assert 0 <= b < Part * Part * Part;
  }

  /** Two tuples of 12-bit parts that join to the same number are equal. */
  lemma Mkint48Injective(t: (int, int, int, int), t': (int, int, int, int))
    requires Parts12(t) && Parts12(t')
    requires Mkint48(t) == Mkint48(t')
    ensures t == t'
  {
    var x := Mkint48(t);
    assert x == t.3 + Part * (t.2 + Part * (t.1 + Part * t.0));
    assert x == t'.3 + Part * (t'.2 + Part * (t'.1 + Part * t'.0));
    DivModUnique(x, t.3, t'.3, t.2 + Part * (t.1 + Part * t.0), t'.2 + Part * (t'.1 + Part * t'.0));
    var y := t.2 + Part * (t.1 + Part * t.0);
    DivModUnique(y, t.2, t'.2, t.1 + Part * t.0, t'.1 + Part * t'.0);
    var z := t.1 + Part * t.0;
    DivModUnique(z, t.1, t'.1, t.0, t'.0);
  }

  /** A number has one low 12-bit digit and one quotient by 2^12. */
  lemma DivModUnique(x: int, r: int, r': int, q: int, q': int)
    requires 0 <= r < Part && 0 <= r' < Part
    requires x == r + Part * q && x == r' + Part * q'
    ensures r == r' && q == q'
  {
    assert Part * (q - q') == r' - r;
  }

  /** split48: peels off the 12-bit parts, least significant first, by
      masking with 0xFFF and shifting right by 12.  The parts come back
      most significant first and join to the low 48 bits of the value. */
  method Split48(value: int) returns (t: (int, int, int, int))
    ensures Parts12(t)
    ensures Mkint48(t) == value % Modulus
  {
    var v := value;
    var i4 := v % Part;
    v := v / Part;
    var i3 := v % Part;
    v := v / Part;
    var i2 := v % Part;
    v := v / Part;
    var i1 := v % Part;
    t := (i1, i2, i3, i4);
    SplitLow48(value);
  }

  /** The four masked digits of a value join to the value modulo 2^48. */
  lemma SplitLow48(value: int)
    ensures var v1 := value / Part; var v2 := v1 / Part; var v3 := v2 / Part;
      Mkint48((v3 % Part, v2 % Part, v1 % Part, value % Part)) == value % Modulus
  {
    var v1 := value / Part;
    var v2 := v1 / Part;
    var v3 := v2 / Part;
    assert value == value % Part + Part * v1;
    assert v1 == v1 % Part + Part * v2;
    assert v2 == v2 % Part + Part * v3;
    assert v3 == v3 % Part + Part * (v3 / Part);
    var low := value % Part + Part * (v1 % Part + Part * (v2 % Part + Part * (v3 % Part)));
    assert value == low + Modulus * (v3 / Part);
    Mkint48Range((v3 % Part, v2 % Part, v1 % Part, value % Part));
    assert Mkint48((v3 % Part, v2 % Part, v1 % Part, value % Part)) == low;
    ModOfMultiple(value, low, v3 / Part);
  }

  lemma ModOfMultiple(value: int, low: int, k: int)
    requires 0 <= low < Modulus
    requires value == low + Modulus * k
    ensures value % Modulus == low
  {
    var q := value / Modulus;
    assert value == value % Modulus + Modulus * q;
    assert Modulus * (k - q) == value % Modulus - low;
  }

  /** Splitting a 48-bit number and joining the parts gives it back. */
  method JoinOfSplit(v: int) returns (w: int)
    requires 0 <= v < Modulus
    ensures w == v
  {
    var t := Split48(v);
    w := Mkint48(t);
  }

  /** Joining four 12-bit parts and splitting the result gives the parts
      back. */
  method SplitOfJoin(t: (int, int, int, int)) returns (t': (int, int, int, int))
    requires Parts12(t)
    ensures t' == t
  {
    Mkint48Range(t);
    t' := Split48(Mkint48(t));
    Mkint48Injective(t', t);
  }
}
