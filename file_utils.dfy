/** File helpers: a pushback wrapper around a line iterator, a search over
    all combinations of candidate path parts, the argument vector of a
    `tar` extraction, and the pass-through of `glob_files`. */
module FileUtils {
  import opened Wrappers
  import opened Arith
  import opened Strings
  import opened MixedRadix

  /** `super_file`: an iterator with a pushback stack in front of it. */
  class SuperFile {
    /** What the wrapped object's `next()` yields, in order. */
    const source: seq<string>
    var pos: nat
    var pushback: seq<string>

    predicate Valid()
      reads this
    {
      pos <= |source|
    }

    /** The items the next calls of `next` hand out, in order: the pushed
        items, last pushed first, then the rest of the wrapped object. */
    function Stream(): seq<string>
      requires Valid()
      reads this
    {
      Reversed(pushback) + source[pos..]
    }

    constructor (obj: seq<string>)
      ensures source == obj && pos == 0 && pushback == [] && Valid()
      ensures Stream() == obj
    {
      source := obj;
      pos := 0;
      pushback := [];
    }

    /** `next`: pops the pushback stack if it is not empty, and only
        otherwise reads from the wrapped object. */
    method Next() returns (r: Result<string>)
      requires Valid()
      modifies this
      ensures Valid()
      ensures |old(pushback)| > 0 ==>
        r == Ok(old(pushback)[|old(pushback)| - 1])
        && pushback == old(pushback)[..|old(pushback)| - 1] && pos == old(pos)
      ensures |old(pushback)| == 0 && old(pos) < |source| ==>
        r == Ok(source[old(pos)]) && pushback == [] && pos == old(pos) + 1
      ensures |old(pushback)| == 0 && old(pos) == |source| ==>
        r == Err(StopIteration) && pushback == [] && pos == old(pos)
      ensures r.Ok? ==> old(Stream()) == [r.value] + Stream()
      ensures r.Err? <==> old(Stream()) == []
    {
      if |pushback| > 0 {
        var x := pushback[|pushback| - 1];
        r := Ok(x);
        pushback := pushback[..|pushback| - 1];
        assert old(pushback) == pushback + [x];
        ReversedSnoc(pushback, x);
        assert old(Stream()) == [x] + Reversed(pushback) + source[pos..];
      } else if pos < |source| {
        r := Ok(source[pos]);
        assert source[pos..] == [source[pos]] + source[pos + 1..];
        pos := pos + 1;
        assert Reversed(pushback) == [];
      } else {
        r := Err(StopIteration);
        assert Reversed(pushback) == [];
      }
    }

    /** `push`: the item is handed out by the next `next`. */
    method Push(s: string)
      requires Valid()
      modifies this
      ensures Valid()
      ensures pushback == old(pushback) + [s] && pos == old(pos)
      ensures Stream() == [s] + old(Stream())
    {
      ReversedSnoc(pushback, s);
      pushback := pushback + [s];
    }
  }

  function Reversed(s: seq<string>): (r: seq<string>)
    ensures |r| == |s|
  {
    if |s| == 0 then [] else Reversed(s[1..]) + [s[0]]
  }

  lemma {:induction false} ReversedSnoc(s: seq<string>, x: string)
    ensures Reversed(s + [x]) == [x] + Reversed(s)
    decreases |s|
  {
    if |s| > 0 {
      assert (s + [x])[1..] == s[1..] + [x];
      ReversedSnoc(s[1..], x);
    } else {
      assert s + [x] == [x];
    }
  }

  /** Pushing an item and reading it back leaves the wrapper as it was. */
  method PushThenNext(f: SuperFile, s: string) returns (r: Result<string>)
    requires f.Valid()
    modifies f
    ensures f.Valid()
    ensures r == Ok(s) && f.pushback == old(f.pushback) && f.pos == old(f.pos)
  {
    f.Push(s);
    r := f.Next();
    assert old(f.pushback) + [s] == f.pushback + [s];
  }

  /** A `path_search` argument: an iterable of alternatives, or a single
      non-iterable part (a string in Python 2 has no `__iter__`). */
  datatype Spec = Single(part: string) | Many(parts: seq<string>)

  function Alternatives(spec: Spec): seq<string> {
    match spec
    case Single(p) => [p]
    case Many(ps) => ps
  }

  function Lens(specs: seq<Spec>): (lens: seq<nat>)
    ensures |lens| == |specs|
    ensures forall k :: 0 <= k < |specs| ==> lens[k] == |Alternatives(specs[k])|
  {
    seq(|specs|, k requires 0 <= k < |specs| => |Alternatives(specs[k])|)
  }

  /** The parts chosen by the digits `c`. */
  function Parts(specs: seq<Spec>, c: seq<nat>): (ps: seq<string>)
    requires |c| == |specs| && forall k :: 0 <= k < |specs| ==> c[k] < |Alternatives(specs[k])|
    ensures |ps| == |specs|
  {
    seq(|specs|, k requires 0 <= k < |specs| => Alternatives(specs[k])[c[k]])
  }

  /** The joined path: built from the last part to the first, where a part
      is put in front of an empty tail without a separator. */
  function JoinRight(parts: seq<string>, sep: string): string {
    if |parts| == 0 then ""
    else
      var rest := JoinRight(parts[1..], sep);
      if rest == "" then parts[0] else parts[0] + sep + rest
  }

  lemma JoinRightAt(parts: seq<string>, d: nat, sep: string)
    requires d < |parts|
    ensures var rest := JoinRight(parts[d + 1..], sep);
      JoinRight(parts[d..], sep) == if rest == "" then parts[d] else parts[d] + sep + rest
  {
    assert parts[d..][1..] == parts[d + 1..];
  }

  /** The usual `sep.join(parts)`. */
  function Join(parts: seq<string>, sep: string): string {
    if |parts| == 0 then ""
    else if |parts| == 1 then parts[0]
    else parts[0] + sep + Join(parts[1..], sep)
  }

  /** With no empty part, the path is the parts joined in spec order. */
  lemma {:induction false} JoinRightIsJoin(parts: seq<string>, sep: string)
    requires forall k :: 0 <= k < |parts| ==> parts[k] != ""
    ensures JoinRight(parts, sep) == Join(parts, sep)
    ensures |parts| > 0 ==> JoinRight(parts, sep) != ""
    decreases |parts|
  {
    if |parts| > 0 {
      JoinRightIsJoin(parts[1..], sep);
    }
  }

  /** Candidate number `idx` of the search. */
  function Candidate(specs: seq<Spec>, sep: string, idx: nat): string
    requires idx < Product(Lens(specs))
  {
    ProductPositive(Lens(specs));
    JoinRight(Parts(specs, Radix(Lens(specs), idx)), sep)
  }

  /** The first candidate number at or after `from` that passes the test,
      or the number of candidates when none does. */
  function FirstFound(specs: seq<Spec>, sep: string, test: string -> bool, from: nat): (k: nat)
    requires from <= Product(Lens(specs))
    ensures from <= k <= Product(Lens(specs))
    ensures forall i :: from <= i < k ==> !test(Candidate(specs, sep, i))
    ensures k < Product(Lens(specs)) ==> test(Candidate(specs, sep, k))
    decreases Product(Lens(specs)) - from
  {
    if from == Product(Lens(specs)) || test(Candidate(specs, sep, from)) then from
    else FirstFound(specs, sep, test, from + 1)
  }

  /** `path_search(*specs, pathsep=sep, filetest=test, raise_error=...)`:
      tries every combination of parts in turn and returns the first path
      that passes the test; when none does, None or ValueError. */
  method PathSearch(specs: seq<Spec>, sep: string, filetest: string -> bool, raiseError: bool)
    returns (r: Result<Option<string>>)
    ensures var k := FirstFound(specs, sep, filetest, 0);
      && (k < Product(Lens(specs)) ==> r == Ok(Some(Candidate(specs, sep, k))))
      && (k == Product(Lens(specs)) ==> r == if raiseError then Err(ValueError) else Ok(None))
  {
    var xspecs, xlen, xstride, xtot := Tabulate(specs);
    var idx := 0;
    while idx < xtot
      invariant 0 <= idx <= xtot
      invariant FirstFound(specs, sep, filetest, idx) == FirstFound(specs, sep, filetest, 0)
    {
      var s := BuildCandidate(specs, xspecs, xlen, xstride, sep, idx);
      if filetest(s) {
        return Ok(Some(s));
      }
      idx := idx + 1;
    }
    if raiseError {
      return Err(ValueError);
    }
    return Ok(None);
  }

  /** The first loop of `path_search`: the alternatives of each part, their
      numbers, the strides (products of the numbers before) and the total. */
  method Tabulate(specs: seq<Spec>)
    returns (xspecs: seq<seq<string>>, xlen: seq<nat>, xstride: seq<nat>, xtot: nat)
    ensures |xspecs| == |specs| && forall k :: 0 <= k < |specs| ==> xspecs[k] == Alternatives(specs[k])
    ensures xlen == Lens(specs)
    ensures |xstride| == |specs| && forall k :: 0 <= k < |specs| ==> xstride[k] == Product(xlen[..k])
    ensures xtot == Product(xlen)
  {
    xspecs, xlen, xstride := [], [], [];
    xtot := 1;
    ghost var lens := Lens(specs);
    var i := 0;
    while i < |specs|
      invariant 0 <= i <= |specs|
      invariant |xspecs| == i && forall k :: 0 <= k < i ==> xspecs[k] == Alternatives(specs[k])
      invariant xlen == lens[..i]
      invariant |xstride| == i && forall k :: 0 <= k < i ==> xstride[k] == Product(lens[..k])
      invariant xtot == Product(lens[..i])
    {
      var alts := Alternatives(specs[i]);
      xspecs := xspecs + [alts];
      xstride := xstride + [xtot];
      xlen := xlen + [|alts|];
      ProductSnoc(lens, i);
      xtot := xtot * |alts|;
      i := i + 1;
    }
    assert lens[..|specs|] == lens;
  }

  /** The inner loop of `path_search`: peels the digits of `idx` off from
      the last part to the first and joins the chosen parts. */
  method BuildCandidate(specs: seq<Spec>, xspecs: seq<seq<string>>, xlen: seq<nat>, xstride: seq<nat>,
                        sep: string, idx: nat) returns (s: string)
    requires xlen == Lens(specs) && idx < Product(xlen)
    requires |xspecs| == |specs| && forall k :: 0 <= k < |specs| ==> xspecs[k] == Alternatives(specs[k])
    requires |xstride| == |specs| && forall k :: 0 <= k < |specs| ==> xstride[k] == Product(xlen[..k])
    ensures s == Candidate(specs, sep, idx)
  {
    ProductPositive(xlen);
    var parts := Parts(specs, Radix(xlen, idx));
    var idx0 := idx;
    s := "";
    var d := |specs|;
    assert xlen[..d] == xlen;
    DivModUnique(idx, Product(xlen), 0, idx);
    while d > 0
      invariant 0 <= d <= |specs|
      invariant Product(xlen[..d]) > 0
      invariant idx0 == idx % Product(xlen[..d])
      invariant s == JoinRight(parts[d..], sep)
    {
      d := d - 1;
      RadixPeel(xlen, idx, d, idx0);
      var a := idx0 / xstride[d];
      JoinRightAt(parts, d, sep);
      assert xspecs[d][a] == parts[d];
      if s == "" {
        s := xspecs[d][a];
      } else {
        s := xspecs[d][a] + sep + s;
      }
      idx0 := idx0 % xstride[d];
    }
  }

  /** The compression switch `untar` passes for an archive name. */
  function CompressionFlag(archive: string): (flags: seq<string>)
    ensures |flags| <= 1
  {
    if EndsWith(archive, ".tar.bz2") || EndsWith(archive, ".tbz2") || EndsWith(archive, ".tbz") then ["-j"]
    else if EndsWith(archive, ".tar.Z") || EndsWith(archive, ".tar.gz") || EndsWith(archive, ".tgz") then ["-z"]
    else if EndsWith(archive, ".tar.lzma") || EndsWith(archive, ".tza") then ["--use-compress-program=lzma"]
    else []
  }

  predicate EndsWith(s: string, suffix: string) {
    |suffix| <= |s| && s[|s| - |suffix|..] == suffix
  }

  /** `untar`: the argument vector handed to `tar`. */
  method UntarArgv(archive: string, subdir: Option<string>, verbose: int, files: seq<string>)
    returns (argv: seq<string>)
    ensures argv == ["tar"]
      + (if subdir.Some? && subdir.value != "" then ["-C", subdir.value] else [])
      + CompressionFlag(archive)
      + seq(if verbose > 0 then verbose else 0, _ => "-v")
      + ["-xf", archive]
      + files
  {
    argv := ["tar"];
    if subdir.Some? && subdir.value != "" {
      argv := argv + ["-C", subdir.value];
    }
    if EndsWith(archive, ".tar.bz2") || EndsWith(archive, ".tbz2") || EndsWith(archive, ".tbz") {
      argv := argv + ["-j"];
    } else if EndsWith(archive, ".tar.Z") || EndsWith(archive, ".tar.gz") || EndsWith(archive, ".tgz") {
      argv := argv + ["-z"];
    } else if EndsWith(archive, ".tar.lzma") || EndsWith(archive, ".tza") {
      argv := argv + ["--use-compress-program=lzma"];
    }
    argv := VerboseFlags(argv, verbose);
    argv := argv + ["-xf", archive];
    argv := argv + files;
  }

  /** The `-v` switches of `untar`, one per level of verbosity. */
  method VerboseFlags(head: seq<string>, verbose: int) returns (argv: seq<string>)
    ensures argv == head + seq(if verbose > 0 then verbose else 0, _ => "-v")
  {
    argv := head;
    if verbose > 0 {
      var i := 0;
      while i < verbose
        invariant 0 <= i <= verbose
        invariant argv == head + seq(i, _ => "-v")
      {
        argv := argv + ["-v"];
        i := i + 1;
      }
    }
  }

  /** Each suffix family selects its own switch: an archive gets `-z` for
      gzip and compress names, `-j` for bzip2 names, the lzma program for
      lzma names; any other name gets no switch. */
  lemma CompressionFlagSuffixes(archive: string)
    ensures EndsWith(archive, ".tgz") || EndsWith(archive, ".tar.gz") ==> CompressionFlag(archive) == ["-z"]
    ensures EndsWith(archive, ".tbz2") ==> CompressionFlag(archive) == ["-j"]
    ensures EndsWith(archive, ".tza") ==> CompressionFlag(archive) == ["--use-compress-program=lzma"]
    ensures CompressionFlag(archive) == [] ==> !EndsWith(archive, ".tgz") && !EndsWith(archive, ".tbz")
  {
    if EndsWith(archive, ".tgz") || EndsWith(archive, ".tar.gz") {
      assert !EndsWith(archive, ".tar.bz2") && !EndsWith(archive, ".tbz2") && !EndsWith(archive, ".tbz") by {
        assert archive[|archive| - 1] == 'z';
      }
    }
    if EndsWith(archive, ".tza") {
      assert archive[|archive| - 1] == 'a';
      assert archive[|archive| - 2] == 'z';
    }
  }

  /** A `glob_files` argument: an iterable of names, a glob pattern, or
      anything else. */
  datatype FileSpec = Names(names: seq<string>) | Pattern(pattern: string) | Other

  /** `glob_files`: an iterable comes back unchanged and unsorted; a pattern
      gives the sorted names `glob.glob` matched (passed in as `matches`);
      anything else fails, and building its message already raises
      TypeError (a string plus a type). */
  function GlobFiles(spec: FileSpec, matches: seq<string>): (r: Result<seq<string>>)
    ensures spec.Names? ==> r == Ok(spec.names)
    ensures spec.Pattern? ==> r.Ok? && Sorted(r.value) && multiset(r.value) == multiset(matches)
    ensures spec.Other? ==> r == Err(TypeError)
  {
    match spec
    case Names(names) => Ok(names)
    case Pattern(_) => Ok(Sort(matches))
    case Other => Err(TypeError)
  }
}
