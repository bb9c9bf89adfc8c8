/** A comment-aware reader of text records.  The input file is a sequence of
    lines read front to back; everything from the first `#` on a line is a
    comment; blank lines are skipped unless the `skip_blank_lines` option is
    false; `lineno` counts every read attempt. */
module TextInput {
  import opened Wrappers
  import opened PyValue
  import opened Decimal

  /** The characters `str.split()` and `str.rstrip()` treat as whitespace. */
  predicate IsSpace(c: char) {
    c == ' ' || c == '\t' || c == '\n' || c == '\r' || c as int == 11 || c as int == 12
  }

  predicate Blank(s: string) {
    forall i :: 0 <= i < |s| ==> IsSpace(s[i])
  }

  /** `s.split("#")[0]`: the text before the first `#`. */
  function BeforeHash(s: string): string
  {
    if |s| == 0 || s[0] == '#' then "" else [s[0]] + BeforeHash(s[1..])
  }

  /** The text before the first `#` is a prefix of the line without `#`,
      and it stops at a `#` unless it is the whole line. */
  lemma {:induction false} BeforeHashSpec(s: string)
    ensures var t := BeforeHash(s);
      t <= s && '#' !in t && (|t| < |s| ==> s[|t|] == '#')
    decreases |s|
  {
    if |s| > 0 && s[0] != '#' {
      BeforeHashSpec(s[1..]);
    }
  }

  /** `s.rstrip()`: `s` without its trailing whitespace. */
  function RStrip(s: string): string
  {
    if |s| > 0 && IsSpace(s[|s| - 1]) then RStrip(s[..|s| - 1]) else s
  }

  /** The stripped text is a prefix of `s` that does not end in whitespace,
      and everything after it is whitespace. */
  lemma {:induction false} RStripSpec(s: string)
    ensures var t := RStrip(s);
      && t <= s
      && (|t| > 0 ==> !IsSpace(t[|t| - 1]))
      && forall i :: |t| <= i < |s| ==> IsSpace(s[i])
    decreases |s|
  {
    if |s| > 0 && IsSpace(s[|s| - 1]) {
      RStripSpec(s[..|s| - 1]);
    }
  }

  /** The longest prefix of `s` without whitespace. */
  function Word(s: string): (w: string)
    ensures w <= s
    ensures forall c :: c in w ==> !IsSpace(c)
    ensures |w| < |s| ==> IsSpace(s[|w|])
  {
    if |s| == 0 || IsSpace(s[0]) then "" else [s[0]] + Word(s[1..])
  }

  /** `s.split()`: the maximal runs of non-whitespace characters. */
  function Fields(s: string): (f: seq<string>)
    ensures forall k :: 0 <= k < |f| ==> |f[k]| > 0 && forall c :: c in f[k] ==> !IsSpace(c)
    decreases |s|
  {
    if |s| == 0 then []
    else if IsSpace(s[0]) then Fields(s[1..])
    else
      var w := Word(s);
      [w] + Fields(s[|w|..])
  }

  /** The characters of `s` that are not whitespace, in order. */
  function NonSpace(s: string): string {
    if |s| == 0 then "" else (if IsSpace(s[0]) then "" else [s[0]]) + NonSpace(s[1..])
  }

  function Concat(f: seq<string>): string {
    if |f| == 0 then "" else f[0] + Concat(f[1..])
  }

  lemma {:induction false} NonSpaceAppend(a: string, b: string)
    ensures NonSpace(a + b) == NonSpace(a) + NonSpace(b)
    decreases |a|
  {
    if |a| > 0 {
      assert (a + b)[1..] == a[1..] + b;
      NonSpaceAppend(a[1..], b);
    } else {
      assert a + b == b;
    }
  }

  lemma {:induction false} NonSpaceOfWord(w: string)
    requires forall c :: c in w ==> !IsSpace(c)
    ensures NonSpace(w) == w
    decreases |w|
  {
    if |w| > 0 {
      assert w[0] in w;
      NonSpaceOfWord(w[1..]);
    }
  }

  /** The fields hold exactly the non-whitespace text of the line, in order:
      splitting loses nothing but the separators. */
  lemma {:induction false} FieldsKeepText(s: string)
    ensures Concat(Fields(s)) == NonSpace(s)
    decreases |s|
  {
    if |s| > 0 {
      if IsSpace(s[0]) {
        FieldsKeepText(s[1..]);
      } else {
        var w := Word(s);
        FieldsKeepText(s[|w|..]);
        assert s == w + s[|w|..];
        NonSpaceAppend(w, s[|w|..]);
        NonSpaceOfWord(w);
        assert Fields(s)[1..] == Fields(s[|w|..]);
      }
    }
  }

  /** A line has no fields exactly when it is all whitespace, which is
      exactly when its right-stripped text is empty: `next_rec` and
      `next_line` skip the same lines. */
  lemma {:induction false} FieldsEmptyIffBlank(s: string)
    ensures Fields(s) == [] <==> Blank(s)
    ensures RStrip(s) == "" <==> Blank(s)
    decreases |s|
  {
    RStripSpec(s);
    if |s| > 0 {
      FieldsEmptyIffBlank(s[1..]);
      assert Blank(s) <==> IsSpace(s[0]) && Blank(s[1..]);
      if !IsSpace(s[0]) {
        assert |Word(s)| > 0;
      }
    }
  }

  /** Whether a line is handed out rather than skipped. */
  predicate Kept(line: string, skipBlankLines: Value) {
    !Truthy(skipBlankLines) || !Blank(BeforeHash(line))
  }

  /** The index of the first line at or after `from` that is handed out, or
      `|lines|` when none is. */
  function NextKept(lines: seq<string>, from: nat, skip: Value): (k: nat)
    requires from <= |lines|
    ensures from <= k <= |lines|
    ensures k < |lines| ==> Kept(lines[k], skip)
    decreases |lines| - from
  {
    if from == |lines| || Kept(lines[from], skip) then from else NextKept(lines, from + 1, skip)
  }

  /** Every line before the next one handed out is skipped. */
  lemma {:induction false} NextKeptSkips(lines: seq<string>, from: nat, skip: Value)
    requires from <= |lines|
    ensures forall i :: from <= i < NextKept(lines, from, skip) ==> !Kept(lines[i], skip)
    decreases |lines| - from
  {
    if from < |lines| && !Kept(lines[from], skip) {
      NextKeptSkips(lines, from + 1, skip);
    }
  }

  /** The text `next_line` hands out for a line. */
  function LineText(line: string): string {
    RStrip(BeforeHash(line))
  }

  /** The index of the first line at or after `from` that is handed out and
      whose text satisfies `pred`, or `|lines|` when none is. */
  function NextMatch(lines: seq<string>, from: nat, skip: Value, pred: string -> bool): (k: nat)
    requires from <= |lines|
    ensures from <= k <= |lines|
    ensures k < |lines| ==> Kept(lines[k], skip) && pred(LineText(lines[k]))
    decreases |lines| - from
  {
    if from == |lines| || (Kept(lines[from], skip) && pred(LineText(lines[from]))) then from
    else NextMatch(lines, from + 1, skip, pred)
  }

  /** No line before the next match is both handed out and matching. */
  lemma {:induction false} NextMatchSkips(lines: seq<string>, from: nat, skip: Value, pred: string -> bool)
    requires from <= |lines|
    ensures forall i :: from <= i < NextMatch(lines, from, skip, pred) ==>
      !(Kept(lines[i], skip) && pred(LineText(lines[i])))
    decreases |lines| - from
  {
    if from < |lines| && !(Kept(lines[from], skip) && pred(LineText(lines[from]))) {
      NextMatchSkips(lines, from + 1, skip, pred);
    }
  }

  /** The two read procedures `next` can be bound to. */
  datatype NextProc = NextLineProc | NextRecProc

  /** What `next` hands out: a line's text or its fields. */
  datatype Record = LineRecord(text: string) | FieldsRecord(fields: seq<string>)

  /** A Python object as found in a `read_items` column specification:
      a plain value, a type such as `int` or `complex`, or a tuple. */
  datatype Obj = Val(v: Value) | TypeName(name: string) | Tuple(items: seq<Obj>)

  /** A normalised column specification: source column, field name, type. */
  datatype Column = Column(col: Obj, name: Obj, dtype: Obj)

  /** `len(c)`, where Python has one: tuples and strings. */
  function Len(c: Obj): Option<nat> {
    match c
    case Tuple(items) => Some(|items|)
    case Val(PyStr(s)) => Some(|s|)
    case _ => None
  }

  /** `c[k]` for a tuple or a string. */
  function Elem(c: Obj, k: nat): Obj
    requires Len(c).Some? && k < Len(c).value
  {
    match c
    case Tuple(items) => items[k]
    case Val(PyStr(s)) => Val(PyStr([s[k]]))
  }

  /** The name `read_items` gives the column at position `i` when the
      specification names none. */
  function DefaultName(i: nat): Obj {
    Val(PyStr("f" + NatToString(i)))
  }

  /** The normalisation of the `i`-th column specification: an int, a
      1-tuple or a 2-tuple gets the default name, a 3-tuple names itself
      (its type comes second); a specification without `len` raises
      TypeError and one of any other length ValueError. */
  function NormalizeColumn(c: Obj, i: nat, deftype: Obj): (r: Result<Column>)
    ensures r.Err? <==> !(c.Val? && c.v.PyInt?) && (Len(c).None? || Len(c).value !in {1, 2, 3})
    ensures r.Err? ==> r.error == (if Len(c).None? then TypeError else ValueError)
  {
    if c.Val? && c.v.PyInt? then Ok(Column(c, DefaultName(i), deftype))
    else if Len(c).None? then Err(TypeError)
    else if Len(c).value == 1 then Ok(Column(Elem(c, 0), DefaultName(i), deftype))
    else if Len(c).value == 2 then Ok(Column(Elem(c, 0), DefaultName(i), Elem(c, 1)))
    else if Len(c).value == 3 then Ok(Column(Elem(c, 0), Elem(c, 2), Elem(c, 1)))
    else Err(ValueError)
  }

  /** The index of the first specification that does not normalise, or
      `|specs|` when all do. */
  function FirstBadColumn(specs: seq<Obj>, deftype: Obj, from: nat): (k: nat)
    requires from <= |specs|
    ensures from <= k <= |specs|
    ensures forall i :: from <= i < k ==> NormalizeColumn(specs[i], i, deftype).Ok?
    ensures k < |specs| ==> NormalizeColumn(specs[k], k, deftype).Err?
    decreases |specs| - from
  {
    if from == |specs| || NormalizeColumn(specs[from], from, deftype).Err? then from
    else FirstBadColumn(specs, deftype, from + 1)
  }

  /** Default names of distinct positions are distinct. */
  lemma DefaultNamesDistinct(i: nat, j: nat)
    ensures DefaultName(i) == DefaultName(j) ==> i == j
  {
    if DefaultName(i) == DefaultName(j) {
      assert ("f" + NatToString(i))[1..] == NatToString(i);
      assert ("f" + NatToString(j))[1..] == NatToString(j);
      NatToStringInjective(i, j);
    }
  }

  /** `read_items` column registration: every specification is normalised
      in order, the first bad one aborting the whole call. */
  method ReadItemsColumns(specs: seq<Obj>, deftype: Obj) returns (r: Result<seq<Column>>)
    ensures var k := FirstBadColumn(specs, deftype, 0);
      (r.Ok? <==> k == |specs|)
      && (r.Err? ==> r.error == NormalizeColumn(specs[k], k, deftype).error)
    ensures r.Ok? ==> |r.value| == |specs|
    ensures r.Ok? ==> forall i :: 0 <= i < |specs| ==> r.value[i] == NormalizeColumn(specs[i], i, deftype).value
  {
    var cols: seq<Column> := [];
    var i := 0;
    while i < |specs|
      invariant 0 <= i <= |specs|
      invariant forall j :: 0 <= j < i ==> NormalizeColumn(specs[j], j, deftype).Ok?
      invariant |cols| == i
      invariant forall j :: 0 <= j < i ==> cols[j] == NormalizeColumn(specs[j], j, deftype).value
      invariant FirstBadColumn(specs, deftype, i) == FirstBadColumn(specs, deftype, 0)
    {
      var c := NormalizeColumn(specs[i], i, deftype);
      if c.Err? {
        return Err(c.error);
      }
      cols := cols + [c.value];
      i := i + 1;
    }
    return Ok(cols);
  }

  /** The first index of `opts` whose option name is not
      `skip_blank_lines`, or `|opts|`. */
  function FirstBadOption(opts: seq<(string, Value)>): (k: nat)
    ensures k <= |opts|
    ensures forall i :: 0 <= i < k ==> opts[i].0 == "skip_blank_lines"
    ensures k < |opts| ==> opts[k].0 != "skip_blank_lines"
  {
    if |opts| == 0 || opts[0].0 != "skip_blank_lines" then 0 else 1 + FirstBadOption(opts[1..])
  }

  class TextInput {
    /** The remaining input, as read by `file.next()`. */
    const lines: seq<string>
    /** How many lines `file.next()` has consumed. */
    var pos: nat
    var lineno: int
    var skipBlankLines: Value
    var nextProc: NextProc
    /** `opt_expand_errorbar`: whether the errorbar hook is the field filter. */
    var expandErrorbar: bool

    predicate Valid()
      reads this
    {
      pos <= |lines|
    }

    /** `__init__` without options: `next` bound to `next_line`, blank lines
        skipped, `lineno` at 0. */
    constructor (input: seq<string>)
      ensures lines == input && pos == 0 && lineno == 0 && Valid()
      ensures skipBlankLines == PyBool(true) && nextProc == NextLineProc && !expandErrorbar
    {
      lines := input;
      pos := 0;
      lineno := 0;
      skipBlankLines := PyBool(true);
      nextProc := NextLineProc;
      expandErrorbar := false;
    }

    /** `file.next()`: the next line, or StopIteration at the end. */
    method ReadLine() returns (r: Result<string>)
      requires Valid()
      modifies this
      ensures Valid()
      ensures old(pos) < |lines| ==> r == Ok(lines[old(pos)]) && pos == old(pos) + 1
      ensures old(pos) == |lines| ==> r == Err(StopIteration) && pos == old(pos)
      ensures lineno == old(lineno) && skipBlankLines == old(skipBlankLines)
      ensures nextProc == old(nextProc) && expandErrorbar == old(expandErrorbar)
    {
      if pos == |lines| {
        return Err(StopIteration);
      }
      r := Ok(lines[pos]);
      pos := pos + 1;
    }

    /** `next_rec`: the fields of the next line handed out.  Each attempt
        to read counts one line, the failing one at the end included. */
    method NextRec() returns (r: Result<seq<string>>)
      requires Valid()
      modifies this
      ensures Valid()
      ensures var k := NextKept(lines, old(pos), skipBlankLines);
        && (k < |lines| ==> r == Ok(Fields(BeforeHash(lines[k]))) && pos == k + 1)
        && (k == |lines| ==> r == Err(StopIteration) && pos == |lines|)
        && lineno == old(lineno) + (k - old(pos)) + 1
      ensures skipBlankLines == old(skipBlankLines) && nextProc == old(nextProc)
      ensures expandErrorbar == old(expandErrorbar)
    {
      ghost var start := pos;
      while true
        invariant Valid() && start <= pos
        invariant NextKept(lines, pos, skipBlankLines) == NextKept(lines, start, skipBlankLines)
        invariant lineno == old(lineno) + (pos - start)
        invariant skipBlankLines == old(skipBlankLines) && nextProc == old(nextProc)
        invariant expandErrorbar == old(expandErrorbar)
        decreases |lines| - pos
      {
        lineno := lineno + 1;
        var line := ReadLine();
        if line.Err? {
          return Err(line.error);
        }
        var f := Fields(BeforeHash(line.value));
        FieldsEmptyIffBlank(BeforeHash(line.value));
        if |f| > 0 || !Truthy(skipBlankLines) {
          return Ok(f);
        }
      }
    }

    /** `next_line`: the right-stripped text before `#` of the next line
        handed out; counts lines as `next_rec` does. */
    method NextLine() returns (r: Result<string>)
      requires Valid()
      modifies this
      ensures Valid()
      ensures var k := NextKept(lines, old(pos), skipBlankLines);
        && (k < |lines| ==> r == Ok(LineText(lines[k])) && pos == k + 1)
        && (k == |lines| ==> r == Err(StopIteration) && pos == |lines|)
        && lineno == old(lineno) + (k - old(pos)) + 1
      ensures skipBlankLines == old(skipBlankLines) && nextProc == old(nextProc)
      ensures expandErrorbar == old(expandErrorbar)
    {
      ghost var start := pos;
      while true
        invariant Valid() && start <= pos
        invariant NextKept(lines, pos, skipBlankLines) == NextKept(lines, start, skipBlankLines)
        invariant lineno == old(lineno) + (pos - start)
        invariant skipBlankLines == old(skipBlankLines) && nextProc == old(nextProc)
        invariant expandErrorbar == old(expandErrorbar)
        decreases |lines| - pos
      {
        lineno := lineno + 1;
        var line := ReadLine();
        if line.Err? {
          return Err(line.error);
        }
        var f := RStrip(BeforeHash(line.value));
        FieldsEmptyIffBlank(BeforeHash(line.value));
        if |f| > 0 || !Truthy(skipBlankLines) {
          return Ok(f);
        }
      }
    }

    /** `set_next_proc`: rebinds what `next` calls. */
    method SetNextProc(p: NextProc)
      modifies this
      ensures nextProc == p && pos == old(pos) && lineno == old(lineno)
      ensures skipBlankLines == old(skipBlankLines) && expandErrorbar == old(expandErrorbar)
    {
      nextProc := p;
    }

    /** `next`: whichever procedure is bound, `next_line` unless rebound. */
    method Next() returns (r: Result<Record>)
      requires Valid()
      modifies this
      ensures Valid()
      ensures var k := NextKept(lines, old(pos), skipBlankLines);
        && (k < |lines| && nextProc == NextLineProc ==> r == Ok(LineRecord(LineText(lines[k]))))
        && (k < |lines| && nextProc == NextRecProc ==> r == Ok(FieldsRecord(Fields(BeforeHash(lines[k])))))
        && (k == |lines| ==> r == Err(StopIteration))
        && pos == (if k < |lines| then k + 1 else |lines|)
        && lineno == old(lineno) + (k - old(pos)) + 1
      ensures skipBlankLines == old(skipBlankLines) && nextProc == old(nextProc)
      ensures expandErrorbar == old(expandErrorbar)
    {
      if nextProc == NextLineProc {
        var s := NextLine();
        if s.Err? {
          return Err(s.error);
        }
        return Ok(LineRecord(s.value));
      } else {
        var f := NextRec();
        if f.Err? {
          return Err(f.error);
        }
        return Ok(FieldsRecord(f.value));
      }
    }

    /** `seek_text`: reads lines with `next_line` until one satisfies the
        matcher and returns it.  A regular expression search is one such
        predicate; with no matcher at all, calling None raises TypeError on
        the first line read. */
    method SeekText(matcher: Option<string -> bool>) returns (r: Result<string>)
      requires Valid()
      modifies this
      ensures Valid()
      ensures matcher.Some? ==>
        var k := NextMatch(lines, old(pos), skipBlankLines, matcher.value);
        && (k < |lines| ==>
              r == Ok(LineText(lines[k])) && pos == k + 1 && lineno == old(lineno) + (k + 1 - old(pos)))
        && (k == |lines| ==>
              r == Err(StopIteration) && pos == |lines| && lineno == old(lineno) + (k - old(pos)) + 1)
      ensures matcher.None? ==>
        var k := NextKept(lines, old(pos), skipBlankLines);
        && (k < |lines| ==> r == Err(TypeError) && pos == k + 1)
        && (k == |lines| ==> r == Err(StopIteration) && pos == |lines|)
        && lineno == old(lineno) + (k - old(pos)) + 1
      ensures skipBlankLines == old(skipBlankLines) && nextProc == old(nextProc)
      ensures expandErrorbar == old(expandErrorbar)
    {
      if matcher.None? {
        var line := NextLine();
        if line.Err? {
          return Err(line.error);
        }
        return Err(TypeError);
      }
      r := SeekMatch(matcher.value);
    }

    /** The loop of `seek_text` for a given matcher. */
    method SeekMatch(pred: string -> bool) returns (r: Result<string>)
      requires Valid()
      modifies this
      ensures Valid()
      ensures var k := NextMatch(lines, old(pos), skipBlankLines, pred);
        && (k < |lines| ==>
              r == Ok(LineText(lines[k])) && pos == k + 1 && lineno == old(lineno) + (k + 1 - old(pos)))
        && (k == |lines| ==>
              r == Err(StopIteration) && pos == |lines| && lineno == old(lineno) + (k - old(pos)) + 1)
      ensures skipBlankLines == old(skipBlankLines) && nextProc == old(nextProc)
      ensures expandErrorbar == old(expandErrorbar)
    {
      ghost var start := pos;
      while true
        invariant Valid() && start <= pos
        invariant NextMatch(lines, pos, skipBlankLines, pred) == NextMatch(lines, start, skipBlankLines, pred)
        invariant lineno == old(lineno) + (pos - start)
        invariant skipBlankLines == old(skipBlankLines) && nextProc == old(nextProc)
        invariant expandErrorbar == old(expandErrorbar)
        decreases |lines| - pos
      {
        MatchViaKept(lines, pos, skipBlankLines, pred);
        var line := NextLine();
        if line.Err? {
          return Err(line.error);
        }
        if pred(line.value) {
          return Ok(line.value);
        }
      }
    }

    /** `set_options`: `skip_blank_lines` sets the flag; any other name
        raises (a string exception, a TypeError), `expand_errorbar` only
        after switching the errorbar hook. */
    method SetOptions(opts: seq<(string, Value)>) returns (r: Result<()>)
      modifies this
      ensures var k := FirstBadOption(opts);
        && (r.Ok? <==> k == |opts|)
        && (r.Err? ==> r.error == TypeError)
        && skipBlankLines == (if k > 0 then opts[k - 1].1 else old(skipBlankLines))
        && expandErrorbar == (if k < |opts| && opts[k].0 == "expand_errorbar" then Truthy(opts[k].1)
                              else old(expandErrorbar))
      ensures pos == old(pos) && lineno == old(lineno) && nextProc == old(nextProc)
    {
      var i := 0;
      while i < |opts|
        invariant 0 <= i <= |opts|
        invariant forall j :: 0 <= j < i ==> opts[j].0 == "skip_blank_lines"
        invariant skipBlankLines == (if i > 0 then opts[i - 1].1 else old(skipBlankLines))
        invariant expandErrorbar == old(expandErrorbar)
        invariant pos == old(pos) && lineno == old(lineno) && nextProc == old(nextProc)
      {
        var (o, v) := opts[i];
        if o == "expand_errorbar" {
          expandErrorbar := Truthy(v);
        }
        if o == "skip_blank_lines" {
          skipBlankLines := v;
        } else {
          FirstBadOptionAt(opts, i);
          return Err(TypeError);
        }
        i := i + 1;
      }
      FirstBadOptionAt(opts, i);
      return Ok(());
    }
  }

  /** How the next match relates to the next line handed out: none when
      no line is left, that line when its text matches, and otherwise the
      next match after it. */
  lemma {:induction false} MatchViaKept(lines: seq<string>, from: nat, skip: Value, pred: string -> bool)
    requires from <= |lines|
    ensures var k := NextKept(lines, from, skip);
      && (k == |lines| ==> NextMatch(lines, from, skip, pred) == |lines|)
      && (k < |lines| && pred(LineText(lines[k])) ==> NextMatch(lines, from, skip, pred) == k)
      && (k < |lines| && !pred(LineText(lines[k])) ==>
            NextMatch(lines, from, skip, pred) == NextMatch(lines, k + 1, skip, pred))
    decreases |lines| - from
  {
    if from < |lines| && !Kept(lines[from], skip) {
      MatchViaKept(lines, from + 1, skip, pred);
    }
  }

  lemma FirstBadOptionAt(opts: seq<(string, Value)>, i: nat)
    requires i <= |opts|
    requires forall j :: 0 <= j < i ==> opts[j].0 == "skip_blank_lines"
    requires i < |opts| ==> opts[i].0 != "skip_blank_lines"
    ensures FirstBadOption(opts) == i
  {
    if i > 0 {
      FirstBadOptionAt(opts[1..], i - 1);
    }
  }

  /** `text_input(fname, **opts)`: a truthy `superize` option is consumed
      (it only selects the pushback wrapper for the file); every other
      option goes through `set_options`, whose failure aborts the
      construction; `lineno` is reset afterwards. */
  method Open(input: seq<string>, opts: seq<(string, Value)>) returns (r: Result<TextInput>)
    requires forall i, j :: 0 <= i < j < |opts| ==> opts[i].0 != opts[j].0
    ensures r.Ok? <==> forall i :: 0 <= i < |opts| ==>
      opts[i].0 == "skip_blank_lines" || (opts[i].0 == "superize" && Truthy(opts[i].1))
    ensures r.Err? ==> r.error == TypeError
    ensures r.Ok? ==> fresh(r.value) && r.value.Valid() && r.value.lines == input
    ensures r.Ok? ==> r.value.pos == 0 && r.value.lineno == 0 && r.value.nextProc == NextLineProc
    ensures r.Ok? ==> !r.value.expandErrorbar
    ensures r.Ok? ==> forall i :: 0 <= i < |opts| && opts[i].0 == "skip_blank_lines" ==>
      r.value.skipBlankLines == opts[i].1
    ensures r.Ok? && (forall i :: 0 <= i < |opts| ==> opts[i].0 != "skip_blank_lines") ==>
      r.value.skipBlankLines == PyBool(true)
  {
    var rest := RemoveSuperize(opts);
    var t := new TextInput(input);
    if |rest| > 0 {
      var applied := t.SetOptions(rest);
      if applied.Err? {
        return Err(applied.error);
      }
      var last := rest[|rest| - 1];
      assert last in rest;
      assert t.skipBlankLines == last.1;
      forall i | 0 <= i < |opts| && opts[i].0 == "skip_blank_lines"
        ensures t.skipBlankLines == opts[i].1
      {
        var j :| 0 <= j < |opts| && opts[j] == last;
        assert i == j;
      }
    } else {
      assert forall i :: 0 <= i < |opts| ==> opts[i].0 != "skip_blank_lines";
    }
    FirstBadOptionAt(rest, FirstBadOption(rest));
    t.lineno := 0;
    return Ok(t);
  }

  /** The options without a truthy `superize`. */
  function RemoveSuperize(opts: seq<(string, Value)>): (r: seq<(string, Value)>)
    ensures forall p :: p in r <==> p in opts && !(p.0 == "superize" && Truthy(p.1))
  {
    if |opts| == 0 then []
    else if opts[0].0 == "superize" && Truthy(opts[0].1) then RemoveSuperize(opts[1..])
    else [opts[0]] + RemoveSuperize(opts[1..])
  }
}
