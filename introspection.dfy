/** `name_rlookup`: the names in a namespace, a dictionary or an object's
    attributes, whose values have the type of a given value and equal it. */
module Introspection {
  import opened Wrappers
  import opened PyValue

  /** A namespace as `name_rlookup` sees it: the dictionary's keys in
      listing order and its items, or the names `dir()` lists and the
      attributes that can be fetched; a listed name missing from the map
      is one whose lookup raises. */
  datatype Namespace = Namespace(
    keys: seq<string>, items: map<string, Value>,
    dirNames: seq<string>, attrs: map<string, Value>)

  /** `rx_match`: a pattern string for `re.search`, or an object with a
      `search` method; either is given by the names it finds a match in. */
  datatype Rx = RxString(pattern: string, found: string -> bool) | RxObject(search: string -> bool)

  function Names(ns: Namespace, lookup: string): seq<string> {
    if lookup == "dict" then ns.keys else ns.dirNames
  }

  function Table(ns: Namespace, lookup: string): map<string, Value> {
    if lookup == "dict" then ns.items else ns.attrs
  }

  predicate StartsWith(n: string, prefix: string) {
    |prefix| <= |n| && n[..|prefix|] == prefix
  }

  function KeepIf(names: seq<string>, keep: string -> bool): (r: seq<string>)
    decreases |names|
  {
    if |names| == 0 then []
    else (if keep(names[0]) then [names[0]] else []) + KeepIf(names[1..], keep)
  }

  lemma {:induction false} KeepIfMembers(names: seq<string>, keep: string -> bool)
    ensures forall n :: n in KeepIf(names, keep) <==> n in names && keep(n)
    ensures IsSubsequence(KeepIf(names, keep), names)
    decreases |names|
  {
    if |names| > 0 {
      KeepIfMembers(names[1..], keep);
      assert names == [names[0]] + names[1..];
      var rest := KeepIf(names[1..], keep);
      if keep(names[0]) {
        assert ([names[0]] + rest)[1..] == rest;
      } else {
        assert [] + rest == rest;
        SubsequenceDrop(rest, names);
      }
    }
  }

  /** `a` is `b` with some elements left out. */
  predicate IsSubsequence(a: seq<string>, b: seq<string>)
    decreases |b|
  {
    if |a| == 0 then true
    else if |b| == 0 then false
    else (a[0] == b[0] && IsSubsequence(a[1..], b[1..])) || IsSubsequence(a, b[1..])
  }

  lemma SubsequenceDrop(a: seq<string>, b: seq<string>)
    requires |b| > 0 && IsSubsequence(a, b[1..])
    ensures IsSubsequence(a, b)
  {
  }

  /** Whether `rx_match` finds a match in name `n`. */
  predicate Searches(rx: Rx, n: string) {
    match rx
    case RxString(_, found) => found(n)
    case RxObject(search) => search(n)
  }

  /** The names filter: `prefix` first, otherwise `rx_match`, otherwise all
      names, with the module's missing `re` import supplied. */
  function FilterNames(names: seq<string>, prefix: Option<string>, rx: Option<Rx>): seq<string>
  {
    if prefix.Some? then KeepIf(names, n => StartsWith(n, prefix.value))
    else if rx.Some? then
      match rx.value
      case RxString(_, found) => KeepIf(names, found)
      case RxObject(search) => KeepIf(names, search)
    else names
  }

  /** The filtered names are the listed names that pass the filter in
      force, in their order; a prefix makes `rx_match` irrelevant. */
  lemma FilterNamesSpec(names: seq<string>, prefix: Option<string>, rx: Option<Rx>)
    ensures IsSubsequence(FilterNames(names, prefix, rx), names)
    ensures prefix.Some? ==> forall n ::
      (n in FilterNames(names, prefix, rx) <==> n in names && StartsWith(n, prefix.value))
    ensures prefix.Some? ==> FilterNames(names, prefix, rx) == FilterNames(names, prefix, None)
    ensures prefix.None? && rx.Some? ==> forall n ::
      (n in FilterNames(names, prefix, rx) <==> n in names && Searches(rx.value, n))
    ensures prefix.None? && rx.None? ==> FilterNames(names, prefix, rx) == names
  {
    if prefix.Some? {
      KeepIfMembers(names, n => StartsWith(n, prefix.value));
    } else if rx.Some? {
      match rx.value
      case RxString(_, found) => KeepIfMembers(names, found);
      case RxObject(search) => KeepIfMembers(names, search);
    } else {
      SubsequenceRefl(names);
    }
  }

  lemma {:induction false} SubsequenceRefl(s: seq<string>)
    ensures IsSubsequence(s, s)
    decreases |s|
  {
    if |s| > 0 {
      SubsequenceRefl(s[1..]);
    }
  }

  /** As written, the module never imports `re`, so a pattern string fails
      as soon as there is a name to search. */
  function FilterNamesAsWritten(names: seq<string>, prefix: Option<string>, rx: Option<Rx>): (r: Result<seq<string>>)
    ensures r.Err? <==> prefix.None? && rx.Some? && rx.value.RxString? && |names| > 0
    ensures r.Err? ==> r.error == NameError
    ensures r.Ok? ==> r.value == FilterNames(names, prefix, rx)
  {
    if prefix.None? && rx.Some? && rx.value.RxString? && |names| > 0 then Err(NameError)
    else Ok(FilterNames(names, prefix, rx))
  }

  /** The first name listed is then never searched. */
  lemma PatternStringFails(names: seq<string>, pattern: string, found: string -> bool)
    requires |names| > 0 && found(names[0])
    ensures FilterNamesAsWritten(names, None, Some(RxString(pattern, found))) == Err(NameError)
    ensures names[0] in FilterNames(names, None, Some(RxString(pattern, found)))
  {
    KeepIfMembers(names, found);
  }

  /** `type(v) == type(val) and v == val`. */
  predicate Matching(v: Value, val: Value) {
    TypeOf(v) == TypeOf(val) && v == val
  }

  /** The names, among `names`, whose lookup in `table` succeeds with a
      matching value. */
  function Matches(val: Value, table: map<string, Value>, names: seq<string>): seq<string>
    decreases |names|
  {
    if |names| == 0 then []
    else
      var n := names[0];
      (if n in table && Matching(table[n], val) then [n] else []) + Matches(val, table, names[1..])
  }

  lemma {:induction false} MatchesSpec(val: Value, table: map<string, Value>, names: seq<string>)
    ensures forall n :: n in Matches(val, table, names) <==> n in names && n in table && table[n] == val
    ensures IsSubsequence(Matches(val, table, names), names)
    decreases |names|
  {
    if |names| > 0 {
      MatchesSpec(val, table, names[1..]);
      var n := names[0];
      var rest := Matches(val, table, names[1..]);
      if n in table && Matching(table[n], val) {
        assert ([n] + rest)[1..] == rest;
      } else {
        assert [] + rest == rest;
        SubsequenceDrop(rest, names);
      }
    }
  }

  lemma MatchesStep(val: Value, table: map<string, Value>, names: seq<string>, i: nat)
    requires i < |names|
    ensures forall acc: seq<string> ::
      acc + Matches(val, table, names[i..]) ==
      (if names[i] in table && Matching(table[names[i]], val) then acc + [names[i]] else acc)
        + Matches(val, table, names[i + 1..])
  {
    assert names[i..][1..] == names[i + 1..];
  }

  /** `name_rlookup(val, namespace, prefix, rx_match, lookup)`: the loop
      appends each filtered name whose lookup succeeds with a matching
      value, and skips names whose lookup raises. */
  method NameRLookup(val: Value, ns: Namespace, prefix: Option<string>, rx: Option<Rx>, lookup: string)
    returns (namesMatch: seq<string>)
    ensures namesMatch == Matches(val, Table(ns, lookup), FilterNames(Names(ns, lookup), prefix, rx))
  {
    var namesFilt := FilterNames(Names(ns, lookup), prefix, rx);
    var table := Table(ns, lookup);
    namesMatch := [];
    var i := 0;
    while i < |namesFilt|
      invariant 0 <= i <= |namesFilt|
      invariant namesMatch + Matches(val, table, namesFilt[i..]) == Matches(val, table, namesFilt)
    {
      var n := namesFilt[i];
      MatchesStep(val, table, namesFilt, i);
      if n !in table {
        i := i + 1;
        continue;
      }
      var v := table[n];
      if Matching(v, val) {
        namesMatch := namesMatch + [n];
      }
      i := i + 1;
    }
    assert namesFilt[i..] == [];
  }

  /** What the lookup returns: the filtered names, in their order, whose
      lookup succeeds with a value equal to `val`. */
  lemma NameRLookupSpec(val: Value, ns: Namespace, prefix: Option<string>, rx: Option<Rx>, lookup: string)
    ensures var filt := FilterNames(Names(ns, lookup), prefix, rx);
      var r := Matches(val, Table(ns, lookup), filt);
      IsSubsequence(r, filt) && IsSubsequence(filt, Names(ns, lookup))
      && forall n :: n in r <==> n in filt && n in Table(ns, lookup) && Table(ns, lookup)[n] == val
  {
    FilterNamesSpec(Names(ns, lookup), prefix, rx);
    MatchesSpec(val, Table(ns, lookup), FilterNames(Names(ns, lookup), prefix, rx));
  }
}
