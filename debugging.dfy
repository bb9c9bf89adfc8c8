/** `fmtstr_find_missing_arguments`: the `%(name)` keys of a format string
    that the argument dictionary does not supply, sorted. */
module Debugging {
  import opened Wrappers
  import opened Strings

  /** The index of the first `)` of `s` at or after `from`. */
  function CloseAt(s: string, from: nat): (r: Option<nat>)
    requires from <= |s|
    ensures r.Some? ==> (from <= r.value < |s| && s[r.value] == ')'
      && forall k :: from <= k < r.value ==> s[k] != ')')
    ensures r.None? ==> forall k :: from <= k < |s| ==> s[k] != ')'
    decreases |s| - from
  {
    if from == |s| then None
    else if s[from] == ')' then Some(from)
    else CloseAt(s, from + 1)
  }

  /** The keys `re.findall("%\([^)]+\)", s)` finds, brackets stripped: the
      scan tries each start position from left to right and resumes after
      each match. */
  function Candidates(s: string): (r: seq<string>)
    ensures forall n :: n in r ==> |n| > 0 && ')' !in n
    decreases |s|
  {
    if |s| < 2 then []
    else if s[0] == '%' && s[1] == '(' && CloseAt(s, 2).Some? && CloseAt(s, 2).value > 2 then
      var j := CloseAt(s, 2).value;
      [s[2..j]] + Candidates(s[j + 1..])
    else Candidates(s[1..])
  }

  /** Text without `%` contributes no key. */
  lemma {:induction false} CandidatesPlain(t: string, rest: string)
    requires '%' !in t
    ensures Candidates(t + rest) == Candidates(rest)
    decreases |t|
  {
    if |t| > 0 {
      var s := t + rest;
      if |s| < 2 {
        assert Candidates(s) == [];
        assert rest == [] && Candidates(rest) == [];
        return;
      }
      assert t[0] in t;
      assert (t + rest)[0] == t[0];
      assert (t + rest)[1..] == t[1..] + rest;
      assert '%' !in t[1..] by {
        assert forall k :: 0 <= k < |t| - 1 ==> t[1..][k] == t[k + 1];
      }
      assert s[0] != '%';
      assert Candidates(s) == Candidates(s[1..]);
      CandidatesPlain(t[1..], rest);
      assert Candidates(s[1..]) == Candidates(rest);
    } else {
      assert t + rest == rest;
    }
  }

  /** A field `%(name)` contributes its name. */
  lemma CandidatesField(name: string, rest: string)
    requires |name| > 0 && ')' !in name
    ensures Candidates("%(" + name + ")" + rest) == [name] + Candidates(rest)
  {
    var s := "%(" + name + ")" + rest;
    var j := 2 + |name|;
    assert s[j] == ')';
    assert forall k :: 2 <= k < j ==> s[k] == name[k - 2];
    assert CloseAt(s, 2) == Some(j);
    assert s[2..j] == name;
    assert s[j + 1..] == rest;
  }

  /** `"%(" + name` with no closing bracket anywhere after it yields nothing. */
  lemma {:induction false} CandidatesUnclosed(s: string)
    requires ')' !in s
    ensures Candidates(s) == []
    decreases |s|
  {
    if |s| >= 2 {
      if s[0] == '%' && s[1] == '(' {
        assert CloseAt(s, 2).None? by {
          assert forall k :: 2 <= k < |s| ==> s[k] != ')';
        }
      }
      CandidatesUnclosed(s[1..]);
    }
  }

  predicate Distinct(s: seq<string>) {
    forall i, j :: 0 <= i < j < |s| ==> s[i] != s[j]
  }

  lemma {:induction false} DistinctCount(s: seq<string>, x: string)
    requires Distinct(s)
    ensures multiset(s)[x] <= 1
    decreases |s|
  {
    if |s| > 0 {
      var init := s[..|s| - 1];
      assert s == init + [s[|s| - 1]];
      DistinctCount(init, x);
      if x == s[|s| - 1] {
        assert x !in init;
      }
    }
  }

  /** A sorted list of distinct keys is strictly ascending. */
  lemma SortedStrict(r: seq<string>, keys: seq<string>)
    requires Sorted(r) && multiset(r) == multiset(keys) && Distinct(keys)
    ensures forall i, j :: 0 <= i < j < |r| ==> Less(r[i], r[j])
  {
    forall i, j | 0 <= i < j < |r|
      ensures Less(r[i], r[j])
    {
      if r[i] == r[j] {
        assert r == r[..j] + r[j..];
        assert r[i] in multiset(r[..j]) && r[j] in multiset(r[j..]);
        DistinctCount(keys, r[i]);
        assert false;
      }
    }
  }

  /** The counting loop: `missing[kw]` is how often the key `kw`, absent
      from `args`, occurs among `names`. */
  method CountMissing(names: seq<string>, args: set<string>) returns (missing: map<string, nat>)
    ensures forall n :: n in missing <==> n in names && n !in args
    ensures forall n :: n in missing ==> missing[n] == multiset(names)[n]
  {
    missing := map[];
    var i := 0;
    while i < |names|
      invariant 0 <= i <= |names|
      invariant forall n :: n in missing <==> n in names[..i] && n !in args
      invariant forall n :: n in missing ==> missing[n] == multiset(names[..i])[n]
    {
      var kw := names[i];
      assert names[..i + 1] == names[..i] + [kw];
      if kw !in args {
        missing := missing[kw := (if kw in missing then missing[kw] else 0) + 1];
      }
      i := i + 1;
    }
    assert names[..i] == names;
  }

  /** `missing.keys()`: the keys once each, in no particular order. */
  method KeyList(m: map<string, nat>) returns (keys: seq<string>)
    ensures Distinct(keys)
    ensures forall k :: k in keys <==> k in m
  {
    keys := [];
    var rest := m.Keys;
    while rest != {}
      invariant rest <= m.Keys
      invariant forall k :: k in keys ==> k !in rest
      invariant forall k :: k in m <==> k in rest || k in keys
      invariant Distinct(keys)
      decreases |rest|
    {
      var k :| k in rest;
      keys := keys + [k];
      rest := rest - {k};
    }
  }

  /** `fmtstr_find_missing_arguments(fmtstr, args)`, with `args` given by
      its set of keys: the missing keys are counted in a dictionary, whose
      keys are then listed and sorted. */
  method FindMissingArguments(fmtstr: string, args: set<string>) returns (r: seq<string>)
    ensures forall i, j :: 0 <= i < j < |r| ==> Less(r[i], r[j])
    ensures forall n :: n in r <==> n in Candidates(fmtstr) && n !in args
  {
    var missing := CountMissing(Candidates(fmtstr), args);
    var keys := KeyList(missing);
    r := Sort(keys);
    SortedStrict(r, keys);
    assert forall n :: n in r <==> n in multiset(keys);
  }

  /** Two fields separated by plain text: both names, in order. */
  lemma TwoFields(n1: string, plain: string, n2: string, tail: string)
    requires |n1| > 0 && ')' !in n1 && |n2| > 0 && ')' !in n2
    requires '%' !in plain && ')' !in tail
    ensures Candidates("%(" + n1 + ")" + plain + "%(" + n2 + ")" + tail) == [n1, n2]
  {
    var second := "%(" + n2 + ")" + tail;
    assert Candidates(plain + second) == [n2] by {
      CandidatesPlain(plain, second);
      CandidatesField(n2, tail);
      CandidatesUnclosed(tail);
    }
    assert Candidates("%(" + n1 + ")" + (plain + second)) == [n1] + Candidates(plain + second) by {
      CandidatesField(n1, plain + second);
    }
    Regroup(n1, plain, n2, tail);
  }

  lemma Regroup(n1: string, plain: string, n2: string, tail: string)
    ensures "%(" + n1 + ")" + plain + "%(" + n2 + ")" + tail == "%(" + n1 + ")" + (plain + ("%(" + n2 + ")" + tail))
  {
  }
}
