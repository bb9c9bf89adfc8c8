/** Layered parameter lookup.  A Parameters object holds its own entries
    (the keyword arguments it was built with, plus everything assigned to
    it later) and a list of supplied dicts.  A key is looked up in the own
    entries first and then in the supplied dicts from left to right; in the
    skip-None mode a scope whose value is None is passed over.  Writes only
    ever go to the own entries. */
module ParamsFlat {
  import opened Wrappers
  import opened PyValue

  type Scope = map<string, Value>

  /** The option names the constructor consumes and removes from the own
      entries. */
  const Reserved: set<string> := {"_kwparam_", "_userparam_", "_no_null_", "_flatten_"}

  /** Whether a scope answers for `key`: it has the key, and in the skip-None
      mode its value is not None. */
  predicate Answers(scope: Scope, key: string, noNull: bool) {
    key in scope && (noNull ==> scope[key] != PyNone)
  }

  /** The value of `key` in the first scope that answers for it. */
  function Lookup(scopes: seq<Scope>, key: string, noNull: bool): (r: Option<Value>)
    ensures r.None? <==> forall i :: 0 <= i < |scopes| ==> !Answers(scopes[i], key, noNull)
    ensures r.Some? ==>
      (exists i :: 0 <= i < |scopes| && Answers(scopes[i], key, noNull) && scopes[i][key] == r.value
         && forall j :: 0 <= j < i ==> !Answers(scopes[j], key, noNull))
    ensures r.Some? && noNull ==> r.value != PyNone
    decreases |scopes|
  {
    if |scopes| == 0 then None
    else if Answers(scopes[0], key, noNull) then Some(scopes[0][key])
    else
      var rest := Lookup(scopes[1..], key, noNull);
      assert forall i :: 1 <= i < |scopes| ==> scopes[i] == scopes[1..][i - 1];
      if rest.Some? then
        ghost var i :| 0 <= i < |scopes[1..]| && Answers(scopes[1..][i], key, noNull)
          && scopes[1..][i][key] == rest.value
          && forall j :: 0 <= j < i ==> !Answers(scopes[1..][j], key, noNull);
        assert Answers(scopes[i + 1], key, noNull) && scopes[i + 1][key] == rest.value;
        rest
      else rest
  }

  /** A value that is not None is found the same way in both modes: the
      first scope holding the key holds it, and no earlier scope has the key
      at all. */
  lemma {:induction false} SkipNoneAgrees(scopes: seq<Scope>, key: string, v: Value)
    requires Lookup(scopes, key, false) == Some(v) && v != PyNone
    ensures Lookup(scopes, key, true) == Some(v)
    decreases |scopes|
  {
    if key !in scopes[0] {
      SkipNoneAgrees(scopes[1..], key, v);
    }
  }

  /** An entry of the first scope answers every lookup of its key. */
  lemma FirstScopeWins(scopes: seq<Scope>, key: string, noNull: bool)
    requires |scopes| > 0 && Answers(scopes[0], key, noNull)
    ensures Lookup(scopes, key, noNull) == Some(scopes[0][key])
  {
  }

  /** With two scopes, the second is asked only when the first does not
      answer. */
  lemma TwoScopes(a: Scope, b: Scope, key: string, noNull: bool)
    ensures Lookup([a, b], key, noNull) ==
      if Answers(a, key, noNull) then Some(a[key])
      else if Answers(b, key, noNull) then Some(b[key])
      else None
  {
    assert [a, b][1..] == [b] && [b][1..] == [];
  }

  /** The supplied dicts that are not None, in order. */
  function Present(dicts: seq<Option<Scope>>): (r: seq<Scope>)
    ensures |r| <= |dicts|
    ensures forall d :: d in r <==> Some(d) in dicts
  {
    if |dicts| == 0 then []
    else if dicts[0].None? then Present(dicts[1..])
    else [dicts[0].value] + Present(dicts[1..])
  }

  /** The value of an option, or its default when absent (`dict.get`). */
  function Get(opts: map<string, Value>, key: string, default: Value): Value {
    if key in opts then opts[key] else default
  }

  /** The instance attributes __init__ writes straight into `__dict__`. */
  const InstanceAttributes: set<string> := {"_list_", "_kwparam_", "_userparam_", "_no_null_"}

  /** The members defined in the class body: its methods and the nested
      proxy class. */
  const ClassAttributes: set<string> :=
    {"_self_weakref_", "_copy_", "_update_", "_create_"}

  /** The public methods inherited from `dict` (Python 2).  The loop at the
      top of __init__ that is meant to hide them scans the instance
      `__dict__`, which does not hold them, so they stay visible. */
  const DictMethods: set<string> :=
    {"clear", "copy", "fromkeys", "get", "has_key", "items", "iteritems", "iterkeys",
     "itervalues", "keys", "pop", "popitem", "setdefault", "update", "values",
     "viewitems", "viewkeys", "viewvalues"}

  /** The names Python's ordinary attribute lookup finds on a Parameters
      object; only for other names is __getattr__ called. */
  const OrdinaryAttributes: set<string> := InstanceAttributes + ClassAttributes + DictMethods

  /** The outcome of `p.key`: a parameter value found by __getattr__, or an
      attribute the ordinary lookup finds first (named by the key). */
  datatype Attribute = Param(value: Value) | Ordinary(name: string)

  class Parameters {
    /** The object's own entries: the overriding layer. */
    var own: Scope
    /** The supplied dicts, None dropped: `_list_` after its first element,
        which is a proxy to the own entries. */
    var supplied: seq<Scope>
    var noNull: bool
    var kwparam: Value
    var userparam: Value

    /** `_list_`: the search order. */
    function Scopes(): seq<Scope>
      reads this
    {
      [own] + supplied
    }

    /** __init__ (non-flatten path): the keyword options become the own
        entries, without the reserved names; the positional dicts, None
        dropped, are searched after them; the reserved options default to
        "_opts_", "_p" and False. */
    constructor (overrides: seq<Option<Scope>>, opts: map<string, Value>)
      requires !(("_flatten_" in opts) && Truthy(opts["_flatten_"]))
      ensures own == opts - Reserved
      ensures supplied == Present(overrides)
      ensures kwparam == Get(opts, "_kwparam_", PyStr("_opts_"))
      ensures userparam == Get(opts, "_userparam_", PyStr("_p"))
      ensures noNull == Truthy(Get(opts, "_no_null_", PyNone))
    {
      own := opts - Reserved;
      supplied := Present(overrides);
      kwparam := Get(opts, "_kwparam_", PyStr("_opts_"));
      userparam := Get(opts, "_userparam_", PyStr("_p"));
      noNull := Truthy(Get(opts, "_no_null_", PyNone));
    }

    /** The loop shared by the lookups: scans `_list_` in order and stops at
        the first scope that answers for the key. */
    method Find(key: string) returns (r: Option<Value>)
      ensures r == Lookup(Scopes(), key, noNull)
    {
      var scopes := [own] + supplied;
      var i := 0;
      while i < |scopes|
        invariant 0 <= i <= |scopes|
        invariant Lookup(scopes[i..], key, noNull) == Lookup(scopes, key, noNull)
      {
        var ov := scopes[i];
        if key in ov && (noNull ==> ov[key] != PyNone) {
          return Some(ov[key]);
        }
        assert scopes[i..][1..] == scopes[i + 1..];
        i := i + 1;
      }
      return None;
    }

    /** __getitem__: the first answering scope's value, else KeyError. */
    method GetItem(key: string) returns (r: Result<Value>)
      ensures Lookup(Scopes(), key, noNull).Some? ==> r == Ok(Lookup(Scopes(), key, noNull).value)
      ensures Lookup(Scopes(), key, noNull).None? ==> r == Err(KeyError)
    {
      var found := Find(key);
      if found.Some? {
        return Ok(found.value);
      }
      return Err(KeyError);
    }

    /** Attribute access `p.key`.  Python first tries the ordinary lookup
        (instance attributes, class members, dict methods); only when that
        fails does __getattr__ search the scopes as __getitem__ does, and a
        name no scope answers for falls back to the ordinary lookup, which
        raises AttributeError. */
    method GetAttr(key: string) returns (r: Result<Attribute>)
      ensures key in OrdinaryAttributes ==> r == Ok(Ordinary(key))
      ensures key !in OrdinaryAttributes && Lookup(Scopes(), key, noNull).Some? ==>
        r == Ok(Param(Lookup(Scopes(), key, noNull).value))
      ensures key !in OrdinaryAttributes && Lookup(Scopes(), key, noNull).None? ==>
        r == Err(AttributeError)
    {
      if key in OrdinaryAttributes {
        return Ok(Ordinary(key));
      }
      var found := Find(key);
      if found.Some? {
        return Ok(Param(found.value));
      }
      return Err(AttributeError);
    }

    /** __contains__: true exactly when __getitem__ succeeds. */
    method Contains(key: string) returns (b: bool)
      ensures b <==> Lookup(Scopes(), key, noNull).Some?
    {
      var found := Find(key);
      b := found.Some?;
    }

    /** __setattr__: the assignment lands in the own entries, which are
        searched first. */
    method SetAttr(key: string, value: Value)
      modifies this
      ensures own == old(own)[key := value]
      ensures supplied == old(supplied) && noNull == old(noNull)
      ensures kwparam == old(kwparam) && userparam == old(userparam)
      ensures Answers(own, key, noNull) ==> Lookup(Scopes(), key, noNull) == Some(value)
    {
      own := own[key := value];
    }

    /** _update_: the own entries are updated from srcdict (its entries win);
        the supplied dicts are untouched. */
    method Update(srcdict: Scope)
      modifies this
      ensures own == old(own) + srcdict
      ensures supplied == old(supplied) && noNull == old(noNull)
      ensures kwparam == old(kwparam) && userparam == old(userparam)
    {
      own := own + srcdict;
    }

    /** _copy_: a new object built from the same supplied dicts, with the
        own entries passed as keyword options next to the three explicit
        reserved options.  An own entry under one of those three names
        duplicates a keyword argument, which Python rejects with TypeError;
        an own `_flatten_` entry is consumed as an option and dropped. */
    method Copy() returns (r: Result<Parameters>)
      requires !(("_flatten_" in own) && Truthy(own["_flatten_"]))
      ensures r.Err? <==> ("_no_null_" in own || "_kwparam_" in own || "_userparam_" in own)
      ensures r.Err? ==> r.error == TypeError
      ensures r.Ok? ==> fresh(r.value)
      ensures r.Ok? ==> r.value.own == own - {"_flatten_"} && r.value.supplied == supplied
      ensures r.Ok? ==> r.value.noNull == noNull && r.value.kwparam == kwparam && r.value.userparam == userparam
    {
      if "_no_null_" in own || "_kwparam_" in own || "_userparam_" in own {
        return Err(TypeError);
      }
      var opts := own["_no_null_" := PyBool(noNull)]["_kwparam_" := kwparam]["_userparam_" := userparam];
      var overrides := SomeAll(supplied);
      var p := new Parameters(overrides, opts);
      assert opts - Reserved == own - {"_flatten_"};
      return Ok(p);
    }

    /** __add__: a copy whose own entries are then updated from srcdict; the
        original object is left as it was. */
    method Add(srcdict: Scope) returns (r: Result<Parameters>)
      requires !(("_flatten_" in own) && Truthy(own["_flatten_"]))
      ensures r.Err? <==> ("_no_null_" in own || "_kwparam_" in own || "_userparam_" in own)
      ensures r.Ok? ==> fresh(r.value)
      ensures r.Err? ==> r.error == TypeError
      ensures r.Ok? ==> r.value.own == (own - {"_flatten_"}) + srcdict && r.value.supplied == supplied
      ensures r.Ok? ==> r.value.noNull == noNull && r.value.kwparam == kwparam && r.value.userparam == userparam
    {
      r := Copy();
      if r.Ok? {
        r.value.Update(srcdict);
      }
    }
  }

  /** Wraps every dict as present, so that Present gives them back. */
  function SomeAll(dicts: seq<Scope>): (r: seq<Option<Scope>>)
    ensures Present(r) == dicts
  {
    if |dicts| == 0 then []
    else
      [Some(dicts[0])] + SomeAll(dicts[1..])
  }

  /** The example of params_flat_test: defaults for nbasis, npart and
      deltau, nbasis overridden by keyword, then deltau assigned. */
  method Example() returns (nbasis: Result<Attribute>, npart: Result<Attribute>,
                            deltau: Result<Attribute>, newDeltau: Result<Attribute>)
    ensures nbasis == Ok(Param(PyInt(332))) && npart == Ok(Param(PyInt(37)))
    ensures deltau == Ok(Param(PyFloat(0.025))) && newDeltau == Ok(Param(PyFloat(0.01)))
  {
    var p := ExampleObject();
    ExampleNamesNotOrdinary();
    TwoScopes(ExampleOpts, ExampleDefaults, "nbasis", false);
    nbasis := p.GetAttr("nbasis");
    TwoScopes(ExampleOpts, ExampleDefaults, "npart", false);
    npart := p.GetAttr("npart");
    TwoScopes(ExampleOpts, ExampleDefaults, "deltau", false);
    deltau := p.GetAttr("deltau");
    p.SetAttr("deltau", PyFloat(0.01));
    newDeltau := p.GetAttr("deltau");
  }

  /** The parameter names of the example are not attributes of the
      object, so attribute access reaches __getattr__ for them. */
  lemma ExampleNamesNotOrdinary()
    ensures "nbasis" !in OrdinaryAttributes
    ensures "npart" !in OrdinaryAttributes
    ensures "deltau" !in OrdinaryAttributes
  {
    PublicNotOrdinary("nbasis");
    PublicNotOrdinary("npart");
    PublicNotOrdinary("deltau");
  }

  /** A name without a leading underscore is an attribute only when it
      names a dict method. */
  lemma PublicNotOrdinary(name: string)
    requires |name| > 0 && name[0] != '_' && name !in DictMethods
    ensures name !in OrdinaryAttributes
  {
    assert forall a :: a in InstanceAttributes + ClassAttributes ==> a[0] == '_';
  }

  /** `Parameters(dict(keys=1))`: the parameter `keys` is found by item
      access, but attribute access finds the inherited dict method first. */
  method ShadowedByDictMethod() returns (item: Result<Value>, attr: Result<Attribute>)
    ensures item == Ok(PyInt(1))
    ensures attr == Ok(Ordinary("keys"))
  {
    var d: Scope := map["keys" := PyInt(1)];
    var p := new Parameters([Some(d)], map[]);
    assert Present([Some(d)]) == [d] + Present([]);
    TwoScopes(map[], d, "keys", false);
    item := p.GetItem("keys");
    attr := p.GetAttr("keys");
  }

  const ExampleDefaults: Scope := map["nbasis" := PyInt(320), "npart" := PyInt(37), "deltau" := PyFloat(0.025)]
  const ExampleOpts: Scope := map["nbasis" := PyInt(332)]

  /** `Parameters(defaults, nbasis=332)`. */
  method ExampleObject() returns (p: Parameters)
    ensures fresh(p) && p.Scopes() == [ExampleOpts, ExampleDefaults] && !p.noNull
  {
    p := new Parameters([Some(ExampleDefaults)], ExampleOpts);
    assert Present([Some(ExampleDefaults)]) == [ExampleDefaults] + Present([]);
    assert ExampleOpts - Reserved == ExampleOpts;
  }
}
