/** `ifelse(cond, trueval, *args)`: a chained conditional whose extra
    arguments are read as (condition, value) pairs, with an optional
    trailing default. */
module Sugar {
  import opened PyValue

  /** What the pairs in `args` select: the value after the first truthy
      condition, else the trailing default, else None. */
  function Chain(args: seq<Value>): Value
  {
    if |args| >= 2 then (if Truthy(args[0]) then args[1] else Chain(args[2..]))
    else if |args| == 1 then args[0]
    else PyNone
  }

  function Select(cond: Value, trueval: Value, args: seq<Value>): Value
  {
    if Truthy(cond) then trueval else Chain(args)
  }

  /** `ifelse`: the loop steps over the pairs two at a time. */
  method IfElse(cond: Value, trueval: Value, args: seq<Value>) returns (r: Value)
    ensures Truthy(cond) ==> r == trueval
    ensures r == Select(cond, trueval, args)
  {
    if Truthy(cond) {
      return trueval;
    }
    var i := 0;
    while i + 1 < |args|
      invariant 0 <= i <= |args|
      invariant Chain(args[i..]) == Chain(args)
    {
      if Truthy(args[i]) {
        return args[i + 1];
      }
      assert args[i..][2..] == args[i + 2..];
      i := i + 2;
    }
    if i < |args| {
      return args[i];
    }
    return PyNone;
  }

  /** The first pair whose condition is truthy selects its value. */
  lemma {:induction false} ChainFirstMatch(args: seq<Value>, k: nat)
    requires 2 * k + 1 < |args| && Truthy(args[2 * k])
    requires forall m :: 0 <= m < k ==> !Truthy(args[2 * m])
    ensures Chain(args) == args[2 * k + 1]
    decreases k
  {
    if k > 0 {
      assert !Truthy(args[2 * 0]);
      forall m | 0 <= m < k - 1
        ensures !Truthy(args[2..][2 * m])
      {
        assert args[2..][2 * m] == args[2 * (m + 1)];
      }
      ChainFirstMatch(args[2..], k - 1);
    }
  }

  /** With no truthy condition, an odd number of arguments returns the last
      one and an even number returns None. */
  lemma {:induction false} ChainNoMatch(args: seq<Value>)
    requires forall m :: 0 <= 2 * m + 1 < |args| ==> !Truthy(args[2 * m])
    ensures |args| % 2 == 1 ==> Chain(args) == args[|args| - 1]
    ensures |args| % 2 == 0 ==> Chain(args) == PyNone
    decreases |args|
  {
    if |args| >= 2 {
      assert !Truthy(args[2 * 0]);
      forall m | 0 <= 2 * m + 1 < |args| - 2
        ensures !Truthy(args[2..][2 * m])
      {
        assert args[2..][2 * m] == args[2 * (m + 1)];
      }
      ChainNoMatch(args[2..]);
    }
  }

  /** Conversely, a value that the chain returns at an odd position is the
      value of a pair whose condition is truthy and preceded only by false
      conditions. */
  lemma {:induction false} ChainSelectsPair(args: seq<Value>)
    requires |args| >= 2 && Chain(args) != PyNone
    ensures (exists k :: 0 <= 2 * k + 1 < |args| && Truthy(args[2 * k]) && Chain(args) == args[2 * k + 1]
               && forall m :: 0 <= m < k ==> !Truthy(args[2 * m]))
         || (|args| % 2 == 1 && Chain(args) == args[|args| - 1])
    decreases |args|
  {
    if Truthy(args[0]) {
      assert 2 * 0 + 1 < |args| && Truthy(args[2 * 0]) && Chain(args) == args[2 * 0 + 1];
    } else if |args| - 2 >= 2 {
      var rest := args[2..];
      ChainSelectsPair(rest);
      if |rest| % 2 == 1 && Chain(rest) == rest[|rest| - 1] {
      } else {
        var k :| 0 <= 2 * k + 1 < |rest| && Truthy(rest[2 * k]) && Chain(rest) == rest[2 * k + 1]
          && forall m :: 0 <= m < k ==> !Truthy(rest[2 * m]);
        assert rest[2 * k] == args[2 * (k + 1)] && rest[2 * k + 1] == args[2 * (k + 1) + 1];
        forall m | 0 <= m < k + 1
          ensures !Truthy(args[2 * m])
        {
          if m > 0 {
            assert args[2 * m] == rest[2 * (m - 1)];
          }
        }
      }
    }
  }
}
