/** Mixed-radix numbering of the combinations of several choices, the
    first choice varying fastest: the order in which `path_search` tries
    candidates and `all_combinations` yields tuples. */
module MixedRadix {
  import opened Arith

  function Product(lens: seq<nat>): nat {
    if |lens| == 0 then 1 else lens[0] * Product(lens[1..])
  }

  predicate AllPositive(lens: seq<nat>) {
    forall k :: 0 <= k < |lens| ==> lens[k] > 0
  }

  /** `idx` written in mixed radix with digit `k` below `lens[k]`, the first
      digit varying fastest. */
  function Radix(lens: seq<nat>, idx: nat): (c: seq<nat>)
    requires AllPositive(lens)
    ensures |c| == |lens| && forall k :: 0 <= k < |lens| ==> c[k] < lens[k]
  {
    if |lens| == 0 then []
    else
      var rest := Radix(lens[1..], idx / lens[0]);
      assert forall k :: 1 <= k < |lens| ==> lens[k] == lens[1..][k - 1];
      [idx % lens[0]] + rest
  }

  /** The number whose mixed-radix digits are `c`. */
  function Encode(lens: seq<nat>, c: seq<nat>): nat
    requires |c| == |lens|
  {
    if |lens| == 0 then 0 else c[0] + lens[0] * Encode(lens[1..], c[1..])
  }

  lemma {:induction false} ProductPositive(lens: seq<nat>)
    ensures Product(lens) > 0 <==> AllPositive(lens)
    decreases |lens|
  {
    if |lens| > 0 {
      ProductPositive(lens[1..]);
      assert AllPositive(lens) <==> lens[0] > 0 && AllPositive(lens[1..]) by {
        assert forall k :: 1 <= k < |lens| ==> lens[k] == lens[1..][k - 1];
      }
      if lens[0] > 0 && Product(lens[1..]) > 0 {
        MulAtLeast(lens[0], Product(lens[1..]));
      }
    }
  }

  /** Every index below the product is the encoding of its digits. */
  lemma {:induction false} EncodeRadix(lens: seq<nat>, idx: nat)
    requires AllPositive(lens) && idx < Product(lens)
    ensures Encode(lens, Radix(lens, idx)) == idx
    decreases |lens|
  {
    if |lens| > 0 {
      var q := idx / lens[0];
      DivBelow(idx, lens[0], Product(lens[1..]));
      assert AllPositive(lens[1..]) by {
        assert forall k :: 1 <= k < |lens| ==> lens[k] == lens[1..][k - 1];
      }
      EncodeRadix(lens[1..], q);
      assert Radix(lens, idx)[1..] == Radix(lens[1..], q);
    }
  }

  /** Every choice of digits is the digits of exactly one index below the
      product: every combination of parts is some candidate. */
  lemma {:induction false} RadixEncode(lens: seq<nat>, c: seq<nat>)
    requires |c| == |lens| && forall k :: 0 <= k < |lens| ==> c[k] < lens[k]
    ensures AllPositive(lens)
    ensures Encode(lens, c) < Product(lens)
    ensures Radix(lens, Encode(lens, c)) == c
    decreases |lens|
  {
    if |lens| > 0 {
      RadixEncode(lens[1..], c[1..]);
      var e := Encode(lens[1..], c[1..]);
      DivModUnique(Encode(lens, c), lens[0], e, c[0]);
      MulBelow(e, lens[0], Product(lens[1..]));
      assert c == [c[0]] + c[1..];
    }
  }

  /** The prefix products: the stride of part `d`. */
  lemma {:induction false} ProductSnoc(lens: seq<nat>, d: nat)
    requires d < |lens|
    ensures Product(lens[..d + 1]) == Product(lens[..d]) * lens[d]
    decreases d
  {
    if d > 0 {
      ProductSnoc(lens[1..], d - 1);
      assert lens[..d + 1][1..] == lens[1..][..d];
      assert lens[..d][1..] == lens[1..][..d - 1];
    }
  }

  /** Digit `d` is the index divided by the stride of part `d`, modulo its
      length: what the search loop computes. */
  lemma {:induction false} RadixDigit(lens: seq<nat>, idx: nat, d: nat)
    requires AllPositive(lens) && d < |lens|
    ensures Product(lens[..d]) > 0
    ensures Radix(lens, idx)[d] == idx / Product(lens[..d]) % lens[d]
    decreases d
  {
    assert AllPositive(lens[..d]);
    ProductPositive(lens[..d]);
    if d > 0 {
      assert AllPositive(lens[1..]) by {
        assert forall k :: 1 <= k < |lens| ==> lens[k] == lens[1..][k - 1];
      }
      RadixDigit(lens[1..], idx / lens[0], d - 1);
      assert lens[..d][1..] == lens[1..][..d - 1];
      DivDiv(idx, lens[0], Product(lens[1..][..d - 1]));
    }
  }

  /** Peeling digit `d` off the index reduced below the stride of part
      `d + 1`: the quotient by the stride of part `d` is the digit, and the
      remainder is the index reduced below that stride. */
  lemma RadixPeel(lens: seq<nat>, idx: nat, d: nat, rem: nat)
    requires AllPositive(lens) && d < |lens|
    requires Product(lens[..d + 1]) > 0 && rem == idx % Product(lens[..d + 1])
    ensures Product(lens[..d]) > 0
    ensures rem / Product(lens[..d]) == Radix(lens, idx)[d]
    ensures rem % Product(lens[..d]) == idx % Product(lens[..d])
  {
    RadixDigit(lens, idx, d);
    ProductSnoc(lens, d);
    ModDiv(idx, Product(lens[..d]), lens[d]);
  }
}
