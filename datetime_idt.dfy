/** The compact integer timestamp `YYYYMMDDhhmmssfff`: its split into
    date and time components by slicing the decimal text from the right,
    and its rendering in the ISO 8601 combined date and time format
    (extended format, section 4.3.2 of ISO 8601:2004). */
module DatetimeIdt {
  import opened Wrappers
  import opened Arith
  import opened Decimal

  /** An `idatetime`; `idt` is absent when the constructor got None. */
  datatype IDateTime = IDateTime(idt: Option<int>)

  /** The result record of `split_values`. */
  datatype Components = Components(
    year: int, month: int, day: int, hour: int, minute: int, second: int,
    millisecond: int, microsecond: int)

  /** `validate` is not implemented. */
  function Validate(d: IDateTime): (r: Result<()>)
    ensures r == Err(NotImplementedError)
  {
    Err(NotImplementedError)
  }

  /** Where Python's slice bound `-k` lands in a string of length `len`. */
  function Cut(len: nat, k: nat): (c: nat)
    ensures c <= len
    ensures len >= k ==> c + k == len
    ensures len < k ==> c == 0
  {
    if len >= k then len - k else 0
  }

  /** `split_values`: `int` of the slices `[:-13]`, `[-13:-11]`,
      `[-11:-9]`, `[-9:-7]`, `[-7:-5]`, `[-5:-3]` and `[-3:]` of `str(idt)`,
      with no check of the values; an empty or sign-only slice raises
      ValueError, a missing `idt` AttributeError. */
  function SplitValues(d: IDateTime): (r: Result<Components>)
    ensures d.idt.None? ==> r == Err(AttributeError)
    ensures r.Err? && d.idt.Some? ==> r.error == ValueError
    ensures r.Ok? ==> r.value.microsecond == r.value.millisecond * 1000
  {
    if d.idt.None? then Err(AttributeError)
    else
      var s := IntToString(d.idt.value);
      var len := |s|;
      var year :- ParseInt(s[..Cut(len, 13)]);
      var month :- ParseInt(s[Cut(len, 13)..Cut(len, 11)]);
      var day :- ParseInt(s[Cut(len, 11)..Cut(len, 9)]);
      var hour :- ParseInt(s[Cut(len, 9)..Cut(len, 7)]);
      var minute :- ParseInt(s[Cut(len, 7)..Cut(len, 5)]);
      var second :- ParseInt(s[Cut(len, 5)..Cut(len, 3)]);
      var millisecond :- ParseInt(s[Cut(len, 3)..]);
      Ok(Components(year, month, day, hour, minute, second, millisecond, millisecond * 1000))
  }

  /** The components by digit arithmetic on `n = |idt|`: the year is what
      is left above the last 13 digits, carrying the sign of `idt`. */
  function ByDigits(idt: int): (c: Components)
    ensures idt >= 0 ==> c.year >= 0
    ensures 0 <= c.month < 100 && 0 <= c.day < 100 && 0 <= c.hour < 100
    ensures 0 <= c.minute < 100 && 0 <= c.second < 100 && 0 <= c.millisecond < 1000
  {
    var n: nat := if idt < 0 then -idt else idt;
    var ms := n % Pow10(3);
    assert Pow10(2) == 100 && Pow10(3) == 1000;
    Components(
      if idt < 0 then 0 - Drop(n, 13) else Drop(n, 13),
      Drop(n, 11) % Pow10(2), Drop(n, 9) % Pow10(2), Drop(n, 7) % Pow10(2),
      Drop(n, 5) % Pow10(2), Drop(n, 3) % Pow10(2), ms, ms * 1000)
  }

  /** The last 13 digits of `n` as the six groups the timestamp slices
      out. */
  lemma DigitGroups(n: nat)
    ensures Digits(n, 13) == Digits(Drop(n, 11), 2) + (Digits(Drop(n, 9), 2) + (Digits(Drop(n, 7), 2)
      + (Digits(Drop(n, 5), 2) + (Digits(Drop(n, 3), 2) + Digits(n, 3)))))
  {
    DigitsSplit(n, 2, 3);
    DigitsSplit(n, 2, 5);
    DigitsSplit(n, 2, 7);
    DigitsSplit(n, 2, 9);
    DigitsSplit(n, 2, 11);
  }

  /** For `|idt| >= 10^13` every slice is a number and the components are
      the digit groups; a negative `idt` puts its sign on the year only. */
  lemma SplitByDigits(idt: int)
    requires idt >= Pow10(13) || idt <= 0 - Pow10(13)
    ensures SplitValues(IDateTime(Some(idt))) == Ok(ByDigits(idt))
  {
    var n: nat := if idt < 0 then -idt else idt;
    var sign := if idt < 0 then "-" else "";
    var y := NatToString(Drop(n, 13));
    var g11, g9, g7 := Digits(Drop(n, 11), 2), Digits(Drop(n, 9), 2), Digits(Drop(n, 7), 2);
    var g5, g3, f := Digits(Drop(n, 5), 2), Digits(Drop(n, 3), 2), Digits(n, 3);
    IntTextSplit(idt, n, 13);
    DigitGroups(n);
    GroupsParse(idt, n);
    SplitOfGroups(idt, sign + y, Digits(n, 13), g11, g9, g7, g5, g3, f, ByDigits(idt));
  }

  /** The text of `idt` is its sign and leading digits, then its last `k`
      digits. */
  lemma IntTextSplit(idt: int, n: nat, k: nat)
    requires n == (if idt < 0 then -idt else idt) && n >= Pow10(k)
    ensures IntToString(idt) == ((if idt < 0 then "-" else "") + NatToString(Drop(n, k))) + Digits(n, k)
  {
    NatToStringSplit(n, k);
    var y := NatToString(Drop(n, k));
    if idt < 0 {
      assert IntToString(idt) == "-" + NatToString(n);
      assert "-" + (y + Digits(n, k)) == ("-" + y) + Digits(n, k);
    } else {
      assert IntToString(idt) == NatToString(n);
      assert "" + y == y;
    }
  }

  lemma GroupsParse(idt: int, n: nat)
    requires n == (if idt < 0 then -idt else idt) && n >= Pow10(13)
    ensures ParseInt((if idt < 0 then "-" else "") + NatToString(Drop(n, 13))) == Ok(ByDigits(idt).year)
    ensures ParseInt(Digits(Drop(n, 11), 2)) == Ok(ByDigits(idt).month)
    ensures ParseInt(Digits(Drop(n, 9), 2)) == Ok(ByDigits(idt).day)
    ensures ParseInt(Digits(Drop(n, 7), 2)) == Ok(ByDigits(idt).hour)
    ensures ParseInt(Digits(Drop(n, 5), 2)) == Ok(ByDigits(idt).minute)
    ensures ParseInt(Digits(Drop(n, 3), 2)) == Ok(ByDigits(idt).second)
    ensures ParseInt(Digits(n, 3)) == Ok(ByDigits(idt).millisecond)
  {
    assert Drop(n, 13) >= 1;
    ParseHead(idt < 0, Drop(n, 13));
    ParseGroup(Drop(n, 11), 2);
    ParseGroup(Drop(n, 9), 2);
    ParseGroup(Drop(n, 7), 2);
    ParseGroup(Drop(n, 5), 2);
    ParseGroup(Drop(n, 3), 2);
    ParseGroup(n, 3);
  }

  lemma ParseGroup(m: nat, w: nat)
    requires w >= 1
    ensures ParseInt(Digits(m, w)) == Ok(m % Pow10(w))
  {
    DigitsValueOfDigits(m, w);
  }

  lemma ParseHead(neg: bool, m: nat)
    requires m >= 1
    ensures ParseInt((if neg then "-" else "") + NatToString(m)) == Ok(if neg then 0 - m else m)
  {
    var i := if neg then 0 - m else m;
    assert IntToString(i) == (if neg then "-" else "") + NatToString(m) by {
      if !neg {
        assert "" + NatToString(m) == NatToString(m);
      }
    }
    ParseIntOfString(i);
  }

  /** `split_values` on a text made of a head and the six groups parses
      each part on its own. */
  lemma SplitOfGroups(idt: int, head: string, tail: string, g11: string, g9: string, g7: string, g5: string, g3: string, f: string, c: Components)
    requires |g11| == |g9| == |g7| == |g5| == |g3| == 2 && |f| == 3
    requires IntToString(idt) == head + tail
    requires tail == g11 + (g9 + (g7 + (g5 + (g3 + f))))
    requires ParseInt(head) == Ok(c.year) && ParseInt(g11) == Ok(c.month) && ParseInt(g9) == Ok(c.day)
    requires ParseInt(g7) == Ok(c.hour) && ParseInt(g5) == Ok(c.minute) && ParseInt(g3) == Ok(c.second)
    requires ParseInt(f) == Ok(c.millisecond) && c.microsecond == c.millisecond * 1000
    ensures SplitValues(IDateTime(Some(idt))) == Ok(c)
  {
    Slices(IntToString(idt), head, tail, g11, g9, g7, g5, g3, f);
  }

  /** The slices of `split_values` on a text of a head and six groups of
      two, two, two, two, two and three characters. */
  lemma Slices(s: string, head: string, tail: string, g11: string, g9: string, g7: string, g5: string, g3: string, f: string)
    requires |g11| == |g9| == |g7| == |g5| == |g3| == 2 && |f| == 3
    requires s == head + tail
    requires tail == g11 + (g9 + (g7 + (g5 + (g3 + f))))
    ensures s[..Cut(|s|, 13)] == head
    ensures s[Cut(|s|, 13)..Cut(|s|, 11)] == g11 && s[Cut(|s|, 11)..Cut(|s|, 9)] == g9
    ensures s[Cut(|s|, 9)..Cut(|s|, 7)] == g7 && s[Cut(|s|, 7)..Cut(|s|, 5)] == g5
    ensures s[Cut(|s|, 5)..Cut(|s|, 3)] == g3 && s[Cut(|s|, 3)..] == f
  {
    var p := |head|;
    assert |s| == p + 13;
    assert s[..p] == head;
    assert s[p..p + 2] == g11;
    assert s[p + 2..p + 4] == g9;
    assert s[p + 4..p + 6] == g7;
    assert s[p + 6..p + 8] == g5;
    assert s[p + 8..p + 10] == g3;
    assert s[p + 10..] == f;
  }

  /** Below 13 digits the year slice is empty (or a lone sign), so the
      split fails. */
  lemma ShortFails(idt: int)
    requires 0 - Pow10(13) < idt < Pow10(13)
    ensures SplitValues(IDateTime(Some(idt))) == Err(ValueError)
  {
    var n: nat := if idt < 0 then -idt else idt;
    NatToStringLength(n, 13);
    var s := IntToString(idt);
    assert |s| <= 14;
    assert idt < 0 ==> s[..Cut(|s|, 13)] == [] || s[..Cut(|s|, 13)] == "-";
  }

  /** The value of components under the weights of `YYYYMMDDhhmmssfff`. */
  function Combine(c: Components): int {
    ((((c.year * 100 + c.month) * 100 + c.day) * 100 + c.hour) * 100 + c.minute) * 100 * 1000
      + c.second * 1000 + c.millisecond
  }

  /** `n % 10^(k+w)` splits into the group of `w` digits above position
      `k` and the `k` digits below. */
  lemma ModGroup(n: nat, k: nat, w: nat)
    ensures n % Pow10(k + w) == (Drop(n, k) % Pow10(w)) * Pow10(k) + n % Pow10(k)
  {
    PowAdd(k, w);
    DivDiv(n, Pow10(k), Pow10(w));
  }

  lemma {:induction false} PowAdd(a: nat, b: nat)
    ensures Pow10(a + b) == Pow10(a) * Pow10(b)
    decreases b
  {
    if b > 0 {
      PowAdd(a, b - 1);
    }
  }

  lemma Pow10Values()
    ensures Pow10(3) == 1000 && Pow10(5) == 100000 && Pow10(7) == 10000000
    ensures Pow10(9) == 1000000000 && Pow10(11) == 100000000000 && Pow10(13) == 10000000000000
  {
  }

  /** The components put back together with the digit weights give the
      timestamp again. */
  lemma CombineByDigits(idt: int)
    requires idt >= 0
    ensures Combine(ByDigits(idt)) == idt
  {
    var n: nat := idt;
    var c := ByDigits(idt);
    assert c.year == Drop(n, 13) && c.millisecond == n % 1000 by { Pow10Values(); }
    assert n % 100000 == c.second * 1000 + n % 1000 by { ModGroup(n, 3, 2); Pow10Values(); }
    assert n % 10000000 == c.minute * 100000 + n % 100000 by { ModGroup(n, 5, 2); Pow10Values(); }
    assert n % 1000000000 == c.hour * 10000000 + n % 10000000 by { ModGroup(n, 7, 2); Pow10Values(); }
    assert n % 100000000000 == c.day * 1000000000 + n % 1000000000 by { ModGroup(n, 9, 2); Pow10Values(); }
    assert n % 10000000000000 == c.month * 100000000000 + n % 100000000000 by { ModGroup(n, 11, 2); Pow10Values(); }
    assert n == c.year * 10000000000000 + n % 10000000000000 by { Pow10Values(); }
  }

  /** Components in their digit ranges, with a year of one to four
      digits, as the format describes them. */
  predicate InRange(c: Components) {
    1 <= c.year < 10000 && 0 <= c.month < 100 && 0 <= c.day < 100 && 0 <= c.hour < 100
    && 0 <= c.minute < 100 && 0 <= c.second < 100 && 0 <= c.millisecond < 1000
    && c.microsecond == c.millisecond * 1000
  }

  /** Drop the last `k` digits of `hi * 10^(k+w) + v * 10^k + lo`. */
  lemma Group(n: nat, hi: nat, v: nat, lo: nat, k: nat, w: nat)
    requires v < Pow10(w) && lo < Pow10(k)
    requires n == (hi * Pow10(w) + v) * Pow10(k) + lo
    ensures Drop(n, k) % Pow10(w) == v
  {
    DivModUnique(n, Pow10(k), hi * Pow10(w) + v, lo);
    DivModUnique(hi * Pow10(w) + v, Pow10(w), hi, v);
  }

  /** Splitting the combined value gives the components back. */
  lemma SplitCombine(c: Components)
    requires InRange(c)
    ensures SplitValues(IDateTime(Some(Combine(c)))) == Ok(c)
  {
    var n: nat := Combine(c);
    Pow10Values();
    assert Pow10(2) == 100;
    var ymd := (c.year * 100 + c.month) * 100 + c.day;
    var ymdhm := (ymd * 100 + c.hour) * 100 + c.minute;
    Group(n, c.year, c.month, ((((c.day * 100 + c.hour) * 100 + c.minute) * 100 + c.second) * 1000 + c.millisecond), 11, 2);
    Group(n, c.year * 100 + c.month, c.day, (((c.hour * 100 + c.minute) * 100 + c.second) * 1000 + c.millisecond), 9, 2);
    Group(n, ymd, c.hour, ((c.minute * 100 + c.second) * 1000 + c.millisecond), 7, 2);
    Group(n, ymd * 100 + c.hour, c.minute, (c.second * 1000 + c.millisecond), 5, 2);
    Group(n, ymdhm, c.second, c.millisecond, 3, 2);
    DivModUnique(n, Pow10(13), c.year, n - c.year * Pow10(13));
    DivModUnique(n, Pow10(3), ymdhm * 100 + c.second, c.millisecond);
    SplitByDigits(n);
  }

  /** `str_iso8601`: `%04d-%02d-%02dT%02d:%02d:%02d.%03d` of the split
      components; errors of the split pass through. */
  function StrIso8601(d: IDateTime): (r: Result<string>)
    ensures r.Err? <==> SplitValues(d).Err?
  {
    var c :- SplitValues(d);
    Ok(FormatPadded(c.year, 4) + "-" + FormatPadded(c.month, 2) + "-" + FormatPadded(c.day, 2)
      + "T" + FormatPadded(c.hour, 2) + ":" + FormatPadded(c.minute, 2) + ":" + FormatPadded(c.second, 2)
      + "." + FormatPadded(c.millisecond, 3))
  }

  /** A 17-digit timestamp renders as its own digits with the ISO 8601
      separators put between the groups. */
  lemma IsoOfSeventeenDigits(idt: int)
    requires Pow10(16) <= idt < Pow10(17)
    ensures |NatToString(idt)| == 17
    ensures StrIso8601(IDateTime(Some(idt))) == Ok(
      var s := NatToString(idt);
      s[..4] + "-" + s[4..6] + "-" + s[6..8] + "T" + s[8..10] + ":" + s[10..12] + ":" + s[12..14] + "." + s[14..])
  {
    var s := NatToString(idt);
    assert |s| == 17 by {
      NatToStringLength(idt, 16);
      NatToStringLength(idt, 17);
    }
    assert AllDigits(s);
    var ms := DigitsValue(s[14..]);
    var c := Components(DigitsValue(s[..4]), DigitsValue(s[4..6]), DigitsValue(s[6..8]),
      DigitsValue(s[8..10]), DigitsValue(s[10..12]), DigitsValue(s[12..14]), ms, ms * 1000);
    assert SplitValues(IDateTime(Some(idt))) == Ok(c) by { SplitOfDigitText(idt); }
    RenderedGroups(s);
  }

  /** Each digit group of a 17-digit text, read and formatted back at its
      width, is itself. */
  lemma RenderedGroups(s: string)
    requires AllDigits(s) && |s| == 17
    ensures FormatPadded(DigitsValue(s[..4]), 4) == s[..4]
    ensures FormatPadded(DigitsValue(s[4..6]), 2) == s[4..6]
    ensures FormatPadded(DigitsValue(s[6..8]), 2) == s[6..8]
    ensures FormatPadded(DigitsValue(s[8..10]), 2) == s[8..10]
    ensures FormatPadded(DigitsValue(s[10..12]), 2) == s[10..12]
    ensures FormatPadded(DigitsValue(s[12..14]), 2) == s[12..14]
    ensures FormatPadded(DigitsValue(s[14..]), 3) == s[14..]
  {
    Rendered(s[..4], 4);
    Rendered(s[4..6], 2);
    Rendered(s[6..8], 2);
    Rendered(s[8..10], 2);
    Rendered(s[10..12], 2);
    Rendered(s[12..14], 2);
    Rendered(s[14..], 3);
  }

  /** On a 17-digit text every slice is a digit group read as a number. */
  lemma SplitOfDigitText(idt: int)
    requires idt >= 0 && |IntToString(idt)| == 17
    ensures AllDigits(IntToString(idt))
    ensures
      var s := IntToString(idt);
      var ms := DigitsValue(s[14..]);
      SplitValues(IDateTime(Some(idt))) == Ok(Components(DigitsValue(s[..4]), DigitsValue(s[4..6]), DigitsValue(s[6..8]),
        DigitsValue(s[8..10]), DigitsValue(s[10..12]), DigitsValue(s[12..14]), ms, ms * 1000))
  {
    var s := IntToString(idt);
    assert AllDigits(s[..4]) && AllDigits(s[4..6]) && AllDigits(s[6..8]) && AllDigits(s[8..10]);
    assert AllDigits(s[10..12]) && AllDigits(s[12..14]) && AllDigits(s[14..]);
  }

  /** A group of `w` digits formatted with `%0wd` is the group itself. */
  lemma Rendered(t: string, w: nat)
    requires AllDigits(t) && |t| == w && w >= 1
    ensures FormatPadded(DigitsValue(t), w) == t
  {
    FormatPaddedFits(DigitsValue(t), w);
    DigitsOfValue(t);
  }

  /** Rendering components that are in range, after packing them. */
  lemma IsoOfCombine(c: Components)
    requires InRange(c)
    ensures StrIso8601(IDateTime(Some(Combine(c)))) == Ok(FormatPadded(c.year, 4) + "-" + FormatPadded(c.month, 2) + "-"
      + FormatPadded(c.day, 2) + "T" + FormatPadded(c.hour, 2) + ":" + FormatPadded(c.minute, 2) + ":"
      + FormatPadded(c.second, 2) + "." + FormatPadded(c.millisecond, 3))
  {
    SplitCombine(c);
  }

  /** The timestamp of the test suite, `20141201083724315`. */
  lemma IsoExample(idt: int)
    requires idt == 20141201083724315
    ensures StrIso8601(IDateTime(Some(idt))) == Ok("2014-12-01T08:37:24.315")
  {
    var c := Components(2014, 12, 1, 8, 37, 24, 315, 315000);
    assert Combine(c) == idt;
    IsoOfCombine(c);
    ExampleFields();
  }

  lemma ExampleFields()
    ensures FormatPadded(2014, 4) + "-" + FormatPadded(12, 2) + "-" + FormatPadded(1, 2) + "T" + FormatPadded(8, 2) + ":"
      + FormatPadded(37, 2) + ":" + FormatPadded(24, 2) + "." + FormatPadded(315, 3) == "2014-12-01T08:37:24.315"
  {
    ExampleJoin(FormatPadded(2014, 4), FormatPadded(12, 2), FormatPadded(1, 2), FormatPadded(8, 2),
      FormatPadded(37, 2), FormatPadded(24, 2), FormatPadded(315, 3));
  }

  lemma ExampleJoin(year: string, month: string, day: string, hour: string, minute: string, second: string, ms: string)
    requires year == "2014" && month == "12" && day == "01" && hour == "08"
    requires minute == "37" && second == "24" && ms == "315"
    ensures year + "-" + month + "-" + day + "T" + hour + ":" + minute + ":" + second + "." + ms == "2014-12-01T08:37:24.315"
  {
  }
}
