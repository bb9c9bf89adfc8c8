/** The pure parts of the file fingerprint database: the hex text of a
    digest, the packed modification date and time, and the SQL statement
    with its parameter tuple that registers a file. */
module FileDb {
  import opened Wrappers
  import opened Arith
  import opened PyValue

  /** A character of a byte string, as `ord` sees it. */
  newtype byte = x: int | 0 <= x < 256

  /** One lower-case hexadecimal digit. */
  function HexDigit(d: int): (c: char)
    requires 0 <= d < 16
    ensures IsHex(c) && HexValue(c) == d
  {
    if d < 10 then ('0' as int + d) as char else ('a' as int + d - 10) as char
  }

  predicate IsHex(c: char) {
    '0' <= c <= '9' || 'a' <= c <= 'f'
  }

  function HexValue(c: char): int
    requires IsHex(c)
  {
    if c <= '9' then c as int - '0' as int else c as int - 'a' as int + 10
  }

  /** `"%02x" % ord(c)`. */
  function HexPair(b: byte): (r: string)
    ensures |r| == 2 && IsHex(r[0]) && IsHex(r[1])
    ensures HexValue(r[0]) * 16 + HexValue(r[1]) == b as int
  {
    [HexDigit(b as int / 16), HexDigit(b as int % 16)]
  }

  /** `str2hexstr`: the hex pairs of the characters, joined in order. */
  function Str2HexStr(s: seq<byte>): (r: string)
    ensures |r| == 2 * |s|
    ensures forall i :: 0 <= i < |s| ==> r[2 * i..2 * i + 2] == HexPair(s[i])
  {
    if s == [] then []
    else
      var rest := Str2HexStr(s[1..]);
      var r := HexPair(s[0]) + rest;
      assert forall i :: 1 <= i < |s| ==> r[2 * i..2 * i + 2] == rest[2 * (i - 1)..2 * (i - 1) + 2];
      r
  }

  /** The inverse reading: pairs of lower-case hex digits back to bytes;
      anything else is not a hex text. */
  function HexDecode(t: string): (r: Option<seq<byte>>)
    ensures r.Some? ==> 2 * |r.value| == |t|
    decreases |t|
  {
    if |t| == 0 then Some([])
    else if |t| == 1 || !IsHex(t[0]) || !IsHex(t[1]) then None
    else
      match HexDecode(t[2..])
      case None => None
      case Some(rest) => Some([(HexValue(t[0]) * 16 + HexValue(t[1])) as byte] + rest)
  }

  /** Round trip: the hex text decodes back to the digest. */
  lemma {:induction false} HexRoundTrip(s: seq<byte>)
    ensures HexDecode(Str2HexStr(s)) == Some(s)
  {
    if s != [] {
      HexRoundTrip(s[1..]);
      var t := Str2HexStr(s);
      assert t[2..] == Str2HexStr(s[1..]);
      assert t[..2] == HexPair(s[0]);
      assert [s[0]] + s[1..] == s;
    }
  }

  /** And every text that decodes is the hex text of what it decodes to,
      so the hex text is the only one for its digest. */
  lemma {:induction false} HexDecodeEncodes(t: string)
    requires HexDecode(t).Some?
    ensures Str2HexStr(HexDecode(t).value) == t
    decreases |t|
  {
    if |t| > 0 {
      HexDecodeEncodes(t[2..]);
      var b := HexDecode(t).value;
      assert b[1..] == HexDecode(t[2..]).value;
      var p := HexPair(b[0]);
      HexDigitsEqual(p[0], t[0]);
      HexDigitsEqual(p[1], t[1]);
      assert t == t[..2] + t[2..];
    }
  }

  lemma HexDigitsEqual(a: char, b: char)
    requires IsHex(a) && IsHex(b) && HexValue(a) == HexValue(b)
    ensures a == b
  {
  }

  lemma Str2HexStrInjective(a: seq<byte>, b: seq<byte>)
    requires Str2HexStr(a) == Str2HexStr(b)
    ensures a == b
  {
    HexRoundTrip(a);
    HexRoundTrip(b);
  }

  /** The broken-down local time `time.localtime` gives. */
  datatype Tm = Tm(year: int, mon: int, mday: int, hour: int, min: int, sec: int)

  /** `Mdate` and `Mtime` of `get_file_stats`. */
  function Mdate(t: Tm): int {
    t.year * 10000 + t.mon * 100 + t.mday
  }

  function Mtime(t: Tm): int {
    t.hour * 10000 + t.min * 100 + t.sec
  }

  /** Three numbers packed as `a * 10000 + b * 100 + c` come back by
      division when `b` and `c` have two digits. */
  lemma Unpack(a: int, b: int, c: int)
    requires a >= 0 && 0 <= b < 100 && 0 <= c < 100
    ensures (a * 10000 + b * 100 + c) / 10000 == a
    ensures (a * 10000 + b * 100 + c) / 100 % 100 == b
    ensures (a * 10000 + b * 100 + c) % 100 == c
  {
    var n := a * 10000 + b * 100 + c;
    DivModUnique(n, 10000, a, b * 100 + c);
    DivModUnique(n, 100, a * 100 + b, c);
    DivModUnique(a * 100 + b, 100, a, b);
  }

  predicate ValidTm(t: Tm) {
    t.year >= 0 && 1 <= t.mon <= 12 && 1 <= t.mday <= 31
    && 0 <= t.hour < 24 && 0 <= t.min < 60 && 0 <= t.sec <= 61
  }

  /** The packed date and time give the calendar fields back. */
  lemma StampRecovers(t: Tm)
    requires ValidTm(t)
    ensures Mdate(t) / 10000 == t.year && Mdate(t) / 100 % 100 == t.mon && Mdate(t) % 100 == t.mday
    ensures Mtime(t) / 10000 == t.hour && Mtime(t) / 100 % 100 == t.min && Mtime(t) % 100 == t.sec
  {
    Unpack(t.year, t.mon, t.mday);
    Unpack(t.hour, t.min, t.sec);
  }

  /** Comparing packed dates is comparing calendar dates. */
  lemma MdateOrder(t: Tm, u: Tm)
    requires ValidTm(t) && ValidTm(u)
    ensures Mdate(t) < Mdate(u) <==>
      t.year < u.year || (t.year == u.year && (t.mon < u.mon || (t.mon == u.mon && t.mday < u.mday)))
  {
  }

  /** What `get_file_stats` returns; the stat call, the clock conversion
      and the digest come in as arguments. */
  datatype FileStats = FileStats(filename: string, mdate: int, mtime: int, size: int, md5sum: string)

  function GetFileStats(filename: string, mtime: Tm, size: int, digest: seq<byte>): (r: FileStats)
    ensures r.filename == filename && r.size == size
    ensures r.mdate == Mdate(mtime) && r.mtime == Mtime(mtime)
    ensures |r.md5sum| == 2 * |digest| && HexDecode(r.md5sum) == Some(digest)
  {
    HexRoundTrip(digest);
    FileStats(filename, Mdate(mtime), Mtime(mtime), size, Str2HexStr(digest))
  }

  /** `sep.join(parts)`. */
  function Join(sep: string, parts: seq<string>): string {
    if |parts| == 0 then ""
    else if |parts| == 1 then parts[0]
    else parts[0] + sep + Join(sep, parts[1..])
  }

  /** `s * n` for a string. */
  function RepeatStr(s: string, n: nat): string {
    if n == 0 then "" else s + RepeatStr(s, n - 1)
  }

  /** The number of `c` in `s`. */
  function Count(c: char, s: string): nat {
    if s == [] then 0 else (if s[0] == c then 1 else 0) + Count(c, s[1..])
  }

  lemma {:induction false} CountConcat(c: char, a: string, b: string)
    ensures Count(c, a + b) == Count(c, a) + Count(c, b)
  {
    if a == [] {
      assert a + b == b;
    } else {
      assert (a + b)[0] == a[0];
      assert (a + b)[1..] == a[1..] + b;
      CountConcat(c, a[1..], b);
    }
  }

  function Quoted(name: string): string {
    "'" + name + "'"
  }

  function SetClause(name: string): string {
    "'" + name + "' = ?"
  }

  function QuotedNames(dnames: seq<string>): (r: seq<string>)
    ensures |r| == |dnames| && forall i :: 0 <= i < |dnames| ==> r[i] == Quoted(dnames[i])
  {
    seq(|dnames|, i requires 0 <= i < |dnames| => Quoted(dnames[i]))
  }

  function SetClauses(dnames: seq<string>): (r: seq<string>)
    ensures |r| == |dnames| && forall i :: 0 <= i < |dnames| ==> r[i] == SetClause(dnames[i])
  {
    seq(|dnames|, i requires 0 <= i < |dnames| => SetClause(dnames[i]))
  }

  /** The INSERT statement of `register_file`: the filename column, then
      the quoted field names, then one `?` for the filename and one more
      per field. */
  function InsertSql(dnames: seq<string>): string {
    "INSERT INTO '%(table_name)s' (filename, " + Join(", ", QuotedNames(dnames))
      + ") VALUES (?" + RepeatStr(",?", |dnames|) + ");"
  }

  /** The UPDATE statement: one `'name' = ?` per field, then the filename
      condition. */
  function UpdateSql(dnames: seq<string>): string {
    "UPDATE '%(table_name)s' SET " + Join(", ", SetClauses(dnames))
      + " WHERE filename = ?;"
  }

  /** The column names of the extra fields, in order. */
  function ExtraNames(extra: seq<(string, Value)>): (r: seq<string>)
    ensures |r| == |extra| && forall i :: 0 <= i < |extra| ==> r[i] == extra[i].0
  {
    seq(|extra|, i requires 0 <= i < |extra| => extra[i].0)
  }

  /** The values of the extra fields, in order. */
  function ExtraValues(extra: seq<(string, Value)>): (r: seq<Value>)
    ensures |r| == |extra| && forall i :: 0 <= i < |extra| ==> r[i] == extra[i].1
  {
    seq(|extra|, i requires 0 <= i < |extra| => extra[i].1)
  }

  /** The four standard columns every registration writes. */
  const StandardNames: seq<string> := ["md5sum", "date", "time", "size"]

  /** The statement and the parameter tuple `register_file` executes.
      `existing` is the number of rows already holding `filename`, the
      answer of the count query made when `replace` is asked for.  The
      columns are the four standard ones and then the extra ones, and the
      values follow them in the same order, so column k of the statement
      receives value k of the field list. */
  function RegisterStatement(filename: string, stats: FileStats, extra: seq<(string, Value)>, replace: bool, existing: nat): (r: (string, seq<Value>))
    ensures var names := StandardNames + ExtraNames(extra);
      var vals := [PyStr(stats.md5sum), PyInt(stats.mdate), PyInt(stats.mtime), PyInt(stats.size)]
        + ExtraValues(extra);
      && (replace && existing > 0 ==> r == (UpdateSql(names), vals + [PyStr(filename)]))
      && (!(replace && existing > 0) ==> r == (InsertSql(names), [PyStr(filename)] + vals))
    ensures |r.1| == 4 + |extra| + 1
    ensures replace && existing > 0 ==> r.1[|r.1| - 1] == PyStr(filename)
    ensures !(replace && existing > 0) ==> r.1[0] == PyStr(filename)
  {
    var fields := [("md5sum", PyStr(stats.md5sum)), ("date", PyInt(stats.mdate)),
                   ("time", PyInt(stats.mtime)), ("size", PyInt(stats.size))] + extra;
    var dnames := seq(|fields|, i requires 0 <= i < |fields| => fields[i].0);
    var dvals := seq(|fields|, i requires 0 <= i < |fields| => fields[i].1);
    assert dnames == StandardNames + ExtraNames(extra);
    assert dvals == [PyStr(stats.md5sum), PyInt(stats.mdate), PyInt(stats.mtime), PyInt(stats.size)]
      + ExtraValues(extra);
    if replace && existing > 0 then (UpdateSql(dnames), dvals + [PyStr(filename)])
    else (InsertSql(dnames), [PyStr(filename)] + dvals)
  }

  /** `register_file` as written iterates `extra_values` without a check,
      so its default of None raises TypeError. */
  function RegisterAsWritten(filename: string, stats: FileStats, extra: Option<seq<(string, Value)>>, replace: bool, existing: nat): (r: Result<(string, seq<Value>)>)
    ensures extra.None? ==> r == Err(TypeError)
    ensures extra.Some? ==> r == Ok(RegisterStatement(filename, stats, extra.value, replace, existing))
  {
    if extra.None? then Err(TypeError) else Ok(RegisterStatement(filename, stats, extra.value, replace, existing))
  }

  /** The call with the default argument fails. */
  lemma DefaultExtraFails(filename: string, stats: FileStats)
    ensures RegisterAsWritten(filename, stats, None, false, 0).Err?
  {
  }

  /** The evident intent: no extra values means no extra fields. */
  function Register(filename: string, stats: FileStats, extra: Option<seq<(string, Value)>>, replace: bool, existing: nat): (r: (string, seq<Value>))
    ensures |r.1| == 5 + (if extra.Some? then |extra.value| else 0)
    ensures extra.Some? ==> r == RegisterStatement(filename, stats, extra.value, replace, existing)
    ensures extra.None? ==> r == RegisterStatement(filename, stats, [], replace, existing)
    ensures extra.None? && !(replace && existing > 0) ==>
      r == (InsertSql(StandardNames),
            [PyStr(filename), PyStr(stats.md5sum), PyInt(stats.mdate), PyInt(stats.mtime), PyInt(stats.size)])
  {
    assert StandardNames + ExtraNames([]) == StandardNames;
    assert [PyStr(stats.md5sum), PyInt(stats.mdate), PyInt(stats.mtime), PyInt(stats.size)] + ExtraValues([])
      == [PyStr(stats.md5sum), PyInt(stats.mdate), PyInt(stats.mtime), PyInt(stats.size)];
    assert [PyStr(filename)] + [PyStr(stats.md5sum), PyInt(stats.mdate), PyInt(stats.mtime), PyInt(stats.size)]
      == [PyStr(filename), PyStr(stats.md5sum), PyInt(stats.mdate), PyInt(stats.mtime), PyInt(stats.size)];
    RegisterStatement(filename, stats, if extra.Some? then extra.value else [], replace, existing)
  }

  predicate NoMarks(names: seq<string>) {
    forall i :: 0 <= i < |names| ==> Count('?', names[i]) == 0
  }

  lemma {:induction false} JoinCount(c: char, sep: string, parts: seq<string>, each: nat)
    requires Count(c, sep) == 0
    requires forall i :: 0 <= i < |parts| ==> Count(c, parts[i]) == each
    ensures Count(c, Join(sep, parts)) == each * |parts|
  {
    if |parts| == 0 {
      assert Join(sep, parts) == "";
    } else if |parts| == 1 {
      assert Join(sep, parts) == parts[0];
    } else {
      var rest := parts[1..];
      forall i | 0 <= i < |rest|
        ensures Count(c, rest[i]) == each
      {
        assert rest[i] == parts[i + 1];
      }
      JoinCount(c, sep, rest, each);
      assert Join(sep, parts) == parts[0] + sep + Join(sep, rest);
      CountConcat(c, parts[0] + sep, Join(sep, rest));
      CountConcat(c, parts[0], sep);
      var m := |rest|;
      assert each * (m + 1) == each * m + each;
    }
  }

  lemma {:induction false} CountZero(c: char, s: string)
    requires c !in s
    ensures Count(c, s) == 0
  {
    if s != [] {
      assert c !in s[1..];
      CountZero(c, s[1..]);
    }
  }

  /** A text with one `?`, placed after `before` and followed by `after`. */
  lemma CountOne(before: string, after: string)
    requires '?' !in before && '?' !in after
    ensures Count('?', before + "?" + after) == 1
  {
    CountZero('?', before);
    CountZero('?', after);
    CountConcat('?', before + "?", after);
    CountConcat('?', before, "?");
  }

  lemma {:induction false} RepeatCount(n: nat)
    ensures Count('?', RepeatStr(",?", n)) == n
  {
    if n > 0 {
      RepeatCount(n - 1);
      CountConcat('?', ",?", RepeatStr(",?", n - 1));
      assert Count('?', ",?") == 1 by {
        CountOne(",", "");
        assert "," + "?" + "" == ",?";
      }
    }
  }

  /** With field names free of `?`, each statement has exactly one
      placeholder per value of its parameter tuple. */
  lemma PlaceholdersMatch(filename: string, stats: FileStats, extra: seq<(string, Value)>, replace: bool, existing: nat)
    requires forall i :: 0 <= i < |extra| ==> Count('?', extra[i].0) == 0
    ensures var r := RegisterStatement(filename, stats, extra, replace, existing); Count('?', r.0) == |r.1|
  {
    var fields := [("md5sum", PyStr(stats.md5sum)), ("date", PyInt(stats.mdate)),
                   ("time", PyInt(stats.mtime)), ("size", PyInt(stats.size))] + extra;
    var dnames := seq(|fields|, i requires 0 <= i < |fields| => fields[i].0);
    assert forall i :: 0 <= i < |dnames| ==> Count('?', dnames[i]) == 0 by {
      forall i | 0 <= i < |dnames|
        ensures Count('?', dnames[i]) == 0
      {
        if i >= 4 {
          assert dnames[i] == extra[i - 4].0;
        }
      }
    }
    if replace && existing > 0 {
      UpdateCount(dnames);
    } else {
      InsertCount(dnames);
    }
  }

  lemma UpdateCount(dnames: seq<string>)
    requires NoMarks(dnames)
    ensures Count('?', UpdateSql(dnames)) == |dnames| + 1
  {
    var parts := SetClauses(dnames);
    forall i | 0 <= i < |parts|
      ensures Count('?', parts[i]) == 1
    {
      var before := "'" + dnames[i] + "' = ";
      assert '?' !in dnames[i] by { NoMarkAbsent(dnames[i]); }
      CountOne(before, "");
      assert parts[i] == before + "?" + "";
    }
    Separators();
    JoinCount('?', ", ", parts, 1);
    var head := "UPDATE '%(table_name)s' SET ";
    var tail := " WHERE filename = ?;";
    UpdateHead();
    WhereTail();
    CountConcat('?', head + Join(", ", parts), tail);
    CountConcat('?', head, Join(", ", parts));
  }

  lemma InsertCount(dnames: seq<string>)
    requires NoMarks(dnames)
    ensures Count('?', InsertSql(dnames)) == |dnames| + 1
  {
    QuotedCount(dnames);
    InsertHead();
    ValuesHead();
    RepeatCount(|dnames|);
    Separators();
    CountFive('?', "INSERT INTO '%(table_name)s' (filename, ", Join(", ", QuotedNames(dnames)), ") VALUES (?",
      RepeatStr(",?", |dnames|), ");");
  }

  /** Quoted names free of `?` joined by commas hold no `?`. */
  lemma QuotedCount(dnames: seq<string>)
    requires NoMarks(dnames)
    ensures Count('?', Join(", ", QuotedNames(dnames))) == 0
  {
    var parts := QuotedNames(dnames);
    forall i | 0 <= i < |parts|
      ensures Count('?', parts[i]) == 0
    {
      assert '?' !in dnames[i] by { NoMarkAbsent(dnames[i]); }
      CountZero('?', parts[i]);
    }
    Separators();
    JoinCount('?', ", ", parts, 0);
  }

  /** Counting distributes over a text made of five pieces. */
  lemma CountFive(c: char, a: string, b: string, d: string, e: string, f: string)
    ensures Count(c, a + b + d + e + f) == Count(c, a) + Count(c, b) + Count(c, d) + Count(c, e) + Count(c, f)
  {
    CountConcat(c, a + b + d + e, f);
    CountConcat(c, a + b + d, e);
    CountConcat(c, a + b, d);
    CountConcat(c, a, b);
  }

  /** The placeholders in the fixed parts of the statements. */
  lemma Separators()
    ensures Count('?', ", ") == 0 && Count('?', ");") == 0
  {
    CountZero('?', ", ");
    CountZero('?', ");");
  }

  lemma UpdateHead()
    ensures Count('?', "UPDATE '%(table_name)s' SET ") == 0
  {
    CountZero('?', "UPDATE '%(table_name)s' SET ");
  }

  lemma InsertHead()
    ensures Count('?', "INSERT INTO '%(table_name)s' (filename, ") == 0
  {
    CountZero('?', "INSERT INTO '%(table_name)s' (filename, ");
  }

  lemma WhereTail()
    ensures Count('?', " WHERE filename = ?;") == 1
  {
    CountOne(" WHERE filename = ", ";");
    assert " WHERE filename = " + "?" + ";" == " WHERE filename = ?;";
  }

  lemma ValuesHead()
    ensures Count('?', ") VALUES (?") == 1
  {
    CountOne(") VALUES (", "");
    assert ") VALUES (" + "?" + "" == ") VALUES (?";
  }

  lemma {:induction false} NoMarkAbsent(s: string)
    requires Count('?', s) == 0
    ensures '?' !in s
  {
    if s != [] {
      NoMarkAbsent(s[1..]);
      assert s == [s[0]] + s[1..];
    }
  }
}
