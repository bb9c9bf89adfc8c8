/** Reading one record of a Fortran unformatted sequential file: a 4-byte
    length header, the record's bytes, and a 4-byte trailer repeating the
    length.  The file is its bytes plus a read position.  A record is read
    against a list of field descriptors (name, item size, optional count);
    each field's value is kept as the raw bytes of its items. */
module FortranBinary {
  import opened Wrappers

  type byte = x: int | 0 <= x < 256

  /** numpy item sizes are positive. */
  type ItemSize = x: int | 1 <= x witness 1

  /** (name, dtype, Len) or (name, dtype): `len` is None for the two-element
      form, which reads a single scalar. */
  datatype Field = Field(name: string, itemsize: ItemSize, len: Option<nat>)

  datatype FieldValue = Scalar(item: seq<byte>) | Array(items: seq<seq<byte>>)

  /** fld_count: the third element if present, otherwise 1. */
  function Count(f: Field): nat {
    if f.len.Some? then f.len.value else 1
  }

  /** The bytes one field takes: its count times its item size. */
  function Size(f: Field): nat {
    Count(f) * f.itemsize
  }

  /** The bytes taken by the first `n` descriptors. */
  function Offset(fields: seq<Field>, n: nat): nat
    requires n <= |fields|
  {
    if n == 0 then 0 else Offset(fields, n - 1) + Size(fields[n - 1])
  }

  /** The number of bytes the descriptors ask for: count times item size,
      summed over the fields. */
  function ExpectedLen(fields: seq<Field>): nat {
    Offset(fields, |fields|)
  }

  /** A record marker: a 32-bit unsigned integer, little-endian. */
  function UInt32(b: seq<byte>): nat
    requires |b| == 4
  {
    (b[0] as int) + 0x100 * (b[1] as int) + 0x1_0000 * (b[2] as int) + 0x100_0000 * (b[3] as int)
  }

  /** `count` consecutive items of `size` bytes from offset `off`. */
  function Items(data: seq<byte>, off: nat, size: ItemSize, count: nat): (r: seq<seq<byte>>)
    requires off + count * size <= |data|
    ensures |r| == count
    ensures forall k :: 0 <= k < count ==> |r[k]| == size
    decreases count
  {
    if count == 0 then []
    else [data[off..off + size]] + Items(data, off + size, size, count - 1)
  }

  /** How many whole items numpy.fromfile gets when asking for `count`
      items of `size` bytes at `pos`: it returns fewer at end of file. */
  function Available(data: seq<byte>, pos: nat, size: ItemSize, count: nat): (k: nat)
    ensures k <= count
    ensures k > 0 ==> pos + k * size <= |data|
  {
    if pos >= |data| then 0
    else
      var whole := (|data| - pos) / size;
      DivTimes(|data| - pos, size);
      if count <= whole then
        MulMonotone(count, whole, size);
        count
      else whole
  }

  lemma DivTimes(a: nat, b: ItemSize)
    ensures (a / b) * b <= a
  {
  }

  lemma MulMonotone(x: nat, y: nat, z: nat)
    requires x <= y
    ensures x * z <= y * z
  {
  }

  /** A count whose bytes fit in `a` is at most the number of whole items
      in `a`. */
  lemma DivLowerBound(a: nat, b: ItemSize, c: nat)
    ensures c * b <= a ==> c <= a / b
  {
    if c > a / b {
      MulMonotone(a / b + 1, c, b);
    }
  }

  /** When the whole request fits in the data, numpy.fromfile gets all of
      it. */
  lemma AvailableAll(data: seq<byte>, pos: nat, size: ItemSize, count: nat)
    requires pos + count * size <= |data|
    ensures Available(data, pos, size, count) == count
  {
    if pos < |data| {
      DivLowerBound(|data| - pos, size, count);
    } else {
      assert count * size == 0;
    }
  }

  /** numpy.fromfile: the items read and the position after the read; a
      short read leaves the position at the end of the data. */
  function FromFile(data: seq<byte>, pos: nat, size: ItemSize, count: nat): (seq<seq<byte>>, nat) {
    var k := Available(data, pos, size, count);
    (if k == 0 then [] else Items(data, pos, size, k),
     if pos + count * size <= |data| then pos + count * size
     else if pos < |data| then |data| else pos)
  }

  /** The value a field takes from a record whose bytes are all present. */
  function ValueAt(data: seq<byte>, off: nat, f: Field): FieldValue
    requires off + Size(f) <= |data|
  {
    if f.len.Some? then Array(Items(data, off, f.itemsize, f.len.value))
    else Scalar(data[off..off + f.itemsize])
  }

  /** The first `n` fields stored into `acc`, in order, each read right
      after the previous one, starting at `start`. */
  function StoreFields(acc: map<string, FieldValue>, data: seq<byte>, start: nat, fields: seq<Field>, n: nat): map<string, FieldValue>
    requires n <= |fields| && start + Offset(fields, n) <= |data|
  {
    if n == 0 then acc
    else StoreFields(acc, data, start, fields, n - 1)[fields[n - 1].name := ValueAt(data, start + Offset(fields, n - 1), fields[n - 1])]
  }

  lemma {:induction false} OffsetMonotone(fields: seq<Field>, i: nat, j: nat)
    requires i <= j <= |fields|
    ensures Offset(fields, i) <= Offset(fields, j)
    decreases j
  {
    if i < j {
      OffsetMonotone(fields, i, j - 1);
    }
  }

  /** No two descriptors share a name. */
  predicate DistinctNames(fields: seq<Field>) {
    forall a, b :: 0 <= a < b < |fields| ==> fields[a].name != fields[b].name
  }

  /** Fields are laid out contiguously: with distinct names, field k holds
      the bytes found after the sizes of fields 0 .. k-1, once the first
      `n` fields, k among them, are stored. */
  lemma {:induction false} StoreFieldsAt(acc: map<string, FieldValue>, data: seq<byte>, start: nat, fields: seq<Field>, n: nat, k: nat)
    requires k < n <= |fields| && start + Offset(fields, n) <= |data|
    requires DistinctNames(fields)
    ensures start + Offset(fields, k) + Size(fields[k]) <= |data|
    ensures fields[k].name in StoreFields(acc, data, start, fields, n)
    ensures StoreFields(acc, data, start, fields, n)[fields[k].name]
      == ValueAt(data, start + Offset(fields, k), fields[k])
    decreases n
  {
    OffsetMonotone(fields, k + 1, n);
    if k < n - 1 {
      OffsetMonotone(fields, n - 1, n);
      StoreFieldsAt(acc, data, start, fields, n - 1, k);
    }
  }

  /** The object a record is stored into: a dict, or the `out` object. */
  class Record {
    var fields: map<string, FieldValue>

    constructor ()
      ensures fields == map[]
    {
      fields := map[];
    }
  }

  function Objects(out: Option<Record>): set<Record> {
    if out.Some? then {out.value} else {}
  }

  class FortranBinFile {
    /** The file's bytes. */
    const data: seq<byte>
    /** The read position; a relative seek may move it past the end. */
    var pos: nat

    /** open(filename): the model receives the file's contents. */
    constructor (contents: seq<byte>)
      ensures data == contents && pos == 0
    {
      data := contents;
      pos := 0;
    }

    /** numpy.fromfile(F, uint32, 1): a record marker, or nothing at end of
        file. */
    method ReadMarker() returns (m: Option<nat>)
      modifies this
      ensures old(pos) + 4 <= |data| ==>
        m == Some(UInt32(data[old(pos)..old(pos) + 4])) && pos == old(pos) + 4
      ensures old(pos) + 4 > |data| ==> m.None?
      ensures pos >= old(pos)
    {
      var got := FromFile(data, pos, 4, 1);
      if pos + 4 <= |data| {
        AvailableAll(data, pos, 4, 1);
        assert got.0[0] == data[pos..pos + 4];
      }
      pos := got.1;
      if |got.0| == 0 {
        return None;
      }
      return Some(UInt32(got.0[0]));
    }

    /** One field of the record: an array of Len items for a three-element
        descriptor, a single scalar (item 0 of a one-item read) otherwise.
        Returns false when the scalar read comes back empty. */
    method ReadField(f: Field, rslt: Record) returns (ok: bool)
      modifies this, rslt
      ensures pos >= old(pos)
      ensures old(pos) + Size(f) <= |data| ==>
        ok && pos == old(pos) + Size(f)
        && rslt.fields == old(rslt.fields)[f.name := ValueAt(data, old(pos), f)]
    {
      if pos + Size(f) <= |data| {
        AvailableAll(data, pos, f.itemsize, Count(f));
      }
      if f.len.Some? {
        var got := FromFile(data, pos, f.itemsize, f.len.value);
        rslt.fields := rslt.fields[f.name := Array(got.0)];
        pos := got.1;
      } else {
        var got := FromFile(data, pos, f.itemsize, 1);
        if |got.0| == 0 {
          return false;
        }
        rslt.fields := rslt.fields[f.name := Scalar(got.0[0])];
        pos := got.1;
      }
      return true;
    }

    /** The loop over the descriptors.  When the record's bytes and its
        trailer are all present, the fields are read contiguously from the
        current position and stored in order. */
    method ReadFields(fields: seq<Field>, rslt: Record, reclen: nat) returns (ok: bool)
      requires ExpectedLen(fields) <= reclen
      modifies this, rslt
      ensures pos >= old(pos)
      ensures old(pos) + reclen + 4 <= |data| ==>
        ok && pos == old(pos) + ExpectedLen(fields)
        && rslt.fields == StoreFields(old(rslt.fields), data, old(pos), fields, |fields|)
    {
      ghost var start := pos;
      ghost var acc := rslt.fields;
      ghost var complete := start + reclen + 4 <= |data|;
      var i := 0;
      while i < |fields|
        invariant 0 <= i <= |fields|
        invariant complete ==> pos == start + Offset(fields, i)
        invariant complete ==> start + Offset(fields, i) <= |data|
        invariant complete ==> rslt.fields == StoreFields(acc, data, start, fields, i)
        invariant pos >= start
      {
        OffsetMonotone(fields, i + 1, |fields|);
        ok := ReadField(fields[i], rslt);
        if !ok {
          return false;
        }
        i := i + 1;
      }
      return true;
    }

    /** read: one record.  The header's length must cover the descriptors,
        else IOError before any field is read; fields are read in order;
        unread record bytes are skipped; a trailer that differs from the
        header raises IOError (after the fields have been stored).  At end
        of file the header or trailer comes back empty and formatting it for
        the debug message raises TypeError, and an empty scalar read raises
        IndexError. */
    method Read(fields: seq<Field>, out: Option<Record>) returns (r: Result<Record>)
      modifies this, Objects(out)
      ensures r.Err? ==> r.error in {TypeError, IOError, IndexError}
      ensures old(pos) + 4 > |data| ==> r == Err(TypeError)
      ensures r.Ok? && out.Some? ==> r.value == out.value
      ensures r.Ok? && out.None? ==> fresh(r.value)
      ensures old(pos) + 4 <= |data| && ExpectedLen(fields) > UInt32(data[old(pos)..old(pos) + 4]) ==>
        r == Err(IOError) && pos == old(pos) + 4 && (out.Some? ==> out.value.fields == old(out.value.fields))
      ensures (old(pos) + 4 <= |data| && ExpectedLen(fields) <= UInt32(data[old(pos)..old(pos) + 4])
        && old(pos) + 8 + UInt32(data[old(pos)..old(pos) + 4]) <= |data|) ==>
        var reclen := UInt32(data[old(pos)..old(pos) + 4]);
        var start := old(pos) + 4;
        && pos == old(pos) + 8 + reclen
        && (r.Ok? <==> UInt32(data[start + reclen..start + reclen + 4]) == reclen)
        && (out.Some? ==> out.value.fields == StoreFields(old(out.value.fields), data, start, fields, |fields|))
        && (out.None? && r.Ok? ==> r.value.fields == StoreFields(map[], data, start, fields, |fields|))
    {
      var header := ReadMarker();
      if header.None? {
        return Err(TypeError);
      }
      ghost var start := pos;
      var reclen := header.value;
      var expectedLen := ExpectedLen(fields);
      if expectedLen > reclen {
        return Err(IOError);
      }
      var rslt: Record;
      if out.Some? {
        rslt := out.value;
      } else {
        rslt := new Record();
      }
      var ok := ReadFields(fields, rslt, reclen);
      if !ok {
        return Err(IndexError);
      }
      if expectedLen < reclen {
        pos := pos + (reclen - expectedLen);
      }
      var trailer := ReadMarker();
      if trailer.None? {
        return Err(TypeError);
      }
      if trailer.value != reclen {
        return Err(IOError);
      }
      return Ok(rslt);
    }
  }
}
