/** C structs without padding, in little-endian byte order. */
module Packed {
  import opened Words

  datatype Field = Byte(b: u8) | Half(h: u16) | Word(w: u32) | Long(l: u64) | Raw(bytes: Bytes)

  function Encode(f: Field): Bytes {
    match f
    case Byte(b) => [b]
    case Half(h) => Le16(h)
    case Word(w) => Le32(w)
    case Long(l) => Le64(l)
    case Raw(bytes) => bytes
  }

  function Size(f: Field): (n: nat)
    ensures n == |Encode(f)|
  {
    match f
    case Byte(_) => 1
    case Half(_) => 2
    case Word(_) => 4
    case Long(_) => 8
    case Raw(bytes) => |bytes|
  }

  function Struct(fields: seq<Field>): Bytes {
    if fields == [] then [] else Encode(fields[0]) + Struct(fields[1..])
  }

  /** Where field `i` starts. */
  function Start(fields: seq<Field>, i: nat): nat
    requires i <= |fields|
  {
    if i == 0 then 0 else Start(fields, i - 1) + Size(fields[i - 1])
  }

  /** Reading at `off` gives the field's value. */
  predicate Reads(data: Bytes, off: nat, f: Field) {
    off + Size(f) <= |data| &&
    match f
    case Byte(b) => data[off] == b
    case Half(h) => U16At(data, off) == h
    case Word(w) => U32At(data, off) == w
    case Long(l) => U64At(data, off) == l
    case Raw(bytes) => data[off..off + |bytes|] == bytes
  }

  lemma FirstField(fields: seq<Field>)
    ensures Start(fields, 0) == 0
  {
  }

  lemma NextField(fields: seq<Field>, i: nat)
    requires i < |fields|
    ensures Start(fields, i + 1) == Start(fields, i) + Size(fields[i])
  {
  }

  lemma {:induction false} OffsetBehindFirst(fields: seq<Field>, i: nat)
    requires 0 < i <= |fields|
    ensures Start(fields, i) == Size(fields[0]) + Start(fields[1..], i - 1)
    decreases i
  {
    hide Size;
    if i > 1 {
      OffsetBehindFirst(fields, i - 1);
    }
  }

  lemma EncodedReads(data: Bytes, off: nat, f: Field)
    requires At(data, off, Encode(f))
    ensures Reads(data, off, f)
  {
    hide U16At, U32At, U64At, Le16, Le32, Le64;
    if f.Byte? {
      assert data[off..off + 1][0] == data[off];
    } else {
      FieldInWindow(data, off, Encode(f), 0);
    }
  }

  /** A struct standing in the data reads back field by field. */
  lemma {:induction false} FieldReads(data: Bytes, off: nat, fields: seq<Field>, i: nat)
    requires i < |fields| && At(data, off, Struct(fields))
    ensures Reads(data, off + Start(fields, i), fields[i])
    decreases i
  {
    hide Encode, Size, Reads, At;
    AtSplits(data, off, Encode(fields[0]), Struct(fields[1..]));
    if i == 0 {
      EncodedReads(data, off, fields[0]);
    } else {
      OffsetBehindFirst(fields, i);
      FieldReads(data, off + Size(fields[0]), fields[1..], i - 1);
    }
  }

  lemma StructFits(payload: Bytes, off: nat, fields: seq<Field>)
    requires At(payload, off, Struct(fields))
    ensures off + Start(fields, |fields|) <= |payload|
  {
    StructSize(fields);
  }

  lemma {:induction false} StructSize(fields: seq<Field>)
    ensures |Struct(fields)| == Start(fields, |fields|)
  {
    if fields != [] {
      StructSize(fields[1..]);
      OffsetBehindFirst(fields, |fields|);
    }
  }

  lemma {:induction false} WordStarts(fields: seq<Field>, k: nat)
    requires k <= |fields| && forall i :: 0 <= i < k ==> fields[i].Word?
    ensures Start(fields, k) == 4 * k
  {
    if k > 0 {
      WordStarts(fields, k - 1);
    }
  }
}
