/** The Thrift compact protocol: the corpus builder's writer
    (tools/fuzz-corpus.py:123-181) and what a tree of values looks like in it. */
module Compact {
  import opened Wire

  const STOP := 0
  const BOOL_TRUE := 1
  const I32_TYPE := 5
  const I64_TYPE := 6
  const BINARY := 8
  const LIST := 9
  const MAP := 11
  const STRUCT := 12

  datatype Value =
    | True
    | I32(number: int)
    | I64(number: int)
    | Binary(bytes: seq<byte>)
    | List(element: byte, items: Items)
    | Map(key: byte, element: byte, entries: Entries)
    | Struct(fields: Fields)

  datatype Items = NoItem | Item(head: Value, tail: Items) {
    function Size(): nat {
      if NoItem? then 0 else 1 + tail.Size()
    }
  }

  datatype Entries = NoEntry | Entry(key: Value, value: Value, tail: Entries) {
    function Size(): nat {
      if NoEntry? then 0 else 1 + tail.Size()
    }
  }

  datatype Fields = NoField | FieldOf(id: int, value: Value, tail: Fields)

  function TypeId(v: Value): (t: byte)
    ensures 1 <= t < 16
  {
    match v
    case True => BOOL_TRUE
    case I32(_) => I32_TYPE
    case I64(_) => I64_TYPE
    case Binary(_) => BINARY
    case List(_, _) => LIST
    case Map(_, _, _) => MAP
    case Struct(_) => STRUCT
  }

  // ----- the bytes of each piece

  function FieldHeader(t: byte, id: int, last: int): seq<byte>
    requires t < 16
  {
    if 1 <= id - last <= 15 then [(id - last) * 16 + t] else [t] + Varint(ZigZag(id, 32))
  }

  function ListHeader(element: byte, size: nat): seq<byte>
    requires element < 16
  {
    if size < 15 then [size * 16 + element] else [0xF0 + element] + Varint(size)
  }

  function MapHeader(key: byte, element: byte, size: nat): seq<byte>
    requires key < 16 && element < 16
  {
    Varint(size) + (if size == 0 then [] else [key * 16 + element])
  }

  function BinaryBytes(payload: seq<byte>): seq<byte> {
    Varint(|payload|) + payload
  }

  /** A field header is one byte exactly when the identifier is at most fifteen past
      the last, and a list header exactly when the list has fewer than fifteen
      elements. With what the reader finds in them, that fixes every header. */
  lemma {:induction false} HeaderLengths(t: byte, id: int, last: int, size: nat)
    requires t < 16
    ensures |FieldHeader(t, id, last)| == 1 <==> 1 <= id - last <= 15
    ensures |ListHeader(t, size)| == 1 <==> size < 15
    ensures |MapHeader(t, t, size)| == 1 <==> size == 0
  {
  }

  /** The trees the writer's methods can spell: every element of a collection
      has the collection's element type, numbers fit their width, field
      identifiers fit the reader's sixteen bits, and a bare `true` appears only
      as a field. */
  predicate WellFormed(v: Value) {
    match v
    case True => true
    case I32(n) => Signed(n, 32)
    case I64(n) => Signed(n, 64)
    case Binary(b) => |b| < U64
    case List(t, items) => t < 16 && items.Size() < U64 && WellFormedItems(t, items)
    case Map(kt, vt, entries) => kt < 16 && vt < 16 && entries.Size() < U64 && WellFormedEntries(kt, vt, entries)
    case Struct(fields) => WellFormedFields(fields)
  }

  predicate WellFormedItems(t: byte, items: Items)
    decreases items
  {
    items.Item? ==> IsElement(t, items.head) && WellFormed(items.head) && WellFormedItems(t, items.tail)
  }

  predicate WellFormedEntries(kt: byte, vt: byte, entries: Entries)
    decreases entries
  {
    entries.Entry? ==>
      && IsElement(kt, entries.key) && WellFormed(entries.key)
      && IsElement(vt, entries.value) && WellFormed(entries.value)
      && WellFormedEntries(kt, vt, entries.tail)
  }

  predicate WellFormedFields(fields: Fields)
    decreases fields
  {
    fields.FieldOf? ==>
      -0x8000 <= fields.id < 0x8000 && WellFormed(fields.value) && WellFormedFields(fields.tail)
  }

  predicate IsElement(t: byte, v: Value) { TypeId(v) == t && !v.True? }

  /** A value's bytes. A boolean field has none of its own. */
  function Encode(v: Value): seq<byte>
    requires WellFormed(v)
  {
    match v
    case True => []
    case I32(n) => Varint(ZigZag(n, 32))
    case I64(n) => Varint(ZigZag(n, 64))
    case Binary(b) => BinaryBytes(b)
    case List(t, items) => ListHeader(t, items.Size()) + EncodeItems(t, items)
    case Map(kt, vt, entries) => MapHeader(kt, vt, entries.Size()) + EncodeEntries(kt, vt, entries)
    case Struct(fields) => EncodeFields(fields, 0)
  }

  function EncodeItems(t: byte, items: Items): seq<byte>
    requires WellFormedItems(t, items)
    decreases items
  {
    if items.NoItem? then [] else Encode(items.head) + EncodeItems(t, items.tail)
  }

  function EncodeEntries(kt: byte, vt: byte, entries: Entries): seq<byte>
    requires WellFormedEntries(kt, vt, entries)
    decreases entries
  {
    if entries.NoEntry? then []
    else Encode(entries.key) + Encode(entries.value) + EncodeEntries(kt, vt, entries.tail)
  }

  function EncodeFields(fields: Fields, last: int): seq<byte>
    requires WellFormedFields(fields)
    decreases fields
  {
    if fields.NoField? then [STOP]
    else
      FieldHeader(TypeId(fields.value), fields.id, last) + Encode(fields.value) +
      EncodeFields(fields.tail, fields.id)
  }

  // ----- the writer

  class Writer {
    var out: seq<byte>

    constructor ()
      ensures out == []
    {
      out := [];
    }

    method Varint_(value: nat)
      modifies this
      ensures out == old(out) + Varint(value)
    {
      var bytes := WriteVarint(value);
      out := out + bytes.value;
    }

    /** Write a field header. `last` is the one-element list that carries the
        previous identifier of the same struct. */
    method Field(typeId: byte, fieldId: int, last: array<int>)
      requires typeId < 16 && last.Length == 1
      modifies this, last
      ensures out == old(out) + FieldHeader(typeId, fieldId, old(last[0]))
      ensures |out| == |old(out)| + 1 <==> 1 <= fieldId - old(last[0]) <= 15
      ensures last[0] == fieldId
    {
      hide ZigZag, Varint;
      var delta := fieldId - last[0];
      if 1 <= delta <= 15 {
        out := out + [delta * 16 + typeId];
      } else {
        out := out + [typeId];
        Varint_(ZigZag(fieldId, 32));
      }
      last[0] := fieldId;
    }

    method WriteListHeader(element: byte, size: nat)
      requires element < 16
      modifies this
      ensures out == old(out) + ListHeader(element, size)
      ensures |out| == |old(out)| + 1 <==> size < 15
    {
      hide Varint;
      if size < 15 {
        out := out + [size * 16 + element];
      } else {
        out := out + [0xF0 + element];
        Varint_(size);
      }
    }

    method WriteMapHeader(key: byte, element: byte, size: nat)
      requires key < 16 && element < 16
      modifies this
      ensures out == old(out) + MapHeader(key, element, size)
      ensures |out| == |old(out)| + 1 <==> size == 0
    {
      Varint_(size);
      if size != 0 {
        out := out + [key * 16 + element];
      }
    }

    method WriteBinary(payload: seq<byte>)
      modifies this
      ensures out == old(out) + BinaryBytes(payload)
    {
      Varint_(|payload|);
      out := out + payload;
    }

    method WriteI64(value: int)
      modifies this
      ensures out == old(out) + Varint(ZigZag(value, 64))
    {
      Varint_(ZigZag(value, 64));
    }

    method WriteI32(value: int)
      modifies this
      ensures out == old(out) + Varint(ZigZag(value, 32))
    {
      Varint_(ZigZag(value, 32));
    }

    method Stop()
      modifies this
      ensures out == old(out) + [STOP]
    {
      out := out + [STOP];
    }
  }
}
