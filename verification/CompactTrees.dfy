/** Any tree, spelled with the writer's calls, a fresh `last` for each struct, as
    the corpus builders spell theirs (tools/fuzz-corpus.py:123-170). */
module CompactTrees {
  import opened Wire
  import opened Compact
  import opened CompactReader
  import opened CompactReads

  method WriteValue(writer: Writer, v: Value)
    requires WellFormed(v)
    modifies writer
    ensures writer.out == old(writer.out) + Encode(v)
    decreases v
  {
    hide Varint, ZigZag, ListHeader, MapHeader, BinaryBytes, EncodeItems, EncodeEntries, EncodeFields;
    match v
    case True =>
    case I32(n) => writer.WriteI32(n);
    case I64(n) => writer.WriteI64(n);
    case Binary(b) => writer.WriteBinary(b);
    case List(t, items) =>
      writer.WriteListHeader(t, items.Size());
      WriteItems(writer, t, items);
    case Map(kt, vt, entries) =>
      writer.WriteMapHeader(kt, vt, entries.Size());
      WriteEntries(writer, kt, vt, entries);
    case Struct(fields) =>
      var last := new int[1](_ => 0);
      WriteFields(writer, fields, last);
  }

  method WriteItems(writer: Writer, t: byte, items: Items)
    requires WellFormedItems(t, items)
    modifies writer
    ensures writer.out == old(writer.out) + EncodeItems(t, items)
    decreases items
  {
    hide Encode;
    if items.Item? {
      WriteValue(writer, items.head);
      WriteItems(writer, t, items.tail);
    }
  }

  method WriteEntries(writer: Writer, kt: byte, vt: byte, entries: Entries)
    requires WellFormedEntries(kt, vt, entries)
    modifies writer
    ensures writer.out == old(writer.out) + EncodeEntries(kt, vt, entries)
    decreases entries
  {
    hide Encode;
    if entries.Entry? {
      WriteValue(writer, entries.key);
      WriteValue(writer, entries.value);
      WriteEntries(writer, kt, vt, entries.tail);
    }
  }

  method WriteFields(writer: Writer, fields: Fields, last: array<int>)
    requires WellFormedFields(fields) && last.Length == 1
    modifies writer, last
    ensures writer.out == old(writer.out) + EncodeFields(fields, old(last[0]))
    decreases fields
  {
    hide Encode, FieldHeader;
    if fields.NoField? {
      writer.Stop();
    } else {
      writer.Field(TypeId(fields.value), fields.id, last);
      WriteValue(writer, fields.value);
      WriteFields(writer, fields.tail, last);
    }
  }

  /** The round trip through the writer itself: a fresh buffer, the calls, and a
      reader that gets the tree back and finds nothing after it. */
  method WriteThenRead(v: Value) returns (back: Decoded<Value>)
    requires WellFormed(v)
    ensures back == Got(Erase(v), [])
  {
    hide Encode, ReadValue, Erase;
    var writer := new Writer();
    WriteValue(writer, v);
    ValueReads(v, []);
    assert writer.out == Encode(v) + [];
    back := ReadValue(TypeId(v), writer.out);
  }
}
