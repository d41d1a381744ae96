/** What the compact writer spells, the reader reads back and skips over
    (tools/fuzz-corpus.py:123-170 against compact_input.rs). */
module CompactReads {
  import opened Basics
  import opened Bits
  import opened Wire
  import opened Compact
  import opened CompactReader

  /** What survives the wire: everything but the element types of an empty map. */
  function Erase(v: Value): Value {
    match v
    case List(t, items) => List(t, EraseItems(items))
    case Map(kt, vt, entries) =>
      if entries.NoEntry? then Map(STOP, STOP, NoEntry) else Map(kt, vt, EraseEntries(entries))
    case Struct(fields) => Struct(EraseFields(fields))
    case _ => v
  }

  function EraseItems(items: Items): Items {
    if items.NoItem? then NoItem else Item(Erase(items.head), EraseItems(items.tail))
  }

  function EraseEntries(entries: Entries): Entries {
    if entries.NoEntry? then NoEntry
    else Entry(Erase(entries.key), Erase(entries.value), EraseEntries(entries.tail))
  }

  function EraseFields(fields: Fields): Fields {
    if fields.NoField? then NoField
    else FieldOf(fields.id, Erase(fields.value), EraseFields(fields.tail))
  }

  // ----- scalars and headers

  lemma {:induction false} I32Reads(n: int, k: seq<byte>)
    requires Signed(n, 32)
    ensures ReadI32(Varint(ZigZag(n, 32)) + k) == Got(n, k)
  {
    hide Varint, ZigZag, UnZigZag, ReadVarint;
    ZigZag32(n);
    VarintReads(ZigZag(n, 32), k);
  }

  lemma {:induction false} I64Reads(n: int, k: seq<byte>)
    requires Signed(n, 64)
    ensures ReadI64(Varint(ZigZag(n, 64)) + k) == Got(n, k)
  {
    hide Varint, ZigZag, UnZigZag, ReadVarint;
    ZigZag64(n);
    VarintReads(ZigZag(n, 64), k);
  }

  lemma {:induction false} BinaryReads(b: seq<byte>, k: seq<byte>)
    requires |b| < U64
    ensures ReadBinary(BinaryBytes(b) + k) == Got(b, k)
  {
    hide Varint, ReadVarint;
    VarintReads(|b|, b + k);
    assert BinaryBytes(b) + k == Varint(|b|) + (b + k);
    assert (b + k)[..|b|] == b && (b + k)[|b|..] == k;
  }

  lemma {:induction false} U8Reads(b: byte, k: seq<byte>)
    ensures ReadU8([b] + k) == Got(b, k)
  {
    assert ([b] + k)[1..] == k;
  }

  lemma {:induction false} Short16(n: int)
    requires -0x8000 <= n < 0x8000
    ensures Signed(n, 32)
  {
    Pow2Values();
  }

  lemma {:induction false} FieldHeadReads(t: byte, id: int, last: int, k: seq<byte>)
    requires 1 <= t < 16 && -0x8000 <= id < 0x8000
    ensures ReadFieldHead(FieldHeader(t, id, last) + k, last) == Got(Some(FieldHead(t, id)), k)
  {
    hide Varint, ZigZag, ReadI32;
    if 1 <= id - last <= 15 {
      U8Reads((id - last) * 16 + t, k);
    } else {
      var tail := Varint(ZigZag(id, 32)) + k;
      U8Reads(t, tail);
      Short16(id);
      I32Reads(id, k);
      assert FieldHeader(t, id, last) + k == [t] + tail;
    }
  }

  lemma {:induction false} StopReads(last: int, k: seq<byte>)
    ensures ReadFieldHead([STOP] + k, last) == Got(None, k)
  {
    U8Reads(STOP, k);
  }

  lemma {:induction false} ListHeadReads(t: byte, size: nat, k: seq<byte>)
    requires t < 16 && size < U64 && CollectionFits(t, size, |k|)
    ensures ReadListHead(ListHeader(t, size) + k) == Got(ListHead(t, size), k)
  {
    hide Varint, ReadVarint;
    if size < 15 {
      U8Reads(size * 16 + t, k);
    } else {
      U8Reads(0xF0 + t, Varint(size) + k);
      VarintReads(size, k);
      assert ListHeader(t, size) + k == [0xF0 + t] + (Varint(size) + k);
    }
  }

  lemma {:induction false} MapHeadReads(kt: byte, vt: byte, size: nat, k: seq<byte>)
    requires kt < 16 && vt < 16 && size < U64
    requires CollectionFits(kt, size, |k|) && CollectionFits(vt, size, |k|)
    ensures ReadMapHead(MapHeader(kt, vt, size) + k) ==
            Got(if size == 0 then MapHead(STOP, STOP, 0) else MapHead(kt, vt, size), k)
  {
    hide Varint, ReadVarint;
    if size == 0 {
      VarintReads(0, k);
      assert MapHeader(kt, vt, size) == Varint(0);
    } else {
      VarintReads(size, [kt * 16 + vt] + k);
      U8Reads(kt * 16 + vt, k);
      assert MapHeader(kt, vt, size) + k == Varint(size) + ([kt * 16 + vt] + k);
    }
  }

  // ----- every element takes a byte, so a collection fits its own bytes

  lemma {:induction false} ElementBytes(v: Value)
    requires WellFormed(v) && !v.True?
    ensures |Encode(v)| >= 1
  {
    hide Varint, ZigZag;
    if v.Struct? && v.fields.FieldOf? {
      assert |FieldHeader(TypeId(v.fields.value), v.fields.id, 0)| >= 1;
    }
  }

  lemma {:induction false} ItemsBytes(t: byte, items: Items)
    requires WellFormedItems(t, items)
    ensures |EncodeItems(t, items)| >= items.Size()
    ensures items.Item? ==> t != STOP
  {
    if items.Item? {
      ElementBytes(items.head);
      ItemsBytes(t, items.tail);
    }
  }

  lemma {:induction false} EntriesBytes(kt: byte, vt: byte, entries: Entries)
    requires WellFormedEntries(kt, vt, entries)
    ensures |EncodeEntries(kt, vt, entries)| >= entries.Size()
    ensures entries.Entry? ==> kt != STOP && vt != STOP
  {
    if entries.Entry? {
      ElementBytes(entries.key);
      EntriesBytes(kt, vt, entries.tail);
    }
  }

  // ----- the round trip

  /** A well-formed tree, written and read, is itself up to the types of empty
      maps, and the bytes after it are untouched. */
  lemma {:induction false} ValueReads(v: Value, k: seq<byte>)
    requires WellFormed(v)
    ensures ReadValue(TypeId(v), Encode(v) + k) == Got(Erase(v), k)
    decreases v
  {
    hide Varint, ZigZag, ReadVarint, ReadI32, ReadI64, ReadBinary, ReadListHead, ReadMapHead, Signed,
         ReadItems, ReadEntries, ReadFields, EncodeItems, EncodeEntries, EncodeFields, ListHeader, MapHeader;
    match v
    case True => assert [] + k == k;
    case I32(n) => I32Reads(n, k);
    case I64(n) => I64Reads(n, k);
    case Binary(b) => BinaryReads(b, k);
    case List(t, items) =>
      var body := EncodeItems(t, items) + k;
      ItemsBytes(t, items);
      ListHeadReads(t, items.Size(), body);
      ItemsRead(t, items, k);
      assert Encode(v) + k == ListHeader(t, items.Size()) + body;
    case Map(kt, vt, entries) =>
      var body := EncodeEntries(kt, vt, entries) + k;
      EntriesBytes(kt, vt, entries);
      MapHeadReads(kt, vt, entries.Size(), body);
      if entries.NoEntry? {
        NoEntriesRead(body);
        NoEntriesEncode(kt, vt, k);
      } else {
        EntriesRead(kt, vt, entries, k);
      }
      assert Encode(v) + k == MapHeader(kt, vt, entries.Size()) + body;
    case Struct(fields) => FieldsRead(fields, 0, k);
  }

  lemma {:induction false} NoEntriesEncode(kt: byte, vt: byte, k: seq<byte>)
    ensures EncodeEntries(kt, vt, NoEntry) + k == k
  {
  }

  lemma {:induction false} NoEntriesRead(s: seq<byte>)
    ensures ReadEntries(STOP, STOP, 0, s) == Got(NoEntry, s)
  {
  }

  lemma {:induction false} ItemsRead(t: byte, items: Items, k: seq<byte>)
    requires WellFormedItems(t, items)
    ensures ReadItems(t, items.Size(), EncodeItems(t, items) + k) == Got(EraseItems(items), k)
    decreases items
  {
    hide ReadValue, Encode;
    if items.NoItem? {
      assert [] + k == k;
    } else {
      var tail := EncodeItems(t, items.tail) + k;
      ValueReads(items.head, tail);
      ItemsRead(t, items.tail, k);
      assert EncodeItems(t, items) + k == Encode(items.head) + tail;
    }
  }

  lemma {:induction false} EntriesRead(kt: byte, vt: byte, entries: Entries, k: seq<byte>)
    requires WellFormedEntries(kt, vt, entries)
    ensures ReadEntries(kt, vt, entries.Size(), EncodeEntries(kt, vt, entries) + k) == Got(EraseEntries(entries), k)
    decreases entries
  {
    hide ReadValue, Encode;
    if entries.NoEntry? {
      assert [] + k == k;
    } else {
      var tail := EncodeEntries(kt, vt, entries.tail) + k;
      ValueReads(entries.key, Encode(entries.value) + tail);
      ValueReads(entries.value, tail);
      EntriesRead(kt, vt, entries.tail, k);
      assert EncodeEntries(kt, vt, entries) + k == Encode(entries.key) + (Encode(entries.value) + tail);
    }
  }

  lemma {:induction false} FieldsRead(fields: Fields, last: int, k: seq<byte>)
    requires WellFormedFields(fields)
    ensures ReadFields(EncodeFields(fields, last) + k, last) == Got(EraseFields(fields), k)
    decreases fields
  {
    hide ReadValue, Encode, ReadFieldHead, FieldHeader;
    if fields.NoField? {
      StopReads(last, k);
    } else {
      var tail := EncodeFields(fields.tail, fields.id) + k;
      FieldHeadReads(TypeId(fields.value), fields.id, last, Encode(fields.value) + tail);
      ValueReads(fields.value, tail);
      FieldsRead(fields.tail, fields.id, k);
      assert EncodeFields(fields, last) + k ==
             FieldHeader(TypeId(fields.value), fields.id, last) + (Encode(fields.value) + tail);
    }
  }

  /** A field header carries its identifier exactly when the identifier fits in
      sixteen bits. Past that the long form is refused or wraps, and the short
      form saturates. */
  lemma {:induction false} FieldIdIsExact(t: byte, id: int, last: int, k: seq<byte>)
    requires 1 <= t < 16 && -0x8000 <= last < 0x8000
    ensures ReadFieldHead(FieldHeader(t, id, last) + k, last) == Got(Some(FieldHead(t, id)), k)
            <==> -0x8000 <= id < 0x8000
  {
    if -0x8000 <= id < 0x8000 {
      FieldHeadReads(t, id, last, k);
    } else {
      var r := ReadFieldHead(FieldHeader(t, id, last) + k, last);
      assert r.Got? && r.value.Some? ==> -0x8000 <= r.value.value.id < 0x8000;
    }
  }

  // ----- skipping

  /** How many structs and collections lie inside one another. */
  function Nesting(v: Value): nat {
    match v
    case List(_, items) => 1 + ItemsNesting(items)
    case Map(_, _, entries) => 1 + EntriesNesting(entries)
    case Struct(fields) => 1 + FieldsNesting(fields)
    case _ => 0
  }

  function ItemsNesting(items: Items): nat {
    if items.NoItem? then 0 else Max(Nesting(items.head), ItemsNesting(items.tail))
  }

  function EntriesNesting(entries: Entries): nat {
    if entries.NoEntry? then 0
    else Max(Nesting(entries.key), Max(Nesting(entries.value), EntriesNesting(entries.tail)))
  }

  function FieldsNesting(fields: Fields): nat {
    if fields.NoField? then 0 else Max(Nesting(fields.value), FieldsNesting(fields.tail))
  }

  /** Skipping `n` more levels from `depth` lands on `k`, or is refused when it
      would go too deep. */
  ghost predicate SkipsTo(r: Decoded<()>, depth: nat, n: nat, k: seq<byte>) {
    if depth + n <= 64 then r == Got((), k) else r.Refused?
  }

  /** A reader that skips a well-formed value lands exactly behind it if the
      value nests no deeper than the limit allows, and refuses it otherwise. */
  lemma {:induction false} ValueSkips(v: Value, k: seq<byte>, depth: nat)
    requires WellFormed(v) && depth <= MAX_SKIP_DEPTH
    ensures SkipsTo(SkipValue(TypeId(v), Encode(v) + k, depth), depth, Nesting(v), k)
    decreases v
  {
    hide Varint, ZigZag, ReadVarint, ReadI32, ReadI64, ReadBinary, ReadListHead, ReadMapHead, Signed,
         SkipItems, SkipEntries, SkipFields, EncodeItems, EncodeEntries, EncodeFields,
         ItemsNesting, EntriesNesting, FieldsNesting;
    match v
    case True => assert [] + k == k;
    case I32(n) => I32Reads(n, k);
    case I64(n) => I64Reads(n, k);
    case Binary(b) => BinaryReads(b, k);
    case List(t, items) =>
      if depth < MAX_SKIP_DEPTH {
        var body := EncodeItems(t, items) + k;
        ItemsBytes(t, items);
        ListHeadReads(t, items.Size(), body);
        ItemsSkip(t, items, k, depth + 1);
        assert Encode(v) + k == ListHeader(t, items.Size()) + body;
      }
    case Map(kt, vt, entries) =>
      if depth < MAX_SKIP_DEPTH {
        var body := EncodeEntries(kt, vt, entries) + k;
        EntriesBytes(kt, vt, entries);
        MapHeadReads(kt, vt, entries.Size(), body);
        NoEntriesSkip(kt, vt, body, depth + 1);
        EntriesSkip(kt, vt, entries, k, depth + 1);
        assert Encode(v) + k == MapHeader(kt, vt, entries.Size()) + body;
      }
    case Struct(fields) =>
      if depth < MAX_SKIP_DEPTH {
        FieldsSkip(fields, 0, k, depth + 1);
      }
  }

  lemma {:induction false} NoEntriesSkip(kt: byte, vt: byte, s: seq<byte>, depth: nat)
    ensures SkipEntries(STOP, STOP, 0, s, depth) == SkipEntries(kt, vt, 0, s, depth)
  {
  }

  lemma {:induction false} ElementSkips(v: Value, s: seq<byte>, depth: nat)
    requires !v.True?
    ensures SkipElement(TypeId(v), s, depth) == SkipValue(TypeId(v), s, depth)
  {
    hide SkipValue;
  }

  lemma {:induction false} ItemsSkip(t: byte, items: Items, k: seq<byte>, depth: nat)
    requires WellFormedItems(t, items) && depth <= MAX_SKIP_DEPTH
    ensures SkipsTo(SkipItems(t, items.Size(), EncodeItems(t, items) + k, depth), depth, ItemsNesting(items), k)
    decreases items
  {
    hide SkipValue, SkipElement, Encode, Nesting;
    if items.NoItem? {
      assert [] + k == k;
    } else {
      var tail := EncodeItems(t, items.tail) + k;
      ElementSkips(items.head, Encode(items.head) + tail, depth);
      ValueSkips(items.head, tail, depth);
      ItemsSkip(t, items.tail, k, depth);
      assert EncodeItems(t, items) + k == Encode(items.head) + tail;
    }
  }

  lemma {:induction false} EntriesSkip(kt: byte, vt: byte, entries: Entries, k: seq<byte>, depth: nat)
    requires WellFormedEntries(kt, vt, entries) && depth <= MAX_SKIP_DEPTH
    ensures SkipsTo(SkipEntries(kt, vt, entries.Size(), EncodeEntries(kt, vt, entries) + k, depth),
                    depth, EntriesNesting(entries), k)
    decreases entries
  {
    hide SkipValue, SkipElement, Encode, Nesting;
    if entries.NoEntry? {
      assert [] + k == k;
    } else {
      var tail := EncodeEntries(kt, vt, entries.tail) + k;
      var middle := Encode(entries.value) + tail;
      ElementSkips(entries.key, Encode(entries.key) + middle, depth);
      ElementSkips(entries.value, middle, depth);
      ValueSkips(entries.key, middle, depth);
      ValueSkips(entries.value, tail, depth);
      EntriesSkip(kt, vt, entries.tail, k, depth);
      assert EncodeEntries(kt, vt, entries) + k == Encode(entries.key) + middle;
    }
  }

  lemma {:induction false} SkipFieldsStep(s: seq<byte>, last: int, depth: nat, head: FieldHead, r: seq<byte>)
    requires ReadFieldHead(s, last) == Got(Some(head), r)
    ensures var v := SkipValue(head.typeId, r, depth);
            SkipFields(s, last, depth) == if v.Refused? then v else SkipFields(v.rest, head.id, depth)
  {
    hide SkipValue, ReadFieldHead;
  }

  lemma {:induction false} NoFieldsSkip(last: int, k: seq<byte>, depth: nat)
    ensures SkipFields([STOP] + k, last, depth) == Got((), k)
  {
    hide ReadFieldHead;
    StopReads(last, k);
  }

  lemma {:induction false} FieldsSkip(fields: Fields, last: int, k: seq<byte>, depth: nat)
    requires WellFormedFields(fields) && depth <= MAX_SKIP_DEPTH
    ensures SkipsTo(SkipFields(EncodeFields(fields, last) + k, last, depth), depth, FieldsNesting(fields), k)
    decreases fields
  {
    hide SkipValue, SkipFields, Encode, ReadFieldHead, FieldHeader, Nesting, EncodeFields;
    if fields.NoField? {
      NoFieldsEncode(fields, last);
      NoFieldsSkip(last, k, depth);
    } else {
      FieldsEncode(fields, last, k);
      var head := FieldHead(TypeId(fields.value), fields.id);
      var tail := EncodeFields(fields.tail, fields.id) + k;
      var body := Encode(fields.value) + tail;
      FieldHeadReads(head.typeId, fields.id, last, body);
      SkipFieldsStep(FieldHeader(head.typeId, fields.id, last) + body, last, depth, head, body);
      ValueSkips(fields.value, tail, depth);
      FieldsSkip(fields.tail, fields.id, k, depth);
    }
  }

  lemma {:induction false} NoFieldsEncode(fields: Fields, last: int)
    requires fields.NoField?
    ensures EncodeFields(fields, last) == [STOP]
  {
  }

  lemma {:induction false} FieldsEncode(fields: Fields, last: int, k: seq<byte>)
    requires fields.FieldOf? && WellFormedFields(fields)
    ensures EncodeFields(fields, last) + k ==
            FieldHeader(TypeId(fields.value), fields.id, last) +
            (Encode(fields.value) + (EncodeFields(fields.tail, fields.id) + k))
  {
    hide Encode, FieldHeader;
  }

  /** Whatever the bytes, what the reader accepts is bounded: numbers fit their width, and
      a collection has no more elements than there are bytes left, and a real type. */
  lemma {:induction false} AcceptedIsBounded(s: seq<byte>, last: int)
    requires -0x8000 <= last < 0x8000
    ensures ReadI32(s).Got? ==> Signed(ReadI32(s).value, 32)
    ensures ReadI64(s).Got? ==> Signed(ReadI64(s).value, 64)
    ensures ReadFieldHead(s, last).Got? && ReadFieldHead(s, last).value.Some? ==>
              -0x8000 <= ReadFieldHead(s, last).value.value.id < 0x8000
    ensures ReadListHead(s).Got? && ReadListHead(s).value.size > 0 ==>
              ReadListHead(s).value.element != 0 && ReadListHead(s).value.size <= |ReadListHead(s).rest|
    ensures ReadMapHead(s).Got? && ReadMapHead(s).value.size > 0 ==>
              && ReadMapHead(s).value.key != 0 && ReadMapHead(s).value.element != 0
              && ReadMapHead(s).value.size <= |ReadMapHead(s).rest|
  {
    hide ReadVarint, Pow2, ZigZag;
    Pow2Values();
    var u := ReadVarint(s);
    if u.Got? {
      UnZigZagValue(u.value);
    }
  }
}
