/** The compact-protocol reader that the corpus is built for
    (crates/traces/src/wire/jaeger/compact_input.rs), over the bytes still to be
    read. */
module CompactReader {
  import opened Basics
  import opened Wire
  import opened Compact

  datatype FieldHead = FieldHead(typeId: byte, id: int)

  datatype ListHead = ListHead(element: byte, size: nat)

  datatype MapHead = MapHead(key: byte, element: byte, size: nat)

  const BOOL_FALSE := 2
  const MAX_SKIP_DEPTH := 64

  function ReadU8(s: seq<byte>): (r: Decoded<byte>)
    ensures r.Got? ==> |r.rest| < |s|
  {
    if s == [] then Refused("unexpected end of thrift payload") else Got(s[0], s[1..])
  }

  function ReadI32(s: seq<byte>): (r: Decoded<int>)
    ensures r.Got? ==> |r.rest| < |s|
  {
    var (u, r1) :- ReadVarint(s);
    if u >= U32 then Refused("i32 varint out of range") else Got(UnZigZag(u), r1)
  }

  function ReadI64(s: seq<byte>): (r: Decoded<int>)
    ensures r.Got? ==> |r.rest| < |s|
  {
    var (u, r1) :- ReadVarint(s);
    Got(UnZigZag(u), r1)
  }

  function ReadBinary(s: seq<byte>): (r: Decoded<seq<byte>>)
    ensures r.Got? ==> |r.rest| < |s|
  {
    var (size, r1) :- ReadVarint(s);
    if |r1| < size then Refused("unexpected end of thrift payload") else Got(r1[..size], r1[size..])
  }

  function ReadDouble(s: seq<byte>): (r: Decoded<seq<byte>>)
    ensures r.Got? ==> |r.rest| < |s|
  {
    if |s| < 8 then Refused("unexpected end of thrift payload") else Got(s[..8], s[8..])
  }

  /** A field header, or nothing at the end of the struct. */
  function ReadFieldHead(s: seq<byte>, last: int): (r: Decoded<Option<FieldHead>>)
    ensures r.Got? ==> |r.rest| < |s|
  {
    var (header, r1) :- ReadU8(s);
    var typeId, delta := header % 16, header / 16;
    if typeId == STOP then Got(None, r1)
    else if delta == 0 then
      var (id, r2) :- ReadI32(r1);
      if -0x8000 <= id < 0x8000 then Got(Some(FieldHead(typeId, id)), r2)
      else Refused("field id out of range")
    else Got(Some(FieldHead(typeId, if last + delta < 0x8000 then last + delta else 0x7FFF)), r1)
  }

  /** Every element takes at least a byte, and stop is no element type. */
  predicate CollectionFits(element: byte, size: nat, remaining: nat) {
    size == 0 || (element != STOP && size <= remaining)
  }

  function ReadListHead(s: seq<byte>): (r: Decoded<ListHead>)
    ensures r.Got? ==> |r.rest| < |s|
  {
    var (header, r1) :- ReadU8(s);
    var (size, r2) :- if header / 16 == 15 then ReadVarint(r1) else Got(header / 16, r1);
    if CollectionFits(header % 16, size, |r2|) then Got(ListHead(header % 16, size), r2)
    else Refused("collection header")
  }

  function ReadMapHead(s: seq<byte>): (r: Decoded<MapHead>)
    ensures r.Got? ==> |r.rest| < |s|
  {
    var (size, r1) :- ReadVarint(s);
    if size == 0 then Got(MapHead(STOP, STOP, 0), r1)
    else
      var (types, r2) :- ReadU8(r1);
      if CollectionFits(types / 16, size, |r2|) && CollectionFits(types % 16, size, |r2|) then
        Got(MapHead(types / 16, types % 16, size), r2)
      else Refused("collection header")
  }

  // ----- reading a whole value with these steps

  function ReadValue(t: byte, s: seq<byte>): (r: Decoded<Value>)
    ensures r.Got? ==> |r.rest| <= |s|
    decreases |s|, 1
  {
    match t
    case 1 => Got(True, s)
    case 5 =>
      var (n, r1) :- ReadI32(s);
      Got(I32(n), r1)
    case 6 =>
      var (n, r1) :- ReadI64(s);
      Got(I64(n), r1)
    case 8 =>
      var (b, r1) :- ReadBinary(s);
      Got(Binary(b), r1)
    case 9 =>
      var (head, r1) :- ReadListHead(s);
      var (items, r2) :- ReadItems(head.element, head.size, r1);
      Got(List(head.element, items), r2)
    case 11 =>
      var (head, r1) :- ReadMapHead(s);
      var (entries, r2) :- ReadEntries(head.key, head.element, head.size, r1);
      Got(Map(head.key, head.element, entries), r2)
    case 12 =>
      var (fields, r1) :- ReadFields(s, 0);
      Got(Struct(fields), r1)
    case _ => Refused("unknown thrift type")
  }

  function ReadItems(t: byte, n: nat, s: seq<byte>): (r: Decoded<Items>)
    ensures r.Got? ==> |r.rest| <= |s|
    decreases |s|, 2, n
  {
    if n == 0 then Got(NoItem, s)
    else
      var (v, r1) :- ReadValue(t, s);
      var (vs, r2) :- ReadItems(t, n - 1, r1);
      Got(Item(v, vs), r2)
  }

  function ReadEntries(kt: byte, vt: byte, n: nat, s: seq<byte>): (r: Decoded<Entries>)
    ensures r.Got? ==> |r.rest| <= |s|
    decreases |s|, 2, n
  {
    if n == 0 then Got(NoEntry, s)
    else
      var (k, r1) :- ReadValue(kt, s);
      var (v, r2) :- ReadValue(vt, r1);
      var (es, r3) :- ReadEntries(kt, vt, n - 1, r2);
      Got(Entry(k, v, es), r3)
  }

  function ReadFields(s: seq<byte>, last: int): (r: Decoded<Fields>)
    ensures r.Got? ==> |r.rest| < |s|
    decreases |s|, 0
  {
    var (head, r1) :- ReadFieldHead(s, last);
    if head.None? then Got(NoField, r1)
    else
      var (v, r2) :- ReadValue(head.value.typeId, r1);
      var (fs, r3) :- ReadFields(r2, head.value.id);
      Got(FieldOf(head.value.id, v, fs), r3)
  }

  // ----- skipping a value

  function AsUnit<T>(r: Decoded<T>): Decoded<()> {
    match r
    case Got(_, rest) => Got((), rest)
    case Refused(reason) => Refused(reason)
  }

  /** Skip a value that lies `depth` levels inside the outermost struct. */
  function SkipValue(t: byte, s: seq<byte>, depth: nat): (r: Decoded<()>)
    ensures r.Got? ==> |r.rest| <= |s|
    decreases |s|, 1
  {
    match t
    case 0 | 1 | 2 => Got((), s)       // stop, true, false
    case 3 => AsUnit(ReadU8(s))        // byte
    case 4 | 5 => AsUnit(ReadI32(s))   // i16, i32
    case 6 => AsUnit(ReadI64(s))       // i64
    case 7 => AsUnit(ReadDouble(s))    // double
    case 8 => AsUnit(ReadBinary(s))    // binary
    case 12 =>                         // struct
      if depth + 1 > MAX_SKIP_DEPTH then Refused("thrift nesting") else SkipFields(s, 0, depth + 1)
    case 9 | 10 =>                     // list, set
      if depth + 1 > MAX_SKIP_DEPTH then Refused("thrift nesting")
      else
        var (head, r1) :- ReadListHead(s);
        SkipItems(head.element, head.size, r1, depth + 1)
    case 11 =>                         // map
      if depth + 1 > MAX_SKIP_DEPTH then Refused("thrift nesting")
      else
        var (head, r1) :- ReadMapHead(s);
        SkipEntries(head.key, head.element, head.size, r1, depth + 1)
    case _ => Refused("unknown thrift type")
  }

  /** A boolean element, unlike a boolean field, has a byte of its own. */
  function SkipElement(t: byte, s: seq<byte>, depth: nat): (r: Decoded<()>)
    ensures r.Got? ==> |r.rest| <= |s|
    decreases |s|, 2
  {
    if t == BOOL_TRUE || t == BOOL_FALSE then AsUnit(ReadU8(s)) else SkipValue(t, s, depth)
  }

  function SkipItems(t: byte, n: nat, s: seq<byte>, depth: nat): (r: Decoded<()>)
    ensures r.Got? ==> |r.rest| <= |s|
    decreases |s|, 3, n
  {
    if n == 0 then Got((), s)
    else
      var (_, r1) :- SkipElement(t, s, depth);
      SkipItems(t, n - 1, r1, depth)
  }

  function SkipEntries(kt: byte, vt: byte, n: nat, s: seq<byte>, depth: nat): (r: Decoded<()>)
    ensures r.Got? ==> |r.rest| <= |s|
    decreases |s|, 3, n
  {
    if n == 0 then Got((), s)
    else
      var (_, r1) :- SkipElement(kt, s, depth);
      var (_, r2) :- SkipElement(vt, r1, depth);
      SkipEntries(kt, vt, n - 1, r2, depth)
  }

  function SkipFields(s: seq<byte>, last: int, depth: nat): (r: Decoded<()>)
    ensures r.Got? ==> |r.rest| <= |s|
    decreases |s|, 0
  {
    var (head, r1) :- ReadFieldHead(s, last);
    if head.None? then Got((), r1)
    else
      var (_, r2) :- SkipValue(head.value.typeId, r1, depth);
      SkipFields(r2, head.value.id, depth)
  }
}
