/** Protobuf fields as the corpus builder writes them (tools/fuzz-corpus.py:91-117)
    and a reader for the three wire types it uses. */
module Protobuf {
  import opened Basics
  import opened Bits
  import opened Wire

  /** One field on the wire. Field numbers and the meaning of a payload are the
      message's business. */
  datatype Field =
    | VarintField(number: nat, value: nat)
    | Fixed64Field(number: nat, bits: seq<byte>)
    | BytesField(number: nat, payload: seq<byte>)

  function PbVarint(number: nat, value: nat): seq<byte> {
    Varint(number * 8) + Varint(value)
  }

  function PbSint32(number: nat, value: int): seq<byte> {
    Varint(number * 8) + Varint(ZigZag(value, 32))
  }

  function PbSint64(number: nat, value: int): seq<byte> {
    Varint(number * 8) + Varint(ZigZag(value, 64))
  }

  /** A proto3 `int64`: a varint over the two's-complement bits. */
  function PbInt64(number: nat, value: int): seq<byte> {
    Varint(number * 8) + Varint(value % U64)
  }

  /** A double, given the eight bytes of its little-endian form. */
  function PbDouble(number: nat, bits: seq<byte>): seq<byte> {
    Varint(number * 8 + 1) + bits
  }

  function PbBytes(number: nat, payload: seq<byte>): seq<byte> {
    Varint(number * 8 + 2) + Varint(|payload|) + payload
  }

  function Encode(f: Field): seq<byte> {
    match f
    case VarintField(n, v) => PbVarint(n, v)
    case Fixed64Field(n, bits) => PbDouble(n, bits)
    case BytesField(n, p) => PbBytes(n, p)
  }

  function EncodeAll(fs: seq<Field>): seq<byte> {
    if fs == [] then [] else Encode(fs[0]) + EncodeAll(fs[1..])
  }

  // ----- the reader

  const MAX_FIELD_NUMBER: nat := 0x1FFF_FFFF

  function ReadField(s: seq<byte>): (r: Decoded<Field>)
    ensures r.Got? ==> |r.rest| < |s|
  {
    var (tag, r1) :- ReadVarint(s);
    var number := tag / 8;
    if !(1 <= number <= MAX_FIELD_NUMBER) then Refused("field number out of range")
    else match tag % 8 {
      case 0 =>
        var (value, r2) :- ReadVarint(r1);
        Got(VarintField(number, value), r2)
      case 1 =>
        if |r1| < 8 then Refused("truncated fixed64") else Got(Fixed64Field(number, r1[..8]), r1[8..])
      case 2 =>
        var (size, r2) :- ReadVarint(r1);
        if |r2| < size then Refused("truncated bytes") else Got(BytesField(number, r2[..size]), r2[size..])
      case _ => Refused("unsupported wire type")
    }
  }

  function ReadAll(s: seq<byte>): Result<seq<Field>>
    decreases |s|
  {
    if s == [] then Ok([])
    else match ReadField(s)
      case Refused(reason) => Err(reason)
      case Got(f, rest) =>
        match ReadAll(rest)
        case Err(e) => Err(e)
        case Ok(fs) => Ok([f] + fs)
  }

  /** The fields that the wire types can carry. */
  predicate Encodable(f: Field) {
    && 1 <= f.number <= MAX_FIELD_NUMBER
    && match f
       case VarintField(_, v) => v < U64
       case Fixed64Field(_, bits) => |bits| == 8
       case BytesField(_, p) => |p| < U64
  }

  lemma {:induction false} FieldReads(f: Field, k: seq<byte>)
    requires Encodable(f)
    ensures ReadField(Encode(f) + k) == Got(f, k)
  {
    hide Varint, ReadVarint;
    match f
    case VarintField(n, v) =>
      VarintReads(n * 8, Varint(v) + k);
      VarintReads(v, k);
      assert Encode(f) + k == Varint(n * 8) + (Varint(v) + k);
    case Fixed64Field(n, bits) =>
      VarintReads(n * 8 + 1, bits + k);
      assert Encode(f) + k == Varint(n * 8 + 1) + (bits + k);
      assert (bits + k)[..8] == bits && (bits + k)[8..] == k;
    case BytesField(n, p) =>
      VarintReads(n * 8 + 2, Varint(|p|) + (p + k));
      VarintReads(|p|, p + k);
      assert Encode(f) + k == Varint(n * 8 + 2) + (Varint(|p|) + (p + k));
      assert (p + k)[..|p|] == p && (p + k)[|p|..] == k;
  }

  /** Concatenated fields read back in order, and nothing else. */
  lemma {:induction false} MessageReads(fs: seq<Field>)
    requires forall f | f in fs :: Encodable(f)
    ensures ReadAll(EncodeAll(fs)) == Ok(fs)
  {
    if fs != [] {
      var tail := EncodeAll(fs[1..]);
      assert fs[0] in fs;
      FieldReads(fs[0], tail);
      MessageReads(fs[1..]);
      assert Encode(fs[0]) + tail != [];
      assert [fs[0]] + fs[1..] == fs;
    }
  }

  // ----- signed values on the wire

  function AsInt64(u: nat): int {
    if u < 0x8000_0000_0000_0000 then u else u - U64
  }

  lemma {:induction false} MaskReads(value: int)
    ensures AsInt64(value % U64) == value <==> Signed(value, 64)
  {
    Pow2Values();
    hide Pow2;
  }

  /** A signed 64-bit value, negative or not, survives the two's-complement mask;
      no other value does. */
  lemma {:induction false} Int64Reads(number: nat, value: int, k: seq<byte>)
    requires 1 <= number <= MAX_FIELD_NUMBER
    ensures var r := ReadField(PbInt64(number, value) + k);
            && r.Got? && r.value.VarintField? && r.rest == k && r.value.number == number
            && (AsInt64(r.value.value) == value <==> Signed(value, 64))
  {
    hide AsInt64, ReadField, Signed;
    MaskReads(value);
    var u := value % U64;
    assert PbInt64(number, value) == Encode(VarintField(number, u));
    FieldReads(VarintField(number, u), k);
  }

  lemma {:induction false} SintReads(number: nat, value: int, bits: nat, k: seq<byte>)
    requires 1 <= number <= MAX_FIELD_NUMBER && (bits == 32 || bits == 64)
    ensures var s := if bits == 32 then PbSint32(number, value) else PbSint64(number, value);
            var r := ReadField(s + k);
            && r.Got? && r.value.VarintField? && r.rest == k && r.value.number == number
            && (UnZigZag(r.value.value) == value <==> Signed(value, bits))
  {
    Pow2Values();
    var u := ZigZag(value, bits);
    FieldReads(VarintField(number, u), k);
    ZigZagReads(value, bits);
  }
}
