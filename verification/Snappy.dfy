/** Raw snappy blocks that hold one literal (tools/fuzz-corpus.py:68-88), and a
    reader of literal elements as section 2.1 of the snappy format description
    defines them. */
module Snappy {
  import opened Basics
  import opened Wire

  /** `n.to_bytes(4, "little")`. */
  function Bytes4(n: nat): seq<byte>
    requires n < U32
  {
    [n % 0x100, n / 0x100 % 0x100, n / 0x1_0000 % 0x100, n / 0x100_0000]
  }

  function TrimZeros(s: seq<byte>): seq<byte> {
    if s != [] && s[|s| - 1] == 0 then TrimZeros(s[..|s| - 1]) else s
  }

  function LittleEndian(s: seq<byte>): nat {
    if s == [] then 0 else s[0] + 0x100 * LittleEndian(s[1..])
  }

  /** The tag of a literal, and its length when the tag has no room for it. */
  function LiteralHeader(length: nat): seq<byte>
    requires 1 <= length <= U32
  {
    if length <= 60 then [(length - 1) * 4]
    else
      var extra := TrimZeros(Bytes4(length - 1));
      TrimKeepsLength(Bytes4(length - 1));
      [(59 + |extra|) * 4] + extra
  }

  lemma {:induction false} TrimKeepsLength(s: seq<byte>)
    ensures |TrimZeros(s)| <= |s|
  {
    if s != [] && s[|s| - 1] == 0 { TrimKeepsLength(s[..|s| - 1]); }
  }

  /** What the encoder owes for `payload`. */
  function Block(payload: seq<byte>): Result<seq<byte>> {
    if payload == [] then Ok(Varint(0))
    else if |payload| > U32 then Err("int too big to convert")
    else Ok(Varint(|payload|) + LiteralHeader(|payload|) + payload)
  }

  method LiteralBlock(payload: seq<byte>) returns (r: Result<seq<byte>>)
    ensures r == Block(payload)
  {
    var size := WriteVarint(|payload|);
    var out := size.value;
    if |payload| == 0 {
      return Ok(out);
    }
    if |payload| <= 60 {
      out := out + [(|payload| - 1) * 4];
    } else {
      if |payload| - 1 >= U32 {
        return Err("int too big to convert");
      }
      var extra := Bytes4(|payload| - 1);
      ghost var padded := extra;
      while extra != [] && extra[|extra| - 1] == 0
        invariant TrimZeros(extra) == TrimZeros(padded) && |extra| <= 4
      {
        extra := extra[..|extra| - 1];
      }
      out := out + [(59 + |extra|) * 4];
      out := out + extra;
      assert out == Varint(|payload|) + LiteralHeader(|payload|);
    }
    return Ok(out + payload);
  }

  // ----- the reader

  /** The length a literal tag announces, and where its bytes begin. */
  function ReadLiteralLength(s: seq<byte>): (r: Decoded<nat>)
    ensures r.Got? ==> |r.rest| < |s|
  {
    if s == [] then Refused("truncated tag")
    else if s[0] % 4 != 0 then Refused("not a literal")
    else
      var m := s[0] / 4;
      if m < 60 then Got(m + 1, s[1..])
      else if |s| < m - 58 then Refused("truncated length")
      else Got(LittleEndian(s[1..m - 58]) + 1, s[m - 58..])
  }

  /** Append literals to `out` until the input ends. */
  function ReadLiterals(s: seq<byte>, size: nat, out: seq<byte>): Result<seq<byte>>
    decreases |s|
  {
    if s == [] then (if |out| == size then Ok(out) else Err("wrong uncompressed length"))
    else match ReadLiteralLength(s)
      case Refused(reason) => Err(reason)
      case Got(n, rest) =>
        if |rest| < n then Err("truncated literal")
        else ReadLiterals(rest[n..], size, out + rest[..n])
  }

  /** A block begins with the uncompressed length, which the format caps at
      2^32 - 1. */
  function ReadBlock(s: seq<byte>): Result<seq<byte>> {
    match ReadVarint(s)
    case Refused(reason) => Err(reason)
    case Got(size, rest) =>
      if size >= U32 then Err("uncompressed length out of range") else ReadLiterals(rest, size, [])
  }

  // ----- the round trip

  lemma {:induction false} LittleEndianSnocZero(s: seq<byte>)
    ensures LittleEndian(s + [0]) == LittleEndian(s)
  {
    if s != [] {
      assert (s + [0])[1..] == s[1..] + [0];
      LittleEndianSnocZero(s[1..]);
    }
  }

  lemma {:induction false} TrimKeepsValue(s: seq<byte>)
    ensures LittleEndian(TrimZeros(s)) == LittleEndian(s)
    ensures |TrimZeros(s)| <= |s|
  {
    if s != [] && s[|s| - 1] == 0 {
      var t := s[..|s| - 1];
      TrimKeepsValue(t);
      LittleEndianSnocZero(t);
      assert s == t + [0];
    }
  }

  lemma {:induction false} LittleEndianCons(b: byte, s: seq<byte>)
    ensures LittleEndian([b] + s) == b + 0x100 * LittleEndian(s)
  {
    assert ([b] + s)[1..] == s;
  }

  lemma {:induction false} Bytes4Value(n: nat)
    requires n < U32
    ensures LittleEndian(Bytes4(n)) == n
  {
    var s := Bytes4(n);
    LittleEndianCons(s[3], []);
    LittleEndianCons(s[2], [s[3]]);
    LittleEndianCons(s[1], [s[2], s[3]]);
    LittleEndianCons(s[0], [s[1], s[2], s[3]]);
    Digits(n);
  }

  lemma {:induction false} Digits(n: nat)
    ensures n == n % 0x100 + 0x100 * (n / 0x100)
    ensures n / 0x100 == n / 0x100 % 0x100 + 0x100 * (n / 0x1_0000)
    ensures n / 0x1_0000 == n / 0x1_0000 % 0x100 + 0x100 * (n / 0x100_0000)
  {
  }

  lemma {:induction false} HeaderReads(length: nat, k: seq<byte>)
    requires 1 <= length <= U32
    ensures ReadLiteralLength(LiteralHeader(length) + k) == Got(length, k)
  {
    var h := LiteralHeader(length);
    if length <= 60 {
      assert (h + k)[0] == (length - 1) * 4 && (h + k)[1..] == k;
    } else {
      var extra := TrimZeros(Bytes4(length - 1));
      TrimKeepsValue(Bytes4(length - 1));
      Bytes4Value(length - 1);
      assert extra != [];
      var n := |extra|;
      assert h == [(59 + n) * 4] + extra;
      assert (h + k)[0] == (59 + n) * 4 && (h + k)[1..n + 1] == extra && (h + k)[n + 1..] == k;
    }
  }

  lemma {:induction false} TrimLength(s: seq<byte>, k: nat)
    requires k <= |s|
    ensures |TrimZeros(s)| <= k <==> forall i | k <= i < |s| :: s[i] == 0
  {
    if s != [] && s[|s| - 1] == 0 && k < |s| {
      TrimLength(s[..|s| - 1], k);
    } else {
      TrimKeepsLength(s);
    }
  }

  /** The tag holds a length of up to sixty, and a longer one takes as few bytes
      behind it as can hold one less than it. */
  lemma {:induction false} HeaderLength(length: nat)
    requires 1 <= length <= U32
    ensures |LiteralHeader(length)| == 1 <==> length <= 60
    ensures length > 60 ==>
              && (|LiteralHeader(length)| == 2 <==> length <= 0x100)
              && (|LiteralHeader(length)| <= 3 <==> length <= 0x1_0000)
              && (|LiteralHeader(length)| <= 4 <==> length <= 0x100_0000)
              && |LiteralHeader(length)| <= 5
  {
    if length > 60 {
      var s := Bytes4(length - 1);
      Digits(length - 1);
      var n := length - 1;
      assert s[0] != 0 || s[1] != 0 || s[2] != 0 || s[3] != 0;
      TrimKeepsLength(s);
      TrimLength(s, 0);
      TrimLength(s, 1);
      TrimLength(s, 2);
      TrimLength(s, 3);
    }
  }

  lemma {:induction false} LiteralReads(payload: seq<byte>)
    requires 1 <= |payload| <= U32
    ensures ReadLiterals(LiteralHeader(|payload|) + payload, |payload|, []) == Ok(payload)
  {
    hide LiteralHeader, ReadLiteralLength;
    HeaderReads(|payload|, payload);
    assert payload[..|payload|] == payload && payload[|payload|..] == [] && [] + payload == payload;
  }

  /** The encoder writes a block for payloads of up to 2^32 bytes, and the block
      reads back as the payload exactly when the payload is shorter than that:
      the format has no room for a length of 2^32. */
  lemma {:induction false} BlockReads(payload: seq<byte>)
    ensures Block(payload).Ok? <==> |payload| <= U32
    ensures Block(payload).Ok? && ReadBlock(Block(payload).value) == Ok(payload) <==> |payload| < U32
  {
    hide Varint, ReadVarint, LiteralHeader, ReadLiterals, ReadLiteralLength;
    if payload == [] {
      VarintReads(0, []);
      assert Varint(0) + [] == Varint(0);
      EmptyReads();
    } else if |payload| <= U32 {
      var rest := LiteralHeader(|payload|) + payload;
      VarintReads(|payload|, rest);
      LiteralReads(payload);
      assert Block(payload).value == Varint(|payload|) + rest;
    }
  }

  lemma {:induction false} EmptyReads()
    ensures ReadLiterals([], 0, []) == Ok([])
  {
  }
}
