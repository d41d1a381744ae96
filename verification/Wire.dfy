/** Varints and ZigZag as the corpus builder writes them (tools/fuzz-corpus.py:51-65),
    against the readers of the same formats. */
module Wire {
  import opened Basics
  import opened Bits

  type byte = b: int | 0 <= b < 256

  /** The outcome of a reading step: a value and the bytes left over. */
  datatype Decoded<+T> = Got(value: T, rest: seq<byte>) | Refused(reason: string) {
    predicate IsFailure() { Refused? }

    function PropagateFailure<U>(): Decoded<U>
      requires Refused?
    {
      Refused(reason)
    }

    function Extract(): (T, seq<byte>)
      requires Got?
    {
      (value, rest)
    }
  }

  const U32: nat := 0x1_0000_0000
  const U64: nat := 0x1_0000_0000_0000_0000

  // ----- varints

  /** Base-128 digits of `n`, low group first, continuation bit on all but the last. */
  function Varint(n: nat): (s: seq<byte>)
    ensures s != []
  {
    if n < 0x80 then [n] else [n % 0x80 + 0x80] + Varint(n / 0x80)
  }

  method WriteVarint(value: int) returns (r: Result<seq<byte>>)
    ensures value < 0 ==> r.Err?
    ensures value >= 0 ==> r == Ok(Varint(value))
  {
    if value < 0 {
      return Err("varint is unsigned");
    }
    var out: seq<byte> := [];
    var v := value;
    while v >= 0x80
      invariant v >= 0 && out + Varint(v) == Varint(value)
    {
      out := out + [v % 0x80 + 0x80];
      v := v / 0x80;
    }
    return Ok(out + [v]);
  }

  /** The 64-bit varint reader of crates/traces/src/wire/jaeger/compact_input.rs:
      it stops after ten groups and drops the bits past the sixty-fourth. */
  function ReadVarintAt(s: seq<byte>, shift: nat, out: nat): (r: Decoded<nat>)
    ensures r.Got? ==> |r.rest| < |s| && r.value < U64
    decreases |s|
  {
    if s == [] then Refused("unexpected end of thrift payload")
    else
      var sum := (out + s[0] % 0x80 * Pow2(shift)) % U64;
      if s[0] < 0x80 then Got(sum, s[1..])
      else if shift + 7 >= 64 then Refused("varint too long")
      else ReadVarintAt(s[1..], shift + 7, sum)
  }

  function ReadVarint(s: seq<byte>): (r: Decoded<nat>)
    ensures r.Got? ==> |r.rest| < |s| && r.value < U64
  {
    ReadVarintAt(s, 0, 0)
  }

  lemma {:induction false} GroupSplit(q: nat, low: nat, p: nat)
    ensures (0x80 * q + low) * p == low * p + q * (0x80 * p)
    ensures q >= 1 ==> (0x80 * q + low) * p >= 0x80 * p
  {
    assert (0x80 * q + low) * p == 0x80 * q * p + low * p;
    assert 0x80 * q * p == q * (0x80 * p);
    if q >= 1 {
      assert q * (0x80 * p) >= 1 * (0x80 * p);
    }
  }

  /** What one group of seven bits contributes. */
  lemma {:induction false} VarintGroup(n: nat, shift: nat)
    requires n >= 0x80 && n * Pow2(shift) < U64
    ensures shift + 7 < 64
    ensures n % 0x80 * Pow2(shift) + n / 0x80 * Pow2(shift + 7) == n * Pow2(shift)
    ensures n % 0x80 * Pow2(shift) <= n * Pow2(shift)
  {
    hide Pow2;
    Pow2Values();
    Pow2Add(7, shift);
    assert n == 0x80 * (n / 0x80) + n % 0x80;
    GroupSplit(n / 0x80, n % 0x80, Pow2(shift));
    if shift + 7 >= 64 {
      Pow2Monotone(64, shift + 7);
    }
  }

  lemma {:induction false} VarintStep(b: byte, t: seq<byte>, shift: nat, out: nat)
    requires out + b % 0x80 * Pow2(shift) < U64
    ensures ReadVarintAt([b] + t, shift, out) ==
            if b < 0x80 then Got(out + b * Pow2(shift), t)
            else if shift + 7 >= 64 then Refused("varint too long")
            else ReadVarintAt(t, shift + 7, out + b % 0x80 * Pow2(shift))
  {
    hide Pow2;
    assert ([b] + t)[1..] == t;
    assert b < 0x80 ==> b % 0x80 == b;
    var part := b % 0x80 * Pow2(shift);
    ModSmall(out + part, U64);
  }

  /** The digits of `n`, read from the group at `shift` on. */
  lemma {:induction false} VarintReadsAt(n: nat, k: seq<byte>, shift: nat, out: nat)
    requires shift < 64 && out + n * Pow2(shift) < U64
    ensures ReadVarintAt(Varint(n) + k, shift, out) == Got(out + n * Pow2(shift), k)
    decreases n
  {
    hide Pow2, ReadVarintAt;
    if n < 0x80 {
      VarintStep(n, k, shift, out);
    } else {
      var high, low := n / 0x80, n % 0x80;
      VarintGroup(n, shift);
      VarintReadsAt(high, k, shift + 7, out + low * Pow2(shift));
      VarintStep(low + 0x80, Varint(high) + k, shift, out);
      assert [low + 0x80] + (Varint(high) + k) == Varint(n) + k;
    }
  }

  /** A varint reads back exactly when it fits in sixty-four bits. */
  lemma {:induction false} VarintReads(n: nat, k: seq<byte>)
    ensures ReadVarint(Varint(n) + k) == Got(n, k) <==> n < U64
  {
    if n < U64 {
      assert n * Pow2(0) == n;
      VarintReadsAt(n, k, 0, 0);
    }
  }

  /** A varint takes as few bytes as there are groups of seven bits. */
  lemma {:induction false} VarintLength(n: nat, k: nat)
    requires k >= 1
    ensures |Varint(n)| <= k <==> n < Pow2(7 * k)
    decreases k
  {
    hide Pow2;
    Pow2Values();
    if k == 1 {
    } else {
      Pow2Add(7, 7 * (k - 1));
      VarintLength(n / 0x80, k - 1);
      assert n < 0x80 * Pow2(7 * (k - 1)) <==> n / 0x80 < Pow2(7 * (k - 1));
      assert n < 0x80 ==> n / 0x80 == 0;
    }
  }

  /** Varints are prefix-free, whatever their size: a concatenation splits in
      one way only. */
  lemma {:induction false} VarintPrefixFree(a: nat, b: nat, r: seq<byte>, s: seq<byte>)
    requires Varint(a) + r == Varint(b) + s
    ensures a == b && r == s
    decreases a
  {
    var t, u := Varint(a) + r, Varint(b) + s;
    assert t[0] == u[0] && t[1..] == u[1..];
    if a < 0x80 {
      assert t[0] == a && t[1..] == r;
      assert b < 0x80;
      assert u[1..] == s;
    } else {
      assert t[0] == a % 0x80 + 0x80 && t[1..] == Varint(a / 0x80) + r;
      assert b >= 0x80;
      assert u[0] == b % 0x80 + 0x80 && u[1..] == Varint(b / 0x80) + s;
      VarintPrefixFree(a / 0x80, b / 0x80, r, s);
    }
  }

  // ----- ZigZag

  /** `((value << 1) ^ (value >> (bits - 1))) & ((1 << bits) - 1)`, on Python's
      unbounded integers. */
  function ZigZag(value: int, bits: nat): nat
    requires bits >= 1
  {
    Xor(2 * value, value / Pow2(bits - 1)) % Pow2(bits)
  }

  /** `(u >> 1) ^ -(u & 1)`, as the compact reader undoes it. */
  function UnZigZag(u: nat): int {
    Xor(u / 2, -(u % 2))
  }

  predicate Signed(value: int, bits: nat)
    requires bits >= 1
  {
    0 <= value + Pow2(bits - 1) && value < Pow2(bits - 1)
  }

  lemma {:induction false} UnZigZagValue(u: nat)
    ensures UnZigZag(u) == if u % 2 == 0 then u / 2 else -(u / 2) - 1
  {
    XorZero(u / 2);
    XorOnes(u / 2);
  }

  lemma {:induction false} DivSign(v: int, h: nat)
    requires h >= 1 && 0 <= v + h && v < h
    ensures v / h == if v >= 0 then 0 else -1
  {
    assert v == v / h * h + v % h;
  }

  lemma {:induction false} ModSmall(x: int, m: nat)
    requires 0 <= x < m
    ensures x % m == x
  {
  }

  lemma {:induction false} ZigZagValue(value: int, bits: nat)
    requires bits >= 1 && Signed(value, bits)
    ensures ZigZag(value, bits) == if value >= 0 then 2 * value else -2 * value - 1
    ensures ZigZag(value, bits) < Pow2(bits)
  {
    hide Xor;
    XorZero(2 * value);
    XorOnes(2 * value);
    assert Pow2(bits) == 2 * Pow2(bits - 1);
    DivSign(value, Pow2(bits - 1));
    ModSmall(if value >= 0 then 2 * value else -2 * value - 1, Pow2(bits));
  }

  /** ZigZag is undone exactly on the signed values of its width. */
  lemma {:induction false} ZigZagReads(value: int, bits: nat)
    requires bits >= 1
    ensures UnZigZag(ZigZag(value, bits)) == value <==> Signed(value, bits)
  {
    var u := ZigZag(value, bits);
    UnZigZagValue(u);
    assert Pow2(bits) == 2 * Pow2(bits - 1);
    if Signed(value, bits) {
      ZigZagValue(value, bits);
    }
  }

  /** ZigZag is onto: every unsigned value of the width is the image of a signed
      one, so with `ZigZagReads` it is a bijection. */
  lemma {:induction false} ZigZagOnto(u: nat, bits: nat)
    requires bits >= 1 && u < Pow2(bits)
    ensures Signed(UnZigZag(u), bits) && ZigZag(UnZigZag(u), bits) == u
  {
    UnZigZagValue(u);
    assert Pow2(bits) == 2 * Pow2(bits - 1);
    ZigZagValue(UnZigZag(u), bits);
  }

  lemma {:induction false} ZigZag64(value: int)
    requires Signed(value, 64)
    ensures ZigZag(value, 64) < U64 && UnZigZag(ZigZag(value, 64)) == value
  {
    Pow2Values();
    ZigZagValue(value, 64);
    ZigZagReads(value, 64);
  }

  lemma {:induction false} ZigZag32(value: int)
    requires Signed(value, 32)
    ensures ZigZag(value, 32) < U32 && UnZigZag(ZigZag(value, 32)) == value
  {
    Pow2Values();
    ZigZagValue(value, 32);
    ZigZagReads(value, 32);
  }
}
