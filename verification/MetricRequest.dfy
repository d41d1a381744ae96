/** The remote-write body that the comparison sends: one timestamp appended to
    cached prefixes (tools/compare-grafana.py:65-89), against the plain nested
    encoding of the same thousand samples. */
module MetricRequest {
  import opened Basics
  import opened Text
  import opened Wire
  import opened Protobuf
  import Snappy
  import Modular

  const SEED := 267
  const PER_REQUEST := 1000

  /** The eight little-endian bytes of a double. */
  type Eight = s: seq<byte> | |s| == 8 witness [0, 0, 0, 0, 0, 0, 0, 0]

  predicate IsAscii(s: string) { forall c | c in s :: c as int < 128 }

  function Code(s: string, i: nat): byte
    requires IsAscii(s) && i < |s|
  {
    assert s[i] in s;
    s[i] as int
  }

  function Bytes(s: string): (b: seq<byte>)
    requires IsAscii(s)
    ensures |b| == |s|
  {
    seq(|s|, i requires 0 <= i < |s| => Code(s, i))
  }

  // ----- the plain encoding

  function PbLabel(name: string, value: string): seq<byte>
    requires IsAscii(name) && IsAscii(value)
  {
    PbBytes(1, Bytes(name)) + PbBytes(2, Bytes(value))
  }

  function NameLabel(): seq<byte> { PbLabel("__name__", "envelope_samples") }

  function SeriesLabel(series: nat): seq<byte> { PbLabel("series", NatText(series)) }

  function Labels(series: nat): seq<byte> {
    PbBytes(1, NameLabel()) + PbBytes(1, SeriesLabel(series))
  }

  /** The sample's value, and then the bytes of its timestamp field. */
  function Sample(series: nat, pack: int -> Eight, stamp: seq<byte>): seq<byte> {
    PbDouble(1, pack((SEED + series) % 97)) + stamp
  }

  function Payload(series: nat, pack: int -> Eight, stamp: seq<byte>): seq<byte> {
    Labels(series) + PbBytes(2, Sample(series, pack, stamp))
  }

  /** One series of the request, labels and sample and all. */
  function Series(series: nat, pack: int -> Eight, stamp: seq<byte>): seq<byte> {
    PbBytes(1, Payload(series, pack, stamp))
  }

  /** The series that a request carries in its `i`-th place. */
  function SeriesAt(sequence: int, cardinality: nat, i: nat): nat
    requires cardinality > 0
  {
    (sequence * PER_REQUEST + i) % cardinality
  }

  /** The first `n` series of a request, encoded one by one. */
  function PlainBody(sequence: nat, cardinality: nat, pack: int -> Eight, stamp: seq<byte>, n: nat): seq<byte>
    requires cardinality > 0
  {
    if n == 0 then []
    else PlainBody(sequence, cardinality, pack, stamp, n - 1)
         + Series(SeriesAt(sequence, cardinality, n - 1), pack, stamp)
  }

  // ----- the cached prefixes

  function Zeros(n: nat): seq<byte> { seq(n, _ => 0) }

  /** Python's `s[:-n]`: all but the last `n`, except that `n == 0` keeps nothing. */
  function DropLast(s: seq<byte>, n: nat): seq<byte> {
    if n == 0 || n > |s| then [] else s[..|s| - n]
  }

  /** A series with the last `size` bytes, the timestamp's, cut off. */
  function Prefix(series: nat, pack: int -> Eight, size: nat): seq<byte> {
    DropLast(Series(series, pack, Zeros(size)), size)
  }

  /** Whatever its bytes, the timestamp is the tail of the series, and only its
      length matters to what comes before. */
  lemma {:induction false} TimestampIsLast(series: nat, pack: int -> Eight, stamp: seq<byte>)
    ensures var full := Series(series, pack, stamp);
            && |full| >= |stamp| && full[|full| - |stamp|..] == stamp
            && |full| == |Head(series, pack, |stamp|)| + |stamp|
            && full[..|full| - |stamp|] == Head(series, pack, |stamp|)
  {
    hide Varint, Labels, Zeros;
    var full, head := Series(series, pack, stamp), Head(series, pack, |stamp|);
    var double := PbDouble(1, pack((SEED + series) % 97));
    assert |Sample(series, pack, stamp)| == |double| + |stamp|;
    assert |Payload(series, pack, stamp)| == |PayloadHead(series, pack, |stamp|)| + |stamp|;
    assert Payload(series, pack, stamp) == PayloadHead(series, pack, |stamp|) + stamp;
    assert full == head + stamp;
  }

  function PayloadHead(series: nat, pack: int -> Eight, size: nat): seq<byte> {
    var double := PbDouble(1, pack((SEED + series) % 97));
    Labels(series) + (Varint(2 * 8 + 2) + Varint(|double| + size) + double)
  }

  function Head(series: nat, pack: int -> Eight, size: nat): seq<byte> {
    var head := PayloadHead(series, pack, size);
    Varint(1 * 8 + 2) + Varint(|head| + size) + head
  }

  /** A cached prefix and a timestamp of the cached size make the plain encoding,
      for every timestamp that has bytes at all. */
  lemma {:induction false} PrefixRefinesSeries(series: nat, pack: int -> Eight, stamp: seq<byte>)
    ensures Prefix(series, pack, |stamp|) + stamp == Series(series, pack, stamp) <==> stamp != []
  {
    hide Series, Head;
    TimestampIsLast(series, pack, stamp);
    TimestampIsLast(series, pack, Zeros(|stamp|));
    var full := Series(series, pack, stamp);
    assert full == full[..|full| - |stamp|] + full[|full| - |stamp|..];
    SeriesIsNotEmpty(series, pack, stamp);
  }

  lemma {:induction false} SeriesIsNotEmpty(series: nat, pack: int -> Eight, stamp: seq<byte>)
    ensures Series(series, pack, stamp) != []
  {
    hide Payload;
  }

  method MetricPrefixes(cardinality: nat, pack: int -> Eight, size: nat) returns (prefixes: seq<seq<byte>>)
    ensures |prefixes| == cardinality
    ensures forall i | 0 <= i < cardinality :: prefixes[i] == Prefix(i, pack, size)
  {
    hide PbLabel, NameLabel, SeriesLabel, PbBytes, PbDouble, Zeros, DropLast;
    prefixes := [];
    for series := 0 to cardinality
      invariant |prefixes| == series
      invariant forall i | 0 <= i < series :: prefixes[i] == Prefix(i, pack, size)
    {
      var labels := PbBytes(1, NameLabel());
      labels := labels + PbBytes(1, SeriesLabel(series));
      var sample := PbDouble(1, pack((SEED + series) % 97)) + Zeros(size);
      var full := PbBytes(1, labels + PbBytes(2, sample));
      prefixes := prefixes + [DropLast(full, size)];
    }
  }

  // ----- choosing a thousand prefixes

  lemma {:induction false} MultipleStarts(sequence: nat, cardinality: nat)
    requires cardinality > 0 && cardinality % PER_REQUEST == 0
    ensures sequence * PER_REQUEST % cardinality + PER_REQUEST <= cardinality
  {
    var c, x := cardinality / PER_REQUEST, sequence * PER_REQUEST;
    var q, r := x / cardinality, x % cardinality;
    assert x == q * cardinality + r;
    assert q * cardinality == q * c * PER_REQUEST;
    assert r == (sequence - q * c) * PER_REQUEST;
    assert (sequence - q * c) * PER_REQUEST < c * PER_REQUEST;
  }

  /** Where the slice and the modular form pick the same prefix: everywhere, when
      the cardinality is a multiple of a thousand. */
  lemma {:induction false} SliceIsModular(sequence: nat, cardinality: nat, i: nat)
    requires cardinality > 0 && i < PER_REQUEST
    ensures var start := sequence * PER_REQUEST % cardinality;
            && (start + i) % cardinality == SeriesAt(sequence, cardinality, i)
            && (cardinality % PER_REQUEST == 0 ==>
                  start + PER_REQUEST <= cardinality && start + i == SeriesAt(sequence, cardinality, i))
  {
    var start := sequence * PER_REQUEST % cardinality;
    Modular.Early(sequence * PER_REQUEST, i, cardinality);
    if cardinality % PER_REQUEST == 0 {
      MultipleStarts(sequence, cardinality);
      Modular.Inside(start + i, cardinality);
    }
  }

  /** The fast body: select cached prefixes, then append the timestamp to each. */
  method FastBody(sequence: nat, cardinality: nat, pack: int -> Eight, stampMs: int) returns (body: seq<byte>)
    requires cardinality > 0
    ensures body == PlainBody(sequence, cardinality, pack, PbInt64(2, stampMs), PER_REQUEST)
  {
    hide Prefix, Series, Varint;
    var stamp := PbInt64(2, stampMs);
    var prefixes := MetricPrefixes(cardinality, pack, |stamp|);
    var start := sequence * PER_REQUEST % cardinality;
    var selected: seq<seq<byte>> := [];
    if cardinality % PER_REQUEST == 0 {
      MultipleStarts(sequence, cardinality);
      selected := prefixes[start..start + PER_REQUEST];
    } else {
      for i := 0 to PER_REQUEST
        invariant |selected| == i
        invariant forall k | 0 <= k < i :: selected[k] == prefixes[(start + k) % cardinality]
      {
        selected := selected + [prefixes[(start + i) % cardinality]];
      }
    }
    forall i | 0 <= i < PER_REQUEST
      ensures selected[i] == Prefix(SeriesAt(sequence, cardinality, i), pack, |stamp|)
    {
      SliceIsModular(sequence, cardinality, i);
    }
    body := [];
    for i := 0 to PER_REQUEST
      invariant body == PlainBody(sequence, cardinality, pack, stamp, i)
    {
      PrefixRefinesSeries(SeriesAt(sequence, cardinality, i), pack, stamp);
      body := body + (selected[i] + stamp);
    }
  }

  // ----- what a receiver reads

  lemma {:induction false} FieldList(fs: seq<Field>, f: Field)
    ensures EncodeAll(fs + [f]) == EncodeAll(fs) + Encode(f)
    decreases |fs|
  {
    hide Encode;
    if fs == [] {
      assert fs + [f] == [f];
      assert EncodeAll([f]) == Encode(f) + EncodeAll([]);
    } else {
      var all, rest := fs + [f], fs[1..];
      FieldList(rest, f);
      assert all[0] == fs[0] && all[1..] == rest + [f];
      assert EncodeAll(all) == Encode(fs[0]) + EncodeAll(rest + [f]);
      assert EncodeAll(fs) == Encode(fs[0]) + EncodeAll(rest);
    }
  }

  function SampleFields(series: nat, pack: int -> Eight, stamp: int): seq<Field> {
    [Fixed64Field(1, pack((SEED + series) % 97)), VarintField(2, stamp % U64)]
  }

  function PayloadFields(series: nat, pack: int -> Eight, stamp: int): seq<Field> {
    [BytesField(1, NameLabel()), BytesField(1, SeriesLabel(series)),
     BytesField(2, Sample(series, pack, PbInt64(2, stamp)))]
  }

  lemma {:induction false} PairReads(f: Field, g: Field)
    requires Encodable(f) && Encodable(g)
    ensures ReadAll(Encode(f) + Encode(g)) == Ok([f, g])
  {
    hide Encode, ReadAll, Encodable;
    FieldList([], f);
    FieldList([f], g);
    assert [] + [f] == [f] && [f] + [g] == [f, g];
    assert EncodeAll([]) + Encode(f) == Encode(f);
    MessageReads([f, g]);
  }

  lemma {:induction false} TripleReads(f: Field, g: Field, h: Field)
    requires Encodable(f) && Encodable(g) && Encodable(h)
    ensures ReadAll(Encode(f) + Encode(g) + Encode(h)) == Ok([f, g, h])
  {
    hide Encode, ReadAll, Encodable;
    FieldList([], f);
    FieldList([f], g);
    FieldList([f, g], h);
    assert [] + [f] == [f] && [f] + [g] == [f, g] && [f, g] + [h] == [f, g, h];
    assert EncodeAll([]) + Encode(f) == Encode(f);
    MessageReads([f, g, h]);
  }

  /** A receiver finds in each series the two labels and the sample, and in the
      sample the value's bits and the timestamp. */
  lemma {:induction false} SeriesReads(series: nat, pack: int -> Eight, stamp: int)
    requires |Payload(series, pack, PbInt64(2, stamp))| < U64
    ensures ReadAll(Payload(series, pack, PbInt64(2, stamp))) == Ok(PayloadFields(series, pack, stamp))
    ensures ReadAll(Sample(series, pack, PbInt64(2, stamp))) == Ok(SampleFields(series, pack, stamp))
    ensures Signed(stamp, 64) ==> AsInt64(SampleFields(series, pack, stamp)[1].value) == stamp
  {
    hide Varint, ReadAll;
    var fs, gs := PayloadFields(series, pack, stamp), SampleFields(series, pack, stamp);
    assert Payload(series, pack, PbInt64(2, stamp)) == Encode(fs[0]) + Encode(fs[1]) + Encode(fs[2]);
    TripleReads(fs[0], fs[1], fs[2]);
    assert Sample(series, pack, PbInt64(2, stamp)) == Encode(gs[0]) + Encode(gs[1]);
    PairReads(gs[0], gs[1]);
    MaskReads(stamp);
  }

  function RequestFields(sequence: nat, cardinality: nat, pack: int -> Eight, stamp: seq<byte>, n: nat): seq<Field>
    requires cardinality > 0
  {
    seq(n, i requires 0 <= i < n => BytesField(1, Payload(SeriesAt(sequence, cardinality, i), pack, stamp)))
  }

  lemma {:induction false} BodyIsFields(sequence: nat, cardinality: nat, pack: int -> Eight, stamp: seq<byte>, n: nat)
    requires cardinality > 0
    ensures PlainBody(sequence, cardinality, pack, stamp, n)
            == EncodeAll(RequestFields(sequence, cardinality, pack, stamp, n))
    decreases n
  {
    hide Payload, PbBytes;
    if n > 0 {
      BodyIsFields(sequence, cardinality, pack, stamp, n - 1);
      var fs := RequestFields(sequence, cardinality, pack, stamp, n - 1);
      var last := BytesField(1, Payload(SeriesAt(sequence, cardinality, n - 1), pack, stamp));
      assert RequestFields(sequence, cardinality, pack, stamp, n) == fs + [last];
      FieldList(fs, last);
    }
  }

  lemma {:induction false} PayloadIsShorter(sequence: nat, cardinality: nat, pack: int -> Eight, stamp: seq<byte>,
                                            n: nat, i: nat)
    requires cardinality > 0 && i < n
    ensures |Payload(SeriesAt(sequence, cardinality, i), pack, stamp)|
            <= |PlainBody(sequence, cardinality, pack, stamp, n)|
    decreases n
  {
    hide Payload;
    if i < n - 1 {
      PayloadIsShorter(sequence, cardinality, pack, stamp, n - 1, i);
    }
  }

  /** The whole request, compressed and sent, reads back as the thousand series
      in order. */
  lemma {:induction false} RequestReads(sequence: nat, cardinality: nat, pack: int -> Eight, stamp: seq<byte>)
    requires cardinality > 0
    requires |PlainBody(sequence, cardinality, pack, stamp, PER_REQUEST)| < U32
    ensures var body := PlainBody(sequence, cardinality, pack, stamp, PER_REQUEST);
            && Snappy.Block(body).Ok?
            && Snappy.ReadBlock(Snappy.Block(body).value) == Ok(body)
            && ReadAll(body) == Ok(RequestFields(sequence, cardinality, pack, stamp, PER_REQUEST))
  {
    hide Payload, PlainBody, Snappy.Block, Snappy.ReadBlock, ReadAll;
    var body := PlainBody(sequence, cardinality, pack, stamp, PER_REQUEST);
    var fs := RequestFields(sequence, cardinality, pack, stamp, PER_REQUEST);
    Snappy.BlockReads(body);
    BodyIsFields(sequence, cardinality, pack, stamp, PER_REQUEST);
    forall i | 0 <= i < PER_REQUEST ensures Encodable(fs[i]) {
      PayloadIsShorter(sequence, cardinality, pack, stamp, PER_REQUEST, i);
    }
    MessageReads(fs);
  }
}
