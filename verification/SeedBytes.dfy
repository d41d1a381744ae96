/** The rows that the ledger expects are the rows that the requests carry: a receiver
    that decodes a request's bytes finds exactly those
    (tools/compare-grafana.py:65-89, 118-149). */
module SeedBytes {
  import opened Basics
  import opened Text
  import opened Wire
  import opened Protobuf
  import opened MetricRequest
  import opened SeedLedger
  import Snappy

  // ----- a receiver

  function Chars(bytes: seq<byte>): string { seq(|bytes|, i requires 0 <= i < |bytes| => bytes[i] as char) }

  predicate IsBytes(f: Field, number: nat) { f.BytesField? && f.number == number }

  function ReadLabel(bytes: seq<byte>): Option<(string, string)> {
    var fs := ReadAll(bytes);
    if fs.Ok? && |fs.value| == 2 && IsBytes(fs.value[0], 1) && IsBytes(fs.value[1], 2) then
      Some((Chars(fs.value[0].payload), Chars(fs.value[1].payload)))
    else None
  }

  /** Milliseconds and value; `unpack` reads the eight bytes of a double. */
  function ReadSample(bytes: seq<byte>, unpack: seq<byte> -> real): Option<Point> {
    var fs := ReadAll(bytes);
    if && fs.Ok? && |fs.value| == 2 && fs.value[0].Fixed64Field? && fs.value[0].number == 1
       && fs.value[1].VarintField? && fs.value[1].number == 2 then
      Some((AsInt64(fs.value[1].value), unpack(fs.value[0].bits)))
    else None
  }

  /** A time series of two labels and one sample. */
  function ReadSeries(bytes: seq<byte>, unpack: seq<byte> -> real): Option<Row> {
    var fs := ReadAll(bytes);
    if fs.Ok? && |fs.value| == 3 && IsBytes(fs.value[0], 1) && IsBytes(fs.value[1], 1) && IsBytes(fs.value[2], 2) then
      var one, two := ReadLabel(fs.value[0].payload), ReadLabel(fs.value[1].payload);
      var sample := ReadSample(fs.value[2].payload, unpack);
      if one.None? || two.None? || sample.None? then None
      else Some(Row(map[one.value.0 := one.value.1, two.value.0 := two.value.1], sample.value.0, sample.value.1))
    else None
  }

  function ReadEach(fs: seq<Field>, unpack: seq<byte> -> real): Option<seq<Row>> {
    if fs == [] then Some([])
    else
      var n := |fs| - 1;
      var init := ReadEach(fs[..n], unpack);
      var last := if IsBytes(fs[n], 1) then ReadSeries(fs[n].payload, unpack) else None;
      if init.None? || last.None? then None else Some(init.value + [last.value])
  }

  function Receive(block: seq<byte>, unpack: seq<byte> -> real): Option<seq<Row>> {
    var body := Snappy.ReadBlock(block);
    if body.Err? then None
    else
      var fs := ReadAll(body.value);
      if fs.Err? then None else ReadEach(fs.value, unpack)
  }

  // ----- what it finds

  lemma {:induction false} LabelReads(name: string, value: string)
    requires IsAscii(name) && IsAscii(value) && |name| < U64 && |value| < U64
    ensures ReadLabel(PbLabel(name, value)) == Some((name, value))
  {
    hide ReadAll, Varint;
    PairReads(BytesField(1, Bytes(name)), BytesField(2, Bytes(value)));
    assert Chars(Bytes(name)) == name && Chars(Bytes(value)) == value;
  }

  lemma {:induction false} DigitsAreAscii(n: nat)
    ensures IsAscii(NatText(n))
  {
  }

  lemma {:induction false} PartsAreShorter(series: nat, pack: int -> Eight, stamp: seq<byte>)
    ensures |NatText(series)| <= |SeriesLabel(series)| <= |Payload(series, pack, stamp)|
  {
    hide Varint;
  }

  ghost predicate Unpacks(pack: int -> Eight, unpack: seq<byte> -> real) {
    forall n | 0 <= n < 97 :: unpack(pack(n)) == n as real
  }

  /** One series, decoded, is the row that the ledger expects of it. */
  lemma {:induction false} SeriesIsRow(series: nat, pack: int -> Eight, unpack: seq<byte> -> real, stamp: int)
    requires Unpacks(pack, unpack) && Signed(stamp, 64) && |Payload(series, pack, PbInt64(2, stamp))| < U64
    ensures ReadSeries(Payload(series, pack, PbInt64(2, stamp)), unpack) ==
            Some(Row(SeriesKey(series), stamp, SeriesValue(series)))
  {
    hide ReadAll, Varint, NatText, Payload, MetricRequest.Sample, PbLabel, ReadLabel;
    var bytes := PbInt64(2, stamp);
    SeriesReads(series, pack, stamp);
    PartsAreShorter(series, pack, bytes);
    DigitsAreAscii(series);
    LabelReads("__name__", "envelope_samples");
    LabelReads("series", NatText(series));
  }

  lemma {:induction false} EachIsRow(r: Receipt, c: nat, pack: int -> Eight, unpack: seq<byte> -> real, n: nat)
    requires c > 0 && r.sequence >= 0 && r.stamp.Millis? && Signed(r.stamp.ms, 64) && Unpacks(pack, unpack)
    requires |PlainBody(r.sequence, c, pack, PbInt64(2, r.stamp.ms), n)| < U32
    ensures var rows := ReadEach(RequestFields(r.sequence, c, pack, PbInt64(2, r.stamp.ms), n), unpack);
            rows.Some? && |rows.value| == n && forall i | 0 <= i < n :: rows.value[i] == RowAt(r, c, i)
    decreases n
  {
    hide Payload, ReadSeries, PbInt64, Signed;
    var stamp := PbInt64(2, r.stamp.ms);
    if n > 0 {
      var fs := RequestFields(r.sequence, c, pack, stamp, n);
      assert fs[..n - 1] == RequestFields(r.sequence, c, pack, stamp, n - 1);
      EachIsRow(r, c, pack, unpack, n - 1);
      PayloadIsShorter(r.sequence, c, pack, stamp, n, n - 1);
      SeriesIsRow(SeriesAt(r.sequence, c, n - 1), pack, unpack, r.stamp.ms);
    }
  }

  /** A request, as it is sent, is received as the thousand rows that the ledger expects
      for its receipt. */
  lemma {:induction false} RequestIsRows(r: Receipt, c: nat, pack: int -> Eight, unpack: seq<byte> -> real)
    requires c > 0 && r.sequence >= 0 && r.stamp.Millis? && Signed(r.stamp.ms, 64) && Unpacks(pack, unpack)
    requires |PlainBody(r.sequence, c, pack, PbInt64(2, r.stamp.ms), 1000)| < U32
    ensures var body := PlainBody(r.sequence, c, pack, PbInt64(2, r.stamp.ms), 1000);
            && Snappy.Block(body).Ok?
            && var rows := Receive(Snappy.Block(body).value, unpack);
               && rows.Some? && |rows.value| == 1000
               && (set row | row in rows.value) == RequestRows(r, c, 1000)
  {
    hide Payload, ReadSeries, PbInt64, Signed, PlainBody, Snappy.Block, Snappy.ReadBlock, ReadAll, RequestFields,
      ReadEach, RowAt;
    RequestReads(r.sequence, c, pack, PbInt64(2, r.stamp.ms));
    EachIsRow(r, c, pack, unpack, 1000);
    var rows := ReadEach(RequestFields(r.sequence, c, pack, PbInt64(2, r.stamp.ms), 1000), unpack).value;
    forall row ensures row in rows <==> row in RequestRows(r, c, 1000) {
      if row in rows {
        var i :| 0 <= i < |rows| && rows[i] == row;
        assert RowAt(r, c, i) == row;
      }
      if row in RequestRows(r, c, 1000) {
        var i :| 0 <= i < 1000 && RowAt(r, c, i) == row;
        assert rows[i] == row;
      }
    }
  }
}
