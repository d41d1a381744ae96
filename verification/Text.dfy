/** Decimal numbers, JSON string literals and the small scanning steps that
    the printers and readers of this project share. */
module Text {

  /** The outcome of a scanning step: a value and the text left over. */
  datatype Parsed<+T> = NoParse | Parsed(value: T, rest: string) {
    predicate IsFailure() { NoParse? }

    function PropagateFailure<U>(): Parsed<U>
      requires NoParse?
    {
      NoParse
    }

    function Extract(): (T, string)
      requires Parsed?
    {
      (value, rest)
    }
  }

  // ----- scanning

  /** The length of the longest prefix of `s` whose characters satisfy `p`. */
  function Span(s: string, p: char -> bool): (n: nat)
    ensures n <= |s|
    ensures forall i | 0 <= i < n :: p(s[i])
    ensures n < |s| ==> !p(s[n])
  {
    if s == "" || !p(s[0]) then 0 else 1 + Span(s[1..], p)
  }

  /** A run of `p` characters ends where the next character breaks it. */
  lemma {:induction false} SpanStops(w: string, k: string, p: char -> bool)
    requires forall c | c in w :: p(c)
    requires k == "" || !p(k[0])
    ensures Span(w + k, p) == |w|
    ensures (w + k)[..|w|] == w && (w + k)[|w|..] == k
  {
    if w == "" {
      assert w + k == k;
    } else {
      SpanStops(w[1..], k, p);
      assert (w + k)[1..] == w[1..] + k;
      assert w[0] in w;
    }
  }

  predicate At(s: string, i: nat, c: char) {
    i < |s| && s[i] == c
  }

  /** Drop the literal `lit` from the front of `s`. */
  function Expect(lit: string, s: string): (r: Parsed<()>)
    ensures r.Parsed? ==> s == lit + r.rest
  {
    if lit <= s then Parsed((), s[|lit|..]) else NoParse
  }

  lemma {:induction false} ExpectReads(lit: string, k: string)
    ensures Expect(lit, lit + k) == Parsed((), k)
  {
    assert (lit + k)[|lit|..] == k;
  }

  // ----- decimal integers

  predicate IsDigit(c: char) { '0' <= c <= '9' }

  function DigitValue(c: char): (d: nat)
    requires IsDigit(c)
    ensures d < 10
  {
    c as int - '0' as int
  }

  function DigitChar(d: nat): (c: char)
    requires d < 10
    ensures IsDigit(c) && DigitValue(c) == d
  {
    ('0' as int + d) as char
  }

  function NatText(n: nat): (s: string)
    ensures s != "" && forall c | c in s :: IsDigit(c)
  {
    if n < 10 then [DigitChar(n)] else NatText(n / 10) + [DigitChar(n % 10)]
  }

  function IntText(i: int): (s: string)
    ensures s != "" && (s[0] == '-' || IsDigit(s[0]))
  {
    if i < 0 then "-" + NatText(-i) else NatText(i)
  }

  function NatValue(s: string): nat
    requires forall c | c in s :: IsDigit(c)
  {
    if s == "" then 0
    else
      assert s[|s| - 1] in s;
      NatValue(s[..|s| - 1]) * 10 + DigitValue(s[|s| - 1])
  }

  lemma {:induction false} NatValueOfText(n: nat)
    ensures NatValue(NatText(n)) == n
  {
    if n >= 10 {
      var s := NatText(n);
      assert s[..|s| - 1] == NatText(n / 10);
      NatValueOfText(n / 10);
    }
  }

  /** A text of digits without a needless zero in front is how its number is written. */
  lemma {:induction false} DecimalIsText(s: string)
    requires s != "" && (forall c | c in s :: IsDigit(c)) && (s[0] == '0' ==> |s| == 1)
    ensures NatText(NatValue(s)) == s
    ensures s[0] != '0' ==> NatValue(s) > 0
    decreases |s|
  {
    var init, last := s[..|s| - 1], s[|s| - 1];
    assert last in s && DigitChar(DigitValue(last)) == last;
    if init == "" {
      assert s == [last] && NatValue(init) == 0;
    } else {
      assert init[0] == s[0] && forall c | c in init :: c in s;
      DecimalIsText(init);
      TextSnoc(NatValue(init), DigitValue(last));
      assert s == init + [last];
    }
  }

  lemma {:induction false} TextSnoc(n: nat, d: nat)
    requires n > 0 && d < 10
    ensures NatText(n * 10 + d) == NatText(n) + [DigitChar(d)]
  {
    hide NatText;
    assert (n * 10 + d) / 10 == n && (n * 10 + d) % 10 == d;
    LongText(n * 10 + d);
  }

  lemma {:induction false} LongText(n: nat)
    requires n >= 10
    ensures NatText(n) == NatText(n / 10) + [DigitChar(n % 10)]
  {
  }

  /** Only a negative number has a sign, and behind it the digits of its size. */
  lemma {:induction false} IntTextForm(i: int)
    ensures IntText(i)[0] == '-' <==> i < 0
    ensures i < 0 ==> IntText(i)[1..] == NatText(-i)
    ensures i >= 0 ==> IntText(i) == NatText(i)
  {
    assert i >= 0 ==> NatText(i)[0] in NatText(i);
  }

  /** Distinct numbers have distinct decimal texts. */
  lemma {:induction false} IntTextInjective(a: int, b: int)
    requires IntText(a) == IntText(b)
    ensures a == b
  {
    IntReads(a, "");
    IntReads(b, "");
    assert IntText(a) + "" == IntText(b) + "";
  }

  /** Read an unsigned decimal number, taking every digit in front. */
  function ReadNat(s: string): (r: Parsed<int>)
    ensures r.Parsed? ==> r.value >= 0 && |r.rest| < |s|
  {
    var n := Span(s, IsDigit);
    if n == 0 then NoParse
    else
      assert forall c | c in s[..n] :: IsDigit(c);
      Parsed(NatValue(s[..n]), s[n..])
  }

  function ReadInt(s: string): (r: Parsed<int>)
    ensures r.Parsed? ==> |r.rest| < |s|
  {
    var negative := s != "" && s[0] == '-';
    match ReadNat(if negative then s[1..] else s)
    case NoParse => NoParse
    case Parsed(n, r) =>
      var value: int := if negative then -n else n;
      Parsed(value, r)
  }

  lemma {:induction false} NatReads(n: nat, k: string)
    requires k == "" || !IsDigit(k[0])
    ensures ReadNat(NatText(n) + k) == Parsed(n, k)
  {
    SpanStops(NatText(n), k, IsDigit);
    NatValueOfText(n);
  }

  lemma {:induction false} IntReads(i: int, k: string)
    requires k == "" || !IsDigit(k[0])
    ensures ReadInt(IntText(i) + k) == Parsed(i, k)
  {
    hide NatText, ReadNat;
    var m := if i < 0 then -i else i;
    var t := IntText(i) + k;
    NatReads(m, k);
    assert NatText(m)[0] in NatText(m);
    assert i < 0 ==> t[0] == '-' && t[1..] == NatText(m) + k;
    assert i >= 0 ==> t[0] == NatText(m)[0];
  }

  // ----- JSON string literals

  function HexChar(d: nat): (c: char)
    requires d < 16
    ensures IsDigit(c) || 'a' <= c <= 'f'
  {
    if d < 10 then DigitChar(d) else ('a' as int + d - 10) as char
  }

  function HexValue(c: char): (d: int)
    ensures d < 16
  {
    if IsDigit(c) then c as int - '0' as int
    else if 'a' <= c <= 'f' then c as int - 'a' as int + 10
    else -1
  }

  /** How `json.dumps(..., ensure_ascii=False)` writes one character. */
  function Escape(c: char): (s: string)
    ensures s != ""
  {
    if c == '\"' then "\\\""
    else if c == '\\' then "\\\\"
    else if c == '\n' then "\\n"
    else if c == '\r' then "\\r"
    else if c == '\t' then "\\t"
    else if c == 8 as char then "\\b"
    else if c == 12 as char then "\\f"
    else if c as int < 32 then "\\u00" + [HexChar(c as int / 16), HexChar(c as int % 16)]
    else [c]
  }

  /** A character stands for itself unless it is a quote, a backslash or a control
      character; five of those have a letter and the others a number. */
  lemma {:induction false} EscapeForm(c: char)
    ensures |Escape(c)| == 1 <==> c != '\"' && c != '\\' && ' ' <= c
    ensures |Escape(c)| == 2 <==> c in {'\"', '\\', '\n', '\r', '\t', 8 as char, 12 as char}
    ensures |Escape(c)| in {1, 2, 6}
  {
  }

  /** The body of a literal, its closing quote, and then `k`. */
  function QuoteBody(v: string, k: string): string {
    if v == "" then "\"" + k else Escape(v[0]) + QuoteBody(v[1..], k)
  }

  /** The JSON literal for `v`, in front of `k`. */
  function QuoteTo(v: string, k: string): string {
    "\"" + QuoteBody(v, k)
  }

  /** Read one possibly escaped character of a literal. */
  function Unescape(s: string): (r: Parsed<char>)
    requires s != ""
    ensures r.Parsed? ==> |r.rest| < |s|
  {
    if s[0] != '\\' then (if s[0] as int < 32 then NoParse else Parsed(s[0], s[1..]))
    else if |s| < 2 then NoParse
    else match s[1] {
      case '\"' => Parsed('\"', s[2..])
      case '\\' => Parsed('\\', s[2..])
      case 'n' => Parsed('\n', s[2..])
      case 'r' => Parsed('\r', s[2..])
      case 't' => Parsed('\t', s[2..])
      case 'b' => Parsed(8 as char, s[2..])
      case 'f' => Parsed(12 as char, s[2..])
      case 'u' =>
        if |s| < 6 || s[2] != '0' || s[3] != '0' || HexValue(s[4]) < 0 || HexValue(s[5]) < 0 then NoParse
        else Parsed((HexValue(s[4]) * 16 + HexValue(s[5])) as char, s[6..])
      case _ => NoParse
    }
  }

  lemma {:induction false} UnescapeEscape(c: char, k: string)
    ensures Unescape(Escape(c) + k) == Parsed(c, k)
    ensures (Escape(c) + k)[0] != '\"'
  {
    var e := Escape(c);
    assert (e + k)[|e|..] == k;
    if 32 <= c as int || |e| == 2 {
    } else {
      assert e == ['\\', 'u', '0', '0', HexChar(c as int / 16), HexChar(c as int % 16)];
    }
  }

  function ReadQuoteBody(s: string): (r: Parsed<string>)
    ensures r.Parsed? ==> |r.rest| < |s|
    decreases |s|
  {
    if s == "" then NoParse
    else if s[0] == '\"' then Parsed("", s[1..])
    else
      var (c, r) :- Unescape(s);
      var (v, t) :- ReadQuoteBody(r);
      Parsed([c] + v, t)
  }

  function ReadQuote(s: string): (r: Parsed<string>)
    ensures r.Parsed? ==> |r.rest| < |s|
  {
    if s != "" && s[0] == '\"' then ReadQuoteBody(s[1..]) else NoParse
  }

  lemma {:induction false} QuoteBodyReads(v: string, k: string)
    ensures ReadQuoteBody(QuoteBody(v, k)) == Parsed(v, k)
  {
    if v == "" {
      assert ("\"" + k)[1..] == k;
    } else {
      var body := QuoteBody(v[1..], k);
      UnescapeEscape(v[0], body);
      QuoteBodyReads(v[1..], k);
      assert [v[0]] + v[1..] == v;
    }
  }

  /** A JSON literal is self-delimiting: reading it back gives the value and
      leaves exactly the text after it. */
  lemma {:induction false} QuoteReads(v: string, k: string)
    ensures ReadQuote(QuoteTo(v, k)) == Parsed(v, k)
  {
    QuoteBodyReads(v, k);
    assert QuoteTo(v, k)[1..] == QuoteBody(v, k);
  }
}
