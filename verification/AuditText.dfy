/**
 * The canonical text that the audit log hashes: the JSON object of sequence, timestamp, kind,
 * payload and previous hash. Main result: two records with one canonical text agree in every field.
 */
module AuditText {

  // ---- Decimal numbers ----

  function Digit(d: nat): char
    requires d < 10
  {
    "0123456789"[d]
  }

  function DigitValue(c: char): nat {
    if '0' <= c <= '9' then (c as int) - ('0' as int) else 0
  }

  predicate IsDigits(s: string) {
    forall i :: 0 <= i < |s| ==> '0' <= s[i] <= '9'
  }

  /** Decimal digits of n, zero-padded on the left to at least `width`. */
  function Pad(n: nat, width: nat): (s: string)
    ensures IsDigits(s)
    decreases n + width
  {
    if n < 10 && width <= 1 then [Digit(n)]
    else Pad(n / 10, if width == 0 then 0 else width - 1) + [Digit(n % 10)]
  }

  function Value(s: string): nat {
    if |s| == 0 then 0 else 10 * Value(s[..|s|-1]) + DigitValue(s[|s|-1])
  }

  lemma {:induction false} PadValue(n: nat, width: nat)
    ensures Value(Pad(n, width)) == n
    decreases n + width
  {
    var s := Pad(n, width);
    if n < 10 && width <= 1 {
      assert s[..0] == [];
    } else {
      PadValue(n / 10, if width == 0 then 0 else width - 1);
    }
  }

  lemma PadInjective(m: nat, n: nat, width: nat)
    requires Pad(m, width) == Pad(n, width)
    ensures m == n
  {
    PadValue(m, width);
    PadValue(n, width);
  }

  /** The text does not go on with another digit. */
  predicate EndsNumber(s: string) {
    |s| > 0 && !('0' <= s[0] <= '9')
  }

  lemma NumberLength(a: string, x: string)
    requires IsDigits(a) && EndsNumber(x)
    ensures forall i :: 0 <= i < |a| ==> '0' <= (a + x)[i] <= '9'
    ensures |a + x| > |a| && !('0' <= (a + x)[|a|] <= '9')
  {
  }

  lemma NumberEnds(a: string, x: string, b: string, y: string)
    requires IsDigits(a) && IsDigits(b) && EndsNumber(x) && EndsNumber(y)
    requires a + x == b + y
    ensures a == b && x == y
  {
    NumberLength(a, x);
    NumberLength(b, y);
    assert |a| == |b|;
    SameStart(a, x, b, y);
  }

  lemma SameStart(a: string, x: string, b: string, y: string)
    requires |a| == |b| && a + x == b + y
    ensures a == b && x == y
  {
    assert a == (a + x)[..|a|] && b == (b + y)[..|b|];
    assert x == (a + x)[|a|..] && y == (b + y)[|b|..];
  }

  // ---- Timestamps: RFC 3339 section 5.6, as Go's RFC3339Nano writes an instant in UTC ----

  type Nanos = n: nat | n < 1_000_000_000

  datatype Utc = Utc(year: nat, month: nat, day: nat, hour: nat, minute: nat, second: nat, nanos: Nanos)

  function Power10(w: nat): (p: nat)
    ensures p > 0
  {
    if w == 0 then 1 else 10 * Power10(w - 1)
  }

  /** The digits of n / 10^width after the point, with trailing zeros dropped. */
  function FractionDigits(n: nat, width: nat): (s: string)
    requires n < Power10(width)
    ensures IsDigits(s)
  {
    if n == 0 then ""
    else
      LeadingDigit(n, Power10(width - 1));
      [Digit(n / Power10(width - 1))] + FractionDigits(n % Power10(width - 1), width - 1)
  }

  lemma LeadingDigit(n: nat, p: nat)
    requires p > 0 && n < 10 * p
    ensures 0 <= n / p < 10
  {
    assert n / p * p <= n;
    CancelFactor(n / p, 10, p);
  }

  lemma CancelFactor(a: nat, b: nat, p: nat)
    requires a * p < b * p
    ensures a < b
  {
  }

  lemma QuotientAndRemainder(m: nat, n: nat, p: nat)
    requires p > 0 && m / p == n / p && m % p == n % p
    ensures m == n
  {
    assert m == m / p * p + m % p && n == n / p * p + n % p;
  }

  lemma DigitInjective(d: nat, e: nat)
    requires d < 10 && e < 10 && Digit(d) == Digit(e)
    ensures d == e
  {
    assert DigitValue(Digit(d)) == d && DigitValue(Digit(e)) == e;
  }

  lemma FractionStep(n: nat, width: nat)
    requires 0 < n < Power10(width)
    ensures width > 0 && 0 <= n / Power10(width - 1) < 10
    ensures FractionDigits(n, width)
         == [Digit(n / Power10(width - 1))] + FractionDigits(n % Power10(width - 1), width - 1)
  {
    LeadingDigit(n, Power10(width - 1));
  }

  lemma SameLeadingDigit(d: nat, x: string, e: nat, y: string)
    requires d < 10 && e < 10 && [Digit(d)] + x == [Digit(e)] + y
    ensures d == e && x == y
  {
    var a, b := [Digit(d)], [Digit(e)];
    SameStart(a, x, b, y);
    assert a[0] == b[0];
    DigitInjective(d, e);
  }

  lemma {:induction false} FractionInjective(m: nat, n: nat, width: nat)
    requires m < Power10(width) && n < Power10(width)
    requires FractionDigits(m, width) == FractionDigits(n, width)
    ensures m == n
    decreases width
  {
    if m != 0 { FractionStep(m, width); }
    if n != 0 { FractionStep(n, width); }
    if m != 0 && n != 0 {
      var p := Power10(width - 1);
      var x, y := FractionDigits(m % p, width - 1), FractionDigits(n % p, width - 1);
      SameLeadingDigit(m / p, x, n / p, y);
      FractionInjective(m % p, n % p, width - 1);
      QuotientAndRemainder(m, n, p);
    }
  }

  lemma NineDigits()
    ensures Power10(9) == 1_000_000_000
  {
    assert Power10(3) == 1000;
    assert Power10(6) == 1_000_000;
  }

  function Fraction(nanos: Nanos): string {
    NineDigits();
    if nanos == 0 then "" else "." + FractionDigits(nanos, 9)
  }

  /** A number with its leading delimiter, followed by the rest of the text. */
  function Field(delimiter: string, n: nat, width: nat, rest: string): (s: string)
    ensures EndsNumber(delimiter) ==> EndsNumber(s)
  {
    delimiter + (Pad(n, width) + rest)
  }

  function Format(t: Utc): string {
    Pad(t.year, 4) + Field("-", t.month, 2, Field("-", t.day, 2, Field("T", t.hour, 2,
      Field(":", t.minute, 2, Field(":", t.second, 2, Fraction(t.nanos) + "Z")))))
  }

  /** One delimited number at the front: it is determined, and so is what follows. */
  lemma FieldEnds(delimiter: string, m: nat, n: nat, width: nat, x: string, y: string)
    requires EndsNumber(x) && EndsNumber(y)
    requires Field(delimiter, m, width, x) == Field(delimiter, n, width, y)
    ensures m == n && x == y
  {
    SameStart(delimiter, Pad(m, width) + x, delimiter, Pad(n, width) + y);
    NumberEnds(Pad(m, width), x, Pad(n, width), y);
    PadInjective(m, n, width);
  }

  lemma FractionEnds(m: Nanos, n: Nanos)
    requires Fraction(m) + "Z" == Fraction(n) + "Z"
    ensures m == n
  {
    NineDigits();
    var a, b := Fraction(m), Fraction(n);
    assert a == (a + "Z")[..|a|] && b == (b + "Z")[..|b|];
    if m != 0 && n != 0 {
      assert a[1..] == FractionDigits(m, 9) && b[1..] == FractionDigits(n, 9);
      FractionInjective(m, n, 9);
    }
  }

  /** A timestamp's text determines the instant down to the nanosecond. */
  lemma FormatInjective(s: Utc, t: Utc)
    requires Format(s) == Format(t)
    ensures s == t
  {
    var s6, t6 := Fraction(s.nanos) + "Z", Fraction(t.nanos) + "Z";
    var s5, t5 := Field(":", s.second, 2, s6), Field(":", t.second, 2, t6);
    var s4, t4 := Field(":", s.minute, 2, s5), Field(":", t.minute, 2, t5);
    var s3, t3 := Field("T", s.hour, 2, s4), Field("T", t.hour, 2, t4);
    var s2, t2 := Field("-", s.day, 2, s3), Field("-", t.day, 2, t3);
    var s1, t1 := Field("-", s.month, 2, s2), Field("-", t.month, 2, t2);
    NumberEnds(Pad(s.year, 4), s1, Pad(t.year, 4), t1);
    PadInjective(s.year, t.year, 4);
    FieldEnds("-", s.month, t.month, 2, s2, t2);
    FieldEnds("-", s.day, t.day, 2, s3, t3);
    FieldEnds("T", s.hour, t.hour, 2, s4, t4);
    FieldEnds(":", s.minute, t.minute, 2, s5, t5);
    FieldEnds(":", s.second, t.second, 2, s6, t6);
    FractionEnds(s.nanos, t.nanos);
  }

  // ---- JSON strings: RFC 8259 section 7, with the HTML-safe escapes of Go's encoder ----

  function HexDigit(d: nat): char
    requires d < 16
  {
    "0123456789abcdef"[d]
  }

  /** The letter after the backslash of a two-character escape, or a space when there is none. */
  function ShortEscape(c: char): char {
    if c == '\"' then '\"'
    else if c == '\\' then '\\'
    else if c == '\U{8}' then 'b'
    else if c == '\U{c}' then 'f'
    else if c == '\n' then 'n'
    else if c == '\r' then 'r'
    else if c == '\t' then 't'
    else ' '
  }

  function EscapeChar(c: char): (e: string)
    ensures |e| > 0 && e[0] != '\"'
  {
    if ShortEscape(c) != ' ' then ['\\', ShortEscape(c)]
    else if c < ' ' || c == '<' || c == '>' || c == '&' then
      ['\\', 'u', '0', '0', HexDigit(c as int / 16), HexDigit(c as int % 16)]
    else if c == '\U{2028}' then ['\\', 'u', '2', '0', '2', '8']
    else if c == '\U{2029}' then ['\\', 'u', '2', '0', '2', '9']
    else [c]
  }

  function Escape(s: string): (e: string)
    ensures |s| == 0 ==> e == ""
    ensures |s| > 0 ==> |e| > 0 && e[0] != '\"'
  {
    if |s| == 0 then "" else EscapeChar(s[0]) + Escape(s[1..])
  }

  function Quote(s: string): string { "\"" + Escape(s) + "\"" }

  lemma HexDigitInjective(d: nat, e: nat)
    requires d < 16 && e < 16 && HexDigit(d) == HexDigit(e)
    ensures d == e
  {
  }

  lemma EscapeCharInjective(c: char, d: char)
    requires EscapeChar(c) == EscapeChar(d)
    ensures c == d
  {
    var a, b := EscapeChar(c), EscapeChar(d);
    assert |a| == |b|;
    if |a| == 2 {
      assert ShortEscape(c) == a[1] == b[1] == ShortEscape(d);
    } else if |a| == 6 {
      assert a[2] == b[2] && a[4] == b[4] && a[5] == b[5];
      if a[2] == '0' {
        HexDigitInjective(c as int / 16, d as int / 16);
        HexDigitInjective(c as int % 16, d as int % 16);
        assert c as int == d as int;
      }
    } else {
      assert a[0] == c && b[0] == d;
    }
  }

  /** How long an escape is shows in its first two characters. */
  lemma EscapeCharLength(c: char)
    ensures
      var e := EscapeChar(c);
      && |e| > 0
      && (e[0] != '\\' ==> |e| == 1)
      && (e[0] == '\\' ==> |e| >= 2 && |e| == if e[1] == 'u' then 6 else 2)
  {
  }

  /** Escapes form a prefix code: the first one read off a text is determined. */
  lemma EscapeCharPrefix(c: char, x: string, d: char, y: string)
    requires EscapeChar(c) + x == EscapeChar(d) + y
    ensures c == d && x == y
  {
    var a, b := EscapeChar(c), EscapeChar(d);
    EscapeCharLength(c);
    EscapeCharLength(d);
    assert (a + x)[0] == a[0] && (b + y)[0] == b[0];
    if a[0] == '\\' {
      assert (a + x)[1] == a[1] && (b + y)[1] == b[1];
    }
    SameStart(a, x, b, y);
    EscapeCharInjective(c, d);
  }

  /** An escaped string is terminated by the first bare quote, so it and what follows are determined. */
  lemma {:induction false} EscapeEnds(a: string, x: string, b: string, y: string)
    requires |x| > 0 && x[0] == '\"' && |y| > 0 && y[0] == '\"'
    requires Escape(a) + x == Escape(b) + y
    ensures a == b && x == y
    decreases |a|
  {
    var s, t := Escape(a) + x, Escape(b) + y;
    assert s[0] == t[0];
    if |a| > 0 && |b| > 0 {
      var p, q := Escape(a[1..]) + x, Escape(b[1..]) + y;
      assert s == EscapeChar(a[0]) + p && t == EscapeChar(b[0]) + q;
      EscapeCharPrefix(a[0], p, b[0], q);
      EscapeEnds(a[1..], x, b[1..], y);
    } else {
      EscapeStart(a, x);
      EscapeStart(b, y);
    }
  }

  lemma EscapeStart(a: string, x: string)
    requires |x| > 0 && x[0] == '\"'
    ensures (Escape(a) + x)[0] == '\"' <==> |a| == 0
    ensures |a| == 0 ==> Escape(a) + x == x
  {
  }

  lemma Regroup(a: string, b: string, c: string, d: string, e: string)
    ensures a + (b + c + d) + e == (a + b) + (c + (d + e))
  {
  }

  lemma QuoteEnds(field: string, a: string, x: string, b: string, y: string)
    requires field + Quote(a) + x == field + Quote(b) + y
    ensures a == b && x == y
  {
    Regroup(field, "\"", Escape(a), "\"", x);
    Regroup(field, "\"", Escape(b), "\"", y);
    SameStart(field + "\"", Escape(a) + ("\"" + x), field + "\"", Escape(b) + ("\"" + y));
    EscapeEnds(a, "\"" + x, b, "\"" + y);
    SameStart("\"", x, "\"", y);
  }

  // ---- The canonical text ----

  predicate IsHex(s: string) {
    forall i :: 0 <= i < |s| ==> '0' <= s[i] <= '9' || 'a' <= s[i] <= 'f'
  }

  /** What the hash function returns: 32 bytes in lower-case hexadecimal. */
  predicate IsDigest(s: string) { |s| == 64 && IsHex(s) }

  /** What may precede a record: nothing, or a digest. */
  predicate IsPrev(s: string) { s == "" || IsDigest(s) }

  lemma {:induction false} EscapeHex(s: string)
    requires IsHex(s)
    ensures Escape(s) == s
  {
    if |s| > 0 {
      EscapeHex(s[1..]);
      assert EscapeChar(s[0]) == [s[0]];
      assert s == [s[0]] + s[1..];
    }
  }

  /** The hashed view of a record; `payload` is the payload text as the encoder writes it, compacted. */
  datatype Hashed = Hashed(sequence: nat, timestamp: Utc, kind: string, payload: string, prev: string)

  function PayloadAndPrev(payload: string, prev: string): string {
    ",\"payload\":" + payload + ",\"prev_hash\":" + Quote(prev) + "}"
  }

  function CanonicalText(h: Hashed): string {
    Field("{\"sequence\":", h.sequence, 1,
      ",\"timestamp\":" + Quote(Format(h.timestamp))
      + (",\"kind\":" + Quote(h.kind) + PayloadAndPrev(h.payload, h.prev)))
  }

  lemma RegroupTail(a: string, p: string, b: string, c: string, d: string, e: string, f: string)
    ensures a + p + b + (c + d + e) + f == (a + p + b + c) + (d + (e + f))
  {
  }

  /** The third character from the end tells an empty previous hash from a digest. */
  lemma FromTheBack(head: string, prev: string, tail: string)
    requires |head| > 0 && head[|head|-1] == '\"' && |tail| == 2 && IsPrev(prev)
    ensures
      var s := head + (prev + tail);
      |s| >= 3 && (s[|s|-3] == '\"' <==> prev == "")
  {
    var s := head + (prev + tail);
    assert prev == "" ==> s[|s|-3] == head[|head|-1];
    assert prev != "" ==> s[|s|-3] == prev[63];
  }

  /** Read from the back, the previous hash is empty or the last 64 hex digits; the payload is what is left. */
  lemma PayloadAndPrevInjective(p: string, q: string, a: string, b: string)
    requires IsPrev(a) && IsPrev(b)
    requires PayloadAndPrev(p, a) == PayloadAndPrev(q, b)
    ensures p == q && a == b
  {
    EscapeHex(a);
    EscapeHex(b);
    var open, link, tail := ",\"payload\":", ",\"prev_hash\":", "\"" + "}";
    var s, t := open + p + link + "\"", open + q + link + "\"";
    RegroupTail(open, p, link, "\"", a, "\"", "}");
    RegroupTail(open, q, link, "\"", b, "\"", "}");
    FromTheBack(s, a, tail);
    FromTheBack(t, b, tail);
    SameStart(s, a + tail, t, b + tail);
    SameStart(a, tail, b, tail);
    assert |p| == |q|;
    assert p == s[|open|..|open|+|p|] && q == t[|open|..|open|+|q|];
  }

  /** One canonical text, one record: sequence, instant, kind, compact payload and previous hash all agree. */
  lemma CanonicalTextInjective(g: Hashed, h: Hashed)
    requires IsPrev(g.prev) && IsPrev(h.prev)
    requires CanonicalText(g) == CanonicalText(h)
    ensures g == h
  {
    var g3, h3 := PayloadAndPrev(g.payload, g.prev), PayloadAndPrev(h.payload, h.prev);
    var g2, h2 := ",\"kind\":" + Quote(g.kind) + g3, ",\"kind\":" + Quote(h.kind) + h3;
    var g1 := ",\"timestamp\":" + Quote(Format(g.timestamp)) + g2;
    var h1 := ",\"timestamp\":" + Quote(Format(h.timestamp)) + h2;
    FieldEnds("{\"sequence\":", g.sequence, h.sequence, 1, g1, h1);
    QuoteEnds(",\"timestamp\":", Format(g.timestamp), g2, Format(h.timestamp), h2);
    FormatInjective(g.timestamp, h.timestamp);
    QuoteEnds(",\"kind\":", g.kind, g3, h.kind, h3);
    PayloadAndPrevInjective(g.payload, h.payload, g.prev, h.prev);
  }
}
