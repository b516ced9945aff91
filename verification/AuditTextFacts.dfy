/** What the parts of the canonical text say, read by the standards that define them. */
module AuditTextFacts {
  import opened Wrappers
  import opened AuditText

  // ---- Numbers ----

  lemma {:induction false} PadLength(n: nat, width: nat)
    requires width > 0 && n < Power10(width)
    ensures |Pad(n, width)| == width
    decreases width
  {
    if width > 1 {
      assert n / 10 < Power10(width - 1);
      PadLength(n / 10, width - 1);
    } else {
      assert Power10(1) == 10 * Power10(0) == 10;
    }
  }

  /** A number that is not padded has no leading zero. */
  lemma {:induction false} NoLeadingZero(n: nat)
    ensures |Pad(n, 1)| > 0 && (n > 0 ==> Pad(n, 1)[0] != '0') && (n == 0 ==> Pad(n, 1) == "0")
  {
    if n >= 10 {
      PadZeroWidth(n / 10);
      NoLeadingZero(n / 10);
    }
  }

  lemma PadZeroWidth(n: nat)
    ensures Pad(n, 0) == Pad(n, 1)
  {
  }

  // ---- Timestamps ----

  lemma FieldAt(delimiter: string, n: nat, rest: string)
    requires |delimiter| == 1 && n < 100
    ensures
      var s := Field(delimiter, n, 2, rest);
      |s| == 3 + |rest| && s[0] == delimiter[0] && Value(s[1..3]) == n && s[3..] == rest
  {
    var s := Field(delimiter, n, 2, rest);
    assert Power10(2) == 10 * Power10(1) == 10 * (10 * Power10(0)) == 100;
    PadLength(n, 2);
    PadValue(n, 2);
    assert s[1..3] == Pad(n, 2);
  }

  /** A slice of a suffix is a slice of the whole. */
  lemma SuffixSlice(s: string, t: string, from: nat)
    requires from <= |s| && s[from..] == t && |t| >= 3
    ensures |s| >= from + 3 && s[from] == t[0] && s[from+1..from+3] == t[1..3] && s[from+3..] == t[3..]
  {
    assert s[from+1..from+3] == s[from..][1..3];
    assert s[from+3..] == s[from..][3..];
  }

  /** Where RFC 3339, section 5.6, has its fields: YYYY-MM-DDTHH:MM:SS, then the fraction and Z. */
  lemma FormatFields(t: Utc)
    requires t.year < 10000 && t.month < 100 && t.day < 100 && t.hour < 100 && t.minute < 100 && t.second < 100
    ensures
      var s := Format(t);
      && |s| >= 20
      && Value(s[0..4]) == t.year && s[4] == '-' && Value(s[5..7]) == t.month && s[7] == '-' && Value(s[8..10]) == t.day
      && s[10] == 'T' && Value(s[11..13]) == t.hour && s[13] == ':' && Value(s[14..16]) == t.minute && s[16] == ':'
      && Value(s[17..19]) == t.second && s[19..] == Fraction(t.nanos) + "Z"
  {
    var s := Format(t);
    var s6 := Fraction(t.nanos) + "Z";
    var s5 := Field(":", t.second, 2, s6);
    var s4 := Field(":", t.minute, 2, s5);
    var s3 := Field("T", t.hour, 2, s4);
    var s2 := Field("-", t.day, 2, s3);
    var s1 := Field("-", t.month, 2, s2);
    FieldAt(":", t.second, s6);
    FieldAt(":", t.minute, s5);
    FieldAt("T", t.hour, s4);
    FieldAt("-", t.day, s3);
    FieldAt("-", t.month, s2);
    YearAt(t.year, s1);
    assert s == Pad(t.year, 4) + s1;
    SuffixSlice(s, s1, 4);
    SuffixSlice(s, s2, 7);
    SuffixSlice(s, s3, 10);
    SuffixSlice(s, s4, 13);
    SuffixSlice(s, s5, 16);
  }

  lemma YearAt(year: nat, rest: string)
    requires year < 10000
    ensures var s := Pad(year, 4) + rest; |s| == 4 + |rest| && Value(s[0..4]) == year && s[4..] == rest
  {
    assert Power10(2) == 10 * Power10(1) == 10 * (10 * Power10(0)) == 100;
    assert Power10(4) == 10 * Power10(3) == 10 * (10 * Power10(2));
    PadLength(year, 4);
    PadValue(year, 4);
    assert (Pad(year, 4) + rest)[0..4] == Pad(year, 4);
  }

  lemma {:induction false} ValueOfMore(d: nat, s: string)
    requires d < 10
    ensures Value([Digit(d)] + s) == d * Power10(|s|) + Value(s)
  {
    var t := [Digit(d)] + s;
    if |s| == 0 {
      assert t[..0] == [] && Value(t) == DigitValue(Digit(d));
    } else {
      var n := |s| - 1;
      assert t[..|t|-1] == [Digit(d)] + s[..n];
      ValueOfMore(d, s[..n]);
      assert t[|t|-1] == s[n];
      ShiftDigit(d, Power10(n), Value(s[..n]), DigitValue(s[n]));
    }
  }

  lemma ShiftDigit(d: nat, p: nat, v: nat, x: nat)
    ensures 10 * (d * p + v) + x == d * (10 * p) + (10 * v + x)
  {
  }

  /** The fraction's digits stand for the nanoseconds, and none of them is a trailing zero. */
  lemma {:induction false} FractionValue(n: nat, width: nat)
    requires n < Power10(width)
    ensures
      var f := FractionDigits(n, width);
      && |f| <= width && Value(f) * Power10(width - |f|) == n
      && (|f| > 0 ==> f[|f|-1] != '0')
    decreases width
  {
    if n > 0 {
      FractionStep(n, width);
      var p := Power10(width - 1);
      var d, rest := n / p, n % p;
      assert n == d * p + rest;
      var tail := FractionDigits(rest, width - 1);
      FractionValue(rest, width - 1);
      LeadingValue(d, tail, width - 1, rest, n);
      if |tail| == 0 {
        assert Value(tail) == 0;
        NonZeroDigit(d, rest, n, p);
      }
    }
  }

  lemma LeadingValue(d: nat, tail: string, width: nat, rest: nat, n: nat)
    requires d < 10 && |tail| <= width && Value(tail) * Power10(width - |tail|) == rest
    requires n == d * Power10(width) + rest
    ensures Value([Digit(d)] + tail) * Power10(width - |tail|) == n
  {
    ValueOfMore(d, tail);
    SplitPower(|tail|, width - |tail|);
    Recombine(d, Power10(|tail|), Value(tail), Power10(width - |tail|), Power10(width), rest, n);
  }

  lemma {:induction false} SplitPower(a: nat, b: nat)
    ensures Power10(a) * Power10(b) == Power10(a + b)
  {
    if a > 0 {
      SplitPower(a - 1, b);
      assert Power10(a) * Power10(b) == 10 * (Power10(a - 1) * Power10(b));
    }
  }

  lemma Recombine(d: nat, x: nat, v: nat, y: nat, p: nat, rest: nat, n: nat)
    requires x * y == p && v * y == rest && n == d * p + rest
    ensures (d * x + v) * y == n
  {
    assert (d * x + v) * y == d * (x * y) + v * y;
  }

  lemma NonZeroDigit(d: nat, rest: nat, n: nat, p: nat)
    requires d < 10 && n == d * p + rest && n > 0 && rest == 0
    ensures d > 0 && Digit(d) != '0'
  {
  }

  /** Nanoseconds after the point: nothing when there are none. */
  lemma FractionExactly(nanos: Nanos)
    ensures nanos == 0 ==> Fraction(nanos) == ""
    ensures nanos > 0 ==>
      var f := Fraction(nanos);
      && 1 < |f| <= 10 && f[0] == '.' && f[|f|-1] != '0' && IsDigits(f[1..])
      && Value(f[1..]) * Power10(10 - |f|) == nanos
  {
    NineDigits();
    if nanos > 0 {
      FractionValue(nanos, 9);
      var digits := FractionDigits(nanos, 9);
      assert Fraction(nanos)[1..] == digits;
      assert Value("") == 0;
    }
  }

  lemma Flatten(a: string, n: string, t: string, k: string, p: string, v: string, z: string)
    ensures a + (n + (t + (k + (p + v + z)))) == (a + n) + t + k + p + v + z
  {
    assert n + (t + (k + (p + v + z))) == n + t + k + p + v + z;
  }

  lemma GroupPairs(x: string, p: string, y: string, q: string, z: string)
    ensures x + p + y + q + z == (x + p) + (y + q) + z
  {
  }

  /** The layout of the canonical text: five fields in this order, the sequence without leading zeros. */
  lemma CanonicalLayout(h: Hashed)
    ensures CanonicalText(h)
         == ("{\"sequence\":" + Pad(h.sequence, 1)) + (",\"timestamp\":" + Quote(Format(h.timestamp)))
            + (",\"kind\":" + Quote(h.kind)) + (",\"payload\":" + h.payload) + (",\"prev_hash\":" + Quote(h.prev)) + "}"
    ensures h.sequence > 0 ==> Pad(h.sequence, 1)[0] != '0'
  {
    NoLeadingZero(h.sequence);
    GroupPairs(",\"payload\":", h.payload, ",\"prev_hash\":", Quote(h.prev), "}");
    Flatten("{\"sequence\":", Pad(h.sequence, 1), ",\"timestamp\":" + Quote(Format(h.timestamp)),
            ",\"kind\":" + Quote(h.kind), ",\"payload\":" + h.payload, ",\"prev_hash\":" + Quote(h.prev), "}");
  }

  // ---- Strings: a decoder for RFC 8259, section 7 ----

  function HexValue(c: char): Option<nat> {
    if '0' <= c <= '9' then Some(c as int - '0' as int)
    else if 'a' <= c <= 'f' then Some(c as int - 'a' as int + 10)
    else if 'A' <= c <= 'F' then Some(c as int - 'A' as int + 10)
    else None
  }

  /** Four hex digits as a code unit, if it is a character by itself. */
  function CodeUnit(a: char, b: char, c: char, d: char): Option<char> {
    match (HexValue(a), HexValue(b), HexValue(c), HexValue(d))
    case (Some(w), Some(x), Some(y), Some(z)) =>
      var u := ((w * 16 + x) * 16 + y) * 16 + z;
      if 0 <= u < 0xD800 || 0xE000 <= u < 0x1_0000 then Some(u as char) else None
    case _ => None
  }

  function Unescaped(c: char): Option<char> {
    if c == '\"' || c == '\\' || c == '/' then Some(c)
    else if c == 'b' then Some('\U{8}')
    else if c == 'f' then Some('\U{c}')
    else if c == 'n' then Some('\n')
    else if c == 'r' then Some('\r')
    else if c == 't' then Some('\t')
    else None
  }

  /** The first character that an encoded text stands for, and how much of the text it takes. */
  function FirstChar(s: string): Option<(char, nat)>
    requires |s| > 0
    ensures FirstChar(s).Some? ==> 0 < FirstChar(s).value.1 <= |s|
  {
    if s[0] == '\"' || s[0] < ' ' then None
    else if s[0] != '\\' then Some((s[0], 1))
    else if |s| >= 2 && Unescaped(s[1]).Some? then Some((Unescaped(s[1]).value, 2))
    else if |s| >= 6 && s[1] == 'u' && CodeUnit(s[2], s[3], s[4], s[5]).Some? then
      Some((CodeUnit(s[2], s[3], s[4], s[5]).value, 6))
    else None
  }

  function Decode(s: string): Option<string> {
    if |s| == 0 then Some("")
    else match FirstChar(s)
      case None => None
      case Some((c, n)) =>
        match Decode(s[n..])
        case None => None
        case Some(rest) => Some([c] + rest)
  }

  lemma HexRoundTrip(d: nat)
    requires d < 16
    ensures HexValue(HexDigit(d)) == Some(d)
  {
  }

  lemma FirstCharEscaped(c: char, rest: string)
    ensures FirstChar(EscapeChar(c) + rest) == Some((c, |EscapeChar(c)|))
  {
    var e := EscapeChar(c);
    var s := e + rest;
    if ShortEscape(c) != ' ' {
      assert s[0] == '\\' && s[1] == ShortEscape(c);
      ShortRoundTrip(c);
    } else if |e| == 6 {
      assert s[..6] == e;
      LongRoundTrip(c, s);
    } else {
      assert s[0] == c;
    }
  }

  lemma ShortRoundTrip(c: char)
    requires ShortEscape(c) != ' '
    ensures Unescaped(ShortEscape(c)) == Some(c)
  {
  }

  lemma LongRoundTrip(c: char, s: string)
    requires ShortEscape(c) == ' ' && |EscapeChar(c)| == 6 && |s| >= 6 && s[..6] == EscapeChar(c)
    ensures FirstChar(s) == Some((c, 6))
  {
    var e := EscapeChar(c);
    assert s[0] == e[0] && s[1] == e[1] && s[2] == e[2] && s[3] == e[3] && s[4] == e[4] && s[5] == e[5];
    UnitRoundTrip(c);
  }

  lemma UnitRoundTrip(c: char)
    requires ShortEscape(c) == ' ' && |EscapeChar(c)| == 6
    ensures var e := EscapeChar(c); CodeUnit(e[2], e[3], e[4], e[5]) == Some(c)
  {
    var e := EscapeChar(c);
    if e[2] == '0' {
      HexRoundTrip(c as int / 16);
      HexRoundTrip(c as int % 16);
    }
  }

  /** Decoding an escaped string gives the string back. */
  lemma {:induction false} DecodeEscape(s: string)
    ensures Decode(Escape(s)) == Some(s)
  {
    if |s| > 0 {
      var e, rest := EscapeChar(s[0]), Escape(s[1..]);
      FirstCharEscaped(s[0], rest);
      assert (e + rest)[|e|..] == rest;
      DecodeEscape(s[1..]);
      assert s == [s[0]] + s[1..];
    }
  }

  /** Characters that Go's encoder writes as they are. */
  predicate IsPlain(c: char) {
    c >= ' ' && c !in {'\"', '\\', '<', '>', '&', '\U{2028}', '\U{2029}'}
  }

  /** A string is written as it is exactly when it consists of such characters. */
  lemma {:induction false} EscapePlain(s: string)
    ensures |Escape(s)| >= |s|
    ensures Escape(s) == s <==> forall i :: 0 <= i < |s| ==> IsPlain(s[i])
  {
    if |s| > 0 {
      EscapePlain(s[1..]);
      var e := EscapeChar(s[0]);
      assert s == [s[0]] + s[1..];
      assert forall i :: 1 <= i < |s| ==> s[i] == s[1..][i-1];
      if IsPlain(s[0]) {
        assert e == [s[0]];
        assert Escape(s) == s <==> Escape(s[1..]) == s[1..] by {
          if Escape(s) == s { assert Escape(s)[1..] == s[1..]; }
        }
      } else {
        assert |e| > 1;
      }
    }
  }
}
