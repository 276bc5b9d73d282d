/** What the text casts, the rounding and the byte order of `ng-gateway-sdk/src/value.rs` mean, against
    printers and definitions of their own. */
module ValueText {
  import opened Collections
  import opened Doubles
  import opened Values

  // ---------------------------------------------------------------- types

  /** The type a value is checked against is that of its own form. */
  lemma TypeIffForm(v: NGValue, t: DataType)
    ensures TypeOf(v) == t <==>
      match t
      case TBoolean => v.Boolean?
      case TInt(k) => v.Integer? && v.kind == k
      case TFloat32 => v.Float32?
      case TFloat64 => v.Float64?
      case TText => v.Text?
      case TBinary => v.Binary?
      case TTimestamp => v.Timestamp?
  {
  }

  // ---------------------------------------------------------------- blanks

  ghost predicate Blank(s: string) { forall i | 0 <= i < |s| :: IsSpace(s[i]) }

  /** The white space of Unicode, by code point. */
  lemma SpacesAre(c: char)
    ensures IsSpace(c) <==>
      var n := c as int;
      || 9 <= n <= 13 || n == 32 || n == 133 || n == 160 || n == 5760 || 8192 <= n <= 8202
      || n == 8232 || n == 8233 || n == 8239 || n == 8287 || n == 12288
  {
  }

  lemma TrimFront(c: char, s: string)
    requires IsSpace(c)
    ensures Trim([c] + s) == Trim(s)
  {
    assert ([c] + s)[1..] == s;
  }

  lemma {:induction false} TrimBack(s: string, c: char)
    requires IsSpace(c)
    ensures Trim(s + [c]) == Trim(s)
    decreases |s|
  {
    if s == "" {
      assert s + [c] == [c] && [c][1..] == "";
    } else if IsSpace(s[0]) {
      assert (s + [c])[1..] == s[1..] + [c];
      TrimBack(s[1..], c);
    } else {
      assert (s + [c])[..|s|] == s;
    }
  }

  lemma {:induction false} TrimDropsBlanks(l: string, s: string, r: string)
    requires Blank(l) && Blank(r)
    ensures Trim(l + s + r) == Trim(s)
    decreases |l| + |r|
  {
    if l != "" {
      assert l + s + r == [l[0]] + (l[1..] + s + r);
      TrimFront(l[0], l[1..] + s + r);
      TrimDropsBlanks(l[1..], s, r);
    } else if r != "" {
      var n := |r| - 1;
      assert l + s + r == (l + s + r[..n]) + [r[n]];
      TrimBack(l + s + r[..n], r[n]);
      TrimDropsBlanks(l, s, r[..n]);
    } else {
      assert l + s + r == s;
    }
  }

  lemma {:induction false} TrimmedEnds(s: string)
    ensures Trim(s) != "" ==> !IsSpace(Trim(s)[0]) && !IsSpace(Trim(s)[|Trim(s)| - 1])
    decreases |s|
  {
    if s != "" && IsSpace(s[0]) { TrimmedEnds(s[1..]); }
    else if s != "" && IsSpace(s[|s| - 1]) { TrimmedEnds(s[..|s| - 1]); }
  }

  ghost predicate Between(s: string, l: string, t: string, r: string) { Blank(l) && Blank(r) && s == l + t + r }

  lemma GrowsFront(c: char, s: string, l: string, t: string, r: string)
    requires IsSpace(c) && Between(s, l, t, r)
    ensures Between([c] + s, [c] + l, t, r)
  {
  }

  lemma GrowsBack(s: string, c: char, l: string, t: string, r: string)
    requires IsSpace(c) && Between(s, l, t, r)
    ensures Between(s + [c], l, t, r + [c])
  {
  }

  /** Trimming takes off blanks at the ends and nothing else; `TrimmedEnds` says that it takes off all. */
  lemma {:induction false} TrimIs(s: string) returns (l: string, r: string)
    ensures Between(s, l, Trim(s), r)
    decreases |s|
  {
    if s != "" && IsSpace(s[0]) {
      var rest := s[1..];
      l, r := TrimIs(rest);
      GrowsFront(s[0], rest, l, Trim(rest), r);
      l := [s[0]] + l;
      assert s == [s[0]] + rest;
    } else if s != "" && IsSpace(s[|s| - 1]) {
      var rest := s[..|s| - 1];
      l, r := TrimIs(rest);
      GrowsBack(rest, s[|s| - 1], l, Trim(rest), r);
      r := r + [s[|s| - 1]];
      assert s == rest + [s[|s| - 1]];
    } else {
      l, r := "", "";
    }
  }

  lemma TrimDecides(parser: FloatParser, s: string, t: string)
    requires Trim(s) == Trim(t)
    ensures ParseSignedText(parser, s) == ParseSignedText(parser, t)
    ensures ParseUnsignedText(parser, s) == ParseUnsignedText(parser, t)
  {
  }

  /** Blanks around a text change nothing. */
  lemma BlanksAround(parser: FloatParser, k: IntKind, l: string, s: string, r: string)
    requires Blank(l) && Blank(r)
    ensures CastInt(parser, k, Text(l + s + r)) == CastInt(parser, k, Text(s))
  {
    TrimDropsBlanks(l, s, r);
    TrimDecides(parser, l + s + r, s);
  }

  /** A text of blanks only is no number. */
  lemma BlankFails(parser: FloatParser, k: IntKind, s: string)
    requires Blank(s)
    ensures CastInt(parser, k, Text(s)) == Err(ParseError)
  {
    TrimDropsBlanks(s, "", "");
    assert s + "" + "" == s;
    TextCastIs(parser, k, s);
  }

  // ---------------------------------------------------------------- hexadecimal text

  function HexDigit(d: nat, upper: bool): (c: char)
    requires d < 16
  {
    if upper then "0123456789ABCDEF"[d] else "0123456789abcdef"[d]
  }

  function HexDigits(m: nat, upper: bool): (s: string)
    ensures s != ""
  {
    if m < 16 then [HexDigit(m, upper)] else HexDigits(m / 16, upper) + [HexDigit(m % 16, upper)]
  }

  lemma HexDigitIs(d: nat, upper: bool)
    requires d < 16
    ensures DigitValue(HexDigit(d, upper)) == Some(d)
    ensures !IsSpace(HexDigit(d, upper)) && HexDigit(d, upper) != '+'
  {
  }

  lemma {:induction false} ParseHexDigits(m: nat, upper: bool)
    ensures ParseDigits(HexDigits(m, upper), 16) == Some(m)
  {
    var d := HexDigits(m, upper);
    if m < 16 {
      HexDigitIs(m, upper);
    } else {
      HexDigitIs(m % 16, upper);
      ParseHexDigits(m / 16, upper);
      assert d[..|d| - 1] == HexDigits(m / 16, upper) && d[|d| - 1] == HexDigit(m % 16, upper);
      assert 16 * (m / 16) + m % 16 == m;
    }
  }

  lemma {:induction false} HexDigitsPlain(m: nat, upper: bool)
    ensures forall c | c in HexDigits(m, upper) :: !IsSpace(c) && c != '+'
  {
    if m < 16 {
      HexDigitIs(m, upper);
    } else {
      HexDigitIs(m % 16, upper);
      HexDigitsPlain(m / 16, upper);
    }
  }

  /** One character that is no digit spoils the number. */
  lemma {:induction false} NoDigit(s: string, base: nat, i: nat)
    requires i < |s| && DigitValue(s[i]) == None
    ensures ParseDigits(s, base) == None
    decreases |s|
  {
    if i < |s| - 1 { NoDigit(s[..|s| - 1], base, i); }
  }

  function Prefix(big: bool): string { if big then "0X" else "0x" }

  /** Hexadecimal text as an engineer writes it: a sign or none, the prefix, the digits. */
  function HexText(sign: string, big: bool, m: nat, upper: bool): string {
    sign + (Prefix(big) + HexDigits(m, upper))
  }

  lemma HexBody(big: bool, m: nat, upper: bool)
    ensures var body := Prefix(big) + HexDigits(m, upper);
            && HexPrefix(body) && |body| > 2 && body[0] == '0' && DigitValue(body[1]) == None
            && Trim(body[2..]) == HexDigits(m, upper) && !IsSpace(body[|body| - 1])
  {
    var d := HexDigits(m, upper);
    var body := Prefix(big) + d;
    ParseHexDigits(m, upper);
    HexDigitsPlain(m, upper);
    assert d[0] in d && d[|d| - 1] in d;
    assert body[2..] == d && body[|body| - 1] == d[|d| - 1];
    TrimKeeps(d);
    assert Prefix(big) <= body;
  }

  lemma ParseHexU64(m: nat, upper: bool)
    ensures ParseU64(HexDigits(m, upper), 16) == if m <= Max(U64) then Some(m) else None
  {
    var d := HexDigits(m, upper);
    ParseHexDigits(m, upper);
    HexDigitsPlain(m, upper);
    assert d[0] in d;
  }

  lemma HexTextIsTrimmed(sign: string, big: bool, m: nat, upper: bool)
    requires sign == "" || sign == "+" || sign == "-"
    ensures var s := HexText(sign, big, m, upper); Trim(s) == s && s != ""
  {
    HexBody(big, m, upper);
    var body, s := Prefix(big) + HexDigits(m, upper), HexText(sign, big, m, upper);
    assert s[|s| - 1] == body[|body| - 1];
    TrimKeeps(s);
  }

  /** Such a text is no decimal number. */
  lemma HexIsNotDecimal(sign: string, big: bool, m: nat, upper: bool)
    requires sign == "" || sign == "+" || sign == "-"
    ensures var s := HexText(sign, big, m, upper); ParseI64(s) == None && ParseU64(s, 10) == None
  {
    HexBody(big, m, upper);
    var body, s := Prefix(big) + HexDigits(m, upper), HexText(sign, big, m, upper);
    NoDigit(body, 10, 1);
    if sign == "" {
      assert s == body;
    } else {
      assert s[1..] == body && s[2] == body[1];
      NoDigit(s, 10, 2);
    }
  }

  lemma SignedHexBranch(parser: FloatParser, s: string, body: string)
    requires s != "" && Trim(s) == s && ParseI64(s) == None && body == Unsigned(s) && HexPrefix(body)
    ensures |body| >= 2 && ParseSignedText(parser, s) == SignedHexNumber(s[0] == '-', Trim(body[2..]))
  {
  }

  lemma HexNumberIs(negative: bool, m: nat, upper: bool)
    ensures var v: int := if negative then -(m as int) else m;
            SignedHexNumber(negative, HexDigits(m, upper)) == if m > Max(U64) then Err(ParseError) else Narrow(I64, v)
  {
    ParseHexU64(m, upper);
  }

  lemma SignedHex(parser: FloatParser, sign: string, big: bool, m: nat, upper: bool)
    requires sign == "" || sign == "+" || sign == "-"
    ensures var v: int := if sign == "-" then -(m as int) else m;
            ParseSignedText(parser, HexText(sign, big, m, upper)) == if m > Max(U64) then Err(ParseError) else Narrow(I64, v)
  {
    var body, s := Prefix(big) + HexDigits(m, upper), HexText(sign, big, m, upper);
    assert s != "" && body == Unsigned(s) && (s[0] == '-' <==> sign == "-") by { HexBody(big, m, upper); }
    HexTextIsTrimmed(sign, big, m, upper);
    HexIsNotDecimal(sign, big, m, upper);
    HexBody(big, m, upper);
    SignedHexBranch(parser, s, body);
    HexNumberIs(sign == "-", m, upper);
  }

  lemma UnsignedHex(parser: FloatParser, sign: string, big: bool, m: nat, upper: bool)
    requires sign == "" || sign == "+" || sign == "-"
    ensures var s := HexText(sign, big, m, upper);
            ParseUnsignedText(parser, s) ==
            if sign != "" then ViaFloat(parser, U64, s) else if m > Max(U64) then Err(ParseError) else Ok(m)
  {
    HexBody(big, m, upper);
    HexTextIsTrimmed(sign, big, m, upper);
    HexIsNotDecimal(sign, big, m, upper);
    ParseHexU64(m, upper);
    var body, s := Prefix(big) + HexDigits(m, upper), HexText(sign, big, m, upper);
    if sign == "" { assert s == body; } else { assert s[0] == sign[0]; }
  }

  lemma TextCastIs(parser: FloatParser, k: IntKind, s: string)
    ensures CastInt(parser, k, Text(s)) ==
            AfterParsing(k, if Signed(k) then ParseSignedText(parser, s) else ParseUnsignedText(parser, s))
  {
  }

  lemma NarrowedTo(k: IntKind, v: int)
    ensures Fits(Wide(Signed(k)), v) ==> AfterParsing(k, Ok(v)) == if Fits(k, v) then Ok(v) else Err(CastError.OutOfRange)
    ensures !Fits(Wide(Signed(k)), v) ==> !Fits(k, v)
  {
  }

  /** Hexadecimal text, in either case and with either prefix, casts to its number if that fits and fails
      otherwise. A sign is read for signed kinds; for unsigned ones such a text is left to the float parser. */
  lemma HexCastIff(parser: FloatParser, k: IntKind, sign: string, big: bool, m: nat, upper: bool)
    requires sign == "" || sign == "+" || sign == "-"
    ensures var s := HexText(sign, big, m, upper);
            var v: int := if sign == "-" then -(m as int) else m;
            CastInt(parser, k, Text(s)) ==
            if !Signed(k) && sign != "" then AfterParsing(k, ViaFloat(parser, U64, s))
            else if m > Max(U64) then Err(ParseError)
            else if Fits(k, v) then Ok(v) else Err(CastError.OutOfRange)
  {
    var s := HexText(sign, big, m, upper);
    var v: int := if sign == "-" then -(m as int) else m;
    TextCastIs(parser, k, s);
    NarrowedTo(k, v);
    if Signed(k) { SignedHex(parser, sign, big, m, upper); } else { UnsignedHex(parser, sign, big, m, upper); }
  }

  // ---------------------------------------------------------------- a plus sign

  lemma PlusDigits(m: nat)
    ensures var s := "+" + Digits(m);
            && Trim(s) == s && s[1..] == Digits(m) && s[0] == '+' && |s| > 1 && ParseDigits(Digits(m), 10) == Some(m)
  {
    ParseDigitsOf(m);
    var d, s := Digits(m), "+" + Digits(m);
    assert d[|d| - 1] in d && s[|s| - 1] == d[|d| - 1];
    TrimKeeps(s);
  }

  /** A plus sign before decimal digits is read over, for every kind. */
  lemma PlusDecimalRoundTrip(parser: FloatParser, k: IntKind, m: nat)
    requires Fits(k, m)
    ensures CastInt(parser, k, Text("+" + Digits(m))) == Ok(m)
  {
    PlusDigits(m);
    TextCastIs(parser, k, "+" + Digits(m));
    NarrowedTo(k, m);
    WideIsWider(k, m);
  }

  // ---------------------------------------------------------------- rounding

  /** A float is rounded to the nearest integer, and a half away from zero. */
  lemma RoundIsNearest(r: real)
    ensures -0.5 <= Round(r) as real - r <= 0.5
    ensures Round(r) as real - r == -0.5 ==> r < 0.0
    ensures Round(r) as real - r == 0.5 ==> r > 0.0
  {
  }

  // ---------------------------------------------------------------- byte order

  lemma {:induction false} ToBEAt(w: nat, m: nat, i: nat)
    requires i < w
    ensures Pow256(w - 1 - i) > 0 && ToBE(w, m)[i] == (m / Pow256(w - 1 - i)) % 256
  {
    if i < w - 1 {
      ToBEAt(w - 1, m / 256, i);
      DivTwice(m, 256, Pow256(w - 2 - i));
    }
  }

  lemma DivTwice(m: nat, a: nat, b: nat)
    requires a > 0 && b > 0
    ensures a * b > 0 && (m / a) / b == m / (a * b)
  {
    DivParts(m, a);
    DivParts(m / a, b);
    DivTwiceFrom(m, a, b, m / a, m % a, (m / a) / b, (m / a) % b);
  }

  lemma DivParts(m: nat, a: nat)
    requires a > 0
    ensures m == a * (m / a) + m % a && 0 <= m % a < a && 0 <= m / a
  {
  }

  lemma DivTwiceFrom(m: nat, a: nat, b: nat, q: nat, r: nat, p: nat, t: nat)
    requires a > 0 && b > 0 && m == a * q + r && r < a && q == b * p + t && t < b
    ensures a * b > 0 && m / (a * b) == p
  {
    RestBelow(a, b, t, r);
    Regrouped(a, b, p, t);
    DivUnique(m, a * b, p, a * t + r);
  }

  lemma RestBelow(a: nat, b: nat, t: nat, r: nat)
    requires r < a && t < b
    ensures 0 <= a * t + r < a * b
  {
    assert a * t + a == a * (t + 1);
    assert a * (t + 1) <= a * b;
  }

  lemma Regrouped(a: nat, b: nat, p: nat, t: nat)
    ensures a * (b * p + t) == p * (a * b) + a * t
  {
    assert a * (b * p) == (a * b) * p;
  }

  /** The bytes of a value stand with the most significant first. */
  lemma BytesAreBigEndian(k: IntKind, n: int, i: nat)
    requires Fits(k, n) && i < Width(k)
    ensures var m := if n < 0 then n + Pow256(Width(k)) else n;
            Pow256(Width(k) - 1 - i) > 0 && ToBytes(Integer(k, n))[i] == (m / Pow256(Width(k) - 1 - i)) % 256
  {
    SpanIsPower(k);
    BitsAre(k, n);
    ToBEAt(Width(k), Bits(k, n), i);
  }

  /** Bytes that are too few for the kind are refused, and no others. */
  lemma ShortBytesFailIff(parser: FloatParser, k: IntKind, bs: seq<int>)
    ensures CastInt(parser, k, Binary(bs)) == Err(InvalidBinaryLength) <==> |bs| < Width(k)
  {
  }

  /** A timestamp and a boolean come back from their bytes as well. */
  lemma OtherBytesRoundTrip(parser: FloatParser, ms: int, b: bool, tail: seq<int>)
    requires Fits(I64, ms)
    ensures CastInt(parser, I64, Binary(ToBytes(Timestamp(ms)) + tail)) == Ok(ms)
    ensures CastInt(parser, U8, Binary(ToBytes(Boolean(b)) + tail)) == Ok(if b then 1 else 0)
  {
    DecodeEncode(I64, ms, tail);
    var bs := ToBytes(Boolean(b)) + tail;
    assert bs[..1] == [if b then 1 else 0];
    assert FromBE([]) == 0 && bs[..1][..0] == [];
    assert FromBE(bs[..1]) == if b then 1 else 0;
  }
}
