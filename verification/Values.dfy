/** Typed values of `ng-gateway-sdk/src/value.rs`: integer casts, big-endian bytes, decimal and
    hexadecimal text.  The eight integer impls are one function of the target kind; which arm each
    of them takes for which source is a table. */
module Values {
  import opened Collections
  import opened Doubles

  datatype IntKind = I8 | U8 | I16 | U16 | I32 | U32 | I64 | U64

  datatype F64 = Finite(r: real) | NonFinite

  datatype NGValue =
    | Boolean(b: bool)
    | Integer(kind: IntKind, n: int)
    | Float32(f: F64)
    | Float64(f: F64)
    | Text(s: string)
    | Binary(bytes: seq<int>)
    | Timestamp(ms: int)

  datatype DataType = TBoolean | TInt(kind: IntKind) | TFloat32 | TFloat64 | TText | TBinary | TTimestamp

  datatype CastError = NotFinite | OutOfRange | ParseError | InvalidBinaryLength

  datatype Result<+T> = Ok(value: T) | Err(error: CastError)

  function TypeOf(v: NGValue): DataType {
    match v
    case Boolean(_) => TBoolean
    case Integer(k, _) => TInt(k)
    case Float32(_) => TFloat32
    case Float64(_) => TFloat64
    case Text(_) => TText
    case Binary(_) => TBinary
    case Timestamp(_) => TTimestamp
  }

  // ---------------------------------------------------------------- ranges

  function Width(k: IntKind): nat {
    match k
    case I8 => 1 case U8 => 1
    case I16 => 2 case U16 => 2
    case I32 => 4 case U32 => 4
    case I64 => 8 case U64 => 8
  }

  predicate Signed(k: IntKind) {
    k.I8? || k.I16? || k.I32? || k.I64?
  }

  function Pow256(w: nat): nat {
    if w == 0 then 1 else 256 * Pow256(w - 1)
  }

  /** The number of values of a kind. */
  function Span(k: IntKind): nat {
    match Width(k)
    case 1 => 0x100
    case 2 => 0x1_0000
    case 4 => 0x1_0000_0000
    case _ => 0x1_0000_0000_0000_0000
  }

  lemma SpanIsPower(k: IntKind)
    ensures Span(k) == Pow256(Width(k))
  {
    assert Pow256(2) == 0x1_0000;
    assert Pow256(4) == 0x1_0000_0000;
    assert Pow256(6) == 0x1_0000_0000_0000;
  }

  function Min(k: IntKind): int {
    if Signed(k) then -(Span(k) / 2) else 0
  }

  function Max(k: IntKind): int {
    if Signed(k) then Span(k) / 2 - 1 else Span(k) - 1
  }

  predicate Fits(k: IntKind, n: int) {
    Min(k) <= n <= Max(k)
  }

  ghost predicate WellTyped(v: NGValue) {
    match v
    case Integer(k, n) => Fits(k, n)
    case Timestamp(ms) => Fits(I64, ms)
    case Binary(bytes) => IsBytes(bytes)
    case _ => true
  }

  // ---------------------------------------------------------------- big-endian bytes

  ghost predicate IsBytes(bs: seq<int>) {
    forall i | 0 <= i < |bs| :: 0 <= bs[i] < 256
  }

  function ToBE(w: nat, m: nat): (bs: seq<int>)
    ensures |bs| == w && IsBytes(bs)
  {
    if w == 0 then [] else ToBE(w - 1, m / 256) + [m % 256]
  }

  function FromBE(bs: seq<int>): int {
    if bs == [] then 0 else 256 * FromBE(bs[..|bs| - 1]) + bs[|bs| - 1]
  }

  /** Two's complement of a signed kind; the identity on unsigned ones. */
  function Encode(k: IntKind, n: int): seq<int>
    requires Fits(k, n)
  {
    BitsAre(k, n);
    ToBE(Width(k), Bits(k, n))
  }

  function Decode(k: IntKind, bs: seq<int>): Result<int> {
    if |bs| < Width(k) then Err(InvalidBinaryLength) else
      Ok(Complemented(k, FromBE(bs[..Width(k)])))
  }

  /** The number of a kind with the given bits. */
  function Complemented(k: IntKind, m: int): int {
    if Signed(k) && m >= Span(k) / 2 then m - Span(k) else m
  }

  function Bits(k: IntKind, n: int): int { if n < 0 then n + Span(k) else n }

  lemma ComplementedIs(k: IntKind, m: int)
    requires 0 <= m < Span(k)
    ensures Fits(k, Complemented(k, m)) && Bits(k, Complemented(k, m)) == m
  {
  }

  lemma BitsAre(k: IntKind, n: int)
    requires Fits(k, n)
    ensures 0 <= Bits(k, n) < Span(k) && Complemented(k, Bits(k, n)) == n
  {
  }

  lemma {:induction false} FromToBE(w: nat, m: nat)
    requires m < Pow256(w)
    ensures FromBE(ToBE(w, m)) == m
  {
    if w > 0 {
      FromToBE(w - 1, m / 256);
      assert ToBE(w, m)[..w - 1] == ToBE(w - 1, m / 256);
    }
  }

  lemma {:induction false} FromBERange(bs: seq<int>)
    requires IsBytes(bs)
    ensures 0 <= FromBE(bs) < Pow256(|bs|)
  {
    if bs != [] { FromBERange(bs[..|bs| - 1]); }
  }

  lemma {:induction false} ToFromBE(bs: seq<int>)
    requires IsBytes(bs)
    ensures 0 <= FromBE(bs) && ToBE(|bs|, FromBE(bs)) == bs
  {
    FromBERange(bs);
    if bs != [] {
      var init, last := bs[..|bs| - 1], bs[|bs| - 1];
      FromBERange(init);
      ToFromBE(init);
      assert FromBE(bs) / 256 == FromBE(init) && FromBE(bs) % 256 == last;
      assert bs == init + [last];
    }
  }

  /** Bytes decode to the number they encode, whatever follows them. */
  lemma DecodeEncode(k: IntKind, n: int, tail: seq<int>)
    requires Fits(k, n)
    ensures Decode(k, Encode(k, n) + tail) == Ok(n)
  {
    BitsAre(k, n);
    SpanIsPower(k);
    FromToBE(Width(k), Bits(k, n));
    assert (Encode(k, n) + tail)[..Width(k)] == Encode(k, n);
  }

  lemma DecodeInRange(k: IntKind, bs: seq<int>)
    requires IsBytes(bs) && |bs| >= Width(k)
    ensures Fits(k, Decode(k, bs).value)
  {
    SpanIsPower(k);
    FromBERange(bs[..Width(k)]);
    ComplementedIs(k, FromBE(bs[..Width(k)]));
  }

  /** Every byte string of the right width is the encoding of exactly the number it decodes to. */
  lemma EncodeDecode(k: IntKind, bs: seq<int>)
    requires IsBytes(bs) && |bs| == Width(k)
    ensures Decode(k, bs).Ok? && Fits(k, Decode(k, bs).value) && Encode(k, Decode(k, bs).value) == bs
  {
    assert bs[..Width(k)] == bs;
    ToFromBE(bs);
    FromBERange(bs);
    SpanIsPower(k);
    ComplementedIs(k, FromBE(bs));
  }

  // ---------------------------------------------------------------- text

  predicate IsSpace(c: char) {
    '\t' <= c <= '\r' || c == ' ' || c == '\U{85}' || c == '\U{A0}' || c == '\U{1680}' ||
    '\U{2000}' <= c <= '\U{200A}' || c == '\U{2028}' || c == '\U{2029}' || c == '\U{202F}' ||
    c == '\U{205F}' || c == '\U{3000}'
  }

  function Trim(s: string): string
    decreases |s|
  {
    if s != "" && IsSpace(s[0]) then Trim(s[1..])
    else if s != "" && IsSpace(s[|s| - 1]) then Trim(s[..|s| - 1])
    else s
  }

  function DigitValue(c: char): Option<nat> {
    if '0' <= c <= '9' then Some((c - '0') as nat)
    else if 'a' <= c <= 'f' then Some((c - 'a') as nat + 10)
    else if 'A' <= c <= 'F' then Some((c - 'A') as nat + 10)
    else None
  }

  /** The number written by one or more digits of the base. */
  function ParseDigits(s: string, base: nat): Option<nat> {
    if s == "" then None else
      var d := DigitValue(s[|s| - 1]);
      if d.None? || d.value >= base then None
      else if |s| == 1 then d
      else
        var rest := ParseDigits(s[..|s| - 1], base);
        if rest.None? then None else Some(base * rest.value + d.value)
  }

  function WithinU64(n: Option<nat>): Option<nat> {
    if n.Some? && n.value > Max(U64) then None else n
  }

  /** `u64::from_str_radix`: one leading plus sign is allowed. */
  function ParseU64(s: string, base: nat): Option<nat> {
    WithinU64(ParseDigits(if |s| > 1 && s[0] == '+' then s[1..] else s, base))
  }

  /** `i64::from_str`: one leading sign is allowed. */
  function ParseI64(s: string): Option<int> {
    var n := ParseDigits(if |s| > 1 && (s[0] == '+' || s[0] == '-') then s[1..] else s, 10);
    if n.None? then None else
      var v: int := if s[0] == '-' then -(n.value as int) else n.value as int;
      if Fits(I64, v) then Some(v) else None
  }

  predicate HexPrefix(s: string) {
    "0x" <= s || "0X" <= s
  }

  /** The library's reading of float text. */
  type FloatParser = string -> Option<F64>

  /** Round half away from zero. */
  function Round(r: real): int {
    if r >= 0.0 then (r + 0.5).Floor else -((-r + 0.5).Floor)
  }

  /** The conversion of a whole double to an integer kind: out of range it saturates. */
  function Saturate(k: IntKind, r: int): int {
    if r < Min(k) then Min(k) else if r > Max(k) then Max(k) else r
  }

  /** The range test of a float cast compares with the bounds converted to doubles. */
  function FloatToInt(k: IntKind, f: F64): Result<int> {
    if f.NonFinite? then Err(NotFinite) else
      var r := Round(f.r);
      if AsF64(Min(k)) <= r <= AsF64(Max(k)) then Ok(Saturate(k, r)) else Err(OutOfRange)
  }

  function ParseFloat(parser: FloatParser, st: string): Result<F64> {
    match parser(st)
    case None => Err(ParseError)
    case Some(NonFinite) => Err(NotFinite)
    case Some(f) => Ok(f)
  }

  function ViaFloat(parser: FloatParser, k: IntKind, st: string): Result<int> {
    match ParseFloat(parser, st)
    case Err(e) => Err(e)
    case Ok(f) => FloatToInt(k, f)
  }

  /** The part of a text after its sign. */
  function Unsigned(st: string): string
    requires st != ""
  {
    if st[0] == '+' || st[0] == '-' then st[1..] else st
  }

  function SignedHexNumber(negative: bool, digits: string): Result<int> {
    match ParseU64(digits, 16)
    case None => Err(ParseError)
    case Some(u) => Narrow(I64, if negative then -(u as int) else u as int)
  }

  function ParseSignedText(parser: FloatParser, s: string): Result<int> {
    var st := Trim(s);
    if st == "" then Err(ParseError)
    else if ParseI64(st).Some? then Ok(ParseI64(st).value)
    else if HexPrefix(Unsigned(st)) then SignedHexNumber(st[0] == '-', Trim(Unsigned(st)[2..]))
    else ViaFloat(parser, I64, st)
  }

  function ParseUnsignedText(parser: FloatParser, s: string): Result<int> {
    var st := Trim(s);
    if st == "" then Err(ParseError)
    else if ParseU64(st, 10).Some? then Ok(ParseU64(st, 10).value)
    else if HexPrefix(st) then
      var u := ParseU64(Trim(st[2..]), 16);
      if u.None? then Err(ParseError) else Ok(u.value)
    else ViaFloat(parser, U64, st)
  }

  function Digits(n: nat): (s: string)
    ensures s != ""
  {
    if n < 10 then [Digit(n)] else Digits(n / 10) + [Digit(n % 10)]
  }

  function Digit(d: nat): (c: char)
    requires d < 10
    ensures '0' <= c <= '9'
  {
    '0' + d as char
  }

  function DecimalText(n: int): string {
    if n < 0 then "-" + Digits(-n) else Digits(n)
  }

  // ---------------------------------------------------------------- casts

  /** How an arm converts: unchanged, with `as`, or with `try_from`. */
  datatype Arm = Same | As | TryFrom

  function IntArm(target: IntKind, source: IntKind): Arm {
    match target
    case I8 => if source.I8? then Same else TryFrom
    case U8 => if source.U8? then Same else TryFrom
    case U16 => if source.U16? then Same else if source.U8? then As else TryFrom
    case I16 => if source.I16? then Same else if source.I8? || source.U8? then As else TryFrom
    case I32 =>
      if source.I32? then Same
      else if source.I16? || source.I8? || source.U8? || source.U16? then As else TryFrom
    case U32 => if source.U32? then Same else if source.U16? || source.U8? then As else TryFrom
    case I64 => if source.I64? then Same else if source.U64? then TryFrom else As
    case U64 =>
      if source.U64? then Same else if source.U32? || source.U16? || source.U8? then As else TryFrom
  }

  function TimestampArm(target: IntKind): Arm {
    if target.I64? then Same else TryFrom
  }

  /** After parsing to 64 bits. */
  function TextArm(target: IntKind): Arm {
    if target.I64? || target.U64? then Same else TryFrom
  }

  /** `as` between integer kinds: two's complement, modulo the span of the target. */
  function Wrap(k: IntKind, n: int): int {
    Complemented(k, n % Span(k))
  }

  function Narrow(k: IntKind, n: int): Result<int> {
    if Fits(k, n) then Ok(n) else Err(OutOfRange)
  }

  function Convert(arm: Arm, k: IntKind, n: int): Result<int> {
    match arm
    case Same => Ok(n)
    case As => Ok(Wrap(k, n))
    case TryFrom => Narrow(k, n)
  }

  function CastInt(parser: FloatParser, k: IntKind, v: NGValue): Result<int> {
    match v
    case Boolean(b) => Ok(if b then 1 else 0)
    case Integer(source, n) => Convert(IntArm(k, source), k, n)
    case Float32(f) => FloatToInt(k, f)
    case Float64(f) => FloatToInt(k, f)
    case Timestamp(ms) => Convert(TimestampArm(k), k, ms)
    case Text(s) => AfterParsing(k, ParseText(parser, Signed(k), s))
    case Binary(bs) => Decode(k, bs)
  }

  function ParseText(parser: FloatParser, signed: bool, s: string): Result<int> {
    if signed then ParseSignedText(parser, s) else ParseUnsignedText(parser, s)
  }

  function AfterParsing(k: IntKind, parsed: Result<int>): Result<int> {
    match parsed
    case Ok(n) => Convert(TextArm(k), k, n)
    case Err(e) => Err(e)
  }

  function ToBytes(v: NGValue): seq<int>
    requires WellTyped(v) && !v.Text? && !v.Float32? && !v.Float64?
  {
    match v
    case Binary(bs) => bs
    case Boolean(b) => [if b then 1 else 0]
    case Integer(k, n) => Encode(k, n)
    case Timestamp(ms) => Encode(I64, ms)
  }

  // ---------------------------------------------------------------- laws

  /** The number an integer-like value stands for. */
  function Denotes(v: NGValue): Option<int> {
    match v
    case Boolean(b) => Some(if b then 1 else 0)
    case Integer(_, n) => Some(n)
    case Timestamp(ms) => Some(ms)
    case _ => None
  }

  lemma WrapIsExactIff(k: IntKind, n: int)
    ensures Fits(k, Wrap(k, n))
    ensures Wrap(k, n) == n <==> Fits(k, n)
  {
    RestRange(n, Span(k));
    ComplementedIs(k, n % Span(k));
    if Fits(k, n) {
      BitsAre(k, n);
      RestIs(n, Span(k));
    }
  }

  lemma RestRange(n: int, s: int)
    requires s > 0
    ensures 0 <= n % s < s
  {
  }

  lemma RestIs(n: int, s: int)
    requires -s <= n < s
    ensures n % s == if n < 0 then n + s else n
  {
    if n < 0 { DivUnique(n, s, -1, n + s); } else { DivUnique(n, s, 0, n); }
  }

  /** The arms without a range test are exactly those whose source range lies in the target range. */
  lemma UncheckedArmsIff(target: IntKind, source: IntKind)
    ensures !IntArm(target, source).TryFrom? <==> Min(target) <= Min(source) && Max(source) <= Max(target)
    ensures IntArm(target, source).Same? <==> target == source
  {
  }

  /** A cast of a value that stands for an integer succeeds exactly when the integer fits the
      target, and then gives that integer. */
  lemma CastIffFits(parser: FloatParser, k: IntKind, v: NGValue)
    requires WellTyped(v) && Denotes(v).Some?
    ensures CastInt(parser, k, v).Ok? <==> Fits(k, Denotes(v).value)
    ensures CastInt(parser, k, v).Ok? ==> CastInt(parser, k, v).value == Denotes(v).value
    ensures CastInt(parser, k, v).Err? ==> CastInt(parser, k, v) == Err(OutOfRange)
  {
    if v.Integer? {
      UncheckedArmsIff(k, v.kind);
      WrapIsExactIff(k, v.n);
    }
  }

  /** The 64-bit kind text is parsed to. */
  function Wide(signed: bool): IntKind { if signed then I64 else U64 }

  lemma ParsedTextFits(parser: FloatParser, signed: bool, s: string)
    requires ParseText(parser, signed, s).Ok?
    ensures Fits(Wide(signed), ParseText(parser, signed, s).value)
  {
  }

  lemma AfterParsingFits(k: IntKind, n: int)
    requires Fits(Wide(Signed(k)), n) && AfterParsing(k, Ok(n)).Ok?
    ensures Fits(k, AfterParsing(k, Ok(n)).value)
  {
  }

  /** Every successful cast, from any value, lands in the range of its target. */
  lemma CastInRange(parser: FloatParser, k: IntKind, v: NGValue)
    requires WellTyped(v) && CastInt(parser, k, v).Ok?
    ensures Fits(k, CastInt(parser, k, v).value)
  {
    if v.Integer? || v.Timestamp? {
      CastIffFits(parser, k, v);
    } else if v.Binary? {
      DecodeInRange(k, v.bytes);
    } else if v.Text? {
      TextCastFits(parser, k, v.s);
    } else if !v.Boolean? {
      FloatCastFits(k, v.f);
    }
  }

  lemma TextCastFits(parser: FloatParser, k: IntKind, s: string)
    requires AfterParsing(k, ParseText(parser, Signed(k), s)).Ok?
    ensures Fits(k, AfterParsing(k, ParseText(parser, Signed(k), s)).value)
  {
    ParsedTextFits(parser, Signed(k), s);
    AfterParsingFits(k, ParseText(parser, Signed(k), s).value);
  }

  lemma FloatCastFits(k: IntKind, f: F64)
    requires FloatToInt(k, f).Ok?
    ensures Fits(k, FloatToInt(k, f).value)
  {
  }

  // ---------------------------------------------------------------- floats

  /** Converted to doubles, the lower bounds are exact and of the upper ones only those of the
      64-bit kinds are not: they round up. */
  lemma BoundsAsF64(k: IntKind)
    ensures AsF64(Min(k)) == Min(k)
    ensures AsF64(Max(k)) == if Width(k) == 8 then Max(k) + 1 else Max(k)
  {
    if Width(k) == 8 {
      LargestRoundUp();
      SmallestIsExact();
      ExactBelow53Bits(0);
    } else {
      ExactBelow53Bits(Min(k));
      ExactBelow53Bits(Max(k));
    }
  }

  /** A float cast is exact rounding, except that the 64-bit kinds also admit the power of two
      just above their range and then return their maximum. */
  lemma FloatCastExactIff(k: IntKind, r: real)
    ensures FloatToInt(k, Finite(r)).Ok? <==> Fits(k, Round(r)) || (Width(k) == 8 && Round(r) == Max(k) + 1)
    ensures FloatToInt(k, Finite(r)).Ok? ==> FloatToInt(k, Finite(r)).value == if Fits(k, Round(r)) then Round(r) else Max(k)
    ensures FloatToInt(k, Finite(r)).Err? ==> FloatToInt(k, Finite(r)) == Err(OutOfRange)
    ensures FloatToInt(k, NonFinite) == Err(NotFinite)
  {
    BoundsAsF64(k);
  }

  /** Encoding a value to bytes, with anything appended, and reading the bytes back as its own
      kind returns the value. */
  lemma BytesRoundTrip(parser: FloatParser, k: IntKind, n: int, tail: seq<int>)
    requires Fits(k, n)
    ensures CastInt(parser, k, Binary(ToBytes(Integer(k, n)) + tail)) == Ok(n)
  {
    DecodeEncode(k, n, tail);
  }

  lemma {:induction false} ParseDigitsOf(n: nat)
    ensures ParseDigits(Digits(n), 10) == Some(n)
    ensures forall c | c in Digits(n) :: '0' <= c <= '9'
  {
    if n >= 10 {
      ParseDigitsOf(n / 10);
      assert Digits(n)[..|Digits(n)| - 1] == Digits(n / 10);
    }
  }

  lemma TrimKeeps(s: string)
    requires s != "" && !IsSpace(s[0]) && !IsSpace(s[|s| - 1])
    ensures Trim(s) == s
  {
  }

  lemma DecimalTextIsTrimmed(n: int)
    ensures Trim(DecimalText(n)) == DecimalText(n) && DecimalText(n) != ""
  {
    var d := Digits(if n < 0 then -n else n);
    ParseDigitsOf(if n < 0 then -n else n);
    assert d[0] in d && d[|d| - 1] in d;
    var s := DecimalText(n);
    assert s[|s| - 1] == d[|d| - 1];
    TrimKeeps(s);
  }

  lemma ParseDecimalText(n: int)
    ensures ParseI64(DecimalText(n)) == if Fits(I64, n) then Some(n) else None
    ensures n >= 0 ==> ParseU64(DecimalText(n), 10) == if Fits(U64, n) then Some(n) else None
    ensures n < 0 ==> ParseU64(DecimalText(n), 10) == None
  {
    var d := Digits(if n < 0 then -n else n);
    ParseDigitsOf(if n < 0 then -n else n);
    assert d[0] in d;
    if n < 0 {
      assert DecimalText(n)[1..] == d;
      MinusIsNoDigit(d);
    }
  }

  lemma {:induction false} MinusIsNoDigit(d: string)
    ensures ParseDigits("-" + d, 10) == None
  {
    if d != "" {
      var s := "-" + d;
      assert s[..|s| - 1] == "-" + d[..|d| - 1];
      MinusIsNoDigit(d[..|d| - 1]);
    }
  }

  lemma SignedTextOfDecimal(parser: FloatParser, n: int)
    ensures ParseSignedText(parser, DecimalText(n)) ==
      if Fits(I64, n) then Ok(n) else ViaFloat(parser, I64, DecimalText(n))
  {
    DecimalTextIsTrimmed(n);
    ParseDecimalText(n);
    NoHexPrefix(n);
  }

  lemma UnsignedTextOfDecimal(parser: FloatParser, n: int)
    ensures ParseUnsignedText(parser, DecimalText(n)) ==
      if Fits(U64, n) then Ok(n) else ViaFloat(parser, U64, DecimalText(n))
  {
    DecimalTextIsTrimmed(n);
    ParseDecimalText(n);
    NoHexPrefix(n);
  }

  lemma TextOfDecimal(parser: FloatParser, signed: bool, n: int)
    ensures ParseText(parser, signed, DecimalText(n)) ==
      if Fits(Wide(signed), n) then Ok(n) else ViaFloat(parser, Wide(signed), DecimalText(n))
  {
    if signed { SignedTextOfDecimal(parser, n); } else { UnsignedTextOfDecimal(parser, n); }
  }

  /** Printing an integer in decimal and casting the text back is the identity. */
  lemma DecimalRoundTrip(parser: FloatParser, k: IntKind, n: int)
    requires Fits(k, n)
    ensures CastInt(parser, k, Text(DecimalText(n))) == Ok(n)
  {
    TextOfDecimal(parser, Signed(k), n);
    WideIsWider(k, n);
  }

  lemma WideIsWider(k: IntKind, n: int)
    requires Fits(k, n)
    ensures Fits(Wide(Signed(k)), n)
  {
  }

  /** The integers outside a 64-bit range whose double is still accepted, as the nearest bound. */
  predicate Saturates(k: IntKind, n: int) {
    match k
    case I64 => Max(k) < n <= Max(k) + 1025 || Min(k) - 1024 <= n < Min(k)
    case U64 => Max(k) < n <= Max(k) + 2049
    case _ => false
  }

  /** An integer outside the 64-bit range: what the detour through a double makes of it. */
  lemma OutsideAsFloat(k: IntKind, n: int)
    requires Width(k) == 8 && !Fits(k, n)
    ensures FloatToInt(k, Finite(AsF64(n) as real)) ==
      if Saturates(k, n) then Ok(if n < 0 then Min(k) else Max(k)) else Err(OutOfRange)
  {
    BoundsAsF64(k);
    RoundWhole(AsF64(n));
    if k.I64? {
      RoundsTo63(if n < 0 then -n else n);
    } else if n > 0 {
      RoundsTo64(n);
    } else {
      NegativeStaysNegative(-n);
    }
  }

  lemma RoundWhole(n: int)
    ensures Round(n as real) == n
  {
  }

  lemma NegativeStaysNegative(m: nat)
    requires m > 0
    ensures Rounded(m) > 0
  {
    if m < SIGNIFICAND { ExactBelow53Bits(m); } else { LargeStaysLarge(m); }
  }

  /** What a float parser makes of decimal text: the double of the number, or infinity beyond the
      largest one. */
  predicate ParsesDecimal(parser: FloatParser, n: int) {
    parser(DecimalText(n)) == Some(NonFinite) || parser(DecimalText(n)) == Some(Finite(AsF64(n) as real))
  }

  /** Decimal text casts like the number itself, for every number whose double is finite, except for a
      64-bit kind and the numbers just outside its range: that text is accepted as the bound. Beyond the
      doubles the text is rejected as not finite. */
  lemma TextCastAgreesIff(parser: FloatParser, k: IntKind, n: int)
    requires ParsesDecimal(parser, n)
    ensures if Fits(Wide(Signed(k)), n) || parser(DecimalText(n)) != Some(NonFinite)
            then CastInt(parser, k, Text(DecimalText(n))) == Narrow(k, n) <==> !Saturates(k, n)
            else CastInt(parser, k, Text(DecimalText(n))) == Err(NotFinite)
  {
    var wide := Wide(Signed(k));
    TextOfDecimal(parser, Signed(k), n);
    if Fits(wide, n) {
      AgreesInside(k, n);
    } else if parser(DecimalText(n)) != Some(NonFinite) {
      OutsideAsFloat(wide, n);
      AgreesOutside(k, n);
    }
  }

  lemma AgreesInside(k: IntKind, n: int)
    requires Fits(Wide(Signed(k)), n)
    ensures AfterParsing(k, Ok(n)) == Narrow(k, n) && !Saturates(k, n)
  {
  }

  lemma AgreesOutside(k: IntKind, n: int)
    requires !Fits(Wide(Signed(k)), n)
    ensures var wide := Wide(Signed(k));
            var parsed := if Saturates(wide, n) then Ok(if n < 0 then Min(wide) else Max(wide)) else Err(OutOfRange);
            AfterParsing(k, parsed) == Narrow(k, n) <==> !Saturates(k, n)
  {
  }

  lemma HexSecondChar(s: string)
    ensures HexPrefix(s) ==> |s| > 1 && (s[1] == 'x' || s[1] == 'X')
  {
  }

  lemma NoHexPrefix(n: int)
    ensures !HexPrefix(DecimalText(n))
    ensures DecimalText(n)[0] == '-' ==> !HexPrefix(DecimalText(n)[1..])
    ensures DecimalText(n)[0] != '+'
  {
    var m := if n < 0 then -n else n;
    ParseDigitsOf(m);
    var d := Digits(m);
    assert d[0] in d && (|d| > 1 ==> d[1] in d);
    HexSecondChar(d);
    HexSecondChar(DecimalText(n));
    assert n < 0 ==> DecimalText(n)[1..] == d && DecimalText(n)[1] == d[0];
  }
}
