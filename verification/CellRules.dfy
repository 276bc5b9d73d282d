/** One column of an imported row (`FlattenColumn::validate`): whether it applies, whether it is required,
    what its cell is normalised to, and what it reports. */
module CellRules {
  import opened Collections
  import opened Doubles
  import opened PathStore

  // ---------------------------------------------------------------- data

  datatype Result<+T> = Ok(value: T) | Err(code: Code)

  datatype Code = Required | TypeMismatch | Range | Length | Pattern | DiscriminatorMissing

  datatype EnumItem = EnumItem(key: Json, text: string)

  datatype UiType = TString | TInteger | TFloat | TBoolean | TEnum(items: seq<EnumItem>) | TAny

  datatype Rules = Rules(required: Option<bool>, min: Option<real>, max: Option<real>,
                         minLength: Option<nat>, maxLength: Option<nat>, pattern: Option<string>)

  datatype Effect = Require | Optional | Other

  /** A condition on another field; `test` is the operator applied to its operand. */
  datatype When = When(target: string, test: Option<Json> -> bool, effect: Effect)

  datatype Gate = Gate(discriminator: string, caseValue: Json)

  datatype Column = Column(key: string, title: string, dataType: UiType, rules: Option<Rules>,
                           conditions: seq<When>, gate: Option<Gate>, localized: seq<EnumItem>)

  datatype FieldError = FieldError(row: nat, field: string, code: Code)

  datatype ValidRow = ValidRow(index: nat, values: Row)

  datatype Template = Template(columns: seq<Column>, discriminators: seq<string>)

  datatype F64 = Finite(r: real) | PosInf | NegInf | NaN

  /** Library routines whose text conventions are not modelled. */
  datatype Library = Library(trim: string -> string, parseInt: string -> Option<int>,
                             parseFloat: string -> Option<F64>, numberText: Number -> string,
                             matches: (string, string) -> Option<bool>)

  // ---------------------------------------------------------------- readings of a value

  predicate FitsI64(i: int) {
    -0x8000_0000_0000_0000 <= i < 0x8000_0000_0000_0000
  }

  function ToF64(lib: Library, v: Json): Option<F64> {
    match v
    case Num(Int(i)) => Some(Finite(AsF64(i) as real))
    case Num(Float(r)) => Some(Finite(r))
    case Str(s) => lib.parseFloat(s)
    case Bool(b) => Some(Finite(if b then 1.0 else 0.0))
    case _ => None
  }

  function ToText(lib: Library, v: Json): Option<string> {
    match v
    case Str(s) => Some(s)
    case Num(n) => Some(lib.numberText(n))
    case Bool(b) => Some(if b then "true" else "false")
    case _ => None
  }

  predicate Below(f: F64, bound: real) {
    f.NegInf? || (f.Finite? && f.r < bound)
  }

  predicate Above(f: F64, bound: real) {
    f.PosInf? || (f.Finite? && f.r > bound)
  }

  function LowerChar(c: char): char {
    if 'A' <= c <= 'Z' then c + 32 as char else c
  }

  function Lower(s: string): string {
    if s == "" then "" else [LowerChar(s[0])] + Lower(s[1..])
  }

  /** A float becomes a JSON number only when it is finite. */
  function FromF64(f: F64): Json {
    if f.Finite? then Num(Float(f.r)) else Null
  }

  predicate LooselyEqual(lib: Library, a: Json, b: Json) {
    if a.Num? && b.Num? then lib.numberText(a.n) == lib.numberText(b.n) else a == b
  }

  // ---------------------------------------------------------------- one cell

  function Path(col: Column): (p: seq<string>)
    ensures p != []
  {
    Split(col.key)
  }

  predicate ResolveFrom(row: Row, conditions: seq<When>, required: bool)
    decreases |conditions|
  {
    if conditions == [] then required else
      var w := conditions[0];
      var next :=
        if !w.test(Get(row, Split(w.target))) then required
        else match w.effect
          case Require => true
          case Optional => false
          case Other => required;
      ResolveFrom(row, conditions[1..], next)
  }

  predicate IsRequired(col: Column, row: Row) {
    ResolveFrom(row, col.conditions,
      col.rules.Some? && col.rules.value.required.Some? && col.rules.value.required.value)
  }

  predicate Applicable(lib: Library, col: Column, row: Row) {
    match col.gate
    case None => true
    case Some(g) =>
      match Get(row, Split(g.discriminator))
      case Some(v) => LooselyEqual(lib, v, g.caseValue)
      case None => false
  }

  /** The cell with surrounding blanks removed; a blank cell is a missing one. */
  function Trimmed(lib: Library, raw: Option<Json>): Option<Json> {
    match raw
    case Some(Str(s)) => if lib.trim(s) == "" then None else Some(Str(lib.trim(s)))
    case _ => raw
  }

  function FindLabel(items: seq<EnumItem>, lowered: string): (r: Option<EnumItem>)
    ensures r.Some? ==> r.value in items
  {
    if items == [] then None
    else if Lower(items[0].text) == lowered then Some(items[0])
    else FindLabel(items[1..], lowered)
  }

  function FindKey(lib: Library, items: seq<EnumItem>, lowered: string): (r: Option<EnumItem>)
    ensures r.Some? ==> r.value in items
  {
    if items == [] then None
    else
      var text := ToText(lib, items[0].key);
      if text.Some? && Lower(text.value) == lowered then Some(items[0])
      else FindKey(lib, items[1..], lowered)
  }

  function NormalizeEnum(lib: Library, col: Column, items: seq<EnumItem>, v: Json): Result<Json> {
    if exists it :: it in items && it.key == v then Ok(v)
    else if !v.Str? then Err(TypeMismatch)
    else
      var byLabel := FindLabel(col.localized, Lower(v.s));
      if byLabel.Some? then Ok(byLabel.value.key)
      else
        var byKey := FindKey(lib, items, Lower(v.s));
        if byKey.Some? then Ok(byKey.value.key) else Err(TypeMismatch)
  }

  function NormalizeBool(v: Json): Result<Json> {
    match v
    case Bool(_) => Ok(v)
    case Str(s) =>
      var l := Lower(s);
      if l in ["true", "1", "yes", "on", "y", "t", "\U{662F}"] then Ok(Bool(true))
      else if l in ["false", "0", "no", "off", "n", "f", "\U{5426}"] then Ok(Bool(false))
      else Err(TypeMismatch)
    case _ => Err(TypeMismatch)
  }

  function Normalize(lib: Library, col: Column, v: Json): Result<Json> {
    match col.dataType
    case TString =>
      var t := ToText(lib, v);
      if t.Some? then Ok(Str(t.value)) else Err(TypeMismatch)
    case TInteger =>
      (match v
       case Num(Int(i)) => if FitsI64(i) then Ok(v) else Err(TypeMismatch)
       case Str(s) =>
         var n := lib.parseInt(s);
         if n.Some? then Ok(Num(Int(n.value))) else Err(TypeMismatch)
       case _ => Err(TypeMismatch))
    case TFloat =>
      (match v
       case Num(_) => Ok(v)
       case Str(s) =>
         var f := lib.parseFloat(s);
         if f.Some? then Ok(FromF64(f.value)) else Err(TypeMismatch)
       case _ => Err(TypeMismatch))
    case TBoolean => NormalizeBool(v)
    case TEnum(items) => NormalizeEnum(lib, col, items, v)
    case TAny => Ok(v)
  }

  function CheckNumber(lib: Library, rules: Rules, v: Json): Option<Code> {
    var f := ToF64(lib, v);
    if f.None? then None
    else if rules.min.Some? && Below(f.value, rules.min.value) then Some(Range)
    else if rules.max.Some? && Above(f.value, rules.max.value) then Some(Range)
    else None
  }

  function CheckLength(lib: Library, rules: Rules, v: Json): Option<Code> {
    var s := ToText(lib, v);
    if s.None? then None
    else if rules.minLength.Some? && |s.value| < rules.minLength.value then Some(Length)
    else if rules.maxLength.Some? && |s.value| > rules.maxLength.value then Some(Length)
    else None
  }

  function CheckPattern(lib: Library, rules: Rules, v: Json): Option<Code> {
    var s := ToText(lib, v);
    if s.Some? && rules.pattern.Some? && lib.matches(rules.pattern.value, s.value) == Some(false) then Some(Pattern)
    else None
  }

  function OrElse(a: Option<Code>, b: Option<Code>): Option<Code> {
    if a.Some? then a else b
  }

  function CheckRules(lib: Library, col: Column, v: Json): Option<Code> {
    if col.rules.None? then None else
      var rules := col.rules.value;
      match col.dataType
      case TInteger => OrElse(CheckNumber(lib, rules, v), CheckPattern(lib, rules, v))
      case TFloat => OrElse(CheckNumber(lib, rules, v), CheckPattern(lib, rules, v))
      case TString => OrElse(CheckLength(lib, rules, v), CheckPattern(lib, rules, v))
      case TEnum(_) => OrElse(CheckLength(lib, rules, v), CheckPattern(lib, rules, v))
      case TBoolean => CheckPattern(lib, rules, v)
      case TAny =>
        OrElse(CheckPattern(lib, rules, v), OrElse(CheckNumber(lib, rules, v), CheckLength(lib, rules, v)))
  }

  function Validate(lib: Library, col: Column, row: Row): Result<Option<Json>> {
    if !Applicable(lib, col, row) then Ok(None) else
      match Trimmed(lib, Get(row, Path(col)))
      case None => if IsRequired(col, row) then Err(Required) else Ok(None)
      case Some(raw) =>
        match Normalize(lib, col, raw)
        case Err(c) => Err(c)
        case Ok(v) =>
          match CheckRules(lib, col, v)
          case Some(c) => Err(c)
          case None => Ok(Some(v))
  }

  // ---------------------------------------------------------------- what a good cell is

  ghost predicate IsKeyOf(col: Column, v: Json) {
    col.dataType.TEnum? &&
      ((exists it :: it in col.dataType.items && it.key == v) || (exists it :: it in col.localized && it.key == v))
  }

  ghost predicate HasType(col: Column, v: Json) {
    match col.dataType
    case TString => v.Str?
    case TInteger => v.Num? && v.n.Int? && FitsI64(v.n.i)
    case TFloat => v.Num?
    case TBoolean => v.Bool?
    case TEnum(_) => IsKeyOf(col, v)
    case TAny => true
  }

  /** The numbers a value can be compared as. */
  ghost predicate Reads(lib: Library, v: Json, f: F64) {
    || (v.Num? && v.n.Int? && f == Finite(AsF64(v.n.i) as real))
    || (v.Num? && v.n.Float? && f == Finite(v.n.r))
    || (v.Str? && lib.parseFloat(v.s) == Some(f))
    || (v == Bool(true) && f == Finite(1.0))
    || (v == Bool(false) && f == Finite(0.0))
  }

  /** The texts a value can be written as. */
  ghost predicate Spells(lib: Library, v: Json, s: string) {
    || v == Str(s)
    || (v.Num? && s == lib.numberText(v.n))
    || (v == Bool(true) && s == "true")
    || (v == Bool(false) && s == "false")
  }

  ghost predicate InBounds(lib: Library, rules: Rules, v: Json) {
    forall f | Reads(lib, v, f) ::
      && (rules.min.Some? ==> !f.NegInf? && (f.Finite? ==> rules.min.value <= f.r))
      && (rules.max.Some? ==> !f.PosInf? && (f.Finite? ==> f.r <= rules.max.value))
  }

  ghost predicate InLength(lib: Library, rules: Rules, v: Json) {
    forall s | Spells(lib, v, s) ::
      (rules.minLength.Some? ==> rules.minLength.value <= |s|) && (rules.maxLength.Some? ==> |s| <= rules.maxLength.value)
  }

  ghost predicate InPattern(lib: Library, rules: Rules, v: Json) {
    forall s | Spells(lib, v, s) && rules.pattern.Some? :: lib.matches(rules.pattern.value, s) != Some(false)
  }

  ghost predicate WithinRules(lib: Library, col: Column, v: Json) {
    col.rules.Some? ==>
      && ((col.dataType.TInteger? || col.dataType.TFloat? || col.dataType.TAny?) ==> InBounds(lib, col.rules.value, v))
      && ((col.dataType.TString? || col.dataType.TEnum? || col.dataType.TAny?) ==> InLength(lib, col.rules.value, v))
      && InPattern(lib, col.rules.value, v)
  }

  ghost predicate ParsesI64(lib: Library) {
    forall s | lib.parseInt(s).Some? :: FitsI64(lib.parseInt(s).value)
  }

  /** A normalised value has the column's type, except that a float cell holding the text
      of an infinity or NaN becomes null. */
  lemma NormalizeTyped(lib: Library, col: Column, raw: Json)
    requires ParsesI64(lib) && Normalize(lib, col, raw).Ok?
    ensures
      var v := Normalize(lib, col, raw).value;
      HasType(col, v) ||
      (col.dataType.TFloat? && v.Null? && raw.Str? && lib.parseFloat(raw.s).Some? && !lib.parseFloat(raw.s).value.Finite?)
  {
  }

  lemma ReadsIff(lib: Library, v: Json, f: F64)
    ensures ToF64(lib, v) == Some(f) <==> Reads(lib, v, f)
  {
  }

  lemma SpellsIff(lib: Library, v: Json, s: string)
    ensures ToText(lib, v) == Some(s) <==> Spells(lib, v, s)
  {
  }

  lemma NumberCheckedIff(lib: Library, rules: Rules, v: Json)
    ensures CheckNumber(lib, rules, v) == if InBounds(lib, rules, v) then None else Some(Range)
  {
    forall f ensures ToF64(lib, v) == Some(f) <==> Reads(lib, v, f) { ReadsIff(lib, v, f); }
  }

  lemma LengthCheckedIff(lib: Library, rules: Rules, v: Json)
    ensures CheckLength(lib, rules, v) == if InLength(lib, rules, v) then None else Some(Length)
  {
    forall s ensures ToText(lib, v) == Some(s) <==> Spells(lib, v, s) { SpellsIff(lib, v, s); }
  }

  lemma PatternCheckedIff(lib: Library, rules: Rules, v: Json)
    ensures CheckPattern(lib, rules, v) == if InPattern(lib, rules, v) then None else Some(Pattern)
  {
    forall s ensures ToText(lib, v) == Some(s) <==> Spells(lib, v, s) { SpellsIff(lib, v, s); }
  }

  /** The ordered checks find nothing exactly when the value is within all rules of the column. */
  lemma RulesCheckedIff(lib: Library, col: Column, v: Json)
    ensures CheckRules(lib, col, v).None? <==> WithinRules(lib, col, v)
  {
    if col.rules.Some? {
      NumberCheckedIff(lib, col.rules.value, v);
      LengthCheckedIff(lib, col.rules.value, v);
      PatternCheckedIff(lib, col.rules.value, v);
    }
  }

  /** A value breaks the rules that the code stands for. */
  ghost predicate Breaks(lib: Library, col: Column, v: Json, code: Code) {
    && col.rules.Some?
    && match code
       case Range => (col.dataType.TInteger? || col.dataType.TFloat? || col.dataType.TAny?) && !InBounds(lib, col.rules.value, v)
       case Length => (col.dataType.TString? || col.dataType.TEnum? || col.dataType.TAny?) && !InLength(lib, col.rules.value, v)
       case Pattern => !InPattern(lib, col.rules.value, v)
       case _ => false
  }

  /** The pattern is checked last, but first in a column for any type. */
  predicate CheckedBefore(t: UiType, a: Code, b: Code) {
    if t.TAny? then (a.Pattern? && (b.Range? || b.Length?)) || (a.Range? && b.Length?)
    else (a.Range? || a.Length?) && b.Pattern?
  }

  ghost predicate RuleReport(lib: Library, col: Column, v: Json, code: Code) {
    Breaks(lib, col, v, code) && forall c | CheckedBefore(col.dataType, c, code) :: !Breaks(lib, col, v, c)
  }

  lemma RuleReportCases(lib: Library, col: Column, v: Json)
    ensures var range, length, pattern := Breaks(lib, col, v, Range), Breaks(lib, col, v, Length), Breaks(lib, col, v, Pattern);
            && (RuleReport(lib, col, v, Range) <==> range && !(pattern && col.dataType.TAny?))
            && (RuleReport(lib, col, v, Length) <==> length && !((pattern || range) && col.dataType.TAny?))
            && (RuleReport(lib, col, v, Pattern) <==> pattern && !((range || length) && !col.dataType.TAny?))
  {
    var t := col.dataType;
    assert CheckedBefore(t, Pattern, Range) == CheckedBefore(t, Pattern, Length) == CheckedBefore(t, Range, Length) == t.TAny?;
    assert CheckedBefore(t, Range, Pattern) == CheckedBefore(t, Length, Pattern) == !t.TAny?;
  }

  /** Of the broken rules the one that is checked first is reported. */
  lemma RuleReportIff(lib: Library, col: Column, v: Json, code: Code)
    ensures CheckRules(lib, col, v) == Some(code) <==> RuleReport(lib, col, v, code)
  {
    if col.rules.Some? {
      NumberCheckedIff(lib, col.rules.value, v);
      LengthCheckedIff(lib, col.rules.value, v);
      PatternCheckedIff(lib, col.rules.value, v);
      RuleReportCases(lib, col, v);
    }
  }

  // ---------------------------------------------------------------- what a cell is normalised to

  /** Equal up to the case of ASCII letters. */
  ghost predicate SameChar(a: char, b: char) {
    a == b || ('A' <= a <= 'Z' && b as int == a as int + 32) || ('A' <= b <= 'Z' && a as int == b as int + 32)
  }

  ghost predicate SameText(s: string, t: string) {
    |s| == |t| && forall i | 0 <= i < |s| :: SameChar(s[i], t[i])
  }

  lemma SameCharIff(a: char, b: char)
    ensures LowerChar(a) == LowerChar(b) <==> SameChar(a, b)
  {
  }

  lemma {:induction false} SameTextIff(s: string, t: string)
    ensures Lower(s) == Lower(t) <==> SameText(s, t)
    decreases |s|
  {
    if s == "" || t == "" {
    } else {
      SameCharIff(s[0], t[0]);
      SameTextIff(s[1..], t[1..]);
      assert Lower(s)[0] == LowerChar(s[0]) && Lower(s)[1..] == Lower(s[1..]);
      assert Lower(t)[0] == LowerChar(t[0]) && Lower(t)[1..] == Lower(t[1..]);
      if SameText(s, t) {
        assert SameText(s[1..], t[1..]);
      }
      if SameText(s[1..], t[1..]) && SameChar(s[0], t[0]) {
        forall i | 0 <= i < |s| ensures SameChar(s[i], t[i]) {
          if i > 0 { assert s[i] == s[1..][i - 1] && t[i] == t[1..][i - 1]; }
        }
      }
    }
  }

  lemma {:induction false} LowerFixed(w: string)
    requires forall i | 0 <= i < |w| :: !('A' <= w[i] <= 'Z')
    ensures Lower(w) == w
  {
    if w != "" { LowerFixed(w[1..]); }
  }

  lemma SameWordIff(s: string, w: string)
    requires forall i | 0 <= i < |w| :: !('A' <= w[i] <= 'Z')
    ensures Lower(s) == w <==> SameText(s, w)
  {
    LowerFixed(w);
    SameTextIff(s, w);
  }

  /** The words for true and for false, in English and Chinese. */
  ghost function Words(b: bool): seq<string> {
    if b then ["true", "1", "yes", "on", "y", "t", "\U{662F}"] else ["false", "0", "no", "off", "n", "f", "\U{5426}"]
  }

  ghost predicate Says(s: string, b: bool) {
    exists k :: 0 <= k < |Words(b)| && SameText(s, Words(b)[k])
  }

  lemma SaysIff(s: string, b: bool)
    ensures Lower(s) in Words(b) <==> Says(s, b)
  {
    forall k | 0 <= k < |Words(b)| ensures Lower(s) == Words(b)[k] <==> SameText(s, Words(b)[k]) {
      SameWordIff(s, Words(b)[k]);
    }
    if Lower(s) in Words(b) {
      var k :| 0 <= k < |Words(b)| && Words(b)[k] == Lower(s);
      assert SameText(s, Words(b)[k]);
    }
  }

  ghost predicate IsLabel(items: seq<EnumItem>, s: string, i: int) {
    0 <= i < |items| && SameText(items[i].text, s)
  }

  ghost predicate IsKeyText(lib: Library, items: seq<EnumItem>, s: string, i: int) {
    0 <= i < |items| && exists t :: Spells(lib, items[i].key, t) && SameText(t, s)
  }

  ghost predicate FirstLabel(items: seq<EnumItem>, s: string, i: int) {
    IsLabel(items, s, i) && forall j | 0 <= j < i :: !IsLabel(items, s, j)
  }

  ghost predicate FirstKeyText(lib: Library, items: seq<EnumItem>, s: string, i: int) {
    IsKeyText(lib, items, s, i) && forall j | 0 <= j < i :: !IsKeyText(lib, items, s, j)
  }

  ghost predicate IsItemKey(items: seq<EnumItem>, v: Json) {
    exists it :: it in items && it.key == v
  }

  /** A key stands for itself; else a text for the first localised label it matches, and else for the first
      key it matches, up to case. */
  ghost predicate EnumStandsFor(lib: Library, col: Column, items: seq<EnumItem>, raw: Json, v: Json) {
    if IsItemKey(items, raw) then v == raw else
      && raw.Str?
      && if exists i :: IsLabel(col.localized, raw.s, i)
         then exists i :: FirstLabel(col.localized, raw.s, i) && v == col.localized[i].key
         else exists i :: FirstKeyText(lib, items, raw.s, i) && v == items[i].key
  }

  /** What a cell means in a column. */
  ghost predicate StandsFor(lib: Library, col: Column, raw: Json, v: Json) {
    match col.dataType
    case TString => v.Str? && Spells(lib, raw, v.s)
    case TInteger => v.Num? && v.n.Int? && ((raw == v && FitsI64(v.n.i)) || (raw.Str? && lib.parseInt(raw.s) == Some(v.n.i)))
    case TFloat =>
      || (raw.Num? && v == raw)
      || (raw.Str? && v.Num? && v.n.Float? && lib.parseFloat(raw.s) == Some(Finite(v.n.r)))
      || (raw.Str? && v.Null? && lib.parseFloat(raw.s).Some? && !lib.parseFloat(raw.s).value.Finite?)
    case TBoolean => v.Bool? && (raw == v || (raw.Str? && Says(raw.s, v.b)))
    case TEnum(items) => EnumStandsFor(lib, col, items, raw, v)
    case TAny => v == raw
  }

  lemma {:induction false} FindLabelIs(items: seq<EnumItem>, s: string)
    ensures var r := FindLabel(items, Lower(s));
            match r
            case None => forall i :: !IsLabel(items, s, i)
            case Some(it) => exists i :: FirstLabel(items, s, i) && items[i] == it
  {
    if items != [] {
      SameTextIff(items[0].text, s);
      var rest := items[1..];
      if Lower(items[0].text) == Lower(s) {
        assert FirstLabel(items, s, 0);
      } else {
        FindLabelIs(rest, s);
        forall i ensures IsLabel(items, s, i) <==> IsLabel(rest, s, i - 1) { }
        if FindLabel(rest, Lower(s)).Some? {
          var i :| FirstLabel(rest, s, i) && rest[i] == FindLabel(rest, Lower(s)).value;
          forall j | 0 <= j < i + 1 ensures !IsLabel(items, s, j) { assert !IsLabel(rest, s, j - 1); }
          assert FirstLabel(items, s, i + 1);
        }
      }
    }
  }

  lemma KeyTextIff(lib: Library, items: seq<EnumItem>, s: string, i: int)
    requires 0 <= i < |items|
    ensures (var t := ToText(lib, items[i].key); t.Some? && Lower(t.value) == Lower(s)) <==> IsKeyText(lib, items, s, i)
  {
    var t := ToText(lib, items[i].key);
    forall u ensures t == Some(u) <==> Spells(lib, items[i].key, u) { SpellsIff(lib, items[i].key, u); }
    if t.Some? { SameTextIff(t.value, s); }
  }

  lemma {:induction false} FindKeyIs(lib: Library, items: seq<EnumItem>, s: string)
    ensures var r := FindKey(lib, items, Lower(s));
            match r
            case None => forall i :: !IsKeyText(lib, items, s, i)
            case Some(it) => exists i :: FirstKeyText(lib, items, s, i) && items[i] == it
  {
    if items != [] {
      KeyTextIff(lib, items, s, 0);
      var rest := items[1..];
      if IsKeyText(lib, items, s, 0) {
        assert FirstKeyText(lib, items, s, 0);
      } else {
        FindKeyIs(lib, rest, s);
        forall i ensures IsKeyText(lib, items, s, i) <==> IsKeyText(lib, rest, s, i - 1) {
          if 1 <= i < |items| { assert items[i] == rest[i - 1]; }
        }
        if FindKey(lib, rest, Lower(s)).Some? {
          var i :| FirstKeyText(lib, rest, s, i) && rest[i] == FindKey(lib, rest, Lower(s)).value;
          forall j | 0 <= j < i + 1 ensures !IsKeyText(lib, items, s, j) { assert !IsKeyText(lib, rest, s, j - 1); }
          assert FirstKeyText(lib, items, s, i + 1);
        }
      }
    }
  }

  lemma EnumIff(lib: Library, col: Column, items: seq<EnumItem>, raw: Json, v: Json)
    ensures NormalizeEnum(lib, col, items, raw) == Ok(v) <==> EnumStandsFor(lib, col, items, raw, v)
  {
    if !IsItemKey(items, raw) && raw.Str? {
      FindLabelIs(col.localized, raw.s);
      FindKeyIs(lib, items, raw.s);
    }
  }

  lemma BoolIff(raw: Json, v: Json)
    ensures NormalizeBool(raw) == Ok(v) <==> v.Bool? && (raw == v || (raw.Str? && Says(raw.s, v.b)))
  {
    if raw.Str? {
      SaysIff(raw.s, true);
      SaysIff(raw.s, false);
      NotBoth(Lower(raw.s));
    }
  }

  lemma NotBoth(s: string)
    ensures !(s in Words(true) && s in Words(false))
  {
  }

  /** A cell is normalised to a value exactly when it stands for it, and is of the wrong type otherwise. */
  lemma NormalizeIff(lib: Library, col: Column, raw: Json, v: Json)
    ensures Normalize(lib, col, raw) == Ok(v) <==> StandsFor(lib, col, raw, v)
    ensures Normalize(lib, col, raw).Err? ==> Normalize(lib, col, raw) == Err(TypeMismatch)
  {
    match col.dataType
    case TEnum(items) => EnumIff(lib, col, items, raw, v);
    case TBoolean => BoolIff(raw, v);
    case TString => if v.Str? { SpellsIff(lib, raw, v.s); }
    case _ =>
  }

  // ---------------------------------------------------------------- what a column reports

  /** The condition holds in the row and has a say in whether the column is required. */
  ghost predicate Decides(col: Column, row: Row, i: int) {
    && 0 <= i < |col.conditions|
    && col.conditions[i].test(Get(row, Split(col.conditions[i].target)))
    && (col.conditions[i].effect.Require? || col.conditions[i].effect.Optional?)
  }

  ghost predicate DecidesLast(col: Column, row: Row, i: int) {
    Decides(col, row, i) && forall j | i < j :: !Decides(col, row, j)
  }

  /** The last condition that has a say decides, and without one the rule does. */
  ghost predicate Demanded(col: Column, row: Row) {
    if exists i :: Decides(col, row, i)
    then exists i :: DecidesLast(col, row, i) && col.conditions[i].effect.Require?
    else col.rules.Some? && col.rules.value.required == Some(true)
  }

  lemma DecidesShifts(col: Column, rest: Column, row: Row, i: int)
    requires col.conditions != [] && rest.conditions == col.conditions[1..]
    ensures Decides(col, row, i) <==> (i == 0 && Decides(col, row, 0)) || Decides(rest, row, i - 1)
  {
  }

  lemma {:induction false} ResolveLast(row: Row, col: Column, required: bool)
    ensures if exists i :: Decides(col, row, i)
            then exists i :: DecidesLast(col, row, i) && (ResolveFrom(row, col.conditions, required) <==> col.conditions[i].effect.Require?)
            else ResolveFrom(row, col.conditions, required) == required
    decreases |col.conditions|
  {
    if col.conditions != [] {
      var rest := col.(conditions := col.conditions[1..]);
      var w := col.conditions[0];
      var next := if !w.test(Get(row, Split(w.target))) then required else if w.effect.Require? then true else if w.effect.Optional? then false else required;
      ResolveLast(row, rest, next);
      forall i ensures Decides(col, row, i) <==> (i == 0 && Decides(col, row, 0)) || Decides(rest, row, i - 1) {
        DecidesShifts(col, rest, row, i);
      }
      if j :| Decides(rest, row, j) {
        var i :| DecidesLast(rest, row, i) && (ResolveFrom(row, rest.conditions, next) <==> rest.conditions[i].effect.Require?);
        forall k | i + 1 < k ensures !Decides(col, row, k) { assert !Decides(rest, row, k - 1); }
        assert Decides(col, row, i + 1);
        assert DecidesLast(col, row, i + 1);
      } else if Decides(col, row, 0) {
        assert DecidesLast(col, row, 0);
      }
    }
  }

  lemma RequiredIff(col: Column, row: Row)
    ensures IsRequired(col, row) <==> Demanded(col, row)
  {
    ResolveLast(row, col, col.rules.Some? && col.rules.value.required.Some? && col.rules.value.required.value);
    if i, j :| DecidesLast(col, row, i) && DecidesLast(col, row, j) && i != j { }
  }

  /** The column has no gate, or the row's discriminator has the value of its case. */
  ghost predicate Applies(lib: Library, col: Column, row: Row) {
    col.gate.None? || exists v :: Get(row, Split(col.gate.value.discriminator)) == Some(v) && MeetsCase(lib, v, col.gate.value.caseValue)
  }

  /** Numbers are compared by their texts, all else as it is. */
  ghost predicate MeetsCase(lib: Library, v: Json, c: Json) {
    v == c || exists m, n :: v == Num(m) && c == Num(n) && lib.numberText(m) == lib.numberText(n)
  }

  /** The cell that the column sees: present, and not blank. */
  ghost predicate Sees(lib: Library, col: Column, row: Row, raw: Json) {
    exists x :: Get(row, Path(col)) == Some(x) && if x.Str? then raw == Str(lib.trim(x.s)) && lib.trim(x.s) != "" else raw == x
  }

  ghost predicate SeesNothing(lib: Library, col: Column, row: Row) { forall raw :: !Sees(lib, col, row, raw) }

  /** When a column reports which error. */
  ghost predicate Reports(lib: Library, col: Column, row: Row, code: Code) {
    && Applies(lib, col, row)
    && match code
       case Required => SeesNothing(lib, col, row) && Demanded(col, row)
       case TypeMismatch => exists raw :: Sees(lib, col, row, raw) && forall v :: !StandsFor(lib, col, raw, v)
       case DiscriminatorMissing => false
       case _ => exists raw, v :: Sees(lib, col, row, raw) && StandsFor(lib, col, raw, v) && RuleReport(lib, col, v, code)
  }

  /** When it accepts its cell, and as what. */
  ghost predicate Accepts(lib: Library, col: Column, row: Row, v: Json) {
    && Applies(lib, col, row)
    && exists raw :: Sees(lib, col, row, raw) && StandsFor(lib, col, raw, v) && WithinRules(lib, col, v)
  }

  /** When there is nothing for it to do. */
  ghost predicate Passes(lib: Library, col: Column, row: Row) {
    !Applies(lib, col, row) || (SeesNothing(lib, col, row) && !Demanded(col, row))
  }

  lemma AppliesIff(lib: Library, col: Column, row: Row)
    ensures Applicable(lib, col, row) <==> Applies(lib, col, row)
  {
  }

  lemma SeesIff(lib: Library, col: Column, row: Row, raw: Json)
    ensures Trimmed(lib, Get(row, Path(col))) == Some(raw) <==> Sees(lib, col, row, raw)
  {
  }

  lemma AcceptsIff(lib: Library, col: Column, row: Row, v: Json)
    ensures Validate(lib, col, row) == Ok(Some(v)) <==> Accepts(lib, col, row, v)
  {
    AppliesIff(lib, col, row);
    var cell := Trimmed(lib, Get(row, Path(col)));
    forall raw ensures cell == Some(raw) <==> Sees(lib, col, row, raw) { SeesIff(lib, col, row, raw); }
    if cell.Some? {
      NormalizeIff(lib, col, cell.value, v);
      RulesCheckedIff(lib, col, v);
    }
  }

  lemma PassesIff(lib: Library, col: Column, row: Row)
    ensures Validate(lib, col, row) == Ok(None) <==> Passes(lib, col, row)
  {
    AppliesIff(lib, col, row);
    RequiredIff(col, row);
    var cell := Trimmed(lib, Get(row, Path(col)));
    forall raw ensures cell == Some(raw) <==> Sees(lib, col, row, raw) { SeesIff(lib, col, row, raw); }
    if cell.Some? { assert Sees(lib, col, row, cell.value); }
  }

  lemma ReportsIff(lib: Library, col: Column, row: Row, code: Code)
    ensures Validate(lib, col, row) == Err(code) <==> Reports(lib, col, row, code)
  {
    AppliesIff(lib, col, row);
    RequiredIff(col, row);
    var cell := Trimmed(lib, Get(row, Path(col)));
    forall raw ensures cell == Some(raw) <==> Sees(lib, col, row, raw) { SeesIff(lib, col, row, raw); }
    if cell.Some? {
      assert Sees(lib, col, row, cell.value);
      var n := Normalize(lib, col, cell.value);
      forall v ensures n == Ok(v) <==> StandsFor(lib, col, cell.value, v) { NormalizeIff(lib, col, cell.value, v); }
      NormalizeIff(lib, col, cell.value, Null);
      if n.Ok? {
        assert StandsFor(lib, col, cell.value, n.value);
        RuleReportIff(lib, col, n.value, code);
        RulesNeverOther(lib, col, n.value);
      }
    }
  }

  lemma RulesNeverOther(lib: Library, col: Column, v: Json)
    ensures CheckRules(lib, col, v).Some? ==> var c := CheckRules(lib, col, v).value; c.Range? || c.Length? || c.Pattern?
  {
  }
}
