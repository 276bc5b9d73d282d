/** Validation and normalisation of imported rows (`validate_and_normalize_rows`): every
    column reads the row as the earlier columns left it, checks its own value and writes
    the normalised value back. */
module RowValidator {
  import opened Collections
  import opened PathStore
  import opened CellRules

  // ---------------------------------------------------------------- one row

  datatype Step = Step(row: Row, errors: seq<FieldError>)

  /** One column: update, remove or report. */
  function StepColumn(lib: Library, col: Column, idx: nat, row: Row): Step {
    match Validate(lib, col, row)
    case Ok(Some(v)) => Step(UpdateIfChanged(row, Path(col), v), [])
    case Ok(None) => Step(if Get(row, Path(col)).Some? then Remove(row, Path(col)) else row, [])
    case Err(c) => Step(row, [FieldError(idx + 2, col.key, c)])
  }

  function RunColumns(lib: Library, cols: seq<Column>, idx: nat, row: Row): Step
    decreases |cols|
  {
    if cols == [] then Step(row, []) else
      var first := StepColumn(lib, cols[0], idx, row);
      var rest := RunColumns(lib, cols[1..], idx, first.row);
      Step(rest.row, first.errors + rest.errors)
  }

  /** Discriminators are looked up as flat keys of the row, not by dotted path. */
  function MissingDiscriminators(keys: seq<string>, idx: nat, row: Row): seq<FieldError> {
    if keys == [] then [] else
      var last := |keys| - 1;
      MissingDiscriminators(keys[..last], idx, row)
      + (if keys[last] in row then [] else [FieldError(idx + 2, keys[last], DiscriminatorMissing)])
  }

  function RunRow(lib: Library, t: Template, idx: nat, row: Row): Step {
    var run := RunColumns(lib, t.columns, idx, row);
    Step(run.row, MissingDiscriminators(t.discriminators, idx, row) + run.errors)
  }

  /** What one column may do to a row: report and leave it, write what its cell stands for, or clear it. */
  ghost predicate ColumnStep(lib: Library, col: Column, idx: nat, row: Row, next: Row, found: seq<FieldError>) {
    || (exists code :: Reports(lib, col, row, code) && next == row && found == [FieldError(idx + 2, col.key, code)])
    || (exists v :: Accepts(lib, col, row, v) && next == Insert(row, Path(col), v) && found == [])
    || (Passes(lib, col, row) && next == Remove(row, Path(col)) && found == [])
  }

  lemma StepIs(lib: Library, col: Column, idx: nat, row: Row)
    ensures ColumnStep(lib, col, idx, row, StepColumn(lib, col, idx, row).row, StepColumn(lib, col, idx, row).errors)
  {
    match Validate(lib, col, row)
    case Ok(Some(v)) =>
      AcceptsIff(lib, col, row, v);
      if Get(row, Path(col)) == Some(v) { InsertPresent(row, Path(col), v); }
    case Ok(None) =>
      PassesIff(lib, col, row);
      if Get(row, Path(col)).None? { RemoveAbsent(row, Path(col)); }
    case Err(code) =>
      ReportsIff(lib, col, row, code);
  }

  /** Each column goes on from where the ones before it left the row and the errors. */
  lemma RunGoesOn(lib: Library, cols: seq<Column>, idx: nat, row: Row, i: nat)
    requires i < |cols|
    ensures RunColumns(lib, cols[..0], idx, row) == Step(row, [])
    ensures var a, b := RunColumns(lib, cols[..i], idx, row), RunColumns(lib, cols[..i + 1], idx, row);
            a.errors <= b.errors && ColumnStep(lib, cols[i], idx, a.row, b.row, b.errors[|a.errors|..])
  {
    assert cols[..i + 1] == cols[..i] + [cols[i]];
    RunSplits(lib, cols[..i], [cols[i]], idx, row);
    RunSingle(lib, cols[i], idx, RunColumns(lib, cols[..i], idx, row).row);
    StepIs(lib, cols[i], idx, RunColumns(lib, cols[..i], idx, row).row);
  }

  ghost predicate ColumnReports(lib: Library, cols: seq<Column>, idx: nat, row: Row, e: FieldError, i: int) {
    && 0 <= i < |cols| && e.row == idx + 2 && e.field == cols[i].key
    && Reports(lib, cols[i], RunColumns(lib, cols[..i], idx, row).row, e.code)
  }

  lemma StepErrorIff(lib: Library, col: Column, idx: nat, row: Row, e: FieldError)
    ensures e in StepColumn(lib, col, idx, row).errors <==> e.row == idx + 2 && e.field == col.key && Reports(lib, col, row, e.code)
  {
    ReportsIff(lib, col, row, e.code);
  }

  /** An error is reported exactly by a column with that key that has to report it, given the row it sees. */
  lemma {:induction false} ErrorIff(lib: Library, cols: seq<Column>, idx: nat, row: Row, e: FieldError)
    ensures e in RunColumns(lib, cols, idx, row).errors <==> exists i :: ColumnReports(lib, cols, idx, row, e, i)
    decreases |cols|
  {
    if cols != [] {
      var n := |cols| - 1;
      var init, last := cols[..n], cols[n];
      assert cols == init + [last];
      var seen := RunColumns(lib, init, idx, row).row;
      RunSplits(lib, init, [last], idx, row);
      RunSingle(lib, last, idx, seen);
      StepErrorIff(lib, last, idx, seen, e);
      ErrorIff(lib, init, idx, row, e);
      forall i | 0 <= i < n ensures ColumnReports(lib, cols, idx, row, e, i) <==> ColumnReports(lib, init, idx, row, e, i) {
        assert cols[..i] == init[..i];
      }
      if i :| ColumnReports(lib, init, idx, row, e, i) { assert ColumnReports(lib, cols, idx, row, e, i); }
      if i :| ColumnReports(lib, cols, idx, row, e, i) && i != n { assert ColumnReports(lib, init, idx, row, e, i); }
      assert ColumnReports(lib, cols, idx, row, e, n) <==> e in StepColumn(lib, last, idx, seen).errors;
    }
  }

  /** In particular a required value is reported missing exactly when the column applies, demands a value
      and sees none. */
  lemma RequiredReportedIff(lib: Library, col: Column, idx: nat, row: Row)
    ensures StepColumn(lib, col, idx, row).errors == [FieldError(idx + 2, col.key, Required)] <==>
            Applies(lib, col, row) && SeesNothing(lib, col, row) && Demanded(col, row)
  {
    ReportsIff(lib, col, row, Required);
  }

  ghost predicate ApartFromAll(cols: seq<Column>, q: seq<string>) {
    forall c | c in cols :: !Comparable(Path(c), q)
  }

  /** A column leaves every path alone that is not comparable to its key. */
  lemma StepLeavesApart(lib: Library, col: Column, idx: nat, row: Row, q: seq<string>)
    requires q != [] && !Comparable(Path(col), q)
    ensures Get(StepColumn(lib, col, idx, row).row, q) == Get(row, q)
  {
    var r := Validate(lib, col, row);
    if r.Ok? && r.value.Some? { GetInsertApart(row, Path(col), r.value.value, q); }
    GetRemoveApart(row, Path(col), q);
  }

  /** Paths incomparable to every column are unchanged, whether or not the row is valid. */
  lemma {:induction false} RunLeavesApart(lib: Library, cols: seq<Column>, idx: nat, row: Row, q: seq<string>)
    requires q != [] && ApartFromAll(cols, q)
    ensures Get(RunColumns(lib, cols, idx, row).row, q) == Get(row, q)
    decreases |cols|
  {
    if cols != [] {
      StepLeavesApart(lib, cols[0], idx, row, q);
      RunLeavesApart(lib, cols[1..], idx, StepColumn(lib, cols[0], idx, row).row, q);
    }
  }

  /** The path is inside an object that is one of the column's enum keys. */
  ghost predicate InsideEnumKey(col: Column, q: seq<string>) {
    Path(col) < q && exists v :: IsKeyOf(col, v) && v.Obj? && Get(v.fields, q[|Path(col)|..]).Some?
  }

  ghost predicate BelowEnum(cols: seq<Column>, q: seq<string>) {
    exists c :: c in cols && InsideEnumKey(c, q)
  }

  lemma EnumGivesKey(lib: Library, col: Column, raw: Json)
    requires col.dataType.TEnum? && Normalize(lib, col, raw).Ok?
    ensures IsKeyOf(col, Normalize(lib, col, raw).value)
  {
  }

  lemma NormalizedAddsNothing(lib: Library, col: Column, raw: Json, q: seq<string>)
    requires Normalize(lib, col, raw).Ok? && !col.dataType.TEnum? && q != []
    requires Normalize(lib, col, raw).value.Obj? && Get(Normalize(lib, col, raw).value.fields, q).Some?
    ensures raw == Normalize(lib, col, raw).value
  {
  }

  lemma StepAddsNothing(lib: Library, col: Column, idx: nat, row: Row, q: seq<string>)
    requires q != [] && Get(StepColumn(lib, col, idx, row).row, q).Some?
    ensures Get(row, q).Some? || InsideEnumKey(col, q)
  {
    var p := Path(col);
    var r := Validate(lib, col, row);
    if r.Ok? && r.value.Some? {
      var raw := Trimmed(lib, Get(row, p)).value;
      GetInsert(row, p, r.value.value, q);
      if p < q {
        var rest := q[|p|..];
        assert q == p + rest;
        GetSplitsPath(row, p, rest);
        if col.dataType.TEnum? { EnumGivesKey(lib, col, raw); } else { NormalizedAddsNothing(lib, col, raw, rest); }
      } else if q < p {
        assert p == q + p[|q|..];
        GetSplitsPath(row, q, p[|q|..]);
        GetEmpty(p[|q|..]);
      }
    } else {
      GetRemove(row, p, q);
    }
  }

  /** No path is ever added, except inside an enum key that is itself an object. */
  lemma {:induction false} RunAddsNothing(lib: Library, cols: seq<Column>, idx: nat, row: Row, q: seq<string>)
    requires q != [] && Get(RunColumns(lib, cols, idx, row).row, q).Some?
    ensures Get(row, q).Some? || BelowEnum(cols, q)
    decreases |cols|
  {
    if cols != [] {
      var next := StepColumn(lib, cols[0], idx, row).row;
      RunAddsNothing(lib, cols[1..], idx, next, q);
      if Get(next, q).Some? { StepAddsNothing(lib, cols[0], idx, row, q); }
    }
  }

  /** There a path really is added: the label of an enum whose key is an object stands for the object. */
  lemma EnumKeyAddsPath(lib: Library, k: string, name: string, x: Json, idx: nat)
    requires '.' !in k && lib.trim("t") == "t"
    ensures var key := Obj(map[name := x]);
            var col := Column(k, "", TEnum([EnumItem(key, "t")]), None, [], None, [EnumItem(key, "t")]);
            var row := map[k := Str("t")];
            && Path(col) == [k] && Get(row, [k, name]) == None
            && StepColumn(lib, col, idx, row) == Step(map[k := key], []) && Get(map[k := key], [k, name]) == Some(x)
  {
    PlainSplit(k);
    var key := Obj(map[name := x]);
    var col := Column(k, "", TEnum([EnumItem(key, "t")]), None, [], None, [EnumItem(key, "t")]);
    var row := map[k := Str("t")];
    assert [k, name][1..] == [name];
    assert Validate(lib, col, row) == Ok(Some(key));
    assert Insert(row, [k], key) == map[k := key];
  }

  lemma {:induction false} RunSplits(lib: Library, before: seq<Column>, after: seq<Column>, idx: nat, row: Row)
    ensures
      var a := RunColumns(lib, before, idx, row);
      var b := RunColumns(lib, after, idx, a.row);
      RunColumns(lib, before + after, idx, row) == Step(b.row, a.errors + b.errors)
    decreases |before|
  {
    if before == [] {
      assert before + after == after;
    } else {
      assert (before + after)[0] == before[0] && (before + after)[1..] == before[1..] + after;
      var s := StepColumn(lib, before[0], idx, row);
      var a := RunColumns(lib, before[1..], idx, s.row);
      var b := RunColumns(lib, after, idx, a.row);
      RunSplits(lib, before[1..], after, idx, s.row);
      assert s.errors + (a.errors + b.errors) == (s.errors + a.errors) + b.errors;
    }
  }

  // ---------------------------------------------------------------- valid rows

  /** No other column has a key comparable to that of column `i`. */
  ghost predicate Alone(cols: seq<Column>, i: nat)
    requires i < |cols|
  {
    forall j | 0 <= j < |cols| && j != i :: !Comparable(Path(cols[j]), Path(cols[i]))
  }

  ghost predicate AllAlone(cols: seq<Column>) {
    forall i | 0 <= i < |cols| :: Alone(cols, i)
  }

  /** What a valid row may hold for a column, given the row it came from and the row its column saw:
      nothing, if the column does not apply or has no cell and does not demand one, or else what its own
      original cell stands for, which has the column's type and keeps its rules. */
  ghost predicate CellIsGood(lib: Library, col: Column, row: Row, seen: Row, final: Row) {
    match Get(final, Path(col))
    case None => !Applies(lib, col, seen) || (SeesNothing(lib, col, row) && !Demanded(col, seen))
    case Some(v) =>
      && Applies(lib, col, seen)
      && WithinRules(lib, col, v)
      && exists raw :: Sees(lib, col, row, raw) && StandsFor(lib, col, raw, v)
                       && (HasType(col, v) || (col.dataType.TFloat? && v.Null? && raw.Str?))
  }

  lemma StepIsGood(lib: Library, col: Column, idx: nat, row: Row)
    requires ParsesI64(lib) && StepColumn(lib, col, idx, row).errors == []
    ensures CellIsGood(lib, col, row, row, StepColumn(lib, col, idx, row).row)
  {
    var p := Path(col);
    match Validate(lib, col, row)
    case Ok(Some(v)) =>
      AcceptsIff(lib, col, row, v);
      GetInsertSame(row, p, v);
      var raw :| Sees(lib, col, row, raw) && StandsFor(lib, col, raw, v) && WithinRules(lib, col, v);
      NormalizeIff(lib, col, raw, v);
      NormalizeTyped(lib, col, raw);
    case Ok(None) =>
      PassesIff(lib, col, row);
      GetRemoveSame(row, p);
    case Err(_) =>
  }

  lemma SameCellSameSight(lib: Library, col: Column, row: Row, seen: Row)
    requires Get(row, Path(col)) == Get(seen, Path(col))
    ensures forall raw :: Sees(lib, col, row, raw) <==> Sees(lib, col, seen, raw)
    ensures SeesNothing(lib, col, row) <==> SeesNothing(lib, col, seen)
  {
    forall raw ensures Sees(lib, col, row, raw) <==> Sees(lib, col, seen, raw) { }
  }

  /** The value guarantee of a valid row, for every column that stands alone. */
  lemma ValidCellIsGood(lib: Library, cols: seq<Column>, idx: nat, row: Row, i: nat)
    requires ParsesI64(lib) && i < |cols| && Alone(cols, i) && RunColumns(lib, cols, idx, row).errors == []
    ensures CellIsGood(lib, cols[i], row, RunColumns(lib, cols[..i], idx, row).row, RunColumns(lib, cols, idx, row).row)
  {
    var before, col, after := cols[..i], cols[i], cols[i + 1..];
    assert cols == before + ([col] + after);
    var a := RunColumns(lib, before, idx, row);
    var s := StepColumn(lib, col, idx, a.row);
    RunSplits(lib, before, [col] + after, idx, row);
    assert ([col] + after)[1..] == after;
    assert ApartFromAll(before, Path(col)) && ApartFromAll(after, Path(col));
    RunLeavesApart(lib, before, idx, row, Path(col));
    StepIsGood(lib, col, idx, a.row);
    SameCellSameSight(lib, col, row, a.row);
    RunLeavesApart(lib, after, idx, s.row, Path(col));
  }

  /** A column that does not apply erases its key for good, also when the value there was
      written by an earlier column with the same key. */
  lemma InapplicableColumnErases(lib: Library, cols: seq<Column>, idx: nat, row: Row, j: nat)
    requires j < |cols| && !Applies(lib, cols[j], RunColumns(lib, cols[..j], idx, row).row)
    requires !BelowEnum(cols[j + 1..], Path(cols[j]))
    ensures Get(RunColumns(lib, cols, idx, row).row, Path(cols[j])) == None
  {
    var before, col, after := cols[..j], cols[j], cols[j + 1..];
    assert cols == before + ([col] + after);
    var a := RunColumns(lib, before, idx, row);
    var s := StepColumn(lib, col, idx, a.row);
    RunSplits(lib, before, [col] + after, idx, row);
    assert ([col] + after)[1..] == after;
    AppliesIff(lib, col, a.row);
    GetRemoveSame(a.row, Path(col));
    var final := RunColumns(lib, after, idx, s.row).row;
    if Get(final, Path(col)).Some? { RunAddsNothing(lib, after, idx, s.row, Path(col)); }
  }

  /** In a run without errors, the key of a column that no later column is comparable to is present
      at the end exactly when that column applies and sees a cell; and one that it demands it sees. */
  lemma PresentAtEndIff(lib: Library, cols: seq<Column>, idx: nat, row: Row, i: nat)
    requires i < |cols| && ApartFromAll(cols[i + 1..], Path(cols[i])) && RunColumns(lib, cols, idx, row).errors == []
    ensures var seen := RunColumns(lib, cols[..i], idx, row).row;
            && (Get(RunColumns(lib, cols, idx, row).row, Path(cols[i])).Some? <==>
                Applies(lib, cols[i], seen) && !SeesNothing(lib, cols[i], seen))
            && (Applies(lib, cols[i], seen) && Demanded(cols[i], seen) ==> !SeesNothing(lib, cols[i], seen))
  {
    var before, col, after := cols[..i], cols[i], cols[i + 1..];
    assert cols == before + ([col] + after);
    var a := RunColumns(lib, before, idx, row);
    var s := StepColumn(lib, col, idx, a.row);
    RunSplits(lib, before, [col] + after, idx, row);
    assert ([col] + after)[1..] == after;
    StepPresentIff(lib, col, idx, a.row);
    RunLeavesApart(lib, after, idx, s.row, Path(col));
  }

  lemma StepPresentIff(lib: Library, col: Column, idx: nat, row: Row)
    requires StepColumn(lib, col, idx, row).errors == []
    ensures Get(StepColumn(lib, col, idx, row).row, Path(col)).Some? <==> Applies(lib, col, row) && !SeesNothing(lib, col, row)
    ensures Applies(lib, col, row) && Demanded(col, row) ==> !SeesNothing(lib, col, row)
  {
    match Validate(lib, col, row)
    case Ok(Some(v)) =>
      AcceptsIff(lib, col, row, v);
      GetInsertSame(row, Path(col), v);
    case Ok(None) =>
      PassesIff(lib, col, row);
      GetRemoveSame(row, Path(col));
    case Err(_) =>
  }

  function Gated(k: string, d: string, v: string): Column {
    Column(k, "", TString, None, [], Some(Gate(d, Str(v))), [])
  }

  lemma GatedStep(lib: Library, k: string, d: string, v: string, w: string, text: string, idx: nat)
    requires '.' !in k && '.' !in d && k != d && text != "" && lib.trim(text) == text
    ensures var row := map[d := Str(w), k := Str(text)];
            StepColumn(lib, Gated(k, d, v), idx, row) == Step(if v == w then row else map[d := Str(w)], [])
  {
    PlainSplit(k);
    PlainSplit(d);
    var row := map[d := Str(w), k := Str(text)];
    assert Get(row, [k]) == Some(Str(text)) && Get(row, [d]) == Some(Str(w));
    assert row - {k} == map[d := Str(w)];
  }

  /** A cell that the first of two columns with one key accepts, the second erases when its gate
      does not apply, and the row is emitted as valid without it. */
  lemma ErasedRowIsValid(lib: Library, k: string, d: string, v: string, w: string, text: string)
    requires '.' !in k && '.' !in d && k != d && v != w && text != "" && lib.trim(text) == text
    ensures var row := map[d := Str(v), k := Str(text)];
            && StepColumn(lib, Gated(k, d, v), 0, row) == Step(row, [])
            && ValidRows(lib, Template([Gated(k, d, v), Gated(k, d, w)], [d]), [row]) == [ValidRow(2, map[d := Str(v)])]
  {
    var row, t := map[d := Str(v), k := Str(text)], Template([Gated(k, d, v), Gated(k, d, w)], [d]);
    GatedStep(lib, k, d, v, v, text, 0);
    GatedStep(lib, k, d, w, v, text, 0);
    assert t.columns[1..] == [Gated(k, d, w)] && t.columns[1..][1..] == [];
    assert RunColumns(lib, t.columns[1..], 0, row) == Step(map[d := Str(v)], []);
    assert RunColumns(lib, t.columns, 0, row) == Step(map[d := Str(v)], []);
    assert [d][..0] == [] && d in row;
    assert MissingDiscriminators([d], 0, row) == [];
    assert [row][..0] == [];
    assert ValidRows(lib, t, []) == [];
  }

  // ---------------------------------------------------------------- all rows

  function ValidRows(lib: Library, t: Template, rows: seq<Row>): seq<ValidRow>
    decreases |rows|
  {
    if rows == [] then [] else
      var last := |rows| - 1;
      var run := RunRow(lib, t, last, rows[last]);
      ValidRows(lib, t, rows[..last]) + (if run.errors == [] then [ValidRow(last + 2, run.row)] else [])
  }

  function RowErrors(lib: Library, t: Template, rows: seq<Row>): seq<FieldError>
    decreases |rows|
  {
    if rows == [] then [] else
      var last := |rows| - 1;
      RowErrors(lib, t, rows[..last]) + RunRow(lib, t, last, rows[last]).errors
  }

  ghost predicate EmittedValid(lib: Library, t: Template, rows: seq<Row>, i: nat) {
    exists v :: v in ValidRows(lib, t, rows) && v.index == i + 2
  }

  ghost predicate Reported(lib: Library, t: Template, rows: seq<Row>, i: nat) {
    exists e :: e in RowErrors(lib, t, rows) && e.row == i + 2
  }

  lemma {:induction false} RunErrorsCarryRow(lib: Library, cols: seq<Column>, idx: nat, row: Row)
    ensures forall e | e in RunColumns(lib, cols, idx, row).errors :: e.row == idx + 2
    decreases |cols|
  {
    if cols != [] { RunErrorsCarryRow(lib, cols[1..], idx, StepColumn(lib, cols[0], idx, row).row); }
  }

  lemma {:induction false} MissingCarryRow(keys: seq<string>, idx: nat, row: Row)
    ensures forall e | e in MissingDiscriminators(keys, idx, row) :: e.row == idx + 2
  {
    if keys != [] { MissingCarryRow(keys[..|keys| - 1], idx, row); }
  }

  lemma {:induction false} NothingMissingIff(keys: seq<string>, idx: nat, row: Row)
    ensures MissingDiscriminators(keys, idx, row) == [] <==> forall k | k in keys :: k in row
  {
    if keys != [] {
      var init, k := keys[..|keys| - 1], keys[|keys| - 1];
      NothingMissingIff(init, idx, row);
      assert keys == init + [k];
    }
  }

  /** And it reports each missing discriminator under its own name. */
  lemma {:induction false} MissingReportedIff(keys: seq<string>, idx: nat, row: Row, e: FieldError)
    ensures e in MissingDiscriminators(keys, idx, row) <==>
            e.row == idx + 2 && e.field in keys && e.field !in row && e.code == DiscriminatorMissing
  {
    if keys != [] {
      var init, k := keys[..|keys| - 1], keys[|keys| - 1];
      MissingReportedIff(init, idx, row, e);
      assert keys == init + [k];
    }
  }

  lemma RowErrorsCarryRow(lib: Library, t: Template, idx: nat, row: Row)
    ensures forall e | e in RunRow(lib, t, idx, row).errors :: e.row == idx + 2
  {
    RunErrorsCarryRow(lib, t.columns, idx, row);
    MissingCarryRow(t.discriminators, idx, row);
  }

  /** A row has exactly the errors of its missing discriminators and those its columns report. */
  lemma RowErrorIff(lib: Library, t: Template, idx: nat, row: Row, e: FieldError)
    ensures e in RunRow(lib, t, idx, row).errors <==>
      || (e.row == idx + 2 && e.field in t.discriminators && e.field !in row && e.code == DiscriminatorMissing)
      || (exists i :: ColumnReports(lib, t.columns, idx, row, e, i))
  {
    MissingReportedIff(t.discriminators, idx, row, e);
    ErrorIff(lib, t.columns, idx, row, e);
    RowErrorsSplit(lib, t, idx, row, e);
  }

  lemma RowErrorsSplit(lib: Library, t: Template, idx: nat, row: Row, e: FieldError)
    ensures e in RunRow(lib, t, idx, row).errors <==>
      e in MissingDiscriminators(t.discriminators, idx, row) || e in RunColumns(lib, t.columns, idx, row).errors
  {
  }

  /** `v` is the error-free outcome of the row it is numbered after. */
  ghost predicate ComesFrom(lib: Library, t: Template, rows: seq<Row>, v: ValidRow) {
    2 <= v.index < |rows| + 2 && RowGives(lib, t, v.index - 2, rows[v.index - 2], v.values)
  }

  ghost predicate RowGives(lib: Library, t: Template, idx: nat, row: Row, values: Row) {
    RunRow(lib, t, idx, row) == Step(values, [])
  }

  lemma ValidRowsSnoc(lib: Library, t: Template, rows: seq<Row>, last: nat, run: Step, v: ValidRow)
    requires |rows| == last + 1 && run == RunRow(lib, t, last, rows[last])
    ensures v in ValidRows(lib, t, rows) <==>
            v in ValidRows(lib, t, rows[..last]) || (run.errors == [] && v == ValidRow(last + 2, run.row))
  {
    var init := ValidRows(lib, t, rows[..last]);
    assert ValidRows(lib, t, rows) == init + (if run.errors == [] then [ValidRow(last + 2, run.row)] else []);
  }

  lemma {:induction false} ValidRowsComeFromInput(lib: Library, t: Template, rows: seq<Row>, v: ValidRow)
    requires v in ValidRows(lib, t, rows)
    ensures ComesFrom(lib, t, rows, v)
    decreases |rows|
  {
    var last := |rows| - 1;
    ValidRowsSnoc(lib, t, rows, last, RunRow(lib, t, last, rows[last]), v);
    if v in ValidRows(lib, t, rows[..last]) {
      ValidRowsComeFromInput(lib, t, rows[..last], v);
      assert rows[..last][v.index - 2] == rows[v.index - 2];
    }
  }

  ghost predicate Increasing(vs: seq<ValidRow>) {
    forall a, b | 0 <= a < b < |vs| :: vs[a].index < vs[b].index
  }

  /** Valid rows come out once each and in input order. */
  lemma {:induction false} ValidRowsInOrder(lib: Library, t: Template, rows: seq<Row>)
    ensures Increasing(ValidRows(lib, t, rows))
    decreases |rows|
  {
    if rows != [] {
      var last := |rows| - 1;
      var init := ValidRows(lib, t, rows[..last]);
      ValidRowsInOrder(lib, t, rows[..last]);
      forall a | 0 <= a < |init| ensures init[a].index < last + 2 {
        ValidRowsComeFromInput(lib, t, rows[..last], init[a]);
      }
    }
  }

  lemma {:induction false} CleanRunIsEmitted(lib: Library, t: Template, rows: seq<Row>, i: nat, row: Row, run: Step)
    requires i < |rows| && rows[i] == row && run == RunRow(lib, t, i, row) && run.errors == []
    ensures ValidRow(i + 2, run.row) in ValidRows(lib, t, rows)
    decreases |rows|
  {
    var last := |rows| - 1;
    if i < last {
      ValidRowsSnoc(lib, t, rows, last, RunRow(lib, t, last, rows[last]), ValidRow(i + 2, run.row));
      CleanRunIsEmitted(lib, t, rows[..last], i, row, run);
    } else {
      ValidRowsSnoc(lib, t, rows, last, run, ValidRow(i + 2, run.row));
    }
  }

  lemma CleanRowIsEmitted(lib: Library, t: Template, rows: seq<Row>, v: ValidRow)
    requires ComesFrom(lib, t, rows, v)
    ensures v in ValidRows(lib, t, rows)
  {
    var i := v.index - 2;
    CleanRunIsEmitted(lib, t, rows, i, rows[i], Step(v.values, []));
  }

  lemma RowErrorsSnoc(lib: Library, t: Template, rows: seq<Row>)
    requires rows != []
    ensures var last := |rows| - 1;
      forall e :: e in RowErrors(lib, t, rows) <==>
        e in RowErrors(lib, t, rows[..last]) || e in RunRow(lib, t, last, rows[last]).errors
  {
    var last := |rows| - 1;
    var init, tail := RowErrors(lib, t, rows[..last]), RunRow(lib, t, last, rows[last]).errors;
    assert RowErrors(lib, t, rows) == init + tail;
  }

  lemma {:induction false} ErrorComesFrom(lib: Library, t: Template, rows: seq<Row>, e: FieldError)
    requires e in RowErrors(lib, t, rows)
    ensures 2 <= e.row < |rows| + 2 && e in RunRow(lib, t, e.row - 2, rows[e.row - 2]).errors
    decreases |rows|
  {
    var last := |rows| - 1;
    RowErrorsSnoc(lib, t, rows);
    if e in RowErrors(lib, t, rows[..last]) {
      ErrorComesFrom(lib, t, rows[..last], e);
    } else {
      RowErrorsCarryRow(lib, t, last, rows[last]);
    }
  }

  lemma {:induction false} ErrorIsListed(lib: Library, t: Template, rows: seq<Row>, i: nat, run: Step, e: FieldError)
    requires i < |rows| && run == RunRow(lib, t, i, rows[i]) && e in run.errors
    ensures e in RowErrors(lib, t, rows)
    decreases |rows|
  {
    var last := |rows| - 1;
    RowErrorsSnoc(lib, t, rows);
    if i < last {
      assert rows[..last][i] == rows[i];
      ErrorIsListed(lib, t, rows[..last], i, run, e);
    }
  }

  /** Every row is either emitted as valid or reported with its own number, never both. */
  lemma EveryRowAccountedFor(lib: Library, t: Template, rows: seq<Row>, i: nat)
    requires i < |rows|
    ensures EmittedValid(lib, t, rows, i) <==> RunRow(lib, t, i, rows[i]).errors == []
    ensures Reported(lib, t, rows, i) <==> !EmittedValid(lib, t, rows, i)
  {
    var errors := RunRow(lib, t, i, rows[i]).errors;
    forall v | v in ValidRows(lib, t, rows) && v.index == i + 2 ensures errors == [] {
      ValidRowsComeFromInput(lib, t, rows, v);
    }
    forall e | e in RowErrors(lib, t, rows) && e.row == i + 2 ensures errors != [] {
      ErrorComesFrom(lib, t, rows, e);
    }
    if errors == [] {
      var v := ValidRow(i + 2, RunRow(lib, t, i, rows[i]).row);
      CleanRowIsEmitted(lib, t, rows, v);
    } else {
      RowErrorsCarryRow(lib, t, i, rows[i]);
      ErrorIsListed(lib, t, rows, i, RunRow(lib, t, i, rows[i]), errors[0]);
    }
  }

  lemma CleanColumns(lib: Library, t: Template, idx: nat, row: Row)
    requires RunRow(lib, t, idx, row).errors == []
    ensures RunColumns(lib, t.columns, idx, row).errors == []
    ensures RunRow(lib, t, idx, row).row == RunColumns(lib, t.columns, idx, row).row
  {
  }

  /** A template of pairwise incomparable columns gives only good cells in every valid row. */
  lemma ValidRowsAreGood(lib: Library, t: Template, rows: seq<Row>, v: ValidRow, c: nat)
    requires ParsesI64(lib) && AllAlone(t.columns) && v in ValidRows(lib, t, rows) && c < |t.columns|
    ensures 2 <= v.index < |rows| + 2
    ensures var row := rows[v.index - 2];
            CellIsGood(lib, t.columns[c], row, RunColumns(lib, t.columns[..c], v.index - 2, row).row, v.values)
  {
    ValidRowsComeFromInput(lib, t, rows, v);
    var i := v.index - 2;
    CleanColumns(lib, t, i, rows[i]);
    ValidCellIsGood(lib, t.columns, i, rows[i], c);
  }

  /** An emitted row holds a value for every column that applies and demands one, unless a later column
      has a comparable key. */
  lemma EmittedHoldsDemanded(lib: Library, t: Template, rows: seq<Row>, v: ValidRow, c: nat)
    requires v in ValidRows(lib, t, rows) && c < |t.columns| && ApartFromAll(t.columns[c + 1..], Path(t.columns[c]))
    ensures 2 <= v.index < |rows| + 2
    ensures var seen := RunColumns(lib, t.columns[..c], v.index - 2, rows[v.index - 2]).row;
            Applies(lib, t.columns[c], seen) && Demanded(t.columns[c], seen) ==> Get(v.values, Path(t.columns[c])).Some?
  {
    ValidRowsComeFromInput(lib, t, rows, v);
    var i := v.index - 2;
    CleanColumns(lib, t, i, rows[i]);
    PresentAtEndIff(lib, t.columns, i, rows[i], c);
  }

  // ---------------------------------------------------------------- the loops

  method CheckDiscriminators(keys: seq<string>, idx: nat, row: Row) returns (errors: seq<FieldError>)
    ensures errors == MissingDiscriminators(keys, idx, row)
  {
    errors := [];
    for d := 0 to |keys|
      invariant errors == MissingDiscriminators(keys[..d], idx, row)
    {
      assert keys[..d + 1][..d] == keys[..d];
      if keys[d] !in row {
        errors := errors + [FieldError(idx + 2, keys[d], DiscriminatorMissing)];
      }
    }
    assert keys[..|keys|] == keys;
  }

  method ApplyColumn(lib: Library, col: Column, idx: nat, row: Row) returns (next: Row, errors: seq<FieldError>)
    ensures Step(next, errors) == StepColumn(lib, col, idx, row)
  {
    next, errors := row, [];
    var present := Get(row, Path(col));
    match Validate(lib, col, row)
    case Ok(Some(v)) =>
      if present != Some(v) {
        next := Insert(row, Path(col), v);
      }
    case Ok(None) =>
      if present.Some? {
        next := Remove(row, Path(col));
      }
    case Err(code) =>
      errors := [FieldError(idx + 2, col.key, code)];
  }

  method NormalizeColumns(lib: Library, cols: seq<Column>, idx: nat, row: Row)
    returns (final: Row, errors: seq<FieldError>)
    ensures Step(final, errors) == RunColumns(lib, cols, idx, row)
  {
    final, errors := row, [];
    assert cols[..0] == [];
    for c := 0 to |cols|
      invariant Step(final, errors) == RunColumns(lib, cols[..c], idx, row)
    {
      var next, found := ApplyColumn(lib, cols[c], idx, final);
      RunSplits(lib, cols[..c], [cols[c]], idx, row);
      assert cols[..c] + [cols[c]] == cols[..c + 1];
      RunSingle(lib, cols[c], idx, final);
      final, errors := next, errors + found;
    }
    assert cols[..|cols|] == cols;
  }

  lemma RunSingle(lib: Library, col: Column, idx: nat, row: Row)
    ensures RunColumns(lib, [col], idx, row) == StepColumn(lib, col, idx, row)
  {
    assert [col][1..] == [];
    assert StepColumn(lib, col, idx, row).errors + [] == StepColumn(lib, col, idx, row).errors;
  }

  method ValidateRow(lib: Library, t: Template, idx: nat, row: Row) returns (final: Row, errors: seq<FieldError>)
    ensures Step(final, errors) == RunRow(lib, t, idx, row)
  {
    var missing := CheckDiscriminators(t.discriminators, idx, row);
    final, errors := NormalizeColumns(lib, t.columns, idx, row);
    errors := missing + errors;
  }

  method ValidateAndNormalizeRows(lib: Library, t: Template, rows: seq<Row>)
    returns (valids: seq<ValidRow>, errors: seq<FieldError>, warnings: nat)
    ensures valids == ValidRows(lib, t, rows) && errors == RowErrors(lib, t, rows) && warnings == 0
  {
    valids, errors, warnings := [], [], 0;
    for idx := 0 to |rows|
      invariant valids == ValidRows(lib, t, rows[..idx]) && errors == RowErrors(lib, t, rows[..idx])
    {
      var final, found := ValidateRow(lib, t, idx, rows[idx]);
      errors := errors + found;
      if found == [] {
        valids := valids + [ValidRow(idx + 2, final)];
      }
      assert rows[..idx + 1][..idx] == rows[..idx];
    }
    assert rows[..|rows|] == rows;
  }
}
