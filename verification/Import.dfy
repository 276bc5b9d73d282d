/** The import pipeline as a whole: a template built from a schema, rows folded while they are
    read, then validated.  The discriminator check of the validator looks for flat keys, which
    folding has just removed. */
module Import {
  import opened Collections
  import opened PathStore
  import opened FoldPrefixes
  import opened CellRules
  import opened RowValidator
  import opened Schema

  datatype Entity = Device | Point | Action | DevicePoints

  datatype Schemas = Schemas(device: seq<Node>, point: seq<Node>, action: seq<Node>)

  /** The constant columns put in front for each entity. */
  type BaseColumns = Entity -> seq<Column>

  function TemplateFor(s: Schemas, entity: Entity, base: BaseColumns): Template {
    match entity
    case DevicePoints =>
      var d, p := Flat(s.device, DEVICE + "."), Flat(s.point, DRIVER + ".");
      Template(base(Device) + ColumnsOf(d) + base(Point) + ColumnsOf(p), UnionKeys(d) + UnionKeys(p))
    case _ =>
      var ps := Flat(NodesOf(s, entity), DRIVER + ".");
      Template(base(entity) + ColumnsOf(ps), UnionKeys(ps))
  }

  function NodesOf(s: Schemas, entity: Entity): seq<Node> {
    match entity
    case Device => s.device
    case Point => s.point
    case Action => s.action
    case DevicePoints => s.device + s.point
  }

  method BuildTemplate(s: Schemas, entity: Entity, base: BaseColumns) returns (t: Template)
    ensures t == TemplateFor(s, entity, base)
  {
    var out := new Output();
    if entity == DevicePoints {
      ghost var d, p := Flat(s.device, DEVICE + "."), Flat(s.point, DRIVER + ".");
      out.columns := base(Device);
      out.FlattenNodes(s.device, DEVICE + ".", None);
      assert out.discriminators == UnionKeys(d);
      out.columns := out.columns + base(Point);
      out.FlattenNodes(s.point, DRIVER + ".", None);
      assert out.columns == base(Device) + ColumnsOf(d) + base(Point) + ColumnsOf(p);
    } else {
      out.columns := base(entity);
      out.FlattenNodes(NodesOf(s, entity), DRIVER + ".", None);
      assert out.discriminators == UnionKeys(Flat(NodesOf(s, entity), DRIVER + "."));
    }
    t := Template(out.columns, out.discriminators);
  }

  // ---------------------------------------------------------------- what a template holds

  /** Some node of the schema shows this column, under the prefix. */
  ghost predicate Shown(ns: seq<Node>, prefix: string, col: Column) { exists a :: Shows(ns, a, prefix, None, col) }

  lemma ColumnIffShown(ns: seq<Node>, prefix: string, col: Column)
    ensures col in ColumnsOf(Flat(ns, prefix)) <==> Shown(ns, prefix, col)
  {
    var ps := Flat(ns, prefix);
    if col in ColumnsOf(ps) {
      var i :| 0 <= i < |ps| && ColumnsOf(ps)[i] == col;
      assert ps[i] in ps;
      FlatIffShown(ns, prefix, ps[i]);
    }
    if a :| Shows(ns, a, prefix, None, col) {
      var p := Placed(a, col, IsUnion(ns, a));
      FlatIffShown(ns, prefix, p);
      var i :| 0 <= i < |ps| && ps[i] == p;
      assert ColumnsOf(ps)[i] == col;
    }
  }

  /** A template has the base columns of its entity and the columns its own schemas show, those of a device
      under another prefix when points are imported along with it; the base columns come first. */
  lemma TemplateColumnIff(s: Schemas, entity: Entity, base: BaseColumns, col: Column)
    ensures col in TemplateFor(s, entity, base).columns <==>
            match entity
            case Device => col in base(Device) || Shown(s.device, DRIVER + ".", col)
            case Point => col in base(Point) || Shown(s.point, DRIVER + ".", col)
            case Action => col in base(Action) || Shown(s.action, DRIVER + ".", col)
            case DevicePoints =>
              || col in base(Device) || Shown(s.device, DEVICE + ".", col)
              || col in base(Point) || Shown(s.point, DRIVER + ".", col)
    ensures base(if entity.DevicePoints? then Device else entity) <= TemplateFor(s, entity, base).columns
  {
    ColumnIffShown(s.device, DRIVER + ".", col);
    ColumnIffShown(s.device, DEVICE + ".", col);
    ColumnIffShown(s.point, DRIVER + ".", col);
    ColumnIffShown(s.action, DRIVER + ".", col);
  }

  // ---------------------------------------------------------------- discriminators

  lemma {:induction false} UnionKeyFrom(ps: seq<Placed>, key: string) returns (p: Placed)
    requires key in UnionKeys(ps)
    ensures p in ps && p.union && p.col.key == key
  {
    if ps[0].union && ps[0].col.key == key { p := ps[0]; }
    else { p := UnionKeyFrom(ps[1..], key); }
  }

  lemma {:induction false} UnionKeyListed(ps: seq<Placed>, p: Placed)
    requires p in ps && p.union
    ensures p.col.key in UnionKeys(ps)
  {
    if p != ps[0] { UnionKeyListed(ps[1..], p); }
  }

  lemma {:induction false} UnionIsShown(ns: seq<Node>, a: seq<nat>, prefix: string, gate: Option<Gate>) returns (col: Column)
    requires IsUnion(ns, a)
    ensures Shows(ns, a, prefix, gate, col)
    decreases |a|
  {
    match ns[a[0]]
    case Group(children) => col := UnionIsShown(children, a[1..], prefix, gate);
    case Union(d, cases) =>
      if |a| == 1 { col := UnionColumn(prefix, d); }
      else { col := UnionIsShown(cases[a[1]].children, a[2..], prefix, Some(Gate(prefix + d, cases[a[1]].value))); }
  }

  lemma {:induction false} UnionKeyHasPrefix(ns: seq<Node>, a: seq<nat>, prefix: string, gate: Option<Gate>, col: Column)
    requires Shows(ns, a, prefix, gate, col)
    ensures prefix <= col.key
    decreases |a|
  {
    match ns[a[0]]
    case Field(_) =>
    case Group(children) => UnionKeyHasPrefix(children, a[1..], prefix, gate, col);
    case Union(d, cases) =>
      if |a| > 1 {
        UnionKeyHasPrefix(cases[a[1]].children, a[2..], prefix, Some(Gate(prefix + d, cases[a[1]].value)), col);
      }
  }

  ghost predicate HasUnion(ns: seq<Node>) {
    exists a :: IsUnion(ns, a)
  }

  lemma KeysIffUnion(ns: seq<Node>, prefix: string)
    ensures UnionKeys(Flat(ns, prefix)) != [] <==> HasUnion(ns)
    ensures forall k | k in UnionKeys(Flat(ns, prefix)) :: prefix <= k
  {
    var ps := Flat(ns, prefix);
    if a :| IsUnion(ns, a) {
      var col := UnionIsShown(ns, a, prefix, None);
      FlatIffShown(ns, prefix, Placed(a, col, true));
      UnionKeyListed(ps, Placed(a, col, true));
    }
    forall k | k in UnionKeys(ps) ensures HasUnion(ns) && prefix <= k {
      var p := UnionKeyFrom(ps, k);
      FlatIffShown(ns, prefix, p);
      UnionKeyHasPrefix(ns, p.at, prefix, None, p.col);
    }
    assert UnionKeys(ps) == [] || UnionKeys(ps)[0] in UnionKeys(ps);
  }

  /** Some union of the schema has this key. */
  ghost predicate UnionKey(ns: seq<Node>, prefix: string, key: string) {
    exists a, col :: IsUnion(ns, a) && Shows(ns, a, prefix, None, col) && col.key == key
  }

  lemma UnionKeyIff(ns: seq<Node>, prefix: string, key: string)
    ensures key in UnionKeys(Flat(ns, prefix)) <==> UnionKey(ns, prefix, key)
  {
    var ps := Flat(ns, prefix);
    if key in UnionKeys(ps) {
      var p := UnionKeyFrom(ps, key);
      FlatIffShown(ns, prefix, p);
    }
    if a, col :| IsUnion(ns, a) && Shows(ns, a, prefix, None, col) && col.key == key {
      FlatIffShown(ns, prefix, Placed(a, col, true));
      UnionKeyListed(ps, Placed(a, col, true));
    }
  }

  /** The discriminators of a template are the keys of the unions of its schemas. */
  lemma TemplateDiscriminatorIff(s: Schemas, entity: Entity, base: BaseColumns, key: string)
    ensures key in TemplateFor(s, entity, base).discriminators <==>
            match entity
            case Device => UnionKey(s.device, DRIVER + ".", key)
            case Point => UnionKey(s.point, DRIVER + ".", key)
            case Action => UnionKey(s.action, DRIVER + ".", key)
            case DevicePoints => UnionKey(s.device, DEVICE + ".", key) || UnionKey(s.point, DRIVER + ".", key)
  {
    UnionKeyIff(s.device, DRIVER + ".", key);
    UnionKeyIff(s.device, DEVICE + ".", key);
    UnionKeyIff(s.point, DRIVER + ".", key);
    UnionKeyIff(s.action, DRIVER + ".", key);
  }

  ghost predicate SchemaHasUnion(s: Schemas, entity: Entity) {
    match entity
    case DevicePoints => HasUnion(s.device) || HasUnion(s.point)
    case Device => HasUnion(s.device)
    case Point => HasUnion(s.point)
    case Action => HasUnion(s.action)
  }

  lemma DiscriminatorsAreSpecial(s: Schemas, entity: Entity, base: BaseColumns)
    ensures TemplateFor(s, entity, base).discriminators != [] <==> SchemaHasUnion(s, entity)
    ensures forall k | k in TemplateFor(s, entity, base).discriminators :: Special(DRIVER, k) || Special(DEVICE, k)
  {
    KeysIffUnion(s.device, DEVICE + ".");
    KeysIffUnion(s.point, DRIVER + ".");
    KeysIffUnion(NodesOf(s, entity), DRIVER + ".");
  }

  // ---------------------------------------------------------------- imported rows

  /** `row` is what reading makes of the flat cells, in some order of its keys. */
  ghost predicate ReadAs(cells: Row, row: Row) {
    exists ks, ls :: Orders(cells, ks, ls) && row == FoldBoth(cells, ks, ls)
  }

  /** For every imported row the discriminator check succeeds exactly when the schema has no
      union at all, whatever the cells of the row say. */
  lemma DiscriminatorCheckIff(s: Schemas, entity: Entity, base: BaseColumns, idx: nat, cells: Row, row: Row)
    requires ReadAs(cells, row)
    ensures MissingDiscriminators(TemplateFor(s, entity, base).discriminators, idx, row) == [] <==> !SchemaHasUnion(s, entity)
  {
    var keys := TemplateFor(s, entity, base).discriminators;
    var ks, ls :| Orders(cells, ks, ls) && row == FoldBoth(cells, ks, ls);
    NoSpecialKeyLeft(cells, ks, ls);
    DiscriminatorsAreSpecial(s, entity, base);
    NothingMissingIff(keys, idx, row);
    assert keys == [] || keys[0] in keys;
  }

  /** A template whose schema contains a union accepts no imported row. */
  lemma UnionSchemaRejectsEverySheet(lib: Library, s: Schemas, entity: Entity, base: BaseColumns, sheet: seq<Row>, rows: seq<Row>)
    requires SchemaHasUnion(s, entity)
    requires |rows| == |sheet| && forall i | 0 <= i < |rows| :: ReadAs(sheet[i], rows[i])
    ensures ValidRows(lib, TemplateFor(s, entity, base), rows) == []
    ensures forall i: nat | i < |rows| :: Reported(lib, TemplateFor(s, entity, base), rows, i)
  {
    var t := TemplateFor(s, entity, base);
    forall i: nat | i < |rows| ensures Reported(lib, t, rows, i) && !EmittedValid(lib, t, rows, i) {
      DiscriminatorCheckIff(s, entity, base, i, sheet[i], rows[i]);
      EveryRowAccountedFor(lib, t, rows, i);
    }
    if ValidRows(lib, t, rows) != [] {
      var v := ValidRows(lib, t, rows)[0];
      ValidRowsComeFromInput(lib, t, rows, v);
      assert EmittedValid(lib, t, rows, v.index - 2);
      assert false;
    }
  }
}
