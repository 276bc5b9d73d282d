/** Flattening of a driver schema tree into template columns (`flatten_nodes`,
    `build_template`), and what the result means for imported sheets. */
module Schema {
  import opened Collections
  import opened Lexicographic
  import opened PathStore
  import opened CellRules
  import opened RowValidator

  datatype FieldDef = FieldDef(path: string, title: string, dataType: UiType, rules: Option<Rules>, conditions: seq<When>)

  datatype Node =
    | Field(def: FieldDef)
    | Group(children: seq<Node>)
    | Union(discriminator: string, cases: seq<Case>)

  datatype Case = Case(value: Json, children: seq<Node>)

  function FieldColumn(prefix: string, def: FieldDef, gate: Option<Gate>): Column {
    Column(prefix + def.path, def.title, def.dataType, def.rules, def.conditions, gate,
           if def.dataType.TEnum? then def.dataType.items else [])
  }

  function UnionColumn(prefix: string, discriminator: string): Column {
    Column(prefix + discriminator, discriminator, TString, None, [], None, [])
  }

  /** The column carries everything the schema says of its field, under the prefixed key. */
  ghost predicate ColumnOfField(col: Column, prefix: string, def: FieldDef, gate: Option<Gate>) {
    && |col.key| == |prefix| + |def.path| && prefix <= col.key && col.key[|prefix|..] == def.path
    && col.title == def.title && col.dataType == def.dataType && col.rules == def.rules
    && col.conditions == def.conditions && col.gate == gate
    && (def.dataType.TEnum? ==> col.localized == def.dataType.items) && (!def.dataType.TEnum? ==> col.localized == [])
  }

  /** A discriminator is an unconditional text column titled by its own name. */
  ghost predicate ColumnOfUnion(col: Column, prefix: string, discriminator: string) {
    && |col.key| == |prefix| + |discriminator| && prefix <= col.key && col.key[|prefix|..] == discriminator
    && col.title == discriminator && col.dataType.TString?
    && col.rules.None? && col.conditions == [] && col.gate.None? && col.localized == []
  }

  lemma KeyIs(key: string, prefix: string, rest: string)
    ensures key == prefix + rest <==> |key| == |prefix| + |rest| && prefix <= key && key[|prefix|..] == rest
  {
    if |key| == |prefix| + |rest| && prefix <= key && key[|prefix|..] == rest {
      assert key == key[..|prefix|] + key[|prefix|..];
    }
  }

  lemma FieldColumnIff(col: Column, prefix: string, def: FieldDef, gate: Option<Gate>)
    ensures col == FieldColumn(prefix, def, gate) <==> ColumnOfField(col, prefix, def, gate)
  {
    KeyIs(col.key, prefix, def.path);
  }

  lemma UnionColumnIff(col: Column, prefix: string, discriminator: string)
    ensures col == UnionColumn(prefix, discriminator) <==> ColumnOfUnion(col, prefix, discriminator)
  {
    KeyIs(col.key, prefix, discriminator);
  }

  // ---------------------------------------------------------------- addresses

  /** An address leads from a node list to a field or a union: the index of a node, then the
      address below a group, or the index of a union case and the address below that case. */
  ghost predicate Shows(ns: seq<Node>, a: seq<nat>, prefix: string, gate: Option<Gate>, col: Column)
    decreases |a|
  {
    a != [] && a[0] < |ns| &&
    match ns[a[0]]
    case Field(def) => |a| == 1 && ColumnOfField(col, prefix, def, gate)
    case Group(children) => |a| > 1 && Shows(children, a[1..], prefix, gate, col)
    case Union(d, cases) =>
      if |a| == 1 then ColumnOfUnion(col, prefix, d)
      else |a| > 2 && a[1] < |cases| &&
           Shows(cases[a[1]].children, a[2..], prefix, Some(Gate(prefix + d, cases[a[1]].value)), col)
  }

  ghost predicate IsUnion(ns: seq<Node>, a: seq<nat>)
    decreases |a|
  {
    a != [] && a[0] < |ns| &&
    match ns[a[0]]
    case Field(_) => false
    case Group(children) => |a| > 1 && IsUnion(children, a[1..])
    case Union(_, cases) =>
      |a| == 1 || (|a| > 2 && a[1] < |cases| && IsUnion(cases[a[1]].children, a[2..]))
  }

  // ---------------------------------------------------------------- the flat list

  /** A column with the address it comes from. */
  datatype Placed = Placed(at: seq<nat>, col: Column, union: bool)

  function Under(k: nat, ps: seq<Placed>): (r: seq<Placed>)
    ensures |r| == |ps| && forall i | 0 <= i < |ps| :: r[i] == ps[i].(at := [k] + ps[i].at)
  {
    seq(|ps|, i requires 0 <= i < |ps| => ps[i].(at := [k] + ps[i].at))
  }

  function FlatNode(n: Node, prefix: string, gate: Option<Gate>): seq<Placed>
    decreases n, 0
  {
    match n
    case Field(def) => [Placed([], FieldColumn(prefix, def, gate), false)]
    case Group(children) => FlatFrom(children, 0, prefix, gate)
    case Union(d, cases) => [Placed([], UnionColumn(prefix, d), true)] + FlatCases(cases, 0, prefix, prefix + d)
  }

  function FlatFrom(ns: seq<Node>, i: nat, prefix: string, gate: Option<Gate>): seq<Placed>
    requires i <= |ns|
    decreases ns, |ns| - i
  {
    if i == |ns| then [] else Under(i, FlatNode(ns[i], prefix, gate)) + FlatFrom(ns, i + 1, prefix, gate)
  }

  function FlatCases(cases: seq<Case>, c: nat, prefix: string, key: string): seq<Placed>
    requires c <= |cases|
    decreases cases, |cases| - c
  {
    if c == |cases| then [] else
      Under(c, FlatFrom(cases[c].children, 0, prefix, Some(Gate(key, cases[c].value))))
      + FlatCases(cases, c + 1, prefix, key)
  }

  function Flat(ns: seq<Node>, prefix: string): seq<Placed> {
    FlatFrom(ns, 0, prefix, None)
  }

  function ColumnsOf(ps: seq<Placed>): (r: seq<Column>)
    ensures |r| == |ps| && forall i | 0 <= i < |ps| :: r[i] == ps[i].col
  {
    seq(|ps|, i requires 0 <= i < |ps| => ps[i].col)
  }

  /** The keys of the union columns, in order. */
  function UnionKeys(ps: seq<Placed>): seq<string> {
    if ps == [] then [] else (if ps[0].union then [ps[0].col.key] else []) + UnionKeys(ps[1..])
  }

  // ---------------------------------------------------------------- sound and complete

  ghost predicate NodeShows(n: Node, a: seq<nat>, prefix: string, gate: Option<Gate>, col: Column, union: bool) {
    Shows([n], [0] + a, prefix, gate, col) && (union <==> IsUnion([n], [0] + a))
  }

  ghost predicate ListShows(ns: seq<Node>, a: seq<nat>, prefix: string, gate: Option<Gate>, col: Column, union: bool) {
    Shows(ns, a, prefix, gate, col) && (union <==> IsUnion(ns, a))
  }

  lemma ListShowsNode(ns: seq<Node>, i: nat, a: seq<nat>, prefix: string, gate: Option<Gate>, col: Column, union: bool)
    requires i < |ns|
    ensures ListShows(ns, [i] + a, prefix, gate, col, union) <==> NodeShows(ns[i], a, prefix, gate, col, union)
  {
    assert ([i] + a)[1..] == a == ([0] + a)[1..];
    assert |a| > 0 ==> ([i] + a)[2..] == ([0] + a)[2..];
  }

  lemma {:induction false} NodeIffShown(n: Node, prefix: string, gate: Option<Gate>, p: Placed)
    ensures p in FlatNode(n, prefix, gate) <==> NodeShows(n, p.at, prefix, gate, p.col, p.union)
    decreases n, 0
  {
    var a := p.at;
    assert ([0] + a)[1..] == a && (a != [] ==> ([0] + a)[2..] == a[1..]);
    match n
    case Field(def) => FieldColumnIff(p.col, prefix, def, gate);
    case Group(children) =>
      ListIffShown(children, 0, prefix, gate, p);
    case Union(d, cases) =>
      UnionColumnIff(p.col, prefix, d);
      CasesIffShown(cases, 0, prefix, prefix + d, p);
  }

  lemma {:induction false} ListIffShown(ns: seq<Node>, i: nat, prefix: string, gate: Option<Gate>, p: Placed)
    requires i <= |ns|
    ensures p in FlatFrom(ns, i, prefix, gate) <==>
      ListShows(ns, p.at, prefix, gate, p.col, p.union) && p.at[0] >= i
    decreases ns, |ns| - i
  {
    if i < |ns| {
      ListIffShown(ns, i + 1, prefix, gate, p);
      if p.at != [] && p.at[0] == i {
        var q := p.(at := p.at[1..]);
        assert p.at == [i] + q.at;
        NodeIffShown(ns[i], prefix, gate, q);
        ListShowsNode(ns, i, q.at, prefix, gate, p.col, p.union);
        UnderHas(i, FlatNode(ns[i], prefix, gate), p);
      } else {
        UnderHas(i, FlatNode(ns[i], prefix, gate), p);
      }
    }
  }

  lemma UnderHas(k: nat, ps: seq<Placed>, p: Placed)
    ensures p in Under(k, ps) <==> p.at != [] && p.at[0] == k && p.(at := p.at[1..]) in ps
  {
    if p in Under(k, ps) {
      var i :| 0 <= i < |ps| && Under(k, ps)[i] == p;
      assert p.at[1..] == ps[i].at;
      assert p.(at := p.at[1..]) == ps[i];
    }
    if p.at != [] && p.at[0] == k && p.(at := p.at[1..]) in ps {
      var i :| 0 <= i < |ps| && ps[i] == p.(at := p.at[1..]);
      assert [k] + p.at[1..] == p.at;
      assert Under(k, ps)[i] == p;
    }
  }

  ghost predicate CaseShows(cases: seq<Case>, a: seq<nat>, prefix: string, key: string, col: Column, union: bool) {
    |a| > 1 && a[0] < |cases| &&
    ListShows(cases[a[0]].children, a[1..], prefix, Some(Gate(key, cases[a[0]].value)), col, union)
  }

  lemma {:induction false} CasesIffShown(cases: seq<Case>, c: nat, prefix: string, key: string, p: Placed)
    requires c <= |cases|
    ensures p in FlatCases(cases, c, prefix, key) <==>
      CaseShows(cases, p.at, prefix, key, p.col, p.union) && p.at[0] >= c
    decreases cases, |cases| - c
  {
    if c < |cases| {
      CasesIffShown(cases, c + 1, prefix, key, p);
      var g := Some(Gate(key, cases[c].value));
      UnderHas(c, FlatFrom(cases[c].children, 0, prefix, g), p);
      if p.at != [] && p.at[0] == c {
        ListIffShown(cases[c].children, 0, prefix, g, p.(at := p.at[1..]));
      }
    }
  }

  /** The flat list holds exactly the fields and unions of the tree, each with its gate. */
  lemma FlatIffShown(ns: seq<Node>, prefix: string, p: Placed)
    ensures p in Flat(ns, prefix) <==>
      Shows(ns, p.at, prefix, None, p.col) && (p.union <==> IsUnion(ns, p.at))
  {
    ListIffShown(ns, 0, prefix, None, p);
  }

  // ---------------------------------------------------------------- preorder

  /** Addresses in order: an ancestor first, then by index. */
  ghost predicate InPreorder(ps: seq<Placed>) {
    forall i, j | 0 <= i < j < |ps| :: Before(ps[i].at, ps[j].at)
  }

  lemma UnderInPreorder(k: nat, ps: seq<Placed>)
    requires InPreorder(ps)
    ensures InPreorder(Under(k, ps))
  {
    var u := Under(k, ps);
    forall i, j | 0 <= i < j < |u| ensures Before(u[i].at, u[j].at) {
      assert u[i].at[1..] == ps[i].at && u[j].at[1..] == ps[j].at;
    }
  }

  lemma JoinInPreorder(k: nat, ps: seq<Placed>, qs: seq<Placed>)
    requires InPreorder(ps) && InPreorder(qs)
    requires forall p | p in ps :: p.at != [] && p.at[0] == k
    requires forall q | q in qs :: q.at != [] && q.at[0] > k
    ensures InPreorder(ps + qs)
  {
    var r := ps + qs;
    forall i, j | 0 <= i < j < |r| ensures Before(r[i].at, r[j].at) {
      if i < |ps| <= j { assert r[i] in ps && r[j] in qs; }
    }
  }

  lemma {:induction false} NodeInPreorder(n: Node, prefix: string, gate: Option<Gate>)
    ensures InPreorder(FlatNode(n, prefix, gate))
    decreases n, 0
  {
    match n
    case Field(_) =>
    case Group(children) => ListInPreorder(children, 0, prefix, gate);
    case Union(d, cases) =>
      CasesInPreorder(cases, 0, prefix, prefix + d);
      forall p | p in FlatCases(cases, 0, prefix, prefix + d) ensures p.at != [] {
        CasesIffShown(cases, 0, prefix, prefix + d, p);
      }
  }

  lemma {:induction false} ListInPreorder(ns: seq<Node>, i: nat, prefix: string, gate: Option<Gate>)
    requires i <= |ns|
    ensures InPreorder(FlatFrom(ns, i, prefix, gate))
    decreases ns, |ns| - i
  {
    if i < |ns| {
      var ps, qs := FlatNode(ns[i], prefix, gate), FlatFrom(ns, i + 1, prefix, gate);
      NodeInPreorder(ns[i], prefix, gate);
      UnderInPreorder(i, ps);
      ListInPreorder(ns, i + 1, prefix, gate);
      forall q | q in qs ensures q.at != [] && q.at[0] > i { ListIffShown(ns, i + 1, prefix, gate, q); }
      JoinInPreorder(i, Under(i, ps), qs);
    }
  }

  lemma {:induction false} CasesInPreorder(cases: seq<Case>, c: nat, prefix: string, key: string)
    requires c <= |cases|
    ensures InPreorder(FlatCases(cases, c, prefix, key))
    decreases cases, |cases| - c
  {
    if c < |cases| {
      var g := Some(Gate(key, cases[c].value));
      var ps, qs := FlatFrom(cases[c].children, 0, prefix, g), FlatCases(cases, c + 1, prefix, key);
      ListInPreorder(cases[c].children, 0, prefix, g);
      UnderInPreorder(c, ps);
      CasesInPreorder(cases, c + 1, prefix, key);
      forall q | q in qs ensures q.at != [] && q.at[0] > c { CasesIffShown(cases, c + 1, prefix, key, q); }
      JoinInPreorder(c, Under(c, ps), qs);
    }
  }

  // ---------------------------------------------------------------- gates

  /** The last union passed on the way down to `a`. */
  function Innermost(ns: seq<Node>, a: seq<nat>): Option<seq<nat>>
    decreases |a|
  {
    if a == [] || a[0] >= |ns| then None else
      match ns[a[0]]
      case Field(_) => None
      case Group(children) =>
        (match Innermost(children, a[1..])
         case Some(u) => Some([a[0]] + u)
         case None => None)
      case Union(_, cases) =>
        if |a| < 2 || a[1] >= |cases| then None else
          match Innermost(cases[a[1]].children, a[2..])
          case Some(u) => Some([a[0], a[1]] + u)
          case None => Some([a[0]])
  }

  ghost predicate InnermostUnion(ns: seq<Node>, a: seq<nat>, u: seq<nat>) {
    u < a && IsUnion(ns, u) && forall w | w < a && IsUnion(ns, w) :: w <= u
  }

  ghost predicate NoUnionAround(ns: seq<Node>, a: seq<nat>) {
    forall w | w < a :: !IsUnion(ns, w)
  }

  lemma PrefixTail(w: seq<nat>, a: seq<nat>, n: nat)
    requires n <= |w| <= |a| && w[..n] == a[..n]
    ensures w <= a <==> w[n..] <= a[n..]
    ensures w < a <==> w[n..] < a[n..]
  {
    assert w == w[..n] + w[n..] && a == a[..n] + a[n..];
  }

  lemma GroupInnermost(ns: seq<Node>, a: seq<nat>, w: seq<nat>)
    requires a != [] && a[0] < |ns| && ns[a[0]].Group? && w < a && IsUnion(ns, w)
    ensures |w| > 1 && w[0] == a[0] && w[1..] < a[1..] && IsUnion(ns[a[0]].children, w[1..])
  {
    PrefixTail(w, a, 1);
  }

  lemma {:induction false} InnermostFound(ns: seq<Node>, a: seq<nat>, prefix: string, gate: Option<Gate>, col: Column)
    requires Shows(ns, a, prefix, gate, col)
    ensures match Innermost(ns, a)
      case Some(u) => u < a && IsUnion(ns, u)
      case None => true
    decreases |a|
  {
    match ns[a[0]]
    case Field(_) =>
    case Group(children) =>
      InnermostFound(children, a[1..], prefix, gate, col);
      if Innermost(children, a[1..]).Some? {
        var u := [a[0]] + Innermost(children, a[1..]).value;
        assert u[1..] == Innermost(children, a[1..]).value;
        PrefixTail(u, a, 1);
      }
    case Union(d, cases) =>
      if |a| > 2 {
        var inner := Innermost(cases[a[1]].children, a[2..]);
        InnermostFound(cases[a[1]].children, a[2..], prefix, Some(Gate(prefix + d, cases[a[1]].value)), col);
        if inner.Some? {
          var u := [a[0], a[1]] + inner.value;
          assert u[2..] == inner.value;
          PrefixTail(u, a, 2);
        }
      }
  }

  lemma {:induction false} InnermostIsDeepest(ns: seq<Node>, a: seq<nat>, prefix: string, gate: Option<Gate>, col: Column, w: seq<nat>)
    requires Shows(ns, a, prefix, gate, col) && w < a && IsUnion(ns, w)
    ensures Innermost(ns, a).Some? && w <= Innermost(ns, a).value
    decreases |a|
  {
    match ns[a[0]]
    case Field(_) =>
    case Group(children) =>
      GroupInnermost(ns, a, w);
      InnermostIsDeepest(children, a[1..], prefix, gate, col, w[1..]);
      var u := Innermost(ns, a).value;
      assert u[1..] == Innermost(children, a[1..]).value;
      PrefixTail(w, u, 1);
    case Union(d, cases) =>
      if |w| > 2 {
        PrefixTail(w, a, 2);
        InnermostIsDeepest(cases[a[1]].children, a[2..], prefix, Some(Gate(prefix + d, cases[a[1]].value)), col, w[2..]);
        var u := Innermost(ns, a).value;
        assert u[2..] == Innermost(cases[a[1]].children, a[2..]).value;
        PrefixTail(w, u, 2);
      }
  }

  lemma {:induction false} GateNamesInnermost(ns: seq<Node>, a: seq<nat>, prefix: string, gate: Option<Gate>, col: Column)
    requires Shows(ns, a, prefix, gate, col) && !IsUnion(ns, a)
    ensures match Innermost(ns, a)
      case None => col.gate == gate
      case Some(u) => col.gate.Some? && exists ucol :: Shows(ns, u, prefix, gate, ucol) && ucol.key == col.gate.value.discriminator
    decreases |a|
  {
    match ns[a[0]]
    case Field(_) =>
    case Group(children) =>
      GateNamesInnermost(children, a[1..], prefix, gate, col);
      var inner := Innermost(children, a[1..]);
      if inner.Some? {
        var u := [a[0]] + inner.value;
        assert u[1..] == inner.value;
        var ucol :| Shows(children, inner.value, prefix, gate, ucol) && ucol.key == col.gate.value.discriminator;
        assert Shows(ns, u, prefix, gate, ucol);
      }
    case Union(d, cases) =>
      var g := Some(Gate(prefix + d, cases[a[1]].value));
      GateNamesInnermost(cases[a[1]].children, a[2..], prefix, g, col);
      var inner := Innermost(cases[a[1]].children, a[2..]);
      if inner.Some? {
        var u := [a[0], a[1]] + inner.value;
        assert u[2..] == inner.value;
        var ucol :| Shows(cases[a[1]].children, inner.value, prefix, g, ucol) && ucol.key == col.gate.value.discriminator;
        assert Shows(ns, u, prefix, gate, ucol);
      } else {
        assert Shows(ns, [a[0]], prefix, gate, UnionColumn(prefix, d));
      }
  }

  /** A field column is gated exactly when a union encloses it; the gate then names the
      innermost such union, whose own column stands earlier in the list. */
  lemma GateComesAfterItsUnion(ns: seq<Node>, prefix: string, i: nat)
    requires i < |Flat(ns, prefix)| && !Flat(ns, prefix)[i].union
    ensures
      var ps := Flat(ns, prefix);
      var p := ps[i];
      if p.col.gate.None? then NoUnionAround(ns, p.at)
      else exists j | 0 <= j < i :: ps[j].union && ps[j].col.key == p.col.gate.value.discriminator
                                 && InnermostUnion(ns, p.at, ps[j].at)
  {
    var ps := Flat(ns, prefix);
    var p := ps[i];
    assert p in ps;
    FlatIffShown(ns, prefix, p);
    GateNamesInnermost(ns, p.at, prefix, None, p.col);
    InnermostFound(ns, p.at, prefix, None, p.col);
    forall w | w < p.at && IsUnion(ns, w) ensures Innermost(ns, p.at).Some? && w <= Innermost(ns, p.at).value {
      InnermostIsDeepest(ns, p.at, prefix, None, p.col, w);
    }
    if Innermost(ns, p.at).Some? {
      var u := Innermost(ns, p.at).value;
      var ucol :| Shows(ns, u, prefix, None, ucol) && ucol.key == p.col.gate.value.discriminator;
      var q := Placed(u, ucol, true);
      FlatIffShown(ns, prefix, q);
      var j :| 0 <= j < |ps| && ps[j] == q;
      ListInPreorder(ns, 0, prefix, None);
      PrefixIsBefore(u, p.at);
      BeforeIsOneWay(u, p.at);
    }
  }

  // ---------------------------------------------------------------- flatten_nodes

  lemma {:induction false} UnionKeysAppend(ps: seq<Placed>, qs: seq<Placed>)
    ensures UnionKeys(ps + qs) == UnionKeys(ps) + UnionKeys(qs)
  {
    if ps == [] {
      assert ps + qs == qs;
    } else {
      assert (ps + qs)[1..] == ps[1..] + qs;
      UnionKeysAppend(ps[1..], qs);
    }
  }

  lemma {:induction false} UnionKeysUnder(k: nat, ps: seq<Placed>)
    ensures UnionKeys(Under(k, ps)) == UnionKeys(ps)
  {
    if ps != [] {
      assert Under(k, ps)[1..] == Under(k, ps[1..]);
      UnionKeysUnder(k, ps[1..]);
    }
  }

  lemma JoinUnder(k: nat, ps: seq<Placed>, qs: seq<Placed>)
    ensures ColumnsOf(Under(k, ps) + qs) == ColumnsOf(ps) + ColumnsOf(qs)
    ensures UnionKeys(Under(k, ps) + qs) == UnionKeys(ps) + UnionKeys(qs)
  {
    UnionKeysUnder(k, ps);
    UnionKeysAppend(Under(k, ps), qs);
  }

  lemma UnionFirst(col: Column, ps: seq<Placed>)
    ensures ColumnsOf([Placed([], col, true)] + ps) == [col] + ColumnsOf(ps)
    ensures UnionKeys([Placed([], col, true)] + ps) == [col.key] + UnionKeys(ps)
  {
    assert ([Placed([], col, true)] + ps)[1..] == ps;
  }

  lemma AppendStep<T>(out: seq<T>, step: seq<T>, rest: seq<T>, all: seq<T>)
    requires out + (step + rest) == all
    ensures (out + step) + rest == all
  {
    assert (out + step) + rest == out + (step + rest);
  }

  /** The two vectors that flattening appends to. */
  class Output {
    var columns: seq<Column>
    var discriminators: seq<string>

    constructor ()
      ensures columns == [] && discriminators == []
    {
      columns, discriminators := [], [];
    }

    method FlattenNodes(nodes: seq<Node>, prefix: string, gate: Option<Gate>)
      modifies this
      ensures columns == old(columns) + ColumnsOf(FlatFrom(nodes, 0, prefix, gate))
      ensures discriminators == old(discriminators) + UnionKeys(FlatFrom(nodes, 0, prefix, gate))
      decreases nodes, 1
    {
      var i := 0;
      ghost var cs := columns + ColumnsOf(FlatFrom(nodes, 0, prefix, gate));
      ghost var ds := discriminators + UnionKeys(FlatFrom(nodes, 0, prefix, gate));
      while i < |nodes|
        invariant 0 <= i <= |nodes|
        invariant columns + ColumnsOf(FlatFrom(nodes, i, prefix, gate)) == cs
        invariant discriminators + UnionKeys(FlatFrom(nodes, i, prefix, gate)) == ds
      {
        ghost var ps, rest := FlatNode(nodes[i], prefix, gate), FlatFrom(nodes, i + 1, prefix, gate);
        JoinUnder(i, ps, rest);
        AppendStep(columns, ColumnsOf(ps), ColumnsOf(rest), cs);
        AppendStep(discriminators, UnionKeys(ps), UnionKeys(rest), ds);
        FlattenNode(nodes[i], prefix, gate);
        i := i + 1;
      }
    }

    method FlattenNode(n: Node, prefix: string, gate: Option<Gate>)
      modifies this
      ensures columns == old(columns) + ColumnsOf(FlatNode(n, prefix, gate))
      ensures discriminators == old(discriminators) + UnionKeys(FlatNode(n, prefix, gate))
      decreases n, 0
    {
      match n
      case Field(def) =>
        columns := columns + [FieldColumn(prefix, def, gate)];
      case Group(children) =>
        FlattenNodes(children, prefix, gate);
      case Union(d, cases) =>
        var key := prefix + d;
        ghost var ps := FlatCases(cases, 0, prefix, key);
        UnionFirst(UnionColumn(prefix, d), ps);
        AppendStep(columns, [UnionColumn(prefix, d)], ColumnsOf(ps), columns + ([UnionColumn(prefix, d)] + ColumnsOf(ps)));
        AppendStep(discriminators, [key], UnionKeys(ps), discriminators + ([key] + UnionKeys(ps)));
        discriminators := discriminators + [key];
        columns := columns + [UnionColumn(prefix, d)];
        FlattenCases(cases, prefix, key);
    }

    method FlattenCases(cases: seq<Case>, prefix: string, key: string)
      modifies this
      ensures columns == old(columns) + ColumnsOf(FlatCases(cases, 0, prefix, key))
      ensures discriminators == old(discriminators) + UnionKeys(FlatCases(cases, 0, prefix, key))
      decreases cases, 1
    {
      var c := 0;
      ghost var cs := columns + ColumnsOf(FlatCases(cases, 0, prefix, key));
      ghost var ds := discriminators + UnionKeys(FlatCases(cases, 0, prefix, key));
      while c < |cases|
        invariant 0 <= c <= |cases|
        invariant columns + ColumnsOf(FlatCases(cases, c, prefix, key)) == cs
        invariant discriminators + UnionKeys(FlatCases(cases, c, prefix, key)) == ds
      {
        var gate := Some(Gate(key, cases[c].value));
        ghost var ps, rest := FlatFrom(cases[c].children, 0, prefix, gate), FlatCases(cases, c + 1, prefix, key);
        JoinUnder(c, ps, rest);
        AppendStep(columns, ColumnsOf(ps), ColumnsOf(rest), cs);
        AppendStep(discriminators, UnionKeys(ps), UnionKeys(rest), ds);
        FlattenNodes(cases[c].children, prefix, gate);
        c := c + 1;
      }
    }
  }
}
