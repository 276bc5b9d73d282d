/** Nested JSON objects addressed by dotted paths: the store under the template importer
    (`ng-gateway-sdk/src/ui_schema.rs`).  A path is the list of segments of a dotted key;
    two paths are comparable when one is a segment prefix of the other. */
module PathStore {
  import opened Collections

  datatype Number = Int(i: int) | Float(r: real)

  datatype Json =
    | Null
    | Bool(b: bool)
    | Num(n: Number)
    | Str(s: string)
    | Arr(elems: seq<Json>)
    | Obj(fields: Row)

  type Row = map<string, Json>

  ghost predicate Comparable(p: seq<string>, q: seq<string>) {
    p <= q || q <= p
  }

  // ---------------------------------------------------------------- operations on values

  function Get(m: Row, p: seq<string>): Option<Json>
    requires p != []
    decreases |p|
  {
    if p[0] !in m then None
    else if |p| == 1 then Some(m[p[0]])
    else match m[p[0]]
      case Obj(f) => Get(f, p[1..])
      case _ => None
  }

  /** The object under a key; anything else counts as an empty object and will be replaced. */
  function ChildMap(m: Row, k: string): Row {
    if k in m && m[k].Obj? then m[k].fields else map[]
  }

  function Insert(m: Row, p: seq<string>, v: Json): Row
    requires p != []
    decreases |p|
  {
    if |p| == 1 then m[p[0] := v]
    else m[p[0] := Obj(Insert(ChildMap(m, p[0]), p[1..], v))]
  }

  function Remove(m: Row, p: seq<string>): Row
    requires p != []
    decreases |p|
  {
    if |p| == 1 then m - {p[0]}
    else if p[0] in m && m[p[0]].Obj? then m[p[0] := Obj(Remove(m[p[0]].fields, p[1..]))]
    else m
  }

  /** The object stored at `p`, or an empty one. */
  function MapAt(m: Row, p: seq<string>): Row {
    if p == [] then m else
      match Get(m, p)
      case Some(Obj(f)) => f
      case _ => map[]
  }

  // ---------------------------------------------------------------- reading after writing

  lemma {:induction false} GetInsertSame(m: Row, p: seq<string>, v: Json)
    requires p != []
    ensures Get(Insert(m, p, v), p) == Some(v)
    decreases |p|
  {
    if |p| > 1 { GetInsertSame(ChildMap(m, p[0]), p[1..], v); }
  }

  lemma {:induction false} GetInsertApart(m: Row, p: seq<string>, v: Json, q: seq<string>)
    requires p != [] && q != [] && !Comparable(p, q)
    ensures Get(Insert(m, p, v), q) == Get(m, q)
    decreases |p|
  {
    if |p| > 1 && |q| > 1 && p[0] == q[0] {
      assert !Comparable(p[1..], q[1..]) by { TailComparable(p, q); }
      GetInsertApart(ChildMap(m, p[0]), p[1..], v, q[1..]);
      GetEmpty(q[1..]);
    }
  }

  lemma TailComparable(p: seq<string>, q: seq<string>)
    requires p != [] && q != [] && p[0] == q[0]
    ensures Comparable(p, q) <==> Comparable(p[1..], q[1..])
  {
    assert p == [p[0]] + p[1..] && q == [q[0]] + q[1..];
  }

  lemma GetEmpty(p: seq<string>)
    requires p != []
    ensures Get(map[], p) == None
  {
  }

  lemma MapAtUnder(m: Row, q: seq<string>)
    requires |q| > 1
    ensures MapAt(m, q) == MapAt(ChildMap(m, q[0]), q[1..])
  {
    GetEmpty(q[1..]);
  }

  lemma {:induction false} GetInsertBelow(m: Row, p: seq<string>, v: Json, r: seq<string>)
    requires p != [] && r != []
    ensures Get(Insert(m, p, v), p + r) == if v.Obj? then Get(v.fields, r) else None
    decreases |p|
  {
    assert (p + r)[1..] == p[1..] + r;
    if |p| > 1 { GetInsertBelow(ChildMap(m, p[0]), p[1..], v, r); }
    else { assert (p + r)[1..] == r; }
  }

  lemma {:induction false} GetInsertAbove(m: Row, q: seq<string>, r: seq<string>, v: Json)
    requires q != [] && r != []
    ensures Get(Insert(m, q + r, v), q) == Some(Obj(Insert(MapAt(m, q), r, v)))
    decreases |q|
  {
    var p := q + r;
    assert p[0] == q[0] && p[1..] == q[1..] + r;
    if |q| > 1 {
      GetInsertAbove(ChildMap(m, q[0]), q[1..], r, v);
      MapAtUnder(m, q);
    } else {
      assert p[1..] == r;
    }
  }

  /** Lookup after insertion, for every path: untouched where incomparable, the new value at
      its own path, inside the new value below it, and an object holding it above it. */
  lemma GetInsert(m: Row, p: seq<string>, v: Json, q: seq<string>)
    requires p != [] && q != []
    ensures Get(Insert(m, p, v), q) ==
      if p == q then Some(v)
      else if p <= q then (if v.Obj? then Get(v.fields, q[|p|..]) else None)
      else if q <= p then Some(Obj(Insert(MapAt(m, q), p[|q|..], v)))
      else Get(m, q)
  {
    if p == q { GetInsertSame(m, p, v); }
    else if p <= q { assert q == p + q[|p|..]; GetInsertBelow(m, p, v, q[|p|..]); }
    else if q <= p { assert p == q + p[|q|..]; GetInsertAbove(m, q, p[|q|..], v); }
    else { GetInsertApart(m, p, v, q); }
  }

  lemma {:induction false} GetSplitsPath(m: Row, q: seq<string>, r: seq<string>)
    requires q != [] && r != []
    ensures Get(m, q + r) == Get(MapAt(m, q), r)
    decreases |q|
  {
    assert (q + r)[1..] == q[1..] + r;
    GetEmpty(r);
    if |q| > 1 && q[0] in m && m[q[0]].Obj? { GetSplitsPath(m[q[0]].fields, q[1..], r); }
    else { assert |q| == 1 ==> (q + r)[1..] == r; }
  }

  lemma {:induction false} GetRemoveSame(m: Row, p: seq<string>)
    requires p != []
    ensures Get(Remove(m, p), p) == None
    decreases |p|
  {
    if |p| > 1 && p[0] in m && m[p[0]].Obj? { GetRemoveSame(m[p[0]].fields, p[1..]); }
  }

  lemma {:induction false} GetRemoveApart(m: Row, p: seq<string>, q: seq<string>)
    requires p != [] && q != [] && !Comparable(p, q)
    ensures Get(Remove(m, p), q) == Get(m, q)
    decreases |p|
  {
    if |p| > 1 && |q| > 1 && p[0] == q[0] && p[0] in m && m[p[0]].Obj? {
      TailComparable(p, q);
      GetRemoveApart(m[p[0]].fields, p[1..], q[1..]);
    }
  }

  /** A value without what is at a path inside it. */
  function Lacking(v: Option<Json>, r: seq<string>): Option<Json>
    requires r != []
  {
    if v.Some? && v.value.Obj? then Some(Obj(Remove(v.value.fields, r))) else v
  }

  /** What lookup finds after removal, for every path: nothing at or below the path, everything as
      before off the path, and above it the value without the path. */
  lemma GetRemove(m: Row, p: seq<string>, q: seq<string>)
    requires p != [] && q != []
    ensures p <= q ==> Get(Remove(m, p), q) == None
    ensures !Comparable(p, q) ==> Get(Remove(m, p), q) == Get(m, q)
    ensures q < p ==> Get(Remove(m, p), q) == Lacking(Get(m, q), p[|q|..])
  {
    if p <= q {
      GetRemoveSame(m, p);
      if p != q {
        assert q == p + q[|p|..];
        GetSplitsPath(Remove(m, p), p, q[|p|..]);
        GetEmpty(q[|p|..]);
      }
    } else if q <= p {
      GetRemoveAbove(m, p, q);
    } else {
      GetRemoveApart(m, p, q);
    }
  }

  lemma {:induction false} GetRemoveAbove(m: Row, p: seq<string>, q: seq<string>)
    requires q != [] && q < p
    ensures Get(Remove(m, p), q) == Lacking(Get(m, q), p[|q|..])
    decreases |q|
  {
    if |q| > 1 && p[0] in m && m[p[0]].Obj? {
      assert q[1..] < p[1..] && p[1..][|q[1..]|..] == p[|q|..];
      GetRemoveAbove(m[p[0]].fields, p[1..], q[1..]);
    }
  }

  // ---------------------------------------------------------------- algebra of updates

  /** Writing the value that is already there changes nothing. */
  lemma {:induction false} InsertPresent(m: Row, p: seq<string>, v: Json)
    requires p != [] && Get(m, p) == Some(v)
    ensures Insert(m, p, v) == m
    decreases |p|
  {
    if |p| > 1 { InsertPresent(m[p[0]].fields, p[1..], v); }
  }

  /** The importer skips equal values; that is the same as always writing. */
  function UpdateIfChanged(m: Row, p: seq<string>, v: Json): (r: Row)
    requires p != []
    ensures r == Insert(m, p, v)
  {
    if Get(m, p) == Some(v) then
      InsertPresent(m, p, v);
      m
    else
      Insert(m, p, v)
  }

  /** A write at `p` erases any earlier write at or below `p`. */
  lemma {:induction false} InsertOverwrites(m: Row, p: seq<string>, q: seq<string>, v: Json, w: Json)
    requires p != [] && p <= q
    ensures Insert(Insert(m, q, w), p, v) == Insert(m, p, v)
    decreases |p|
  {
    if |p| > 1 {
      assert p[1..] <= q[1..];
      InsertOverwrites(ChildMap(m, p[0]), p[1..], q[1..], v, w);
    }
  }

  /** What an insertion puts under the first segment. */
  function HeadValue(m: Row, p: seq<string>, v: Json): Json
    requires p != []
  {
    if |p| == 1 then v else Obj(Insert(ChildMap(m, p[0]), p[1..], v))
  }

  lemma InsertIsHeadUpdate(m: Row, p: seq<string>, v: Json)
    requires p != []
    ensures Insert(m, p, v) == m[p[0] := HeadValue(m, p, v)]
  {
  }

  lemma UpdatesCommute(m: Row, a: string, x: Json, b: string, y: Json)
    requires a != b
    ensures m[a := x][b := y] == m[b := y][a := x]
  {
  }

  lemma InsertsCommuteAtHead(m: Row, p: seq<string>, v: Json, q: seq<string>, w: Json)
    requires p != [] && q != [] && p[0] != q[0]
    ensures Insert(Insert(m, p, v), q, w) == Insert(Insert(m, q, w), p, v)
  {
    InsertIsHeadUpdate(m, p, v);
    InsertIsHeadUpdate(m, q, w);
    var mp, mq := Insert(m, p, v), Insert(m, q, w);
    assert HeadValue(mp, q, w) == HeadValue(m, q, w);
    assert HeadValue(mq, p, v) == HeadValue(m, p, v);
    InsertIsHeadUpdate(mp, q, w);
    InsertIsHeadUpdate(mq, p, v);
    UpdatesCommute(m, p[0], HeadValue(m, p, v), q[0], HeadValue(m, q, w));
  }

  lemma InsertTwiceUnder(m: Row, p: seq<string>, v: Json, q: seq<string>, w: Json)
    requires |p| > 1 && |q| > 1 && p[0] == q[0]
    ensures Insert(Insert(m, p, v), q, w) == m[p[0] := Obj(Insert(Insert(ChildMap(m, p[0]), p[1..], v), q[1..], w))]
  {
    InsertIsHeadUpdate(m, p, v);
    InsertIsHeadUpdate(Insert(m, p, v), q, w);
  }

  lemma {:induction false} InsertsCommute(m: Row, p: seq<string>, v: Json, q: seq<string>, w: Json)
    requires p != [] && q != [] && !Comparable(p, q)
    ensures Insert(Insert(m, p, v), q, w) == Insert(Insert(m, q, w), p, v)
    decreases |p|
  {
    if p[0] == q[0] {
      TailComparable(p, q);
      InsertTwiceUnder(m, p, v, q, w);
      InsertTwiceUnder(m, q, w, p, v);
      InsertsCommute(ChildMap(m, p[0]), p[1..], v, q[1..], w);
    } else {
      InsertsCommuteAtHead(m, p, v, q, w);
    }
  }

  lemma {:induction false} RemoveAbsent(m: Row, p: seq<string>)
    requires p != [] && Get(m, p) == None
    ensures Remove(m, p) == m
    decreases |p|
  {
    if |p| > 1 && p[0] in m && m[p[0]].Obj? { RemoveAbsent(m[p[0]].fields, p[1..]); }
  }

  lemma {:induction false} RemovesCommute(m: Row, p: seq<string>, q: seq<string>)
    requires p != [] && q != [] && !Comparable(p, q)
    ensures Remove(Remove(m, p), q) == Remove(Remove(m, q), p)
    decreases |p|
  {
    if p[0] == q[0] {
      TailComparable(p, q);
      if p[0] in m && m[p[0]].Obj? { RemovesCommute(m[p[0]].fields, p[1..], q[1..]); }
    }
  }

  /** The next insertion hides an earlier removal. */
  lemma {:induction false} InsertAfterRemove(m: Row, p: seq<string>, v: Json)
    requires p != []
    ensures Insert(Remove(m, p), p, v) == Insert(m, p, v)
    decreases |p|
  {
    if |p| > 1 && p[0] in m && m[p[0]].Obj? { InsertAfterRemove(m[p[0]].fields, p[1..], v); }
  }

  lemma {:induction false} InsertRemoveCommute(m: Row, p: seq<string>, v: Json, q: seq<string>)
    requires p != [] && q != [] && !Comparable(p, q)
    ensures Remove(Insert(m, p, v), q) == Insert(Remove(m, q), p, v)
    decreases |p|
  {
    if p[0] == q[0] {
      TailComparable(p, q);
      InsertRemoveCommute(ChildMap(m, p[0]), p[1..], v, q[1..]);
      ChildAfterRemove(m, q);
      InsertIsHeadUpdate(m, p, v);
      InsertIsHeadUpdate(Remove(m, q), p, v);
    } else {
      InsertRemoveCommuteAtHead(m, p, v, q);
    }
  }

  lemma ChildAfterRemove(m: Row, q: seq<string>)
    requires |q| > 1
    ensures ChildMap(Remove(m, q), q[0]) == Remove(ChildMap(m, q[0]), q[1..])
  {
    RemoveEmpty(q[1..]);
  }

  lemma InsertRemoveCommuteAtHead(m: Row, p: seq<string>, v: Json, q: seq<string>)
    requires p != [] && q != [] && p[0] != q[0]
    ensures Remove(Insert(m, p, v), q) == Insert(Remove(m, q), p, v)
  {
    InsertIsHeadUpdate(m, p, v);
    assert HeadValue(Remove(m, q), p, v) == HeadValue(m, p, v);
    InsertIsHeadUpdate(Remove(m, q), p, v);
  }

  lemma RemoveEmpty(p: seq<string>)
    requires p != []
    ensures Remove(map[], p) == map[]
  {
  }

  // ---------------------------------------------------------------- dotted keys

  function Split(s: string): (p: seq<string>)
    ensures p != []
  {
    if s == "" then [""]
    else if s[0] == '.' then [""] + Split(s[1..])
    else
      var r := Split(s[1..]);
      [[s[0]] + r[0]] + r[1..]
  }

  function Join(p: seq<string>): string
    requires p != []
  {
    if |p| == 1 then p[0] else p[0] + "." + Join(p[1..])
  }

  lemma {:induction false} JoinSplit(s: string)
    ensures Join(Split(s)) == s
  {
    if s != "" {
      JoinSplit(s[1..]);
      var r := Split(s[1..]);
      if s[0] == '.' { assert Split(s)[1..] == r; }
      else { assert Split(s)[1..] == r[1..]; assert s == [s[0]] + s[1..]; }
    }
  }

  /** A key without dots is one segment. */
  lemma {:induction false} PlainSplit(s: string)
    requires '.' !in s
    ensures Split(s) == [s]
  {
    if s != "" {
      PlainSplit(s[1..]);
      assert [s[0]] + s[1..] == s;
    }
  }

  /** Different keys are different paths. */
  lemma SplitIsInjective(s: string, t: string)
    requires Split(s) == Split(t)
    ensures s == t
  {
    JoinSplit(s);
    JoinSplit(t);
  }

  lemma {:induction false} SplitAtDot(a: string, b: string)
    ensures Split(a + "." + b) == Split(a) + Split(b)
  {
    if a == "" {
      assert a + "." + b == "." + b && ("." + b)[1..] == b;
    } else {
      assert (a + "." + b)[1..] == a[1..] + "." + b;
      SplitAtDot(a[1..], b);
    }
  }

  // ---------------------------------------------------------------- updates in place

  lemma {:induction false} InsertAtEnd(m: Row, p: seq<string>, k: string, v: Json)
    ensures Insert(m, p + [k], v) == WriteAt(m, p, MapAt(m, p)[k := v])
    decreases |p|
  {
    if p == [] {
      assert p + [k] == [k];
    } else {
      assert (p + [k])[1..] == p[1..] + [k];
      InsertAtEnd(ChildMap(m, p[0]), p[1..], k, v);
      if |p| > 1 { GetEmpty(p[1..]); }
    }
  }

  /** Replace the object at `p`, where `[]` is the row itself. */
  function WriteAt(m: Row, p: seq<string>, f: Row): Row {
    if p == [] then f else Insert(m, p, Obj(f))
  }

  lemma {:induction false} EnsureThenInsert(m: Row, q: seq<string>, r: seq<string>, v: Json)
    requires q != [] && r != []
    ensures Insert(Insert(m, q, Obj(MapAt(m, q))), q + r, v) == Insert(m, q + r, v)
    decreases |q|
  {
    var p := q + r;
    assert p[0] == q[0] && p[1..] == q[1..] + r;
    if |q| > 1 {
      EnsureThenInsert(ChildMap(m, q[0]), q[1..], r, v);
      MapAtUnder(m, q);
      InsertTwiceUnder(m, q, Obj(MapAt(m, q)), p, v);
    } else {
      assert p[1..] == r;
      InsertIsHeadUpdate(m, p, v);
    }
  }

  /** A row that is updated in place.  The mutable reference that walks down the row is
      modelled by the path it has reached and a copy of the object it points to. */
  class RowCell {
    var fields: Row

    constructor (row: Row)
      ensures fields == row
    {
      fields := row;
    }

    /** Make sure an object sits under `k` of the object reached at `at`. */
    method EnsureChildMap(at: seq<string>, current: Row, k: string) returns (child: Row)
      requires current == MapAt(fields, at)
      modifies this
      ensures child == MapAt(old(fields), at + [k])
      ensures fields == Insert(old(fields), at + [k], Obj(child))
    {
      child := ChildMap(current, k);
      InsertAtEnd(fields, at, k, Obj(child));
      if at == [] {
        assert at + [k] == [k];
      } else {
        GetSplitsPath(fields, at, [k]);
      }
      fields := WriteAt(fields, at, current[k := Obj(child)]);
    }

    method InsertNested(path: string, v: Json)
      modifies this
      ensures fields == Insert(old(fields), Split(path), v)
    {
      var parts := Split(path);
      var current := fields;
      var i := 0;
      while i < |parts| - 1
        invariant 0 <= i < |parts|
        invariant current == MapAt(fields, parts[..i])
        invariant Insert(fields, parts, v) == Insert(old(fields), parts, v)
      {
        ghost var before := fields;
        assert parts[..i] + [parts[i]] == parts[..i + 1];
        current := EnsureChildMap(parts[..i], current, parts[i]);
        assert parts == parts[..i + 1] + parts[i + 1..];
        EnsureThenInsert(before, parts[..i + 1], parts[i + 1..], v);
        GetInsertSame(before, parts[..i + 1], Obj(current));
        i := i + 1;
      }
      assert parts[..i] + [parts[i]] == parts;
      InsertAtEnd(fields, parts[..i], parts[i], v);
      fields := WriteAt(fields, parts[..i], current[parts[i] := v]);
    }

    method RemoveByPath(path: string) returns (removed: Option<Json>)
      modifies this
      ensures fields == Remove(old(fields), Split(path))
      ensures removed == Get(old(fields), Split(path))
    {
      var parts := Split(path);
      var current := fields;
      var i := 0;
      while i < |parts| - 1
        invariant 0 <= i < |parts|
        invariant fields == old(fields)
        invariant i > 0 ==> Get(fields, parts[..i]) == Some(Obj(current))
        invariant i == 0 ==> current == fields
      {
        assert parts[..i] + [parts[i]] == parts[..i + 1];
        if i > 0 { GetSplitsPath(fields, parts[..i], [parts[i]]); }
        assert parts == parts[..i + 1] + parts[i + 1..];
        if parts[i] !in current || !current[parts[i]].Obj? {
          GetSplitsPath(fields, parts[..i + 1], parts[i + 1..]);
          GetEmpty(parts[i + 1..]);
          RemoveAbsent(fields, parts);
          return None;
        }
        current := current[parts[i]].fields;
        i := i + 1;
      }
      assert parts[..i] + [parts[i]] == parts;
      if i > 0 { GetSplitsPath(fields, parts[..i], [parts[i]]); }
      removed := if parts[i] in current then Some(current[parts[i]]) else None;
      RemoveAtEnd(fields, parts[..i], parts[i]);
      fields := WriteAt(fields, parts[..i], current - {parts[i]});
    }
  }

  lemma {:induction false} RemoveAtEnd(m: Row, p: seq<string>, k: string)
    requires p == [] || (Get(m, p).Some? && Get(m, p).value.Obj?)
    ensures Remove(m, p + [k]) == WriteAt(m, p, MapAt(m, p) - {k})
    decreases |p|
  {
    if p == [] {
      assert p + [k] == [k];
    } else {
      assert (p + [k])[1..] == p[1..] + [k];
      RemoveAtEnd(ChildMap(m, p[0]), p[1..], k);
    }
  }
}
