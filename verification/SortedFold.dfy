/** Folding in the order the JSON map yields its keys by default: sorted. Then what every flat key
    reads afterwards is its own value with the longer keys under it written in. */
module SortedFold {
  import opened Collections
  import opened PathStore
  import opened FoldPrefixes
  import opened Lexicographic

  // ---------------------------------------------------------------- sorted keys

  ghost predicate SortedListing(obj: Row, root: string, ks: seq<string>) {
    Listing(obj, root, ks) && forall i, j | 0 <= i < j < |ks| :: TextBefore(ks[i], ks[j])
  }

  lemma {:induction false} JoinAppends(p: seq<string>, q: seq<string>)
    requires p != [] && q != []
    ensures Join(p + q) == Join(p) + "." + Join(q)
  {
    assert (p + q)[0] == p[0] && (p + q)[1..] == p[1..] + q;
    if |p| == 1 {
      assert p[1..] + q == q;
    } else {
      JoinAppends(p[1..], q);
    }
  }

  /** A key above another is a prefix of it, so it is visited first. */
  lemma AboveIsFirst(obj: Row, root: string, k: string, l: string)
    requires k in obj && l in obj && Special(root, k) && Special(root, l)
    requires EntryOf(obj, root, k).path < EntryOf(obj, root, l).path
    ensures TextBefore(k, l)
  {
    var p, q := EntryOf(obj, root, k).path, EntryOf(obj, root, l).path;
    var a, b := k[|root| + 1..], l[|root| + 1..];
    var rest := q[|p|..];
    assert q == p + rest;
    JoinSplit(a);
    JoinSplit(b);
    JoinAppends(p, rest);
    assert b == a + "." + Join(rest);
    assert k == root + "." + a && l == root + "." + b;
    assert k < l;
    PrefixTextIsBefore(k, l);
  }

  lemma SamePathSameKey(obj: Row, root: string, k: string, l: string)
    requires k in obj && l in obj && Special(root, k) && Special(root, l)
    requires EntryOf(obj, root, k).path == EntryOf(obj, root, l).path
    ensures k == l
  {
    SplitIsInjective(k[|root| + 1..], l[|root| + 1..]);
    assert k == root + "." + k[|root| + 1..] && l == root + "." + l[|root| + 1..];
  }

  // ---------------------------------------------------------------- what a key reads

  function FieldsOf(v: Json): Row { if v.Obj? then v.fields else map[] }

  predicate Under(obj: Row, root: string, at: seq<string>, l: string) {
    l in obj && Special(root, l) && at < EntryOf(obj, root, l).path
  }

  /** A value with the keys under a path written into it, in order. */
  function Overlay(obj: Row, root: string, at: seq<string>, v: Json, ks: seq<string>): Json
    decreases |ks|
  {
    if ks == [] then v else
      var l := ks[0];
      var next :=
        if Under(obj, root, at, l) then Obj(Insert(FieldsOf(v), EntryOf(obj, root, l).path[|at|..], obj[l])) else v;
      Overlay(obj, root, at, next, ks[1..])
  }

  lemma {:induction false} OverlayAppends(obj: Row, root: string, at: seq<string>, v: Json, ks: seq<string>, ls: seq<string>)
    ensures Overlay(obj, root, at, v, ks + ls) == Overlay(obj, root, at, Overlay(obj, root, at, v, ks), ls)
    decreases |ks|
  {
    if ks == [] {
      assert ks + ls == ls;
    } else {
      var l := ks[0];
      assert (ks + ls)[0] == l && (ks + ls)[1..] == ks[1..] + ls;
      var next :=
        if Under(obj, root, at, l) then Obj(Insert(FieldsOf(v), EntryOf(obj, root, l).path[|at|..], obj[l])) else v;
      OverlayAppends(obj, root, at, next, ks[1..], ls);
    }
  }

  lemma {:induction false} OverlaySkips(obj: Row, root: string, at: seq<string>, v: Json, ks: seq<string>)
    requires forall l | l in ks :: !Under(obj, root, at, l)
    ensures Overlay(obj, root, at, v, ks) == v
    decreases |ks|
  {
    if ks != [] {
      assert ks[0] in ks;
      OverlaySkips(obj, root, at, v, ks[1..]);
    }
  }

  lemma StepOverlay(obj: Row, root: string, m: Row, l: string, at: seq<string>, v: Json)
    requires at != [] && Get(m, at) == Some(v) && l in obj && Special(root, l) && !(EntryOf(obj, root, l).path <= at)
    ensures Get(Putter(obj, root)(m, l), at) ==
      Some(if Under(obj, root, at, l) then Obj(Insert(FieldsOf(v), EntryOf(obj, root, l).path[|at|..], obj[l])) else v)
  {
    GetInsert(m, EntryOf(obj, root, l).path, obj[l], at);
  }

  /** Keys that are not above a path change what it reads by writing into it. */
  lemma {:induction false} FoldOverlays(obj: Row, root: string, m: Row, ks: seq<string>, at: seq<string>, v: Json)
    requires at != [] && Get(m, at) == Some(v)
    requires forall l | l in ks :: l in obj && Special(root, l) && !(EntryOf(obj, root, l).path <= at)
    ensures Get(Fold(Putter(obj, root), m, ks), at) == Some(Overlay(obj, root, at, v, ks))
    decreases |ks|
  {
    if ks != [] {
      var l := ks[0];
      assert l in ks;
      StepOverlay(obj, root, m, l, at, v);
      var next :=
        if Under(obj, root, at, l) then Obj(Insert(FieldsOf(v), EntryOf(obj, root, l).path[|at|..], obj[l])) else v;
      forall x | x in ks[1..] ensures x in obj && Special(root, x) && !(EntryOf(obj, root, x).path <= at) { assert x in ks; }
      FoldOverlays(obj, root, Putter(obj, root)(m, l), ks[1..], at, next);
    }
  }

  lemma LaterNotAbove(obj: Row, root: string, ks: seq<string>, i: int, j: int)
    requires SortedListing(obj, root, ks) && 0 <= i < j < |ks|
    ensures ks[i] in obj && Special(root, ks[i]) && ks[j] in obj && Special(root, ks[j])
    ensures !(EntryOf(obj, root, ks[j]).path <= EntryOf(obj, root, ks[i]).path)
  {
    assert ks[i] in ks && ks[j] in ks;
    var p, q := EntryOf(obj, root, ks[j]).path, EntryOf(obj, root, ks[i]).path;
    BeforeIsOneWay(Codes(ks[i]), Codes(ks[j]));
    if p == q {
      SamePathSameKey(obj, root, ks[i], ks[j]);
    } else if p < q {
      AboveIsFirst(obj, root, ks[j], ks[i]);
    }
  }

  lemma RestNotAbove(obj: Row, root: string, ks: seq<string>, i: int)
    requires SortedListing(obj, root, ks) && 0 <= i < |ks| && ks[i] in obj && Special(root, ks[i])
    ensures forall l | l in ks[i + 1..] ::
      l in obj && Special(root, l) && !(EntryOf(obj, root, l).path <= EntryOf(obj, root, ks[i]).path)
  {
    var rest := ks[i + 1..];
    forall l | l in rest ensures l in obj && Special(root, l) && !(EntryOf(obj, root, l).path <= EntryOf(obj, root, ks[i]).path) {
      var j :| 0 <= j < |rest| && rest[j] == l;
      LaterNotAbove(obj, root, ks, i, i + 1 + j);
    }
  }

  lemma FirstNotUnder(obj: Row, root: string, ks: seq<string>, i: int)
    requires SortedListing(obj, root, ks) && 0 <= i < |ks| && ks[i] in obj && Special(root, ks[i])
    ensures forall l | l in ks[..i + 1] :: !Under(obj, root, EntryOf(obj, root, ks[i]).path, l)
  {
    var first := ks[..i + 1];
    forall l | l in first ensures !Under(obj, root, EntryOf(obj, root, ks[i]).path, l) {
      var j :| 0 <= j < |first| && first[j] == l;
      if j < i { LaterNotAbove(obj, root, ks, j, i); }
    }
  }

  lemma ReadsOwnFirst(obj: Row, root: string, base: Row, ks: seq<string>, i: int)
    requires 0 <= i < |ks| && ks[i] in obj && Special(root, ks[i])
    ensures Get(Fold(Putter(obj, root), base, ks[..i + 1]), EntryOf(obj, root, ks[i]).path) == Some(obj[ks[i]])
  {
    var f := Putter(obj, root);
    assert ks[..i + 1] == ks[..i] + [ks[i]];
    FoldLast(f, base, ks[..i], ks[i]);
    GetInsertSame(Fold(f, base, ks[..i]), EntryOf(obj, root, ks[i]).path, obj[ks[i]]);
  }

  lemma Listed(obj: Row, root: string, ks: seq<string>, i: int)
    requires Listing(obj, root, ks) && 0 <= i < |ks|
    ensures ks[i] in obj && Special(root, ks[i])
  {
    assert ks[i] in ks;
  }

  function PathAt(obj: Row, root: string, ks: seq<string>, i: int): (p: seq<string>)
    requires Listing(obj, root, ks) && 0 <= i < |ks|
    ensures p != []
  {
    Listed(obj, root, ks, i);
    EntryOf(obj, root, ks[i]).path
  }

  /** In sorted order a key reads its own value with the longer keys under it written in. */
  lemma SortedReads(obj: Row, root: string, ks: seq<string>, i: int)
    requires SortedListing(obj, root, ks) && 0 <= i < |ks|
    ensures ks[i] in obj
    ensures var at := PathAt(obj, root, ks, i);
            Get(Folded(obj, root, ks), at) == Some(Overlay(obj, root, at, obj[ks[i]], ks))
  {
    Listed(obj, root, ks, i);
    var f, at, base := Putter(obj, root), PathAt(obj, root, ks, i), ChildMap(obj - (set l | l in ks), root);
    var first, rest := ks[..i + 1], ks[i + 1..];
    assert ks == first + rest;
    FoldAppend(f, base, first, rest);
    ReadsOwnFirst(obj, root, base, ks, i);
    RestNotAbove(obj, root, ks, i);
    FoldOverlays(obj, root, Fold(f, base, first), rest, at, obj[ks[i]]);
    FirstNotUnder(obj, root, ks, i);
    OverlaySkips(obj, root, at, obj[ks[i]], first);
    OverlayAppends(obj, root, at, obj[ks[i]], first, rest);
  }

  ghost predicate ReadsBack(obj: Row, root: string, ks: seq<string>, i: int)
    requires Listing(obj, root, ks) && 0 <= i < |ks|
  {
    ks[i] in obj && Get(Folded(obj, root, ks), PathAt(obj, root, ks, i)) == Some(obj[ks[i]])
  }

  /** So it reads back exactly when writing the keys under it into its value changes nothing. */
  lemma SortedReadsBackIff(obj: Row, root: string, ks: seq<string>, i: int)
    requires SortedListing(obj, root, ks) && 0 <= i < |ks|
    ensures ks[i] in obj
    ensures ReadsBack(obj, root, ks, i) <==> Overlay(obj, root, PathAt(obj, root, ks, i), obj[ks[i]], ks) == obj[ks[i]]
  {
    SortedReads(obj, root, ks, i);
  }

  /** In particular a key with no longer key under it always does. */
  lemma LongestReadsBack(obj: Row, root: string, ks: seq<string>, i: int)
    requires SortedListing(obj, root, ks) && 0 <= i < |ks|
    requires forall l | l in ks :: !Under(obj, root, PathAt(obj, root, ks, i), l)
    ensures ReadsBack(obj, root, ks, i)
  {
    SortedReads(obj, root, ks, i);
    OverlaySkips(obj, root, PathAt(obj, root, ks, i), obj[ks[i]], ks);
  }

  ghost predicate AgreesBelow(obj: Row, root: string, at: seq<string>, v: Json, l: string) {
    Under(obj, root, at, l) ==> Agree(Entry(at, v), EntryOf(obj, root, l))
  }

  lemma {:induction false} AgreeingOverlay(obj: Row, root: string, at: seq<string>, v: Json, ks: seq<string>)
    requires forall l | l in ks :: AgreesBelow(obj, root, at, v, l)
    ensures Overlay(obj, root, at, v, ks) == v
    decreases |ks|
  {
    if ks != [] {
      var l := ks[0];
      assert l in ks;
      if Under(obj, root, at, l) {
        assert AgreesBelow(obj, root, at, v, l);
        InsertPresent(v.fields, EntryOf(obj, root, l).path[|at|..], obj[l]);
      }
      AgreeingOverlay(obj, root, at, v, ks[1..]);
    }
  }

  /** A key reads back when every longer key under it agrees with it. */
  lemma AgreeingReadsBack(obj: Row, root: string, ks: seq<string>, i: int)
    requires SortedListing(obj, root, ks) && 0 <= i < |ks| && ks[i] in obj
    requires forall l | l in ks :: AgreesBelow(obj, root, PathAt(obj, root, ks, i), obj[ks[i]], l)
    ensures ReadsBack(obj, root, ks, i)
  {
    SortedReads(obj, root, ks, i);
    AgreeingOverlay(obj, root, PathAt(obj, root, ks, i), obj[ks[i]], ks);
  }

  /** The keys under this one are not under each other. */
  ghost predicate OneLevel(obj: Row, root: string, ks: seq<string>, i: int)
    requires Listing(obj, root, ks) && 0 <= i < |ks|
  {
    forall j, l | 0 <= j < |ks| && l in ks && Under(obj, root, PathAt(obj, root, ks, i), ks[j]) ::
      !Under(obj, root, PathAt(obj, root, ks, j), l)
  }

  /** The converse holds too when the keys under it are not under each other. */
  lemma OneLevelReadsBackIff(obj: Row, root: string, ks: seq<string>, i: int)
    requires SortedListing(obj, root, ks) && 0 <= i < |ks| && OneLevel(obj, root, ks, i) && ks[i] in obj
    ensures ReadsBack(obj, root, ks, i) <==> forall l | l in ks :: AgreesBelow(obj, root, PathAt(obj, root, ks, i), obj[ks[i]], l)
  {
    var at := PathAt(obj, root, ks, i);
    if forall l | l in ks :: AgreesBelow(obj, root, at, obj[ks[i]], l) {
      AgreeingReadsBack(obj, root, ks, i);
    }
    if ReadsBack(obj, root, ks, i) {
      forall l | l in ks && Under(obj, root, at, l) ensures Agree(Entry(at, obj[ks[i]]), EntryOf(obj, root, l)) {
        var j :| 0 <= j < |ks| && ks[j] == l;
        LongestReadsBack(obj, root, ks, j);
        ReadBackIsConsistent(Folded(obj, root, ks), Entry(at, obj[ks[i]]), EntryOf(obj, root, l));
      }
    }
  }

  // ---------------------------------------------------------------- after both passes

  ghost predicate SortedOrders(obj: Row, ks: seq<string>, ls: seq<string>) {
    SortedListing(obj, DRIVER, ks) && SortedListing(obj, DEVICE, ls)
  }

  lemma SameOverlay(obj: Row, mid: Row, root: string, at: seq<string>, v: Json, ks: seq<string>)
    requires forall l | Special(root, l) :: (l in mid <==> l in obj) && (l in obj ==> mid[l] == obj[l])
    ensures Overlay(mid, root, at, v, ks) == Overlay(obj, root, at, v, ks)
    decreases |ks|
  {
    if ks != [] {
      var l := ks[0];
      assert Under(mid, root, at, l) <==> Under(obj, root, at, l);
      var next :=
        if Under(obj, root, at, l) then Obj(Insert(FieldsOf(v), EntryOf(obj, root, l).path[|at|..], obj[l])) else v;
      SameOverlay(obj, mid, root, at, next, ks[1..]);
    }
  }

  /** In the row both passes leave, a `driver_config.` key reads its own value with those under it written in. */
  lemma DriverKeyReads(obj: Row, ks: seq<string>, ls: seq<string>, i: int)
    requires SortedOrders(obj, ks, ls) && 0 <= i < |ks|
    ensures ks[i] in obj
    ensures Get(FoldBoth(obj, ks, ls), Split(ks[i]))
         == Some(Overlay(obj, DRIVER, PathAt(obj, DRIVER, ks, i), obj[ks[i]], ks))
  {
    RootsArePlain();
    Listed(obj, DRIVER, ks, i);
    SpecialPath(DRIVER, ks[i]);
    SecondPassKeepsDriver(obj, ks, ls, Split(ks[i][|DRIVER| + 1..]));
    FoldOneGet(obj, DRIVER, ks, ks[i]);
    SortedReads(obj, DRIVER, ks, i);
  }

  /** And so does a `device_driver_config.` key. */
  lemma DeviceKeyReads(obj: Row, ks: seq<string>, ls: seq<string>, i: int)
    requires SortedOrders(obj, ks, ls) && 0 <= i < |ls|
    ensures ls[i] in obj
    ensures Get(FoldBoth(obj, ks, ls), Split(ls[i]))
         == Some(Overlay(obj, DEVICE, PathAt(obj, DEVICE, ls, i), obj[ls[i]], ls))
  {
    RootsArePlain();
    Listed(obj, DEVICE, ls, i);
    FirstPassKeeps(obj, ks, ls);
    var mid := FoldOne(obj, DRIVER, ks);
    assert forall l | Special(DEVICE, l) :: l in mid <==> l in obj;
    FoldOneGet(mid, DEVICE, ls, ls[i]);
    SortedReads(mid, DEVICE, ls, i);
    SameOverlay(obj, mid, DEVICE, PathAt(obj, DEVICE, ls, i), obj[ls[i]], ls);
  }

  ghost predicate Undisturbed(obj: Row, root: string, ks: seq<string>, i: int)
    requires Listing(obj, root, ks) && 0 <= i < |ks| && ks[i] in obj
  {
    Overlay(obj, root, PathAt(obj, root, ks, i), obj[ks[i]], ks) == obj[ks[i]]
  }

  ghost predicate UndisturbedKeys(obj: Row, root: string, ks: seq<string>)
    requires Listing(obj, root, ks)
  {
    forall i | 0 <= i < |ks| && ks[i] in obj :: Undisturbed(obj, root, ks, i)
  }

  /** No key's value is changed by writing the keys under it into it exactly when comparable keys agree. */
  lemma AllUndisturbedIff(obj: Row, ks: seq<string>, ls: seq<string>)
    requires SortedOrders(obj, ks, ls)
    ensures UndisturbedKeys(obj, DRIVER, ks) && UndisturbedKeys(obj, DEVICE, ls)
       <==> ConsistentKeys(obj, DRIVER) && ConsistentKeys(obj, DEVICE)
  {
    FoldReadsBackIff(obj, ks, ls);
    var out := FoldBoth(obj, ks, ls);
    forall i | 0 <= i < |ks| && ks[i] in obj
      ensures Get(out, Split(ks[i])) == Some(obj[ks[i]]) <==> Undisturbed(obj, DRIVER, ks, i)
    {
      DriverKeyReads(obj, ks, ls, i);
    }
    forall i | 0 <= i < |ls| && ls[i] in obj
      ensures Get(out, Split(ls[i])) == Some(obj[ls[i]]) <==> Undisturbed(obj, DEVICE, ls, i)
    {
      DeviceKeyReads(obj, ks, ls, i);
    }
    if ConsistentKeys(obj, DRIVER) && ConsistentKeys(obj, DEVICE) {
      forall i | 0 <= i < |ks| && ks[i] in obj ensures Undisturbed(obj, DRIVER, ks, i) { assert ks[i] in ks; }
      forall i | 0 <= i < |ls| && ls[i] in obj ensures Undisturbed(obj, DEVICE, ls, i) { assert ls[i] in ls; }
    }
    if UndisturbedKeys(obj, DRIVER, ks) && UndisturbedKeys(obj, DEVICE, ls) {
      forall k | k in ks || k in ls ensures Get(out, Split(k)) == Some(obj[k]) {
        if k in ks {
          var i :| 0 <= i < |ks| && ks[i] == k;
          assert Undisturbed(obj, DRIVER, ks, i);
        } else {
          var i :| 0 <= i < |ls| && ls[i] == k;
          assert Undisturbed(obj, DEVICE, ls, i);
        }
      }
    }
  }

  // ---------------------------------------------------------------- a disagreement that heals

  function Keys3(root: string, a: string, b: string, c: string): seq<string> {
    [root + "." + a, root + "." + (a + "." + b), root + "." + (a + "." + (b + "." + c))]
  }

  function Healed(root: string, a: string, b: string, c: string, x: Json): Row {
    var ks := Keys3(root, a, b, c);
    map[ks[0] := Obj(map[b := Obj(map[c := x])]), ks[1] := Obj(map[]), ks[2] := x]
  }

  lemma Tail(root: string, t: string)
    ensures Special(root, root + "." + t) && (root + "." + t)[|root| + 1..] == t
  {
  }

  lemma Longer(root: string, t: string, u: string)
    ensures root + "." + t < root + "." + (t + "." + u)
  {
    assert root + "." + (t + "." + u) == (root + "." + t) + ("." + u);
  }

  lemma Split3(a: string, b: string, c: string)
    requires '.' !in a && '.' !in b && '.' !in c
    ensures Split(a) == [a] && Split(a + "." + b) == [a, b] && Split(a + "." + (b + "." + c)) == [a, b, c]
  {
    PlainSplit(a);
    PlainSplit(b);
    PlainSplit(c);
    SplitAtDot(a, b);
    SplitAtDot(b, c);
    SplitAtDot(a, b + "." + c);
  }

  lemma PathsOf3(root: string, a: string, b: string, c: string)
    requires '.' !in a && '.' !in b && '.' !in c
    ensures var ks := Keys3(root, a, b, c);
            && ks[0] < ks[1] < ks[2]
            && Special(root, ks[0]) && Special(root, ks[1]) && Special(root, ks[2])
            && Split(ks[0][|root| + 1..]) == [a] && Split(ks[1][|root| + 1..]) == [a, b] && Split(ks[2][|root| + 1..]) == [a, b, c]
  {
    Split3(a, b, c);
    Tail(root, a);
    Tail(root, a + "." + b);
    Tail(root, a + "." + (b + "." + c));
    Longer(root, a, b);
    Longer(root, a + "." + b, c);
    assert (a + "." + b) + "." + c == a + "." + (b + "." + c);
  }

  lemma Healed3(root: string, a: string, b: string, c: string, x: Json)
    requires '.' !in a && '.' !in b && '.' !in c
    ensures SortedListing(Healed(root, a, b, c, x), root, Keys3(root, a, b, c))
  {
    var obj, ks := Healed(root, a, b, c, x), Keys3(root, a, b, c);
    PathsOf3(root, a, b, c);
    PrefixTextIsBefore(ks[0], ks[1]);
    PrefixTextIsBefore(ks[1], ks[2]);
    assert ks[0] < ks[2];
    PrefixTextIsBefore(ks[0], ks[2]);
    forall k ensures k in ks <==> k in obj { }
  }

  lemma InsertsHeal(b: string, c: string, x: Json)
    ensures Insert(Insert(map[b := Obj(map[c := x])], [b], Obj(map[])), [b, c], x) == map[b := Obj(map[c := x])]
  {
    assert [b, c][1..] == [c];
  }

  lemma OverlayHeals(root: string, a: string, b: string, c: string, x: Json)
    requires '.' !in a && '.' !in b && '.' !in c
    ensures var obj, ks := Healed(root, a, b, c, x), Keys3(root, a, b, c);
            Overlay(obj, root, [a], obj[ks[0]], ks) == obj[ks[0]]
  {
    var obj, ks := Healed(root, a, b, c, x), Keys3(root, a, b, c);
    var v := obj[ks[0]];
    PathsOf3(root, a, b, c);
    InsertsHeal(b, c, x);
    assert ks[1..] == [ks[1], ks[2]] && ks[1..][1..] == [ks[2]] && ks[1..][1..][1..] == [];
    assert [a, b][1..] == [b] && [a, b, c][1..] == [b, c];
    assert !([a] < [a]) && [a] < [a, b] && [a] < [a, b, c];
    assert Overlay(obj, root, [a], v, ks) == Overlay(obj, root, [a], v, ks[1..]);
    var w := Obj(Insert(v.fields, [b], Obj(map[])));
    assert Overlay(obj, root, [a], v, ks[1..]) == Overlay(obj, root, [a], w, ks[1..][1..]);
    assert Overlay(obj, root, [a], w, ks[1..][1..]) == Overlay(obj, root, [a], Obj(Insert(w.fields, [b, c], x)), []);
  }

  /** In general it does not: a key may disagree with one above it and a longer one repair what it broke. */
  lemma DisagreementHealed(root: string, a: string, b: string, c: string, x: Json)
    requires '.' !in a && '.' !in b && '.' !in c
    ensures var obj, ks := Healed(root, a, b, c, x), Keys3(root, a, b, c);
            && SortedListing(obj, root, ks) && ReadsBack(obj, root, ks, 0)
            && !AgreesBelow(obj, root, PathAt(obj, root, ks, 0), obj[ks[0]], ks[1])
  {
    var obj, ks := Healed(root, a, b, c, x), Keys3(root, a, b, c);
    Healed3(root, a, b, c, x);
    PathsOf3(root, a, b, c);
    OverlayHeals(root, a, b, c, x);
    SortedReads(obj, root, ks, 0);
    assert [a] < [a, b] && [a, b][1..] == [b];
    var inner: Row, none: Row := map[c := x], map[];
    assert c in inner && c !in none;
  }
}
