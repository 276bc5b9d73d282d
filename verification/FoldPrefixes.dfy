/** Folding flat keys such as `driver_config.a.b` into nested objects
    (`fold_special_prefixes`).  Here the keys are taken in any order, so that the results hold
    whichever order the JSON map is built to keep; `SortedFold` has its default, sorted order. */
module FoldPrefixes {
  import opened Collections
  import opened PathStore

  const DRIVER := "driver_config"
  const DEVICE := "device_driver_config"

  datatype Entry = Entry(path: seq<string>, value: Json)

  // ---------------------------------------------------------------- two entries

  /** Writing both entries leaves both readable: the one above must already hold the one below. */
  ghost predicate Agree(a: Entry, b: Entry) {
    && (a.path == b.path ==> a.value == b.value)
    && (a.path < b.path ==> a.value.Obj? && Get(a.value.fields, b.path[|a.path|..]) == Some(b.value))
  }

  lemma AgreeingInsertsCommute(m: Row, a: Entry, b: Entry)
    requires a.path != [] && b.path != [] && Agree(a, b) && Agree(b, a)
    ensures Insert(Insert(m, a.path, a.value), b.path, b.value) == Insert(Insert(m, b.path, b.value), a.path, a.value)
  {
    if a.path < b.path { UpperAbsorbs(m, a, b); }
    else if b.path < a.path { UpperAbsorbs(m, b, a); }
    else if a.path != b.path { InsertsCommute(m, a.path, a.value, b.path, b.value); }
  }

  lemma UpperAbsorbs(m: Row, a: Entry, b: Entry)
    requires a.path != [] && a.path < b.path && Agree(a, b)
    ensures Insert(Insert(m, a.path, a.value), b.path, b.value) == Insert(m, a.path, a.value)
    ensures Insert(Insert(m, b.path, b.value), a.path, a.value) == Insert(m, a.path, a.value)
  {
    GetInsert(m, a.path, a.value, b.path);
    InsertPresent(Insert(m, a.path, a.value), b.path, b.value);
    InsertOverwrites(m, a.path, b.path, a.value, b.value);
  }

  /** An entry that is readable stays readable when an agreeing entry is written. */
  lemma InsertKeepsAgreeing(m: Row, a: Entry, b: Entry)
    requires a.path != [] && b.path != [] && Agree(a, b) && Agree(b, a)
    requires Get(m, a.path) == Some(a.value)
    ensures Get(Insert(m, b.path, b.value), a.path) == Some(a.value)
  {
    GetInsert(m, b.path, b.value, a.path);
    if a.path < b.path {
      InsertPresent(a.value.fields, b.path[|a.path|..], b.value);
    }
  }

  lemma ReadBackIsConsistent(m: Row, a: Entry, b: Entry)
    requires a.path != [] && b.path != []
    requires Get(m, a.path) == Some(a.value) && Get(m, b.path) == Some(b.value)
    ensures Agree(a, b)
  {
    if a.path < b.path {
      var rest := b.path[|a.path|..];
      assert b.path == a.path + rest;
      GetSplitsPath(m, a.path, rest);
      GetEmpty(rest);
    }
  }

  // ---------------------------------------------------------------- one prefix

  predicate Special(root: string, k: string) {
    root + "." <= k
  }

  function EntryOf(obj: Row, root: string, k: string): (e: Entry)
    requires k in obj && Special(root, k)
    ensures e.path != []
  {
    Entry(Split(k[|root| + 1..]), obj[k])
  }

  function Putter(obj: Row, root: string): (Row, string) -> Row {
    (m: Row, k: string) =>
      if k in obj && Special(root, k) then Insert(m, EntryOf(obj, root, k).path, obj[k]) else m
  }

  /** Every flat key of the prefix, once, in some order. */
  ghost predicate Listing(obj: Row, root: string, ks: seq<string>) {
    && (forall k :: k in ks <==> k in obj && Special(root, k))
    && (forall i, j | 0 <= i < j < |ks| :: ks[i] != ks[j])
  }

  function FoldOne(obj: Row, root: string, ks: seq<string>): Row {
    if ks == [] then obj else
      var rest := obj - (set k | k in ks);
      rest[root := Obj(Fold(Putter(obj, root), ChildMap(rest, root), ks))]
  }

  ghost predicate ConsistentKeys(obj: Row, root: string) {
    forall k, l | k in obj && l in obj && Special(root, k) && Special(root, l) ::
      Agree(EntryOf(obj, root, k), EntryOf(obj, root, l))
  }

  ghost predicate IncomparableKeys(obj: Row, root: string) {
    forall k, l | k in obj && l in obj && Special(root, k) && Special(root, l) && k != l ::
      !Comparable(EntryOf(obj, root, k).path, EntryOf(obj, root, l).path)
  }

  lemma SpecialPath(root: string, k: string)
    requires Special(root, k) && Split(root) == [root]
    ensures Split(k) == [root] + Split(k[|root| + 1..])
  {
    assert k == root + "." + k[|root| + 1..];
    SplitAtDot(root, k[|root| + 1..]);
  }

  lemma IncomparableIsConsistent(obj: Row, root: string)
    requires IncomparableKeys(obj, root)
    ensures ConsistentKeys(obj, root)
  {
  }

  lemma {:induction false} FoldKeeps(obj: Row, root: string, base: Row, ks: seq<string>, a: string)
    requires a in obj && Special(root, a) && ConsistentKeys(obj, root)
    requires Get(base, EntryOf(obj, root, a).path) == Some(obj[a])
    ensures Get(Fold(Putter(obj, root), base, ks), EntryOf(obj, root, a).path) == Some(obj[a])
    decreases |ks|
  {
    if ks != [] {
      if ks[0] in obj && Special(root, ks[0]) {
        InsertKeepsAgreeing(base, EntryOf(obj, root, a), EntryOf(obj, root, ks[0]));
      }
      FoldKeeps(obj, root, Putter(obj, root)(base, ks[0]), ks[1..], a);
    }
  }

  lemma {:induction false} FoldReadsBack(obj: Row, root: string, base: Row, ks: seq<string>, a: string)
    requires a in obj && Special(root, a) && ConsistentKeys(obj, root) && a in ks
    ensures Get(Fold(Putter(obj, root), base, ks), EntryOf(obj, root, a).path) == Some(obj[a])
    decreases |ks|
  {
    var next := Putter(obj, root)(base, ks[0]);
    if a == ks[0] {
      GetInsertSame(base, EntryOf(obj, root, a).path, obj[a]);
      FoldKeeps(obj, root, next, ks[1..], a);
    } else {
      FoldReadsBack(obj, root, next, ks[1..], a);
    }
  }

  lemma {:induction false} FoldLeavesApart(obj: Row, root: string, base: Row, ks: seq<string>, q: seq<string>)
    requires q != []
    requires forall k | k in ks && k in obj && Special(root, k) :: !Comparable(EntryOf(obj, root, k).path, q)
    ensures Get(Fold(Putter(obj, root), base, ks), q) == Get(base, q)
    decreases |ks|
  {
    if ks != [] {
      if ks[0] in obj && Special(root, ks[0]) {
        GetInsertApart(base, EntryOf(obj, root, ks[0]).path, obj[ks[0]], q);
      }
      FoldLeavesApart(obj, root, Putter(obj, root)(base, ks[0]), ks[1..], q);
    }
  }

  /** What the row already held below the root survives unless a folded key touches it. */
  lemma NestedUntouched(obj: Row, root: string, ks: seq<string>, q: seq<string>)
    requires Listing(obj, root, ks) && q != [] && !Special(root, root)
    requires forall k | k in ks :: !Comparable(EntryOf(obj, root, k).path, q)
    ensures Get(FoldOne(obj, root, ks), [root] + q) == Get(obj, [root] + q)
  {
    var rest := obj - (set k | k in ks);
    assert ([root] + q)[1..] == q;
    GetEmpty(q);
    FoldLeavesApart(obj, root, ChildMap(rest, root), ks, q);
  }

  lemma PuttersCommute(obj: Row, root: string, k: string, l: string)
    requires ConsistentKeys(obj, root)
    ensures Commute(Putter(obj, root), k, l)
  {
    if k in obj && Special(root, k) && l in obj && Special(root, l) {
      forall m ensures Putter(obj, root)(Putter(obj, root)(m, k), l) == Putter(obj, root)(Putter(obj, root)(m, l), k) {
        AgreeingInsertsCommute(m, EntryOf(obj, root, k), EntryOf(obj, root, l));
      }
    }
  }

  lemma ListingsAreEqual(obj: Row, root: string, ks: seq<string>, ls: seq<string>)
    requires Listing(obj, root, ks) && Listing(obj, root, ls)
    ensures multiset(ks) == multiset(ls)
  {
    forall k ensures multiset(ks)[k] == multiset(ls)[k] {
      OnceEach(ks, k);
      OnceEach(ls, k);
    }
  }

  lemma {:induction false} OnceEach(ks: seq<string>, k: string)
    requires forall i, j | 0 <= i < j < |ks| :: ks[i] != ks[j]
    ensures multiset(ks)[k] == if k in ks then 1 else 0
  {
    if ks != [] {
      assert ks == [ks[0]] + ks[1..];
      OnceEach(ks[1..], k);
    }
  }

  lemma FoldOneAnyOrder(obj: Row, root: string, ks: seq<string>, ls: seq<string>)
    requires Listing(obj, root, ks) && Listing(obj, root, ls) && ConsistentKeys(obj, root)
    ensures FoldOne(obj, root, ks) == FoldOne(obj, root, ls)
  {
    ListingsAreEqual(obj, root, ks, ls);
    assert |ks| == |multiset(ks)| == |multiset(ls)| == |ls|;
    var rest := obj - (set k | k in ks);
    assert rest == obj - (set k | k in ls);
    forall k, l | k in ks && l in ks ensures Commute(Putter(obj, root), k, l) { PuttersCommute(obj, root, k, l); }
    FoldAnyOrder(Putter(obj, root), ChildMap(rest, root), ks, ls);
  }

  lemma FoldOneGet(obj: Row, root: string, ks: seq<string>, k: string)
    requires Listing(obj, root, ks) && k in ks && Split(root) == [root]
    ensures Get(FoldOne(obj, root, ks), Split(k))
         == Get(Fold(Putter(obj, root), ChildMap(obj - (set k | k in ks), root), ks), EntryOf(obj, root, k).path)
  {
    SpecialPath(root, k);
    assert Split(k)[1..] == EntryOf(obj, root, k).path;
  }

  /** Folding one prefix makes every flat key readable by its dotted path exactly when the
      flat keys are consistent. */
  lemma FoldOneReadsBackIff(obj: Row, root: string, ks: seq<string>)
    requires Listing(obj, root, ks) && Split(root) == [root]
    ensures (forall k | k in ks :: Get(FoldOne(obj, root, ks), Split(k)) == Some(obj[k])) <==> ConsistentKeys(obj, root)
  {
    var base := ChildMap(obj - (set k | k in ks), root);
    var out := Fold(Putter(obj, root), base, ks);
    forall k | k in ks
      ensures Get(FoldOne(obj, root, ks), Split(k)) == Get(out, EntryOf(obj, root, k).path)
    {
      FoldOneGet(obj, root, ks, k);
    }
    if ConsistentKeys(obj, root) {
      forall k | k in ks ensures Get(out, EntryOf(obj, root, k).path) == Some(obj[k]) {
        FoldReadsBack(obj, root, base, ks, k);
      }
    }
    if forall k | k in ks :: Get(FoldOne(obj, root, ks), Split(k)) == Some(obj[k]) {
      forall k, l | k in obj && l in obj && Special(root, k) && Special(root, l)
        ensures Agree(EntryOf(obj, root, k), EntryOf(obj, root, l))
      {
        assert k in ks && l in ks;
        ReadBackIsConsistent(out, EntryOf(obj, root, k), EntryOf(obj, root, l));
      }
    }
  }

  // ---------------------------------------------------------------- both prefixes

  function FoldBoth(obj: Row, ks: seq<string>, ls: seq<string>): Row {
    FoldOne(FoldOne(obj, DRIVER, ks), DEVICE, ls)
  }

  /** The orders in which the two passes meet their keys. */
  ghost predicate Orders(obj: Row, ks: seq<string>, ls: seq<string>) {
    Listing(obj, DRIVER, ks) && Listing(obj, DEVICE, ls)
  }

  lemma SpecialSecondChar(root: string, k: string)
    requires |root| > 1
    ensures Special(root, k) ==> |k| > 1 && k[1] == root[1]
  {
    assert (root + ".")[1] == root[1];
  }

  lemma RootsArePlain()
    ensures Split(DRIVER) == [DRIVER] && Split(DEVICE) == [DEVICE]
    ensures !Special(DRIVER, DRIVER) && !Special(DEVICE, DRIVER)
    ensures !Special(DRIVER, DEVICE) && !Special(DEVICE, DEVICE)
    ensures DRIVER != DEVICE && forall k :: !(Special(DRIVER, k) && Special(DEVICE, k))
  {
    PlainSplit(DRIVER);
    PlainSplit(DEVICE);
    forall k ensures !(Special(DRIVER, k) && Special(DEVICE, k)) {
      SpecialSecondChar(DRIVER, k);
      SpecialSecondChar(DEVICE, k);
    }
  }

  lemma SameKeysSameConsistency(obj: Row, mid: Row, root: string)
    requires forall k | Special(root, k) :: k in mid <==> k in obj
    requires forall k | Special(root, k) && k in obj :: mid[k] == obj[k]
    requires ConsistentKeys(obj, root)
    ensures ConsistentKeys(mid, root)
  {
    forall k, l | k in mid && l in mid && Special(root, k) && Special(root, l)
      ensures Agree(EntryOf(mid, root, k), EntryOf(mid, root, l))
    {
      assert EntryOf(mid, root, k) == EntryOf(obj, root, k) && EntryOf(mid, root, l) == EntryOf(obj, root, l);
    }
  }

  lemma FirstPassKeeps(obj: Row, ks: seq<string>, ls: seq<string>)
    requires Orders(obj, ks, ls)
    ensures Listing(FoldOne(obj, DRIVER, ks), DEVICE, ls)
    ensures forall k | Special(DEVICE, k) && k in obj :: FoldOne(obj, DRIVER, ks)[k] == obj[k]
    ensures ConsistentKeys(FoldOne(obj, DRIVER, ks), DEVICE) <==> ConsistentKeys(obj, DEVICE)
  {
    RootsArePlain();
    var mid := FoldOne(obj, DRIVER, ks);
    forall k | Special(DEVICE, k) ensures k in mid <==> k in obj {}
    forall k | Special(DEVICE, k) && k in obj ensures mid[k] == obj[k] {}
    if ConsistentKeys(obj, DEVICE) { SameKeysSameConsistency(obj, mid, DEVICE); }
    if ConsistentKeys(mid, DEVICE) { SameKeysSameConsistency(mid, obj, DEVICE); }
  }

  /** After folding no key carries a special prefix. */
  lemma NoSpecialKeyLeft(obj: Row, ks: seq<string>, ls: seq<string>)
    requires Orders(obj, ks, ls)
    ensures forall k | k in FoldBoth(obj, ks, ls) :: !Special(DRIVER, k) && !Special(DEVICE, k)
  {
    RootsArePlain();
    FirstPassKeeps(obj, ks, ls);
  }

  /** Keys that are neither special nor one of the two roots keep their value. */
  lemma UnrelatedUntouched(obj: Row, ks: seq<string>, ls: seq<string>, k: string)
    requires Orders(obj, ks, ls) && !Special(DRIVER, k) && !Special(DEVICE, k) && k != DRIVER && k != DEVICE
    ensures k in FoldBoth(obj, ks, ls) <==> k in obj
    ensures k in obj ==> FoldBoth(obj, ks, ls)[k] == obj[k]
  {
  }

  lemma SecondPassKeepsDriver(obj: Row, ks: seq<string>, ls: seq<string>, q: seq<string>)
    requires Orders(obj, ks, ls)
    ensures Get(FoldBoth(obj, ks, ls), [DRIVER] + q) == Get(FoldOne(obj, DRIVER, ks), [DRIVER] + q)
  {
    RootsArePlain();
    var mid, out := FoldOne(obj, DRIVER, ks), FoldBoth(obj, ks, ls);
    assert DRIVER in mid <==> DRIVER in out;
    assert DRIVER in mid ==> mid[DRIVER] == out[DRIVER];
    assert ([DRIVER] + q)[0] == DRIVER;
  }

  /** Every folded flat key reads back its value by dotted lookup if and only if the flat keys
      of each prefix are consistent; pairwise incomparable keys are. */
  lemma FoldReadsBackIff(obj: Row, ks: seq<string>, ls: seq<string>)
    requires Orders(obj, ks, ls)
    ensures (forall k | k in ks || k in ls :: Get(FoldBoth(obj, ks, ls), Split(k)) == Some(obj[k]))
       <==> ConsistentKeys(obj, DRIVER) && ConsistentKeys(obj, DEVICE)
  {
    RootsArePlain();
    FirstPassKeeps(obj, ks, ls);
    var mid, out := FoldOne(obj, DRIVER, ks), FoldBoth(obj, ks, ls);
    FoldOneReadsBackIff(obj, DRIVER, ks);
    FoldOneReadsBackIff(mid, DEVICE, ls);
    forall k | k in ks ensures Get(out, Split(k)) == Get(mid, Split(k)) {
      SpecialPath(DRIVER, k);
      SecondPassKeepsDriver(obj, ks, ls, Split(k[|DRIVER| + 1..]));
    }
    assert forall k | k in ls :: mid[k] == obj[k];
  }

  /** For consistent keys the folded row does not depend on the order of the map. */
  lemma FoldAnyKeyOrder(obj: Row, ks: seq<string>, ls: seq<string>, ks': seq<string>, ls': seq<string>)
    requires Orders(obj, ks, ls) && Orders(obj, ks', ls')
    requires ConsistentKeys(obj, DRIVER) && ConsistentKeys(obj, DEVICE)
    ensures FoldBoth(obj, ks, ls) == FoldBoth(obj, ks', ls')
  {
    FoldOneAnyOrder(obj, DRIVER, ks, ks');
    FirstPassKeeps(obj, ks, ls);
    FirstPassKeeps(obj, ks, ls');
    FoldOneAnyOrder(FoldOne(obj, DRIVER, ks), DEVICE, ls, ls');
  }

  lemma FoldLast(f: (Row, string) -> Row, m: Row, ks: seq<string>, k: string)
    ensures Fold(f, m, ks + [k]) == f(Fold(f, m, ks), k)
  {
    FoldAppend(f, m, ks, [k]);
    assert [k][1..] == [];
  }

  /** The keys of a prefix can be listed. */
  lemma {:induction false} SomeListing(keys: set<string>) returns (ks: seq<string>)
    ensures forall k :: k in ks <==> k in keys
    ensures forall i, j | 0 <= i < j < |ks| :: ks[i] != ks[j]
    decreases |keys|
  {
    ks := [];
    if keys != {} {
      var k := Pick(keys);
      var rest := SomeListing(keys - {k});
      ks := rest + [k];
    }
  }

  lemma ListingEndingIn(obj: Row, root: string, k: string) returns (ks: seq<string>)
    requires k in obj && Special(root, k)
    ensures Listing(obj, root, ks + [k])
  {
    var others := set l | l in obj && Special(root, l) && l != k;
    ks := SomeListing(others);
    forall l ensures l in ks + [k] <==> l in obj && Special(root, l) {
      assert l in ks <==> l in others;
    }
    assert k !in ks;
  }

  ghost predicate AnyOrderSame(obj: Row, root: string) {
    forall ks, ls | Listing(obj, root, ks) && Listing(obj, root, ls) :: FoldOne(obj, root, ks) == FoldOne(obj, root, ls)
  }

  /** The object written under the root. */
  function Folded(obj: Row, root: string, ks: seq<string>): Row {
    Fold(Putter(obj, root), ChildMap(obj - (set k | k in ks), root), ks)
  }

  lemma FoldedSame(obj: Row, root: string, ks: seq<string>, ls: seq<string>)
    requires ks != [] && ls != [] && FoldOne(obj, root, ks) == FoldOne(obj, root, ls)
    ensures Folded(obj, root, ks) == Folded(obj, root, ls)
  {
    assert FoldOne(obj, root, ks)[root] == Obj(Folded(obj, root, ks));
    assert FoldOne(obj, root, ls)[root] == Obj(Folded(obj, root, ls));
  }

  /** When no order matters, a key reads back in every order, for it does when it comes last. */
  lemma SameOrderReadsBack(obj: Row, root: string, ks: seq<string>, k: string)
    requires AnyOrderSame(obj, root) && Listing(obj, root, ks) && k in ks
    ensures Get(Folded(obj, root, ks), EntryOf(obj, root, k).path) == Some(obj[k])
  {
    var ls := ListingEndingIn(obj, root, k);
    FoldedSame(obj, root, ks, ls + [k]);
    var f, base := Putter(obj, root), ChildMap(obj - (set l | l in ls + [k]), root);
    FoldLast(f, base, ls, k);
    GetInsertSame(Fold(f, base, ls), EntryOf(obj, root, k).path, obj[k]);
  }

  /** All orders of visiting the keys give the same row exactly when the keys are consistent. */
  lemma AnyOrderSameIff(obj: Row, root: string)
    ensures AnyOrderSame(obj, root) <==> ConsistentKeys(obj, root)
  {
    if ConsistentKeys(obj, root) {
      forall ks, ls | Listing(obj, root, ks) && Listing(obj, root, ls) ensures FoldOne(obj, root, ks) == FoldOne(obj, root, ls) {
        FoldOneAnyOrder(obj, root, ks, ls);
      }
    }
    if AnyOrderSame(obj, root) {
      var ks := SomeListing(set l | l in obj && Special(root, l));
      assert Listing(obj, root, ks);
      forall k, l | k in obj && l in obj && Special(root, k) && Special(root, l)
        ensures Agree(EntryOf(obj, root, k), EntryOf(obj, root, l))
      {
        SameOrderReadsBack(obj, root, ks, k);
        SameOrderReadsBack(obj, root, ks, l);
        ReadBackIsConsistent(Folded(obj, root, ks), EntryOf(obj, root, k), EntryOf(obj, root, l));
      }
    }
  }

  // ---------------------------------------------------------------- the loops

  ghost predicate Taken(obj: Row, ks: seq<string>, taken: seq<(string, Json)>) {
    |taken| == |ks| && forall i | 0 <= i < |ks| :: ks[i] in obj && taken[i] == (ks[i], obj[ks[i]])
  }

  /** Collect and remove the flat keys of a prefix. */
  method TakeOut(obj: Row, root: string) returns (taken: seq<(string, Json)>, rest: Row, ghost ks: seq<string>)
    ensures Listing(obj, root, ks) && Taken(obj, ks, taken) && rest == obj - (set k | k in ks)
    ensures forall k :: k in rest <==> k in obj && !Special(root, k)
    ensures forall i | 0 <= i < |taken| :: taken[i].0 in obj && Special(root, taken[i].0) && taken[i].1 == obj[taken[i].0]
  {
    var keys := set k | k in obj && Special(root, k);
    taken, rest, ks := [], obj, [];
    while keys != {}
      invariant keys <= obj.Keys && forall k | k in keys :: Special(root, k)
      invariant forall k :: k in ks <==> k in obj && Special(root, k) && k !in keys
      invariant forall i, j | 0 <= i < j < |ks| :: ks[i] != ks[j]
      invariant Taken(obj, ks, taken) && rest == obj - (set k | k in ks)
    {
      var k := AnyOf(keys);
      keys := keys - {k};
      taken := taken + [(k, obj[k])];
      rest := rest - {k};
      ks := ks + [k];
    }
  }

  lemma PutterPuts(obj: Row, root: string, m: Row, k: string)
    requires k in obj && Special(root, k)
    ensures Putter(obj, root)(m, k) == Insert(m, Split(k[|root| + 1..]), obj[k])
  {
    assert EntryOf(obj, root, k).path == Split(k[|root| + 1..]);
    assert Putter(obj, root)(m, k) == Insert(m, EntryOf(obj, root, k).path, obj[k]);
  }

  /** Write the collected entries into the root object. */
  method WriteIn(base: Row, root: string, taken: seq<(string, Json)>, ghost obj: Row, ghost ks: seq<string>)
    returns (m: Row)
    requires Taken(obj, ks, taken) && forall k | k in ks :: Special(root, k)
    ensures m == Fold(Putter(obj, root), base, ks)
  {
    m := base;
    for i := 0 to |taken|
      invariant Fold(Putter(obj, root), m, ks[i..]) == Fold(Putter(obj, root), base, ks)
    {
      var (k, v) := taken[i];
      assert ks[i..][1..] == ks[i + 1..] && ks[i..][0] == k && k in ks;
      assert ks[i] in obj && obj[k] == v;
      PutterPuts(obj, root, m, k);
      assert Fold(Putter(obj, root), m, ks[i..]) == Fold(Putter(obj, root), Putter(obj, root)(m, k), ks[i + 1..]);
      m := Insert(m, Split(k[|root| + 1..]), v);
    }
    assert ks[|ks|..] == [];
  }

  /** Fold one prefix; a root that is not an object is discarded. */
  method FoldPrefix(obj: Row, root: string) returns (r: Row, ghost ks: seq<string>)
    ensures Listing(obj, root, ks) && r == FoldOne(obj, root, ks)
  {
    var taken, rest;
    taken, rest, ks := TakeOut(obj, root);
    if taken == [] {
      return obj, ks;
    }
    var m := WriteIn(ChildMap(rest, root), root, taken, obj, ks);
    r := (rest - {root})[root := Obj(m)];
  }

  method FoldSpecialPrefixes(obj: Row) returns (r: Row, ghost ks: seq<string>, ghost ls: seq<string>)
    ensures Orders(obj, ks, ls) && r == FoldBoth(obj, ks, ls)
    ensures forall k | k in r :: !Special(DRIVER, k) && !Special(DEVICE, k)
    ensures (forall k | k in obj && (Special(DRIVER, k) || Special(DEVICE, k)) :: Get(r, Split(k)) == Some(obj[k]))
       <==> ConsistentKeys(obj, DRIVER) && ConsistentKeys(obj, DEVICE)
  {
    r, ks := FoldPrefix(obj, DRIVER);
    RootsArePlain();
    r, ls := FoldPrefix(r, DEVICE);
    assert forall k | Special(DEVICE, k) :: k in FoldOne(obj, DRIVER, ks) <==> k in obj;
    NoSpecialKeyLeft(obj, ks, ls);
    FoldReadsBackIff(obj, ks, ls);
  }
}
