/** Stable sorting by an integer key, as `slice::sort_by` and `sort_by_key` do it.
    A sort is specified by two facts: the keys ascend, and the elements of each key
    keep their input order.  `StableSortIsUnique` shows that these two facts leave
    exactly one result. */
module StableSort {

  ghost predicate Ascending<T>(s: seq<T>, key: T -> int) {
    forall i, j | 0 <= i < j < |s| :: key(s[i]) <= key(s[j])
  }

  /** The elements of `s` with key `k`, in order. */
  function WithKey<T>(s: seq<T>, key: T -> int, k: int): seq<T> {
    if s == [] then [] else
      (if key(s[0]) == k then [s[0]] else []) + WithKey(s[1..], key, k)
  }

  ghost predicate SameOrderPerKey<T>(a: seq<T>, b: seq<T>, key: T -> int) {
    forall k :: WithKey(a, key, k) == WithKey(b, key, k)
  }

  ghost predicate StableSortOf<T>(input: seq<T>, out: seq<T>, key: T -> int) {
    Ascending(out, key) && SameOrderPerKey(out, input, key)
  }

  /** Insert `x` in front of every element whose key is not smaller. */
  function InsertByKey<T>(x: T, s: seq<T>, key: T -> int): (r: seq<T>)
    ensures multiset(r) == multiset([x]) + multiset(s)
  {
    if s == [] then [x]
    else if key(x) <= key(s[0]) then [x] + s
    else
      assert s == [s[0]] + s[1..];
      [s[0]] + InsertByKey(x, s[1..], key)
  }

  function SortByKey<T>(s: seq<T>, key: T -> int): (r: seq<T>)
    ensures multiset(r) == multiset(s)
  {
    if s == [] then [] else
      assert s == [s[0]] + s[1..];
      InsertByKey(s[0], SortByKey(s[1..], key), key)
  }

  lemma WithKeyCons<T>(x: T, s: seq<T>, key: T -> int, k: int)
    ensures WithKey([x] + s, key, k) == (if key(x) == k then [x] + WithKey(s, key, k) else WithKey(s, key, k))
  {
    assert ([x] + s)[1..] == s;
  }

  lemma {:induction false} InsertAscends<T>(x: T, s: seq<T>, key: T -> int)
    requires Ascending(s, key)
    ensures Ascending(InsertByKey(x, s, key), key)
  {
    if s != [] && key(x) > key(s[0]) {
      var rest := InsertByKey(x, s[1..], key);
      InsertAscends(x, s[1..], key);
      forall j | 0 <= j < |rest| ensures key(s[0]) <= key(rest[j]) {
        assert rest[j] in multiset(rest);
        assert rest[j] == x || rest[j] in s[1..];
      }
    }
  }

  lemma {:induction false} InsertKeepsOrder<T>(x: T, s: seq<T>, key: T -> int, k: int)
    ensures WithKey(InsertByKey(x, s, key), key, k) == WithKey([x] + s, key, k)
  {
    if s != [] && key(x) > key(s[0]) {
      var y, rest := s[0], s[1..];
      InsertKeepsOrder(x, rest, key, k);
      WithKeyCons(x, rest, key, k);
      WithKeyCons(x, s, key, k);
      WithKeyCons(y, InsertByKey(x, rest, key), key, k);
      WithKeyCons(y, rest, key, k);
      assert [y] + rest == s;
    }
  }

  lemma {:induction false} SortIsStable<T>(s: seq<T>, key: T -> int)
    ensures StableSortOf(s, SortByKey(s, key), key)
  {
    if s != [] {
      var rest := SortByKey(s[1..], key);
      SortIsStable(s[1..], key);
      InsertAscends(s[0], rest, key);
      forall k ensures WithKey(SortByKey(s, key), key, k) == WithKey(s, key, k) {
        InsertKeepsOrder(s[0], rest, key, k);
        WithKeyCons(s[0], rest, key, k);
      }
    }
  }

  lemma {:induction false} WithKeyFrom<T>(s: seq<T>, key: T -> int, k: int, x: T)
    requires x in WithKey(s, key, k)
    ensures x in s && key(x) == k
  {
    if x !in WithKey(s[1..], key, k) {
      assert x == s[0];
    } else {
      WithKeyFrom(s[1..], key, k, x);
    }
  }

  lemma {:induction false} WithKeyFirst<T>(s: seq<T>, key: T -> int, i: nat)
    requires i < |s|
    ensures s[i] in WithKey(s, key, key(s[i]))
  {
    if i > 0 { WithKeyFirst(s[1..], key, i - 1); }
  }

  lemma HeadsAgree<T>(a: seq<T>, b: seq<T>, key: T -> int)
    requires a != [] && Ascending(a, key) && Ascending(b, key) && SameOrderPerKey(a, b, key)
    ensures b != [] && a[0] == b[0]
  {
    var k := key(a[0]);
    WithKeyFirst(a, key, 0);
    assert WithKey(a, key, k) == WithKey(b, key, k);
    WithKeyFrom(b, key, k, a[0]);
    WithKeyFirst(b, key, 0);
    assert WithKey(a, key, key(b[0])) == WithKey(b, key, key(b[0]));
    WithKeyFrom(a, key, key(b[0]), b[0]);
    assert key(b[0]) == k;
    assert a[0] == WithKey(a, key, k)[0] && b[0] == WithKey(b, key, k)[0];
  }

  lemma TailsAgree<T>(a: seq<T>, b: seq<T>, key: T -> int, k: int)
    requires a != [] && b != [] && a[0] == b[0] && WithKey(a, key, k) == WithKey(b, key, k)
    ensures WithKey(a[1..], key, k) == WithKey(b[1..], key, k)
  {
    WithKeyCons(a[0], a[1..], key, k);
    WithKeyCons(b[0], b[1..], key, k);
    assert [a[0]] + a[1..] == a && [b[0]] + b[1..] == b;
    if key(a[0]) == k {
      assert WithKey(a, key, k)[1..] == WithKey(a[1..], key, k);
      assert WithKey(b, key, k)[1..] == WithKey(b[1..], key, k);
    }
  }

  lemma {:induction false} StableSortIsUnique<T>(a: seq<T>, b: seq<T>, key: T -> int)
    requires Ascending(a, key) && Ascending(b, key) && SameOrderPerKey(a, b, key)
    ensures a == b
  {
    if a == [] {
      if b != [] { HeadsAgree(b, a, key); }
    } else {
      HeadsAgree(a, b, key);
      forall k ensures WithKey(a[1..], key, k) == WithKey(b[1..], key, k) {
        assert WithKey(a, key, k) == WithKey(b, key, k);
        TailsAgree(a, b, key, k);
      }
      StableSortIsUnique(a[1..], b[1..], key);
      assert a == [a[0]] + a[1..] && b == [b[0]] + b[1..];
    }
  }

  function Map<A, B>(f: A -> B, s: seq<A>): (r: seq<B>)
    ensures |r| == |s| && forall i | 0 <= i < |s| :: r[i] == f(s[i])
  {
    seq(|s|, i requires 0 <= i < |s| => f(s[i]))
  }

  lemma MapCons<A, B>(f: A -> B, x: A, s: seq<A>)
    ensures Map(f, [x] + s) == [f(x)] + Map(f, s)
  {
  }

  lemma {:induction false} InsertCommutesWithMap<A, B>(x: A, s: seq<A>, f: A -> B, ka: A -> int, kb: B -> int)
    requires ka(x) == kb(f(x)) && forall a | a in s :: ka(a) == kb(f(a))
    ensures Map(f, InsertByKey(x, s, ka)) == InsertByKey(f(x), Map(f, s), kb)
  {
    MapCons(f, x, s);
    if s != [] {
      var y, rest := s[0], s[1..];
      assert s == [y] + rest;
      MapCons(f, y, rest);
      assert Map(f, s)[1..] == Map(f, rest);
      if ka(x) > ka(y) {
        InsertCommutesWithMap(x, rest, f, ka, kb);
        MapCons(f, y, InsertByKey(x, rest, ka));
      }
    }
  }

  /** Sorting handles by the key of what they stand for is sorting what they stand for. */
  lemma {:induction false} SortCommutesWithMap<A, B>(s: seq<A>, f: A -> B, ka: A -> int, kb: B -> int)
    requires forall a | a in s :: ka(a) == kb(f(a))
    ensures Map(f, SortByKey(s, ka)) == SortByKey(Map(f, s), kb)
  {
    if s != [] {
      assert Map(f, s)[1..] == Map(f, s[1..]);
      SortCommutesWithMap(s[1..], f, ka, kb);
      forall a | a in SortByKey(s[1..], ka) ensures ka(a) == kb(f(a)) {
        assert a in multiset(SortByKey(s[1..], ka));
      }
      InsertCommutesWithMap(s[0], SortByKey(s[1..], ka), f, ka, kb);
    }
  }
}
