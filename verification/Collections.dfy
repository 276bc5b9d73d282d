/** Small helpers shared by the models. */
module Collections {

  datatype Option<+T> = None | Some(value: T)

  lemma EmptyOrHas<T>(s: set<T>)
    ensures s == {} || exists x :: x in s
  {
    assert (forall x :: x !in s) ==> s == {};
  }

  lemma Pick<T>(s: set<T>) returns (x: T)
    requires s != {}
    ensures x in s
  {
    EmptyOrHas(s);
    x :| x in s;
  }

  /** The next element of a hash table: any of those left. */
  method AnyOf<T(==)>(left: set<T>) returns (x: T)
    requires left != {}
    ensures x in left
  {
    EmptyOrHas(left);
    x :| x in left;
  }

  lemma SubsetCardinality<T>(a: set<T>, b: set<T>)
    requires a <= b
    ensures |a| <= |b|
  {
    assert b == a + (b - a);
  }

  // ---------------------------------------------------------------- folding in any order

  function Fold<S, E>(f: (S, E) -> S, s: S, es: seq<E>): S
    decreases |es|
  {
    if es == [] then s else Fold(f, f(s, es[0]), es[1..])
  }

  lemma {:induction false} FoldAppend<S, E>(f: (S, E) -> S, s: S, es: seq<E>, fs: seq<E>)
    ensures Fold(f, s, es + fs) == Fold(f, Fold(f, s, es), fs)
    decreases |es|
  {
    if es == [] {
      assert es + fs == fs;
    } else {
      assert (es + fs)[1..] == es[1..] + fs;
      FoldAppend(f, f(s, es[0]), es[1..], fs);
    }
  }

  ghost predicate Commute<S(!new), E>(f: (S, E) -> S, a: E, b: E) {
    forall s :: f(f(s, a), b) == f(f(s, b), a)
  }

  function Without<E>(es: seq<E>, i: nat): seq<E>
    requires i < |es|
  {
    es[..i] + es[i + 1..]
  }

  lemma WithoutOne<E>(es: seq<E>, i: nat)
    requires i < |es|
    ensures multiset(es) == multiset(Without(es, i)) + multiset{es[i]}
  {
    assert es == es[..i] + [es[i]] + es[i + 1..];
  }

  lemma {:induction false} FoldTakesFirst<S(!new), E>(f: (S, E) -> S, s: S, es: seq<E>, i: nat)
    requires i < |es| && forall j | 0 <= j < i :: Commute(f, es[j], es[i])
    ensures Fold(f, s, es) == Fold(f, f(s, es[i]), Without(es, i))
    decreases |es|
  {
    if i == 0 {
      assert Without(es, 0) == es[1..];
    } else {
      var a, b, tail := es[0], es[i], es[1..];
      FoldTakesFirst(f, f(s, a), tail, i - 1);
      assert Without(es, i) == [a] + Without(tail, i - 1);
      assert Commute(f, a, b);
    }
  }

  /** When the elements commute pairwise, a fold does not depend on their order. */
  lemma {:induction false} FoldAnyOrder<S(!new), E>(f: (S, E) -> S, s: S, es: seq<E>, fs: seq<E>)
    requires multiset(es) == multiset(fs)
    requires forall a, b | a in es && b in es :: Commute(f, a, b)
    ensures Fold(f, s, es) == Fold(f, s, fs)
    decreases |es|
  {
    assert |es| == |multiset(es)| == |multiset(fs)| == |fs|;
    if es != [] {
      assert es == [es[0]] + es[1..];
      assert es[0] in multiset(es);
      var i :| 0 <= i < |fs| && fs[i] == es[0];
      forall j | 0 <= j < i ensures Commute(f, fs[j], fs[i]) {
        assert fs[j] in multiset(fs);
        assert fs[j] in es && fs[i] in es;
      }
      FoldTakesFirst(f, s, fs, i);
      WithoutOne(fs, i);
      assert multiset(es[1..]) == multiset(es) - multiset{es[0]};
      FoldAnyOrder(f, f(s, es[0]), es[1..], Without(fs, i));
    }
  }
}
