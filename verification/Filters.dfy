/** What it means that a list is what is left of another one: the elements that are to be kept, each as
    often as it was there, in their order. */
module Filters {

  /** Element `i` of the result stands at place `at[i]` of the list. */
  ghost predicate StoodAt<T>(s: seq<T>, keep: T -> bool, t: seq<T>, at: seq<nat>, i: nat) {
    i < |t| == |at| && at[i] < |s| && t[i] == s[at[i]] && keep(t[i])
  }

  ghost predicate Chosen<T>(s: seq<T>, keep: T -> bool, at: seq<nat>, k: nat) {
    k < |s| && keep(s[k]) ==> exists i :: 0 <= i < |at| && at[i] == k
  }

  ghost predicate Selects<T(!new)>(s: seq<T>, keep: T -> bool, t: seq<T>, at: seq<nat>) {
    && |at| == |t|
    && (forall i: nat | i < |t| :: StoodAt(s, keep, t, at, i))
    && (forall i, j | 0 <= i < j < |at| :: at[i] < at[j])
    && (forall k: nat :: Chosen(s, keep, at, k))
  }

  ghost predicate IsFilter<T(!new)>(s: seq<T>, keep: T -> bool, t: seq<T>) {
    exists at :: Selects(s, keep, t, at)
  }

  lemma FilterNone<T(!new)>(keep: T -> bool)
    ensures IsFilter([], keep, [])
  {
    var none: seq<nat> := [];
    assert Selects([], keep, [], none);
  }

  lemma SelectsKept<T(!new)>(s: seq<T>, keep: T -> bool, t: seq<T>, at: seq<nat>, x: T)
    requires Selects(s, keep, t, at) && keep(x)
    ensures Selects(s + [x], keep, t + [x], at + [|s|])
  {
    var s', t', at' := s + [x], t + [x], at + [|s|];
    forall i: nat | i < |t'| ensures StoodAt(s', keep, t', at', i) {
      if i < |t| { assert StoodAt(s, keep, t, at, i); }
    }
    forall i, j | 0 <= i < j < |at'| ensures at'[i] < at'[j] {
      if j == |at| { assert StoodAt(s, keep, t, at, i); }
    }
    forall k: nat ensures Chosen(s', keep, at', k) {
      assert Chosen(s, keep, at, k);
      if k < |s| && keep(s'[k]) {
        var i :| 0 <= i < |at| && at[i] == k;
        assert at'[i] == k;
      } else if k == |s| {
        assert at'[|at|] == k;
      }
    }
  }

  lemma SelectsDropped<T(!new)>(s: seq<T>, keep: T -> bool, t: seq<T>, at: seq<nat>, x: T)
    requires Selects(s, keep, t, at) && !keep(x)
    ensures Selects(s + [x], keep, t, at)
  {
    forall i: nat | i < |t| ensures StoodAt(s + [x], keep, t, at, i) { assert StoodAt(s, keep, t, at, i); }
    forall k: nat ensures Chosen(s + [x], keep, at, k) { assert Chosen(s, keep, at, k); }
  }

  /** One more element at the end: it is left or not. */
  lemma FilterSnoc<T(!new)>(s: seq<T>, x: T, keep: T -> bool, t: seq<T>, all: seq<T>, left: seq<T>)
    requires IsFilter(s, keep, t) && all == s + [x] && left == if keep(x) then t + [x] else t
    ensures IsFilter(all, keep, left)
  {
    var at :| Selects(s, keep, t, at);
    if keep(x) { SelectsKept(s, keep, t, at, x); } else { SelectsDropped(s, keep, t, at, x); }
  }
}
