/** Lexicographic order, a prefix first: of tree addresses, and of texts by their characters. */
module Lexicographic {
  predicate Before(a: seq<nat>, b: seq<nat>)
    decreases |a|
  {
    b != [] && (a == [] || a[0] < b[0] || (a[0] == b[0] && Before(a[1..], b[1..])))
  }

  lemma {:induction false} PrefixIsBefore(a: seq<nat>, b: seq<nat>)
    requires a < b
    ensures Before(a, b)
    decreases |a|
  {
    if a != [] {
      assert a[0] == b[0] && a[1..] < b[1..];
      PrefixIsBefore(a[1..], b[1..]);
    }
  }

  lemma {:induction false} BeforeIsOneWay(a: seq<nat>, b: seq<nat>)
    requires Before(a, b)
    ensures !Before(b, a)
    decreases |a|
  {
    if a != [] && a[0] == b[0] { BeforeIsOneWay(a[1..], b[1..]); }
  }

  function Codes(s: string): seq<nat> { seq(|s|, i requires 0 <= i < |s| => s[i] as nat) }

  predicate TextBefore(s: string, t: string) { Before(Codes(s), Codes(t)) }

  lemma PrefixTextIsBefore(s: string, t: string)
    requires s < t
    ensures TextBefore(s, t)
  {
    PrefixIsBefore(Codes(s), Codes(t));
  }
}
