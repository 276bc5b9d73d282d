/** Excel column letters (`excel_col_letter`): a zero-based index becomes letters A-Z. */
module ColumnLetters {

  predicate Valid(s: string) {
    s != "" && forall i | 0 <= i < |s| :: 'A' <= s[i] <= 'Z'
  }

  function Letter(d: nat): (c: char)
    requires d < 26
    ensures 'A' <= c <= 'Z'
  {
    'A' + d as char
  }

  function Letters(n: nat): string {
    if n < 26 then [Letter(n)] else Letters(n / 26 - 1) + [Letter(n % 26)]
  }

  function Value(c: char): (d: nat)
    requires 'A' <= c <= 'Z'
    ensures d < 26 && Letter(d) == c
  {
    (c - 'A') as nat
  }

  /** The index a column name stands for. */
  function Index(s: string): nat
    requires Valid(s)
  {
    var init, last := s[..|s| - 1], s[|s| - 1];
    if init == "" then Value(last) else 26 * (Index(init) + 1) + Value(last)
  }

  lemma {:induction false} LettersValid(n: nat)
    ensures Valid(Letters(n))
  {
    if n >= 26 { LettersValid(n / 26 - 1); }
  }

  lemma {:induction false} IndexOfLetters(n: nat)
    ensures Valid(Letters(n)) && Index(Letters(n)) == n
  {
    LettersValid(n);
    if n >= 26 {
      var m := n / 26 - 1;
      LettersValid(m);
      IndexOfLetters(m);
      assert Letters(n)[..|Letters(n)| - 1] == Letters(m);
    }
  }

  lemma {:induction false} LettersOfIndex(s: string)
    requires Valid(s)
    ensures Letters(Index(s)) == s
  {
    var init, last := s[..|s| - 1], s[|s| - 1];
    assert s == init + [last];
    if init != "" {
      LettersOfIndex(init);
      var n := Index(s);
      assert n / 26 - 1 == Index(init) && n % 26 == Value(last);
    }
  }

  /** Shorter first, then alphabetical: the first difference decides. */
  ghost predicate ShortLex(a: string, b: string) {
    |a| < |b| || (|a| == |b| && exists k | 0 <= k < |a| :: a[..k] == b[..k] && a[k] < b[k])
  }

  lemma {:induction false} ShorterIsSmaller(a: string, b: string)
    requires Valid(a) && Valid(b) && |a| < |b|
    ensures Index(a) < Index(b)
    decreases |a|
  {
    if |a| > 1 { ShorterIsSmaller(a[..|a| - 1], b[..|b| - 1]); }
  }

  lemma {:induction false} FirstDifferenceDecides(a: string, b: string, k: nat)
    requires Valid(a) && Valid(b) && |a| == |b| && k < |a| && a[..k] == b[..k] && a[k] < b[k]
    ensures Index(a) < Index(b)
    decreases |a|
  {
    var n := |a| - 1;
    if k < n {
      assert a[..n][..k] == a[..k] && b[..n][..k] == b[..k];
      FirstDifferenceDecides(a[..n], b[..n], k);
    }
  }

  lemma ShortLexIsOrdered(a: string, b: string)
    requires Valid(a) && Valid(b) && ShortLex(a, b)
    ensures Index(a) < Index(b)
  {
    if |a| < |b| { ShorterIsSmaller(a, b); }
    else {
      var k :| 0 <= k < |a| && a[..k] == b[..k] && a[k] < b[k];
      FirstDifferenceDecides(a, b, k);
    }
  }

  lemma {:induction false} FirstDifference(a: string, b: string) returns (k: nat)
    requires |a| == |b| && a != b
    ensures k < |a| && a[..k] == b[..k] && a[k] != b[k]
  {
    var n := |a| - 1;
    assert n >= 0 ==> a == a[..n] + [a[n]] && b == b[..n] + [b[n]];
    if a[..n] == b[..n] {
      k := n;
    } else {
      k := FirstDifference(a[..n], b[..n]);
      assert a[..n][..k] == a[..k] && b[..n][..k] == b[..k];
    }
  }

  lemma Trichotomy(a: string, b: string)
    requires |a| == |b| && a != b
    ensures ShortLex(a, b) || ShortLex(b, a)
  {
    var k := FirstDifference(a, b);
    if a[k] < b[k] { assert a[..k] == b[..k] && a[k] < b[k]; }
    else { assert b[..k] == a[..k] && b[k] < a[k]; }
  }

  /** Numeric order of columns is length-then-alphabetical order of their names. */
  lemma LettersPreserveOrder(m: nat, n: nat)
    ensures m < n <==> ShortLex(Letters(m), Letters(n))
  {
    IndexOfLetters(m);
    IndexOfLetters(n);
    var a, b := Letters(m), Letters(n);
    if ShortLex(a, b) { ShortLexIsOrdered(a, b); }
    if m < n {
      if |a| == |b| { Trichotomy(a, b); }
      if ShortLex(b, a) { ShortLexIsOrdered(b, a); }
    }
  }

  function Reverse(s: string): string {
    if s == "" then "" else Reverse(s[1..]) + [s[0]]
  }

  lemma {:induction false} ReverseSnoc(s: string, c: char)
    ensures Reverse(s + [c]) == [c] + Reverse(s)
  {
    if s != "" {
      assert (s + [c])[1..] == s[1..] + [c];
      ReverseSnoc(s[1..], c);
    } else {
      assert "" + [c] == [c] && [c][1..] == "";
    }
  }

  /** The loop: push the last letter, shift, and reverse at the end. */
  method ExcelColLetter(index: nat) returns (r: string)
    ensures r == Letters(index)
  {
    var letters := "";
    var idx := index + 1;
    while idx > 0
      invariant 0 <= idx
      invariant idx > 0 ==> Letters(idx - 1) + Reverse(letters) == Letters(index)
      invariant idx == 0 ==> Reverse(letters) == Letters(index)
    {
      var rem := (idx - 1) % 26;
      ReverseSnoc(letters, Letter(rem));
      ghost var before := Reverse(letters);
      letters := letters + [Letter(rem)];
      if idx > 26 {
        assert Letters(idx - 1) + before == Letters((idx - 1) / 26 - 1) + ([Letter(rem)] + before);
      }
      idx := (idx - 1) / 26;
    }
    r := Reverse(letters);
  }
}
