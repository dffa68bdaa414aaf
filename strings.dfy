/**
 The few operations of Go's `strings` package that `main.go` relies on
 (`Contains`, `Index`, `Split`, `Replace` with a count of one), over `seq<char>`.
 */
module Strings {
  import opened Wrappers

  /** Concatenation is associative; called where the solver would otherwise search for the regrouping. */
  lemma Assoc<T>(a: seq<T>, b: seq<T>, c: seq<T>)
    ensures a + b + c == a + (b + c)
  {
  }

  /** `sub` occurs in `s` starting at index `i`. */
  predicate OccursAt(s: string, sub: string, i: nat) {
    i + |sub| <= |s| && s[i..i + |sub|] == sub
  }

  /** `strings.Contains(s, sub)`; the empty string is contained in every string. */
  predicate Contains(s: string, sub: string) {
    exists i: nat :: i <= |s| && OccursAt(s, sub, i)
  }

  /** Both halves of a concatenation are contained in it. */
  lemma ContainsHalves(a: string, b: string)
    ensures Contains(a + b, a) && Contains(a + b, b)
  {
    assert (a + b)[..|a|] == a;
    assert OccursAt(a + b, a, 0);
    assert (a + b)[|a|..|a| + |b|] == b;
    assert OccursAt(a + b, b, |a|);
  }

  /** Appending the same text to two different strings keeps them different. */
  lemma AppendKeepsDifference(a: string, b: string, c: string)
    requires a != b
    ensures a + c != b + c
  {
    if |a| == |b| {
      var i :| 0 <= i < |a| && a[i] != b[i];
      assert (a + c)[i] == a[i] && (b + c)[i] == b[i];
    }
  }

  /** `sub` occurs in `s` at index `k` and nowhere else. */
  ghost predicate UniqueOccurrence(s: string, sub: string, k: nat) {
    OccursAt(s, sub, k) && forall j: nat :: j != k ==> !OccursAt(s, sub, j)
  }

  /** The first index at or after `k` where `sub` occurs in `s`. */
  function IndexFrom(s: string, sub: string, k: nat): (r: Option<nat>)
    requires k <= |s|
    decreases |s| - k
    ensures r.Some? ==> k <= r.value <= |s| && OccursAt(s, sub, r.value)
    ensures forall j: nat :: k <= j && (r.None? || j < r.value) ==> !OccursAt(s, sub, j)
  {
    if OccursAt(s, sub, k) then Some(k)
    else if k == |s| then None
    else IndexFrom(s, sub, k + 1)
  }

  /** `strings.Index`: the first occurrence of `sub` in `s`, `None` standing for -1. */
  function Index(s: string, sub: string): (r: Option<nat>)
    ensures r.Some? <==> Contains(s, sub)
    ensures r.Some? ==> r.value <= |s| && OccursAt(s, sub, r.value)
    ensures r.Some? ==> forall j: nat :: j < r.value ==> !OccursAt(s, sub, j)
  {
    IndexFrom(s, sub, 0)
  }

  /**
   `strings.Split` for a non-empty separator: the pieces of `s` between the
   successive leftmost occurrences of `sep`.
   */
  function Split(s: string, sep: string): (parts: seq<string>)
    requires |sep| > 0
    decreases |s|
    ensures |parts| >= 1
  {
    match Index(s, sep)
    case None => [s]
    case Some(i) => [s[..i]] + Split(s[i + |sep|..], sep)
  }

  /** `strings.Replace(s, target, replacement, 1)` for a non-empty target. */
  function ReplaceFirst(s: string, target: string, replacement: string): string
    requires |target| > 0
  {
    match Index(s, target)
    case None => s
    case Some(i) => s[..i] + replacement + s[i + |target|..]
  }

  /** No proper suffix of `sep` starts with its first character, so two occurrences never overlap. */
  predicate SelfDisjoint(sep: string) {
    |sep| > 0 && forall d :: 0 < d < |sep| ==> sep[d] != sep[0]
  }

  /** An occurrence in a suffix of `s` is an occurrence in `s`, shifted by the length dropped. */
  lemma OccursAfterDrop(s: string, d: nat, sub: string, j: nat)
    requires d <= |s|
    ensures OccursAt(s[d..], sub, j) <==> OccursAt(s, sub, d + j)
  {
    if j + |sub| <= |s[d..]| {
      assert s[d..][j..j + |sub|] == s[d + j..d + j + |sub|];
    }
  }

  /** A one-character string occurs exactly where that character stands. */
  lemma OccursAtChar(s: string, c: char, j: nat)
    ensures OccursAt(s, [c], j) <==> j < |s| && s[j] == c
  {
    if j < |s| {
      assert s[j..j + 1] == [s[j]];
    }
  }

  /** Splitting at the one and only occurrence of `sep` yields the text before it and the text after it. */
  lemma {:induction false} SplitAtUniqueOccurrence(s: string, sep: string, k: nat)
    requires |sep| > 0 && UniqueOccurrence(s, sep, k)
    ensures Split(s, sep) == [s[..k], s[k + |sep|..]]
  {
    assert Index(s, sep) == Some(k);
    var rest := s[k + |sep|..];
    forall j: nat ensures !OccursAt(rest, sep, j) {
      OccursAfterDrop(s, k + |sep|, sep, j);
    }
    assert Index(rest, sep) == None;
  }

  /**
   Conversely, when `Split` yields exactly two pieces and `sep` cannot overlap itself,
   `sep` occurs exactly once, right after the first piece, and the second piece is what follows it.
   */
  lemma {:induction false} SplitPairIsUniqueOccurrence(s: string, sep: string)
    requires SelfDisjoint(sep) && |Split(s, sep)| == 2
    ensures |Split(s, sep)[0]| + |sep| <= |s|
    ensures UniqueOccurrence(s, sep, |Split(s, sep)[0]|)
    ensures Split(s, sep)[1] == s[|Split(s, sep)[0]| + |sep|..]
  {
    var idx := Index(s, sep);
    assert idx.Some?;
    var i := idx.value;
    var rest := s[i + |sep|..];
    assert Split(s, sep) == [s[..i]] + Split(rest, sep);
    assert |Split(rest, sep)| == 1;
    assert Index(rest, sep).None?;
    forall j: nat | j != i ensures !OccursAt(s, sep, j) {
      if j >= i + |sep| {
        OccursAfterDrop(s, i + |sep|, sep, j - (i + |sep|));
      } else if i < j {
        NoOverlap(s, sep, i, j);
      }
    }
  }

  /** An occurrence of a self-disjoint separator rules out another one starting inside it. */
  lemma NoOverlap(s: string, sep: string, i: nat, j: nat)
    requires SelfDisjoint(sep) && OccursAt(s, sep, i) && i < j < i + |sep|
    ensures !OccursAt(s, sep, j)
  {
    assert s[j] == s[i..i + |sep|][j - i] == sep[j - i] != sep[0];
    if j + |sep| <= |s| {
      assert s[j..j + |sep|][0] == s[j];
    }
  }
}
