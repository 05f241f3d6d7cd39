/** Small facts about sequences and whole numbers that several modules use. */
module Basics {
  predicate StartsWith(s: string, prefix: string) {
    |prefix| <= |s| && s[..|prefix|] == prefix
  }

  lemma Associates<T>(a: seq<T>, b: seq<T>, c: seq<T>)
    ensures a + b + c == a + (b + c)
  {
  }

  /** Lengthening the first piece of a split, with or without more pieces after it. */
  lemma HeadJoined(c: char, x: seq<string>, y: seq<string>)
    requires x != []
    ensures [[c] + (x + y)[0]] + (x + y)[1..] == [[c] + x[0]] + x[1..] + y
    ensures [""] + (x + y) == [""] + x + y
  {
    assert (x + y)[1..] == x[1..] + y;
  }

  /** What one of two orderings of the same elements holds, the other holds too. */
  lemma SameMember<T>(a: seq<T>, b: seq<T>, i: nat) returns (j: nat)
    requires multiset(a) == multiset(b) && i < |a|
    ensures j < |b| && b[j] == a[i]
  {
    assert a[i] in multiset(b);
    j :| 0 <= j < |b| && b[j] == a[i];
  }

  lemma QuotientUnique(n: int, d: int, k: int, r: int)
    requires d > 0 && n == k * d + r && 0 <= r < d
    ensures n / d == k && n % d == r
  {
    assert n == d * (n / d) + n % d;
    var e := n / d - k;
    assert e * d == r - n % d;
    assert e >= 1 ==> e * d >= d;
    assert e <= -1 ==> e * d <= -d;
  }

  // Splitting a text.

  predicate IsSlash(c: char) {
    c == '/'
  }

  /** The pieces of a text between its separators, empty ones kept. */
  function SplitBy(t: string, separates: char -> bool): (pieces: seq<string>)
    ensures |pieces| >= 1
  {
    if t == "" then [""]
    else
      var rest := SplitBy(t[1..], separates);
      if separates(t[0]) then [""] + rest else [[t[0]] + rest[0]] + rest[1..]
  }

  ghost predicate Free(t: string, separates: char -> bool) {
    forall k :: 0 <= k < |t| ==> !separates(t[k])
  }

  lemma {:induction false} SplitFree(t: string, separates: char -> bool)
    requires Free(t, separates)
    ensures SplitBy(t, separates) == [t]
  {
    if t != "" {
      SplitFree(t[1..], separates);
      assert [t[0]] + t[1..] == t;
    }
  }

  lemma SplitCons(c: char, t: string, separates: char -> bool)
    ensures
      var rest := SplitBy(t, separates);
      SplitBy([c] + t, separates) == if separates(c) then [""] + rest else [[c] + rest[0]] + rest[1..]
  {
    assert ([c] + t)[1..] == t;
  }

  lemma {:induction false} SplitBoth(a: string, c: char, b: string, separates: char -> bool)
    requires separates(c)
    ensures SplitBy(a + [c] + b, separates) == SplitBy(a, separates) + SplitBy(b, separates)
  {
    if a == "" {
      assert a + [c] + b == [c] + b;
      SplitCons(c, b, separates);
    } else {
      var d, tail := a[0], a[1..];
      assert a == [d] + tail && a + [c] + b == [d] + (tail + [c] + b);
      SplitBoth(tail, c, b, separates);
      SplitCons(d, tail, separates);
      SplitCons(d, tail + [c] + b, separates);
      HeadJoined(d, SplitBy(tail, separates), SplitBy(b, separates));
    }
  }

  ghost predicate AllFree(pieces: seq<string>, separates: char -> bool) {
    forall i :: 0 <= i < |pieces| ==> Free(pieces[i], separates)
  }

  lemma {:induction false} PiecesFree(t: string, separates: char -> bool)
    ensures AllFree(SplitBy(t, separates), separates)
  {
    if t != "" {
      var rest, pieces := SplitBy(t[1..], separates), SplitBy(t, separates);
      PiecesFree(t[1..], separates);
      assert Free(rest[0], separates);
      assert forall i :: 0 < i < |pieces| ==> pieces[i] == rest[if separates(t[0]) then i - 1 else i];
      assert Free(pieces[0], separates);
    }
  }

  lemma {:induction false} SplitSame(t: string, separates: char -> bool, also: char -> bool)
    requires forall k :: 0 <= k < |t| ==> (separates(t[k]) <==> also(t[k]))
    ensures SplitBy(t, separates) == SplitBy(t, also)
    decreases |t|
  {
    if t != "" {
      SplitSame(t[1..], separates, also);
    }
  }
}
