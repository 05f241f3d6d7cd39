/**
 The regular expressions published beside the validators, with their meaning: which stretches of a
 text an expression matches. Text is a sequence of bytes, each written as a character.
 */
module Patterns {
  import opened Basics
  import opened Results

  datatype Pattern =
    | Class(has: char -> bool)
    | Then(first: Pattern, second: Pattern)
    | Either(left: Pattern, right: Pattern)
    | Repeat(body: Pattern, least: nat, most: Option<nat>)
    | NotAhead(ahead: Pattern)
    | End

  predicate Within(s: string, i: int, k: int, j: int) {
    0 <= i <= k <= j <= |s|
  }

  predicate Counts(n: nat, least: nat, most: Option<nat>) {
    least <= n && (most.Some? ==> n <= most.value)
  }

  /** Whether `r` matches `s[i..j]`; lookahead may look past `j`. */
  ghost predicate Matches(r: Pattern, s: string, i: int, j: int)
    decreases r, 0
  {
    0 <= i <= j <= |s| &&
    match r
    case Class(has) => j == i + 1 && has(s[i])
    case Then(first, second) =>
      exists k {:trigger Within(s, i, k, j)} ::
        Within(s, i, k, j) && Matches(first, s, i, k) && Matches(second, s, k, j)
    case Either(left, right) => Matches(left, s, i, j) || Matches(right, s, i, j)
    case Repeat(body, least, most) =>
      exists n: nat {:trigger Counts(n, least, most)} :: Counts(n, least, most) && Times(body, n, s, i, j)
    case NotAhead(ahead) =>
      i == j && !exists k {:trigger Within(s, i, k, |s|)} :: Within(s, i, k, |s|) && Matches(ahead, s, i, k)
    case End => i == j == |s|
  }

  /** `n` matches of `r` one after another. */
  ghost predicate Times(r: Pattern, n: nat, s: string, i: int, j: int)
    decreases r, n + 1
  {
    if n == 0 then 0 <= i == j <= |s|
    else exists k {:trigger Within(s, i, k, j)} :: Within(s, i, k, j) && Matches(r, s, i, k) && Times(r, n - 1, s, k, j)
  }

  /** A pattern anchored at both ends. */
  ghost predicate Accepts(r: Pattern, s: string) {
    Matches(r, s, 0, |s|)
  }

  function Char(c: char): Pattern {
    Class(x => x == c)
  }

  function AtLeastOne(r: Pattern): Pattern {
    Repeat(r, 1, None)
  }

  function Maybe(r: Pattern): Pattern {
    Repeat(r, 0, Some(1))
  }

  function Exactly(r: Pattern, n: nat): Pattern {
    Repeat(r, n, Some(n))
  }

  // Taking matches apart and putting them together.

  lemma InRange(r: Pattern, s: string, i: int, j: int)
    requires Matches(r, s, i, j)
    ensures 0 <= i <= j <= |s|
  {
  }

  lemma ThenParts(first: Pattern, second: Pattern, s: string, i: int, j: int) returns (k: int)
    requires Matches(Then(first, second), s, i, j)
    ensures Within(s, i, k, j) && Matches(first, s, i, k) && Matches(second, s, k, j)
  {
    k :| Within(s, i, k, j) && Matches(first, s, i, k) && Matches(second, s, k, j);
  }

  lemma ThenWhole(first: Pattern, second: Pattern, s: string, i: int, k: int, j: int)
    requires Matches(first, s, i, k) && Matches(second, s, k, j)
    ensures Matches(Then(first, second), s, i, j)
  {
    InRange(first, s, i, k);
    InRange(second, s, k, j);
    assert Within(s, i, k, j);
  }

  lemma ThreeParts(a: Pattern, b: Pattern, c: Pattern, s: string, i: int, j: int) returns (h: int, p: int)
    requires Matches(Then(a, Then(b, c)), s, i, j)
    ensures Within(s, i, h, p) && p <= j && Matches(a, s, i, h) && Matches(b, s, h, p) && Matches(c, s, p, j)
  {
    h := ThenParts(a, Then(b, c), s, i, j);
    p := ThenParts(b, c, s, h, j);
  }

  lemma ThreeWhole(a: Pattern, b: Pattern, c: Pattern, s: string, i: int, h: int, p: int, j: int)
    requires Matches(a, s, i, h) && Matches(b, s, h, p) && Matches(c, s, p, j)
    ensures Matches(Then(a, Then(b, c)), s, i, j)
  {
    ThenWhole(b, c, s, h, p, j);
    ThenWhole(a, Then(b, c), s, i, h, j);
  }

  lemma RepeatCount(body: Pattern, least: nat, most: Option<nat>, s: string, i: int, j: int) returns (n: nat)
    requires Matches(Repeat(body, least, most), s, i, j)
    ensures Counts(n, least, most) && Times(body, n, s, i, j)
  {
    n :| Counts(n, least, most) && Times(body, n, s, i, j);
  }

  lemma RepeatWhole(body: Pattern, least: nat, most: Option<nat>, n: nat, s: string, i: int, j: int)
    requires Counts(n, least, most) && Times(body, n, s, i, j)
    ensures Matches(Repeat(body, least, most), s, i, j)
  {
    TimesInRange(body, n, s, i, j);
  }

  lemma TimesInRange(r: Pattern, n: nat, s: string, i: int, j: int)
    requires Times(r, n, s, i, j)
    ensures 0 <= i <= j <= |s|
  {
    if n > 0 {
      var k := TimesParts(r, n, s, i, j);
    }
  }

  lemma TimesParts(r: Pattern, n: nat, s: string, i: int, j: int) returns (k: int)
    requires n > 0 && Times(r, n, s, i, j)
    ensures Within(s, i, k, j) && Matches(r, s, i, k) && Times(r, n - 1, s, k, j)
  {
    k :| Within(s, i, k, j) && Matches(r, s, i, k) && Times(r, n - 1, s, k, j);
  }

  lemma TimesWhole(r: Pattern, n: nat, s: string, i: int, k: int, j: int)
    requires Within(s, i, k, j) && Matches(r, s, i, k) && Times(r, n, s, k, j)
    ensures Times(r, n + 1, s, i, j)
  {
  }

  // Runs of one class.

  ghost predicate AllIn(has: char -> bool, s: string, i: int, j: int) {
    0 <= i <= j <= |s| && forall k :: i <= k < j ==> has(s[k])
  }

  lemma {:induction false} ClassTimes(has: char -> bool, n: nat, s: string, i: int, j: int)
    ensures Times(Class(has), n, s, i, j) <==> j == i + n && AllIn(has, s, i, j)
    decreases n
  {
    if n > 0 {
      ClassTimes(has, n - 1, s, i + 1, j);
      if Times(Class(has), n, s, i, j) {
        var k := TimesParts(Class(has), n, s, i, j);
      }
      if j == i + n && AllIn(has, s, i, j) {
        TimesWhole(Class(has), n - 1, s, i, i + 1, j);
      }
    }
  }

  lemma ClassRun(has: char -> bool, least: nat, most: Option<nat>, s: string, i: int, j: int)
    ensures Matches(Repeat(Class(has), least, most), s, i, j) <==>
            AllIn(has, s, i, j) && least <= j - i && (most.Some? ==> j - i <= most.value)
  {
    if Matches(Repeat(Class(has), least, most), s, i, j) {
      var n := RepeatCount(Class(has), least, most, s, i, j);
      ClassTimes(has, n, s, i, j);
    }
    if AllIn(has, s, i, j) && least <= j - i && (most.Some? ==> j - i <= most.value) {
      ClassTimes(has, j - i, s, i, j);
      RepeatWhole(Class(has), least, most, j - i, s, i, j);
    }
  }

  lemma MaybeIs(r: Pattern, s: string, i: int, j: int)
    ensures Matches(Maybe(r), s, i, j) <==> (0 <= i == j <= |s|) || Matches(r, s, i, j)
  {
    if Matches(Maybe(r), s, i, j) {
      var n := RepeatCount(r, 0, Some(1), s, i, j);
      if n == 1 {
        var k := TimesParts(r, 1, s, i, j);
      }
    }
    if Matches(r, s, i, j) {
      InRange(r, s, i, j);
      TimesWhole(r, 0, s, i, j, j);
      RepeatWhole(r, 0, Some(1), 1, s, i, j);
    }
    if 0 <= i == j <= |s| {
      RepeatWhole(r, 0, Some(1), 0, s, i, j);
    }
  }

  lemma ClassThen(has: char -> bool, second: Pattern, s: string, i: int, j: int)
    ensures Matches(Then(Class(has), second), s, i, j) <==> 0 <= i < |s| && has(s[i]) && Matches(second, s, i + 1, j)
  {
    if Matches(Then(Class(has), second), s, i, j) {
      var k := ThenParts(Class(has), second, s, i, j);
    }
    if 0 <= i < |s| && has(s[i]) && Matches(second, s, i + 1, j) {
      ThenWhole(Class(has), second, s, i, i + 1, j);
    }
  }

  lemma ThenClass(first: Pattern, has: char -> bool, s: string, i: int, j: int)
    ensures Matches(Then(first, Class(has)), s, i, j) <==> 0 < j <= |s| && has(s[j - 1]) && Matches(first, s, i, j - 1)
  {
    if Matches(Then(first, Class(has)), s, i, j) {
      var k := ThenParts(first, Class(has), s, i, j);
    }
    if 0 < j <= |s| && has(s[j - 1]) && Matches(first, s, i, j - 1) {
      ThenWhole(first, Class(has), s, i, j - 1, j);
    }
  }

  // A class, then a run, then a class.

  ghost predicate Edged(edge: char -> bool, inner: char -> bool, t: string) {
    t != "" && edge(t[0]) && edge(t[|t| - 1]) && forall k :: 0 < k < |t| - 1 ==> inner(t[k])
  }

  function EdgedPattern(edge: char -> bool, inner: char -> bool, most: Option<nat>): Pattern {
    Then(Class(edge), Maybe(Then(Repeat(Class(inner), 0, most), Class(edge))))
  }

  lemma EdgedRun(edge: char -> bool, inner: char -> bool, most: Option<nat>, s: string, i: int, j: int)
    ensures Matches(EdgedPattern(edge, inner, most), s, i, j) <==>
            0 <= i <= j <= |s| && Edged(edge, inner, s[i..j]) && (most.Some? ==> j - i <= most.value + 2)
  {
    var run := Repeat(Class(inner), 0, most);
    var tail := Then(run, Class(edge));
    ClassThen(edge, Maybe(tail), s, i, j);
    MaybeIs(tail, s, i + 1, j);
    ThenClass(run, edge, s, i + 1, j);
    ClassRun(inner, 0, most, s, i + 1, j - 1);
    if 0 <= i < j <= |s| {
      EdgedAt(edge, inner, s, i, j);
    }
  }

  lemma EdgedAt(edge: char -> bool, inner: char -> bool, s: string, i: int, j: int)
    requires 0 <= i < j <= |s|
    ensures Edged(edge, inner, s[i..j]) <==>
            edge(s[i]) && (j == i + 1 || (edge(s[j - 1]) && AllIn(inner, s, i + 1, j - 1)))
  {
    var t := s[i..j];
    if Edged(edge, inner, t) && j > i + 1 {
      forall k | i + 1 <= k < j - 1 ensures inner(s[k]) {
        assert s[k] == t[k - i];
      }
    }
  }

  // Pieces between separators.

  /** `r` matches a stretch that ends at a separator or at `end` exactly when the stretch is a `piece`. */
  ghost predicate MatchesPieces(r: Pattern, piece: string -> bool, separates: char -> bool, s: string, end: int)
    requires 0 <= end <= |s|
  {
    && (forall t :: piece(t) ==> Free(t, separates))
    && (forall i, j {:trigger Matches(r, s, i, j)} :: 0 <= i <= j <= end && (j < end ==> separates(s[j])) ==>
          (Matches(r, s, i, j) <==> piece(s[i..j])))
  }

  ghost predicate AllPieces(pieces: seq<string>, piece: string -> bool) {
    forall k :: 0 <= k < |pieces| ==> piece(pieces[k])
  }

  ghost predicate ListAt(r: Pattern, separates: char -> bool, n: nat, s: string, i: int, end: int) {
    exists k {:trigger Within(s, i, k, end)} ::
      Within(s, i, k, end) && Matches(r, s, i, k) && Times(Then(Class(separates), r), n, s, k, end)
  }

  /** One more separator and piece at the front. */
  lemma ListCons(r: Pattern, separates: char -> bool, n: nat, s: string, k: int, end: int)
    requires n > 0
    ensures Times(Then(Class(separates), r), n, s, k, end) <==>
            0 <= k < end <= |s| && separates(s[k]) && ListAt(r, separates, n - 1, s, k + 1, end)
  {
    var group := Then(Class(separates), r);
    if Times(group, n, s, k, end) {
      var m := TimesParts(group, n, s, k, end);
      ClassThen(separates, r, s, k, m);
      InRange(r, s, k + 1, m);
      assert Within(s, k + 1, m, end);
    }
    if 0 <= k < end <= |s| && separates(s[k]) && ListAt(r, separates, n - 1, s, k + 1, end) {
      var m :| Within(s, k + 1, m, end) && Matches(r, s, k + 1, m) && Times(group, n - 1, s, m, end);
      ClassThen(separates, r, s, k, m);
      TimesWhole(group, n - 1, s, k, m, end);
    }
  }

  /** Splitting off the first piece. */
  lemma SplitFirst(s: string, separates: char -> bool, i: int, k: int, end: int)
    requires Within(s, i, k, end) && Free(s[i..k], separates) && (k < end ==> separates(s[k]))
    ensures SplitBy(s[i..end], separates) == [s[i..k]] + if k < end then SplitBy(s[k + 1..end], separates) else []
  {
    SplitFree(s[i..k], separates);
    if k < end {
      assert s[i..end] == s[i..k] + [s[k]] + s[k + 1..end];
      SplitBoth(s[i..k], s[k], s[k + 1..end], separates);
    }
  }

  lemma AllPiecesCons(first: string, rest: seq<string>, piece: string -> bool)
    ensures AllPieces([first] + rest, piece) <==> piece(first) && AllPieces(rest, piece)
  {
    var all := [first] + rest;
    assert all[0] == first && forall k :: 0 <= k < |rest| ==> rest[k] == all[k + 1];
  }

  lemma {:induction false} ListMeans(r: Pattern, piece: string -> bool, separates: char -> bool, n: nat, s: string,
      i: int, end: int)
    requires 0 <= i <= end <= |s| && MatchesPieces(r, piece, separates, s, end)
    requires ListAt(r, separates, n, s, i, end)
    ensures |SplitBy(s[i..end], separates)| == n + 1 && AllPieces(SplitBy(s[i..end], separates), piece)
    decreases n
  {
    var k :| Within(s, i, k, end) && Matches(r, s, i, k) && Times(Then(Class(separates), r), n, s, k, end);
    if n > 0 {
      ListCons(r, separates, n, s, k, end);
      ListMeans(r, piece, separates, n - 1, s, k + 1, end);
    }
    assert piece(s[i..k]);
    SplitFirst(s, separates, i, k, end);
    AllPiecesCons(s[i..k], if k < end then SplitBy(s[k + 1..end], separates) else [], piece);
  }

  lemma {:induction false} FirstSeparator(s: string, separates: char -> bool, i: int, end: int) returns (k: int)
    requires 0 <= i <= end <= |s|
    ensures i <= k <= end && Free(s[i..k], separates) && (k < end ==> separates(s[k]))
    decreases end - i
  {
    if i == end || separates(s[i]) {
      k := i;
    } else {
      k := FirstSeparator(s, separates, i + 1, end);
      assert s[i..k] == [s[i]] + s[i + 1..k];
    }
  }

  lemma PieceMatches(r: Pattern, piece: string -> bool, separates: char -> bool, s: string, i: int, k: int, end: int)
    requires 0 <= i <= k <= end <= |s| && MatchesPieces(r, piece, separates, s, end)
    requires piece(s[i..k]) && (k < end ==> separates(s[k]))
    ensures Matches(r, s, i, k)
  {
  }

  lemma ListExtends(r: Pattern, separates: char -> bool, n: nat, s: string, i: int, k: int, end: int)
    requires Within(s, i, k, end) && Matches(r, s, i, k) && Times(Then(Class(separates), r), n, s, k, end)
    ensures ListAt(r, separates, n, s, i, end)
  {
  }

  /** The split of a stretch, cut at its first separator. */
  lemma FirstPiece(s: string, piece: string -> bool, separates: char -> bool, i: int, end: int) returns (k: int)
    requires 0 <= i <= end <= |s| && AllPieces(SplitBy(s[i..end], separates), piece)
    ensures i <= k <= end && piece(s[i..k]) && (k < end ==> separates(s[k]))
    ensures k == end ==> |SplitBy(s[i..end], separates)| == 1
    ensures k < end ==>
              && |SplitBy(s[i..end], separates)| == 1 + |SplitBy(s[k + 1..end], separates)|
              && AllPieces(SplitBy(s[k + 1..end], separates), piece)
  {
    k := FirstSeparator(s, separates, i, end);
    var rest := if k < end then SplitBy(s[k + 1..end], separates) else [];
    SplitFirst(s, separates, i, k, end);
    AllPiecesCons(s[i..k], rest, piece);
  }

  lemma {:induction false} ListFound(
    r: Pattern, piece: string -> bool, separates: char -> bool, s: string, i: int, end: int) returns (n: nat)
    requires 0 <= i <= end <= |s| && MatchesPieces(r, piece, separates, s, end)
    requires AllPieces(SplitBy(s[i..end], separates), piece)
    ensures |SplitBy(s[i..end], separates)| == n + 1 && ListAt(r, separates, n, s, i, end)
    decreases end - i
  {
    var k := FirstPiece(s, piece, separates, i, end);
    PieceMatches(r, piece, separates, s, i, k, end);
    if k == end {
      n := 0;
    } else {
      var m := ListFound(r, piece, separates, s, k + 1, end);
      n := m + 1;
      ListCons(r, separates, n, s, k, end);
    }
    ListExtends(r, separates, n, s, i, k, end);
  }

  /** A piece, then separators each followed by a piece: all pieces of the split are pieces. */
  lemma ListExactly(r: Pattern, piece: string -> bool, separates: char -> bool, n: nat, s: string, i: int, end: int)
    requires 0 <= i <= end <= |s| && MatchesPieces(r, piece, separates, s, end)
    ensures ListAt(r, separates, n, s, i, end) <==>
            |SplitBy(s[i..end], separates)| == n + 1 && AllPieces(SplitBy(s[i..end], separates), piece)
  {
    if ListAt(r, separates, n, s, i, end) {
      ListMeans(r, piece, separates, n, s, i, end);
    }
    if |SplitBy(s[i..end], separates)| == n + 1 && AllPieces(SplitBy(s[i..end], separates), piece) {
      var found := ListFound(r, piece, separates, s, i, end);
    }
  }

  function List(r: Pattern, separates: char -> bool, least: nat): Pattern {
    Then(r, Repeat(Then(Class(separates), r), least, None))
  }

  lemma ListMatches(r: Pattern, piece: string -> bool, separates: char -> bool, least: nat, s: string, i: int, end: int)
    requires 0 <= i <= end <= |s| && MatchesPieces(r, piece, separates, s, end)
    ensures Matches(List(r, separates, least), s, i, end) <==>
            |SplitBy(s[i..end], separates)| > least && AllPieces(SplitBy(s[i..end], separates), piece)
  {
    var group := Then(Class(separates), r);
    var many := Repeat(group, least, None);
    if Matches(List(r, separates, least), s, i, end) {
      var k := ThenParts(r, many, s, i, end);
      var n := RepeatCount(group, least, None, s, k, end);
      ListExactly(r, piece, separates, n, s, i, end);
    }
    var n := |SplitBy(s[i..end], separates)| - 1;
    if n >= least && AllPieces(SplitBy(s[i..end], separates), piece) {
      ListExactly(r, piece, separates, n, s, i, end);
      var k :| Within(s, i, k, end) && Matches(r, s, i, k) && Times(group, n, s, k, end);
      RepeatWhole(group, least, None, n, s, k, end);
      ThenWhole(r, many, s, i, k, end);
    }
  }

  /** One or more groups: the text starts with a separator, and all pieces after it are pieces. */
  lemma LedList(r: Pattern, piece: string -> bool, separates: char -> bool, s: string, i: int, end: int)
    requires 0 <= i <= end <= |s| && MatchesPieces(r, piece, separates, s, end)
    ensures Matches(AtLeastOne(Then(Class(separates), r)), s, i, end) <==>
            i < end && separates(s[i]) && AllPieces(SplitBy(s[i + 1..end], separates), piece)
  {
    var group := Then(Class(separates), r);
    if Matches(AtLeastOne(group), s, i, end) {
      var n := RepeatCount(group, 1, None, s, i, end);
      ListCons(r, separates, n, s, i, end);
      ListExactly(r, piece, separates, n - 1, s, i + 1, end);
    }
    if i < end && separates(s[i]) && AllPieces(SplitBy(s[i + 1..end], separates), piece) {
      var n := |SplitBy(s[i + 1..end], separates)|;
      ListExactly(r, piece, separates, n - 1, s, i + 1, end);
      ListCons(r, separates, n, s, i, end);
      RepeatWhole(group, 1, None, n, s, i, end);
    }
  }

  lemma {:induction false} CharsOfPieces(t: string, separates: char -> bool, has: char -> bool)
    requires forall p: string :: p in SplitBy(t, separates) ==> AllIn(has, p, 0, |p|)
    ensures forall k :: 0 <= k < |t| ==> separates(t[k]) || has(t[k])
    decreases |t|
  {
    if t != "" {
      var rest := SplitBy(t[1..], separates);
      var all := SplitBy(t, separates);
      forall p: string | p in rest ensures AllIn(has, p, 0, |p|) {
        if separates(t[0]) {
          assert all[1..] == rest;
        } else if p != rest[0] {
          assert p in rest[1..] && all[1..] == rest[1..];
        } else {
          assert all[0] in all && all[0][1..] == p;
        }
      }
      CharsOfPieces(t[1..], separates, has);
      if !separates(t[0]) {
        assert all[0] in all && all[0][0] == t[0];
      }
      assert forall k :: 0 < k < |t| ==> t[k] == t[1..][k - 1];
    }
  }

  function IndexOf(s: string, c: char): (r: Option<nat>)
    ensures r.None? ==> c !in s
    ensures r.Some? ==> r.value < |s| && s[r.value] == c && c !in s[..r.value]
  {
    IndexFrom(s, c, 0)
  }

  function IndexFrom(s: string, c: char, k: nat): (r: Option<nat>)
    requires k <= |s| && c !in s[..k]
    ensures r.None? ==> c !in s
    ensures r.Some? ==> r.value < |s| && s[r.value] == c && c !in s[..r.value]
    decreases |s| - k
  {
    if k == |s| then None
    else if s[k] == c then Some(k)
    else
      assert s[..k + 1] == s[..k] + [s[k]];
      IndexFrom(s, c, k + 1)
  }

  /** Characters one after another. */
  function Literal(text: string): Pattern
    requires text != ""
  {
    if |text| == 1 then Char(text[0]) else Then(Char(text[0]), Literal(text[1..]))
  }

  lemma {:induction false} LiteralIs(text: string, s: string, i: int, j: int)
    requires text != ""
    ensures Matches(Literal(text), s, i, j) <==> 0 <= i <= j <= |s| && s[i..j] == text
    decreases |text|
  {
    if |text| == 1 {
      if 0 <= i <= j <= |s| {
        assert s[i..j] == text <==> j == i + 1 && s[i] == text[0];
      }
    } else {
      LiteralIs(text[1..], s, i + 1, j);
      ClassThen(x => x == text[0], Literal(text[1..]), s, i, j);
      if 0 <= i < j <= |s| {
        assert s[i..j] == [s[i]] + s[i + 1..j];
        assert text == [text[0]] + text[1..];
      }
    }
  }

  lemma EitherIs(left: Pattern, right: Pattern, s: string, i: int, j: int)
    requires 0 <= i <= j <= |s|
    ensures Matches(Either(left, right), s, i, j) <==> Matches(left, s, i, j) || Matches(right, s, i, j)
  {
  }

  lemma IndexIs(t: string, c: char, k: nat)
    requires k < |t| && t[k] == c && c !in t[..k]
    ensures IndexOf(t, c) == Some(k)
  {
    assert t[k] in t;
  }
}
