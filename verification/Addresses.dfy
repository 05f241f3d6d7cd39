/**
 The check of IPv4 addresses against the pattern published beside it. The two differ: the check reads
 each octet as a number, and a number may start with a plus sign.
 */
module Addresses {
  import opened Basics
  import opened Patterns
  import opened Results
  import I = InstanceEnv
  import V = Validators

  predicate IsOctet(t: string) {
    && 0 < |t| <= 3
    && I.ParseU32(t).Some? && I.ParseU32(t).value < 256
    && (t == "0" || t[0] != '0')
  }

  predicate IsIpv4(s: string) {
    && |s| <= 15
    && var octets := SplitBy(s, V.IsDot);
    |octets| == 4 && forall k :: 0 <= k < 4 ==> IsOctet(octets[k])
  }

  function Between(low: char, high: char): Pattern {
    Class(c => low <= c <= high)
  }

  /** `25[0-5]|2[0-4][0-9]|1[0-9]{2}|[1-9][0-9]|[0-9]` */
  function OctetPattern(): Pattern {
    Either(Then(Char('2'), Then(Char('5'), Between('0', '5'))),
    Either(Then(Char('2'), Then(Between('0', '4'), Between('0', '9'))),
    Either(Then(Char('1'), Exactly(Between('0', '9'), 2)),
    Either(Then(Between('1', '9'), Between('0', '9')),
    Between('0', '9')))))
  }

  /** `^(R\.){3}R$` */
  function FourPattern(r: Pattern): Pattern {
    Then(Exactly(Then(r, Class(V.IsDot)), 3), r)
  }

  function Ipv4Pattern(): Pattern {
    FourPattern(OctetPattern())
  }

  // An octet.

  predicate In(t: string, k: nat, low: char, high: char) {
    k < |t| && low <= t[k] <= high
  }

  predicate IsPlainOctet(t: string) {
    || (|t| == 3 && In(t, 0, '2', '2') && In(t, 1, '5', '5') && In(t, 2, '0', '5'))
    || (|t| == 3 && In(t, 0, '2', '2') && In(t, 1, '0', '4') && In(t, 2, '0', '9'))
    || (|t| == 3 && In(t, 0, '1', '1') && In(t, 1, '0', '9') && In(t, 2, '0', '9'))
    || (|t| == 2 && In(t, 0, '1', '9') && In(t, 1, '0', '9'))
    || (|t| == 1 && In(t, 0, '0', '9'))
  }

  lemma RangeThen(low: char, high: char, rest: Pattern, s: string, i: int, j: int)
    ensures Matches(Then(Between(low, high), rest), s, i, j) <==>
            0 <= i < |s| && low <= s[i] <= high && Matches(rest, s, i + 1, j)
  {
    ClassThen(c => low <= c <= high, rest, s, i, j);
  }

  lemma CharThen(c: char, rest: Pattern, s: string, i: int, j: int)
    ensures Matches(Then(Char(c), rest), s, i, j) <==> 0 <= i < |s| && s[i] == c && Matches(rest, s, i + 1, j)
  {
    ClassThen(x => x == c, rest, s, i, j);
  }

  lemma OctetMatches(s: string, i: int, j: int)
    ensures Matches(OctetPattern(), s, i, j) <==> 0 <= i <= j <= |s| && IsPlainOctet(s[i..j])
  {
    CharThen('2', Then(Char('5'), Between('0', '5')), s, i, j);
    CharThen('5', Between('0', '5'), s, i + 1, j);
    CharThen('2', Then(Between('0', '4'), Between('0', '9')), s, i, j);
    RangeThen('0', '4', Between('0', '9'), s, i + 1, j);
    CharThen('1', Exactly(Between('0', '9'), 2), s, i, j);
    ClassRun(c => '0' <= c <= '9', 2, Some(2), s, i + 1, j);
    RangeThen('1', '9', Between('0', '9'), s, i, j);
  }

  predicate IsNumeral(c: char) {
    '0' <= c <= '9'
  }

  function Worth(c: char): int {
    c as int - '0' as int
  }

  /** What one, two or three digits are read as. */
  lemma ShortNumber(t: string)
    requires 1 <= |t| <= 3
    ensures
      var n := I.DigitsValue(t);
      && (n.Some? <==> forall k :: 0 <= k < |t| ==> IsNumeral(t[k]))
      && (n.Some? && |t| == 1 ==> n.value == Worth(t[0]))
      && (n.Some? && |t| == 2 ==> n.value == 10 * Worth(t[0]) + Worth(t[1]))
      && (n.Some? && |t| == 3 ==> n.value == 100 * Worth(t[0]) + 10 * Worth(t[1]) + Worth(t[2]))
  {
    if |t| > 1 {
      ShortNumber(t[..|t| - 1]);
    }
  }

  /** The check lets through what the pattern does, and numbers with a plus sign. */
  lemma OctetExactly(t: string)
    ensures IsPlainOctet(t) <==> IsOctet(t) && '+' !in t
  {
    if 1 <= |t| <= 3 {
      ShortNumber(t);
      if t[0] != '+' {
        assert I.ParseU32(t) == I.DigitsValue(t);
      }
    }
  }

  // Four of them.

  lemma OctetPieces(s: string)
    ensures MatchesPieces(OctetPattern(), IsPlainOctet, V.IsDot, s, |s|)
  {
    forall t | IsPlainOctet(t) ensures Free(t, V.IsDot) {
      assert forall k :: 0 <= k < |t| ==> In(t, k, '0', '9');
    }
    forall i, j {:trigger Matches(OctetPattern(), s, i, j)} | 0 <= i <= j <= |s|
      ensures Matches(OctetPattern(), s, i, j) <==> IsPlainOctet(s[i..j])
    {
      OctetMatches(s, i, j);
    }
  }

  ghost predicate LedBy(r: Pattern, separates: char -> bool, n: nat, s: string, i: int, end: int) {
    exists k {:trigger Within(s, i, k, end)} ::
      Within(s, i, k, end) && Times(Then(r, Class(separates)), n, s, i, k) && Matches(r, s, k, end)
  }

  /** Pieces each followed by a separator and then one more are pieces with separators in between. */
  lemma {:induction false} LedIsList(r: Pattern, separates: char -> bool, n: nat, s: string, i: int, end: int)
    ensures LedBy(r, separates, n, s, i, end) ==> ListAt(r, separates, n, s, i, end)
    decreases n
  {
    if LedBy(r, separates, n, s, i, end) {
      var k :| Within(s, i, k, end) && Times(Then(r, Class(separates)), n, s, i, k) && Matches(r, s, k, end);
      if n == 0 {
        assert Within(s, i, end, end) && Times(Then(Class(separates), r), 0, s, end, end);
      } else {
        var m := TimesParts(Then(r, Class(separates)), n, s, i, k);
        ThenClass(r, separates, s, i, m);
        assert Within(s, m, k, end);
        LedIsList(r, separates, n - 1, s, m, end);
        ListCons(r, separates, n, s, m - 1, end);
        assert Within(s, i, m - 1, end);
      }
    }
  }

  lemma {:induction false} ListIsLed(r: Pattern, separates: char -> bool, n: nat, s: string, i: int, end: int)
    ensures ListAt(r, separates, n, s, i, end) ==> LedBy(r, separates, n, s, i, end)
    decreases n
  {
    if ListAt(r, separates, n, s, i, end) {
      var k :| Within(s, i, k, end) && Matches(r, s, i, k) && Times(Then(Class(separates), r), n, s, k, end);
      if n == 0 {
        assert Within(s, i, i, end) && Times(Then(r, Class(separates)), 0, s, i, i);
      } else {
        ListCons(r, separates, n, s, k, end);
        ListIsLed(r, separates, n - 1, s, k + 1, end);
        var m :| Within(s, k + 1, m, end) && Times(Then(r, Class(separates)), n - 1, s, k + 1, m)
          && Matches(r, s, m, end);
        ThenClass(r, separates, s, i, k + 1);
        TimesWhole(Then(r, Class(separates)), n - 1, s, i, k + 1, m);
        assert Within(s, i, m, end);
      }
    }
  }

  lemma {:induction false} Shortness(r: Pattern, n: nat, s: string, i: int, k: int)
    requires forall a, b {:trigger Matches(r, s, a, b)} :: Matches(r, s, a, b) ==> b - a <= 3
    requires Times(Then(r, Class(V.IsDot)), n, s, i, k)
    ensures k - i <= 4 * n
    decreases n
  {
    if n > 0 {
      var m := TimesParts(Then(r, Class(V.IsDot)), n, s, i, k);
      ThenClass(r, V.IsDot, s, i, m);
      Shortness(r, n - 1, s, m, k);
    }
  }

  lemma FourAre(r: Pattern, s: string)
    requires forall a, b {:trigger Matches(r, s, a, b)} :: Matches(r, s, a, b) ==> b - a <= 3
    ensures Accepts(FourPattern(r), s) <==> LedBy(r, V.IsDot, 3, s, 0, |s|)
    ensures Accepts(FourPattern(r), s) ==> |s| <= 15
  {
    var led := Then(r, Class(V.IsDot));
    if Accepts(FourPattern(r), s) {
      var k := ThenParts(Exactly(led, 3), r, s, 0, |s|);
      var n := RepeatCount(led, 3, Some(3), s, 0, k);
      Shortness(r, 3, s, 0, k);
    }
    if LedBy(r, V.IsDot, 3, s, 0, |s|) {
      var k :| Within(s, 0, k, |s|) && Times(led, 3, s, 0, k) && Matches(r, s, k, |s|);
      RepeatWhole(led, 3, Some(3), 3, s, 0, k);
      ThenWhole(Exactly(led, 3), r, s, 0, k, |s|);
    }
  }

  lemma OctetsAreShort(s: string)
    ensures forall a, b {:trigger Matches(OctetPattern(), s, a, b)} :: Matches(OctetPattern(), s, a, b) ==> b - a <= 3
  {
    forall a, b | Matches(OctetPattern(), s, a, b) ensures b - a <= 3 {
      OctetMatches(s, a, b);
    }
  }

  lemma {:induction false} PlusInPieces(s: string)
    ensures '+' in s <==> exists k :: 0 <= k < |SplitBy(s, V.IsDot)| && '+' in SplitBy(s, V.IsDot)[k]
    decreases |s|
  {
    if s == "" {
      SplitFree(s, V.IsDot);
    } else {
      assert s == [s[0]] + s[1..];
      SplitCons(s[0], s[1..], V.IsDot);
      PlusInPieces(s[1..]);
      var pieces, rest := SplitBy(s, V.IsDot), SplitBy(s[1..], V.IsDot);
      if s[0] == '.' {
        assert forall k :: 0 < k < |pieces| ==> pieces[k] == rest[k - 1];
        assert forall k :: 0 <= k < |rest| ==> rest[k] == pieces[k + 1];
      } else {
        assert pieces[0] == [s[0]] + rest[0];
        assert forall k :: 0 < k < |pieces| ==> pieces[k] == rest[k];
      }
    }
  }

  /**
   The check accepts what the pattern does exactly on texts without a plus sign: a text it accepts is
   one the pattern accepts if and only if there is none in it, and the pattern accepts nothing else.
   */
  lemma Ipv4Exactly(s: string)
    ensures Accepts(Ipv4Pattern(), s) <==> IsIpv4(s) && '+' !in s
  {
    OctetsAreShort(s);
    FourAre(OctetPattern(), s);
    OctetPieces(s);
    LedIsList(OctetPattern(), V.IsDot, 3, s, 0, |s|);
    ListIsLed(OctetPattern(), V.IsDot, 3, s, 0, |s|);
    ListExactly(OctetPattern(), IsPlainOctet, V.IsDot, 3, s, 0, |s|);
    assert s[0..|s|] == s;
    PlusInPieces(s);
    forall k | 0 <= k < |SplitBy(s, V.IsDot)|
      ensures IsPlainOctet(SplitBy(s, V.IsDot)[k]) <==>
              IsOctet(SplitBy(s, V.IsDot)[k]) && '+' !in SplitBy(s, V.IsDot)[k]
    {
      OctetExactly(SplitBy(s, V.IsDot)[k]);
    }
  }
  lemma FourPieces(a: string, b: string, c: string, d: string)
    requires Free(a, V.IsDot) && Free(b, V.IsDot) && Free(c, V.IsDot) && Free(d, V.IsDot)
    ensures SplitBy(a + ['.'] + (b + ['.'] + (c + ['.'] + d)), V.IsDot) == [a, b, c, d]
  {
    SplitBoth(c, '.', d, V.IsDot);
    SplitBoth(b, '.', c + ['.'] + d, V.IsDot);
    SplitBoth(a, '.', b + ['.'] + (c + ['.'] + d), V.IsDot);
    SplitFree(a, V.IsDot);
    SplitFree(b, V.IsDot);
    SplitFree(c, V.IsDot);
    SplitFree(d, V.IsDot);
  }

  lemma DigitIsOctet(c: char)
    requires IsNumeral(c)
    ensures IsOctet([c]) && IsOctet(['+', c])
  {
    ShortNumber([c]);
    assert ['+', c][1..] == [c];
  }

  /** A text the check accepts and the pattern does not. */
  lemma PlusAccepted()
    ensures IsIpv4("+1.2.3.4") && !Accepts(Ipv4Pattern(), "+1.2.3.4")
  {
    var s, a, b, c, d := "+1.2.3.4", "+1", "2", "3", "4";
    assert s == a + ['.'] + (b + ['.'] + (c + ['.'] + d));
    FourPieces(a, b, c, d);
    DigitIsOctet('1');
    DigitIsOctet('2');
    DigitIsOctet('3');
    DigitIsOctet('4');
    Ipv4Exactly(s);
    assert '+' == s[0];
  }
}
