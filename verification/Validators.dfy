/**
 The hand-written checks of identifiers, timestamps, DNS labels, hostnames, OCI repositories and
 guest paths, each proved to accept exactly the language of the pattern published beside it.
 */
module Validators {
  import opened Basics
  import opened Results
  import opened Patterns

  predicate IsLower(c: char) { 'a' <= c <= 'z' }

  predicate IsDigit(c: char) { '0' <= c <= '9' }

  predicate IsAlphanumeric(c: char) { IsLower(c) || 'A' <= c <= 'Z' || IsDigit(c) }

  predicate IsLowerOrDigit(c: char) { IsLower(c) || IsDigit(c) }

  // Identifiers.

  const MAX_IDENTIFIER: nat := 63

  predicate IsIdentifierChar(c: char) { IsAlphanumeric(c) || c == '_' || c == '-' }

  predicate IsIdentifier(s: string) {
    && s != "" && IsAlphanumeric(s[0])
    && |s| <= MAX_IDENTIFIER
    && forall k :: 0 < k < |s| ==> IsIdentifierChar(s[k])
  }

  /** `^[A-Za-z0-9][A-Za-z0-9_-]{0,62}$` */
  function IdentifierPattern(): Pattern {
    Then(Class(IsAlphanumeric), Repeat(Class(IsIdentifierChar), 0, Some(62)))
  }

  lemma IdentifierExactly(s: string)
    ensures IsIdentifier(s) <==> Accepts(IdentifierPattern(), s)
  {
    ClassThen(IsAlphanumeric, Repeat(Class(IsIdentifierChar), 0, Some(62)), s, 0, |s|);
    ClassRun(IsIdentifierChar, 0, Some(62), s, 1, |s|);
  }

  // DNS labels and hostnames.

  const MAX_LABEL: nat := 63
  const MAX_HOSTNAME: nat := 253

  predicate IsLabelChar(c: char) { IsLowerOrDigit(c) || c == '-' }

  predicate IsDot(c: char) { c == '.' }

  predicate IsDnsLabel(t: string) {
    && 0 < |t| <= MAX_LABEL
    && IsLowerOrDigit(t[0]) && IsLowerOrDigit(t[|t| - 1])
    && forall k :: 0 <= k < |t| ==> IsLabelChar(t[k])
  }

  predicate IsHostname(s: string) {
    && |s| <= MAX_HOSTNAME
    && var labels := SplitBy(s, IsDot);
    && |labels| >= 2
    && forall k :: 0 <= k < |labels| ==> IsDnsLabel(labels[k])
  }

  /** `[a-z0-9]([a-z0-9-]{0,61}[a-z0-9])?` */
  function LabelPattern(): Pattern {
    EdgedPattern(IsLowerOrDigit, IsLabelChar, Some(61))
  }

  lemma LabelMatches(s: string, i: int, j: int)
    ensures Matches(LabelPattern(), s, i, j) <==> 0 <= i <= j <= |s| && IsDnsLabel(s[i..j])
  {
    EdgedRun(IsLowerOrDigit, IsLabelChar, Some(61), s, i, j);
  }

  lemma LabelExactly(s: string)
    ensures IsDnsLabel(s) <==> Accepts(LabelPattern(), s)
  {
    LabelMatches(s, 0, |s|);
    assert s[0..|s|] == s;
  }

  /** `^LABEL(\.LABEL)+$` */
  function HostnamePattern(): Pattern {
    List(LabelPattern(), IsDot, 1)
  }

  lemma LabelPieces(s: string)
    ensures MatchesPieces(LabelPattern(), IsDnsLabel, IsDot, s, |s|)
  {
    forall t | IsDnsLabel(t) ensures Free(t, IsDot) {
      assert forall k :: 0 <= k < |t| ==> IsLabelChar(t[k]);
    }
    forall i, j {:trigger Matches(LabelPattern(), s, i, j)} | 0 <= i <= j <= |s|
      ensures Matches(LabelPattern(), s, i, j) <==> IsDnsLabel(s[i..j])
    {
      LabelMatches(s, i, j);
    }
  }

  lemma HostnameExactly(s: string)
    ensures IsHostname(s) <==> Accepts(HostnamePattern(), s) && |s| <= 253
  {
    LabelPieces(s);
    ListMatches(LabelPattern(), IsDnsLabel, IsDot, 1, s, 0, |s|);
    assert s[0..|s|] == s;
  }

  // Guest paths.

  const MAX_GUEST_PATH: nat := 4096

  predicate IsPlain(c: char) {
    c != '/' && c != '\\' && c != '"' && c != '\'' && c as int > 0x1f
  }

  predicate IsGuestSegment(t: string) {
    t != "" && t != "." && t != ".." && forall k :: 0 <= k < |t| ==> IsPlain(t[k])
  }

  predicate IsGuestPath(s: string) {
    && |s| <= MAX_GUEST_PATH
    && s != "" && s[0] == '/'
    && (s == "/" || var segments := SplitBy(s[1..], IsSlash); forall k :: 0 <= k < |segments| ==>
        IsGuestSegment(segments[k]))
  }

  /** `\.\.?(/|$)` */
  function DotsPattern(): Pattern {
    Then(Class(IsDot), Then(Maybe(Class(IsDot)), Either(Class(IsSlash), End)))
  }

  /** `(?!\.\.?(/|$))[^/\\"'\x00-\x1f]+` */
  function GuestSegmentPattern(): Pattern {
    Then(NotAhead(DotsPattern()), AtLeastOne(Class(IsPlain)))
  }

  /** `^/$|^(/SEGMENT)+$` */
  function GuestPathPattern(): Pattern {
    Either(Class(IsSlash), AtLeastOne(Then(Class(IsSlash), GuestSegmentPattern())))
  }

  lemma StopAt(s: string, i: int, k: int)
    ensures Matches(Either(Class(IsSlash), End), s, i, k) <==>
            (0 <= i < |s| && k == i + 1 && s[i] == '/') || (i == k == |s|)
  {
  }

  lemma DotsAt(s: string, i: int, k: int)
    ensures
      var stop := Either(Class(IsSlash), End);
      Matches(DotsPattern(), s, i, k) <==>
      && 0 <= i < |s| && s[i] == '.'
      && (Matches(stop, s, i + 1, k) || (i + 1 < |s| && s[i + 1] == '.' && Matches(stop, s, i + 2, k)))
  {
    var stop := Either(Class(IsSlash), End);
    var dot := Class(IsDot);
    ClassThen(IsDot, Then(Maybe(dot), stop), s, i, k);
    if Matches(Then(Maybe(dot), stop), s, i + 1, k) {
      var m := ThenParts(Maybe(dot), stop, s, i + 1, k);
      MaybeIs(dot, s, i + 1, m);
    }
    MaybeIs(dot, s, i + 1, i + 1);
    MaybeIs(dot, s, i + 1, i + 2);
    if 0 <= i < |s| && Matches(stop, s, i + 1, k) {
      ThenWhole(Maybe(dot), stop, s, i + 1, i + 1, k);
    }
    if 0 <= i && i + 1 < |s| && s[i + 1] == '.' && Matches(stop, s, i + 2, k) {
      ThenWhole(Maybe(dot), stop, s, i + 1, i + 2, k);
    }
  }

  predicate EndsAt(s: string, k: int) {
    0 <= k <= |s| && (k == |s| || s[k] == '/')
  }

  /** What the lookahead forbids: one or two dots, and then a slash or the end. */
  predicate DotsStart(s: string, i: int) {
    0 <= i < |s| && s[i] == '.' && (EndsAt(s, i + 1) || (i + 1 < |s| && s[i + 1] == '.' && EndsAt(s, i + 2)))
  }

  lemma DotsAhead(s: string, i: int)
    requires 0 <= i <= |s|
    ensures Matches(NotAhead(DotsPattern()), s, i, i) <==> !DotsStart(s, i)
  {
    if DotsStart(s, i) {
      var from := if EndsAt(s, i + 1) then i + 1 else i + 2;
      var k := if from == |s| then from else from + 1;
      StopAt(s, from, k);
      DotsAt(s, i, k);
      assert Within(s, i, k, |s|);
    }
    if k :| Within(s, i, k, |s|) && Matches(DotsPattern(), s, i, k) {
      DotsAt(s, i, k);
      StopAt(s, i + 1, k);
      StopAt(s, i + 2, k);
    }
  }

  lemma SegmentIs(s: string, i: int, j: int)
    requires 0 <= i <= j <= |s|
    ensures Matches(GuestSegmentPattern(), s, i, j) <==> !DotsStart(s, i) && i < j && AllIn(IsPlain, s, i, j)
  {
    var ahead, run := NotAhead(DotsPattern()), AtLeastOne(Class(IsPlain));
    DotsAhead(s, i);
    ClassRun(IsPlain, 1, None, s, i, j);
    if Matches(GuestSegmentPattern(), s, i, j) {
      var k := ThenParts(ahead, run, s, i, j);
      assert k == i;
    }
    if Matches(ahead, s, i, i) && Matches(run, s, i, j) {
      ThenWhole(ahead, run, s, i, i, j);
    }
  }

  lemma DotTexts(s: string, i: int, j: int)
    requires 0 <= i <= j <= |s|
    ensures s[i..j] == "." <==> j == i + 1 && s[i] == '.'
    ensures s[i..j] == ".." <==> j == i + 2 && s[i] == '.' && s[i + 1] == '.'
  {
  }

  lemma PlainText(s: string, i: int, j: int)
    requires 0 <= i <= j <= |s|
    ensures AllIn(IsPlain, s, i, j) <==> forall k :: 0 <= k < |s[i..j]| ==> IsPlain(s[i..j][k])
  {
    assert forall k :: i <= k < j ==> s[k] == s[i..j][k - i];
  }

  /** A stretch up to a slash or the end: there the lookahead excludes exactly "." and "..". */
  lemma SegmentAt(s: string, i: int, j: int)
    requires 0 <= i <= j && EndsAt(s, j)
    ensures Matches(GuestSegmentPattern(), s, i, j) <==> IsGuestSegment(s[i..j])
  {
    SegmentIs(s, i, j);
    PlainText(s, i, j);
    DotTexts(s, i, j);
  }

  lemma SegmentPieces(s: string)
    ensures MatchesPieces(GuestSegmentPattern(), IsGuestSegment, IsSlash, s, |s|)
  {
    forall t | IsGuestSegment(t) ensures Free(t, IsSlash) {
      assert forall k :: 0 <= k < |t| ==> IsPlain(t[k]);
    }
    forall i, j {:trigger Matches(GuestSegmentPattern(), s, i, j)} | 0 <= i <= j <= |s| && (j < |s| ==> IsSlash(s[j]))
      ensures Matches(GuestSegmentPattern(), s, i, j) <==> IsGuestSegment(s[i..j])
    {
      SegmentAt(s, i, j);
    }
  }

  /** Up to its bound in bytes, the check of a guest path is its published pattern, lookahead included. */
  lemma GuestPathExactly(s: string)
    ensures IsGuestPath(s) <==> Accepts(GuestPathPattern(), s) && |s| <= 4096
  {
    SegmentPieces(s);
    LedList(GuestSegmentPattern(), IsGuestSegment, IsSlash, s, 0, |s|);
    if s != "" {
      assert s[1..|s|] == s[1..];
    }
    assert Matches(Class(IsSlash), s, 0, |s|) <==> s == "/";
  }

  // OCI repositories.

  const MAX_REPOSITORY: nat := 255

  predicate IsDotOrDash(c: char) { c == '.' || c == '-' }

  predicate IsDash(c: char) { c == '-' }

  predicate IsColon(c: char) { c == ':' }

  predicate IsPartChar(c: char) { IsLowerOrDigit(c) || c == '.' || c == '_' || c == '-' }

  /** The classes of characters, code by code. */
  lemma ClassesExactly(c: char)
    ensures
      var n := c as int;
      && (IsDigit(c) <==> 48 <= n <= 57)
      && (IsAlphanumeric(c) <==> 48 <= n <= 57 || 65 <= n <= 90 || 97 <= n <= 122)
      && (IsIdentifierChar(c) <==> 48 <= n <= 57 || 65 <= n <= 90 || 97 <= n <= 122 || n == 95 || n == 45)
      && (IsLowerOrDigit(c) <==> 48 <= n <= 57 || 97 <= n <= 122)
      && (IsLabelChar(c) <==> 48 <= n <= 57 || 97 <= n <= 122 || n == 45)
      && (IsPartChar(c) <==> 48 <= n <= 57 || 97 <= n <= 122 || n == 46 || n == 95 || n == 45)
      && (IsDotOrDash(c) <==> n == 46 || n == 45) && (IsDash(c) <==> n == 45) && (IsDot(c) <==> n == 46)
      && (IsColon(c) <==> n == 58) && (IsSlash(c) <==> n == 47)
      && (IsPlain(c) <==> n > 31 && n != 47 && n != 92 && n != 34 && n != 39)
  {
  }

  predicate IsRun(t: string) {
    t != "" && forall k :: 0 <= k < |t| ==> IsLowerOrDigit(t[k])
  }

  predicate IsRegistryHost(host: string) {
    && (host == "localhost" || '.' in host)
    && var parts := SplitBy(host, IsDotOrDash);
    forall k :: 0 <= k < |parts| ==> IsRun(parts[k])
  }

  predicate IsPort(port: string) {
    0 < |port| <= 5 && forall k :: 0 <= k < |port| ==> IsDigit(port[k])
  }

  predicate IsRepositoryPart(t: string) {
    t != "" && IsLowerOrDigit(t[0]) && IsLowerOrDigit(t[|t| - 1]) && forall k :: 0 <= k < |t| ==> IsPartChar(t[k])
  }

  predicate IsRegistry(registry: string) {
    var colon := IndexOf(registry, ':');
    if colon.None? then IsRegistryHost(registry)
    else IsPort(registry[colon.value + 1..]) && IsRegistryHost(registry[..colon.value])
  }

  predicate IsOciRepository(s: string) {
    var slash := IndexOf(s, '/');
    && slash.Some?
    && |s| <= MAX_REPOSITORY
    && IsRegistry(s[..slash.value])
    && var parts := SplitBy(s[slash.value + 1..], IsSlash);
    forall k :: 0 <= k < |parts| ==> IsRepositoryPart(parts[k])
  }

  function RunPattern(): Pattern {
    AtLeastOne(Class(IsLowerOrDigit))
  }

  /** `[a-z0-9]+([.-][a-z0-9]+)*\.[a-z0-9]+(-[a-z0-9]+)*` */
  function DottedPattern(): Pattern {
    Then(List(RunPattern(), IsDotOrDash, 0), Then(Class(IsDot), List(RunPattern(), IsDash, 0)))
  }

  /** `localhost|DOTTED` */
  function HostPattern(): Pattern {
    Either(Literal("localhost"), DottedPattern())
  }

  /** `:[0-9]{1,5}` */
  function PortPattern(): Pattern {
    Then(Class(IsColon), Repeat(Class(IsDigit), 1, Some(5)))
  }

  /** `[a-z0-9]([a-z0-9._-]*[a-z0-9])?` */
  function PartPattern(): Pattern {
    EdgedPattern(IsLowerOrDigit, IsPartChar, None)
  }

  /** `^HOST(PORT)?(/PART)+$` */
  function RepositoryPattern(): Pattern {
    Then(HostPattern(), Then(Maybe(PortPattern()), PartsPattern()))
  }

  lemma RunMatches(s: string, i: int, j: int)
    ensures Matches(RunPattern(), s, i, j) <==> 0 <= i <= j <= |s| && IsRun(s[i..j])
  {
    ClassRun(IsLowerOrDigit, 1, None, s, i, j);
    if 0 <= i <= j <= |s| {
      var t := s[i..j];
      assert forall k :: 0 <= k < |t| ==> t[k] == s[i + k];
      assert forall k :: i <= k < j ==> s[k] == t[k - i];
    }
  }

  lemma RunPieces(separates: char -> bool, s: string, end: int)
    requires 0 <= end <= |s| && forall c :: separates(c) ==> IsDotOrDash(c)
    ensures MatchesPieces(RunPattern(), IsRun, separates, s, end)
  {
    forall t | IsRun(t) ensures Free(t, separates) {
      assert forall k :: 0 <= k < |t| ==> IsLowerOrDigit(t[k]);
    }
    forall i, j {:trigger Matches(RunPattern(), s, i, j)} | 0 <= i <= j <= end
      ensures Matches(RunPattern(), s, i, j) <==> IsRun(s[i..j])
    {
      RunMatches(s, i, j);
    }
  }

  ghost predicate AllRuns(t: string, separates: char -> bool) {
    AllPieces(SplitBy(t, separates), IsRun)
  }

  /** The text of runs is letters, digits and their separators. */
  lemma RunChars(t: string, separates: char -> bool)
    requires AllRuns(t, separates)
    ensures forall k :: 0 <= k < |t| ==> separates(t[k]) || IsLowerOrDigit(t[k])
  {
    forall p: string | p in SplitBy(t, separates) ensures AllIn(IsLowerOrDigit, p, 0, |p|) {
      var k :| 0 <= k < |SplitBy(t, separates)| && SplitBy(t, separates)[k] == p;
      assert IsRun(p);
    }
    CharsOfPieces(t, separates, IsLowerOrDigit);
  }

  lemma AllRunsBoth(a: string, c: char, b: string)
    requires IsDotOrDash(c)
    ensures AllRuns(a + [c] + b, IsDotOrDash) <==> AllRuns(a, IsDotOrDash) && AllRuns(b, IsDotOrDash)
  {
    SplitBoth(a, c, b, IsDotOrDash);
    var left, right := SplitBy(a, IsDotOrDash), SplitBy(b, IsDotOrDash);
    assert forall k :: 0 <= k < |left| ==> (left + right)[k] == left[k];
    assert forall k :: 0 <= k < |right| ==> (left + right)[|left| + k] == right[k];
  }

  lemma DashRuns(t: string)
    ensures AllRuns(t, IsDash) <==> AllRuns(t, IsDotOrDash) && '.' !in t
  {
    if AllRuns(t, IsDash) {
      RunChars(t, IsDash);
      assert '.' !in t;
    }
    if '.' !in t {
      SplitSame(t, IsDash, IsDotOrDash);
    }
  }

  lemma {:induction false} LastDot(t: string) returns (d: nat)
    requires '.' in t
    ensures d < |t| && t[d] == '.' && '.' !in t[d + 1..]
  {
    var n := |t| - 1;
    if t[n] == '.' {
      d := n;
    } else {
      assert t == t[..n] + [t[n]];
      d := LastDot(t[..n]);
      assert t[d + 1..] == t[..n][d + 1..] + [t[n]];
    }
  }

  lemma DottedAt(s: string, i: int, d: int, j: int)
    requires 0 <= i <= d < j <= |s| && s[d] == '.'
    ensures
      var left, right := List(RunPattern(), IsDotOrDash, 0), List(RunPattern(), IsDash, 0);
      Matches(left, s, i, d) && Matches(right, s, d + 1, j) <==> AllRuns(s[i..j], IsDotOrDash) && '.' !in s[d + 1..j]
  {
    RunPieces(IsDotOrDash, s, d);
    RunPieces(IsDash, s, j);
    ListMatches(RunPattern(), IsRun, IsDotOrDash, 0, s, i, d);
    ListMatches(RunPattern(), IsRun, IsDash, 0, s, d + 1, j);
    assert s[i..j] == s[i..d] + [s[d]] + s[d + 1..j];
    AllRunsBoth(s[i..d], s[d], s[d + 1..j]);
    DashRuns(s[d + 1..j]);
  }

  lemma DottedMeans(s: string, i: int, j: int)
    requires Matches(DottedPattern(), s, i, j)
    ensures '.' in s[i..j] && AllRuns(s[i..j], IsDotOrDash)
  {
    var left, right := List(RunPattern(), IsDotOrDash, 0), List(RunPattern(), IsDash, 0);
    var d := ThenParts(left, Then(Class(IsDot), right), s, i, j);
    ClassThen(IsDot, right, s, d, j);
    InRange(right, s, d + 1, j);
    DottedAt(s, i, d, j);
    assert s[i..j][d - i] == '.';
  }

  lemma DottedFound(s: string, i: int, j: int)
    requires 0 <= i <= j <= |s| && '.' in s[i..j] && AllRuns(s[i..j], IsDotOrDash)
    ensures Matches(DottedPattern(), s, i, j)
  {
    var left, right := List(RunPattern(), IsDotOrDash, 0), List(RunPattern(), IsDash, 0);
    var last := LastDot(s[i..j]);
    var d := i + last;
    assert s[d + 1..j] == s[i..j][last + 1..];
    DottedAt(s, i, d, j);
    ClassThen(IsDot, right, s, d, j);
    ThenWhole(left, Then(Class(IsDot), right), s, i, d, j);
  }

  lemma LocalhostIsHost(host: string)
    requires host == "localhost"
    ensures IsRegistryHost(host)
  {
    assert forall k :: 0 <= k < |host| ==> IsLowerOrDigit(host[k]);
    SplitFree(host, IsDotOrDash);
  }

  lemma HostMatches(s: string, i: int, j: int)
    requires 0 <= i <= j <= |s|
    ensures Matches(HostPattern(), s, i, j) <==> IsRegistryHost(s[i..j])
  {
    var t := s[i..j];
    EitherIs(Literal("localhost"), DottedPattern(), s, i, j);
    LiteralIs("localhost", s, i, j);
    if t == "localhost" {
      LocalhostIsHost(t);
    }
    if Matches(DottedPattern(), s, i, j) {
      DottedMeans(s, i, j);
    } else if '.' in t && AllRuns(t, IsDotOrDash) {
      DottedFound(s, i, j);
    }
  }

  lemma HostChars(host: string)
    requires IsRegistryHost(host)
    ensures '/' !in host && ':' !in host
  {
    RunChars(host, IsDotOrDash);
  }

  lemma PortMatches(s: string, i: int, j: int)
    ensures Matches(PortPattern(), s, i, j) <==> 0 <= i < j <= |s| && s[i] == ':' && IsPort(s[i + 1..j])
  {
    ClassThen(IsColon, Repeat(Class(IsDigit), 1, Some(5)), s, i, j);
    ClassRun(IsDigit, 1, Some(5), s, i + 1, j);
    if 0 <= i < j <= |s| {
      var t := s[i + 1..j];
      assert forall k :: 0 <= k < |t| ==> t[k] == s[i + 1 + k];
      assert forall k :: i + 1 <= k < j ==> s[k] == t[k - i - 1];
    }
  }

  lemma PartPieces(s: string)
    ensures MatchesPieces(PartPattern(), IsRepositoryPart, IsSlash, s, |s|)
  {
    forall t | IsRepositoryPart(t) ensures Free(t, IsSlash) {
      assert forall k :: 0 <= k < |t| ==> IsPartChar(t[k]);
    }
    forall i, j {:trigger Matches(PartPattern(), s, i, j)} | 0 <= i <= j <= |s|
      ensures Matches(PartPattern(), s, i, j) <==> IsRepositoryPart(s[i..j])
    {
      EdgedRun(IsLowerOrDigit, IsPartChar, None, s, i, j);
    }
  }

  /** A registry ends at `p`: the host up to `h`, and the port if there is one. */
  ghost predicate RegistryAt(s: string, h: int, p: int) {
    Within(s, 0, h, p) && IsRegistryHost(s[..h]) && (h == p || (s[h] == ':' && IsPort(s[h + 1..p])))
  }

  lemma RegistryMeans(s: string, h: int, p: int)
    requires RegistryAt(s, h, p)
    ensures '/' !in s[..p] && IsRegistry(s[..p])
  {
    HostChars(s[..h]);
    if h == p {
      assert IndexOf(s[..p], ':').None?;
    } else {
      assert s[..p] == s[..h] + [':'] + s[h + 1..p];
      assert s[..p][..h] == s[..h] && s[..p][h + 1..] == s[h + 1..p];
      assert '/' !in s[h + 1..p];
      IndexIs(s[..p], ':', h);
    }
  }

  lemma RegistryFound(s: string, p: int) returns (h: int)
    requires 0 <= p <= |s| && IsRegistry(s[..p])
    ensures RegistryAt(s, h, p)
  {
    var colon := IndexOf(s[..p], ':');
    h := if colon.None? then p else colon.value;
    if h < p {
      assert s[..p][..h] == s[..h] && s[..p][h + 1..] == s[h + 1..p];
    }
  }

  lemma RegistryMatches(s: string, h: int, p: int)
    requires Within(s, 0, h, p)
    ensures Matches(HostPattern(), s, 0, h) && Matches(Maybe(PortPattern()), s, h, p) <==> RegistryAt(s, h, p)
  {
    HostMatches(s, 0, h);
    assert s[0..h] == s[..h];
    MaybeIs(PortPattern(), s, h, p);
    PortMatches(s, h, p);
  }

  function PartsPattern(): Pattern {
    AtLeastOne(Then(Class(IsSlash), PartPattern()))
  }

  ghost predicate PartsAt(s: string, p: int) {
    0 <= p < |s| && s[p] == '/' && AllPieces(SplitBy(s[p + 1..], IsSlash), IsRepositoryPart)
  }

  lemma PartsMatch(s: string, p: int)
    requires 0 <= p <= |s|
    ensures Matches(PartsPattern(), s, p, |s|) <==> PartsAt(s, p)
  {
    PartPieces(s);
    LedList(PartPattern(), IsRepositoryPart, IsSlash, s, p, |s|);
    if p < |s| {
      assert s[p + 1..|s|] == s[p + 1..];
    }
  }

  lemma RepositoryMeans(s: string, h: int, p: int)
    requires RegistryAt(s, h, p) && PartsAt(s, p) && |s| <= MAX_REPOSITORY
    ensures IsOciRepository(s)
  {
    RegistryMeans(s, h, p);
    IndexIs(s, '/', p);
  }

  lemma RepositoryFound(s: string) returns (h: int, p: int)
    requires IsOciRepository(s)
    ensures RegistryAt(s, h, p) && PartsAt(s, p)
  {
    p := IndexOf(s, '/').value;
    h := RegistryFound(s, p);
  }

  /** A host, an optional port and parts, read by hand from the first slash and colon, or by the pattern. */
  lemma RepositoryExactly(s: string)
    ensures IsOciRepository(s) <==> Accepts(RepositoryPattern(), s) && |s| <= 255
  {
    if IsOciRepository(s) {
      var h, p := RepositoryFound(s);
      RegistryMatches(s, h, p);
      PartsMatch(s, p);
      ThreeWhole(HostPattern(), Maybe(PortPattern()), PartsPattern(), s, 0, h, p, |s|);
    } else if Accepts(RepositoryPattern(), s) && |s| <= MAX_REPOSITORY {
      var h, p := ThreeParts(HostPattern(), Maybe(PortPattern()), PartsPattern(), s, 0, |s|);
      RegistryMatches(s, h, p);
      PartsMatch(s, p);
      RepositoryMeans(s, h, p);
    }
  }

  // Timestamps.

  const MAX_TIMESTAMP: nat := 35

  /** A pattern of fixed width: some digits, or one character. */
  datatype Atom = Digits(count: nat) | Mark(c: char)

  function Width(a: Atom): nat {
    if a.Digits? then a.count else 1
  }

  function AtomPattern(a: Atom): Pattern {
    if a.Digits? then Exactly(Class(IsDigit), a.count) else Char(a.c)
  }

  /** Atoms from the `k`th on, one after another, and then `rest`. */
  function Sequence(atoms: seq<Atom>, k: nat, rest: Pattern): Pattern
    requires k <= |atoms|
    decreases |atoms| - k
  {
    if k == |atoms| then rest else Then(AtomPattern(atoms[k]), Sequence(atoms, k + 1, rest))
  }

  predicate IsSign(c: char) { c == '+' || c == '-' }

  /** `[0-9]{4}-[0-9]{2}-[0-9]{2}T[0-9]{2}:[0-9]{2}:[0-9]{2}` */
  const STAMP: seq<Atom> :=
    [Digits(4), Mark('-'), Digits(2), Mark('-'), Digits(2), Mark('T'), Digits(2), Mark(':'), Digits(2), Mark(':'),
        Digits(2)]

  /** `[0-9]{2}:` */
  const HOURS: seq<Atom> := [Digits(2), Mark(':')]

  /** `\.[0-9]{1,9}` */
  function FractionPattern(): Pattern {
    Then(Char('.'), Repeat(Class(IsDigit), 1, Some(9)))
  }

  /** `Z|[+-][0-9]{2}:[0-9]{2}` */
  function ZonePattern(): Pattern {
    Either(Char('Z'), Then(Class(IsSign), Sequence(HOURS, 0, Exactly(Class(IsDigit), 2))))
  }

  /** `^STAMP(FRACTION)?(ZONE)$` */
  function TimestampPattern(): Pattern {
    Sequence(STAMP, 0, Then(Maybe(FractionPattern()), ZonePattern()))
  }

  predicate DigitsAt(s: string, from: nat, to: nat) {
    from <= to <= |s| && forall k :: from <= k < to ==> IsDigit(s[k])
  }

  predicate At(s: string, k: nat, c: char) {
    k < |s| && s[k] == c
  }

  predicate AtomAt(a: Atom, s: string, i: nat) {
    if a.Digits? then DigitsAt(s, i, i + a.count) else At(s, i, a.c)
  }

  predicate AtomsAt(atoms: seq<Atom>, k: nat, s: string, i: nat)
    requires k <= |atoms|
    decreases |atoms| - k
  {
    k == |atoms| || (AtomAt(atoms[k], s, i) && AtomsAt(atoms, k + 1, s, i + Width(atoms[k])))
  }

  function WidthFrom(atoms: seq<Atom>, k: nat): nat
    requires k <= |atoms|
    decreases |atoms| - k
  {
    if k == |atoms| then 0 else Width(atoms[k]) + WidthFrom(atoms, k + 1)
  }

  lemma AtomThen(a: Atom, rest: Pattern, s: string, i: nat, j: int)
    ensures Matches(Then(AtomPattern(a), rest), s, i, j) <==> AtomAt(a, s, i) && Matches(rest, s, i + Width(a), j)
  {
    if a.Digits? {
      var digits := Exactly(Class(IsDigit), a.count);
      ClassRun(IsDigit, a.count, Some(a.count), s, i, i + a.count);
      if Matches(Then(digits, rest), s, i, j) {
        var k := ThenParts(digits, rest, s, i, j);
        ClassRun(IsDigit, a.count, Some(a.count), s, i, k);
      }
      if AtomAt(a, s, i) && Matches(rest, s, i + a.count, j) {
        ThenWhole(digits, rest, s, i, i + a.count, j);
      }
    } else {
      ClassThen(x => x == a.c, rest, s, i, j);
    }
  }

  lemma {:induction false} SequenceIs(atoms: seq<Atom>, k: nat, rest: Pattern, s: string, i: nat, j: int)
    requires k <= |atoms|
    ensures Matches(Sequence(atoms, k, rest), s, i, j) <==>
        AtomsAt(atoms, k, s, i) && Matches(rest, s, i + WidthFrom(atoms, k), j)
    decreases |atoms| - k
  {
    if k < |atoms| {
      AtomThen(atoms[k], Sequence(atoms, k + 1, rest), s, i, j);
      SequenceIs(atoms, k + 1, rest, s, i + Width(atoms[k]), j);
    }
  }

  /** The checks on the first nineteen characters. */
  predicate IsStamp(s: string) {
    && DigitsAt(s, 0, 4) && At(s, 4, '-') && DigitsAt(s, 5, 7) && At(s, 7, '-') && DigitsAt(s, 8, 10) && At(s, 10, 'T')
    && DigitsAt(s, 11, 13) && At(s, 13, ':') && DigitsAt(s, 14, 16) && At(s, 16, ':') && DigitsAt(s, 17, 19)
  }

  lemma StampIs(s: string)
    ensures IsStamp(s) <==> AtomsAt(STAMP, 0, s, 0)
    ensures WidthFrom(STAMP, 0) == 19
  {
    assert AtomsAt(STAMP, 11, s, 19) && WidthFrom(STAMP, 11) == 0;
    assert AtomsAt(STAMP, 10, s, 17) <==> DigitsAt(s, 17, 19);
    assert AtomsAt(STAMP, 9, s, 16) <==> At(s, 16, ':') && AtomsAt(STAMP, 10, s, 17);
    assert AtomsAt(STAMP, 8, s, 14) <==> DigitsAt(s, 14, 16) && AtomsAt(STAMP, 9, s, 16);
    assert AtomsAt(STAMP, 7, s, 13) <==> At(s, 13, ':') && AtomsAt(STAMP, 8, s, 14);
    assert AtomsAt(STAMP, 6, s, 11) <==> DigitsAt(s, 11, 13) && AtomsAt(STAMP, 7, s, 13);
    assert AtomsAt(STAMP, 5, s, 10) <==> At(s, 10, 'T') && AtomsAt(STAMP, 6, s, 11);
    assert AtomsAt(STAMP, 4, s, 8) <==> DigitsAt(s, 8, 10) && AtomsAt(STAMP, 5, s, 10);
    assert AtomsAt(STAMP, 3, s, 7) <==> At(s, 7, '-') && AtomsAt(STAMP, 4, s, 8);
    assert AtomsAt(STAMP, 2, s, 5) <==> DigitsAt(s, 5, 7) && AtomsAt(STAMP, 3, s, 7);
    assert AtomsAt(STAMP, 1, s, 4) <==> At(s, 4, '-') && AtomsAt(STAMP, 2, s, 5);
    assert WidthFrom(STAMP, 8) == 5 && WidthFrom(STAMP, 5) == 9 && WidthFrom(STAMP, 2) == 14;
  }

  /** The check from the cursor on. */
  predicate IsZone(s: string, cursor: nat) {
    && cursor < |s|
    && if s[cursor] == 'Z' then cursor + 1 == |s|
       else
         && IsSign(s[cursor])
         && DigitsAt(s, cursor + 1, cursor + 3) && At(s, cursor + 3, ':') && DigitsAt(s, cursor + 4, cursor + 6)
         && cursor + 6 == |s|
  }

  lemma ZoneIs(s: string, i: nat)
    ensures Matches(ZonePattern(), s, i, |s|) <==> IsZone(s, i)
  {
    var minutes := Exactly(Class(IsDigit), 2);
    var offset := Then(Class(IsSign), Sequence(HOURS, 0, minutes));
    if i <= |s| {
      EitherIs(Char('Z'), offset, s, i, |s|);
    }
    ClassThen(IsSign, Sequence(HOURS, 0, minutes), s, i, |s|);
    SequenceIs(HOURS, 0, minutes, s, i + 1, |s|);
    assert AtomsAt(HOURS, 0, s, i + 1) <==> DigitsAt(s, i + 1, i + 3) && At(s, i + 3, ':') by {
      assert AtomsAt(HOURS, 2, s, i + 4);
      assert AtomsAt(HOURS, 1, s, i + 3) <==> At(s, i + 3, ':');
    }
    assert WidthFrom(HOURS, 1) == 1 && WidthFrom(HOURS, 0) == 3;
    ClassRun(IsDigit, 2, Some(2), s, i + 4, |s|);
  }

  lemma FractionIs(s: string, i: nat, k: int)
    ensures Matches(FractionPattern(), s, i, k) <==> At(s, i, '.') && AllIn(IsDigit, s, i + 1, k) && 1 <= k - i - 1 <= 9
  {
    ClassThen(x => x == '.', Repeat(Class(IsDigit), 1, Some(9)), s, i, k);
    ClassRun(IsDigit, 1, Some(9), s, i + 1, k);
  }

  /** A fraction must run to where its digits end, since no zone starts with a digit. */
  lemma AfterStamp(s: string, end: nat)
    requires 19 <= |s| && end <= |s|
    requires if At(s, 19, '.') then 20 <= end && AllIn(IsDigit, s, 20, end) && (end < |s| ==> !IsDigit(s[end]))
        else end == 19
    ensures Matches(Then(Maybe(FractionPattern()), ZonePattern()), s, 19, |s|) <==>
            (At(s, 19, '.') ==> 1 <= end - 20 <= 9) && IsZone(s, end)
  {
    var fraction, zone := FractionPattern(), ZonePattern();
    if Matches(Then(Maybe(fraction), zone), s, 19, |s|) {
      var k := ThenParts(Maybe(fraction), zone, s, 19, |s|);
      MaybeIs(fraction, s, 19, k);
      FractionIs(s, 19, k);
      ZoneIs(s, k);
    }
    if (At(s, 19, '.') ==> 1 <= end - 20 <= 9) && IsZone(s, end) {
      MaybeIs(fraction, s, 19, end);
      FractionIs(s, 19, end);
      ZoneIs(s, end);
      ThenWhole(Maybe(fraction), zone, s, 19, end, |s|);
    }
  }

  /** `end` is where the fraction's digits stop, or where a fraction would start if there is none. */
  predicate FractionStops(s: string, end: nat) {
    && end <= |s|
    && if At(s, 19, '.') then 20 <= end && DigitsAt(s, 20, end) && (end < |s| ==> !IsDigit(s[end])) else end == 19
  }

  lemma TimestampMeans(s: string, end: nat)
    requires IsStamp(s) ==> FractionStops(s, end)
    ensures Accepts(TimestampPattern(), s) <==> IsStamp(s) && (At(s, 19, '.') ==> 1 <= end - 20 <= 9) && IsZone(s, end)
  {
    StampIs(s);
    StampThen(STAMP, Then(Maybe(FractionPattern()), ZonePattern()), s);
    if IsStamp(s) {
      AfterStamp(s, end);
    }
  }

  lemma StampThen(atoms: seq<Atom>, rest: Pattern, s: string)
    requires (IsStamp(s) <==> AtomsAt(atoms, 0, s, 0)) && WidthFrom(atoms, 0) == 19
    ensures Matches(Sequence(atoms, 0, rest), s, 0, |s|) <==> IsStamp(s) && Matches(rest, s, 19, |s|)
  {
    SequenceIs(atoms, 0, rest, s, 0, |s|);
  }

  lemma {:induction false} DigitsStop(s: string, from: nat) returns (end: nat)
    requires from <= |s|
    ensures from <= end <= |s| && DigitsAt(s, from, end) && (end < |s| ==> !IsDigit(s[end]))
    decreases |s| - from
  {
    end := from;
    if from < |s| && IsDigit(s[from]) {
      end := DigitsStop(s, from + 1);
    }
  }

  lemma AcceptedIsShort(s: string)
    requires Accepts(TimestampPattern(), s)
    ensures |s| <= MAX_TIMESTAMP
  {
    var end := 19;
    if At(s, 19, '.') {
      end := DigitsStop(s, 20);
    }
    TimestampMeans(s, end);
  }

  /** The timestamp check, whose cursor runs over the fraction: it accepts exactly the published pattern. */
  method IsTimestamp(s: string) returns (ok: bool)
    ensures ok <==> Accepts(TimestampPattern(), s)
  {
    if |s| > MAX_TIMESTAMP {
      if Accepts(TimestampPattern(), s) {
        AcceptedIsShort(s);
      }
      return false;
    }
    if !IsStamp(s) {
      TimestampMeans(s, 19);
      return false;
    }
    var cursor := 19;
    if At(s, cursor, '.') {
      var start := cursor + 1;
      var end := start;
      while end < |s| && IsDigit(s[end])
        invariant 20 <= end <= |s| && DigitsAt(s, 20, end)
      {
        end := end + 1;
      }
      TimestampMeans(s, end);
      var fraction := end - start;
      if fraction == 0 || fraction > 9 {
        return false;
      }
      cursor := end;
    } else {
      TimestampMeans(s, 19);
    }
    ok := IsZone(s, cursor);
  }
}
