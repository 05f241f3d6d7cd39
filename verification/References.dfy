/**
 References to runtime values inside a tenant's environment: `${NIBRUN_...}`. The program finds
 all complete references first and then splices their values in by index; this module proves that
 equal to one plain pass from left to right.
 */
module References {
  import opened Basics
  import opened Results

  const PREFIX := "NIBRUN_"

  predicate IsNameChar(c: char) {
    'a' <= c <= 'z' || 'A' <= c <= 'Z' || '0' <= c <= '9' || c == '_'
  }

  /** Where the run of name characters starting at `k` ends. */
  function NameEnd(v: string, k: nat): (e: nat)
    requires k <= |v|
    ensures k <= e <= |v|
    ensures forall i :: k <= i < e ==> IsNameChar(v[i])
    ensures e < |v| ==> !IsNameChar(v[e])
    decreases |v| - k
  {
    if k == |v| || !IsNameChar(v[k]) then k else NameEnd(v, k + 1)
  }

  /** The end of the complete reference that starts at `i`, if one does. */
  function ReferenceAt(v: string, i: nat): (end: Option<nat>)
    ensures end.Some? ==> i + 2 < end.value <= |v| && v[i] == '$'
    ensures end.Some? ==> forall k :: i < k < end.value ==> v[k] != '$'
  {
    if i + 2 <= |v| && v[i] == '$' && v[i + 1] == '{' && StartsWith(v[i + 2..], PREFIX) then
      var e := NameEnd(v, i + 2);
      if e < |v| && v[e] == '}' then
        assert e > i + 2 by {
          assert v[i + 2..][0] == PREFIX[0];
        }
        Some(e + 1)
      else None
    else None
  }

  function NameAt(v: string, start: nat, end: nat): string
    requires start + 2 < end <= |v|
  {
    v[start + 2..end - 1]
  }

  datatype Reference = Reference(start: nat, end: nat)

  /** Every complete reference at or after `i`, found by looking at every place. */
  function ReferencesFrom(v: string, i: nat): seq<Reference>
    decreases |v| - i
  {
    if i >= |v| then []
    else
      var end := ReferenceAt(v, i);
      (if end.Some? then [Reference(i, end.value)] else []) + ReferencesFrom(v, i + 1)
  }

  type Lookup = string -> Option<string>

  /** The places the references were found at, spliced. Fails with the first name that has no value. */
  function Splice(v: string, refs: seq<Reference>, at: nat, lookup: Lookup): Result<string, string>
    requires at <= |v| && Ordered(v, refs, at)
    decreases |refs|
  {
    if refs == [] then Ok(v[at..])
    else
      var name := NameAt(v, refs[0].start, refs[0].end);
      if lookup(name).None? then Err(name)
      else
        var rest :- Splice(v, refs[1..], refs[0].end, lookup);
        Ok(v[at..refs[0].start] + lookup(name).value + rest)
  }

  /** Increasing and disjoint, all from `at` on. */
  predicate Ordered(v: string, refs: seq<Reference>, at: nat)
    decreases |refs|
  {
    refs == [] ||
    (at <= refs[0].start && refs[0].start + 2 < refs[0].end <= |v| && Ordered(v, refs[1..], refs[0].end))
  }

  lemma OrderedEarlier(v: string, refs: seq<Reference>, at: nat, before: nat)
    requires Ordered(v, refs, at) && before <= at
    ensures Ordered(v, refs, before)
  {
  }

  /** No reference starts inside another. */
  lemma {:induction false} NothingInside(v: string, start: nat, end: nat, i: nat)
    requires start < i <= end && ReferenceAt(v, start) == Some(end)
    ensures ReferencesFrom(v, i) == ReferencesFrom(v, end)
    decreases end - i
  {
    if i < end {
      assert v[i] != '$';
      NothingInside(v, start, end, i + 1);
      assert [] + ReferencesFrom(v, i + 1) == ReferencesFrom(v, i + 1);
    }
  }

  lemma {:induction false} ReferencesOrdered(v: string, i: nat)
    ensures Ordered(v, ReferencesFrom(v, i), i)
    decreases |v| - i
  {
    if i < |v| {
      var end := ReferenceAt(v, i);
      var refs := ReferencesFrom(v, i);
      if end.Some? {
        NothingInside(v, i, end.value, i + 1);
        ReferencesOrdered(v, end.value);
        assert refs[1..] == ReferencesFrom(v, i + 1);
      } else {
        ReferencesOrdered(v, i + 1);
        FoundLater(v, i);
        OrderedEarlier(v, refs, i + 1, i);
      }
    }
  }

  /** The plain reading: copy each character, and put a value where a complete reference stands. */
  function Scan(v: string, i: nat, lookup: Lookup): Result<string, string>
    requires i <= |v|
    decreases |v| - i
  {
    if i == |v| then Ok("")
    else
      var end := ReferenceAt(v, i);
      if end.None? then
        var rest :- Scan(v, i + 1, lookup);
        Ok([v[i]] + rest)
      else
        var name := NameAt(v, i, end.value);
        if lookup(name).None? then Err(name)
        else
          var rest :- Scan(v, end.value, lookup);
          Ok(lookup(name).value + rest)
  }

  /** What reading the rest adds after `text`. */
  function Following(text: string, rest: Result<string, string>): Result<string, string> {
    if rest.Ok? then Ok(text + rest.value) else rest
  }

  lemma FollowingTwice(a: string, b: string, rest: Result<string, string>)
    ensures Following(a, Following(b, rest)) == Following(a + b, rest)
  {
    if rest.Ok? {
      assert a + (b + rest.value) == (a + b) + rest.value;
    }
  }

  lemma ScanCopies(v: string, i: nat, lookup: Lookup)
    requires i < |v| && ReferenceAt(v, i).None?
    ensures Scan(v, i, lookup) == Following([v[i]], Scan(v, i + 1, lookup))
  {
  }

  lemma SpliceFirst(v: string, refs: seq<Reference>, at: nat, lookup: Lookup)
    requires at <= |v| && refs != [] && Ordered(v, refs, at)
    ensures
      var name := NameAt(v, refs[0].start, refs[0].end);
      Splice(v, refs, at, lookup) ==
      if lookup(name).None? then Err(name)
      else Following(v[at..refs[0].start] + lookup(name).value, Splice(v, refs[1..], refs[0].end, lookup))
  {
  }

  lemma CopyFollows(v: string, at: nat, i: nat, lookup: Lookup)
    requires at <= i < |v| && ReferenceAt(v, i).None?
    ensures Following(v[at..i], Scan(v, i, lookup)) == Following(v[at..i + 1], Scan(v, i + 1, lookup))
  {
    ScanCopies(v, i, lookup);
    FollowingTwice(v[at..i], [v[i]], Scan(v, i + 1, lookup));
    assert v[at..i] + [v[i]] == v[at..i + 1];
  }

  lemma FoundLater(v: string, i: nat)
    requires i < |v| && ReferenceAt(v, i).None?
    ensures ReferencesFrom(v, i) == ReferencesFrom(v, i + 1)
  {
    assert [] + ReferencesFrom(v, i + 1) == ReferencesFrom(v, i + 1);
  }

  /** Splicing what was found from `i` on, with the copied text starting at `at`. */
  lemma {:induction false} SpliceIsScan(v: string, at: nat, i: nat, lookup: Lookup)
    requires at <= i <= |v|
    ensures Ordered(v, ReferencesFrom(v, i), at)
    ensures Splice(v, ReferencesFrom(v, i), at, lookup) == Following(v[at..i], Scan(v, i, lookup))
    decreases |v| - i
  {
    ReferencesOrdered(v, i);
    var refs := ReferencesFrom(v, i);
    OrderedEarlier(v, refs, i, at);
    if i == |v| {
      assert v[at..] == v[at..i] + "";
    } else if ReferenceAt(v, i).None? {
      FoundLater(v, i);
      SpliceIsScan(v, at, i + 1, lookup);
      CopyFollows(v, at, i, lookup);
    } else {
      SpliceReference(v, at, i, lookup);
    }
  }

  lemma SpliceReference(v: string, at: nat, i: nat, lookup: Lookup)
    requires at <= i < |v| && ReferenceAt(v, i).Some? && Ordered(v, ReferencesFrom(v, i), at)
    ensures Splice(v, ReferencesFrom(v, i), at, lookup) == Following(v[at..i], Scan(v, i, lookup))
    decreases |v| - i, 0
  {
    var refs, end := ReferencesFrom(v, i), ReferenceAt(v, i).value;
    NothingInside(v, i, end, i + 1);
    assert refs[0] == Reference(i, end) && refs[1..] == ReferencesFrom(v, end);
    SpliceIsScan(v, end, end, lookup);
    SpliceFirst(v, refs, at, lookup);
    var name, rest := NameAt(v, i, end), Scan(v, end, lookup);
    assert Following(v[end..end], rest) == rest by {
      if rest.Ok? { assert v[end..end] + rest.value == rest.value; }
    }
    if lookup(name).Some? {
      FollowingTwice(v[at..i], lookup(name).value, rest);
      assert Scan(v, i, lookup) == Following(lookup(name).value, rest);
    }
  }

  function Expand(v: string, lookup: Lookup): Result<string, string> {
    ReferencesOrdered(v, 0);
    Splice(v, ReferencesFrom(v, 0), 0, lookup)
  }

  /** Expansion by index is the plain left-to-right reading. */
  lemma ExpandIsScan(v: string, lookup: Lookup)
    ensures Expand(v, lookup) == Scan(v, 0, lookup)
  {
    SpliceIsScan(v, 0, 0, lookup);
    var scanned := Scan(v, 0, lookup);
    if scanned.Ok? {
      assert v[0..0] + scanned.value == scanned.value;
    }
  }

  /** The loop over the found references. */
  method ExpandInto(v: string, lookup: Lookup) returns (r: Result<string, string>)
    ensures r == Scan(v, 0, lookup)
  {
    ExpandIsScan(v, lookup);
    ReferencesOrdered(v, 0);
    var refs := ReferencesFrom(v, 0);
    var expanded := "";
    var at: nat := 0;
    assert refs[0..] == refs && forall rest: string :: expanded + rest == rest;
    for k := 0 to |refs|
      invariant at <= |v| && Ordered(v, refs[k..], at)
      invariant
        var rest := Splice(v, refs[k..], at, lookup);
        Splice(v, refs, 0, lookup) == Following(expanded, rest)
    {
      assert refs[k..][0] == refs[k] && refs[k..][1..] == refs[k + 1..];
      var name := NameAt(v, refs[k].start, refs[k].end);
      var found := lookup(name);
      if found.None? {
        return Err(name);
      }
      ghost var before, copied := expanded, v[at..refs[k].start] + found.value;
      expanded := expanded + v[at..refs[k].start] + found.value;
      assert forall rest: string :: before + (copied + rest) == expanded + rest;
      at := refs[k].end;
    }
    assert refs[|refs|..] == [];
    r := Ok(expanded + v[at..]);
  }

  /** Every complete reference in `v` from `i` on has a value. */
  predicate AllKnown(v: string, i: nat, lookup: Lookup) {
    forall k | i <= k < |v| && ReferenceAt(v, k).Some? :: lookup(NameAt(v, k, ReferenceAt(v, k).value)).Some?
  }

  lemma KnownAfterCopy(v: string, i: nat, lookup: Lookup)
    requires i < |v| && ReferenceAt(v, i).None?
    ensures AllKnown(v, i, lookup) <==> AllKnown(v, i + 1, lookup)
  {
  }

  lemma KnownAfterReference(v: string, i: nat, lookup: Lookup)
    requires i < |v| && ReferenceAt(v, i).Some?
    ensures
      var end := ReferenceAt(v, i).value;
      AllKnown(v, i, lookup) <==> lookup(NameAt(v, i, end)).Some? && AllKnown(v, end, lookup)
  {
    var end := ReferenceAt(v, i).value;
    forall k: nat | i < k < end ensures ReferenceAt(v, k) == None {
      assert v[k] != '$';
    }
  }

  /** Reading succeeds exactly when every complete reference has a value. */
  lemma {:induction false} ScanSucceeds(v: string, i: nat, lookup: Lookup)
    requires i <= |v|
    ensures Scan(v, i, lookup).Ok? <==> AllKnown(v, i, lookup)
    decreases |v| - i
  {
    if i < |v| {
      if ReferenceAt(v, i).None? {
        KnownAfterCopy(v, i, lookup);
        ScanSucceeds(v, i + 1, lookup);
      } else {
        KnownAfterReference(v, i, lookup);
        ScanSucceeds(v, ReferenceAt(v, i).value, lookup);
      }
    }
  }

  // What a reference is, by its text.

  const CAPITALS := "ABCDEFGHIJKLMNOPQRSTUVWXYZ"
  const LETTERS := "abcdefghijklmnopqrstuvwxyz"
  const DIGITS := "0123456789"

  predicate IsNameLetter(c: char) {
    c in CAPITALS || c in LETTERS || c in DIGITS || c == '_'
  }

  /** The name of a runtime value: the prefix, and then letters, digits and underscores. */
  ghost predicate IsRuntimeName(name: string) {
    StartsWith(name, "NIBRUN_") && forall i :: 0 <= i < |name| ==> IsNameLetter(name[i])
  }

  lemma Capital(c: char)
    ensures c in CAPITALS <==> 'A' <= c <= 'Z'
  {
    if 'A' <= c <= 'Z' {
      assert CAPITALS[c as int - 'A' as int] == c;
    }
  }

  lemma Letter(c: char)
    ensures c in LETTERS <==> 'a' <= c <= 'z'
  {
    if 'a' <= c <= 'z' {
      assert LETTERS[c as int - 'a' as int] == c;
    }
  }

  lemma NameCharacter(c: char)
    ensures IsNameChar(c) <==> IsNameLetter(c)
  {
    Capital(c);
    Letter(c);
    if '0' <= c <= '9' {
      assert DIGITS[c as int - '0' as int] == c;
    }
  }

  lemma RuntimeName(s: string)
    requires forall i :: 0 <= i < |s| ==> IsNameChar(s[i])
    ensures IsRuntimeName(PREFIX + s)
  {
    var name := PREFIX + s;
    assert forall i :: 0 <= i < |PREFIX| ==> IsNameChar(PREFIX[i]);
    forall i | 0 <= i < |name| ensures IsNameLetter(name[i]) {
      assert name[i] == if i < |PREFIX| then PREFIX[i] else s[i - |PREFIX|];
      NameCharacter(name[i]);
    }
  }

  lemma {:induction false} NameEndIs(v: string, k: nat, e: nat)
    requires k <= e < |v| && !IsNameChar(v[e]) && forall i :: k <= i < e ==> IsNameChar(v[i])
    ensures NameEnd(v, k) == e
    decreases e - k
  {
    if k < e {
      NameEndIs(v, k + 1, e);
    }
  }

  lemma ReferenceText(v: string, i: nat, name: string)
    requires i + 3 + |name| <= |v| && v[i..i + 3 + |name|] == "${" + name + "}"
    ensures v[i] == '$' && v[i + 1] == '{' && v[i + 2 + |name|] == '}' && v[i + 2..i + 2 + |name|] == name
    ensures forall k :: 0 <= k < |name| ==> v[i + 2 + k] == name[k]
  {
    var t := "${" + name + "}";
    assert forall k :: 0 <= k < |t| ==> t[k] == v[i..i + 3 + |name|][k] == v[i + k];
    assert forall k :: 0 <= k < |name| ==> t[2 + k] == name[k];
    assert t[0] == '$' && t[1] == '{' && t[2 + |name|] == '}';
  }

  /** "${", a runtime value's name and "}" at place `i` are a reference that ends with them. */
  lemma ReferenceStands(v: string, i: nat, name: string)
    requires IsRuntimeName(name) && i + 3 + |name| <= |v| && v[i..i + 3 + |name|] == "${" + name + "}"
    ensures ReferenceAt(v, i) == Some(i + 3 + |name|) && NameAt(v, i, i + 3 + |name|) == name
  {
    ReferenceText(v, i, name);
    forall k | i + 2 <= k < i + 2 + |name| ensures IsNameChar(v[k]) {
      NameCharacter(v[k]);
      assert v[k] == name[k - i - 2];
    }
    NameEndIs(v, i + 2, i + 2 + |name|);
    assert v[i + 2..][..|PREFIX|] == name[..|PREFIX|];
  }

  /** And nothing else is a reference. */
  lemma ReferenceIs(v: string, i: nat)
    requires ReferenceAt(v, i).Some?
    ensures
      var e := ReferenceAt(v, i).value;
      var name := NameAt(v, i, e);
      IsRuntimeName(name) && v[i..e] == "${" + name + "}" && e == i + 3 + |name|
  {
    NameIs(v, i);
    Assembled(v, i, ReferenceAt(v, i).value);
  }

  lemma NameIs(v: string, i: nat)
    requires ReferenceAt(v, i).Some?
    ensures IsRuntimeName(NameAt(v, i, ReferenceAt(v, i).value))
  {
    var name := NameAt(v, i, ReferenceAt(v, i).value);
    assert name[..|PREFIX|] == v[i + 2..][..|PREFIX|];
    forall k | 0 <= k < |name| ensures IsNameLetter(name[k]) {
      assert name[k] == v[i + 2 + k];
      NameCharacter(name[k]);
    }
  }

  lemma Assembled(v: string, i: nat, e: nat)
    requires i + 2 < e <= |v| && v[i] == '$' && v[i + 1] == '{' && v[e - 1] == '}'
    ensures v[i..e] == "${" + v[i + 2..e - 1] + "}"
  {
    assert v[i..e] == [v[i]] + [v[i + 1]] + v[i + 2..e - 1] + [v[e - 1]];
  }

  /** A complete reference at place `i`: "${", the name of a runtime value and "}", and nothing else. */
  lemma ReferenceExactly(v: string, i: nat, e: nat)
    ensures ReferenceAt(v, i) == Some(e) <==>
              i + 2 < e <= |v| && exists name :: IsRuntimeName(name) && v[i..e] == "${" + name + "}"
    ensures ReferenceAt(v, i) == Some(e) ==>
              IsRuntimeName(NameAt(v, i, e)) && v[i..e] == "${" + NameAt(v, i, e) + "}"
  {
    if ReferenceAt(v, i) == Some(e) {
      ReferenceIs(v, i);
    }
    if i + 2 < e <= |v| && exists name :: IsRuntimeName(name) && v[i..e] == "${" + name + "}" {
      var name :| IsRuntimeName(name) && v[i..e] == "${" + name + "}";
      assert |v[i..e]| == 3 + |name|;
      ReferenceStands(v, i, name);
    }
  }

  // What becomes of text around references.

  lemma {:induction false} ScanPlain(v: string, i: nat, k: nat, lookup: Lookup)
    requires i <= k <= |v| && '$' !in v[i..k]
    ensures Scan(v, i, lookup) == Following(v[i..k], Scan(v, k, lookup))
    decreases k - i
  {
    if i == k {
      var rest := Scan(v, k, lookup);
      assert rest.Ok? ==> v[i..i] + rest.value == rest.value;
    } else {
      assert v[i..k] == [v[i]] + v[i + 1..k];
      assert v[i] in v[i..k];
      ScanCopies(v, i, lookup);
      ScanPlain(v, i + 1, k, lookup);
      FollowingTwice([v[i]], v[i + 1..k], Scan(v, k, lookup));
    }
  }

  lemma Middle(a: string, open: string, name: string, close: string, b: string)
    ensures
      var v, middle := a + open + name + close + b, open + name + close;
      var end := |a| + |middle|;
      v[0..|a|] == a && v[|a|..end] == middle && v[end..|v|] == b
  {
  }

  lemma Placed(v: string, a: string, name: string, b: string)
    requires v == a + "${" + name + "}" + b
    ensures
      var end := |a| + 3 + |name|;
      |v| == end + |b| && v[0..|a|] == a && v[|a|..end] == "${" + name + "}" && v[end..|v|] == b
  {
    Middle(a, "${", name, "}", b);
    assert |"${" + name + "}"| == 3 + |name|;
  }

  /** A reference between two texts is found there. */
  lemma ReferenceWithin(v: string, a: string, name: string, b: string)
    requires IsRuntimeName(name) && v == a + "${" + name + "}" + b
    ensures
      var end := |a| + 3 + |name|;
      && |v| == end + |b| && v[0..|a|] == a && v[end..|v|] == b
      && ReferenceAt(v, |a|) == Some(end) && NameAt(v, |a|, end) == name
  {
    Placed(v, a, name, b);
    ReferenceStands(v, |a|, name);
  }

  lemma ReferenceScans(v: string, i: nat, end: nat, lookup: Lookup)
    requires ReferenceAt(v, i) == Some(end) && lookup(NameAt(v, i, end)).Some?
    ensures Scan(v, i, lookup) == Following(lookup(NameAt(v, i, end)).value, Scan(v, end, lookup))
  {
  }

  /** Text without a dollar sign stays as it is around a reference, and the value takes the reference's place. */
  lemma ReferenceExpands(v: string, a: string, name: string, b: string, lookup: Lookup)
    requires v == a + "${" + name + "}" + b && '$' !in a && '$' !in b
    requires IsRuntimeName(name) && lookup(name).Some?
    ensures Scan(v, 0, lookup) == Ok(a + lookup(name).value + b)
  {
    ReferenceWithin(v, a, name, b);
    ScanAround(v, a, |a| + 3 + |name|, b, lookup);
  }

  lemma ScanAround(v: string, a: string, end: nat, b: string, lookup: Lookup)
    requires |a| <= end <= |v| && v[0..|a|] == a && v[end..|v|] == b && '$' !in a && '$' !in b
    requires ReferenceAt(v, |a|) == Some(end) && lookup(NameAt(v, |a|, end)).Some?
    ensures Scan(v, 0, lookup) == Ok(a + lookup(NameAt(v, |a|, end)).value + b)
  {
    ScanPlain(v, 0, |a|, lookup);
    ReferenceScans(v, |a|, end, lookup);
    ScanPlain(v, end, |v|, lookup);
    assert b + "" == b;
    Associates(a, lookup(NameAt(v, |a|, end)).value, b);
  }
}
