/**
 Image paths. The program keys its node map by strings joined with '/'; the model keys it by
 sequences of names, and this module proves the two views interchangeable: joining is injective,
 splitting undoes it, and the textual prefix test of a subtree is the sequence-prefix test.
 It also fixes the order in which the string-keyed map is iterated.
 */
module Paths {
  import opened Basics
  import opened Results

  type Name = string
  type Path = seq<Name>

  /** One component of an archive path once "", "." and ".." have been dealt with. */
  predicate IsName(n: Name) {
    n != "" && n != "." && n != ".." && '/' !in n
  }

  predicate IsPath(p: Path) {
    forall i :: 0 <= i < |p| ==> IsName(p[i])
  }

  /** Splitting at every '/', keeping empty pieces. */
  function Split(s: string): (parts: seq<string>)
    ensures |parts| >= 1
    ensures forall i :: 0 <= i < |parts| ==> '/' !in parts[i]
  {
    PiecesHaveNoSlash(s);
    SplitBy(s, IsSlash)
  }

  lemma PiecesHaveNoSlash(s: string)
    ensures forall part :: part in SplitBy(s, IsSlash) ==> '/' !in part
  {
    PiecesFree(s, IsSlash);
    forall part | part in SplitBy(s, IsSlash) ensures '/' !in part {
      assert Free(part, IsSlash);
    }
  }

  function Join(p: Path): (s: string) {
    if p == [] then ""
    else if |p| == 1 then p[0]
    else p[0] + "/" + Join(p[1..])
  }

  lemma SplitWithoutSlash(a: string)
    requires '/' !in a
    ensures Split(a) == [a]
  {
    SplitFree(a, IsSlash);
  }

  /** Splitting undoes joining; only the root, joined to "", comes back as one empty piece. */
  lemma {:induction false} SplitJoin(p: Path)
    requires IsPath(p)
    ensures Split(Join(p)) == if p == [] then [""] else p
  {
    if p == [] {
    } else if |p| == 1 {
      SplitWithoutSlash(p[0]);
      assert p == [p[0]];
    } else {
      var tail := p[1..];
      SplitJoin(tail);
      SplitConcat(p[0], Join(tail));
      SplitWithoutSlash(p[0]);
      assert p == [p[0]] + tail;
    }
  }

  lemma JoinInjective(p: Path, q: Path)
    requires IsPath(p) && IsPath(q) && Join(p) == Join(q)
    ensures p == q
  {
    SplitJoin(p);
    SplitJoin(q);
    OnlyRootJoinsToEmpty(p);
    OnlyRootJoinsToEmpty(q);
  }

  lemma OnlyRootJoinsToEmpty(p: Path)
    requires IsPath(p)
    ensures Join(p) == "" <==> p == []
  {
    if p != [] {
      assert IsName(p[0]);
    }
  }

  lemma JoinCons(n: Name, p: Path)
    requires p != []
    ensures Join([n] + p) == n + ("/" + Join(p))
  {
    assert ([n] + p)[1..] == p;
    assert n + "/" + Join(p) == n + ("/" + Join(p));
  }

  lemma {:induction false} JoinConcat(p: Path, q: Path)
    requires p != [] && q != []
    ensures Join(p + q) == Join(p) + ("/" + Join(q))
  {
    var n, tail := p[0], p[1..];
    assert p == [n] + tail && p + q == [n] + (tail + q);
    JoinCons(n, tail + q);
    if tail == [] {
      assert tail + q == q;
    } else {
      JoinConcat(tail, q);
      JoinCons(n, tail);
      Associates(n, "/" + Join(tail), "/" + Join(q));
      Associates("/", Join(tail), "/" + Join(q));
    }
  }

  /** A proper descendant of a non-root directory is exactly what its path plus '/' is a prefix of. */
  lemma DescendantIsTextPrefix(dir: Path, q: Path)
    requires IsPath(dir) && IsPath(q) && dir != []
    ensures (dir < q) <==> StartsWith(Join(q), Join(dir) + "/")
  {
    var prefix := Join(dir) + "/";
    if dir < q {
      assert q == dir + q[|dir|..];
      JoinConcat(dir, q[|dir|..]);
    }
    if StartsWith(Join(q), prefix) {
      var tail := Join(q)[|prefix|..];
      assert Join(q) == Join(dir) + "/" + tail;
      SplitJoin(q);
      SplitJoin(dir);
      SplitConcat(Join(dir), tail);
      assert Split(Join(q)) == dir + Split(tail);
      assert q != [] by { assert Join([]) == ""; }
      assert q[..|dir|] == dir;
    }
  }

  lemma SplitConcat(a: string, b: string)
    ensures Split(a + "/" + b) == Split(a) + Split(b)
  {
    SplitBoth(a, '/', b, IsSlash);
  }

  datatype PathError = NotRelative

  /** The path of a tar entry: relative, "." and empty pieces dropped, ".." refused. */
  function ArchivePath(s: string): (r: Result<Path, PathError>)
    ensures r.Ok? ==> IsPath(r.value)
  {
    if s != "" && s[0] == '/' then Err(NotRelative) else Components(Split(s))
  }

  function Components(parts: seq<string>): (r: Result<Path, PathError>)
    requires forall i :: 0 <= i < |parts| ==> '/' !in parts[i]
    ensures r.Ok? ==> IsPath(r.value)
  {
    if parts == [] then Ok([])
    else if parts[0] == "" || parts[0] == "." then Components(parts[1..])
    else if parts[0] == ".." then Err(NotRelative)
    else
      var rest :- Components(parts[1..]);
      Ok([parts[0]] + rest)
  }

  function Kept(parts: seq<string>): seq<string> {
    if parts == [] then []
    else (if parts[0] == "" || parts[0] == "." then [] else [parts[0]]) + Kept(parts[1..])
  }

  lemma {:induction false} ComponentsExactly(parts: seq<string>)
    requires forall i :: 0 <= i < |parts| ==> '/' !in parts[i]
    ensures Components(parts).Ok? <==> ".." !in parts
    ensures Components(parts).Ok? ==> Components(parts).value == Kept(parts)
  {
    if parts != [] {
      ComponentsExactly(parts[1..]);
      assert parts == [parts[0]] + parts[1..];
    }
  }

  /** An entry's path is refused exactly when it is absolute or holds ".."; else "" and "." are dropped from it. */
  lemma ArchivePathExactly(s: string)
    ensures ArchivePath(s).Ok? <==> (s == "" || s[0] != '/') && ".." !in Split(s)
    ensures ArchivePath(s).Ok? ==> ArchivePath(s).value == Kept(Split(s))
  {
    ComponentsExactly(Split(s));
  }

  /** How a path is written into an archive: the root becomes ".". */
  function ArchiveName(p: Path): string {
    if p == [] then "." else Join(p)
  }

  lemma {:induction false} ComponentsOfPath(p: Path)
    requires IsPath(p)
    ensures Components(p) == Ok(p)
  {
    if p != [] {
      ComponentsOfPath(p[1..]);
      assert p == [p[0]] + p[1..];
    }
  }

  /** Reading back a written path gives the path. */
  lemma ArchiveNameRoundTrip(p: Path)
    requires IsPath(p)
    ensures ArchivePath(ArchiveName(p)) == Ok(p)
  {
    if p == [] {
      assert Split(".") == ["."] by { SplitWithoutSlash("."); }
      assert Components(["."]) == Components([]);
    } else {
      SplitJoin(p);
      ComponentsOfPath(p);
      assert IsName(p[0]);
      assert Join(p)[0] == p[0][0];
    }
  }

  // The order of the string-keyed map.

  predicate TextLess(a: string, b: string) {
    b != "" && (a == "" || a[0] < b[0] || (a[0] == b[0] && TextLess(a[1..], b[1..])))
  }

  predicate Less(p: Path, q: Path) {
    TextLess(Join(p), Join(q))
  }

  lemma {:induction false} TextLessTotal(a: string, b: string)
    ensures a == b || TextLess(a, b) || TextLess(b, a)
    ensures !TextLess(a, a)
    ensures !(TextLess(a, b) && TextLess(b, a))
  {
    if a != "" {
      TextLessTotal(a[1..], a[1..]);
    }
    if a != "" && b != "" && a[0] == b[0] {
      TextLessTotal(a[1..], b[1..]);
      assert a == [a[0]] + a[1..] && b == [b[0]] + b[1..];
    }
  }

  lemma {:induction false} TextLessTransitive(a: string, b: string, c: string)
    requires TextLess(a, b) && TextLess(b, c)
    ensures TextLess(a, c)
  {
    if a != "" && a[0] == b[0] && b[0] == c[0] {
      TextLessTransitive(a[1..], b[1..], c[1..]);
    }
  }

  lemma {:induction false} PrefixTextLess(a: string, b: string)
    requires b != ""
    ensures TextLess(a, a + b)
  {
    if a != "" {
      assert (a + b)[1..] == a[1..] + b;
      PrefixTextLess(a[1..], b);
    }
  }

  ghost predicate FirstDifference(a: string, b: string, k: nat) {
    k < |a| && k < |b| && a[..k] == b[..k] && a[k] < b[k]
  }

  /** One text comes first if it is a proper start of the other, or has the lower character where they first differ. */
  lemma {:induction false} TextLessExactly(a: string, b: string)
    ensures TextLess(a, b) <==> a < b || exists k: nat :: FirstDifference(a, b, k)
  {
    if a != "" && b != "" && a[0] == b[0] {
      TextLessExactly(a[1..], b[1..]);
      assert a == [a[0]] + a[1..] && b == [b[0]] + b[1..];
      if k: nat :| FirstDifference(a[1..], b[1..], k) {
        assert a[..k + 1] == [a[0]] + a[1..][..k] && b[..k + 1] == [b[0]] + b[1..][..k];
        assert FirstDifference(a, b, k + 1);
      }
      if k: nat :| FirstDifference(a, b, k) {
        assert a[1..][..k - 1] == a[..k][1..] && b[1..][..k - 1] == b[..k][1..];
        assert FirstDifference(a[1..], b[1..], k - 1);
      }
    } else if a != "" && b != "" {
      SameStartSameFirst(a, b);
      assert a[..0] == b[..0];
      assert a[0] < b[0] ==> FirstDifference(a, b, 0);
    }
  }

  lemma SameStartSameFirst(a: string, b: string)
    ensures forall k :: 0 < k <= |a| && k <= |b| && a[..k] == b[..k] ==> a[0] == b[0]
    ensures a != "" && a < b ==> a[0] == b[0]
  {
    forall k | 0 < k <= |a| && k <= |b| && a[..k] == b[..k] ensures a[0] == b[0] {
      assert a[..k][0] == b[..k][0];
    }
  }

  lemma LessTotal(p: Path, q: Path)
    requires IsPath(p) && IsPath(q)
    ensures p == q || Less(p, q) || Less(q, p)
    ensures !Less(p, p)
    ensures !(Less(p, q) && Less(q, p))
  {
    TextLessTotal(Join(p), Join(q));
    if Join(p) == Join(q) {
      JoinInjective(p, q);
    }
  }

  lemma LessTransitive(p: Path, q: Path, r: Path)
    requires Less(p, q) && Less(q, r)
    ensures Less(p, r)
  {
    TextLessTransitive(Join(p), Join(q), Join(r));
  }

  /** A directory comes before everything under it. */
  lemma AncestorLess(dir: Path, q: Path)
    requires IsPath(dir) && IsPath(q) && dir < q
    ensures Less(dir, q)
  {
    var rest := q[|dir|..];
    assert q == dir + rest && rest != [];
    assert IsName(rest[0]) by { assert rest[0] == q[|dir|]; }
    if dir == [] {
      assert Join(q) != "";
    } else {
      JoinConcat(dir, rest);
      PrefixTextLess(Join(dir), "/" + Join(rest));
      assert Join(q) == Join(dir) + ("/" + Join(rest));
    }
  }

  // Listing a finite set of paths in that order.

  ghost predicate Ascending(list: seq<Path>) {
    forall i, j :: 0 <= i < j < |list| ==> Less(list[i], list[j])
  }

  ghost predicate Lists(list: seq<Path>, paths: set<Path>) {
    && Ascending(list)
    && (forall i :: 0 <= i < |list| ==> list[i] in paths)
    && (forall p :: p in paths ==> p in list)
  }

  ghost predicate AllPaths(paths: set<Path>) {
    forall p :: p in paths ==> IsPath(p)
  }

  predicate IsLeast(m: Path, paths: set<Path>) {
    m in paths && forall q :: q in paths && q != m ==> Less(m, q)
  }

  lemma {:induction false} LeastExists(paths: set<Path>)
    requires paths != {} && AllPaths(paths)
    ensures exists m :: IsLeast(m, paths)
  {
    var p :| p in paths;
    var others := paths - {p};
    if others == {} {
      assert forall q :: q in paths && q != p ==> q in others;
      assert IsLeast(p, paths);
    } else {
      LeastExists(others);
      var m :| IsLeast(m, others);
      LessTotal(p, m);
      if Less(p, m) {
        forall q | q in paths && q != p ensures Less(p, q) {
          if q != m { LessTransitive(p, m, q); }
        }
        assert IsLeast(p, paths);
      } else {
        assert IsLeast(m, paths);
      }
    }
  }

  lemma LeastUnique(paths: set<Path>)
    requires AllPaths(paths)
    ensures forall m, n :: IsLeast(m, paths) && IsLeast(n, paths) ==> m == n
  {
    forall m, n | IsLeast(m, paths) && IsLeast(n, paths) ensures m == n {
      LessTotal(m, n);
    }
  }

  function Listing(paths: set<Path>): seq<Path>
    requires AllPaths(paths)
  {
    if paths == {} then []
    else
      LeastExists(paths);
      LeastUnique(paths);
      var m :| m in paths && IsLeast(m, paths);
      [m] + Listing(paths - {m})
  }

  lemma ListsCons(m: Path, rest: seq<Path>, paths: set<Path>)
    requires IsLeast(m, paths) && Lists(rest, paths - {m})
    ensures Lists([m] + rest, paths)
  {
    var list := [m] + rest;
    forall p | p in paths ensures p in list {
      assert p == m || p in rest;
    }
    forall i, j | 0 <= i < j < |list| ensures Less(list[i], list[j]) {
      assert list[j] == rest[j - 1];
      assert rest[j - 1] in paths - {m};
    }
  }

  /** It lists the set's members in ascending order, each once. */
  lemma {:induction false} ListingIs(paths: set<Path>)
    requires AllPaths(paths)
    ensures Lists(Listing(paths), paths) && |Listing(paths)| == |paths|
  {
    if paths != {} {
      LeastExists(paths);
      LeastUnique(paths);
      var m :| m in paths && IsLeast(m, paths);
      ListingIs(paths - {m});
      ListsCons(m, Listing(paths - {m}), paths);
      assert Listing(paths) == [m] + Listing(paths - {m});
    }
  }

  lemma SameHead(a: seq<Path>, b: seq<Path>, paths: set<Path>)
    requires AllPaths(paths) && Lists(a, paths) && Lists(b, paths) && a != [] && b != []
    ensures a[0] == b[0]
  {
    HeadIsLeast(a, paths);
    HeadIsLeast(b, paths);
    LessTotal(a[0], b[0]);
  }

  /** There is only one such listing, so iterating the map is deterministic. */
  lemma {:induction false} ListingUnique(a: seq<Path>, b: seq<Path>, paths: set<Path>)
    requires AllPaths(paths) && Lists(a, paths) && Lists(b, paths)
    ensures a == b
  {
    ListingEmpty(a, paths);
    ListingEmpty(b, paths);
    if paths != {} {
      SameHead(a, b, paths);
      TailLists(a, paths);
      TailLists(b, paths);
      ListingUnique(a[1..], b[1..], paths - {a[0]});
      assert a == [a[0]] + a[1..] && b == [b[0]] + b[1..];
    }
  }

  lemma ListingEmpty(a: seq<Path>, paths: set<Path>)
    requires Lists(a, paths)
    ensures a == [] <==> paths == {}
  {
    if a != [] {
      assert a[0] in paths;
    }
  }

  lemma HeadIsLeast(a: seq<Path>, paths: set<Path>)
    requires AllPaths(paths) && Lists(a, paths) && a != []
    ensures IsLeast(a[0], paths)
  {
    forall q | q in paths && q != a[0] ensures Less(a[0], q) {
      var i :| 0 <= i < |a| && a[i] == q;
      assert 0 < i;
    }
  }

  lemma TailLists(a: seq<Path>, paths: set<Path>)
    requires AllPaths(paths) && Lists(a, paths) && a != []
    ensures Lists(a[1..], paths - {a[0]})
  {
    var rest := a[1..];
    forall i | 0 <= i < |rest| ensures rest[i] in paths - {a[0]} {
      assert Less(a[0], a[i + 1]);
      LessTotal(a[0], a[0]);
    }
    forall p | p in paths - {a[0]} ensures p in rest {
      var i :| 0 <= i < |a| && a[i] == p;
      assert rest[i - 1] == p;
    }
    forall i, j | 0 <= i < j < |rest| ensures Less(rest[i], rest[j]) {
      assert rest[i] == a[i + 1] && rest[j] == a[j + 1];
    }
  }
}
