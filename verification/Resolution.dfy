/**
 Path resolution, seen apart from the loop that computes it. A journey goes on from a place with
 names ahead, one name at a time; resolution is where the journey from the root ends, and it fails
 exactly where a journey must stop. From this, and from the text of a link alone, follows where a
 link leads.
 */
module Resolution {
  import opened Basics
  import opened Results
  import opened Paths
  import opened Nodes

  /** Where a journey stands, and the names still ahead of it. */
  datatype Stage = Stage(at: Path, ahead: seq<string>)

  /** The next name is not one of those that mean "here" or "up". */
  predicate NamesSomething(s: Stage) {
    s.ahead != [] && s.ahead[0] != "" && s.ahead[0] != "." && s.ahead[0] != ".."
  }

  function Ahead(s: Stage): Path
    requires s.ahead != []
  {
    s.at + [s.ahead[0]]
  }

  /** The next name is a symbolic link, and not a last one that is to be left alone. */
  predicate AtLink(tree: Tree, follow: bool, s: Stage) {
    && NamesSomething(s) && Ahead(s) in tree && tree[Ahead(s)].kind.Symlink?
    && (|s.ahead| > 1 || follow)
  }

  /** The next name is a file, and there are names after it. */
  predicate AtBar(tree: Tree, s: Stage) {
    && NamesSomething(s) && |s.ahead| > 1 && Ahead(s) in tree
    && !tree[Ahead(s)].kind.Symlink? && !tree[Ahead(s)].kind.Directory?
  }

  /** A journey goes on unless nothing is ahead, a file bars it, or a link is not text. */
  predicate GoesOn(tree: Tree, follow: bool, s: Stage) {
    && s.ahead != [] && !AtBar(tree, s)
    && (AtLink(tree, follow, s) ==> tree[Ahead(s)].kind.link.Text?)
  }

  function Next(tree: Tree, follow: bool, s: Stage): Stage
    requires GoesOn(tree, follow, s)
  {
    var name, rest := s.ahead[0], s.ahead[1..];
    if AtLink(tree, follow, s) then
      var text := tree[Ahead(s)].kind.link.text;
      if StartsWith(text, "/") then Stage([], Split(text) + rest) else Stage(s.at, Split(text) + rest)
    else if NamesSomething(s) then Stage(Ahead(s), rest)
    else if name == ".." && s.at != [] then Stage(s.at[..|s.at| - 1], rest)
    else Stage(s.at, rest)
  }

  /** The stage after `n` steps, with the number of links followed on the way. */
  function After(tree: Tree, follow: bool, s: Stage, n: nat): Option<(Stage, nat)>
    decreases n
  {
    if n == 0 then Some((s, 0))
    else if !GoesOn(tree, follow, s) then None
    else
      match After(tree, follow, Next(tree, follow, s), n - 1)
      case None => None
      case Some(end) => Some((end.0, end.1 + if AtLink(tree, follow, s) then 1 else 0))
  }

  ghost predicate Reaches(tree: Tree, follow: bool, s: Stage, end: Stage, links: nat) {
    exists n: nat :: After(tree, follow, s, n) == Some((end, links))
  }

  /** The walk from any stage of a journey, within the links allowed, is the walk from its start. */
  lemma {:induction false} WalkOn(tree: Tree, follow: bool, s: Stage, n: nat, end: Stage, links: nat, l: nat)
    requires After(tree, follow, s, n) == Some((end, l)) && links + l <= MAX_SYMLINKS
    ensures Walk(tree, s.at, s.ahead, links, follow) == Walk(tree, end.at, end.ahead, links + l, follow)
    decreases n
  {
    if n > 0 {
      var next := Next(tree, follow, s);
      if AtLink(tree, follow, s) {
        WalkOn(tree, follow, next, n - 1, end, links + 1, l - 1);
      } else {
        WalkOn(tree, follow, next, n - 1, end, links, l);
      }
    }
  }

  /** A journey that stands at `s` with `links` followed ends there. */
  predicate Ends(tree: Tree, follow: bool, s: Stage, links: nat) {
    s.ahead == [] || AtBar(tree, s)
    || (AtLink(tree, follow, s) && (links == MAX_SYMLINKS || tree[Ahead(s)].kind.link.Raw?))
  }

  lemma ReachesNext(tree: Tree, follow: bool, s: Stage, end: Stage, l: nat)
    requires GoesOn(tree, follow, s) && Reaches(tree, follow, Next(tree, follow, s), end, l)
    ensures Reaches(tree, follow, s, end, l + if AtLink(tree, follow, s) then 1 else 0)
  {
    var n: nat :| After(tree, follow, Next(tree, follow, s), n) == Some((end, l));
    assert After(tree, follow, s, n + 1) == Some((end, l + if AtLink(tree, follow, s) then 1 else 0));
  }

  /** Every journey ends, within the links allowed. */
  lemma {:induction false} JourneyEnds(tree: Tree, follow: bool, s: Stage, links: nat) returns (end: Stage, l: nat)
    requires links <= MAX_SYMLINKS
    ensures links + l <= MAX_SYMLINKS && Reaches(tree, follow, s, end, l) && Ends(tree, follow, end, links + l)
    decreases MAX_SYMLINKS - links, |s.ahead|
  {
    if Ends(tree, follow, s, links) {
      end, l := s, 0;
      assert After(tree, follow, s, 0) == Some((s, 0));
    } else {
      var next := Next(tree, follow, s);
      if AtLink(tree, follow, s) {
        end, l := JourneyEnds(tree, follow, next, links + 1);
        ReachesNext(tree, follow, s, end, l);
        l := l + 1;
      } else {
        end, l := JourneyEnds(tree, follow, next, links);
        ReachesNext(tree, follow, s, end, l);
      }
    }
  }

  function Start(p: Path): Stage {
    Stage([], p)
  }

  /** The journey along `p` ends at `q`, following at most forty links. */
  ghost predicate Arrives(tree: Tree, p: Path, follow: bool, q: Path) {
    exists l: nat :: l <= 40 && Reaches(tree, follow, Start(p), Stage(q, []), l)
  }

  /** It has followed forty links and meets one more. */
  ghost predicate MeetsOneTooMany(tree: Tree, p: Path, follow: bool) {
    exists s :: Reaches(tree, follow, Start(p), s, 40) && AtLink(tree, follow, s)
  }

  /** It meets, among the first forty links, one that is not text. */
  ghost predicate MeetsRawLink(tree: Tree, p: Path, follow: bool) {
    exists s, l: nat :: l < 40 && Reaches(tree, follow, Start(p), s, l)
                && AtLink(tree, follow, s) && tree[Ahead(s)].kind.link.Raw?
  }

  /** It meets a file with names after it. */
  ghost predicate MeetsBar(tree: Tree, p: Path, follow: bool) {
    exists s, l: nat :: l <= 40 && Reaches(tree, follow, Start(p), s, l) && AtBar(tree, s)
  }

  lemma ResolveAt(tree: Tree, p: Path, follow: bool, s: Stage, l: nat)
    requires IsPath(p) && Reaches(tree, follow, Start(p), s, l) && l <= MAX_SYMLINKS
    ensures Resolve(tree, p, follow) == Walk(tree, s.at, s.ahead, l, follow)
  {
    ResolveFromPieces(tree, p, follow);
    var n: nat :| After(tree, follow, Start(p), n) == Some((s, l));
    WalkOn(tree, follow, Start(p), n, s, 0, l);
  }

  lemma ArrivedAt(tree: Tree, p: Path, follow: bool, q: Path)
    requires IsPath(p) && Arrives(tree, p, follow, q)
    ensures Resolve(tree, p, follow) == Ok(q)
  {
    var l: nat :| l <= 40 && Reaches(tree, follow, Start(p), Stage(q, []), l);
    ResolveAt(tree, p, follow, Stage(q, []), l);
  }

  lemma MetOneTooMany(tree: Tree, p: Path, follow: bool)
    requires IsPath(p) && MeetsOneTooMany(tree, p, follow)
    ensures Resolve(tree, p, follow) == Err(TooManyLinks)
  {
    var s :| Reaches(tree, follow, Start(p), s, 40) && AtLink(tree, follow, s);
    ResolveAt(tree, p, follow, s, 40);
  }

  lemma MetRawLink(tree: Tree, p: Path, follow: bool)
    requires IsPath(p) && MeetsRawLink(tree, p, follow)
    ensures Resolve(tree, p, follow) == Err(LinkNotText)
  {
    var s, l: nat :| l < 40 && Reaches(tree, follow, Start(p), s, l)
        && AtLink(tree, follow, s) && tree[Ahead(s)].kind.link.Raw?;
    ResolveAt(tree, p, follow, s, l);
  }

  lemma MetBar(tree: Tree, p: Path, follow: bool)
    requires IsPath(p) && MeetsBar(tree, p, follow)
    ensures Resolve(tree, p, follow) == Err(TraversesNonDirectory)
  {
    var s, l: nat :| l <= 40 && Reaches(tree, follow, Start(p), s, l) && AtBar(tree, s);
    ResolveAt(tree, p, follow, s, l);
  }

  /** One of the four always happens. */
  lemma JourneyOutcome(tree: Tree, p: Path, follow: bool)
    ensures (exists q :: Arrives(tree, p, follow, q))
         || MeetsOneTooMany(tree, p, follow) || MeetsRawLink(tree, p, follow) || MeetsBar(tree, p, follow)
  {
    var end, l := JourneyEnds(tree, follow, Start(p), 0);
    if end.ahead == [] {
      assert end == Stage(end.at, []);
      assert Arrives(tree, p, follow, end.at);
    }
  }

  /**
   Resolution succeeds exactly where the journey arrives, and fails exactly when it meets a
   forty-first link, a link that is not text, or a file in the way.
   */
  lemma ResolveExactly(tree: Tree, p: Path, follow: bool)
    requires IsPath(p)
    ensures forall q :: Resolve(tree, p, follow) == Ok(q) <==> Arrives(tree, p, follow, q)
    ensures Resolve(tree, p, follow) == Err(TooManyLinks) <==> MeetsOneTooMany(tree, p, follow)
    ensures Resolve(tree, p, follow) == Err(LinkNotText) <==> MeetsRawLink(tree, p, follow)
    ensures Resolve(tree, p, follow) == Err(TraversesNonDirectory) <==> MeetsBar(tree, p, follow)
    ensures Resolve(tree, p, follow).Err? <==>
            MeetsOneTooMany(tree, p, follow) || MeetsRawLink(tree, p, follow) || MeetsBar(tree, p, follow)
  {
    forall q | Arrives(tree, p, follow, q) ensures Resolve(tree, p, follow) == Ok(q) {
      ArrivedAt(tree, p, follow, q);
    }
    if MeetsOneTooMany(tree, p, follow) {
      MetOneTooMany(tree, p, follow);
    }
    if MeetsRawLink(tree, p, follow) {
      MetRawLink(tree, p, follow);
    }
    if MeetsBar(tree, p, follow) {
      MetBar(tree, p, follow);
    }
    JourneyOutcome(tree, p, follow);
  }

  // One name further.

  /** What looking a name up in a resolved place comes to. */
  function Child(tree: Tree, directory: Result<Path, Error>, n: Name): Result<Path, Error> {
    if directory.Err? then directory
    else if directory.value in tree && !IsDirectory(tree, directory.value) then Err(TraversesNonDirectory)
    else Ok(directory.value + [n])
  }

  lemma {:induction false} WalkChild(tree: Tree, at: Path, pending: seq<string>, n: Name, links: nat)
    requires links <= MAX_SYMLINKS && IsName(n) && Clear(tree, at) && IsDirectory(tree, [])
    ensures Walk(tree, at, pending + [n], links, false) == Child(tree, Walk(tree, at, pending, links, true), n)
    decreases MAX_SYMLINKS - links, |pending|
  {
    assert at[..|at|] == at;
    if pending == [] {
      assert pending + [n] == [n] && [n][1..] == [];
    } else {
      var name, rest := pending[0], pending[1..];
      assert (pending + [n])[0] == name && (pending + [n])[1..] == rest + [n];
      var here := at + [name];
      assert here[..|at|] == at;
      if name == "" || name == "." {
        WalkChild(tree, at, rest, n, links);
      } else if name == ".." {
        PrefixClear(tree, at);
        WalkChild(tree, Parent(at), rest, n, links);
      } else if here in tree && tree[here].kind.Symlink? {
        if links < MAX_SYMLINKS && tree[here].kind.link.Text? {
          var text := tree[here].kind.link.text;
          assert Split(text) + (rest + [n]) == (Split(text) + rest) + [n];
          WalkChild(tree, if IsAbsolute(text) then [] else at, Split(text) + rest, n, links + 1);
        }
      } else if here in tree && !tree[here].kind.Directory? {
        if rest == [] {
          assert Walk(tree, at, pending, links, true) == Walk(tree, here, rest, links, true);
        }
      } else {
        assert Clear(tree, here) by {
          assert forall k :: 0 < k <= |at| ==> here[..k] == at[..k];
          assert here[..|here|] == here;
        }
        WalkChild(tree, here, rest, n, links);
      }
    }
  }

  /**
   A name looked up through a path is looked up where that path leads, links followed to the last,
   and nowhere else; through a file it is refused.
   */
  lemma ResolveChild(tree: Tree, p: Path, n: Name)
    requires IsPath(p) && IsName(n) && IsDirectory(tree, [])
    ensures Resolve(tree, p + [n], false) == Child(tree, Resolve(tree, p, true), n)
  {
    ResolveFromPieces(tree, p, true);
    ResolveFromPieces(tree, p + [n], false);
    WalkChild(tree, [], p, n, 0);
  }

  // Where a link leads, from its text.

  /** "../", `k` times over. */
  function Ups(k: nat): string {
    if k == 0 then "" else "../" + Ups(k - 1)
  }

  /** The directory `k` levels above `d`; the root is above itself. */
  function Above(d: Path, k: nat): Path {
    if k >= |d| then [] else d[..|d| - k]
  }

  lemma UpPiece(k: nat, rest: string, tail: seq<string>)
    requires k > 0
    ensures Split(Ups(k) + rest) + tail == [".."] + (Split(Ups(k - 1) + rest) + tail)
  {
    var more := Ups(k - 1) + rest;
    assert Ups(k) + rest == ".." + "/" + more;
    SplitConcat("..", more);
    SplitWithoutSlash("..");
  }

  lemma {:induction false} WalkUps(
    tree: Tree, at: Path, k: nat, rest: string, tail: seq<string>, links: nat, follow: bool)
    requires links <= MAX_SYMLINKS
    ensures Walk(tree, at, Split(Ups(k) + rest) + tail, links, follow)
         == Walk(tree, Above(at, k), Split(rest) + tail, links, follow)
    decreases k
  {
    if k == 0 {
      assert Ups(0) + rest == rest && Above(at, 0) == at;
    } else {
      var more := Ups(k - 1) + rest;
      UpPiece(k, rest, tail);
      WalkUps(tree, Parent(at), k - 1, rest, tail, links, follow);
      assert Above(Parent(at), k - 1) == Above(at, k);
    }
  }

  /** Names with nothing but directories, or nothing, at each of them are walked as they are. */
  lemma {:induction false} WalkDown(
    tree: Tree, at: Path, names: Path, tail: seq<string>, links: nat, follow: bool)
    requires links <= MAX_SYMLINKS && IsPath(names) && Clear(tree, at + names)
    ensures Walk(tree, at, names + tail, links, follow) == Walk(tree, at + names, tail, links, follow)
    decreases |names|
  {
    if names == [] {
      assert at + names == at && names + tail == tail;
    } else {
      var here := at + [names[0]];
      assert here + names[1..] == at + names;
      assert (at + names)[..|here|] == here;
      assert (names + tail)[1..] == names[1..] + tail;
      WalkDown(tree, here, names[1..], tail, links, follow);
    }
  }

  /** Joined names are walked as the names; the root's empty piece is nothing. */
  lemma WalkJoined(tree: Tree, at: Path, t: Path, tail: seq<string>, links: nat, follow: bool)
    requires links <= MAX_SYMLINKS && IsPath(t)
    ensures Walk(tree, at, Split(Join(t)) + tail, links, follow) == Walk(tree, at, t + tail, links, follow)
  {
    SplitJoin(t);
    if t == [] {
      assert ([""] + tail)[1..] == tail == t + tail;
    }
  }

  /** A link that must be followed is replaced by the pieces of its text. */
  lemma WalkLink(tree: Tree, p: Path, text: string, tail: seq<string>, follow: bool)
    requires p != [] && IsPath(p) && ClearAbove(tree, p) && p in tree && tree[p].kind == Symlink(Text(text))
    requires tail != [] || follow
    ensures Walk(tree, [], p + tail, 0, follow)
         == Walk(tree, if StartsWith(text, "/") then [] else Parent(p), Split(text) + tail, 1, follow)
  {
    var d, last := Parent(p), p[|p| - 1];
    assert p + tail == d + ([last] + tail) && [] + d == d && d + [last] == p;
    forall k | 0 < k <= |d| && d[..k] in tree ensures tree[d[..k]].kind.Directory? {
      assert p[..k] == d[..k];
    }
    WalkDown(tree, [], d, [last] + tail, 0, follow);
    assert ([last] + tail)[1..] == tail && |[last] + tail| >= 1;
    assert IsAbsolute(text) <==> StartsWith(text, "/");
  }

  /** From a directory that is clear, names that lead to something that is no link are walked to it. */
  lemma WalkEnds(tree: Tree, at: Path, t: Path, n: Name, links: nat)
    requires links <= MAX_SYMLINKS && IsPath(t) && ClearAbove(tree, at + t)
    requires at + t in tree ==> !tree[at + t].kind.Symlink?
    ensures Walk(tree, at, t + [], links, true) == Ok(at + t)
    ensures IsDirectory(tree, at + t) && IsName(n) ==> Walk(tree, at, t + [n], links, false) == Ok(at + t + [n])
  {
    assert t + [] == t;
    if t == [] {
      assert at + t == at;
    }
    WalkFixed(tree, at, t, links, true);
    if IsDirectory(tree, at + t) && IsName(n) {
      assert Clear(tree, at + t) by {
        assert (at + t)[..|at + t|] == at + t;
      }
      WalkDown(tree, at, t, [n], links, false);
      assert [n][1..] == [];
    }
  }

  /**
   A link whose text is "/" and a path leads to that path, and what is looked up through it is
   looked up there.
   */
  lemma FollowAbsolute(tree: Tree, p: Path, t: Path, n: Name)
    requires p != [] && IsPath(p) && ClearAbove(tree, p) && p in tree
    requires IsPath(t) && tree[p].kind == Symlink(Text("/" + Join(t)))
    requires ClearAbove(tree, t) && (t in tree ==> !tree[t].kind.Symlink?)
    ensures Resolve(tree, p, true) == Ok(t)
    ensures IsDirectory(tree, t) && IsName(n) ==> Resolve(tree, p + [n], false) == Ok(t + [n])
  {
    var text := "/" + Join(t);
    assert [] + t == t;
    WalkEnds(tree, [], t, n, 1);
    ResolveFromPieces(tree, p, true);
    assert p + [] == p;
    WalkLink(tree, p, text, [], true);
    WalkFromRoot(tree, t, [], true);
    if IsDirectory(tree, t) && IsName(n) {
      ResolveFromPieces(tree, p + [n], false);
      WalkLink(tree, p, text, [n], false);
      WalkFromRoot(tree, t, [n], false);
    }
  }

  lemma WalkFromRoot(tree: Tree, t: Path, tail: seq<string>, follow: bool)
    requires IsPath(t)
    ensures Walk(tree, [], Split("/" + Join(t)) + tail, 1, follow) == Walk(tree, [], t + tail, 1, follow)
  {
    assert "" + "/" + Join(t) == "/" + Join(t);
    SplitConcat("", Join(t));
    SplitWithoutSlash("");
    assert (Split("/" + Join(t)) + tail)[1..] == Split(Join(t)) + tail;
    WalkJoined(tree, [], t, tail, 1, follow);
  }

  /**
   A link whose text is a path, after any number of "../", leads to that path from the directory
   the link stands in, or from that many levels above it.
   */
  lemma FollowRelative(tree: Tree, p: Path, k: nat, t: Path, n: Name)
    requires p != [] && IsPath(p) && ClearAbove(tree, p) && p in tree
    requires IsPath(t) && tree[p].kind == Symlink(Text(Ups(k) + Join(t)))
    requires
      var to := Above(Parent(p), k) + t;
      ClearAbove(tree, to) && (to in tree ==> !tree[to].kind.Symlink?)
    ensures
      var to := Above(Parent(p), k) + t;
      && Resolve(tree, p, true) == Ok(to)
      && (IsDirectory(tree, to) && IsName(n) ==> Resolve(tree, p + [n], false) == Ok(to + [n]))
  {
    var text, base := Ups(k) + Join(t), Above(Parent(p), k);
    RelativeText(k, t);
    WalkEnds(tree, base, t, n, 1);
    ResolveFromPieces(tree, p, true);
    assert p + [] == p;
    WalkLink(tree, p, text, [], true);
    WalkUps(tree, Parent(p), k, Join(t), [], 1, true);
    WalkJoined(tree, base, t, [], 1, true);
    if IsDirectory(tree, base + t) && IsName(n) {
      ResolveFromPieces(tree, p + [n], false);
      WalkLink(tree, p, text, [n], false);
      WalkUps(tree, Parent(p), k, Join(t), [n], 1, false);
      WalkJoined(tree, base, t, [n], 1, false);
    }
  }

  lemma RelativeText(k: nat, t: Path)
    requires IsPath(t)
    ensures !StartsWith(Ups(k) + Join(t), "/")
  {
    var text := Ups(k) + Join(t);
    assert text != "" ==> (text[..1] == "/" <==> text[0] == '/');
    if k > 0 {
      assert text[0] == '.';
    } else if t != [] {
      assert IsName(t[0]) && Join(t)[0] == t[0][0];
    }
  }
}
