/**
 The virtual filesystem of an image: a map from path to node, and path resolution over it.
 A node's `inode` stands for the identity of the shared allocation behind it.
 */
module Nodes {
  import opened Results
  import opened Paths

  type Bytes = seq<bv8>

  /** A name or a link's text as an archive holds it: text, or bytes that are not UTF-8. */
  datatype TarText = Text(text: string) | Raw(bytes: Bytes)

  /** A PAX record: key and value. */
  type Attribute = (Bytes, Bytes)

  datatype Meta = Meta(mode: nat, uid: nat, gid: nat, mtime: nat, attributes: seq<Attribute>)

  datatype Kind =
    | Directory
    | File(data: Bytes)
    | Symlink(link: TarText)
    | Hardlink(target: Path)

  datatype Node = Node(meta: Meta, inode: nat, kind: Kind)

  type Tree = map<Path, Node>

  datatype Error =
    | TooManyEntries
    | BadPath
    | RepeatedPath
    | UnsupportedAttribute
    | MissingLinkTarget
    | UnsupportedType
    | BadWhiteout
    | TooManyLinks
    | LinkNotText
    | TraversesNonDirectory
    | ParentNotDirectory
    | RootNotDirectory
    | HardlinkToDirectory
    | TooManyNodes
    | UnresolvedHardlink
    | AttributeNotText

  const MAX_ENTRIES: nat := 100_000
  const MAX_SYMLINKS: nat := 40

  /** The node given to a directory no layer described. */
  function DefaultDirectory(inode: nat): Node {
    Node(Meta(0x1ED, 0, 0, 0, []), inode, Directory)
  }

  predicate IsDirectory(tree: Tree, p: Path) {
    p in tree && tree[p].kind.Directory?
  }

  /** Nothing but directories, or nothing at all, at any non-root ancestor of `p`. */
  predicate ClearAbove(tree: Tree, p: Path) {
    forall k :: 0 < k < |p| && p[..k] in tree ==> tree[p[..k]].kind.Directory?
  }

  /** The same for `p` itself too. */
  predicate Clear(tree: Tree, p: Path) {
    forall k :: 0 < k <= |p| && p[..k] in tree ==> tree[p[..k]].kind.Directory?
  }

  function Parent(p: Path): Path {
    if p == [] then [] else p[..|p| - 1]
  }

  predicate IsAbsolute(text: string) {
    text != "" && text[0] == '/'
  }

  /** The loop of path resolution: names still to walk, the path walked so far, links followed. */
  function Walk(tree: Tree, resolved: Path, pending: seq<string>, links: nat, follow: bool): Result<Path, Error>
    requires links <= MAX_SYMLINKS
    decreases MAX_SYMLINKS - links, |pending|
  {
    if pending == [] then Ok(resolved)
    else
      var name, rest := pending[0], pending[1..];
      if name == "" || name == "." then Walk(tree, resolved, rest, links, follow)
      else if name == ".." then Walk(tree, Parent(resolved), rest, links, follow)
      else
        var here := resolved + [name];
        if here in tree && tree[here].kind.Symlink? && (rest != [] || follow) then
          var link := tree[here].kind.link;
          if links == MAX_SYMLINKS then Err(TooManyLinks)
          else if link.Raw? then Err(LinkNotText)
          else
            var text := link.text;
            Walk(tree, if IsAbsolute(text) then [] else resolved, Split(text) + rest, links + 1, follow)
        else if here in tree && !tree[here].kind.Directory? && rest != [] then Err(TraversesNonDirectory)
        else Walk(tree, here, rest, links, follow)
  }

  function Resolve(tree: Tree, p: Path, follow: bool): Result<Path, Error> {
    Walk(tree, [], Split(Join(p)), 0, follow)
  }

  ghost predicate Pieces(pending: seq<string>) {
    forall i :: 0 <= i < |pending| ==> '/' !in pending[i]
  }

  /**
   Whatever the walk returns stays under the root as a path of real names, and the only things
   strictly above it are directories or nothing. If the last component was to be followed, it is
   not a symbolic link either.
   */
  lemma {:induction false} WalkSound(tree: Tree, resolved: Path, pending: seq<string>, links: nat, follow: bool)
    requires links <= MAX_SYMLINKS
    requires IsPath(resolved) && Pieces(pending)
    requires ClearAbove(tree, resolved)
    requires pending != [] ==> Clear(tree, resolved)
    requires follow && resolved in tree ==> !tree[resolved].kind.Symlink?
    requires [] in tree ==> !tree[[]].kind.Symlink?
    ensures
      var r := Walk(tree, resolved, pending, links, follow);
      r.Ok? ==>
        && IsPath(r.value)
        && ClearAbove(tree, r.value)
        && (follow && r.value in tree ==> !tree[r.value].kind.Symlink?)
    decreases MAX_SYMLINKS - links, |pending|
  {
    if pending != [] {
      var name, rest := pending[0], pending[1..];
      if name == "" || name == "." {
        WalkSound(tree, resolved, rest, links, follow);
      } else if name == ".." {
        PrefixClear(tree, resolved);
        WalkSound(tree, Parent(resolved), rest, links, follow);
      } else {
        var here := resolved + [name];
        assert here[..|resolved|] == resolved;
        assert forall k :: 0 < k <= |resolved| ==> here[..k] == resolved[..k];
        if here in tree && tree[here].kind.Symlink? && (rest != [] || follow) {
          if links < MAX_SYMLINKS && tree[here].kind.link.Text? {
            var text := tree[here].kind.link.text;
            WalkSound(tree, if IsAbsolute(text) then [] else resolved, Split(text) + rest, links + 1, follow);
          }
        } else if here in tree && !tree[here].kind.Directory? && rest != [] {
        } else {
          assert here[..|here|] == here;
          WalkSound(tree, here, rest, links, follow);
        }
      }
    }
  }

  lemma PrefixClear(tree: Tree, p: Path)
    requires Clear(tree, p)
    ensures Clear(tree, Parent(p)) && ClearAbove(tree, Parent(p))
    ensures p != [] && Parent(p) != [] && Parent(p) in tree ==> tree[Parent(p)].kind.Directory?
  {
    var q := Parent(p);
    forall k | 0 < k <= |q| ensures q[..k] == p[..k] {
    }
    assert q[..|q|] == q;
  }

  /** A path with only directories or nothing above it is walked to itself. */
  lemma {:induction false} WalkFixed(tree: Tree, resolved: Path, pending: Path, links: nat, follow: bool)
    requires links <= MAX_SYMLINKS
    requires IsPath(pending) && ClearAbove(tree, resolved + pending)
    requires follow && pending != [] && resolved + pending in tree ==> !tree[resolved + pending].kind.Symlink?
    ensures Walk(tree, resolved, pending, links, follow) == Ok(resolved + pending)
    decreases |pending|
  {
    if pending == [] {
      assert resolved + pending == resolved;
    } else {
      var here, rest := resolved + [pending[0]], pending[1..];
      assert here + rest == resolved + pending;
      assert (resolved + pending)[..|here|] == here;
      if rest == [] {
        assert here == resolved + pending;
      }
      WalkFixed(tree, here, rest, links, follow);
    }
  }

  lemma ResolveFromPieces(tree: Tree, p: Path, follow: bool)
    requires IsPath(p)
    ensures Resolve(tree, p, follow) == Walk(tree, [], p, 0, follow)
  {
    SplitJoin(p);
    if p == [] {
      assert Walk(tree, [], [""], 0, follow) == Walk(tree, [], [""][1..], 0, follow);
    }
  }

  lemma ResolveFixed(tree: Tree, p: Path)
    requires IsPath(p) && ClearAbove(tree, p)
    ensures Resolve(tree, p, false) == Ok(p)
  {
    ResolveFromPieces(tree, p, false);
    assert [] + p == p;
    WalkFixed(tree, [], p, 0, false);
  }

  /** Soundness and idempotence of resolution, with and without following the last component. */
  lemma ResolveSound(tree: Tree, p: Path, follow: bool)
    requires IsPath(p) && IsDirectory(tree, [])
    ensures
      var r := Resolve(tree, p, follow);
      r.Ok? ==>
        && IsPath(r.value)
        && ClearAbove(tree, r.value)
        && Resolve(tree, r.value, false) == r
        && (follow ==> Resolve(tree, r.value, true) == r)
  {
    WalkSound(tree, [], Split(Join(p)), 0, follow);
    var r := Resolve(tree, p, follow);
    if r.Ok? {
      ResolveFixed(tree, r.value);
      if follow {
        ResolveFromPieces(tree, r.value, true);
        assert [] + r.value == r.value;
        WalkFixed(tree, [], r.value, 0, true);
      }
    }
  }

  /** The last name of an entry survives resolution that does not follow it. */
  lemma {:induction false} WalkKeepsLastName(tree: Tree, resolved: Path, pending: seq<string>, links: nat)
    requires links <= MAX_SYMLINKS
    requires pending != [] && IsName(pending[|pending| - 1])
    ensures
      var r := Walk(tree, resolved, pending, links, false);
      r.Ok? ==> r.value != [] && r.value[|r.value| - 1] == pending[|pending| - 1]
    decreases MAX_SYMLINKS - links, |pending|
  {
    var name, rest := pending[0], pending[1..];
    var last := pending[|pending| - 1];
    if rest != [] {
      assert rest[|rest| - 1] == last;
      if name == "" || name == "." {
        WalkKeepsLastName(tree, resolved, rest, links);
      } else if name == ".." {
        WalkKeepsLastName(tree, Parent(resolved), rest, links);
      } else {
        var here := resolved + [name];
        if here in tree && tree[here].kind.Symlink? {
          if links < MAX_SYMLINKS && tree[here].kind.link.Text? {
            var text := tree[here].kind.link.text;
            assert (Split(text) + rest)[|Split(text) + rest| - 1] == last;
            WalkKeepsLastName(tree, if IsAbsolute(text) then [] else resolved, Split(text) + rest, links + 1);
          }
        } else if here in tree && !tree[here].kind.Directory? {
        } else {
          WalkKeepsLastName(tree, here, rest, links);
        }
      }
    } else {
      assert rest == [];
      assert Walk(tree, resolved, pending, links, false) == Walk(tree, resolved + [name], rest, links, false);
    }
  }

  lemma ResolveKeepsLastName(tree: Tree, p: Path)
    requires IsPath(p) && p != []
    ensures
      var r := Resolve(tree, p, false);
      r.Ok? ==> r.value != [] && r.value[|r.value| - 1] == p[|p| - 1]
  {
    ResolveFromPieces(tree, p, false);
    WalkKeepsLastName(tree, [], p, 0);
  }
}
