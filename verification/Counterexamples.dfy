/**
 Inputs on which a promise one might expect of flattening does not hold, or holds further than one
 might expect: a chain of hard links of any length that settles, and an image that is written out
 as an archive no reader accepts.
 */
module Counterexamples {
  import opened Results
  import opened Paths
  import opened Nodes
  import opened Layers
  import opened HardLinks
  import opened Image
  import opened Emission

  const PLAIN: Meta := Meta(0x1A4, 0, 0, 0, [])

  // Long chains that settle.

  function Rope(k: nat): (s: string)
    ensures |s| == k + 1 && forall i :: 0 <= i < |s| ==> s[i] == 'a'
  {
    if k == 0 then "a" else Rope(k - 1) + "a"
  }

  function Rung(k: nat): Path {
    [Rope(k)]
  }

  function RungNode(k: nat): Node {
    Node(PLAIN, k, if k == 0 then File([]) else Hardlink(Rung(k - 1)))
  }

  /** A file named "a", and each longer name a link to the one a letter shorter. */
  function Ladder(n: nat): Tree {
    if n == 0 then map[Rung(0) := RungNode(0)] else Ladder(n - 1)[Rung(n) := RungNode(n)]
  }

  lemma {:induction false} LadderAt(n: nat, k: nat)
    requires k <= n
    ensures Rung(k) in Ladder(n) && Ladder(n)[Rung(k)] == RungNode(k)
  {
    if k < n {
      LadderAt(n - 1, k);
      assert |Rung(k)[0]| != |Rung(n)[0]|;
    }
  }

  lemma {:induction false} LadderOnly(n: nat, p: Path) returns (k: nat)
    requires p in Ladder(n)
    ensures k <= n && p == Rung(k)
  {
    if p == Rung(n) {
      k := n;
    } else {
      k := LadderOnly(n - 1, p);
    }
  }

  lemma RungsAscend(k: nat)
    ensures IsPath(Rung(k)) && Less(Rung(k), Rung(k + 1))
  {
    PrefixTextLess(Rope(k), "a");
  }

  lemma {:induction false} LadderChain(n: nat, k: nat, hops: nat)
    requires k <= n
    ensures Chain(Ladder(n), Rung(k), hops) ==
            if hops < k then None else Some(Ending(if k == 0 then 0 else 1, Rung(0)))
    decreases k
  {
    LadderAt(n, k);
    if k > 0 && hops > 0 {
      RungsAscend(k - 1);
      LadderChain(n, k - 1, hops - 1);
    }
  }

  lemma LadderPathsOk(n: nat)
    ensures PathsOk(Ladder(n))
  {
    forall p | p in Ladder(n)
      ensures IsPath(p) && (Ladder(n)[p].kind.Hardlink? ==> IsPath(Ladder(n)[p].kind.target))
    {
      var k := LadderOnly(n, p);
      LadderAt(n, k);
      RungsAscend(k);
      if k > 0 {
        RungsAscend(k - 1);
      }
    }
  }

  lemma RungSettles(n: nat, p: Path)
    requires p in Placeholders(Ladder(n))
    ensures SettlesIn(Ladder(n), p, HARDLINK_ROUNDS - 1)
  {
    var k := LadderOnly(n, p);
    LadderAt(n, k);
    LadderAt(n, 0);
    LadderChain(n, k, k);
    assert Ends(Ladder(n), p, Ending(1, Rung(0)));
  }

  /**
   Chains of any length settle if they step forward in the map only: the last rung needs `n` hops and
   no fewer, and the rounds settle it all the same.
   */
  lemma LongChainSettles(n: nat)
    ensures PathsOk(Ladder(n)) && Rounds(Ladder(n), HARDLINK_ROUNDS).Ok?
    ensures forall hops: nat :: Chain(Ladder(n), Rung(n), hops).Some? <==> n <= hops
  {
    LadderPathsOk(n);
    forall p | p in Placeholders(Ladder(n)) ensures SettlesIn(Ladder(n), p, HARDLINK_ROUNDS - 1) {
      RungSettles(n, p);
    }
    RoundsExactly(Ladder(n), HARDLINK_ROUNDS);
    forall hops: nat ensures Chain(Ladder(n), Rung(n), hops).Some? <==> n <= hops {
      LadderChain(n, n, hops);
    }
  }

  // An image that does not survive being written out.

  const WHITEOUT_DIRECTORY: Path := [".wh.a"]
  const INSIDE: Path := [".wh.a", "b"]

  /** One layer holding one empty file. */
  function OneFile(p: Path, meta: Meta): seq<Entry> {
    [Entry(Text(ArchiveName(p)), meta, FileEntry([]))]
  }

  function OneItem(p: Path, meta: Meta): Item {
    Item(p, meta, File([]))
  }

  lemma InsideIsPath()
    ensures IsPath(INSIDE) && !IsWhiteout(INSIDE) && Parent(INSIDE) == WHITEOUT_DIRECTORY
        && IsWhiteout(WHITEOUT_DIRECTORY)
  {
  }

  lemma OneFileReads(p: Path, meta: Meta)
    requires IsPath(p) && MetaOk(meta)
    ensures Read(OneFile(p, meta), 0, {}) == Ok([OneItem(p, meta)])
  {
    var e := OneFile(p, meta)[0];
    ArchiveNameRoundTrip(p);
    KeptAttributes(meta.attributes);
    assert Readable(e) && ItemOf(e) == OneItem(p, meta);
    ReadExactly(OneFile(p, meta), 0, {});
    assert Read(OneFile(p, meta), 0, {}).value == [ItemOf(e)];
  }

  lemma AtMostThree(keys: set<Path>, p: Path)
    requires |p| == 2 && forall q :: q in keys ==> q == [] || q == p || q < p
    ensures |keys| <= 3
  {
    var all := {[], p[..1], p};
    forall q | q in keys ensures q in all {
      if q != [] && q != p {
        assert q == p[..1];
      }
    }
    SubsetSize(keys, all);
  }

  lemma NothingCleared(p: Path, node: Node)
    requires IsPath(p) && p != []
    ensures Cleared(EmptyImage().tree, p, node) == EmptyImage().tree && Resolve(EmptyImage().tree, p, false) == Ok(p)
  {
    ResolveFixed(EmptyImage().tree, p);
  }

  lemma DeepParents(p: Path) returns (above: State)
    requires IsPath(p) && |p| == 2
    ensures Parents(State(EmptyImage().tree, 2), p, 1) == Ok(above)
    ensures AddsAbove(EmptyImage().tree, above.tree, p) && IsDirectory(above.tree, Parent(p))
  {
    EmptyImageValid();
    assert p[..0] == [];
    above := ParentsNeverFail(State(EmptyImage().tree, 2), p, 1);
  }

  lemma DeepTree(above: Tree, p: Path, node: Node)
    requires |p| == 2 && !node.kind.Hardlink? && AddsAbove(EmptyImage().tree, above, p) && IsDirectory(above, Parent(p))
    ensures
      var tree := above[p := node];
      |tree| <= 3 && Placeholders(tree) == {} && IsDirectory(tree, Parent(p))
  {
    AtMostThree(above[p := node].Keys, p);
    assert Parent(p) != p;
    assert forall q :: q in above ==> !above[q].kind.Hardlink?;
  }

  /** A file two levels deep in an empty image: its parent is made for it. */
  lemma DeepFileInserts(p: Path, meta: Meta) returns (t: State)
    requires IsPath(p) && |p| == 2
    ensures Insert(EmptyImage(), OneItem(p, meta)) == Ok(t)
    ensures IsDirectory(t.tree, Parent(p)) && Placeholders(t.tree) == {}
    ensures p in t.tree && t.tree[p].meta == meta && forall q :: q in t.tree ==> q == p || q < p
  {
    var node := Node(meta, 1, File([]));
    NothingCleared(p, node);
    var above := DeepParents(p);
    DeepTree(above.tree, p, node);
    t := State(above.tree[p := node], above.next);
  }

  /** A layer of one such file is accepted, and this is what it leaves. */
  lemma OneFileApplied(p: Path, meta: Meta) returns (image: State)
    requires IsPath(p) && |p| == 2 && MetaOk(meta) && !IsWhiteout(p)
    ensures Valid(EmptyImage()) && Apply(EmptyImage(), OneFile(p, meta)) == Ok(image)
    ensures Valid(image) && IsDirectory(image.tree, Parent(p))
    ensures p in image.tree && image.tree[p].meta == meta && forall q :: q in image.tree ==> q == p || q < p
  {
    EmptyImageValid();
    OneFileReads(p, meta);
    var item := OneItem(p, meta);
    image := DeepFileInserts(p, meta);
    InsertAllCons(EmptyImage(), item, [], image);
    WhiteoutsCons(EmptyImage().tree, item, []);
    assert [item] + [] == [item];
    ApplyWithoutRemovals(EmptyImage(), OneFile(p, meta), [item], image);
    ApplyKeepsValid(EmptyImage(), OneFile(p, meta));
  }

  /** The layer holding `.wh.a/b` is accepted, and what it leaves is written as an archive that is refused. */
  lemma WhiteoutDirectoryReached(utf8: Utf8)
    ensures
      && Valid(EmptyImage()) && Apply(EmptyImage(), OneFile(INSIDE, PLAIN)).Ok?
      && var image := Apply(EmptyImage(), OneFile(INSIDE, PLAIN)).value;
      && Valid(image) && IsDirectory(image.tree, WHITEOUT_DIRECTORY)
      && Archive(utf8, image.tree).Ok? && Rebuild(utf8, image).Err?
  {
    InsideIsPath();
    var image := OneFileApplied(INSIDE, PLAIN);
    ApplyKeepsTextKeys(utf8, EmptyImage(), OneFile(INSIDE, PLAIN));
    RoundTrip(utf8, image);
  }

  // An image that cannot be written out.

  const DEEP: Path := ["a", "b"]

  /** The key "SCHILY.xattr.user." and the byte 0xFF, which UTF-8 never holds. */
  const BAD_KEY: Bytes := SCHILY + [0x75, 0x73, 0x65, 0x72, 0x2E, 0xFF]

  const BAD_META: Meta := Meta(0x1A4, 0, 0, 0, [(BAD_KEY, [])])

  /** A layer whose file has such an attribute is accepted, its tree has no whiteout name, and it is never written. */
  lemma BadKeyAccepted(utf8: Utf8)
    requires !utf8(BAD_KEY)
    ensures
      && Valid(EmptyImage()) && Apply(EmptyImage(), OneFile(DEEP, BAD_META)).Ok?
      && var image := Apply(EmptyImage(), OneFile(DEEP, BAD_META)).value;
      && Valid(image) && NoWhiteoutNames(image.tree)
      && Archive(utf8, image.tree) == Err(AttributeNotText)
  {
    assert SCHILY <= BAD_META.attributes[0].0 == BAD_KEY;
    var image := OneFileApplied(DEEP, BAD_META);
    ArchiveExactly(utf8, image.tree);
    assert !HasTextKeys(utf8, image.tree[DEEP].meta);
    forall q | q in image.tree ensures !IsWhiteout(q) {
      assert q == DEEP || q == DEEP[..|q|];
    }
  }
}
