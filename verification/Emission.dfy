/**
 Writing a filesystem back out as one archive, and the round trip: applying that archive to an
 empty filesystem rebuilds the same tree, sharing included, and writes out as the same archive.
 */
module Emission {
  import opened Results
  import opened Paths
  import opened Nodes
  import opened Layers
  import opened HardLinks
  import opened Image

  /** Which bytes are UTF-8. */
  type Utf8 = Bytes -> bool

  function Directories(tree: Tree): set<Path> {
    set p | p in tree && tree[p].kind.Directory?
  }

  function Leaves(tree: Tree): set<Path> {
    set p | p in tree && !tree[p].kind.Directory?
  }

  ghost predicate KeysArePaths(tree: Tree) {
    forall p :: p in tree ==> IsPath(p)
  }

  /** Directories first, each group in map order. */
  function Order(tree: Tree): (order: seq<Path>)
    requires KeysArePaths(tree)
  {
    Listing(Directories(tree)) + Listing(Leaves(tree))
  }

  ghost predicate Covering(tree: Tree, order: seq<Path>) {
    && (forall k :: 0 <= k < |order| ==> order[k] in tree)
    && (forall p :: p in tree ==> p in order)
    && (forall i, j :: 0 <= i < j < |order| ==> order[i] != order[j])
  }

  /** The first place in the order whose node has this identity. */
  function First(tree: Tree, order: seq<Path>, inode: nat, k: nat): (j: nat)
    requires forall i :: 0 <= i < |order| ==> order[i] in tree
    requires k < |order| && tree[order[k]].inode == inode
    ensures j <= k && tree[order[j]].inode == inode
    ensures forall i :: 0 <= i < j ==> tree[order[i]].inode != inode
  {
    FirstFrom(tree, order, inode, 0, k)
  }

  function FirstFrom(tree: Tree, order: seq<Path>, inode: nat, from: nat, k: nat): (j: nat)
    requires forall i :: 0 <= i < |order| ==> order[i] in tree
    requires from <= k < |order| && tree[order[k]].inode == inode
    ensures from <= j <= k && tree[order[j]].inode == inode
    ensures forall i :: from <= i < j ==> tree[order[i]].inode != inode
    decreases k - from
  {
    if tree[order[from]].inode == inode then from else FirstFrom(tree, order, inode, from + 1, k)
  }

  predicate IsPayload(tree: Tree, order: seq<Path>, k: nat)
    requires forall i :: 0 <= i < |order| ==> order[i] in tree
    requires k < |order|
  {
    tree[order[k]].kind.Directory? || First(tree, order, tree[order[k]].inode, k) == k
  }

  function PayloadKind(kind: Kind): EntryKind
    requires !kind.Hardlink?
  {
    match kind
    case Directory => DirectoryEntry
    case File(data) => FileEntry(data)
    case Symlink(link) => SymlinkEntry(link)
  }

  function EntryAt(tree: Tree, order: seq<Path>, k: nat): Entry
    requires forall i :: 0 <= i < |order| ==> order[i] in tree
    requires k < |order| && !tree[order[k]].kind.Hardlink?
  {
    var node := tree[order[k]];
    var kind :=
      if IsPayload(tree, order, k) then PayloadKind(node.kind)
      else HardlinkEntry(Text(ArchiveName(order[First(tree, order, node.inode, k)])));
    Entry(Text(ArchiveName(order[k])), node.meta, kind)
  }

  /** The entries written for the first `k` paths. */
  function Entries(tree: Tree, order: seq<Path>, k: nat): (r: seq<Entry>)
    requires forall i :: 0 <= i < |order| ==> order[i] in tree && !tree[order[i]].kind.Hardlink?
    requires k <= |order|
    ensures |r| == k && forall i :: 0 <= i < k ==> r[i] == EntryAt(tree, order, i)
  {
    if k == 0 then [] else Entries(tree, order, k - 1) + [EntryAt(tree, order, k - 1)]
  }

  /** All the entries there are to write. */
  function Emit(tree: Tree): seq<Entry>
    requires KeysArePaths(tree) && NoPlaceholder(tree)
  {
    OrderCovers(tree);
    Entries(tree, Order(tree), |Order(tree)|)
  }

  // Writing fails on an attribute whose key is not text.

  predicate HasTextKeys(utf8: Utf8, meta: Meta) {
    forall i :: 0 <= i < |meta.attributes| ==> utf8(meta.attributes[i].0)
  }

  ghost predicate AllTextKeys(utf8: Utf8, tree: Tree) {
    forall p :: p in tree ==> HasTextKeys(utf8, tree[p].meta)
  }

  /** What is written for the first `k` paths, or why writing them fails. */
  function Written(utf8: Utf8, tree: Tree, order: seq<Path>, k: nat): Result<seq<Entry>, Error>
    requires forall i :: 0 <= i < |order| ==> order[i] in tree && !tree[order[i]].kind.Hardlink?
    requires k <= |order|
  {
    if k == 0 then Ok([])
    else
      var before :- Written(utf8, tree, order, k - 1);
      if HasTextKeys(utf8, tree[order[k - 1]].meta) then Ok(before + [EntryAt(tree, order, k - 1)])
      else Err(AttributeNotText)
  }

  ghost predicate TextKeysUpTo(utf8: Utf8, tree: Tree, order: seq<Path>, k: nat)
    requires (forall i :: 0 <= i < |order| ==> order[i] in tree) && k <= |order|
  {
    forall i :: 0 <= i < k ==> HasTextKeys(utf8, tree[order[i]].meta)
  }

  lemma {:induction false} WrittenExactly(utf8: Utf8, tree: Tree, order: seq<Path>, k: nat)
    requires forall i :: 0 <= i < |order| ==> order[i] in tree && !tree[order[i]].kind.Hardlink?
    requires k <= |order|
    ensures Written(utf8, tree, order, k) ==
            if TextKeysUpTo(utf8, tree, order, k) then Ok(Entries(tree, order, k)) else Err(AttributeNotText)
  {
    if k > 0 {
      WrittenExactly(utf8, tree, order, k - 1);
      assert TextKeysUpTo(utf8, tree, order, k) <==>
          TextKeysUpTo(utf8, tree, order, k - 1) && HasTextKeys(utf8, tree[order[k - 1]].meta);
    }
  }

  /** The whole archive, or why it cannot be written. */
  function Archive(utf8: Utf8, tree: Tree): Result<seq<Entry>, Error>
    requires KeysArePaths(tree) && NoPlaceholder(tree)
  {
    OrderCovers(tree);
    Written(utf8, tree, Order(tree), |Order(tree)|)
  }

  /** Writing succeeds exactly when every attribute key in the tree is text. */
  lemma ArchiveExactly(utf8: Utf8, tree: Tree)
    requires KeysArePaths(tree) && NoPlaceholder(tree)
    ensures Archive(utf8, tree) == if AllTextKeys(utf8, tree) then Ok(Emit(tree)) else Err(AttributeNotText)
  {
    var order := Order(tree);
    OrderCovers(tree);
    WrittenExactly(utf8, tree, order, |order|);
    if !AllTextKeys(utf8, tree) {
      var p :| p in tree && !HasTextKeys(utf8, tree[p].meta);
      var i :| 0 <= i < |order| && order[i] == p;
    }
  }

  lemma OrderCovers(tree: Tree)
    requires KeysArePaths(tree)
    ensures Covering(tree, Order(tree))
  {
    var ds, ls := Listing(Directories(tree)), Listing(Leaves(tree));
    ListingIs(Directories(tree));
    ListingIs(Leaves(tree));
    var order := Order(tree);
    forall p | p in tree ensures p in order {
      assert p in Directories(tree) || p in Leaves(tree);
      assert p in ds || p in ls;
    }
    forall i, j | 0 <= i < j < |order| ensures order[i] != order[j] {
      if i < |ds| <= j {
        assert ds[i] in Directories(tree) && ls[j - |ds|] in Leaves(tree);
      } else {
        ListingDistinct(tree, i, j);
      }
    }
  }

  lemma AscendingDistinct(list: seq<Path>, i: nat, j: nat)
    requires Ascending(list) && i < j < |list| && IsPath(list[i]) && IsPath(list[j])
    ensures Less(list[i], list[j]) && list[i] != list[j]
  {
    LessTotal(list[i], list[j]);
  }

  lemma ListingDistinct(tree: Tree, i: nat, j: nat)
    requires KeysArePaths(tree) && i < j < |Order(tree)|
    requires j < |Listing(Directories(tree))| || |Listing(Directories(tree))| <= i
    ensures Less(Order(tree)[i], Order(tree)[j]) && Order(tree)[i] != Order(tree)[j]
  {
    var ds, ls := Listing(Directories(tree)), Listing(Leaves(tree));
    ListingIs(Directories(tree));
    ListingIs(Leaves(tree));
    ConcatDistinct(tree, ds, ls, i, j);
  }

  lemma ConcatDistinct(tree: Tree, ds: seq<Path>, ls: seq<Path>, i: nat, j: nat)
    requires KeysArePaths(tree) && Lists(ds, Directories(tree)) && Lists(ls, Leaves(tree))
    requires i < j < |ds + ls| && (j < |ds| || |ds| <= i)
    ensures Less((ds + ls)[i], (ds + ls)[j]) && (ds + ls)[i] != (ds + ls)[j]
  {
    if j < |ds| {
      assert ds[i] in Directories(tree) && ds[j] in Directories(tree);
      AscendingDistinct(ds, i, j);
    } else {
      var m, n := i - |ds|, j - |ds|;
      assert ls[m] in Leaves(tree) && ls[n] in Leaves(tree);
      AscendingDistinct(ls, m, n);
    }
  }

  lemma OrderSize(tree: Tree)
    requires KeysArePaths(tree)
    ensures |Order(tree)| == |tree|
  {
    ListingIs(Directories(tree));
    ListingIs(Leaves(tree));
    assert Directories(tree) + Leaves(tree) == tree.Keys;
    assert |Directories(tree) + Leaves(tree)| == |Directories(tree)| + |Leaves(tree)|;
  }

  /** A directory stands before everything the map orders after it. */
  lemma DirectoryPlace(tree: Tree, i: nat, j: nat)
    requires KeysArePaths(tree) && i < |Order(tree)| && j < |Order(tree)|
    requires Order(tree)[i] in tree && Order(tree)[j] in tree
    requires tree[Order(tree)[i]].kind.Directory? && Less(Order(tree)[i], Order(tree)[j])
    ensures i < j
  {
    var ds, ls := Listing(Directories(tree)), Listing(Leaves(tree));
    ListingIs(Directories(tree));
    ListingIs(Leaves(tree));
    var p, q := Order(tree)[i], Order(tree)[j];
    LessTotal(p, q);
    LessTotal(p, p);
    assert forall m :: 0 <= m < |ls| ==> ls[m] in Leaves(tree);
    if j < i {
      ListingDistinct(tree, j, i);
    }
  }

  ghost predicate Before(order: seq<Path>, k: nat, d: Path) {
    exists j :: 0 <= j < k && j < |order| && order[j] == d
  }

  /** A listing of the whole tree in which everything above a path stands before it. */
  ghost predicate GoodOrder(tree: Tree, order: seq<Path>) {
    Covering(tree, order) && AncestorsBefore(tree, order)
  }

  ghost predicate AncestorsBefore(tree: Tree, order: seq<Path>) {
    forall k: nat, d: Path {:trigger Before(order, k, d)} ::
      k < |order| && d < order[k] ==> IsDirectory(tree, d) && Before(order, k, d)
  }

  /** Each directory stands before everything the map orders after it. */
  ghost predicate DirectoriesLead(tree: Tree, order: seq<Path>)
    requires forall i :: 0 <= i < |order| ==> order[i] in tree
  {
    forall i: nat, j: nat {:trigger Less(order[i], order[j])} ::
      i < |order| && j < |order| && tree[order[i]].kind.Directory? && Less(order[i], order[j]) ==> i < j
  }

  lemma AncestorsFirst(tree: Tree, order: seq<Path>, k: nat, d: Path)
    requires Rooted(tree) && Covering(tree, order) && DirectoriesLead(tree, order)
    requires k < |order| && d < order[k]
    ensures IsDirectory(tree, d) && Before(order, k, d)
  {
    AncestorIsDirectory(tree, order[k], d);
    var j :| 0 <= j < |order| && order[j] == d;
    AncestorLess(d, order[k]);
    assert Less(order[j], order[k]);
  }

  lemma OrderLeads(tree: Tree, order: seq<Path>)
    requires KeysArePaths(tree) && order == Order(tree) && Covering(tree, order)
    ensures DirectoriesLead(tree, order)
  {
    forall i: nat, j: nat | i < |order| && j < |order| && tree[order[i]].kind.Directory? && Less(order[i], order[j])
      ensures i < j
    {
      DirectoryPlace(tree, i, j);
    }
  }

  lemma LeadingIsGood(tree: Tree, order: seq<Path>)
    requires Rooted(tree) && Covering(tree, order) && DirectoriesLead(tree, order)
    ensures GoodOrder(tree, order)
  {
    if !AncestorsBefore(tree, order) {
      var k: nat, d: Path :| k < |order| && d < order[k] && !(IsDirectory(tree, d) && Before(order, k, d));
      AncestorsFirst(tree, order, k, d);
    }
  }

  /** Parents precede children: everything above a path is a directory written before it. */
  lemma OrderIsGood(tree: Tree)
    requires Rooted(tree)
    ensures GoodOrder(tree, Order(tree))
  {
    OrderCovers(tree);
    OrderLeads(tree, Order(tree));
    LeadingIsGood(tree, Order(tree));
  }

  lemma AncestorBefore(tree: Tree, order: seq<Path>, k: nat, d: Path)
    requires GoodOrder(tree, order) && k < |order| && d < order[k]
    ensures IsDirectory(tree, d) && Before(order, k, d)
  {
  }

  lemma DescendantAfter(tree: Tree, order: seq<Path>, k: nat, j: nat)
    requires GoodOrder(tree, order) && k < |order| && j < |order| && order[k] < order[j]
    ensures k < j
  {
    AncestorBefore(tree, order, j, order[k]);
    var i :| 0 <= i < j && order[i] == order[k];
    assert i == k;
  }

  /** Directories are written first and everything else after them, each in the order of the map. */
  lemma OrderExactly(tree: Tree, i: nat, j: nat)
    requires Rooted(tree) && i < j < |Order(tree)|
    ensures
      var p, q := Order(tree)[i], Order(tree)[j];
      && p in tree && q in tree
      && (tree[q].kind.Directory? ==> tree[p].kind.Directory?)
      && ((tree[p].kind.Directory? <==> tree[q].kind.Directory?) ==> Less(p, q))
  {
    var ds, ls := Listing(Directories(tree)), Listing(Leaves(tree));
    ListingIs(Directories(tree));
    ListingIs(Leaves(tree));
    OrderCovers(tree);
    assert forall k :: 0 <= k < |ds| ==> ds[k] in Directories(tree);
    assert forall k :: 0 <= k < |ls| ==> ls[k] in Leaves(tree);
    if j < |ds| || |ds| <= i {
      ListingDistinct(tree, i, j);
    } else {
      assert Order(tree)[i] == ds[i] && Order(tree)[j] == ls[j - |ds|];
    }
  }

  // Reading the archive back.

  function ExpectedItem(tree: Tree, order: seq<Path>, k: nat): Item
    requires forall i :: 0 <= i < |order| ==> order[i] in tree
    requires k < |order| && !tree[order[k]].kind.Hardlink?
  {
    var node := tree[order[k]];
    Item(order[k], node.meta,
         if IsPayload(tree, order, k) then node.kind else Hardlink(order[First(tree, order, node.inode, k)]))
  }

  lemma EntryReadsBack(tree: Tree, order: seq<Path>, k: nat)
    requires forall i :: 0 <= i < |order| ==> order[i] in tree && IsPath(order[i])
    requires k < |order| && !tree[order[k]].kind.Hardlink? && NodeOk(tree[order[k]])
    ensures Readable(EntryAt(tree, order, k))
    ensures ItemOf(EntryAt(tree, order, k)) == ExpectedItem(tree, order, k)
  {
    ArchiveNameRoundTrip(order[k]);
    KeptAttributes(tree[order[k]].meta.attributes);
    if !IsPayload(tree, order, k) {
      var target := order[First(tree, order, tree[order[k]].inode, k)];
      ArchiveNameRoundTrip(target);
      OnlyRootJoinsToEmpty(target);
    }
  }

  ghost predicate Writable(tree: Tree, order: seq<Path>) {
    forall i :: 0 <= i < |order| ==> order[i] in tree && !tree[order[i]].kind.Hardlink?
  }

  function ExpectedFrom(tree: Tree, order: seq<Path>, k: nat): seq<Item>
    requires Writable(tree, order) && k <= |order|
    decreases |order| - k
  {
    if k == |order| then [] else [ExpectedItem(tree, order, k)] + ExpectedFrom(tree, order, k + 1)
  }

  lemma {:induction false} ExpectedAt(tree: Tree, order: seq<Path>, k: nat, i: nat)
    requires Writable(tree, order) && k <= i < |order|
    ensures |ExpectedFrom(tree, order, k)| == |order| - k
    ensures ExpectedFrom(tree, order, k)[i - k] == ExpectedItem(tree, order, i)
    decreases |order| - k
  {
    if k < i {
      ExpectedAt(tree, order, k + 1, i);
    } else if k + 1 < |order| {
      ExpectedAt(tree, order, k + 1, k + 1);
    }
  }

  lemma OrderWritable(s: State)
    requires Valid(s)
    ensures Writable(s.tree, Order(s.tree)) && |Order(s.tree)| > 0
  {
    OrderCovers(s.tree);
    assert [] in s.tree;
  }

  lemma EmissionReadable(s: State)
    requires Valid(s)
    ensures Writable(s.tree, Order(s.tree))
    ensures |Emit(s.tree)| == |Order(s.tree)| == |s.tree|
    ensures forall k :: 0 <= k < |Emit(s.tree)| ==>
              Readable(Emit(s.tree)[k]) && ItemOf(Emit(s.tree)[k]) == ExpectedItem(s.tree, Order(s.tree), k)
  {
    var order := Order(s.tree);
    OrderCovers(s.tree);
    OrderSize(s.tree);
    OrderWritable(s);
    forall k | 0 <= k < |order|
      ensures Readable(Emit(s.tree)[k]) && ItemOf(Emit(s.tree)[k]) == ExpectedItem(s.tree, order, k)
    {
      EntryReadsBack(s.tree, order, k);
    }
  }

  lemma DistinctOrderReads(tree: Tree, order: seq<Path>, entries: seq<Entry>)
    requires Covering(tree, order) && Writable(tree, order) && |entries| == |order| <= MAX_ENTRIES
    requires forall k :: 0 <= k < |entries| ==>
        Readable(entries[k]) && ItemOf(entries[k]) == ExpectedItem(tree, order, k)
    ensures Read(entries, 0, {}) == Ok(ExpectedFrom(tree, order, 0))
  {
    DistinctOrderIsRead(tree, order, entries);
    var items, expected := Read(entries, 0, {}).value, ExpectedFrom(tree, order, 0);
    if order != [] {
      ExpectedAt(tree, order, 0, 0);
    }
    forall k | 0 <= k < |items| ensures items[k] == expected[k] {
      ExpectedAt(tree, order, 0, k);
    }
    assert items == expected;
  }

  lemma DistinctOrderIsRead(tree: Tree, order: seq<Path>, entries: seq<Entry>)
    requires Covering(tree, order) && Writable(tree, order) && |entries| == |order| <= MAX_ENTRIES
    requires forall k :: 0 <= k < |entries| ==>
        Readable(entries[k]) && ItemOf(entries[k]) == ExpectedItem(tree, order, k)
    ensures Read(entries, 0, {}).Ok? && |Read(entries, 0, {}).value| == |order|
    ensures forall k :: 0 <= k < |order| ==> Read(entries, 0, {}).value[k] == ExpectedItem(tree, order, k)
  {
    ReadExactly(entries, 0, {});
  }

  /** What is written out is read back as the same paths, payloads and links, in order. */
  lemma EmissionReads(s: State)
    requires Valid(s)
    ensures Writable(s.tree, Order(s.tree))
    ensures Read(Emit(s.tree), 0, {}) == Ok(ExpectedFrom(s.tree, Order(s.tree), 0))
  {
    OrderCovers(s.tree);
    EmissionReadable(s);
    DistinctOrderReads(s.tree, Order(s.tree), Emit(s.tree));
  }

  // Rebuilding.

  ghost predicate SharingOk(tree: Tree) {
    forall p, q :: p in tree && q in tree && tree[p].inode == tree[q].inode ==>
      tree[p] == tree[q] && (tree[p].kind.Directory? ==> p == q)
  }

  /** `t` holds the first `k` paths of the order as `tree` does, up to renaming identities. */
  ghost predicate Rebuilt(tree: Tree, order: seq<Path>, k: nat, t: State) {
    && k <= |order|
    && (forall i :: 0 <= i < |order| ==> order[i] in tree)
    && (forall p :: p in t.tree ==> p == [] || Before(order, k, p))
    && (forall p :: p in t.tree ==> t.tree[p].inode < t.next)
    && (forall i :: 0 <= i < k ==> SameNode(tree, t.tree, order[i]))
    && (forall i, j :: 0 <= i < k && 0 <= j < k ==> SameSharing(tree, t.tree, order[i], order[j]))
  }

  ghost predicate SameNode(a: Tree, b: Tree, p: Path) {
    p in a && p in b && a[p].meta == b[p].meta && a[p].kind == b[p].kind
  }

  ghost predicate SameSharing(a: Tree, b: Tree, p: Path, q: Path) {
    && p in a && p in b && q in a && q in b
    && (a[p].inode == a[q].inode <==> b[p].inode == b[q].inode)
  }

  lemma RebuiltAbove(tree: Tree, order: seq<Path>, k: nat, t: State, q: nat)
    requires GoodOrder(tree, order) && Rebuilt(tree, order, k, t) && q <= k && q < |order|
    ensures forall d :: d < order[q] ==> IsDirectory(t.tree, d)
    ensures ClearAbove(t.tree, order[q])
  {
    forall d | d < order[q] ensures IsDirectory(t.tree, d) {
      AncestorBefore(tree, order, q, d);
      var j :| 0 <= j < q && order[j] == d;
      assert SameNode(tree, t.tree, order[j]);
    }
    forall i | 0 < i < |order[q]| ensures IsDirectory(t.tree, order[q][..i]) {
      assert order[q][..i] < order[q];
    }
  }

  lemma {:induction false} ParentsAlreadyThere(s: State, p: Path, k: nat)
    requires forall d :: d < p ==> IsDirectory(s.tree, d)
    ensures Parents(s, p, k) == Ok(s)
    decreases |p| - k
  {
    if k < |p| {
      assert p[..k] < p;
      assert IsDirectory(s.tree, p[..k]);
      ParentsAlreadyThere(s, p, k + 1);
    }
  }

  lemma NothingBelowYet(tree: Tree, order: seq<Path>, k: nat, t: State)
    requires GoodOrder(tree, order) && Rebuilt(tree, order, k, t) && k < |order| && order[k] != []
    ensures order[k] !in t.tree
    ensures Remove(t.tree, Removal(order[k], true)) == t.tree
  {
    var p := order[k];
    forall q | q in t.tree ensures !Covers(Removal(p, true), q) {
      if q != [] {
        var j :| 0 <= j < k && order[j] == q;
        if p < q {
          DescendantAfter(tree, order, k, j);
        }
      }
    }
  }

  ghost predicate RebuiltNode(tree: Tree, order: seq<Path>, k: nat, t: State, node: Node, next: nat)
    requires (forall i :: 0 <= i < |order| ==> order[i] in tree) && k < |order|
  {
    && node.meta == tree[order[k]].meta
    && node.kind == tree[order[k]].kind
    && (if IsPayload(tree, order, k) then node.inode == t.next && next == t.next + 1
        else
          var first := First(tree, order, tree[order[k]].inode, k);
          first < k && order[first] in t.tree && node == t.tree[order[first]] && next == t.next)
  }

  lemma RebuildNode(tree: Tree, order: seq<Path>, k: nat, t: State)
    requires GoodOrder(tree, order) && KeysArePaths(tree) && NoPlaceholder(tree) && SharingOk(tree)
    requires Rebuilt(tree, order, k, t) && k < |order|
    ensures
      var r := NewNode(t, ExpectedItem(tree, order, k));
      r.Ok? && RebuiltNode(tree, order, k, t, r.value.0, r.value.1)
  {
    if !IsPayload(tree, order, k) {
      var first := First(tree, order, tree[order[k]].inode, k);
      RebuiltAbove(tree, order, k, t, first);
      ResolveFixed(t.tree, order[first]);
      assert SameNode(tree, t.tree, order[first]);
      assert tree[order[first]] == tree[order[k]];
    }
  }

  lemma SharesWithNew(tree: Tree, order: seq<Path>, k: nat, t: State, node: Node, next: nat, i: nat)
    requires Covering(tree, order) && SharingOk(tree) && Rebuilt(tree, order, k, t) && i < k < |order|
    requires RebuiltNode(tree, order, k, t, node, next)
    ensures order[i] in t.tree
    ensures t.tree[order[i]].inode == node.inode <==> tree[order[i]].inode == tree[order[k]].inode
  {
    assert SameNode(tree, t.tree, order[i]);
    if IsPayload(tree, order, k) {
      assert tree[order[k]].kind.Directory? ==> order[i] != order[k];
    } else {
      var first := First(tree, order, tree[order[k]].inode, k);
      assert SameSharing(tree, t.tree, order[i], order[first]);
    }
  }

  lemma PutSameNode(tree: Tree, order: seq<Path>, k: nat, t: State, node: Node, next: nat, i: nat)
    requires Covering(tree, order) && Rebuilt(tree, order, k, t) && i <= k < |order|
    requires RebuiltNode(tree, order, k, t, node, next)
    ensures SameNode(tree, t.tree[order[k] := node], order[i])
  {
    if i < k {
      assert SameNode(tree, t.tree, order[i]);
    }
  }

  lemma PutSameSharing(tree: Tree, order: seq<Path>, k: nat, t: State, node: Node, next: nat, i: nat, j: nat)
    requires Covering(tree, order) && SharingOk(tree) && Rebuilt(tree, order, k, t) && i <= k && j <= k < |order|
    requires RebuiltNode(tree, order, k, t, node, next)
    ensures SameSharing(tree, t.tree[order[k] := node], order[i], order[j])
  {
    if i < k {
      SharesWithNew(tree, order, k, t, node, next, i);
    }
    if j < k {
      SharesWithNew(tree, order, k, t, node, next, j);
    }
    if i < k && j < k {
      assert SameSharing(tree, t.tree, order[i], order[j]);
    }
  }

  lemma BeforeNext(order: seq<Path>, k: nat, p: Path)
    requires k < |order| && (p == order[k] || Before(order, k, p))
    ensures Before(order, k + 1, p)
  {
  }

  lemma PutRebuilds(tree: Tree, order: seq<Path>, k: nat, t: State, node: Node, next: nat)
    requires Covering(tree, order) && SharingOk(tree) && Rebuilt(tree, order, k, t) && k < |order|
    requires RebuiltNode(tree, order, k, t, node, next) && node.inode < next
    ensures Rebuilt(tree, order, k + 1, State(t.tree[order[k] := node], next))
  {
    var built := t.tree[order[k] := node];
    forall i | 0 <= i < k + 1 ensures SameNode(tree, built, order[i]) {
      PutSameNode(tree, order, k, t, node, next, i);
    }
    forall i, j | 0 <= i < k + 1 && 0 <= j < k + 1 ensures SameSharing(tree, built, order[i], order[j]) {
      PutSameSharing(tree, order, k, t, node, next, i, j);
    }
    forall p | p in built ensures p == [] || Before(order, k + 1, p) {
      if p != [] {
        BeforeNext(order, k, p);
      }
    }
  }

  lemma RebuiltFits(tree: Tree, order: seq<Path>, k: nat, t: State, node: Node)
    requires [] in tree && Rebuilt(tree, order, k, t) && k < |order|
    ensures |t.tree[order[k] := node]| <= |tree|
  {
    var built := t.tree[order[k] := node];
    forall q | q in built ensures q in tree {
      if q != order[k] && q != [] { assert Before(order, k, q); }
    }
    SubsetSize(built.Keys, tree.Keys);
  }

  lemma RebuildInsert(tree: Tree, order: seq<Path>, k: nat, t: State)
    requires GoodOrder(tree, order) && KeysArePaths(tree) && NoPlaceholder(tree) && SharingOk(tree)
    requires IsDirectory(tree, []) && IsDirectory(t.tree, []) && |tree| <= MAX_ENTRIES
    requires Rebuilt(tree, order, k, t) && k < |order|
    ensures
      var item := ExpectedItem(tree, order, k);
      && NewNode(t, item).Ok?
      && var (node, next) := NewNode(t, item).value;
      && RebuiltNode(tree, order, k, t, node, next)
      && Insert(t, item) == Ok(State(t.tree[order[k] := node], next))
  {
    var p, item := order[k], ExpectedItem(tree, order, k);
    RebuiltAbove(tree, order, k, t, k);
    ResolveFixed(t.tree, p);
    RebuildNode(tree, order, k, t);
    var (node, next) := NewNode(t, item).value;
    if p != [] {
      NothingBelowYet(tree, order, k, t);
    }
    ParentsAlreadyThere(State(t.tree, next), p, 1);
    RebuiltFits(tree, order, k, t, node);
  }

  lemma RebuildStep(s: State, order: seq<Path>, k: nat, t: State) returns (t': State)
    requires Valid(s) && GoodOrder(s.tree, order) && WellFormed(t) && Rebuilt(s.tree, order, k, t) && k < |order|
    requires !IsWhiteout(order[k])
    ensures Insert(t, ExpectedItem(s.tree, order, k)) == Ok(t')
    ensures WellFormed(t') && Rebuilt(s.tree, order, k + 1, t')
  {
    RebuildInsert(s.tree, order, k, t);
    var item := ExpectedItem(s.tree, order, k);
    var (node, next) := NewNode(t, item).value;
    t' := State(t.tree[order[k] := node], next);
    ExpectedItemOk(s, order, k);
    InsertKeepsWellFormed(t, item);
    assert node.inode < next by { NewNodeOk(t, item); }
    PutRebuilds(s.tree, order, k, t, node, next);
  }

  lemma ExpectedItemOk(s: State, order: seq<Path>, k: nat)
    requires Valid(s) && (forall i :: 0 <= i < |order| ==> order[i] in s.tree) && k < |order|
    ensures ItemOk(ExpectedItem(s.tree, order, k))
  {
  }

  lemma InsertAllCons(t: State, item: Item, rest: seq<Item>, t': State)
    requires !IsWhiteout(item.path) && Insert(t, item) == Ok(t')
    ensures InsertAll(t, [item] + rest) == InsertAll(t', rest)
  {
    assert ([item] + rest)[1..] == rest;
  }

  lemma RebuildTurn(s: State, order: seq<Path>, k: nat, t: State) returns (t': State)
    requires Valid(s) && GoodOrder(s.tree, order) && Writable(s.tree, order) && WellFormed(t)
        && Rebuilt(s.tree, order, k, t)
    requires k < |order| && !IsWhiteout(order[k])
    ensures WellFormed(t') && Rebuilt(s.tree, order, k + 1, t')
    ensures InsertAll(t, ExpectedFrom(s.tree, order, k)) == InsertAll(t', ExpectedFrom(s.tree, order, k + 1))
  {
    t' := RebuildStep(s, order, k, t);
    InsertAllCons(t, ExpectedItem(s.tree, order, k), ExpectedFrom(s.tree, order, k + 1), t');
  }

  lemma NothingMore(tree: Tree, order: seq<Path>, t: State)
    requires Writable(tree, order)
    ensures InsertAll(t, ExpectedFrom(tree, order, |order|)) == Ok(t)
  {
  }

  lemma {:induction false} RebuildFrom(s: State, order: seq<Path>, k: nat, t: State) returns (done: State)
    requires Valid(s) && GoodOrder(s.tree, order) && Writable(s.tree, order) && NoWhiteoutNames(s.tree)
    requires k <= |order| && WellFormed(t) && Rebuilt(s.tree, order, k, t)
    ensures WellFormed(done) && Rebuilt(s.tree, order, |order|, done)
    ensures InsertAll(t, ExpectedFrom(s.tree, order, k)) == Ok(done)
    decreases |order| - k
  {
    if k == |order| {
      done := t;
      NothingMore(s.tree, order, t);
    } else {
      var t' := RebuildTurn(s, order, k, t);
      done := RebuildFrom(s, order, k + 1, t');
    }
  }

  ghost predicate NoWhiteoutNames(tree: Tree) {
    forall p :: p in tree ==> !IsWhiteout(p)
  }

  /** Same paths, metadata and kinds, and the same paths share an identity. */
  ghost predicate SameImage(a: Tree, b: Tree) {
    && a.Keys == b.Keys
    && (forall p :: p in a ==> a[p].meta == b[p].meta && a[p].kind == b[p].kind)
    && (forall p, q :: p in a && q in a ==> (a[p].inode == a[q].inode <==> b[p].inode == b[q].inode))
  }

  lemma RebuiltIsSame(tree: Tree, order: seq<Path>, t: State)
    requires Covering(tree, order) && [] in tree && Rebuilt(tree, order, |order|, t)
    ensures SameImage(tree, t.tree)
  {
    forall p | p in tree ensures SameNode(tree, t.tree, p) {
      var i :| 0 <= i < |order| && order[i] == p;
    }
    forall p | p in t.tree ensures p in tree {
      if p != [] { assert Before(order, |order|, p); }
    }
    forall p, q | p in tree && q in tree ensures SameSharing(tree, t.tree, p, q) {
      var i :| 0 <= i < |order| && order[i] == p;
      var j :| 0 <= j < |order| && order[j] == q;
    }
    assert forall p :: p in tree ==> SameNode(tree, t.tree, p);
    assert forall p, q :: p in tree && q in tree ==> SameSharing(tree, t.tree, p, q);
  }

  lemma WhiteoutsCons(lower: Tree, item: Item, rest: seq<Item>)
    requires !IsWhiteout(item.path)
    ensures Whiteouts(lower, [item] + rest) == Whiteouts(lower, rest)
  {
    assert ([item] + rest)[1..] == rest;
  }

  lemma {:induction false} NoWhiteoutsNoRemovals(lower: Tree, tree: Tree, order: seq<Path>, k: nat)
    requires Writable(tree, order) && k <= |order| && NoWhiteoutNames(tree)
    ensures Whiteouts(lower, ExpectedFrom(tree, order, k)) == Ok([])
    decreases |order| - k
  {
    if k < |order| {
      NoWhiteoutsNoRemovals(lower, tree, order, k + 1);
      WhiteoutsCons(lower, ExpectedItem(tree, order, k), ExpectedFrom(tree, order, k + 1));
    }
  }

  lemma {:induction false} DirectoryWhiteoutRefused(lower: Tree, tree: Tree, order: seq<Path>, k: nat, i: nat)
    requires Writable(tree, order) && k <= i < |order|
    requires IsWhiteout(order[i]) && tree[order[i]].kind.Directory?
    ensures Whiteouts(lower, ExpectedFrom(tree, order, k)).Err?
    decreases |order| - k
  {
    var items := ExpectedFrom(tree, order, k);
    assert items[0] == ExpectedItem(tree, order, k);
    assert items[1..] == ExpectedFrom(tree, order, k + 1);
    if k < i {
      DirectoryWhiteoutRefused(lower, tree, order, k + 1, i);
    }
  }

  lemma NothingRebuiltYet(tree: Tree, order: seq<Path>)
    requires Covering(tree, order)
    ensures Rebuilt(tree, order, 0, EmptyImage())
  {
  }

  lemma EmissionInserts(s: State)
    requires Valid(s) && NoWhiteoutNames(s.tree) && Valid(EmptyImage()) && Read(Emit(s.tree), 0, {}).Ok?
    ensures
      var r := InsertAll(EmptyImage(), Read(Emit(s.tree), 0, {}).value);
      r.Ok? && WellFormed(r.value) && SameImage(s.tree, r.value.tree)
  {
    var order := Order(s.tree);
    OrderIsGood(s.tree);
    EmissionReads(s);
    NothingRebuiltYet(s.tree, order);
    var done := RebuildFrom(s, order, 0, EmptyImage());
    RebuiltIsSame(s.tree, order, done);
  }

  lemma SameImageKeepsPaths(a: Tree, b: Tree)
    requires KeysArePaths(a) && NoPlaceholder(a) && SameImage(a, b)
    ensures KeysArePaths(b) && NoPlaceholder(b) && Placeholders(b) == {}
  {
  }

  lemma ApplyWithoutRemovals(s: State, entries: seq<Entry>, items: seq<Item>, built: State)
    requires Valid(s) && Read(entries, 0, {}) == Ok(items) && Whiteouts(s.tree, items) == Ok([])
    requires InsertAll(s, items) == Ok(built) && Placeholders(built.tree) == {}
    ensures Apply(s, entries) == Ok(built)
  {
    assert RemoveAll(s.tree, []) == s.tree;
  }

  lemma RoundTripForward(s: State)
    requires Valid(s) && NoWhiteoutNames(s.tree) && Valid(EmptyImage())
    ensures
      var r := Apply(EmptyImage(), Emit(s.tree));
      r.Ok? && SameImage(s.tree, r.value.tree)
  {
    EmissionReads(s);
    var items := Read(Emit(s.tree), 0, {}).value;
    NoWhiteoutsNoRemovals(EmptyImage().tree, s.tree, Order(s.tree), 0);
    EmissionInserts(s);
    var built := InsertAll(EmptyImage(), items).value;
    SameImageKeepsPaths(s.tree, built.tree);
    ApplyWithoutRemovals(EmptyImage(), Emit(s.tree), items, built);
  }

  lemma RoundTripRefused(s: State)
    requires Valid(s) && !NoWhiteoutNames(s.tree) && Valid(EmptyImage())
    ensures Apply(EmptyImage(), Emit(s.tree)).Err?
  {
    var p :| p in s.tree && IsWhiteout(p);
    EmissionReads(s);
    OrderCovers(s.tree);
    var k :| 0 <= k < |Order(s.tree)| && Order(s.tree)[k] == p;
    DirectoryWhiteoutRefused(EmptyImage().tree, s.tree, Order(s.tree), 0, k);
  }

  /** Writing an image out and applying the archive to an empty filesystem. */
  function Rebuild(utf8: Utf8, s: State): Result<State, Error>
    requires Valid(s)
  {
    var archive :- Archive(utf8, s.tree);
    EmptyImageValid();
    Apply(EmptyImage(), archive)
  }

  /**
   The round trip holds exactly when every attribute key is text, without which nothing is written,
   and no directory's own name starts with the whiteout prefix, without which the archive is
   refused. It then rebuilds the same image.
   */
  lemma RoundTrip(utf8: Utf8, s: State)
    requires Valid(s)
    ensures Archive(utf8, s.tree).Ok? <==> AllTextKeys(utf8, s.tree)
    ensures Rebuild(utf8, s).Ok? <==> AllTextKeys(utf8, s.tree) && NoWhiteoutNames(s.tree)
    ensures Rebuild(utf8, s).Ok? ==> SameImage(s.tree, Rebuild(utf8, s).value.tree)
  {
    EmptyImageValid();
    ArchiveExactly(utf8, s.tree);
    if NoWhiteoutNames(s.tree) {
      RoundTripForward(s);
    } else {
      RoundTripRefused(s);
    }
  }

  lemma SameFirst(a: Tree, b: Tree, order: seq<Path>, k: nat)
    requires SameImage(a, b) && (forall i :: 0 <= i < |order| ==> order[i] in a && order[i] in b) && k < |order|
    ensures First(a, order, a[order[k]].inode, k) == First(b, order, b[order[k]].inode, k)
  {
    var i := First(a, order, a[order[k]].inode, k);
    var j := First(b, order, b[order[k]].inode, k);
    assert b[order[i]].inode == b[order[k]].inode;
    assert a[order[j]].inode == a[order[k]].inode;
  }

  lemma SameImageSameEntries(a: Tree, b: Tree)
    requires KeysArePaths(a) && NoPlaceholder(a) && SameImage(a, b)
    ensures KeysArePaths(b) && NoPlaceholder(b)
    ensures Emit(a) == Emit(b)
  {
    SameImageKeepsPaths(a, b);
    assert Directories(a) == Directories(b) && Leaves(a) == Leaves(b);
    var order := Order(a);
    OrderCovers(a);
    forall k | 0 <= k < |order| ensures EntryAt(a, order, k) == EntryAt(b, order, k) {
      SameFirst(a, b, order, k);
    }
  }

  /** Images alike up to identities are written out alike, or both not at all. */
  lemma SameImageSameArchive(utf8: Utf8, a: Tree, b: Tree)
    requires KeysArePaths(a) && NoPlaceholder(a) && SameImage(a, b)
    ensures KeysArePaths(b) && NoPlaceholder(b)
    ensures Archive(utf8, a) == Archive(utf8, b)
  {
    SameImageSameEntries(a, b);
    ArchiveExactly(utf8, a);
    ArchiveExactly(utf8, b);
    assert AllTextKeys(utf8, a) <==> AllTextKeys(utf8, b);
  }

  /** Flattening is canonical: rebuilding from the written archive writes the same archive. */
  lemma EmissionCanonical(utf8: Utf8, s: State)
    requires Valid(s) && Rebuild(utf8, s).Ok?
    ensures
      var rebuilt := Rebuild(utf8, s).value;
      Valid(rebuilt) && Archive(utf8, rebuilt.tree) == Archive(utf8, s.tree)
  {
    RoundTrip(utf8, s);
    EmptyImageValid();
    ApplyKeepsValid(EmptyImage(), Archive(utf8, s.tree).value);
    SameImageSameArchive(utf8, s.tree, Rebuild(utf8, s).value.tree);
  }

  // Layers whose attributes have text keys leave such a tree, so what they leave is written.

  ghost predicate TextLayer(utf8: Utf8, entries: seq<Entry>) {
    forall e, a :: e in entries && a in e.meta.attributes && SCHILY <= a.0 ==> utf8(a.0)
  }

  lemma {:induction false} ParentsKeepTextKeys(utf8: Utf8, s: State, p: Path, k: nat)
    requires AllTextKeys(utf8, s.tree) && Parents(s, p, k).Ok?
    ensures AllTextKeys(utf8, Parents(s, p, k).value.tree)
    decreases |p| - k
  {
    if k < |p| {
      if p[..k] in s.tree {
        ParentsKeepTextKeys(utf8, s, p, k + 1);
      } else {
        ParentsKeepTextKeys(utf8, State(s.tree[p[..k] := DefaultDirectory(s.next)], s.next + 1), p, k + 1);
      }
    }
  }

  lemma InsertKeepsTextKeys(utf8: Utf8, s: State, item: Item)
    requires AllTextKeys(utf8, s.tree) && HasTextKeys(utf8, item.meta) && Insert(s, item).Ok?
    ensures AllTextKeys(utf8, Insert(s, item).value.tree)
  {
    var name := Resolve(s.tree, item.path, false).value;
    var (node, next) := NewNode(s, item).value;
    ParentsKeepTextKeys(utf8, State(Cleared(s.tree, name, node), next), name, 1);
  }

  lemma {:induction false} InsertAllKeepsTextKeys(utf8: Utf8, s: State, items: seq<Item>)
    requires AllTextKeys(utf8, s.tree) && forall i :: 0 <= i < |items| ==> HasTextKeys(utf8, items[i].meta)
    requires InsertAll(s, items).Ok?
    ensures AllTextKeys(utf8, InsertAll(s, items).value.tree)
    decreases |items|
  {
    if items != [] {
      if IsWhiteout(items[0].path) {
        InsertAllKeepsTextKeys(utf8, s, items[1..]);
      } else {
        InsertKeepsTextKeys(utf8, s, items[0]);
        InsertAllKeepsTextKeys(utf8, Insert(s, items[0]).value, items[1..]);
      }
    }
  }

  lemma ReadTextKeys(utf8: Utf8, entries: seq<Entry>)
    requires TextLayer(utf8, entries) && Read(entries, 0, {}).Ok?
    ensures
      var items := Read(entries, 0, {}).value;
      forall i :: 0 <= i < |items| ==> HasTextKeys(utf8, items[i].meta)
  {
    ReadExactly(entries, 0, {});
    var items := Read(entries, 0, {}).value;
    forall i | 0 <= i < |items| ensures HasTextKeys(utf8, items[i].meta) {
      AttributesExactly(entries[i].meta.attributes);
      var kept := items[i].meta.attributes;
      forall j | 0 <= j < |kept| ensures utf8(kept[j].0) {
        assert kept[j] in multiset(kept) && kept[j] in multiset(entries[i].meta.attributes);
        assert entries[i] in entries;
      }
    }
  }

  lemma SettlingKeepsTextKeys(utf8: Utf8, tree: Tree)
    requires PathsOk(tree) && AllTextKeys(utf8, tree) && Rounds(tree, HARDLINK_ROUNDS).Ok?
    ensures AllTextKeys(utf8, Rounds(tree, HARDLINK_ROUNDS).value)
  {
    RoundsExactly(tree, HARDLINK_ROUNDS);
    var after := Rounds(tree, HARDLINK_ROUNDS).value;
    forall p | p in after ensures HasTextKeys(utf8, after[p].meta) {
      var q := AliasedTakesNodes(tree, after, p);
    }
  }

  lemma ApplyKeepsTextKeys(utf8: Utf8, s: State, entries: seq<Entry>)
    requires Valid(s) && AllTextKeys(utf8, s.tree) && TextLayer(utf8, entries) && Apply(s, entries).Ok?
    ensures AllTextKeys(utf8, Apply(s, entries).value.tree)
  {
    var items := Read(entries, 0, {}).value;
    var removals := Whiteouts(s.tree, items).value;
    RemoveAllExactly(s.tree, removals);
    ReadTextKeys(utf8, entries);
    InsertAllKeepsTextKeys(utf8, State(RemoveAll(s.tree, removals), s.next), items);
    InsertedKeepsWellFormed(s, entries);
    SettlingKeepsTextKeys(utf8, InsertAll(State(RemoveAll(s.tree, removals), s.next), items).value.tree);
  }

  /** Any sequence of such layers that is accepted leaves an image that can be written. */
  lemma {:induction false} TextLayersAreWritten(utf8: Utf8, s: State, layers: seq<seq<Entry>>)
    requires Valid(s) && AllTextKeys(utf8, s.tree) && ApplyAll(s, layers).Ok?
    requires forall i :: 0 <= i < |layers| ==> TextLayer(utf8, layers[i])
    ensures var image := ApplyAll(s, layers).value; Valid(image) && Archive(utf8, image.tree).Ok?
    decreases |layers|
  {
    if layers == [] {
      ArchiveExactly(utf8, s.tree);
    } else {
      ApplyKeepsValid(s, layers[0]);
      ApplyKeepsTextKeys(utf8, s, layers[0]);
      TextLayersAreWritten(utf8, Apply(s, layers[0]).value, layers[1..]);
    }
  }
}
