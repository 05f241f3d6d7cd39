/**
 What a layer keeps. One insertion is characterised path by path, and over a whole layer a path that
 no entry touches survives, with its very node, exactly when no whiteout covers it.
 */
module Survival {
  import opened Results
  import opened Paths
  import opened Nodes
  import opened Layers
  import opened HardLinks
  import opened Image

  /** Where an entry lands and what it puts there. */
  datatype Landing = Landing(name: Path, node: Node)

  function LandingOf(s: State, item: Item): Landing
    requires Insert(s, item).Ok?
  {
    Landing(Resolve(s.tree, item.path, false).value, NewNode(s, item).value.0)
  }

  /** A directory landing on a directory: only its own node is replaced. */
  predicate Merges(tree: Tree, l: Landing) {
    l.node.kind.Directory? && IsDirectory(tree, l.name)
  }

  /** Under something that takes the place of whatever was there. */
  predicate Buried(tree: Tree, l: Landing, p: Path) {
    !Merges(tree, l) && l.name < p
  }

  /** What one insertion leaves at a path that is not where it lands. */
  ghost predicate LeftAt(tree: Tree, l: Landing, after: Tree, p: Path) {
    if Buried(tree, l, p) then p !in after
    else if p in tree then p in after && after[p] == tree[p]
    else if p < l.name then
      p in after && after[p].kind.Directory? && after[p].meta == Meta(7 * 64 + 5 * 8 + 5, 0, 0, 0, [])
    else p !in after
  }

  lemma ParentsMade(s: State, l: Landing, next: nat) returns (above: State)
    requires WellFormed(s) && IsPath(l.name) && ClearAbove(s.tree, l.name) && s.next <= next
    requires l.name == [] ==> l.node.kind.Directory?
    ensures Parents(State(Cleared(s.tree, l.name, l.node), next), l.name, 1) == Ok(above)
    ensures AddsAbove(Cleared(s.tree, l.name, l.node), above.tree, l.name)
    ensures forall d :: d < l.name ==> IsDirectory(above.tree, d)
  {
    ClearedOk(s, l.name, l.node, next);
    assert l.name != [] ==> l.name[..0] == [];
    above := ParentsNeverFail(State(Cleared(s.tree, l.name, l.node), next), l.name, 1);
    forall d | d < l.name ensures IsDirectory(above.tree, d) {
      if d != Parent(l.name) {
        assert d < Parent(l.name);
        AncestorIsDirectory(above.tree, Parent(l.name), d);
      }
    }
  }

  lemma ClearedAt(tree: Tree, l: Landing, p: Path)
    requires p != l.name
    ensures p in Cleared(tree, l.name, l.node) <==> p in tree && !Buried(tree, l, p)
    ensures p in Cleared(tree, l.name, l.node) ==> Cleared(tree, l.name, l.node)[p] == tree[p]
  {
  }

  lemma InsertShape(s: State, item: Item, t: State) returns (above: Tree)
    requires WellFormed(s) && ItemOk(item) && Insert(s, item) == Ok(t)
    ensures
      var l := LandingOf(s, item);
      && t.tree == above[l.name := l.node]
      && AddsAbove(Cleared(s.tree, l.name, l.node), above, l.name)
      && (forall d :: d < l.name ==> IsDirectory(above, d))
  {
    ResolveSound(s.tree, item.path, false);
    NewNodeOk(s, item);
    var made := ParentsMade(s, LandingOf(s, item), NewNode(s, item).value.1);
    above := made.tree;
  }

  lemma LeftBy(tree: Tree, l: Landing, above: Tree, p: Path)
    requires AddsAbove(Cleared(tree, l.name, l.node), above, l.name) && forall d :: d < l.name ==> IsDirectory(above, d)
    requires p != l.name
    ensures LeftAt(tree, l, above[l.name := l.node], p)
  {
    ClearedAt(tree, l, p);
    if p < l.name {
      assert IsDirectory(above, p) && !(l.name < p);
    }
  }

  /** One insertion, path by path. */
  lemma InsertExactly(s: State, item: Item, t: State, p: Path)
    requires WellFormed(s) && ItemOk(item) && Insert(s, item) == Ok(t)
    ensures
      var l := LandingOf(s, item);
      if p == l.name then p in t.tree && t.tree[p] == l.node else LeftAt(s.tree, l, t.tree, p)
  {
    var l := LandingOf(s, item);
    var above := InsertShape(s, item, t);
    if p != l.name {
      LeftBy(s.tree, l, above, p);
    }
  }

  /** The paths there are once something landed at `name`: it, what is above it and what it does not bury. */
  function PathsAfter(tree: Tree, name: Path, merges: bool): set<Path> {
    (set p | p in tree && (merges || !(name < p))) + (set k | 0 <= k <= |name| :: name[..k])
  }

  lemma PathsLeft(tree: Tree, l: Landing, above: Tree)
    requires AddsAbove(Cleared(tree, l.name, l.node), above, l.name) && forall d :: d < l.name ==> IsDirectory(above, d)
    ensures above[l.name := l.node].Keys == PathsAfter(tree, l.name, Merges(tree, l))
  {
    var after := above[l.name := l.node];
    forall p ensures p in after <==> p in PathsAfter(tree, l.name, Merges(tree, l)) {
      assert l.name[..|l.name|] == l.name;
      if p != l.name {
        LeftBy(tree, l, above, p);
        assert p < l.name ==> l.name[..|p|] == p;
        assert forall k :: 0 <= k < |l.name| ==> l.name[..k] < l.name;
      }
    }
  }

  /**
   An entry is refused exactly if its path does not resolve, or does to the root and it is no directory;
   if it is a hard link to a directory or whose target does not resolve; or if too many paths were left.
   */
  lemma InsertRefusedExactly(s: State, item: Item)
    requires WellFormed(s) && ItemOk(item)
    ensures
      var name := Resolve(s.tree, item.path, false);
      Insert(s, item).Ok? <==>
      && name.Ok? && (name.value == [] ==> item.kind.Directory?)
      && (item.kind.Hardlink? ==>
            var target := Resolve(s.tree, item.kind.target, false);
            target.Ok? && !IsDirectory(s.tree, target.value))
      && var merges := item.kind.Directory? && IsDirectory(s.tree, name.value);
         |PathsAfter(s.tree, name.value, merges)| <= 100_000
  {
    var name := Resolve(s.tree, item.path, false);
    if name.Ok? && (name.value == [] ==> item.kind.Directory?) && NewNode(s, item).Ok? {
      ResolveSound(s.tree, item.path, false);
      NewNodeOk(s, item);
      var (node, next) := NewNode(s, item).value;
      var made := ParentsMade(s, Landing(name.value, node), next);
      PathsLeft(s.tree, Landing(name.value, node), made.tree);
      var tree := made.tree[name.value := node];
      assert |tree| == |tree.Keys|;
    }
  }

  /** At a path with nothing but directories above it, an entry that is no hard link lands as it is. */
  lemma EntryLands(s: State, item: Item, t: State)
    requires WellFormed(s) && ItemOk(item) && Insert(s, item) == Ok(t)
    requires ClearAbove(s.tree, item.path) && !item.kind.Hardlink?
    ensures item.path in t.tree && t.tree[item.path] == Node(item.meta, s.next, item.kind)
    ensures forall q :: q in s.tree ==> s.tree[q].inode != s.next
  {
    ResolveFixed(s.tree, item.path);
    InsertExactly(s, item, t, item.path);
  }

  /**
   A hard link lands as the very node its target names, a symbolic link itself and not what it
   leads to; as a placeholder if there is no such node yet; and never on a directory.
   */
  lemma HardLinkLands(s: State, item: Item)
    requires WellFormed(s) && ItemOk(item) && item.kind.Hardlink?
    requires item.path != [] && ClearAbove(s.tree, item.path) && ClearAbove(s.tree, item.kind.target)
    ensures
      var target, t := item.kind.target, Insert(s, item);
      if target !in s.tree then
        t.Ok? ==> item.path in t.value.tree && t.value.tree[item.path] == Node(item.meta, s.next, Hardlink(target))
      else if s.tree[target].kind.Directory? then t == Err(HardlinkToDirectory)
      else t.Ok? ==> item.path in t.value.tree && t.value.tree[item.path] == s.tree[target]
  {
    ResolveFixed(s.tree, item.path);
    ResolveFixed(s.tree, item.kind.target);
    if Insert(s, item).Ok? {
      InsertExactly(s, item, Insert(s, item).value, item.path);
    }
  }

  /** The path is where an entry lands, buried by it, or made as one of its parents. */
  predicate Touches(tree: Tree, l: Landing, p: Path) {
    p == l.name || (p in tree && Buried(tree, l, p)) || (p !in tree && p < l.name)
  }

  ghost predicate SameAt(a: Tree, b: Tree, p: Path) {
    (p in a <==> p in b) && (p in a && p in b ==> a[p] == b[p])
  }

  lemma UntouchedStays(s: State, item: Item, t: State, p: Path)
    requires WellFormed(s) && ItemOk(item) && Insert(s, item) == Ok(t)
    requires !Touches(s.tree, LandingOf(s, item), p)
    ensures SameAt(s.tree, t.tree, p)
  {
    InsertExactly(s, item, t, p);
  }

  /** No entry of a layer touches the path, each seen from the tree it is inserted into. */
  ghost predicate Spared(s: State, items: seq<Item>, p: Path)
    requires InsertAll(s, items).Ok?
    decreases |items|
  {
    items == [] ||
    if IsWhiteout(items[0].path) then Spared(s, items[1..], p)
    else !Touches(s.tree, LandingOf(s, items[0]), p) && Spared(Insert(s, items[0]).value, items[1..], p)
  }

  lemma {:induction false} SparedStays(s: State, items: seq<Item>, p: Path)
    requires WellFormed(s) && (forall i :: 0 <= i < |items| ==> ItemOk(items[i]))
    requires InsertAll(s, items).Ok? && Spared(s, items, p)
    ensures SameAt(s.tree, InsertAll(s, items).value.tree, p)
    decreases |items|
  {
    if items != [] {
      if IsWhiteout(items[0].path) {
        SparedStays(s, items[1..], p);
      } else {
        var t := Insert(s, items[0]).value;
        UntouchedStays(s, items[0], t, p);
        InsertKeepsWellFormed(s, items[0]);
        SparedStays(t, items[1..], p);
      }
    }
  }

  /** The tree a layer's entries are inserted into. */
  function Below(s: State, entries: seq<Entry>): State
    requires Read(entries, 0, {}).Ok? && Whiteouts(s.tree, Read(entries, 0, {}).value).Ok?
  {
    State(RemoveAll(s.tree, Whiteouts(s.tree, Read(entries, 0, {}).value).value), s.next)
  }

  lemma SettledStays(tree: Tree, p: Path)
    requires PathsOk(tree) && Rounds(tree, HARDLINK_ROUNDS).Ok? && (p in tree ==> !tree[p].kind.Hardlink?)
    ensures SameAt(tree, Rounds(tree, HARDLINK_ROUNDS).value, p)
  {
    RoundsExactly(tree, HARDLINK_ROUNDS);
  }

  /** A path of the image below that no entry touches survives a layer exactly when no whiteout covers it. */
  lemma LayerKeeps(s: State, entries: seq<Entry>, p: Path)
    requires Valid(s) && Apply(s, entries).Ok? && p in s.tree
    requires Spared(Below(s, entries), Read(entries, 0, {}).value, p)
    ensures
      var after := Apply(s, entries).value.tree;
      && (p in after <==> Uncovered(Whiteouts(s.tree, Read(entries, 0, {}).value).value, p))
      && (p in after ==> after[p] == s.tree[p])
  {
    var items, below := Read(entries, 0, {}).value, Below(s, entries);
    RemoveAllExactly(s.tree, Whiteouts(s.tree, items).value);
    ClearedKeepsWellFormed(s, entries);
    InsertedKeepsWellFormed(s, entries);
    ReadItemsOk(entries);
    SparedStays(below, items, p);
    SettledStays(InsertAll(below, items).value.tree, p);
  }

  // What a layer puts in place.

  lemma InsertAllCons(s: State, item: Item, rest: seq<Item>)
    ensures
      InsertAll(s, [item] + rest) ==
      if IsWhiteout(item.path) then InsertAll(s, rest)
      else if Insert(s, item).Err? then Insert(s, item)
      else InsertAll(Insert(s, item).value, rest)
  {
    assert ([item] + rest)[1..] == rest;
  }

  /** Inserting entries and then others is inserting all of them. */
  lemma {:induction false} InsertAllConcat(s: State, a: seq<Item>, b: seq<Item>)
    ensures
      InsertAll(s, a + b) == if InsertAll(s, a).Ok? then InsertAll(InsertAll(s, a).value, b) else InsertAll(s, a)
    decreases |a|
  {
    if a == [] {
      assert a + b == b;
    } else {
      var item, rest := a[0], a[1..];
      assert a == [item] + rest && a + b == [item] + (rest + b);
      InsertAllCons(s, item, rest);
      InsertAllCons(s, item, rest + b);
      if IsWhiteout(item.path) {
        InsertAllConcat(s, rest, b);
      } else if Insert(s, item).Ok? {
        InsertAllConcat(Insert(s, item).value, rest, b);
      }
    }
  }

  lemma InsertAllAround(s: State, a: seq<Item>, item: Item, b: seq<Item>)
    requires InsertAll(s, a + ([item] + b)).Ok? && !IsWhiteout(item.path)
    requires WellFormed(s) && |s.tree| <= MAX_ENTRIES && forall i :: 0 <= i < |a| ==> ItemOk(a[i])
    ensures
      var before := InsertAll(s, a);
      && before.Ok? && WellFormed(before.value) && Insert(before.value, item).Ok?
      && InsertAll(Insert(before.value, item).value, b) == InsertAll(s, a + ([item] + b))
  {
    InsertAllConcat(s, a, [item] + b);
    InsertAllKeepsWellFormed(s, a);
    InsertAllCons(InsertAll(s, a).value, item, b);
  }

  ghost predicate AllItemsOk(items: seq<Item>) {
    forall i :: 0 <= i < |items| ==> ItemOk(items[i])
  }

  /** The entries of a layer are `before`, `item` and `after`, and `met` is what `item` is inserted into. */
  ghost predicate HasTurn(s: State, before: seq<Item>, item: Item, after: seq<Item>, met: State) {
    && InsertAll(s, before) == Ok(met) && !IsWhiteout(item.path) && Insert(met, item).Ok?
    && InsertAll(Insert(met, item).value, after).Ok?
  }

  lemma StaysLanded(s: State, before: seq<Item>, item: Item, after: seq<Item>, met: State)
    requires WellFormed(s) && |s.tree| <= MAX_ENTRIES && AllItemsOk(before) && ItemOk(item) && AllItemsOk(after)
    requires HasTurn(s, before, item, after, met) && !item.kind.Hardlink? && ClearAbove(met.tree, item.path)
    requires Spared(Insert(met, item).value, after, item.path)
    ensures
      var tree := InsertAll(Insert(met, item).value, after).value.tree;
      item.path in tree && tree[item.path] == Node(item.meta, met.next, item.kind)
  {
    InsertAllKeepsWellFormed(s, before);
    EntryLands(met, item, Insert(met, item).value);
    InsertKeepsWellFormed(met, item);
    SparedStays(Insert(met, item).value, after, item.path);
  }

  lemma LayerItems(s: State, entries: seq<Entry>) returns (items: seq<Item>, below: State)
    requires Valid(s) && Apply(s, entries).Ok?
    ensures Read(entries, 0, {}) == Ok(items) && Whiteouts(s.tree, items).Ok? && below == Below(s, entries)
    ensures WellFormed(below) && |below.tree| <= MAX_ENTRIES && AllItemsOk(items) && InsertAll(below, items).Ok?
    ensures
      var tree := InsertAll(below, items).value.tree;
      && PathsOk(tree) && Rounds(tree, HARDLINK_ROUNDS).Ok?
      && Apply(s, entries).value.tree == Rounds(tree, HARDLINK_ROUNDS).value
  {
    items, below := Read(entries, 0, {}).value, Below(s, entries);
    ClearedKeepsWellFormed(s, entries);
    InsertedKeepsWellFormed(s, entries);
    ReadItemsOk(entries);
  }

  lemma PartsOk(items: seq<Item>, before: seq<Item>, item: Item, after: seq<Item>)
    requires AllItemsOk(items) && items == before + ([item] + after)
    ensures AllItemsOk(before) && ItemOk(item) && AllItemsOk(after)
  {
    assert items[|before|] == item;
    forall i | 0 <= i < |before| ensures ItemOk(before[i]) {
      assert items[i] == before[i];
    }
    forall i | 0 <= i < |after| ensures ItemOk(after[i]) {
      assert items[|before| + 1 + i] == after[i];
    }
  }

  /** Every entry of an accepted layer but its whiteouts has its turn, after those before it. */
  lemma EntryTurn(s: State, entries: seq<Entry>, before: seq<Item>, item: Item, after: seq<Item>) returns (met: State)
    requires Valid(s) && Apply(s, entries).Ok? && Read(entries, 0, {}) == Ok(before + ([item] + after))
    requires !IsWhiteout(item.path)
    ensures HasTurn(Below(s, entries), before, item, after, met) && WellFormed(met)
  {
    var items, below := LayerItems(s, entries);
    PartsOk(items, before, item, after);
    InsertAllAround(below, before, item, after);
    met := InsertAll(below, before).value;
  }

  /**
   An entry of an accepted layer is there afterwards, whatever the layer's whiteouts delete: with
   nothing but directories above it on its turn, and untouched by the entries after it, its path
   holds a new node with its header and what it is.
   */
  lemma EntryInstalled(
    s: State, entries: seq<Entry>, before: seq<Item>, item: Item, after: seq<Item>, met: State)
    requires Valid(s) && Apply(s, entries).Ok? && Read(entries, 0, {}) == Ok(before + ([item] + after))
    requires HasTurn(Below(s, entries), before, item, after, met) && !item.kind.Hardlink?
    requires ClearAbove(met.tree, item.path) && Spared(Insert(met, item).value, after, item.path)
    ensures
      var tree := Apply(s, entries).value.tree;
      item.path in tree && tree[item.path] == Node(item.meta, met.next, item.kind)
  {
    var items, below := LayerItems(s, entries);
    PartsOk(items, before, item, after);
    InsertAllAround(below, before, item, after);
    StaysLanded(below, before, item, after, met);
    SettledWhereLanded(InsertAll(below, items).value.tree, item.path);
  }

  lemma SettledWhereLanded(tree: Tree, p: Path)
    requires PathsOk(tree) && Rounds(tree, HARDLINK_ROUNDS).Ok?
    ensures p in tree && !tree[p].kind.Hardlink? ==> SameAt(tree, Rounds(tree, HARDLINK_ROUNDS).value, p)
  {
    if p in tree && !tree[p].kind.Hardlink? {
      SettledStays(tree, p);
    }
  }
}
