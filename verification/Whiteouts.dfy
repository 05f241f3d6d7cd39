/**
 What whiteouts delete, said of the trees before and after a layer and of the names its entries
 carry: `d/.wh.n` deletes `n` in the directory `d` leads to and everything under it, and
 `d/.wh..wh..opq` everything under that directory but not the directory itself.
 */
module Whiteouts {
  import opened Basics
  import opened Results
  import opened Paths
  import opened Nodes
  import opened Layers
  import opened HardLinks
  import opened Image
  import opened Survival

  lemma LastOf(d: Path, name: string)
    ensures Parent(d + [name]) == d && (d + [name])[|d + [name]| - 1] == name
  {
  }

  lemma MarkerText(n: string)
    ensures StartsWith(".wh." + n, ".wh.") && (".wh." + n)[4..] == n
  {
  }

  /** A whiteout is an entry whose own name starts with ".wh.", whatever the names above it. */
  lemma WhiteoutName(d: Path, name: string)
    ensures IsWhiteout(d + [name]) <==> exists n: string :: name == ".wh." + n
  {
    LastOf(d, name);
    if StartsWith(name, ".wh.") {
      assert name == ".wh." + name[4..];
    }
    if n: string :| name == ".wh." + n {
      MarkerText(n);
    }
  }

  /** `d/.wh.n` covers exactly `n` in the directory `d` leads to, and what is under it. */
  lemma NamedWhiteout(tree: Tree, d: Path, n: string, meta: Meta, p: Path)
    requires n != "" && n != "." && n != ".." && n != ".wh..opq" && Resolve(tree, d, true).Ok?
    ensures
      var item := Item(d + [".wh." + n], meta, File([]));
      && IsWhiteout(item.path) && WhiteoutRemoval(tree, item).Ok?
      && (Covers(WhiteoutRemoval(tree, item).value, p) <==> Resolve(tree, d, true).value + [n] <= p)
  {
    LastOf(d, ".wh." + n);
    MarkerText(n);
    assert (".wh." + n)[4..] != OPAQUE[4..];
    var e := Resolve(tree, d, true).value;
    assert e + [n] <= p <==> e + [n] == p || e + [n] < p;
  }

  /** `d/.wh..wh..opq` covers exactly what is under the directory `d` leads to. */
  lemma OpaqueWhiteout(tree: Tree, d: Path, meta: Meta, p: Path)
    requires Resolve(tree, d, true).Ok?
    ensures
      var item := Item(d + [".wh..wh..opq"], meta, File([]));
      && IsWhiteout(item.path) && WhiteoutRemoval(tree, item).Ok?
      && (Covers(WhiteoutRemoval(tree, item).value, p) <==> Resolve(tree, d, true).value < p)
  {
    LastOf(d, ".wh..wh..opq");
  }

  /**
   A whiteout is refused exactly if it is not an empty file, names nothing, names "." or "..", or
   stands in a directory that does not resolve.
   */
  lemma RefusedExactly(tree: Tree, d: Path, n: string, meta: Meta, kind: Kind)
    ensures
      var item := Item(d + [".wh." + n], meta, kind);
      && IsWhiteout(item.path)
      && (WhiteoutRemoval(tree, item).Err? <==>
            !kind.File? || kind.data != [] || n == "" || n == "." || n == ".." || Resolve(tree, d, true).Err?)
  {
    LastOf(d, ".wh." + n);
    MarkerText(n);
    assert OPAQUE[4..] == ".wh..opq";
  }

  /** The entry is a whiteout that deletes `p`, by its name and where its directory leads. */
  ghost predicate Deletes(tree: Tree, item: Item, p: Path) {
    exists d: Path, n: string {:trigger d + [".wh." + n]} ::
      && item.path == d + [".wh." + n] && Resolve(tree, d, true).Ok?
      && var e := Resolve(tree, d, true).value;
      if n == ".wh..opq" then e < p else e + [n] <= p
  }

  lemma DeletesIsCovers(tree: Tree, item: Item, p: Path)
    requires item.path != [] && IsWhiteout(item.path) && WhiteoutRemoval(tree, item).Ok?
    ensures Covers(WhiteoutRemoval(tree, item).value, p) <==> Deletes(tree, item, p)
  {
    var d, last := Parent(item.path), item.path[|item.path| - 1];
    var n := last[4..];
    assert last == ".wh." + n && item.path == d + [".wh." + n];
    forall d': Path, n': string | item.path == d' + [".wh." + n'] ensures d' == d && n' == n {
      LastOf(d', ".wh." + n');
      MarkerText(n');
    }
    if n == ".wh..opq" {
      OpaqueWhiteout(tree, d, item.meta, p);
    } else {
      NamedWhiteout(tree, d, n, item.meta, p);
    }
  }

  ghost predicate DeletedBy(tree: Tree, items: seq<Item>, p: Path) {
    exists i :: 0 <= i < |items| && Deletes(tree, items[i], p)
  }

  /** The removals of a layer cover exactly what its whiteouts delete. */
  lemma LayerCovers(tree: Tree, items: seq<Item>, p: Path)
    requires Whiteouts(tree, items).Ok?
    ensures Uncovered(Whiteouts(tree, items).value, p) <==> !DeletedBy(tree, items, p)
  {
    WhiteoutsExactly(tree, items);
    var removals := Whiteouts(tree, items).value;
    if j :| 0 <= j < |removals| && Covers(removals[j], p) {
      assert removals[j] in removals;
      var i :| 0 <= i < |items| && IsWhiteout(items[i].path) && WhiteoutRemoval(tree, items[i]) == Ok(removals[j]);
      DeletesIsCovers(tree, items[i], p);
    }
    if i :| 0 <= i < |items| && Deletes(tree, items[i], p) {
      DeletesIsWhiteout(tree, items[i], p);
      DeletesIsCovers(tree, items[i], p);
      var r := WhiteoutRemoval(tree, items[i]).value;
      assert r in removals;
    }
  }

  lemma DeletesIsWhiteout(tree: Tree, item: Item, p: Path)
    requires Deletes(tree, item, p)
    ensures item.path != [] && IsWhiteout(item.path)
  {
    var d: Path, n: string :| item.path == d + [".wh." + n];
    WhiteoutName(d, ".wh." + n);
  }

  /** Some entry of a layer lands at `p` or below it, each seen from the tree it is inserted into. */
  ghost predicate Lands(s: State, items: seq<Item>, p: Path)
    requires InsertAll(s, items).Ok?
    decreases |items|
  {
    && items != []
    && if IsWhiteout(items[0].path) then Lands(s, items[1..], p)
       else p <= LandingOf(s, items[0]).name || Lands(Insert(s, items[0]).value, items[1..], p)
  }

  lemma {:induction false} NothingLands(s: State, items: seq<Item>, p: Path)
    requires WellFormed(s) && (forall i :: 0 <= i < |items| ==> ItemOk(items[i]))
    requires InsertAll(s, items).Ok? && p !in s.tree && !Lands(s, items, p)
    ensures p !in InsertAll(s, items).value.tree
    decreases |items|
  {
    if items != [] {
      if IsWhiteout(items[0].path) {
        NothingLands(s, items[1..], p);
      } else {
        var t := Insert(s, items[0]).value;
        InsertExactly(s, items[0], t, p);
        InsertKeepsWellFormed(s, items[0]);
        NothingLands(t, items[1..], p);
      }
    }
  }

  /** What a whiteout of a layer deletes is gone, unless an entry of the same layer lands there or below. */
  lemma LayerDeletes(s: State, entries: seq<Entry>, p: Path)
    requires Valid(s) && Apply(s, entries).Ok? && DeletedBy(s.tree, Read(entries, 0, {}).value, p)
    ensures p in Apply(s, entries).value.tree ==> Lands(Below(s, entries), Read(entries, 0, {}).value, p)
  {
    var items, below := Read(entries, 0, {}).value, Below(s, entries);
    LayerCovers(s.tree, items, p);
    RemoveAllExactly(s.tree, Whiteouts(s.tree, items).value);
    ClearedKeepsWellFormed(s, entries);
    InsertedKeepsWellFormed(s, entries);
    ReadItemsOk(entries);
    if !Lands(below, items, p) {
      NothingLands(below, items, p);
      RoundsExactly(InsertAll(below, items).value.tree, HARDLINK_ROUNDS);
    }
  }

  /** A path of the image below that no entry touches is gone exactly if a whiteout deletes it. */
  lemma LayerDeletesExactly(s: State, entries: seq<Entry>, p: Path)
    requires Valid(s) && Apply(s, entries).Ok? && p in s.tree
    requires Spared(Below(s, entries), Read(entries, 0, {}).value, p)
    ensures p !in Apply(s, entries).value.tree <==> DeletedBy(s.tree, Read(entries, 0, {}).value, p)
  {
    LayerKeeps(s, entries, p);
    LayerCovers(s.tree, Read(entries, 0, {}).value, p);
  }

  lemma EntryPath(entries: seq<Entry>, k: nat, q: Path)
    requires Read(entries, 0, {}).Ok? && k < |entries| && IsPath(q) && entries[k].name == Text(Join(q)) && q != []
    ensures k < |Read(entries, 0, {}).value| && Read(entries, 0, {}).value[k].path == q
  {
    ReadExactly(entries, 0, {});
    ArchiveNameRoundTrip(q);
  }

  lemma AcceptedWhiteout(s: State, entries: seq<Entry>, k: nat, d: Path, n: string)
    requires Valid(s) && Apply(s, entries).Ok? && k < |entries| && IsPath(d + [".wh." + n])
    requires entries[k].name == Text(Join(d + [".wh." + n]))
    ensures
      var items := Read(entries, 0, {}).value;
      && k < |items| && items[k].path == d + [".wh." + n] && items[k].kind == File([])
      && Resolve(s.tree, d, true).Ok?
  {
    EntryPath(entries, k, d + [".wh." + n]);
    var item := Read(entries, 0, {}).value[k];
    WhiteoutName(d, ".wh." + n);
    WhiteoutsExactly(s.tree, Read(entries, 0, {}).value);
    RefusedExactly(s.tree, d, n, item.meta, item.kind);
  }

  /**
   From the archive to the tree: the entry `d/.wh.n` of an accepted layer deletes `n` where `d`
   leads and what is under it, and the entry `d/.wh..wh..opq` only what is under that directory.
   */
  lemma EntryDeletes(s: State, entries: seq<Entry>, k: nat, d: Path, n: string, p: Path)
    requires Valid(s) && Apply(s, entries).Ok? && k < |entries| && IsPath(d + [".wh." + n])
    requires entries[k].name == Text(Join(d + [".wh." + n]))
    ensures Resolve(s.tree, d, true).Ok?
    ensures
      var e := Resolve(s.tree, d, true).value;
      (if n == ".wh..opq" then e < p else e + [n] <= p) && p in Apply(s, entries).value.tree ==>
        Lands(Below(s, entries), Read(entries, 0, {}).value, p)
  {
    AcceptedWhiteout(s, entries, k, d, n);
    var item, e := Read(entries, 0, {}).value[k], Resolve(s.tree, d, true).value;
    if if n == ".wh..opq" then e < p else e + [n] <= p {
      assert item.path == d + [".wh." + n];
      assert Deletes(s.tree, item, p);
      LayerDeletes(s, entries, p);
    }
  }
}
