/**
 The flattener itself: a filesystem object changed in place by `Apply`, written out by `Finish`,
 and the layer loop over it with its budget of decoded bytes. Every method is proved to compute
 the functions the other modules reason about.
 */
module Flattening {
  import opened Basics
  import opened Results
  import opened Paths
  import opened Nodes
  import L = Layers
  import H = HardLinks
  import I = Image
  import E = Emission

  // How much file data an archive holds: each distinct identity once.

  ghost function FileSizes(tree: Tree): map<nat, nat>
    requires E.SharingOk(tree)
  {
    map p | p in tree && tree[p].kind.File? :: tree[p].inode := |tree[p].kind.data|
  }

  ghost function Total(sizes: map<nat, nat>): nat
    decreases |sizes|
  {
    if sizes == map[] then 0
    else
      var i :| i in sizes;
      sizes[i] + Total(sizes - {i})
  }

  lemma {:induction false} TotalRemove(sizes: map<nat, nat>, i: nat)
    requires i in sizes
    ensures Total(sizes) == sizes[i] + Total(sizes - {i})
    decreases |sizes|
  {
    var j :| j in sizes && Total(sizes) == sizes[j] + Total(sizes - {j});
    if i != j {
      TotalRemove(sizes - {j}, i);
      TotalRemove(sizes - {i}, j);
      assert sizes - {j} - {i} == sizes - {i} - {j};
    }
  }

  lemma TotalAdd(sizes: map<nat, nat>, i: nat, size: nat)
    requires i !in sizes
    ensures Total(sizes[i := size]) == Total(sizes) + size
  {
    TotalRemove(sizes[i := size], i);
    assert sizes[i := size] - {i} == sizes;
  }

  ghost predicate SizesOf(tree: Tree, order: seq<Path>, k: nat, sizes: map<nat, nat>) {
    && (forall i :: i in sizes ==> exists j :: 0 <= j < k && j < |order| && IsFileAt(tree, order, j, i, sizes[i]))
    && (forall j :: 0 <= j < k && j < |order| && order[j] in tree && tree[order[j]].kind.File? ==>
        tree[order[j]].inode in sizes)
  }

  ghost predicate IsFileAt(tree: Tree, order: seq<Path>, j: nat, inode: nat, size: nat) {
    && j < |order| && order[j] in tree
    && tree[order[j]].kind.File? && tree[order[j]].inode == inode && |tree[order[j]].kind.data| == size
  }

  lemma SizesOfAll(tree: Tree, order: seq<Path>, sizes: map<nat, nat>)
    requires E.SharingOk(tree) && E.Covering(tree, order) && SizesOf(tree, order, |order|, sizes)
    ensures sizes == FileSizes(tree)
  {
    var all := FileSizes(tree);
    forall i | i in all ensures i in sizes && sizes[i] == all[i] {
      var p :| p in tree && tree[p].kind.File? && tree[p].inode == i;
      var j :| 0 <= j < |order| && order[j] == p;
      assert tree[order[j]].inode in sizes;
      var m :| 0 <= m < |order| && IsFileAt(tree, order, m, i, sizes[i]);
    }
    forall i | i in sizes ensures i in all {
      var m :| 0 <= m < |order| && IsFileAt(tree, order, m, i, sizes[i]);
    }
    assert sizes.Keys == all.Keys;
  }

  lemma SizesKept(tree: Tree, order: seq<Path>, k: nat, sizes: map<nat, nat>)
    requires k < |order| && order[k] in tree && SizesOf(tree, order, k, sizes)
    requires tree[order[k]].kind.File? ==> tree[order[k]].inode in sizes
    ensures SizesOf(tree, order, k + 1, sizes)
  {
    forall i | i in sizes ensures exists j :: 0 <= j < k + 1 && j < |order| && IsFileAt(tree, order, j, i, sizes[i]) {
      var j :| 0 <= j < k && IsFileAt(tree, order, j, i, sizes[i]);
    }
  }

  lemma SizesExtend(tree: Tree, order: seq<Path>, k: nat, sizes: map<nat, nat>)
    requires k < |order| && order[k] in tree && SizesOf(tree, order, k, sizes)
    requires tree[order[k]].kind.File? && tree[order[k]].inode !in sizes
    ensures SizesOf(tree, order, k + 1, sizes[tree[order[k]].inode := |tree[order[k]].kind.data|])
  {
    var node := tree[order[k]];
    var more := sizes[node.inode := |node.kind.data|];
    forall i | i in more ensures exists j :: 0 <= j < k + 1 && j < |order| && IsFileAt(tree, order, j, i, more[i]) {
      if i == node.inode {
        assert IsFileAt(tree, order, k, i, more[i]);
      } else {
        var j :| 0 <= j < k && IsFileAt(tree, order, j, i, sizes[i]);
      }
    }
  }

  /** The links table holds, for each identity written so far, the first path written for it. */
  ghost predicate LinksAre(tree: Tree, order: seq<Path>, k: nat, links: map<nat, string>) {
    && k <= |order|
    && (forall i :: 0 <= i < |order| ==> order[i] in tree)
    && (forall i :: 0 <= i < k ==> LinksAt(tree, order, i, links))
    && (forall inode :: inode in links ==> exists i :: 0 <= i < k && tree[order[i]].inode == inode)
  }

  ghost predicate LinksAt(tree: Tree, order: seq<Path>, i: nat, links: map<nat, string>)
    requires i < |order| && forall j :: 0 <= j < |order| ==> order[j] in tree
  {
    var inode := tree[order[i]].inode;
    inode in links && links[inode] == ArchiveName(order[E.First(tree, order, inode, i)])
  }

  lemma FirstAgrees(tree: Tree, order: seq<Path>, i: nat, k: nat)
    requires (forall j :: 0 <= j < |order| ==> order[j] in tree) && i < |order| && k < |order|
    requires tree[order[i]].inode == tree[order[k]].inode
    ensures E.First(tree, order, tree[order[i]].inode, i) == E.First(tree, order, tree[order[k]].inode, k)
  {
  }

  /** An identity is in the table exactly when an earlier path shares it; directories never are. */
  lemma LinkedBefore(tree: Tree, order: seq<Path>, k: nat, links: map<nat, string>, sizes: map<nat, nat>)
    requires E.Covering(tree, order) && E.SharingOk(tree) && k < |order|
    requires LinksAre(tree, order, k, links) && SizesOf(tree, order, k, sizes)
    ensures
      var node := tree[order[k]];
      && (node.inode in links <==> E.First(tree, order, node.inode, k) < k)
      && (node.inode in links ==> links[node.inode] == ArchiveName(order[E.First(tree, order, node.inode, k)]))
      && (node.kind.Directory? ==> node.inode !in links)
      && (node.kind.File? ==> (node.inode in links <==> node.inode in sizes))
  {
    var node := tree[order[k]];
    var first := E.First(tree, order, node.inode, k);
    if first < k {
      assert LinksAt(tree, order, first, links);
      FirstAgrees(tree, order, first, k);
      assert tree[order[first]] == node && order[first] != order[k];
    }
    if node.inode in links {
      var i :| 0 <= i < k && tree[order[i]].inode == node.inode;
    }
    if node.inode in sizes {
      var j :| 0 <= j < k && IsFileAt(tree, order, j, node.inode, sizes[node.inode]);
      assert LinksAt(tree, order, j, links);
    }
  }

  lemma SharedIsLinked(tree: Tree, order: seq<Path>, k: nat, links: map<nat, string>)
    requires k < |order| && LinksAre(tree, order, k, links)
    ensures E.First(tree, order, tree[order[k]].inode, k) < k ==> tree[order[k]].inode in links
  {
    var first := E.First(tree, order, tree[order[k]].inode, k);
    if first < k {
      assert LinksAt(tree, order, first, links);
    }
  }

  /** The links table after place `k`. */
  function LinksWith(tree: Tree, order: seq<Path>, k: nat, links: map<nat, string>): map<nat, string>
    requires k < |order| && order[k] in tree
  {
    if tree[order[k]].inode in links then links else links[tree[order[k]].inode := ArchiveName(order[k])]
  }

  lemma EarlierLink(tree: Tree, order: seq<Path>, k: nat, links: map<nat, string>, i: nat)
    requires i < k < |order| && LinksAre(tree, order, k, links)
    ensures LinksAt(tree, order, i, LinksWith(tree, order, k, links))
  {
    assert LinksAt(tree, order, i, links);
  }

  lemma NewLink(tree: Tree, order: seq<Path>, k: nat, links: map<nat, string>)
    requires k < |order| && LinksAre(tree, order, k, links)
    ensures LinksAt(tree, order, k, LinksWith(tree, order, k, links))
  {
    var node := tree[order[k]];
    if node.inode in links {
      var j :| 0 <= j < k && tree[order[j]].inode == node.inode;
      assert LinksAt(tree, order, j, links);
      FirstAgrees(tree, order, j, k);
    } else {
      SharedIsLinked(tree, order, k, links);
    }
  }

  lemma LinksExtend(tree: Tree, order: seq<Path>, k: nat, links: map<nat, string>)
    requires k < |order| && LinksAre(tree, order, k, links)
    ensures LinksAre(tree, order, k + 1, LinksWith(tree, order, k, links))
  {
    var more := LinksWith(tree, order, k, links);
    forall i | 0 <= i < k + 1 ensures LinksAt(tree, order, i, more) {
      if i < k {
        EarlierLink(tree, order, k, links, i);
      } else {
        NewLink(tree, order, k, links);
      }
    }
    forall inode | inode in more ensures exists i :: 0 <= i < k + 1 && tree[order[i]].inode == inode {
      if inode in links {
        var i :| 0 <= i < k && tree[order[i]].inode == inode;
      } else {
        assert tree[order[k]].inode == inode;
      }
    }
  }

  predicate AsLink(node: Node, links: map<nat, string>) {
    node.inode in links && !node.kind.Directory?
  }

  predicate AddsData(node: Node, links: map<nat, string>) {
    node.kind.File? && !AsLink(node, links)
  }

  /** One turn of the writing loop: the entry it adds, and what its two tables hold afterwards. */
  lemma WriteTurn(tree: Tree, order: seq<Path>, k: nat, links: map<nat, string>, sizes: map<nat, nat>)
    returns (more: map<nat, nat>)
    requires E.Covering(tree, order) && E.SharingOk(tree) && L.NoPlaceholder(tree) && k < |order|
    requires LinksAre(tree, order, k, links) && SizesOf(tree, order, k, sizes)
    ensures
      var node, name := tree[order[k]], ArchiveName(order[k]);
      && E.EntryAt(tree, order, k) ==
         L.Entry(Text(name), node.meta, if AsLink(node, links) then L.HardlinkEntry(Text(links[node.inode]))
             else E.PayloadKind(node.kind))
      && LinksAre(tree, order, k + 1, if AsLink(node, links) then links else links[node.inode := name])
      && SizesOf(tree, order, k + 1, more)
      && Total(more) == Total(sizes) + if AddsData(node, links) then |node.kind.data| else 0
  {
    var node := tree[order[k]];
    LinkedBefore(tree, order, k, links, sizes);
    LinksExtend(tree, order, k, links);
    if AddsData(node, links) {
      more := sizes[node.inode := |node.kind.data|];
      SizesExtend(tree, order, k, sizes);
      TotalAdd(sizes, node.inode, |node.kind.data|);
    } else {
      more := sizes;
      SizesKept(tree, order, k, sizes);
    }
  }

  datatype Output = Output(archive: seq<L.Entry>, dataBytes: nat, entries: nat)

  class Filesystem {
    var nodes: Tree
    var next: nat

    ghost function State(): L.State
      reads this
    {
      L.State(nodes, next)
    }

    constructor ()
      ensures State() == L.EmptyImage() && L.Valid(State())
    {
      nodes := map[[] := DefaultDirectory(0)];
      next := 1;
      new;
      L.EmptyImageValid();
    }

    method Resolve(path: Path, follow: bool) returns (r: Result<Path, Error>)
      ensures r == Nodes.Resolve(nodes, path, follow)
    {
      var pending := Split(Join(path));
      var resolved: Path := [];
      var links: nat := 0;
      while pending != []
        invariant links <= MAX_SYMLINKS
        invariant Walk(nodes, resolved, pending, links, follow) == Nodes.Resolve(nodes, path, follow)
        decreases MAX_SYMLINKS - links, |pending|
      {
        var name := pending[0];
        pending := pending[1..];
        if name == "" || name == "." {
          continue;
        }
        if name == ".." {
          resolved := Parent(resolved);
          continue;
        }
        resolved := resolved + [name];
        if resolved in nodes {
          var kind := nodes[resolved].kind;
          if kind.Symlink? && (pending != [] || follow) {
            links := links + 1;
            if links > MAX_SYMLINKS {
              return Err(TooManyLinks);
            }
            resolved := resolved[..|resolved| - 1];
            if kind.link.Raw? {
              return Err(LinkNotText);
            }
            if IsAbsolute(kind.link.text) {
              resolved := [];
            }
            pending := Split(kind.link.text) + pending;
          } else if !kind.Directory? && pending != [] {
            return Err(TraversesNonDirectory);
          }
        }
      }
      r := Ok(resolved);
    }

    /** Drops a subtree by the text of its path, with or without the path itself. */
    method Remove(path: Path, self: bool)
      requires IsPath(path) && E.KeysArePaths(nodes)
      modifies this`nodes
      ensures nodes == L.Remove(old(nodes), L.Removal(path, self))
    {
      var prefix := if path == [] then "" else Join(path) + "/";
      var kept := map q | q in nodes
          && !((self && q == path) || (q != path && StartsWith(Join(q), prefix))) :: nodes[q];
      forall q | q in nodes
        ensures L.Covers(L.Removal(path, self), q) <==>
            (self && q == path) || (q != path && StartsWith(Join(q), prefix))
      {
        if path != [] {
          DescendantIsTextPrefix(path, q);
        }
      }
      nodes := kept;
    }

    method Parents(path: Path) returns (r: Result<(), Error>)
      modifies this
      ensures
        var made := L.Parents(old(State()), path, 1);
        if made.Ok? then r == Ok(()) && State() == made.value else r == Err(made.error)
    {
      var k := 1;
      while k < |path|
        invariant k >= 1
        invariant L.Parents(State(), path, k) == L.Parents(old(State()), path, 1)
      {
        var parent := path[..k];
        if parent in nodes {
          if !nodes[parent].kind.Directory? {
            return Err(ParentNotDirectory);
          }
        } else {
          nodes, next := nodes[parent := DefaultDirectory(next)], next + 1;
        }
        k := k + 1;
      }
      r := Ok(());
    }

    /** Applies one layer; on success the tree is as specified and still valid. */
    method Apply(entries: seq<L.Entry>) returns (r: Result<(), Error>)
      requires L.Valid(State())
      modifies this
      ensures
        var applied := I.Apply(old(State()), entries);
        if applied.Ok? then r == Ok(()) && State() == applied.value else r == Err(applied.error)
      ensures r.Ok? ==> L.Valid(State())
    {
      I.ApplyKeepsValid(State(), entries);
      var read := ReadLayer(entries);
      if read.Err? {
        return Err(read.error);
      }
      var items := read.value;
      var found := FindRemovals(items);
      if found.Err? {
        return Err(found.error);
      }
      I.ClearedKeepsWellFormed(State(), entries);
      I.InsertedKeepsWellFormed(State(), entries);
      L.ReadItemsOk(entries);
      RemovalPaths(items, found.value);
      RemoveEach(found.value);
      var inserted := InsertItems(items);
      if inserted.Err? {
        return inserted;
      }
      r := SettleHardlinks();
    }

    method ReadLayer(entries: seq<L.Entry>) returns (r: Result<seq<L.Item>, Error>)
      ensures r == L.Read(entries, 0, {})
    {
      var items: seq<L.Item> := [];
      var seen: set<Path> := {};
      assert entries[0..] == entries && forall rest: seq<L.Item> :: items + rest == rest;
      for i := 0 to |entries|
        invariant |items| == i
        invariant
          var rest := L.Read(entries[i..], i, seen);
          L.Read(entries, 0, {}) == if rest.Ok? then Ok(items + rest.value) else Err(rest.error)
      {
        assert entries[i..][0] == entries[i] && entries[i..][1..] == entries[i + 1..];
        if |items| >= MAX_ENTRIES {
          return Err(TooManyEntries);
        }
        var item := ReadEntry(entries[i], seen);
        if item.Err? {
          return Err(item.error);
        }
        ghost var before := items;
        items, seen := items + [item.value], seen + {item.value.path};
        assert forall rest: seq<L.Item> :: before + ([item.value] + rest) == items + rest;
      }
      assert entries[|entries|..] == [];
      assert items + [] == items;
      r := Ok(items);
    }

    method ReadEntry(entry: L.Entry, seen: set<Path>) returns (r: Result<L.Item, Error>)
      ensures r == L.ReadEntry(entry, seen)
    {
      var path := L.NamedPath(entry.name);
      if path.Err? {
        return Err(path.error);
      }
      if path.value in seen {
        return Err(RepeatedPath);
      }
      var attributes := ReadAttributes(entry.meta.attributes);
      if attributes.Err? {
        return Err(attributes.error);
      }
      var kind := L.ReadKind(entry.kind);
      if kind.Err? {
        return Err(kind.error);
      }
      r := Ok(L.Item(path.value, entry.meta.(attributes := attributes.value), kind.value));
    }

    method ReadAttributes(records: seq<Attribute>) returns (r: Result<seq<Attribute>, Error>)
      ensures r == L.ReadAttributes(records)
    {
      var attributes: seq<Attribute> := [];
      assert records[0..] == records && forall rest: seq<Attribute> :: attributes + rest == rest;
      for i := 0 to |records|
        invariant
          var rest := L.ReadAttributes(records[i..]);
          L.ReadAttributes(records) == if rest.Ok? then Ok(attributes + rest.value) else Err(rest.error)
      {
        assert records[i..][0] == records[i] && records[i..][1..] == records[i + 1..];
        if L.LIBARCHIVE <= records[i].0 {
          return Err(UnsupportedAttribute);
        }
        if L.SCHILY <= records[i].0 {
          ghost var before := attributes;
          attributes := attributes + [records[i]];
          assert forall rest: seq<Attribute> :: before + ([records[i]] + rest) == attributes + rest;
        }
      }
      assert records[|records|..] == [];
      assert attributes + [] == attributes;
      r := Ok(attributes);
    }

    method FindRemovals(items: seq<L.Item>) returns (r: Result<seq<L.Removal>, Error>)
      ensures r == L.Whiteouts(nodes, items)
    {
      var removals: seq<L.Removal> := [];
      assert items[0..] == items && forall rest: seq<L.Removal> :: removals + rest == rest;
      for i := 0 to |items|
        invariant
          var rest := L.Whiteouts(nodes, items[i..]);
          L.Whiteouts(nodes, items) == if rest.Ok? then Ok(removals + rest.value) else Err(rest.error)
      {
        assert items[i..][0] == items[i] && items[i..][1..] == items[i + 1..];
        if L.IsWhiteout(items[i].path) {
          var removal := L.WhiteoutRemoval(nodes, items[i]);
          if removal.Err? {
            return Err(removal.error);
          }
          ghost var before := removals;
          removals := removals + [removal.value];
          assert forall rest: seq<L.Removal> :: before + ([removal.value] + rest) == removals + rest;
        }
      }
      assert items[|items|..] == [];
      assert removals + [] == removals;
      r := Ok(removals);
    }

    lemma RemovalPaths(items: seq<L.Item>, removals: seq<L.Removal>)
      requires L.Rooted(nodes) && L.Whiteouts(nodes, items) == Ok(removals)
      requires forall i :: 0 <= i < |items| ==> L.ItemOk(items[i])
      ensures forall i :: 0 <= i < |removals| ==> IsPath(removals[i].path)
    {
      I.WhiteoutsExactly(nodes, items);
      forall i | 0 <= i < |removals| ensures IsPath(removals[i].path) {
        assert removals[i] in removals;
        var k :| 0 <= k < |items| && L.IsWhiteout(items[k].path)
            && L.WhiteoutRemoval(nodes, items[k]) == Ok(removals[i]);
        RemovalPath(items[k]);
      }
    }

    lemma RemovalPath(item: L.Item)
      requires L.Rooted(nodes) && L.ItemOk(item) && L.IsWhiteout(item.path) && L.WhiteoutRemoval(nodes, item).Ok?
      ensures IsPath(L.WhiteoutRemoval(nodes, item).value.path)
    {
      var parent := Parent(item.path);
      assert IsPath(parent);
      ResolveSound(nodes, parent, true);
      assert IsName(item.path[|item.path| - 1]);
    }

    method RemoveEach(removals: seq<L.Removal>)
      requires E.KeysArePaths(nodes) && forall i :: 0 <= i < |removals| ==> IsPath(removals[i].path)
      modifies this`nodes
      ensures nodes == L.RemoveAll(old(nodes), removals)
    {
      for i := 0 to |removals|
        invariant E.KeysArePaths(nodes)
        invariant L.RemoveAll(nodes, removals[i..]) == L.RemoveAll(old(nodes), removals)
      {
        assert removals[i..][0] == removals[i] && removals[i..][1..] == removals[i + 1..];
        Remove(removals[i].path, removals[i].self);
      }
      assert removals[|removals|..] == [];
    }

    method InsertItems(items: seq<L.Item>) returns (r: Result<(), Error>)
      requires L.WellFormed(State()) && |nodes| <= MAX_ENTRIES
      requires forall i :: 0 <= i < |items| ==> L.ItemOk(items[i])
      modifies this
      ensures
        var inserted := L.InsertAll(old(State()), items);
        if inserted.Ok? then r == Ok(()) && State() == inserted.value else r == Err(inserted.error)
    {
      for i := 0 to |items|
        invariant L.WellFormed(State()) && |nodes| <= MAX_ENTRIES
        invariant L.InsertAll(State(), items[i..]) == L.InsertAll(old(State()), items)
      {
        assert items[i..][0] == items[i] && items[i..][1..] == items[i + 1..];
        if !L.IsWhiteout(items[i].path) {
          L.InsertKeepsWellFormed(State(), items[i]);
          var inserted := Insert(items[i]);
          if inserted.Err? {
            return inserted;
          }
        }
      }
      assert items[|items|..] == [];
      r := Ok(());
    }

    /** The node an entry stands for: its own, or the one its hard link already reaches. */
    method NodeFor(item: L.Item) returns (r: Result<(Node, nat), Error>)
      ensures r == L.NewNode(State(), item)
    {
      if !item.kind.Hardlink? {
        return Ok((Node(item.meta, next, item.kind), next + 1));
      }
      var target := Resolve(item.kind.target, false);
      if target.Err? {
        return Err(target.error);
      }
      if target.value !in nodes {
        return Ok((Node(item.meta, next, Hardlink(target.value)), next + 1));
      }
      if nodes[target.value].kind.Directory? {
        return Err(HardlinkToDirectory);
      }
      r := Ok((nodes[target.value], next));
    }

    method Insert(item: L.Item) returns (r: Result<(), Error>)
      requires L.WellFormed(State()) && L.ItemOk(item)
      modifies this
      ensures
        var inserted := L.Insert(old(State()), item);
        if inserted.Ok? then r == Ok(()) && State() == inserted.value else r == Err(inserted.error)
    {
      var named := Resolve(item.path, false);
      if named.Err? {
        return Err(named.error);
      }
      ResolveSound(nodes, item.path, false);
      var name := named.value;
      if name == [] && !item.kind.Directory? {
        return Err(RootNotDirectory);
      }
      var built := NodeFor(item);
      if built.Err? {
        return Err(built.error);
      }
      var (node, after) := built.value;
      var merging := node.kind.Directory? && IsDirectory(nodes, name);
      if !merging {
        Remove(name, true);
      }
      next := after;
      var made := Parents(name);
      if made.Err? {
        return made;
      }
      nodes := nodes[name := node];
      if |nodes| > MAX_ENTRIES {
        return Err(TooManyNodes);
      }
      r := Ok(());
    }

    method SettleRound(pending: seq<(Path, Path)>) returns (r: Result<bool, Error>)
      modifies this`nodes
      ensures
        var round := H.Round(old(nodes), pending);
        if round.Ok? then r == Ok(round.value.settled) && nodes == round.value.tree else r == Err(round.error)
    {
      var settled := false;
      assert pending[0..] == pending;
      for i := 0 to |pending|
        invariant
          var rest := H.Round(nodes, pending[i..]);
          H.Round(old(nodes), pending) ==
          if rest.Ok? then Ok(H.Progress(rest.value.tree, settled || rest.value.settled)) else Err(rest.error)
      {
        assert pending[i..][0] == pending[i] && pending[i..][1..] == pending[i + 1..];
        var (name, target) := pending[i];
        if target in nodes && !nodes[target].kind.Hardlink? {
          if nodes[target].kind.Directory? {
            return Err(HardlinkToDirectory);
          }
          nodes := nodes[name := nodes[target]];
          settled := true;
        }
      }
      assert pending[|pending|..] == [];
      r := Ok(settled);
    }

    /** One turn of the loop over rounds. */
    method SettleTurn() returns (turn: H.Turn)
      requires H.PathsOk(nodes)
      modifies this`nodes
      ensures turn == H.TurnOf(old(nodes))
      ensures turn.Finished? ==> nodes == old(nodes)
      ensures turn.Onward? ==> nodes == turn.tree
    {
      if H.Placeholders(nodes) == {} {
        return H.Finished;
      }
      var settled := SettleRound(H.Pending(nodes));
      if settled.Err? {
        return H.Stuck(settled.error);
      }
      turn := if settled.value then H.Onward(nodes) else H.Stuck(UnresolvedHardlink);
    }

    method SettleHardlinks() returns (r: Result<(), Error>)
      requires H.PathsOk(nodes)
      modifies this`nodes
      ensures
        var settled := H.Rounds(old(nodes), H.HARDLINK_ROUNDS);
        if settled.Ok? then r == Ok(()) && nodes == settled.value else r == Err(settled.error)
    {
      ghost var all := H.Rounds(nodes, H.HARDLINK_ROUNDS);
      for round := 0 to H.HARDLINK_ROUNDS
        invariant H.PathsOk(nodes)
        invariant H.Rounds(nodes, H.HARDLINK_ROUNDS - round) == all
      {
        var turn := SettleTurn();
        match turn {
          case Finished => return Ok(());
          case Stuck(error) => return Err(error);
          case Onward(_) =>
        }
      }
      r := Err(UnresolvedHardlink);
    }

    /** Writes the archive; nothing can be left unsettled by then, so only an attribute's key can fail it. */
    method Finish(utf8: E.Utf8) returns (r: Result<Output, Error>)
      requires L.Valid(State())
      ensures r.Ok? <==> E.AllTextKeys(utf8, nodes)
      ensures r.Err? ==> r.error == AttributeNotText
      ensures r.Ok? ==>
                && r.value.archive == E.Emit(nodes)
                && r.value.dataBytes == Total(FileSizes(nodes))
                && r.value.entries == |nodes| == |r.value.archive|
    {
      var order := E.Order(nodes);
      E.OrderCovers(nodes);
      E.OrderSize(nodes);
      E.ArchiveExactly(utf8, nodes);
      r := Write(utf8, nodes, order);
    }
  }

  /** What one node adds to the archive, the links table and the data total. */
  method WriteNode(utf8: E.Utf8, name: string, node: Node, links: map<nat, string>)
      returns (r: Result<(L.Entry, map<nat, string>, nat), Error>)
    requires !node.kind.Hardlink?
    ensures !E.HasTextKeys(utf8, node.meta) ==> r == Err(AttributeNotText)
    ensures E.HasTextKeys(utf8, node.meta) ==>
              var kind := if AsLink(node, links) then L.HardlinkEntry(Text(links[node.inode]))
                  else E.PayloadKind(node.kind);
              r == Ok((
                L.Entry(Text(name), node.meta, kind),
                if AsLink(node, links) then links else links[node.inode := name],
                if AddsData(node, links) then |node.kind.data| else 0))
  {
    if !E.HasTextKeys(utf8, node.meta) {
      return Err(AttributeNotText);
    }
    if node.inode in links && !node.kind.Directory? {
      return Ok((L.Entry(Text(name), node.meta, L.HardlinkEntry(Text(links[node.inode]))), links, 0));
    }
    var kind;
    var size := 0;
    match node.kind {
      case Directory => kind := L.DirectoryEntry;
      case File(data) =>
        kind := L.FileEntry(data);
        size := |data|;
      case Symlink(link) => kind := L.SymlinkEntry(link);
      case Hardlink(_) => return Err(UnresolvedHardlink);
    }
    r := Ok((L.Entry(Text(name), node.meta, kind), links[node.inode := name], size));
  }

  lemma {:induction false} WrittenFails(utf8: E.Utf8, tree: Tree, order: seq<Path>, k: nat, n: nat)
    requires (forall i :: 0 <= i < |order| ==> order[i] in tree && !tree[order[i]].kind.Hardlink?) && k < n <= |order|
    requires E.Written(utf8, tree, order, k).Ok? && !E.HasTextKeys(utf8, tree[order[k]].meta)
    ensures E.Written(utf8, tree, order, n) == Err(AttributeNotText)
  {
    if k + 1 < n {
      WrittenFails(utf8, tree, order, k, n - 1);
    }
  }

  /** One pass over the ordered nodes: each shared identity in full once, and as a link after that. */
  method Write(utf8: E.Utf8, tree: Tree, order: seq<Path>) returns (r: Result<Output, Error>)
    requires E.Covering(tree, order) && E.SharingOk(tree) && L.NoPlaceholder(tree)
    ensures
      var written := E.Written(utf8, tree, order, |order|);
      if written.Ok? then r == Ok(Output(written.value, Total(FileSizes(tree)), |tree|)) else r == Err(written.error)
  {
    var archive: seq<L.Entry> := [];
    var links: map<nat, string> := map[];
    var dataBytes: nat := 0;
    ghost var sizes: map<nat, nat> := map[];
    for k := 0 to |order|
      invariant E.Written(utf8, tree, order, k) == Ok(archive)
      invariant LinksAre(tree, order, k, links)
      invariant SizesOf(tree, order, k, sizes) && dataBytes == Total(sizes)
    {
      var written := WriteNode(utf8, ArchiveName(order[k]), tree[order[k]], links);
      if written.Err? {
        WrittenFails(utf8, tree, order, k, |order|);
        return Err(written.error);
      }
      sizes := WriteTurn(tree, order, k, links, sizes);
      archive := archive + [written.value.0];
      links := written.value.1;
      dataBytes := dataBytes + written.value.2;
    }
    SizesOfAll(tree, order, sizes);
    r := Ok(Output(archive, dataBytes, |tree|));
  }

  const MAX_DECODED_BYTES: nat := 1024 * 1024 * 1024
  const MAX_LAYERS: nat := 128

  /** A SHA-256 digest in lower-case hexadecimal. */
  type Hash = s: string | IsHash(s) witness seq(64, _ => '0')

  predicate IsHash(s: string) {
    |s| == 64 && forall i :: 0 <= i < 64 ==> '0' <= s[i] <= '9' || 'a' <= s[i] <= 'f'
  }

  const SHA256 := "sha256:"

  lemma HashDigits(s: string)
    ensures IsHash(s) <==> |s| == 64 && forall i :: 0 <= i < 64 ==> IsHexDigit(s[i])
  {
    forall c: char ensures IsHexDigit(c) <==> '0' <= c <= '9' || 'a' <= c <= 'f' {
      HexDigit(c);
    }
  }

  lemma HexDigit(c: char)
    ensures IsHexDigit(c) <==> '0' <= c <= '9' || 'a' <= c <= 'f'
  {
    if '0' <= c <= '9' {
      assert "0123456789abcdef"[c as int - '0' as int] == c;
    } else if 'a' <= c <= 'f' {
      assert "0123456789abcdef"[10 + (c as int - 'a' as int)] == c;
    }
  }

  /** The hash a digest names, if it is well formed. */
  function CheckedDigest(digest: string): Option<Hash> {
    if StartsWith(digest, SHA256) && IsHash(digest[|SHA256|..]) then Some(digest[|SHA256|..]) else None
  }

  predicate IsHexDigit(c: char) {
    c in "0123456789abcdef"
  }

  /** A digest is well formed exactly if it is the algorithm's prefix and 64 lower-case hexadecimal digits. */
  lemma CheckedDigestExactly(digest: string, hash: Hash)
    ensures CheckedDigest(digest) == Some(hash) <==> digest == "sha256:" + hash
    ensures |hash| == 64 && forall i :: 0 <= i < 64 ==> IsHexDigit(hash[i])
    ensures CheckedDigest(digest).Some? <==>
            && |digest| == 7 + 64 && digest[..7] == "sha256:"
            && forall i :: 7 <= i < 7 + 64 ==> IsHexDigit(digest[i])
  {
    HashDigits(hash);
    if |digest| == 7 + 64 {
      HashDigits(digest[7..]);
      assert forall i :: 7 <= i < 7 + 64 ==> digest[i] == digest[7..][i - 7];
      assert forall i :: 0 <= i < 64 ==> digest[7..][i] == digest[i + 7];
    }
    assert (SHA256 + hash)[..|SHA256|] == SHA256 && (SHA256 + hash)[|SHA256|..] == hash;
    if CheckedDigest(digest) == Some(hash) {
      assert digest == digest[..|SHA256|] + digest[|SHA256|..];
    }
  }

  /** A layer's blob: how long it decodes to, if it is intact and decodes, and then its hash and entries. */
  datatype Layer = Layer(decoded: Option<nat>, hash: Hash, entries: seq<L.Entry>)

  datatype Manifest = Manifest(schemaVersion: nat, layers: seq<Layer>)

  datatype Rootfs = Rootfs(kind: string, diffIds: seq<string>)

  datatype FlattenError = Disagree | Undecodable | OverBudget | BadDigest | WrongDiffId | Unusable(error: Error)

  function DecodedBytes(layers: seq<Layer>): nat {
    if layers == [] then 0
    else (if layers[0].decoded.Some? then layers[0].decoded.value else 0) + DecodedBytes(layers[1..])
  }

  function Contents(layers: seq<Layer>): seq<seq<L.Entry>> {
    if layers == [] then [] else [layers[0].entries] + Contents(layers[1..])
  }

  /** The manifest and the image's configuration speak of the same layers, and of not too many. */
  predicate Agree(manifest: Manifest, rootfs: Rootfs) {
    && manifest.schemaVersion == 2
    && rootfs.kind == "layers"
    && |rootfs.diffIds| == |manifest.layers| <= MAX_LAYERS
  }

  /** The first `k` layers decode to what the configuration names. */
  ghost predicate Verified(layers: seq<Layer>, diffIds: seq<string>, k: nat) {
    forall i :: 0 <= i < k && i < |layers| && i < |diffIds| ==>
      layers[i].decoded.Some? && diffIds[i] == "sha256:" + layers[i].hash
  }

  /** One turn of the layer loop. */
  lemma LayersFrom(s: L.State, layers: seq<Layer>, i: nat)
    requires L.Valid(s) && i < |layers|
    ensures
      var applied := I.Apply(s, layers[i].entries);
      && (applied.Ok? ==> L.Valid(applied.value))
      && I.ApplyAll(s, Contents(layers[i..])) ==
         if applied.Ok? then I.ApplyAll(applied.value, Contents(layers[i + 1..])) else Err(applied.error)
    ensures DecodedBytes(layers[i..]) ==
            (if layers[i].decoded.Some? then layers[i].decoded.value else 0) + DecodedBytes(layers[i + 1..])
  {
    assert layers[i..][0] == layers[i] && layers[i..][1..] == layers[i + 1..];
    assert Contents(layers[i..])[0] == layers[i].entries && Contents(layers[i..])[1..] == Contents(layers[i + 1..]);
    I.ApplyKeepsValid(s, layers[i].entries);
  }

  /**
   The layer loop. It succeeds exactly when manifest and configuration agree, all layers decode to
   what the configuration names, stay within the byte budget together, apply one after another, and
   leave no attribute key that is not text; the result is the written form of what they leave.
   */
  method Flatten(utf8: E.Utf8, manifest: Manifest, rootfs: Rootfs) returns (r: Result<Output, FlattenError>)
    ensures L.Valid(L.EmptyImage())
    ensures
      var layers := manifest.layers;
      var applied := I.ApplyAll(L.EmptyImage(), Contents(layers));
      && (r.Ok? <==>
          && manifest.schemaVersion == 2 && rootfs.kind == "layers" && |rootfs.diffIds| == |layers| <= 128
          && Verified(layers, rootfs.diffIds, |layers|) && DecodedBytes(layers) <= 0x4000_0000
          && applied.Ok? && E.AllTextKeys(utf8, applied.value.tree))
      && (r.Ok? ==>
            && L.Valid(applied.value)
            && r.value.archive == E.Emit(applied.value.tree)
            && r.value.dataBytes == Total(FileSizes(applied.value.tree))
            && r.value.entries == |applied.value.tree| <= 100_000)
  {
    L.EmptyImageValid();
    if !Agree(manifest, rootfs) {
      return Err(Disagree);
    }
    var layers, diffIds := manifest.layers, rootfs.diffIds;
    var filesystem := new Filesystem();
    var remaining := MAX_DECODED_BYTES;
    ghost var all := I.ApplyAll(L.EmptyImage(), Contents(layers));
    assert layers[0..] == layers;
    for i := 0 to |layers|
      invariant fresh(filesystem) && L.Valid(filesystem.State())
      invariant Verified(layers, diffIds, i)
      invariant remaining + DecodedBytes(layers) == MAX_DECODED_BYTES + DecodedBytes(layers[i..]) && 0 <= remaining
      invariant I.ApplyAll(filesystem.State(), Contents(layers[i..])) == all
    {
      LayersFrom(filesystem.State(), layers, i);
      if layers[i].decoded.None? {
        return Err(Undecodable);
      }
      if layers[i].decoded.value > remaining {
        return Err(OverBudget);
      }
      remaining := remaining - layers[i].decoded.value;
      var checked := CheckedDigest(diffIds[i]);
      CheckedDigestExactly(diffIds[i], layers[i].hash);
      if checked.None? {
        return Err(BadDigest);
      }
      if checked.value != layers[i].hash {
        return Err(WrongDiffId);
      }
      var applied := filesystem.Apply(layers[i].entries);
      if applied.Err? {
        return Err(Unusable(applied.error));
      }
    }
    assert layers[|layers|..] == [];
    var finished := filesystem.Finish(utf8);
    r := if finished.Ok? then Ok(finished.value) else Err(Unusable(finished.error));
  }
}
