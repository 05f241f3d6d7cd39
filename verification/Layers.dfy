/**
 What applying one layer to the filesystem does, stage by stage: reading the entries, resolving
 the whiteouts against the filesystem as it was, removing what they cover, and inserting the rest.
 */
module Layers {
  import opened Basics
  import opened Results
  import opened Paths
  import opened Nodes

  datatype EntryKind =
    | DirectoryEntry
    | FileEntry(data: Bytes)
    | SymlinkEntry(link: TarText)
    | HardlinkEntry(link: TarText)
    | OtherEntry

  /** A tar entry with all its PAX records as attributes. An empty link text is a missing one. */
  datatype Entry = Entry(name: TarText, meta: Meta, kind: EntryKind)

  /** An entry once read; a hard link still names its target as the archive does. */
  datatype Item = Item(path: Path, meta: Meta, kind: Kind)

  /** The node map together with the next unused inode identity. */
  datatype State = State(tree: Tree, next: nat)

  const NO_LINK: TarText := Text("")

  /** The key prefixes "LIBARCHIVE.xattr." and "SCHILY.xattr.", as bytes. */
  const LIBARCHIVE: Bytes :=
    [0x4C, 0x49, 0x42, 0x41, 0x52, 0x43, 0x48, 0x49, 0x56, 0x45, 0x2E, 0x78, 0x61, 0x74, 0x74, 0x72, 0x2E]
  const SCHILY: Bytes := [0x53, 0x43, 0x48, 0x49, 0x4C, 0x59, 0x2E, 0x78, 0x61, 0x74, 0x74, 0x72, 0x2E]

  const WHITEOUT := ".wh."
  const OPAQUE := ".wh..wh..opq"

  function EmptyImage(): State {
    State(map[[] := DefaultDirectory(0)], 1)
  }

  // Reading.

  function NamedPath(name: TarText): Result<Path, Error> {
    if name.Raw? || ArchivePath(name.text).Err? then Err(BadPath) else Ok(ArchivePath(name.text).value)
  }

  /** The extended attributes among an entry's PAX records. */
  function ReadAttributes(records: seq<Attribute>): Result<seq<Attribute>, Error> {
    if records == [] then Ok([])
    else if LIBARCHIVE <= records[0].0 then Err(UnsupportedAttribute)
    else
      var rest :- ReadAttributes(records[1..]);
      Ok(if SCHILY <= records[0].0 then [records[0]] + rest else rest)
  }

  function ReadKind(kind: EntryKind): Result<Kind, Error> {
    match kind
    case DirectoryEntry => Ok(Directory)
    case FileEntry(data) => Ok(File(data))
    case SymlinkEntry(link) => if link == NO_LINK then Err(MissingLinkTarget) else Ok(Symlink(link))
    case HardlinkEntry(link) =>
      if link == NO_LINK then Err(MissingLinkTarget)
      else
        var target :- NamedPath(link);
        Ok(Hardlink(target))
    case OtherEntry => Err(UnsupportedType)
  }

  function ReadEntry(e: Entry, seen: set<Path>): Result<Item, Error> {
    var path :- NamedPath(e.name);
    if path in seen then Err(RepeatedPath)
    else
      var attributes :- ReadAttributes(e.meta.attributes);
      var kind :- ReadKind(e.kind);
      Ok(Item(path, e.meta.(attributes := attributes), kind))
  }

  function Read(entries: seq<Entry>, done: nat, seen: set<Path>): Result<seq<Item>, Error> {
    if entries == [] then Ok([])
    else if done >= MAX_ENTRIES then Err(TooManyEntries)
    else
      var item :- ReadEntry(entries[0], seen);
      var rest :- Read(entries[1..], done + 1, seen + {item.path});
      Ok([item] + rest)
  }

  // Whiteouts.

  predicate IsWhiteout(p: Path) {
    p != [] && StartsWith(p[|p| - 1], WHITEOUT)
  }

  datatype Removal = Removal(path: Path, self: bool)

  function WhiteoutRemoval(tree: Tree, item: Item): Result<Removal, Error>
    requires IsWhiteout(item.path)
  {
    var base := item.path[|item.path| - 1];
    var deleted := base[|WHITEOUT|..];
    if item.kind != File([]) || deleted == "" then Err(BadWhiteout)
    else
      var parent :- Resolve(tree, Parent(item.path), true);
      if base == OPAQUE then Ok(Removal(parent, false))
      else if deleted == "." || deleted == ".." then Err(BadWhiteout)
      else Ok(Removal(parent + [deleted], true))
  }

  function Whiteouts(tree: Tree, items: seq<Item>): Result<seq<Removal>, Error> {
    if items == [] then Ok([])
    else if !IsWhiteout(items[0].path) then Whiteouts(tree, items[1..])
    else
      var first :- WhiteoutRemoval(tree, items[0]);
      var rest :- Whiteouts(tree, items[1..]);
      Ok([first] + rest)
  }

  predicate Covers(r: Removal, p: Path) {
    (r.self && p == r.path) || r.path < p
  }

  function Remove(tree: Tree, r: Removal): Tree {
    map p | p in tree && !Covers(r, p) :: tree[p]
  }

  function RemoveAll(tree: Tree, removals: seq<Removal>): Tree
    decreases |removals|
  {
    if removals == [] then tree else RemoveAll(Remove(tree, removals[0]), removals[1..])
  }

  // Insertion.

  function Parents(s: State, p: Path, k: nat): Result<State, Error>
    decreases |p| - k
  {
    if k >= |p| then Ok(s)
    else if p[..k] in s.tree then
      if s.tree[p[..k]].kind.Directory? then Parents(s, p, k + 1) else Err(ParentNotDirectory)
    else Parents(State(s.tree[p[..k] := DefaultDirectory(s.next)], s.next + 1), p, k + 1)
  }

  /** The node an item inserts, and whether it took a fresh identity. */
  function NewNode(s: State, item: Item): Result<(Node, nat), Error> {
    if !item.kind.Hardlink? then Ok((Node(item.meta, s.next, item.kind), s.next + 1))
    else
      var target :- Resolve(s.tree, item.kind.target, false);
      if target !in s.tree then Ok((Node(item.meta, s.next, Hardlink(target)), s.next + 1))
      else if s.tree[target].kind.Directory? then Err(HardlinkToDirectory)
      else Ok((s.tree[target], s.next))
  }

  function Cleared(tree: Tree, name: Path, node: Node): Tree {
    if node.kind.Directory? && IsDirectory(tree, name) then tree else Remove(tree, Removal(name, true))
  }

  function Insert(s: State, item: Item): Result<State, Error> {
    var name :- Resolve(s.tree, item.path, false);
    if name == [] && !item.kind.Directory? then Err(RootNotDirectory)
    else
      var (node, next) :- NewNode(s, item);
      var above :- Parents(State(Cleared(s.tree, name, node), next), name, 1);
      var tree := above.tree[name := node];
      if |tree| > MAX_ENTRIES then Err(TooManyNodes) else Ok(State(tree, above.next))
  }

  function InsertAll(s: State, items: seq<Item>): Result<State, Error>
    decreases |items|
  {
    if items == [] then Ok(s)
    else if IsWhiteout(items[0].path) then InsertAll(s, items[1..])
    else
      var s' :- Insert(s, items[0]);
      InsertAll(s', items[1..])
  }

  // The invariant of the filesystem, with and without hard-link placeholders.

  ghost predicate Rooted(tree: Tree) {
    && IsDirectory(tree, [])
    && (forall p :: p in tree ==> IsPath(p))
    && (forall p {:trigger Parent(p)} :: p in tree ==> IsDirectory(tree, Parent(p)))
  }

  ghost predicate SharesSoundly(s: State) {
    && (forall p :: p in s.tree ==> s.tree[p].inode < s.next)
    && (forall p, q :: p in s.tree && q in s.tree && s.tree[p].inode == s.tree[q].inode ==>
          s.tree[p] == s.tree[q] && (s.tree[p].kind.Directory? ==> p == q))
  }

  ghost predicate KindOk(kind: Kind) {
    && (kind.Symlink? ==> kind.link != NO_LINK)
    && (kind.Hardlink? ==> IsPath(kind.target))
  }

  /** Every attribute is one that reading an entry keeps. */
  ghost predicate MetaOk(meta: Meta) {
    forall i :: 0 <= i < |meta.attributes| ==> SCHILY <= meta.attributes[i].0
  }

  ghost predicate NodeOk(node: Node) {
    KindOk(node.kind) && MetaOk(node.meta)
  }

  ghost predicate WellFormed(s: State) {
    && Rooted(s.tree)
    && SharesSoundly(s)
    && (forall p :: p in s.tree ==> NodeOk(s.tree[p]) && (IsWhiteout(p) ==> s.tree[p].kind.Directory?))
  }

  ghost predicate NoPlaceholder(tree: Tree) {
    forall p :: p in tree ==> !tree[p].kind.Hardlink?
  }

  /** What holds of every filesystem a successful run leaves. */
  ghost predicate Valid(s: State) {
    WellFormed(s) && NoPlaceholder(s.tree) && |s.tree| <= MAX_ENTRIES
  }

  ghost predicate ItemOk(item: Item) {
    IsPath(item.path) && KindOk(item.kind) && MetaOk(item.meta)
  }

  lemma EmptyImageValid()
    ensures Valid(EmptyImage())
  {
    assert EmptyImage().tree.Keys == {[]};
    assert |EmptyImage().tree| == |EmptyImage().tree.Keys|;
  }

  // Reading, characterised.

  predicate Readable(e: Entry) {
    NamedPath(e.name).Ok? && ReadAttributes(e.meta.attributes).Ok? && ReadKind(e.kind).Ok?
  }

  function ItemOf(e: Entry): Item
    requires Readable(e)
  {
    var meta := e.meta.(attributes := ReadAttributes(e.meta.attributes).value);
    Item(NamedPath(e.name).value, meta, ReadKind(e.kind).value)
  }

  /** What makes an entry readable: its name, its records, its type and what it links to. */
  lemma ReadableExactly(e: Entry)
    ensures Readable(e) <==>
            && IsRelativeText(e.name)
            && (forall i :: 0 <= i < |e.meta.attributes| ==> !(LIBARCHIVE <= e.meta.attributes[i].0))
            && !e.kind.OtherEntry?
            && (e.kind.SymlinkEntry? ==> e.kind.link != Text(""))
            && (e.kind.HardlinkEntry? ==> e.kind.link != Text("") && IsRelativeText(e.kind.link))
  {
    AttributesRead(e.meta.attributes);
    RelativeText(e.name);
    if e.kind.HardlinkEntry? {
      RelativeText(e.kind.link);
    }
  }

  /** Text that is a path from the root down: not absolute and never going up. */
  predicate IsRelativeText(t: TarText) {
    t.Text? && !StartsWith(t.text, "/") && ".." !in Split(t.text)
  }

  lemma RelativeText(t: TarText)
    ensures NamedPath(t).Ok? <==> IsRelativeText(t)
    ensures NamedPath(t).Ok? ==> NamedPath(t).value == Kept(Split(t.text))
  {
    if t.Text? {
      ArchivePathExactly(t.text);
      assert t.text != "" ==> (t.text[..1] == "/" <==> t.text[0] == '/');
    }
  }

  /** What an entry reads as: its path, its header with the attributes kept, and what it is. */
  lemma ItemExactly(e: Entry)
    requires Readable(e)
    ensures
      var item := ItemOf(e);
      && e.name.Text? && item.path == Kept(Split(e.name.text))
      && (item.meta.mode, item.meta.uid, item.meta.gid, item.meta.mtime)
         == (e.meta.mode, e.meta.uid, e.meta.gid, e.meta.mtime)
      && (e.kind.DirectoryEntry? ==> item.kind == Directory)
      && (e.kind.FileEntry? ==> item.kind == File(e.kind.data))
      && (e.kind.SymlinkEntry? ==> item.kind == Symlink(e.kind.link))
      && (e.kind.HardlinkEntry? ==> e.kind.link.Text? && item.kind == Hardlink(Kept(Split(e.kind.link.text))))
  {
    RelativeText(e.name);
    if e.kind.HardlinkEntry? {
      RelativeText(e.kind.link);
    }
  }

  lemma {:induction false} AttributesRead(records: seq<Attribute>)
    ensures
      var r := ReadAttributes(records);
      && (r.Ok? <==> forall i :: 0 <= i < |records| ==> !(LIBARCHIVE <= records[i].0))
      && (r.Err? ==> r.error == UnsupportedAttribute)
  {
    if records != [] {
      AttributesRead(records[1..]);
      assert records == [records[0]] + records[1..];
    }
  }

  lemma {:induction false} AttributeCount(records: seq<Attribute>, a: Attribute)
    requires ReadAttributes(records).Ok?
    ensures multiset(ReadAttributes(records).value)[a] == if SCHILY <= a.0 then multiset(records)[a] else 0
  {
    if records != [] {
      AttributeCount(records[1..], a);
      assert records == [records[0]] + records[1..];
    }
  }

  /** The attributes read are exactly the records of the one kind, and none may be of the other. */
  lemma AttributesExactly(records: seq<Attribute>)
    ensures
      var r := ReadAttributes(records);
      && (r.Ok? <==> forall i :: 0 <= i < |records| ==> !(LIBARCHIVE <= records[i].0))
      && (r.Err? ==> r.error == UnsupportedAttribute)
      && (r.Ok? ==> forall a :: multiset(r.value)[a] == if SCHILY <= a.0 then multiset(records)[a] else 0)
  {
    AttributesRead(records);
    if ReadAttributes(records).Ok? {
      forall a ensures multiset(ReadAttributes(records).value)[a] ==
                       if SCHILY <= a.0 then multiset(records)[a] else 0
      {
        AttributeCount(records, a);
      }
    }
  }

  /** No key begins with both prefixes, so attributes once read are read again unchanged. */
  lemma {:induction false} KeptAttributes(records: seq<Attribute>)
    requires forall i :: 0 <= i < |records| ==> SCHILY <= records[i].0
    ensures ReadAttributes(records) == Ok(records)
  {
    if records != [] {
      assert records[0].0[0] == SCHILY[0] != LIBARCHIVE[0];
      KeptAttributes(records[1..]);
      assert records == [records[0]] + records[1..];
    }
  }

  ghost predicate AllReadable(entries: seq<Entry>) {
    forall i :: 0 <= i < |entries| ==> Readable(entries[i])
  }

  ghost predicate DistinctPaths(entries: seq<Entry>)
    requires AllReadable(entries)
  {
    forall i, j :: 0 <= i < j < |entries| ==> ItemOf(entries[i]).path != ItemOf(entries[j]).path
  }

  ghost predicate Unseen(entries: seq<Entry>, seen: set<Path>)
    requires AllReadable(entries)
  {
    forall i :: 0 <= i < |entries| ==> ItemOf(entries[i]).path !in seen
  }

  /** Both conditions on paths, peeled off one entry at a time. */
  lemma DistinctCons(first: Entry, rest: seq<Entry>, seen: set<Path>)
    requires Readable(first) && AllReadable(rest) && AllReadable([first] + rest)
    ensures DistinctPaths([first] + rest) && Unseen([first] + rest, seen) <==>
            ItemOf(first).path !in seen && DistinctPaths(rest) && Unseen(rest, seen + {ItemOf(first).path})
  {
    var all, seen' := [first] + rest, seen + {ItemOf(first).path};
    assert all[0] == first && forall i :: 0 < i < |all| ==> all[i] == rest[i - 1];
    assert forall i :: 0 <= i < |rest| ==> rest[i] == all[i + 1];
    if DistinctPaths(all) && Unseen(all, seen) {
      forall i | 0 <= i < |rest| ensures ItemOf(rest[i]).path !in seen' {
        assert ItemOf(all[0]).path != ItemOf(all[i + 1]).path;
      }
    }
    if ItemOf(first).path !in seen && DistinctPaths(rest) && Unseen(rest, seen') {
      forall i, j | 0 <= i < j < |all| ensures ItemOf(all[i]).path != ItemOf(all[j]).path {
        assert ItemOf(rest[j - 1]).path !in seen';
      }
    }
  }

  /** What makes a layer read, and what it reads as. */
  ghost predicate Reads(entries: seq<Entry>, done: nat, seen: set<Path>) {
    done + |entries| <= MAX_ENTRIES && AllReadable(entries) && DistinctPaths(entries) && Unseen(entries, seen)
  }

  ghost predicate ItemsOf(items: seq<Item>, entries: seq<Entry>)
    requires AllReadable(entries)
  {
    |items| == |entries| && forall i :: 0 <= i < |items| ==> items[i] == ItemOf(entries[i])
  }

  lemma ReadsCons(first: Entry, rest: seq<Entry>, done: nat, seen: set<Path>)
    requires done < MAX_ENTRIES
    ensures Reads([first] + rest, done, seen) <==>
            Readable(first) && ItemOf(first).path !in seen && Reads(rest, done + 1, seen + {ItemOf(first).path})
  {
    var all := [first] + rest;
    assert all[0] == first && forall i :: 0 <= i < |rest| ==> rest[i] == all[i + 1];
    assert AllReadable(all) <==> Readable(first) && AllReadable(rest);
    if Readable(first) && AllReadable(rest) {
      DistinctCons(first, rest, seen);
    }
  }

  /** A layer reads exactly when it is small enough, every entry reads and no path repeats. */
  lemma {:induction false} ReadExactly(entries: seq<Entry>, done: nat, seen: set<Path>)
    requires done <= MAX_ENTRIES
    ensures Read(entries, done, seen).Ok? <==> Reads(entries, done, seen)
    ensures Read(entries, done, seen).Ok? ==> ItemsOf(Read(entries, done, seen).value, entries)
  {
    if entries != [] && done < MAX_ENTRIES {
      var e, rest := entries[0], entries[1..];
      assert entries == [e] + rest;
      ReadsCons(e, rest, done, seen);
      if Readable(e) {
        ReadExactly(rest, done + 1, seen + {ItemOf(e).path});
      }
    }
  }

  lemma ReadItemsOk(entries: seq<Entry>)
    requires Read(entries, 0, {}).Ok?
    ensures var items := Read(entries, 0, {}).value; forall i :: 0 <= i < |items| ==> ItemOk(items[i])
  {
    ReadExactly(entries, 0, {});
    var items := Read(entries, 0, {}).value;
    forall i | 0 <= i < |items| ensures ItemOk(items[i]) {
      ItemOfOk(entries[i]);
    }
  }

  lemma ItemOfOk(e: Entry)
    requires Readable(e)
    ensures ItemOk(ItemOf(e))
  {
    AttributesExactly(e.meta.attributes);
    var kept := ItemOf(e).meta.attributes;
    forall i | 0 <= i < |kept| ensures SCHILY <= kept[i].0 {
      assert kept[i] in multiset(kept);
    }
  }

  // Removal.

  ghost predicate Uncovered(removals: seq<Removal>, p: Path) {
    forall i :: 0 <= i < |removals| ==> !Covers(removals[i], p)
  }

  /** Removals commute: what is left is what none of them covers. */
  lemma {:induction false} RemoveAllExactly(tree: Tree, removals: seq<Removal>)
    ensures RemoveAll(tree, removals) == map p | p in tree && Uncovered(removals, p) :: tree[p]
    decreases |removals|
  {
    if removals == [] {
      assert forall p :: Uncovered(removals, p);
    } else {
      var r, rest := removals[0], removals[1..];
      RemoveAllExactly(Remove(tree, r), rest);
      forall p ensures Uncovered(removals, p) <==> !Covers(r, p) && Uncovered(rest, p) {
        if !Covers(r, p) && Uncovered(rest, p) {
          forall i | 0 <= i < |removals| ensures !Covers(removals[i], p) {
            if i > 0 { assert removals[i] == rest[i - 1]; }
          }
        }
        if Uncovered(removals, p) {
          assert !Covers(removals[0], p);
          forall i | 0 <= i < |rest| ensures !Covers(rest[i], p) {
            assert rest[i] == removals[i + 1];
          }
        }
      }
      var left := RemoveAll(tree, removals);
      var right := map p | p in tree && Uncovered(removals, p) :: tree[p];
      assert left.Keys == right.Keys;
    }
  }

  lemma CoversBelow(r: Removal, p: Path)
    requires p != [] && Covers(r, Parent(p))
    ensures Covers(r, p)
  {
    assert p[..|Parent(p)|] == Parent(p);
    assert p[..|r.path|] == Parent(p)[..|r.path|];
  }

  lemma RemoveKeepsRooted(tree: Tree, r: Removal)
    requires Rooted(tree) && (r.self ==> r.path != [])
    ensures Rooted(Remove(tree, r))
  {
    var left := Remove(tree, r);
    assert !Covers(r, []);
    forall p | p in left ensures IsDirectory(left, Parent(p)) {
      assert IsDirectory(tree, Parent(p));
      if p != [] && Covers(r, Parent(p)) {
        CoversBelow(r, p);
      }
    }
  }

  lemma RemoveKeepsWellFormed(s: State, r: Removal)
    requires WellFormed(s) && (r.self ==> r.path != [])
    ensures WellFormed(State(Remove(s.tree, r), s.next))
    ensures |Remove(s.tree, r)| <= |s.tree|
  {
    RemoveKeepsRooted(s.tree, r);
    SubsetSize(Remove(s.tree, r).Keys, s.tree.Keys);
  }

  lemma {:induction false} SubsetSize<T>(a: set<T>, b: set<T>)
    requires a <= b
    ensures |a| <= |b|
  {
    if a != {} {
      var x :| x in a;
      SubsetSize(a - {x}, b - {x});
    }
  }

  lemma {:induction false} RemoveAllKeepsWellFormed(s: State, removals: seq<Removal>)
    requires WellFormed(s) && forall i :: 0 <= i < |removals| ==> (removals[i].self ==> removals[i].path != [])
    ensures WellFormed(State(RemoveAll(s.tree, removals), s.next))
    ensures |RemoveAll(s.tree, removals)| <= |s.tree|
    decreases |removals|
  {
    if removals != [] {
      RemoveKeepsWellFormed(s, removals[0]);
      RemoveAllKeepsWellFormed(State(Remove(s.tree, removals[0]), s.next), removals[1..]);
    }
  }

  lemma {:induction false} WhiteoutsNeverNameTheRoot(tree: Tree, items: seq<Item>)
    requires Whiteouts(tree, items).Ok?
    ensures
      var rs := Whiteouts(tree, items).value;
      forall i :: 0 <= i < |rs| ==> (rs[i].self ==> rs[i].path != [])
  {
    if items != [] {
      WhiteoutsNeverNameTheRoot(tree, items[1..]);
    }
  }

  // Implicit parents.

  /** `made` is `tree` with nothing changed and only directories above `p` added, open to all as root's. */
  ghost predicate AddsAbove(tree: Tree, made: Tree, p: Path) {
    && (forall q :: q in tree ==> q in made && made[q] == tree[q])
    && (forall q :: q in made && q !in tree ==>
          q < p && made[q].kind.Directory? && made[q].meta == Meta(7 * 64 + 5 * 8 + 5, 0, 0, 0, []))
  }

  /** The state after the loop's turn `k`: a missing parent has been made. */
  function ParentMade(s: State, d: Path): State {
    if d in s.tree then s else State(s.tree[d := DefaultDirectory(s.next)], s.next + 1)
  }

  lemma ParentTurn(s: State, p: Path, k: nat)
    requires WellFormed(s) && IsPath(p) && ClearAbove(s.tree, p)
    requires 1 <= k < |p| && IsDirectory(s.tree, p[..k - 1])
    ensures
      var s' := ParentMade(s, p[..k]);
      && WellFormed(s') && ClearAbove(s'.tree, p) && IsDirectory(s'.tree, p[..k])
      && Parents(s, p, k) == Parents(s', p, k + 1)
  {
    var d := p[..k];
    if d !in s.tree {
      assert Parent(d) == p[..k - 1];
      AddDirectory(s, d);
    }
  }

  /** Above a resolved name the error branch is dead: missing parents are made and nothing else moves. */
  lemma {:induction false} ParentsNeverFail(s: State, p: Path, k: nat) returns (made: State)
    requires WellFormed(s) && IsPath(p) && ClearAbove(s.tree, p)
    requires 1 <= k && (k <= |p| || p == [])
    requires p != [] ==> IsDirectory(s.tree, p[..k - 1])
    ensures Parents(s, p, k) == Ok(made)
    ensures WellFormed(made) && AddsAbove(s.tree, made.tree, p) && IsDirectory(made.tree, Parent(p))
    decreases |p| - k
  {
    if k >= |p| {
      assert p == [] || Parent(p) == p[..k - 1];
      made := s;
    } else {
      var d := p[..k];
      ParentTurn(s, p, k);
      var s' := ParentMade(s, d);
      assert p[..k + 1 - 1] == d;
      made := ParentsNeverFail(s', p, k + 1);
      if d !in s.tree {
        AddsAboveTransitive(s.tree, s'.tree, made.tree, p, d);
      }
    }
  }

  lemma AddsAboveTransitive(tree: Tree, more: Tree, made: Tree, p: Path, d: Path)
    requires d < p && d !in tree && d in more && more == tree[d := more[d]]
    requires more[d].kind.Directory? && more[d].meta == Meta(7 * 64 + 5 * 8 + 5, 0, 0, 0, [])
    requires AddsAbove(more, made, p)
    ensures AddsAbove(tree, made, p)
  {
    assert made[d] == more[d];
  }

  lemma AddDirectory(s: State, d: Path)
    requires WellFormed(s) && IsPath(d) && d != [] && d !in s.tree && IsDirectory(s.tree, Parent(d))
    ensures WellFormed(State(s.tree[d := DefaultDirectory(s.next)], s.next + 1))
  {
  }

  lemma {:induction false} AncestorIsDirectory(tree: Tree, p: Path, d: Path)
    requires Rooted(tree) && p in tree && d < p
    ensures IsDirectory(tree, d)
    decreases |p|
  {
    assert IsDirectory(tree, Parent(p));
    if d != Parent(p) {
      assert d < Parent(p);
      AncestorIsDirectory(tree, Parent(p), d);
    }
  }

  // Insertion keeps the invariant.

  lemma NewNodeOk(s: State, item: Item)
    requires WellFormed(s) && ItemOk(item) && NewNode(s, item).Ok?
    ensures
      var (node, next) := NewNode(s, item).value;
      && s.next <= next
      && node.inode < next
      && NodeOk(node)
      && (node.kind.Directory? <==> item.kind.Directory?)
      && (node.kind.Directory? ==> node.inode == s.next)
      && (forall p :: p in s.tree && s.tree[p].inode == node.inode ==> s.tree[p] == node)
  {
    if item.kind.Hardlink? {
      ResolveSound(s.tree, item.kind.target, false);
    }
  }

  lemma ClearedOk(s: State, name: Path, node: Node, next: nat)
    requires WellFormed(s) && IsPath(name) && ClearAbove(s.tree, name) && s.next <= next
    requires name == [] ==> node.kind.Directory?
    ensures
      var tree := Cleared(s.tree, name, node);
      && WellFormed(State(tree, next))
      && ClearAbove(tree, name)
      && (forall q :: q in tree ==> q in s.tree && tree[q] == s.tree[q])
      && (name in tree ==> node.kind.Directory? && tree[name].kind.Directory?)
      && (!node.kind.Directory? ==> forall q :: q in tree ==> !(name < q))
  {
    if !(node.kind.Directory? && IsDirectory(s.tree, name)) {
      RemoveKeepsWellFormed(s, Removal(name, true));
    }
  }

  lemma ParentIsAbove(p: Path)
    requires p != []
    ensures Parent(p) < p
  {
  }

  lemma ParentAfterPut(tree: Tree, name: Path, node: Node, p: Path)
    requires Rooted(tree) && IsDirectory(tree, Parent(name)) && (p in tree || p == name)
    requires name == [] ==> node.kind.Directory?
    requires !node.kind.Directory? ==> forall q :: q in tree ==> !(name < q)
    ensures IsDirectory(tree[name := node], Parent(p))
  {
    assert IsDirectory(tree, Parent(p));
    if p != [] {
      ParentIsAbove(p);
    }
  }

  lemma PutKeepsRooted(tree: Tree, name: Path, node: Node)
    requires Rooted(tree) && IsPath(name) && IsDirectory(tree, Parent(name))
    requires name == [] ==> node.kind.Directory?
    requires !node.kind.Directory? ==> forall q :: q in tree ==> !(name < q)
    ensures Rooted(tree[name := node])
  {
    var put := tree[name := node];
    assert IsDirectory(put, []) && forall p :: p in put ==> IsPath(p);
    if p :| p in put && !IsDirectory(put, Parent(p)) {
      ParentAfterPut(tree, name, node, p);
      assert false;
    }
  }

  lemma PutNode(s: State, name: Path, node: Node)
    requires WellFormed(s) && IsPath(name) && IsDirectory(s.tree, Parent(name))
    requires node.inode < s.next && NodeOk(node)
    requires IsWhiteout(name) ==> node.kind.Directory?
    requires name == [] ==> node.kind.Directory?
    requires forall q :: q in s.tree && s.tree[q].inode == node.inode ==> s.tree[q] == node
    requires node.kind.Directory? ==> forall q :: q in s.tree ==> s.tree[q].inode != node.inode
    requires !node.kind.Directory? ==> forall q :: q in s.tree ==> !(name < q)
    ensures WellFormed(State(s.tree[name := node], s.next))
  {
    PutKeepsRooted(s.tree, name, node);
  }

  lemma PlaceKeepsWellFormed(s: State, name: Path, node: Node, next: nat)
    requires WellFormed(s) && IsPath(name) && ClearAbove(s.tree, name) && !IsWhiteout(name)
    requires s.next <= next && node.inode < next && NodeOk(node)
    requires name == [] ==> node.kind.Directory?
    requires node.kind.Directory? ==> node.inode == s.next
    requires forall p :: p in s.tree && s.tree[p].inode == node.inode ==> s.tree[p] == node
    ensures
      var above := Parents(State(Cleared(s.tree, name, node), next), name, 1);
      above.Ok? && WellFormed(State(above.value.tree[name := node], above.value.next))
  {
    ClearedOk(s, name, node, next);
    var cleared := State(Cleared(s.tree, name, node), next);
    assert name != [] ==> name[..0] == [];
    var above := ParentsNeverFail(cleared, name, 1);
    NewInodeApart(cleared, above, name, node, s.next, next);
    PutNode(above, name, node);
  }

  lemma PlacedNameIsNoWhiteout(tree: Tree, p: Path)
    requires IsPath(p) && !IsWhiteout(p) && Resolve(tree, p, false).Ok?
    ensures !IsWhiteout(Resolve(tree, p, false).value)
  {
    if p != [] {
      ResolveKeepsLastName(tree, p);
    } else {
      ResolveFixed(tree, []);
    }
  }

  lemma InsertKeepsWellFormed(s: State, item: Item)
    requires WellFormed(s) && ItemOk(item) && !IsWhiteout(item.path)
    ensures
      var r := Insert(s, item);
      && (r.Ok? ==> WellFormed(r.value) && |r.value.tree| <= MAX_ENTRIES)
      && r != Err(ParentNotDirectory)
  {
    WalkNeverBlamesParents(s.tree, item);
    var named := Resolve(s.tree, item.path, false);
    if named.Ok? && !(named.value == [] && !item.kind.Directory?) && NewNode(s, item).Ok? {
      var (node, next) := NewNode(s, item).value;
      ResolveSound(s.tree, item.path, false);
      NewNodeOk(s, item);
      PlacedNameIsNoWhiteout(s.tree, item.path);
      PlaceKeepsWellFormed(s, named.value, node, next);
    }
  }

  /** Making parents takes identities past the ones in use, so none of them is the new node's. */
  lemma NewInodeApart(cleared: State, above: State, name: Path, node: Node, first: nat, next: nat)
    requires IsPath(name) && ClearAbove(cleared.tree, name)
    requires WellFormed(cleared) && cleared.next == next && node.inode < next && first <= next
    requires Parents(cleared, name, 1) == Ok(above)
    requires forall q :: q in cleared.tree && cleared.tree[q].inode == node.inode ==> cleared.tree[q] == node
    requires node.kind.Directory? ==> node.inode == first && forall q :: q in cleared.tree ==>
        cleared.tree[q].inode < first
    ensures forall q :: q in above.tree && above.tree[q].inode == node.inode ==>
        q in cleared.tree && above.tree[q] == node
    ensures node.kind.Directory? ==> forall q :: q in above.tree ==> above.tree[q].inode != node.inode
    ensures node.inode < above.next
  {
    ParentsTakeFreshInodes(cleared, name, 1);
  }

  lemma {:induction false} ParentsTakeFreshInodes(s: State, p: Path, k: nat)
    requires Parents(s, p, k).Ok?
    ensures
      var r := Parents(s, p, k).value;
      && s.next <= r.next
      && (forall q :: q in r.tree ==>
          (q in s.tree && r.tree[q] == s.tree[q]) || (q !in s.tree && s.next <= r.tree[q].inode))
    decreases |p| - k
  {
    if k < |p| {
      if p[..k] in s.tree {
        ParentsTakeFreshInodes(s, p, k + 1);
      } else {
        ParentsTakeFreshInodes(State(s.tree[p[..k] := DefaultDirectory(s.next)], s.next + 1), p, k + 1);
      }
    }
  }

  lemma {:induction false} WalkErrors(tree: Tree, resolved: Path, pending: seq<string>, links: nat, follow: bool)
    requires links <= MAX_SYMLINKS
    ensures
      var r := Walk(tree, resolved, pending, links, follow);
      r.Ok? || r.error == TooManyLinks || r.error == LinkNotText || r.error == TraversesNonDirectory
    decreases MAX_SYMLINKS - links, |pending|
  {
    if pending != [] {
      var name, rest := pending[0], pending[1..];
      WalkErrors(tree, resolved, rest, links, follow);
      WalkErrors(tree, Parent(resolved), rest, links, follow);
      var here := resolved + [name];
      WalkErrors(tree, here, rest, links, follow);
      if links < MAX_SYMLINKS && here in tree && tree[here].kind.Symlink? && tree[here].kind.link.Text? {
        var text := tree[here].kind.link.text;
        WalkErrors(tree, if IsAbsolute(text) then [] else resolved, Split(text) + rest, links + 1, follow);
      }
    }
  }

  lemma WalkNeverBlamesParents(tree: Tree, item: Item)
    ensures Resolve(tree, item.path, false) != Err(ParentNotDirectory)
    ensures item.kind.Hardlink? ==> Resolve(tree, item.kind.target, false) != Err(ParentNotDirectory)
  {
    WalkErrors(tree, [], Split(Join(item.path)), 0, false);
    if item.kind.Hardlink? {
      WalkErrors(tree, [], Split(Join(item.kind.target)), 0, false);
    }
  }

  lemma {:induction false} InsertAllKeepsWellFormed(s: State, items: seq<Item>)
    requires WellFormed(s) && |s.tree| <= MAX_ENTRIES
    requires forall i :: 0 <= i < |items| ==> ItemOk(items[i])
    ensures
      var r := InsertAll(s, items);
      && (r.Ok? ==> WellFormed(r.value) && |r.value.tree| <= MAX_ENTRIES)
      && r != Err(ParentNotDirectory)
    decreases |items|
  {
    if items != [] {
      if IsWhiteout(items[0].path) {
        InsertAllKeepsWellFormed(s, items[1..]);
      } else {
        InsertKeepsWellFormed(s, items[0]);
        if Insert(s, items[0]).Ok? {
          InsertAllKeepsWellFormed(Insert(s, items[0]).value, items[1..]);
        }
      }
    }
  }
}
