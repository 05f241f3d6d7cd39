/** Applying layers one after another: the tree invariant, and the independence of whiteout order. */
module Image {
  import opened Basics
  import opened Results
  import opened Paths
  import opened Nodes
  import opened Layers
  import opened HardLinks

  function Apply(s: State, entries: seq<Entry>): Result<State, Error>
    requires Valid(s)
  {
    var items :- Read(entries, 0, {});
    var removals :- Whiteouts(s.tree, items);
    ClearedKeepsWellFormed(s, entries);
    var inserted :- InsertAll(State(RemoveAll(s.tree, removals), s.next), items);
    InsertedKeepsWellFormed(s, entries);
    var tree :- Rounds(inserted.tree, HARDLINK_ROUNDS);
    Ok(State(tree, inserted.next))
  }

  function ApplyAll(s: State, layers: seq<seq<Entry>>): Result<State, Error>
    requires Valid(s)
    decreases |layers|
  {
    if layers == [] then Ok(s)
    else
      var s' :- Apply(s, layers[0]);
      ApplyKeepsValid(s, layers[0]);
      ApplyAll(s', layers[1..])
  }

  lemma ClearedKeepsWellFormed(s: State, entries: seq<Entry>)
    requires Valid(s) && Read(entries, 0, {}).Ok? && Whiteouts(s.tree, Read(entries, 0, {}).value).Ok?
    ensures
      var tree := RemoveAll(s.tree, Whiteouts(s.tree, Read(entries, 0, {}).value).value);
      WellFormed(State(tree, s.next)) && |tree| <= MAX_ENTRIES
  {
    var items := Read(entries, 0, {}).value;
    WhiteoutsNeverNameTheRoot(s.tree, items);
    RemoveAllKeepsWellFormed(s, Whiteouts(s.tree, items).value);
  }

  lemma InsertedKeepsWellFormed(s: State, entries: seq<Entry>)
    requires Valid(s) && Read(entries, 0, {}).Ok? && Whiteouts(s.tree, Read(entries, 0, {}).value).Ok?
    ensures
      var items := Read(entries, 0, {}).value;
      var r := InsertAll(State(RemoveAll(s.tree, Whiteouts(s.tree, items).value), s.next), items);
      && (r.Ok? ==> WellFormed(r.value) && PathsOk(r.value.tree) && |r.value.tree| <= MAX_ENTRIES)
      && r != Err(ParentNotDirectory)
  {
    var items := Read(entries, 0, {}).value;
    ClearedKeepsWellFormed(s, entries);
    ReadItemsOk(entries);
    InsertAllKeepsWellFormed(State(RemoveAll(s.tree, Whiteouts(s.tree, items).value), s.next), items);
  }

  ghost predicate TakenFrom(tree: Tree, p: Path, node: Node, q: Path) {
    q in tree && node == tree[q] && !node.kind.Hardlink? && (node.kind.Directory? ==> p == q)
  }

  /** After the rounds every node is one of the nodes before them, a directory at its own path. */
  lemma AliasedTakesNodes(tree: Tree, after: Tree, p: Path) returns (q: Path)
    requires Aliased(tree, after) && p in tree
    ensures p in after && TakenFrom(tree, p, after[p], q)
  {
    if p in Placeholders(tree) {
      assert IsEnding(tree, p, after[p]);
      var e :| Ends(tree, p, e) && e.at in tree && after[p] == tree[e.at];
      q := e.at;
    } else {
      q := p;
    }
  }

  lemma AliasedKeepsRooted(tree: Tree, after: Tree)
    requires Rooted(tree) && Aliased(tree, after)
    ensures Rooted(after)
  {
    forall p | p in after ensures IsDirectory(after, Parent(p)) {
      assert IsDirectory(tree, Parent(p));
    }
  }

  lemma AliasedKeepsSharing(s: State, after: Tree)
    requires SharesSoundly(s) && Aliased(s.tree, after)
    ensures SharesSoundly(State(after, s.next))
  {
    forall p | p in after ensures after[p].inode < s.next {
      var q := AliasedTakesNodes(s.tree, after, p);
    }
    forall p, q | p in after && q in after && after[p].inode == after[q].inode
      ensures after[p] == after[q] && (after[p].kind.Directory? ==> p == q)
    {
      var p' := AliasedTakesNodes(s.tree, after, p);
      var q' := AliasedTakesNodes(s.tree, after, q);
    }
  }

  lemma AliasedKeepsWellFormed(s: State, after: Tree)
    requires WellFormed(s) && Aliased(s.tree, after)
    ensures WellFormed(State(after, s.next)) && NoPlaceholder(after)
  {
    AliasedKeepsRooted(s.tree, after);
    AliasedKeepsSharing(s, after);
    forall p | p in after
      ensures NodeOk(after[p]) && (IsWhiteout(p) ==> after[p].kind.Directory?) && !after[p].kind.Hardlink?
    {
      var q := AliasedTakesNodes(s.tree, after, p);
    }
  }

  /** Every successful layer leaves a valid tree, and no layer can blame an entry's parent. */
  lemma ApplyKeepsValid(s: State, entries: seq<Entry>)
    requires Valid(s)
    ensures Apply(s, entries).Ok? ==> Valid(Apply(s, entries).value)
    ensures Apply(s, entries) != Err(ParentNotDirectory)
  {
    var items := Read(entries, 0, {});
    if items.Ok? && Whiteouts(s.tree, items.value).Ok? {
      InsertedKeepsWellFormed(s, entries);
      var inserted := InsertAll(State(RemoveAll(s.tree, Whiteouts(s.tree, items.value).value), s.next), items.value);
      if inserted.Ok? {
        RoundsExactly(inserted.value.tree, HARDLINK_ROUNDS);
        RoundsErrors(inserted.value.tree, HARDLINK_ROUNDS);
        if Rounds(inserted.value.tree, HARDLINK_ROUNDS).Ok? {
          var after := Rounds(inserted.value.tree, HARDLINK_ROUNDS).value;
          AliasedKeepsWellFormed(inserted.value, after);
          assert |after| == |after.Keys| == |inserted.value.tree.Keys|;
        }
      }
    }
    ReadErrors(entries, 0, {});
    if items.Ok? {
      WhiteoutErrors(s.tree, items.value);
    }
  }

  lemma EntryErrors(e: Entry, seen: set<Path>)
    ensures ReadEntry(e, seen) != Err(ParentNotDirectory)
  {
    AttributesExactly(e.meta.attributes);
  }

  lemma {:induction false} ReadErrors(entries: seq<Entry>, done: nat, seen: set<Path>)
    ensures Read(entries, done, seen) != Err(ParentNotDirectory)
  {
    if entries != [] {
      EntryErrors(entries[0], seen);
    }
    if entries != [] && done < MAX_ENTRIES && ReadEntry(entries[0], seen).Ok? {
      ReadErrors(entries[1..], done + 1, seen + {ReadEntry(entries[0], seen).value.path});
    }
  }

  lemma {:induction false} WhiteoutErrors(tree: Tree, items: seq<Item>)
    ensures Whiteouts(tree, items) != Err(ParentNotDirectory)
  {
    if items != [] {
      WhiteoutErrors(tree, items[1..]);
      WalkErrors(tree, [], Split(Join(Parent(items[0].path))), 0, true);
    }
  }

  lemma {:induction false} RoundErrors(tree: Tree, pending: seq<(Path, Path)>)
    ensures Round(tree, pending) != Err(ParentNotDirectory)
    decreases |pending|
  {
    if pending != [] && SettleOne(tree, pending[0]).Ok? {
      RoundErrors(SettleOne(tree, pending[0]).value.tree, pending[1..]);
    }
  }

  lemma TurnErrors(tree: Tree)
    requires PathsOk(tree)
    ensures TurnOf(tree) != Stuck(ParentNotDirectory)
  {
    RoundErrors(tree, Pending(tree));
  }

  lemma {:induction false} RoundsErrors(tree: Tree, left: nat)
    requires PathsOk(tree)
    ensures Rounds(tree, left) != Err(ParentNotDirectory)
    decreases left
  {
    var turn := TurnOf(tree);
    TurnErrors(tree);
    if left > 0 && turn.Onward? {
      RoundsErrors(turn.tree, left - 1);
    }
  }

  /** Safety over whole runs: any sequence of layers that is accepted leaves a valid tree. */
  lemma {:induction false} ApplyAllKeepsValid(s: State, layers: seq<seq<Entry>>)
    requires Valid(s)
    ensures ApplyAll(s, layers).Ok? ==> Valid(ApplyAll(s, layers).value)
    ensures ApplyAll(s, layers) != Err(ParentNotDirectory)
    decreases |layers|
  {
    if layers != [] {
      ApplyKeepsValid(s, layers[0]);
      if Apply(s, layers[0]).Ok? {
        ApplyAllKeepsValid(Apply(s, layers[0]).value, layers[1..]);
      }
    }
  }

  /** Layers are applied in their order, each to what the ones before it left. */
  lemma {:induction false} LayersInOrder(s: State, layers: seq<seq<Entry>>, last: seq<Entry>)
    requires Valid(s)
    ensures
      var before := ApplyAll(s, layers);
      && (before.Ok? ==> Valid(before.value))
      && ApplyAll(s, layers + [last]) == if before.Ok? then Apply(before.value, last) else before
    decreases |layers|
  {
    ApplyAllKeepsValid(s, layers);
    if layers == [] {
      assert layers + [last] == [last] && [last][1..] == [];
      ApplyKeepsValid(s, last);
    } else {
      assert (layers + [last])[0] == layers[0] && (layers + [last])[1..] == layers[1..] + [last];
      ApplyKeepsValid(s, layers[0]);
      if Apply(s, layers[0]).Ok? {
        LayersInOrder(Apply(s, layers[0]).value, layers[1..], last);
      }
    }
  }

  // Whiteouts act on the preceding filesystem, wherever they stand in the layer.

  predicate IsWhiteoutEntry(e: Entry) {
    NamedPath(e.name).Ok? && IsWhiteout(NamedPath(e.name).value)
  }

  function Others(entries: seq<Entry>): seq<Entry> {
    if entries == [] then []
    else (if IsWhiteoutEntry(entries[0]) then [] else [entries[0]]) + Others(entries[1..])
  }

  /** The same entries, with the ones that are not whiteouts in the same relative order. */
  ghost predicate Reordered(a: seq<Entry>, b: seq<Entry>) {
    multiset(a) == multiset(b) && Others(a) == Others(b)
  }

  lemma TwiceMeansTwoPlaces<T>(s: seq<T>, x: T)
    requires multiset(s)[x] >= 2
    ensures exists i, j :: 0 <= i < j < |s| && s[i] == x && s[j] == x
  {
    assert x in multiset(s);
    var i :| 0 <= i < |s| && s[i] == x;
    var rest := s[..i] + s[i + 1..];
    assert s == s[..i] + [x] + s[i + 1..];
    assert multiset(rest)[x] == multiset(s)[x] - 1;
    assert x in multiset(rest);
    var k :| 0 <= k < |rest| && rest[k] == x;
    var j := if k < i then k else k + 1;
    assert s[j] == x && j != i;
    if i < j {
      assert 0 <= i < j < |s|;
    } else {
      assert 0 <= j < i < |s|;
    }
  }

  lemma TwoPlacesMeanTwice<T>(s: seq<T>, i: nat, j: nat)
    requires i < j < |s| && s[i] == s[j]
    ensures multiset(s)[s[i]] >= 2
  {
    assert s == s[..i] + [s[i]] + s[i + 1..j] + [s[j]] + s[j + 1..];
  }

  lemma SizesAgree<T>(a: seq<T>, b: seq<T>)
    requires multiset(a) == multiset(b)
    ensures |a| == |b|
  {
    assert |a| == |multiset(a)| && |b| == |multiset(b)|;
  }

  lemma ReadabilityAgrees(a: seq<Entry>, b: seq<Entry>)
    requires multiset(a) == multiset(b) && Read(a, 0, {}).Ok?
    ensures Read(b, 0, {}).Ok?
  {
    SizesAgree(a, b);
    ReadExactly(a, 0, {});
    ReadExactly(b, 0, {});
    forall i | 0 <= i < |b| ensures Readable(b[i]) {
      var j := SameMember(b, a, i);
    }
    forall i, j | 0 <= i < j < |b| ensures ItemOf(b[i]).path != ItemOf(b[j]).path {
      if b[i] == b[j] {
        TwoPlacesMeanTwice(b, i, j);
        TwiceMeansTwoPlaces(a, b[i]);
      } else {
        var i' := SameMember(b, a, i);
        var j' := SameMember(b, a, j);
        assert i' < j' || j' < i';
      }
    }
  }

  lemma {:induction false} WhiteoutsExactly(tree: Tree, items: seq<Item>)
    ensures Whiteouts(tree, items).Ok? <==>
              forall i :: 0 <= i < |items| && IsWhiteout(items[i].path) ==> WhiteoutRemoval(tree, items[i]).Ok?
    ensures Whiteouts(tree, items).Ok? ==>
              forall r :: r in Whiteouts(tree, items).value <==>
                (exists i :: 0 <= i < |items| && IsWhiteout(items[i].path) && WhiteoutRemoval(tree, items[i]) == Ok(r))
  {
    if items != [] {
      var rest := items[1..];
      WhiteoutsExactly(tree, rest);
      assert forall i :: 0 <= i < |rest| ==> rest[i] == items[i + 1];
      assert forall i :: 0 < i < |items| ==> items[i] == rest[i - 1];
      if Whiteouts(tree, items).Ok? {
        forall r ensures r in Whiteouts(tree, items).value <==>
            (exists i :: 0 <= i < |items| && IsWhiteout(items[i].path) && WhiteoutRemoval(tree, items[i]) == Ok(r))
        {
          if r in Whiteouts(tree, rest).value {
            var i :| 0 <= i < |rest| && IsWhiteout(rest[i].path) && WhiteoutRemoval(tree, rest[i]) == Ok(r);
            assert items[i + 1] == rest[i];
          }
        }
      }
    }
  }

  lemma RemovalsAgree(tree: Tree, a: seq<Entry>, b: seq<Entry>)
    requires multiset(a) == multiset(b) && Read(a, 0, {}).Ok? && Read(b, 0, {}).Ok?
    requires Whiteouts(tree, Read(a, 0, {}).value).Ok?
    ensures Whiteouts(tree, Read(b, 0, {}).value).Ok?
    ensures forall r :: r in Whiteouts(tree, Read(b, 0, {}).value).value ==>
        r in Whiteouts(tree, Read(a, 0, {}).value).value
  {
    var x, y := Read(a, 0, {}).value, Read(b, 0, {}).value;
    ReadExactly(a, 0, {});
    ReadExactly(b, 0, {});
    WhiteoutsExactly(tree, x);
    WhiteoutsExactly(tree, y);
    forall i | 0 <= i < |y| && IsWhiteout(y[i].path) ensures WhiteoutRemoval(tree, y[i]).Ok? {
      var j := SameMember(b, a, i);
      assert x[j] == y[i];
    }
    forall r | r in Whiteouts(tree, y).value ensures r in Whiteouts(tree, x).value {
      var i :| 0 <= i < |y| && IsWhiteout(y[i].path) && WhiteoutRemoval(tree, y[i]) == Ok(r);
      var j := SameMember(b, a, i);
      assert x[j] == y[i];
    }
  }

  lemma SameRemovalsSameTree(tree: Tree, rs: seq<Removal>, qs: seq<Removal>)
    requires forall r :: r in rs <==> r in qs
    ensures RemoveAll(tree, rs) == RemoveAll(tree, qs)
  {
    RemoveAllExactly(tree, rs);
    RemoveAllExactly(tree, qs);
    forall p ensures Uncovered(rs, p) <==> Uncovered(qs, p) {
      if Uncovered(rs, p) {
        forall i | 0 <= i < |qs| ensures !Covers(qs[i], p) { assert qs[i] in rs; }
      }
      if Uncovered(qs, p) {
        forall i | 0 <= i < |rs| ensures !Covers(rs[i], p) { assert rs[i] in qs; }
      }
    }
  }

  /** Inserting a layer only ever looks at the entries that are not whiteouts. */
  lemma {:induction false} InsertAllSkipsWhiteouts(s: State, entries: seq<Entry>)
    requires AllReadable(entries)
    ensures AllReadable(Others(entries))
    ensures InsertAll(s, Items(entries)) == InsertAll(s, Items(Others(entries)))
    decreases |entries|
  {
    if entries != [] {
      var e, rest := entries[0], entries[1..];
      assert Items(entries) == [ItemOf(e)] + Items(rest);
      if IsWhiteoutEntry(e) {
        InsertAllSkipsWhiteouts(s, rest);
        assert Others(entries) == Others(rest);
      } else {
        assert Others(entries) == [e] + Others(rest);
        InsertAllSkipsWhiteouts(s, rest);
        assert Items(Others(entries)) == [ItemOf(e)] + Items(Others(rest));
        var r := Insert(s, ItemOf(e));
        if r.Ok? {
          InsertAllSkipsWhiteouts(r.value, rest);
        }
      }
    }
  }

  function Items(entries: seq<Entry>): seq<Item>
    requires AllReadable(entries)
  {
    if entries == [] then [] else [ItemOf(entries[0])] + Items(entries[1..])
  }

  lemma {:induction false} ItemsAt(entries: seq<Entry>)
    requires AllReadable(entries)
    ensures |Items(entries)| == |entries|
    ensures forall i :: 0 <= i < |entries| ==> Items(entries)[i] == ItemOf(entries[i])
  {
    if entries != [] {
      ItemsAt(entries[1..]);
    }
  }

  lemma ReadIsItems(entries: seq<Entry>)
    requires Read(entries, 0, {}).Ok?
    ensures AllReadable(entries) && Read(entries, 0, {}).value == Items(entries)
  {
    ReadExactly(entries, 0, {});
    ItemsAt(entries);
  }

  lemma ReorderedOneWay(s: State, a: seq<Entry>, b: seq<Entry>)
    requires Valid(s) && Reordered(a, b)
    ensures Apply(s, a).Ok? ==> Apply(s, b) == Apply(s, a)
  {
    if Read(a, 0, {}).Ok? {
      ReadabilityAgrees(a, b);
      var x, y := Read(a, 0, {}).value, Read(b, 0, {}).value;
      if Whiteouts(s.tree, x).Ok? {
        RemovalsAgree(s.tree, a, b);
        RemovalsAgree(s.tree, b, a);
        SameRemovalsSameTree(s.tree, Whiteouts(s.tree, x).value, Whiteouts(s.tree, y).value);
        ReadIsItems(a);
        ReadIsItems(b);
        var cleared := State(RemoveAll(s.tree, Whiteouts(s.tree, x).value), s.next);
        InsertAllSkipsWhiteouts(cleared, a);
        InsertAllSkipsWhiteouts(cleared, b);
      }
    }
  }

  /** Moving whiteouts about within a layer changes neither its acceptance nor the filesystem it leaves. */
  lemma WhiteoutOrderIrrelevant(s: State, a: seq<Entry>, b: seq<Entry>)
    requires Valid(s) && Reordered(a, b)
    ensures Apply(s, a).Ok? <==> Apply(s, b).Ok?
    ensures Apply(s, a).Ok? ==> Apply(s, b) == Apply(s, a)
  {
    ReorderedOneWay(s, a, b);
    ReorderedOneWay(s, b, a);
  }
}
