/**
 Hard links that name a path not there yet are kept as placeholders and settled in rounds after
 the layer's entries are in. This module proves exactly which placeholders settle.
 */
module HardLinks {
  import opened Results
  import opened Paths
  import opened Nodes

  const HARDLINK_ROUNDS: nat := 40

  function Placeholders(tree: Tree): set<Path> {
    set p | p in tree && tree[p].kind.Hardlink?
  }

  ghost predicate PathsOk(tree: Tree) {
    forall p :: p in tree ==> IsPath(p) && (tree[p].kind.Hardlink? ==> IsPath(tree[p].kind.target))
  }

  function Links(tree: Tree, names: seq<Path>): seq<(Path, Path)>
    requires forall i :: 0 <= i < |names| ==> names[i] in tree && tree[names[i]].kind.Hardlink?
  {
    seq(|names|, i requires 0 <= i < |names| => (names[i], tree[names[i]].kind.target))
  }

  /** The placeholders and their targets, in the order the map yields them. */
  function Pending(tree: Tree): (pending: seq<(Path, Path)>)
    requires PathsOk(tree)
  {
    var names := Listing(Placeholders(tree));
    ListingIs(Placeholders(tree));
    Links(tree, names)
  }

  datatype Progress = Progress(tree: Tree, settled: bool)

  function SettleOne(tree: Tree, link: (Path, Path)): Result<Progress, Error> {
    if link.1 !in tree || tree[link.1].kind.Hardlink? then Ok(Progress(tree, false))
    else if tree[link.1].kind.Directory? then Err(HardlinkToDirectory)
    else Ok(Progress(tree[link.0 := tree[link.1]], true))
  }

  function Round(tree: Tree, pending: seq<(Path, Path)>): Result<Progress, Error>
    decreases |pending|
  {
    if pending == [] then Ok(Progress(tree, false))
    else
      var first :- SettleOne(tree, pending[0]);
      var rest :- Round(first.tree, pending[1..]);
      Ok(Progress(rest.tree, first.settled || rest.settled))
  }

  /** How one turn of the loop over rounds ends. */
  datatype Turn = Finished | Stuck(error: Error) | Onward(tree: Tree)

  function TurnOf(tree: Tree): (t: Turn)
    requires PathsOk(tree)
    ensures t.Onward? ==> PathsOk(t.tree)
  {
    if Placeholders(tree) == {} then Finished
    else
      var done := Round(tree, Pending(tree));
      if done.Err? then Stuck(done.error)
      else if !done.value.settled then Stuck(UnresolvedHardlink)
      else
        RoundKeepsPathsOk(tree);
        Onward(done.value.tree)
  }

  function Rounds(tree: Tree, left: nat): (r: Result<Tree, Error>)
    requires PathsOk(tree)
    decreases left
  {
    if left == 0 then Err(UnresolvedHardlink)
    else
      match TurnOf(tree)
      case Finished => Ok(tree)
      case Stuck(error) => Err(error)
      case Onward(after) => Rounds(after, left - 1)
  }

  lemma RoundKeepsPathsOk(tree: Tree)
    requires PathsOk(tree) && Round(tree, Pending(tree)).Ok?
    ensures PathsOk(Round(tree, Pending(tree)).value.tree)
    ensures Round(tree, Pending(tree)).value.tree.Keys == tree.Keys
  {
    ListingIs(Placeholders(tree));
    RoundKeepsPathsOkFrom(tree, Pending(tree));
  }

  lemma {:induction false} RoundKeepsPathsOkFrom(tree: Tree, pending: seq<(Path, Path)>)
    requires PathsOk(tree) && Round(tree, pending).Ok?
    requires forall i :: 0 <= i < |pending| ==> pending[i].0 in tree
    ensures PathsOk(Round(tree, pending).value.tree)
    ensures Round(tree, pending).value.tree.Keys == tree.Keys
    decreases |pending|
  {
    if pending != [] {
      var first := SettleOne(tree, pending[0]).value;
      assert pending[0].0 in tree;
      assert first.tree.Keys == tree.Keys;
      assert forall i :: 0 <= i < |pending[1..]| ==> pending[1..][i] == pending[i + 1];
      RoundKeepsPathsOkFrom(first.tree, pending[1..]);
    }
  }

  // Where a chain of placeholders ends, and in which round it is settled. A link settles in the
  // same round as its target if the target comes earlier in the map, and one round later if not.

  datatype Ending = Ending(rank: nat, at: Path)

  /** The ending of a placeholder is that of its target, one round later unless the target is earlier. */
  function Later(e: Ending, target: Path, p: Path): Ending {
    Ending(if e.rank == 0 then 1 else if Less(target, p) then e.rank else e.rank + 1, e.at)
  }

  function Chain(tree: Tree, p: Path, hops: nat): Option<Ending>
    decreases hops
  {
    if p !in tree then None
    else if !tree[p].kind.Hardlink? then Some(Ending(0, p))
    else if hops == 0 then None
    else
      var target := tree[p].kind.target;
      match Chain(tree, target, hops - 1)
      case None => None
      case Some(e) => Some(Later(e, target, p))
  }

  ghost predicate Ends(tree: Tree, p: Path, e: Ending) {
    exists hops: nat :: Chain(tree, p, hops) == Some(e)
  }

  lemma {:induction false} ChainMonotone(tree: Tree, p: Path, hops: nat, more: nat)
    requires hops <= more && Chain(tree, p, hops).Some?
    ensures Chain(tree, p, more) == Chain(tree, p, hops)
    decreases hops
  {
    if tree[p].kind.Hardlink? {
      ChainMonotone(tree, tree[p].kind.target, hops - 1, more - 1);
    }
  }

  lemma EndsUnique(tree: Tree, p: Path, e: Ending, f: Ending)
    requires Ends(tree, p, e) && Ends(tree, p, f)
    ensures e == f
  {
    var i: nat :| Chain(tree, p, i) == Some(e);
    var j: nat :| Chain(tree, p, j) == Some(f);
    ChainMonotone(tree, p, i, if i < j then j else i);
    ChainMonotone(tree, p, j, if i < j then j else i);
  }

  /** A rank never exceeds the number of hops. */
  lemma {:induction false} RankWithinHops(tree: Tree, p: Path, hops: nat)
    requires Chain(tree, p, hops).Some?
    ensures
      var e := Chain(tree, p, hops).value;
      && e.rank <= hops
      && e.at in tree && !tree[e.at].kind.Hardlink?
      && (e.rank == 0 <==> !tree[p].kind.Hardlink?)
      && (e.rank == 0 ==> e.at == p)
    decreases hops
  {
    if tree[p].kind.Hardlink? {
      RankWithinHops(tree, tree[p].kind.target, hops - 1);
    }
  }

  lemma EndsFacts(tree: Tree, p: Path, e: Ending)
    requires Ends(tree, p, e)
    ensures p in tree && e.at in tree && !tree[e.at].kind.Hardlink?
    ensures e.rank == 0 <==> !tree[p].kind.Hardlink?
    ensures e.rank == 0 ==> e.at == p
  {
    var i: nat :| Chain(tree, p, i) == Some(e);
    RankWithinHops(tree, p, i);
  }

  lemma EndsForward(tree: Tree, p: Path, e: Ending)
    requires p in tree && tree[p].kind.Hardlink? && Ends(tree, tree[p].kind.target, e)
    ensures Ends(tree, p, Later(e, tree[p].kind.target, p))
  {
    var i: nat :| Chain(tree, tree[p].kind.target, i) == Some(e);
    assert Chain(tree, p, i + 1) == Some(Later(e, tree[p].kind.target, p));
  }

  lemma EndsBackward(tree: Tree, p: Path, e: Ending) returns (f: Ending)
    requires p in tree && tree[p].kind.Hardlink? && Ends(tree, p, e)
    ensures Ends(tree, tree[p].kind.target, f) && e == Later(f, tree[p].kind.target, p)
  {
    var i: nat :| Chain(tree, p, i) == Some(e);
    f := Chain(tree, tree[p].kind.target, i - 1).value;
    assert Chain(tree, tree[p].kind.target, i - 1) == Some(f);
  }

  // One round.

  ghost predicate NoDirectoryTarget(tree: Tree) {
    forall p :: p in tree && tree[p].kind.Hardlink? ==> !IsDirectory(tree, tree[p].kind.target)
  }

  ghost predicate SettlesNow(tree: Tree, p: Path) {
    exists e :: Ends(tree, p, e) && e.rank == 1
  }

  ghost function Settled(tree: Tree, p: Path): Node
    requires p in tree
  {
    if SettlesNow(tree, p) then
      var e :| Ends(tree, p, e) && e.rank == 1;
      EndsFacts(tree, p, e);
      tree[e.at]
    else tree[p]
  }

  lemma SettledIs(tree: Tree, p: Path, e: Ending)
    requires p in tree && Ends(tree, p, e) && e.rank == 1
    ensures SettlesNow(tree, p)
    ensures e.at in tree && Settled(tree, p) == tree[e.at]
  {
    EndsFacts(tree, p, e);
    forall f | Ends(tree, p, f) ensures f == e { EndsUnique(tree, p, e, f); }
  }

  ghost function AfterRound(tree: Tree, done: set<Path>): Tree {
    map p | p in tree :: if p in done then Settled(tree, p) else tree[p]
  }

  lemma {:induction false} EndsOffDirectory(tree: Tree, p: Path, hops: nat)
    requires NoDirectoryTarget(tree) && p in tree && tree[p].kind.Hardlink? && Chain(tree, p, hops).Some?
    ensures Chain(tree, p, hops).value.at in tree && !IsDirectory(tree, Chain(tree, p, hops).value.at)
    decreases hops
  {
    var target := tree[p].kind.target;
    if target in tree && tree[target].kind.Hardlink? {
      EndsOffDirectory(tree, target, hops - 1);
    }
  }

  /** Settling `p` after exactly the placeholders before it settles it if and only if its rank is 1. */
  lemma SettleStep(tree: Tree, done: set<Path>, p: Path)
    requires PathsOk(tree) && NoDirectoryTarget(tree)
    requires p in tree && tree[p].kind.Hardlink?
    requires forall q :: q in Placeholders(tree) ==> (q in done <==> Less(q, p))
    requires done <= Placeholders(tree)
    ensures SettleOne(AfterRound(tree, done), (p, tree[p].kind.target)) ==
            Ok(Progress(AfterRound(tree, done + {p}), SettlesNow(tree, p)))
  {
    var t := tree[p].kind.target;
    var now := AfterRound(tree, done);
    LessTotal(p, p);
    if t !in tree {
      NeverSettles(tree, p);
      assert AfterRound(tree, done + {p}) == now;
    } else if !tree[t].kind.Hardlink? {
      assert Chain(tree, p, 1) == Some(Ending(1, t));
      SettledIs(tree, p, Ending(1, t));
      assert now[t] == tree[t];
      assert AfterRound(tree, done + {p}) == now[p := tree[t]];
    } else {
      LessTotal(t, p);
      if Less(t, p) && SettlesNow(tree, t) {
        var e :| Ends(tree, t, e) && e.rank == 1;
        SettledIs(tree, t, e);
        EndsForward(tree, p, e);
        SettledIs(tree, p, e);
        var hops: nat :| Chain(tree, t, hops) == Some(e);
        EndsOffDirectory(tree, t, hops);
        EndsFacts(tree, t, e);
        assert now[t] == tree[e.at];
        assert AfterRound(tree, done + {p}) == now[p := tree[e.at]];
      } else {
        NeverSettles(tree, p);
        assert now[t] == tree[t];
        assert AfterRound(tree, done + {p}) == now;
      }
    }
  }

  lemma NeverSettles(tree: Tree, p: Path)
    requires PathsOk(tree) && p in tree && tree[p].kind.Hardlink?
    requires
      var t := tree[p].kind.target;
      t !in tree || (tree[t].kind.Hardlink? && !(Less(t, p) && SettlesNow(tree, t)))
    ensures !SettlesNow(tree, p) && Settled(tree, p) == tree[p]
  {
    if SettlesNow(tree, p) {
      var e :| Ends(tree, p, e) && e.rank == 1;
      var f := EndsBackward(tree, p, e);
      EndsFacts(tree, tree[p].kind.target, f);
      assert false;
    }
  }

  /** Where a round stands: the placeholders before `names` in the map are done. */
  ghost predicate Midway(tree: Tree, names: seq<Path>, done: set<Path>) {
    && PathsOk(tree) && NoDirectoryTarget(tree)
    && done <= Placeholders(tree)
    && Lists(names, Placeholders(tree) - done)
    && (forall q, p :: q in done && p in Placeholders(tree) - done ==> Less(q, p))
  }

  lemma MidwayNames(tree: Tree, names: seq<Path>, done: set<Path>)
    requires Midway(tree, names, done)
    ensures forall i :: 0 <= i < |names| ==> names[i] in tree && tree[names[i]].kind.Hardlink?
  {
    forall i | 0 <= i < |names| ensures names[i] in Placeholders(tree) {
      assert names[i] in names;
    }
  }

  lemma MidwayNext(tree: Tree, names: seq<Path>, done: set<Path>)
    requires Midway(tree, names, done) && names != []
    ensures Midway(tree, names[1..], done + {names[0]})
    ensures names[0] in Placeholders(tree)
    ensures forall q :: q in Placeholders(tree) ==> (q in done <==> Less(q, names[0]))
  {
    var all, p := Placeholders(tree), names[0];
    HeadIsLeast(names, all - done);
    TailLists(names, all - done);
    assert all - done - {p} == all - (done + {p});
    forall q | q in all ensures q in done <==> Less(q, p) {
      LessTotal(q, p);
    }
  }

  lemma RoundTurn(tree: Tree, names: seq<Path>, done: set<Path>)
    requires Midway(tree, names, done) && names != []
    requires forall i :: 0 <= i < |names| ==> names[i] in tree && tree[names[i]].kind.Hardlink?
    ensures
      var links := Links(tree, names);
      && links[1..] == Links(tree, names[1..])
      && SettleOne(AfterRound(tree, done), links[0]) ==
         Ok(Progress(AfterRound(tree, done + {names[0]}), SettlesNow(tree, names[0])))
  {
    MidwayNext(tree, names, done);
    SettleStep(tree, done, names[0]);
  }

  /** After a whole round every placeholder of rank 1 holds its ending, and the others are as before. */
  lemma {:induction false} RoundFrom(tree: Tree, names: seq<Path>, done: set<Path>)
    requires Midway(tree, names, done)
    ensures forall i :: 0 <= i < |names| ==> names[i] in tree && tree[names[i]].kind.Hardlink?
    ensures
      var r := Round(AfterRound(tree, done), Links(tree, names));
      && r.Ok?
      && r.value.tree == AfterRound(tree, Placeholders(tree))
      && (r.value.settled <==> exists i :: 0 <= i < |names| && SettlesNow(tree, names[i]))
    decreases |names|
  {
    MidwayNames(tree, names, done);
    if names == [] {
      ListingEmpty(names, Placeholders(tree) - done);
      assert forall p :: p in Placeholders(tree) && p !in done ==> p in Placeholders(tree) - done;
    } else {
      var rest := names[1..];
      RoundTurn(tree, names, done);
      MidwayNext(tree, names, done);
      RoundFrom(tree, rest, done + {names[0]});
      assert forall i :: 0 < i < |names| ==> names[i] == rest[i - 1];
    }
  }

  lemma RoundExactly(tree: Tree)
    requires PathsOk(tree) && NoDirectoryTarget(tree)
    ensures
      var r := Round(tree, Pending(tree));
      && r.Ok?
      && r.value.tree == AfterRound(tree, Placeholders(tree))
      && (r.value.settled <==> exists p :: p in Placeholders(tree) && SettlesNow(tree, p))
  {
    var all := Placeholders(tree);
    var names := Listing(all);
    ListingIs(all);
    assert all - {} == all;
    assert AfterRound(tree, {}) == tree;
    RoundFrom(tree, names, {});
    assert forall p :: p in all ==> p in names;
  }

  lemma {:induction false} DirectoryTargetFails(tree: Tree, pending: seq<(Path, Path)>, i: nat)
    requires i < |pending| && IsDirectory(tree, pending[i].1)
    requires forall j :: 0 <= j < |pending| ==> pending[j].0 != pending[i].1
    ensures Round(tree, pending).Err?
    decreases |pending|
  {
    var first := SettleOne(tree, pending[0]);
    if i > 0 && first.Ok? {
      var rest := pending[1..];
      assert forall j :: 0 <= j < |rest| ==> rest[j] == pending[j + 1];
      DirectoryTargetFails(first.value.tree, rest, i - 1);
    }
  }

  lemma RoundFailsOnDirectory(tree: Tree)
    requires PathsOk(tree) && !NoDirectoryTarget(tree)
    ensures Round(tree, Pending(tree)).Err?
  {
    var p :| p in tree && tree[p].kind.Hardlink? && IsDirectory(tree, tree[p].kind.target);
    var pending := Pending(tree);
    var names := Listing(Placeholders(tree));
    ListingIs(Placeholders(tree));
    assert p in names;
    var i :| 0 <= i < |names| && names[i] == p;
    assert forall j :: 0 <= j < |pending| ==> pending[j].0 == names[j];
    DirectoryTargetFails(tree, pending, i);
  }

  // All rounds.

  /** Every placeholder chain ends at a file or symbolic link, and is settled within `rounds`. */
  ghost predicate SettleWithin(tree: Tree, rounds: int) {
    forall p :: p in Placeholders(tree) ==> SettlesIn(tree, p, rounds)
  }

  ghost predicate SettlesIn(tree: Tree, p: Path, rounds: int) {
    exists e :: Ends(tree, p, e) && e.rank <= rounds && e.at in tree && !tree[e.at].kind.Directory?
  }

  ghost predicate IsEnding(tree: Tree, p: Path, node: Node) {
    && !node.kind.Directory? && !node.kind.Hardlink?
    && exists e :: Ends(tree, p, e) && e.at in tree && node == tree[e.at]
  }

  /** `after` is `tree` with every placeholder replaced by the very node its chain ends at. */
  ghost predicate Aliased(tree: Tree, after: Tree) {
    && after.Keys == tree.Keys
    && (forall p :: p in tree && !tree[p].kind.Hardlink? ==> after[p] == tree[p])
    && (forall p :: p in Placeholders(tree) ==> IsEnding(tree, p, after[p]))
  }

  /** What is left after a round keeps its chain, one round shorter. */
  lemma {:induction false} ChainAfter(tree: Tree, p: Path, hops: nat, e: Ending) returns (f: Ending)
    requires PathsOk(tree) && p in Placeholders(tree) && Chain(tree, p, hops) == Some(e) && e.rank > 1
    ensures
      var after := AfterRound(tree, Placeholders(tree));
      && Ends(after, p, f) && f.rank == e.rank - 1
      && f.at in after && e.at in tree && after[f.at] == tree[e.at]
    decreases hops
  {
    var after := AfterRound(tree, Placeholders(tree));
    var t := tree[p].kind.target;
    var u := Chain(tree, t, hops - 1).value;
    RankWithinHops(tree, t, hops - 1);
    assert Ends(tree, p, e) && Ends(tree, t, u);
    StaysPlaceholder(tree, p, e);
    if u.rank == 1 {
      SettledIs(tree, t, u);
      assert after[t] == tree[u.at];
      f := Ending(1, t);
      assert Chain(after, t, 0) == Some(Ending(0, t));
      assert Chain(after, p, 1) == Some(f);
    } else {
      f := ChainAfter(tree, t, hops - 1, u);
      StaysPlaceholder(tree, t, u);
      EndsForward(after, p, f);
      EndsFacts(after, t, f);
      f := Later(f, t, p);
    }
  }

  lemma StaysPlaceholder(tree: Tree, p: Path, e: Ending)
    requires p in Placeholders(tree) && Ends(tree, p, e) && e.rank > 1
    ensures !SettlesNow(tree, p)
    ensures AfterRound(tree, Placeholders(tree))[p] == tree[p]
  {
    forall f | Ends(tree, p, f) ensures f == e { EndsUnique(tree, p, e, f); }
  }

  lemma DirectLinkSettles(tree: Tree, p: Path)
    requires p in Placeholders(tree)
    ensures tree[p].kind.target in tree && !tree[tree[p].kind.target].kind.Hardlink? ==> SettlesNow(tree, p)
  {
    var t := tree[p].kind.target;
    if t in tree && !tree[t].kind.Hardlink? {
      assert Chain(tree, p, 1) == Some(Ending(1, t));
      assert Ends(tree, p, Ending(1, t));
    }
  }

  lemma {:induction false} ChainBefore(tree: Tree, p: Path, hops: nat, f: Ending) returns (e: Ending)
    requires PathsOk(tree) && p in Placeholders(tree) && !SettlesNow(tree, p)
    requires Chain(AfterRound(tree, Placeholders(tree)), p, hops) == Some(f)
    ensures
      var after := AfterRound(tree, Placeholders(tree));
      && Ends(tree, p, e) && e.rank == f.rank + 1
      && f.at in after && e.at in tree && after[f.at] == tree[e.at]
    decreases hops
  {
    var after := AfterRound(tree, Placeholders(tree));
    assert after[p] == tree[p];
    var t := tree[p].kind.target;
    var u := Chain(after, t, hops - 1).value;
    RankWithinHops(after, t, hops - 1);
    DirectLinkSettles(tree, p);
    if SettlesNow(tree, t) {
      var s :| Ends(tree, t, s) && s.rank == 1;
      SettledIs(tree, t, s);
      EndsFacts(tree, t, s);
      assert u == Ending(0, t);
      EndsForward(tree, p, s);
      e := Later(s, t, p);
      assert e.rank != 1;
    } else {
      var s := ChainBefore(tree, t, hops - 1, u);
      EndsForward(tree, p, s);
      e := Later(s, t, p);
    }
  }

  lemma PlaceholdersAfter(tree: Tree)
    ensures Placeholders(AfterRound(tree, Placeholders(tree))) ==
            set p | p in Placeholders(tree) && !SettlesNow(tree, p)
  {
    var after := AfterRound(tree, Placeholders(tree));
    forall p | p in Placeholders(tree) && SettlesNow(tree, p) ensures !after[p].kind.Hardlink? {
      var e :| Ends(tree, p, e) && e.rank == 1;
      SettledIs(tree, p, e);
      EndsFacts(tree, p, e);
    }
  }

  /** Every round that settles anything leaves strictly fewer placeholders. */
  lemma RoundReduces(tree: Tree)
    requires PathsOk(tree)
    requires Round(tree, Pending(tree)).Ok? && Round(tree, Pending(tree)).value.settled
    ensures Placeholders(Round(tree, Pending(tree)).value.tree) < Placeholders(tree)
  {
    if !NoDirectoryTarget(tree) {
      RoundFailsOnDirectory(tree);
    }
    RoundExactly(tree);
    PlaceholdersAfter(tree);
    var p :| p in Placeholders(tree) && SettlesNow(tree, p);
    assert p !in Placeholders(AfterRound(tree, Placeholders(tree)));
  }

  lemma SettleNeedsNoDirectory(tree: Tree, rounds: int)
    requires PathsOk(tree) && SettleWithin(tree, rounds)
    ensures NoDirectoryTarget(tree)
  {
    forall p | p in tree && tree[p].kind.Hardlink? ensures !IsDirectory(tree, tree[p].kind.target) {
      assert p in Placeholders(tree);
      var e :| Ends(tree, p, e) && e.rank <= rounds && e.at in tree && !tree[e.at].kind.Directory?;
      var f := EndsBackward(tree, p, e);
      EndsFacts(tree, tree[p].kind.target, f);
    }
  }

  lemma {:induction false} SomethingSettles(tree: Tree, p: Path, hops: nat)
    requires p in Placeholders(tree) && Chain(tree, p, hops).Some?
    ensures exists q :: q in Placeholders(tree) && SettlesNow(tree, q)
    decreases hops
  {
    var t := tree[p].kind.target;
    if tree[t].kind.Hardlink? {
      SomethingSettles(tree, t, hops - 1);
    } else {
      assert Chain(tree, p, hops) == Some(Ending(1, t));
      assert Ends(tree, p, Ending(1, t));
    }
  }

  /** From the chains of a tree to the chains after a round, and back. */
  lemma SettleShifts(tree: Tree, rounds: int)
    requires PathsOk(tree) && NoDirectoryTarget(tree)
    ensures SettleWithin(tree, rounds + 1) && rounds >= 0 ==>
              SettleWithin(AfterRound(tree, Placeholders(tree)), rounds)
    ensures SettleWithin(AfterRound(tree, Placeholders(tree)), rounds) && rounds >= 0 ==>
              SettleWithin(tree, rounds + 1)
  {
    var all := Placeholders(tree);
    var after := AfterRound(tree, all);
    PlaceholdersAfter(tree);
    if rounds >= 0 && SettleWithin(tree, rounds + 1) {
      forall p | p in Placeholders(after) ensures SettlesIn(after, p, rounds) {
        var e :| Ends(tree, p, e) && e.rank <= rounds + 1 && e.at in tree && !tree[e.at].kind.Directory?;
        EndsFacts(tree, p, e);
        assert e.rank != 1;
        var hops: nat :| Chain(tree, p, hops) == Some(e);
        var f := ChainAfter(tree, p, hops, e);
        assert Ends(after, p, f);
      }
    }
    if rounds >= 0 && SettleWithin(after, rounds) {
      forall p | p in all ensures SettlesIn(tree, p, rounds + 1) {
        if SettlesNow(tree, p) {
          var e :| Ends(tree, p, e) && e.rank == 1;
          EndsFacts(tree, p, e);
          var hops: nat :| Chain(tree, p, hops) == Some(e);
          EndsOffDirectory(tree, p, hops);
        } else {
          assert SettlesIn(after, p, rounds);
          var f :| Ends(after, p, f) && f.rank <= rounds && f.at in after && !after[f.at].kind.Directory?;
          var hops: nat :| Chain(after, p, hops) == Some(f);
          var e := ChainBefore(tree, p, hops, f);
          assert Ends(tree, p, e);
        }
      }
    }
  }

  lemma AliasedThroughRound(tree: Tree, last: Tree)
    requires PathsOk(tree) && NoDirectoryTarget(tree)
    requires Aliased(AfterRound(tree, Placeholders(tree)), last)
    ensures Aliased(tree, last)
  {
    var all := Placeholders(tree);
    var after := AfterRound(tree, all);
    PlaceholdersAfter(tree);
    assert last.Keys == tree.Keys;
    forall p | p in all ensures IsEnding(tree, p, last[p]) {
      if SettlesNow(tree, p) {
        var e :| Ends(tree, p, e) && e.rank == 1;
        SettledIs(tree, p, e);
        EndsFacts(tree, p, e);
        var hops: nat :| Chain(tree, p, hops) == Some(e);
        EndsOffDirectory(tree, p, hops);
        assert p !in Placeholders(after);
        assert last[p] == after[p];
      } else {
        assert IsEnding(after, p, last[p]);
        var f :| Ends(after, p, f) && f.at in after && last[p] == after[f.at];
        var hops: nat :| Chain(after, p, hops) == Some(f);
        var e := ChainBefore(tree, p, hops, f);
        assert Ends(tree, p, e);
      }
    }
  }

  ghost predicate Moves(tree: Tree) {
    exists p :: p in Placeholders(tree) && SettlesNow(tree, p)
  }

  /** One round, seen from the loop: it fails when nothing moves, and otherwise goes on from the settled tree. */
  lemma RoundsTurn(tree: Tree, left: nat)
    requires PathsOk(tree) && NoDirectoryTarget(tree) && left > 0 && Placeholders(tree) != {}
    ensures PathsOk(AfterRound(tree, Placeholders(tree)))
    ensures Rounds(tree, left) ==
            if Moves(tree) then Rounds(AfterRound(tree, Placeholders(tree)), left - 1) else Err(UnresolvedHardlink)
  {
    RoundExactly(tree);
    RoundKeepsPathsOk(tree);
  }

  lemma SettlingMoves(tree: Tree, rounds: int)
    requires SettleWithin(tree, rounds) && Placeholders(tree) != {}
    ensures Moves(tree) && rounds >= 1
  {
    var p :| p in Placeholders(tree);
    assert SettlesIn(tree, p, rounds);
    var e :| Ends(tree, p, e) && e.rank <= rounds;
    EndsFacts(tree, p, e);
    var hops: nat :| Chain(tree, p, hops) == Some(e);
    SomethingSettles(tree, p, hops);
  }

  lemma NothingPendingIsSettled(tree: Tree, rounds: nat)
    requires Placeholders(tree) == {}
    ensures SettleWithin(tree, rounds) && Aliased(tree, tree)
  {
  }

  lemma RoundsOkShifts(tree: Tree, left: nat)
    requires PathsOk(tree) && NoDirectoryTarget(tree) && left > 0 && Placeholders(tree) != {}
    ensures
      var after := AfterRound(tree, Placeholders(tree));
      SettleWithin(tree, left - 1) <==> Moves(tree) && left > 1 && SettleWithin(after, left - 2)
  {
    if SettleWithin(tree, left - 1) {
      SettlingMoves(tree, left - 1);
    }
    if left > 1 {
      SettleShifts(tree, left - 2);
    }
  }

  lemma RoundsOnDirectory(tree: Tree, left: nat)
    requires PathsOk(tree) && !NoDirectoryTarget(tree) && left > 0 && Placeholders(tree) != {}
    ensures Rounds(tree, left).Err? && !SettleWithin(tree, left - 1)
  {
    RoundFailsOnDirectory(tree);
    if SettleWithin(tree, left - 1) {
      SettleNeedsNoDirectory(tree, left - 1);
    }
  }

  /** One turn of the loop, with the chains it leaves. */
  lemma RoundsStep(tree: Tree, left: nat) returns (after: Tree)
    requires PathsOk(tree) && NoDirectoryTarget(tree) && left > 0 && Placeholders(tree) != {}
    ensures PathsOk(after)
    ensures Rounds(tree, left).Ok? <==> Moves(tree) && Rounds(after, left - 1).Ok?
    ensures SettleWithin(tree, left - 1) <==> Moves(tree) && left > 1 && SettleWithin(after, left - 2)
  {
    RoundsTurn(tree, left);
    RoundsOkShifts(tree, left);
    after := AfterRound(tree, Placeholders(tree));
  }

  lemma {:induction false} RoundsSucceed(tree: Tree, left: nat)
    requires PathsOk(tree)
    ensures Rounds(tree, left).Ok? <==> left >= 1 && SettleWithin(tree, left - 1)
    decreases left
  {
    if left == 0 {
    } else if Placeholders(tree) == {} {
      NothingPendingIsSettled(tree, left - 1);
    } else if !NoDirectoryTarget(tree) {
      RoundsOnDirectory(tree, left);
    } else {
      var after := RoundsStep(tree, left);
      RoundsSucceed(after, left - 1);
    }
  }

  lemma RoundsGoOn(tree: Tree, left: nat, last: Tree) returns (after: Tree)
    requires PathsOk(tree) && Rounds(tree, left) == Ok(last) && Placeholders(tree) != {}
    ensures left > 0 && PathsOk(after) && Rounds(after, left - 1) == Ok(last)
    ensures Aliased(after, last) ==> Aliased(tree, last)
  {
    after := AfterRound(tree, Placeholders(tree));
    if !NoDirectoryTarget(tree) {
      RoundsOnDirectory(tree, left);
    } else {
      RoundsTurn(tree, left);
      if Aliased(after, last) {
        AliasedThroughRound(tree, last);
      }
    }
  }

  lemma RoundsDone(tree: Tree, left: nat, last: Tree)
    requires PathsOk(tree) && Rounds(tree, left) == Ok(last) && Placeholders(tree) == {}
    ensures Aliased(tree, last)
  {
    NothingPendingIsSettled(tree, left);
  }

  lemma {:induction false} RoundsAlias(tree: Tree, left: nat, last: Tree)
    requires PathsOk(tree) && Rounds(tree, left) == Ok(last)
    ensures Aliased(tree, last)
    decreases left
  {
    if Placeholders(tree) == {} {
      RoundsDone(tree, left, last);
    } else {
      var after := RoundsGoOn(tree, left, last);
      RoundsAlias(after, left - 1, last);
    }
  }

  /**
   The rounds succeed if and only if every placeholder's chain ends at a file or symbolic link and
   its rank leaves one round to notice that nothing is pending; each placeholder then becomes the
   very node, identity included, that its chain ends at.
   */
  lemma RoundsExactly(tree: Tree, left: nat)
    requires PathsOk(tree)
    ensures Rounds(tree, left).Ok? <==> left >= 1 && SettleWithin(tree, left - 1)
    ensures Rounds(tree, left).Ok? ==> Aliased(tree, Rounds(tree, left).value)
  {
    RoundsSucceed(tree, left);
    var r := Rounds(tree, left);
    if r.Ok? {
      RoundsAlias(tree, left, r.value);
    }
  }

  /** The rounds a layer has are enough exactly for chains that step back at most 39 times. */
  lemma LayerSettlesExactly(tree: Tree)
    requires PathsOk(tree)
    ensures Rounds(tree, HARDLINK_ROUNDS).Ok? <==> SettleWithin(tree, 39)
  {
    RoundsExactly(tree, HARDLINK_ROUNDS);
  }

  /** Chains of at most 39 hops always settle. */
  lemma ShortChainsSettle(tree: Tree)
    requires PathsOk(tree)
    requires forall p :: p in Placeholders(tree) ==>
               var end := Chain(tree, p, 39);
               end.Some? && end.value.at in tree && !tree[end.value.at].kind.Directory?
    ensures Rounds(tree, HARDLINK_ROUNDS).Ok?
  {
    forall p | p in Placeholders(tree) ensures SettlesIn(tree, p, 39) {
      RankWithinHops(tree, p, 39);
      assert Ends(tree, p, Chain(tree, p, 39).value);
    }
    RoundsExactly(tree, HARDLINK_ROUNDS);
  }

  lemma SuccessNeedsEnding(tree: Tree, p: Path)
    requires PathsOk(tree) && p in Placeholders(tree)
    ensures Rounds(tree, HARDLINK_ROUNDS).Ok? ==>
              exists hops: nat :: Chain(tree, p, hops).Some? && !IsDirectory(tree, Chain(tree, p, hops).value.at)
  {
    RoundsExactly(tree, HARDLINK_ROUNDS);
    if Rounds(tree, HARDLINK_ROUNDS).Ok? {
      assert SettlesIn(tree, p, HARDLINK_ROUNDS - 1);
      var e :| Ends(tree, p, e) && e.at in tree && !tree[e.at].kind.Directory?;
      var hops: nat :| Chain(tree, p, hops) == Some(e);
    }
  }

  /** A chain that never ends, whether cyclic or missing its target, or that ends at a directory, fails the layer. */
  lemma BadChainFails(tree: Tree, p: Path)
    requires PathsOk(tree) && p in Placeholders(tree)
    requires forall hops: nat :: Chain(tree, p, hops).Some? ==> IsDirectory(tree, Chain(tree, p, hops).value.at)
    ensures Rounds(tree, HARDLINK_ROUNDS).Err?
  {
    SuccessNeedsEnding(tree, p);
  }
}
