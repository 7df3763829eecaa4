// make_dir, list_dir, copy, move and remove, working in place on the tree.
module FileOps {
  import opened Common
  import opened FileTree
  import opened FileTheorems
  import opened FailedCopies
  import opened Listing
  import Ordering

  lemma KeptNames(glob: Glob, t: Tree, dir: Path, names: seq<Name>, included: seq<string>, excluded: seq<string>)
    requires multiset(names) == multiset(set n | n in Children(t, dir) && Lists(glob, n, included, excluded))
    ensures forall n: Name :: n in names <==>
      && dir + [n] in t
      && (included != [] ==> (forall p :: p in included ==> glob(p, n)) && (forall p :: p in excluded ==> !glob(p, n)))
  {
    ChildrenAt(t, dir);
    hide Children, Lists;
    var kept := set n | n in Children(t, dir) && Lists(glob, n, included, excluded);
    forall n: Name
      ensures n in names <==>
        && dir + [n] in t
        && (included != [] ==>
              (forall p :: p in included ==> glob(p, n)) && (forall p :: p in excluded ==> !glob(p, n)))
    {
      assert n in names <==> n in multiset(names);
      assert n in multiset(kept) <==> n in kept;
      ListsIs(glob, n, included, excluded);
    }
  }

  // t is was without what the paths cover.
  ghost predicate Cleared(was: Tree, t: Tree, paths: seq<Path>) {
    forall q :: Lookup(t, q) == if Covered(paths, q) then None else Lookup(was, q)
  }

  lemma OneMoreCleared(was: Tree, t: Tree, paths: seq<Path>, path: Path)
    requires WellFormed(t) && Cleared(was, t, paths)
    ensures Cleared(was, Without(t, path), paths + [path])
    ensures path !in t ==> Cleared(was, t, paths + [path])
  {
    forall q ensures Covered(paths + [path], q) <==> Covered(paths, q) || path <= q {
      CoveredSnoc(paths, path, q);
    }
    hide Covered, WellFormed;
    assert forall q :: Lookup(Without(t, path), q) == if path <= q then None else Lookup(t, q);
    if path !in t {
      NothingBelow(t, path);
      assert Without(t, path) == t;
    }
  }

  class FileSystem {
    var nodes: Tree
    const glob: Glob

    ghost predicate Valid()
      reads this
    {
      WellFormed(nodes) && forall n: Name :: glob("*", n)
    }

    // ---------- operating system calls ----------

    // os.listdir: the names in a directory, in no particular order.
    method OsListDir(dir: Path) returns (names: seq<Name>)
      ensures multiset(names) == multiset(Children(nodes, dir))
    {
      var left := set p | p in nodes && p != [] && Parent(p) == dir :: p[|p| - 1];
      ghost var all := left;
      names := [];
      while left != {}
        invariant left <= all
        invariant multiset(names) == multiset(all - left)
      {
        var n :| n in left;
        assert all - (left - {n}) == (all - left) + {n};
        left, names := left - {n}, names + [n];
      }
      assert all - left == all;
    }

    // os.makedirs of a path that does not exist.
    method OsMakeDirs(dir: Path) returns (r: Result<(), Error>)
      requires dir !in nodes && WellFormed(nodes)
      modifies this`nodes
      ensures r.Ok? <==> ClearAbove(old(nodes), dir)
      ensures WellFormed(nodes)
      ensures nodes == if r.Ok? then DirsTo(dir) + old(nodes) else old(nodes)
    {
      if !ClearAbove(nodes, dir) {
        return Err(NotADirectory);
      }
      nodes := DirsTo(dir) + nodes;
      MadeDirsWellFormed(old(nodes), dir);
      r := Ok(());
    }

    // shutil.copy2, for a destination that is absent or a file.
    method OsCopy2(from: Path, to: Path) returns (r: Result<(), Error>)
      requires WellFormed(nodes) && to != []
      requires from in nodes ==> nodes[from].File? && (to in nodes ==> nodes[to].File?)
      modifies this`nodes
      ensures WellFormed(nodes)
      ensures r.Ok? <==> from in old(nodes) && IsDir(old(nodes), Parent(to))
      ensures nodes == if r.Ok? then old(nodes)[to := old(nodes)[from]] else old(nodes)
    {
      if from !in nodes {
        return Err(NotFound);
      }
      if !IsDir(nodes, Parent(to)) {
        return Err(NotADirectory);
      }
      PutWellFormed(nodes, to, nodes[from]);
      nodes := nodes[to := nodes[from]];
      r := Ok(());
    }

    // os.symlink to a path that is free.
    method OsSymlink(target: string, path: Path) returns (r: Result<(), Error>)
      requires WellFormed(nodes) && path !in nodes && path != []
      modifies this`nodes
      ensures WellFormed(nodes)
      ensures r.Ok? <==> IsDir(old(nodes), Parent(path))
      ensures nodes == if r.Ok? then old(nodes)[path := Link(target)] else old(nodes)
    {
      if !IsDir(nodes, Parent(path)) {
        return Err(NotADirectory);
      }
      PutWellFormed(nodes, path, Link(target));
      nodes := nodes[path := Link(target)];
      r := Ok(());
    }

    // shutil.rmtree or os.remove.
    method OsRemoveTree(path: Path)
      requires WellFormed(nodes) && path != []
      modifies this`nodes
      ensures WellFormed(nodes)
      ensures nodes == Without(old(nodes), path)
    {
      WithoutWellFormed(nodes, path);
      nodes := Without(nodes, path);
    }

    // ---------- plano ----------

    method MakeDir(dir: Path) returns (r: Result<(), Error>)
      requires Valid()
      modifies this`nodes
      ensures Valid()
      ensures r.Ok? <==> dir in old(nodes) || ClearAbove(old(nodes), dir)
      ensures nodes == if r.Ok? then DirsTo(dir) + old(nodes) else old(nodes)
    {
      if dir == [] {
        DirsToPresent(nodes, dir);
        return Ok(());
      }
      if dir !in nodes {
        r := OsMakeDirs(dir);
      } else {
        DirsToPresent(nodes, dir);
        r := Ok(());
      }
    }

    method MakeParentDir(path: Path) returns (r: Result<(), Error>)
      requires Valid() && path != []
      modifies this`nodes
      ensures Valid()
      ensures r.Ok? ==> nodes == Ancestors(path) + old(nodes)
      ensures ClearAbove(old(nodes), path) ==> r.Ok?
      ensures !ClearAbove(old(nodes), path) ==> nodes == old(nodes) && !IsDir(nodes, Parent(path))
    {
      if !ClearAbove(nodes, path) {
        BlockedAbove(nodes, path);
        if Parent(path) in nodes {
          AncestorsPresent(nodes, path);
        }
      }
      r := MakeDir(Parent(path));
    }

    method ListDir(dir: Path, included: seq<string>, excluded: seq<string>) returns (names: seq<Name>)
      requires Valid() && IsDir(nodes, dir)
      ensures Ordering.Sorted(names)
      ensures multiset(names) == multiset(set n | n in Children(nodes, dir) && Lists(glob, n, included, excluded))
      ensures forall n: Name :: n in names <==>
        && dir + [n] in nodes
        && (included != [] ==>
              (forall p :: p in included ==> glob(p, n)) && (forall p :: p in excluded ==> !glob(p, n)))
    {
      var entries := OsListDir(dir);
      names := ListNames(glob, entries, included, excluded);
      ListedOnceEach(glob, entries, Children(nodes, dir), included, excluded);
      KeptNames(glob, nodes, dir, names, included, excluded);
    }

    // list_dir with its default patterns: every name, in order.
    method ListAll(dir: Path) returns (names: seq<Name>)
      requires Valid() && IsDir(nodes, dir)
      ensures Ordering.Sorted(names) && multiset(names) == multiset(Children(nodes, dir))
    {
      names := ListDir(dir, ["*"], []);
      assert (set n | n in Children(nodes, dir) && Lists(glob, n, ["*"], [])) == Children(nodes, dir);
    }

    method Remove(paths: seq<Path>)
      requires Valid() && [] !in paths
      modifies this`nodes
      ensures Valid()
      ensures forall q :: Lookup(nodes, q) == if Covered(paths, q) then None else Lookup(old(nodes), q)
    {
      for i := 0 to |paths|
        invariant Valid()
        invariant Cleared(old(nodes), nodes, paths[..i])
      {
        hide WellFormed, Cleared;
        ghost var before := nodes;
        var path := paths[i];
        assert paths[..i + 1] == paths[..i] + [path];
        OneMoreCleared(old(nodes), before, paths[..i], path);
        if path in nodes {
          OsRemoveTree(path);
        }
      }
      assert paths[..|paths|] == paths;
    }

    method RemoveOne(path: Path)
      requires Valid() && path != []
      modifies this`nodes
      ensures Valid()
      ensures nodes == Without(old(nodes), path)
    {
      Remove([path]);
      assert path in [path];
      SameLookups(nodes, Without(old(nodes), path));
    }

    // Whatever stands at path, a directory included, makes way for the link.
    method MakeLink(path: Path, target: string) returns (r: Result<(), Error>)
      requires Valid() && path != []
      modifies this`nodes
      ensures Valid()
      ensures r.Ok? <==> ClearAbove(old(nodes), path)
      ensures r.Ok? ==> nodes == Without(Ancestors(path) + old(nodes), path)[path := Link(target)]
      ensures r.Err? ==> nodes == old(nodes)
    {
      hide Ancestors, WellFormed, DirsTo, ClearAbove;
      if ClearAbove(nodes, path) {
        ClearedSpot(nodes, path);
      } else {
        BlockedAbove(nodes, path);
      }
      r := MakeParentDir(path);
      if r.Ok? {
        RemoveOne(path);
        r := OsSymlink(target, path);
      }
    }

    // Merge from into the tree at given (or inside it) and say where it went.
    method Copy(from: Path, given: Path, inside: bool) returns (r: Result<Path, Error>)
      requires Valid()
      requires Disjoint(from, Destination(nodes, from, given, inside))
      requires NoConflict(nodes, from, Destination(nodes, from, given, inside))
      modifies this`nodes
      ensures Valid()
      ensures r.Ok? <==> CanCopy(old(nodes), from, old(Destination(nodes, from, given, inside)))
      ensures r.Ok? ==> r.value == old(Destination(nodes, from, given, inside))
      ensures r.Ok? ==> nodes == Merge(old(nodes), from, old(Destination(nodes, from, given, inside)))
      ensures r.Ok? ==> forall parent, n :: from == parent + [n] ==>
        r.value == if inside && given in old(nodes) && old(nodes)[given].Dir? then given + [n] else given
      ensures r.Ok? ==> forall q :: from + q in old(nodes) ==> Lookup(nodes, r.value + q) == Some(old(nodes)[from + q])
      ensures r.Err? ==> LeftBy(old(nodes), from, old(Destination(nodes, from, given, inside)), nodes)
      ensures r.Err? ==>
        Between(old(nodes), nodes, Merge(old(nodes), from, old(Destination(nodes, from, given, inside))))
      decreases Under(nodes, from), 1
    {
      hide WellFormed, Merge, Ancestors, NoConflict, ClearAbove, StopsAt, CopiedUpTo, LeftBy;
      var to := given;
      var done: Result<(), Error> := Ok(());
      ghost var was := nodes;
      if IsDir(nodes, given) && inside {
        to := given + [from[|from| - 1]];
        assert Parent(to) == given;
        AncestorsPresent(nodes, to);
      } else {
        done := MakeParentDir(to);
      }
      if done.Err? {
        BlockedLeaves(was, from, to);
        return Err(done.error);
      }
      DirStart(was, from, to);
      if IsDir(nodes, from) {
        done := CopyEntries(from, to, was);
      } else {
        done := CopyLeaf(from, to, was);
      }
      if done.Ok? {
        CopyLands(was, from, to);
      }
      r := if done.Ok? then Ok(to) else Err(done.error);
    }

    // The branch for a directory: each name in turn, then copystat.
    method CopyEntries(from: Path, to: Path, ghost was: Tree) returns (r: Result<(), Error>)
      requires Valid() && MayCopyDir(was, from, to)
      requires nodes == Ancestors(to) + was && (!ClearAbove(was, to) ==> nodes == was)
      modifies this`nodes
      ensures Valid()
      ensures r.Ok? <==> CanCopy(was, from, to)
      ensures r.Ok? ==> nodes == Merge(was, from, to)
      ensures r.Err? ==> LeftBy(was, from, to, nodes) && Between(was, nodes, Merge(was, from, to))
      decreases Under(nodes, from), 0
    {
      hide WellFormed, Merge, CanCopy, Ancestors, Between, NoConflict, PartMerge, Children, Disjoint, Copied, Under;
      hide LeftBy, ClearAbove, Ordering.Sorted;
      DirStart(was, from, to);
      var names := ListAll(from);
      ghost var done: set<Name> := {};
      for i := 0 to |names|
        invariant Valid()
        invariant nodes == Copied(was, from, to, done)
        invariant done == set n | n in names[..i]
        invariant forall n :: n in done ==> CanCopy(was, from + [n], to + [n])
      {
        var n := names[i];
        ListedInOrder(names, Children(was, from), i);
        NextChild(was, from, to, done, n);
        var child := Copy(from + [n], to + [n], false);
        if child.Err? {
          FailedChild(was, from, to, done, n, nodes);
          FailedChildLeaves(was, from, to, done, n, nodes);
          return Err(child.error);
        }
        done := done + {n};
      }
      ListedOnce(names, Children(was, from), |names|);
      AllChildren(was, from, to);
      if !CanCopy(was, from, to) {
        EmptyLeaves(was, from, to);
      }
      r := if to in nodes then Ok(()) else Err(NotFound);
    }

    method CopyLeaf(from: Path, to: Path, ghost was: Tree) returns (r: Result<(), Error>)
      requires Valid() && WellFormed(was) && !IsDir(was, from)
      requires Disjoint(from, to) && NoConflict(was, from, to)
      requires nodes == Ancestors(to) + was && (!ClearAbove(was, to) ==> nodes == was)
      modifies this`nodes
      ensures Valid()
      ensures r.Ok? <==> CanCopy(was, from, to)
      ensures r.Ok? ==> nodes == Merge(was, from, to)
      ensures r.Err? ==> LeftBy(was, from, to, nodes) && Between(was, nodes, Merge(was, from, to))
    {
      hide WellFormed, Merge, CanCopy, Ancestors, Between, ClearAbove, LeftBy;
      BlockedLeaves(was, from, to);
      CanCopyLeaf(was, from, to);
      LeafStart(was, from, to);
      AncestorsBetween(was, from, to);
      if from in was {
        MergeLeaf(was, from, to);
      }
      if from in nodes && nodes[from].Link? {
        if ClearAbove(was, to) {
          AncestorsAt(to, to);
          LeafSpot(was, to, nodes[from]);
        }
        r := MakeLink(to, nodes[from].target);
      } else {
        r := OsCopy2(from, to);
      }
    }

    // Copy, then remove the source; a copy that fails leaves the source alone.
    method Move(from: Path, given: Path, inside: bool) returns (r: Result<Path, Error>)
      requires Valid()
      requires Disjoint(from, Destination(nodes, from, given, inside))
      requires NoConflict(nodes, from, Destination(nodes, from, given, inside))
      modifies this`nodes
      ensures Valid()
      ensures r.Ok? <==> CanCopy(old(nodes), from, old(Destination(nodes, from, given, inside)))
      ensures r.Ok? ==> r.value == old(Destination(nodes, from, given, inside))
      ensures r.Ok? ==> nodes == MoveResult(old(nodes), from, old(Destination(nodes, from, given, inside)))
      ensures r.Ok? ==> forall parent, n :: from == parent + [n] ==>
        r.value == if inside && given in old(nodes) && old(nodes)[given].Dir? then given + [n] else given
      ensures r.Ok? ==> forall q :: from + q in old(nodes) ==> Lookup(nodes, r.value + q) == Some(old(nodes)[from + q])
      ensures r.Ok? ==> forall q :: from + q !in nodes
      ensures r.Err? ==> LeftBy(old(nodes), from, old(Destination(nodes, from, given, inside)), nodes)
      ensures r.Err? ==>
        Between(old(nodes), nodes, Merge(old(nodes), from, old(Destination(nodes, from, given, inside))))
      ensures r.Err? ==> forall p :: from <= p ==> Lookup(nodes, p) == Lookup(old(nodes), p)
    {
      hide WellFormed, Merge, CanCopy, NoConflict, Between, LeftBy;
      ghost var to := Destination(nodes, from, given, inside);
      r := Copy(from, given, inside);
      if r.Ok? {
        RemoveOne(from);
        MoveLands(old(nodes), from, to);
      } else {
        CopyKeepsSource(old(nodes), nodes, from, to);
      }
    }
  }
}
