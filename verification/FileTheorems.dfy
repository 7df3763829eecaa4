// What copy and move promise about whole trees.
module FileTheorems {
  import opened Common
  import opened FileTree

  // Whether or not it succeeds, a copy leaves its source as it was.
  lemma {:induction false} CopyKeepsSource(t: Tree, left: Tree, from: Path, to: Path)
    requires Disjoint(from, to) && Between(t, left, Merge(t, from, to))
    ensures forall p :: from <= p ==> Lookup(left, p) == Lookup(t, p)
  {
    hide Merge;
    forall p | from <= p ensures Lookup(left, p) == Lookup(t, p) {
      MergeAt(t, from, to, p);
    }
  }

  // A finished copy is a fixed point: copying again succeeds and changes nothing.
  lemma {:induction false} CopyAgain(t: Tree, from: Path, to: Path)
    requires WellFormed(t) && Disjoint(from, to)
    requires NoConflict(t, from, to) && CanCopy(t, from, to)
    ensures var done := Merge(t, from, to);
            NoConflict(done, from, to) && CanCopy(done, from, to) && Merge(done, from, to) == done
  {
    hide Merge, WellFormed;
    var done := Merge(t, from, to);
    forall p | from <= p
      ensures Lookup(done, p) == Lookup(t, p)
      ensures p in t ==> Lookup(done, Relocate(p, from, to)) == Lookup(t, p)
    {
      MergeAt(t, from, to, p);
      MergeAt(t, from, to, Relocate(p, from, to));
      assert from + Relocate(p, from, to)[|to|..] == p;
    }
    forall p | p in done && from <= p && Relocate(p, from, to) in done
      ensures Replaceable(done[p], done[Relocate(p, from, to)])
    {
      assert Lookup(done, p) == Lookup(t, p);
    }
    forall q | q < to ensures q in done ==> done[q].Dir? {
      MergeAt(t, from, to, q);
    }
    forall q ensures Lookup(Merge(done, from, to), q) == Lookup(done, q) {
      MergeAt(done, from, to, q);
      MergeAt(t, from, to, q);
      if to <= q {
        assert Relocate(from + q[|to|..], from, to) == q;
        assert Lookup(done, from + q[|to|..]) == Lookup(t, from + q[|to|..]);
      }
    }
    SameLookups(Merge(done, from, to), done);
    forall d | from <= d && IsEmptyDir(done, d) ensures Relocate(d, from, to) in done {
      assert Lookup(done, d) == Lookup(t, d);
      assert Lookup(done, Relocate(d, from, to)) == Lookup(t, d);
    }
  }

  // Where the destination is new, copy succeeds just when the source exists,
  // only directories stand above the destination and no source directory is
  // empty.
  lemma FreshCopy(t: Tree, from: Path, to: Path)
    requires WellFormed(t) && Disjoint(from, to) && to !in t
    ensures CanCopy(t, from, to) <==>
      from in t && ClearAbove(t, to) && forall d :: from <= d ==> !IsEmptyDir(t, d)
  {
    NothingBelow(t, to);
    forall d | from <= d ensures Relocate(d, from, to) !in t {
      assert to <= Relocate(d, from, to);
    }
  }

  // An empty directory cannot be copied to a new place.
  lemma EmptyDirFails()
    ensures exists t: Tree ::
      WellFormed(t) && IsDir(t, ["a"]) && ["b"] !in t && ClearAbove(t, ["b"]) && !CanCopy(t, ["a"], ["b"])
  {
    var t: Tree := map[[] := Dir, ["a"] := Dir];
    assert Parent(["a"]) == [];
    assert IsEmptyDir(t, ["a"]) by {
      forall n: Name ensures ["a"] + [n] !in t {
        assert |["a"] + [n]| == 2;
      }
    }
    assert Relocate(["a"], ["a"], ["b"]) == ["b"];
    assert !CanCopy(t, ["a"], ["b"]);
  }

  // After a copy every entry of the source stands at the same place under to.
  lemma CopyLands(t: Tree, from: Path, to: Path)
    ensures forall r :: from + r in t ==> Lookup(Merge(t, from, to), to + r) == Some(t[from + r])
  {
    hide Merge;
    forall r | from + r in t ensures Lookup(Merge(t, from, to), to + r) == Some(t[from + r]) {
      MergeAt(t, from, to, to + r);
      assert (to + r)[|to|..] == r;
    }
  }

  // ---------- move ----------

  ghost function MoveResult(t: Tree, from: Path, to: Path): Tree {
    Without(Merge(t, from, to), from)
  }

  // After a move it does, and nothing is left at the source.
  lemma MoveLands(t: Tree, from: Path, to: Path)
    requires Disjoint(from, to)
    ensures forall r :: from + r in t ==> Lookup(MoveResult(t, from, to), to + r) == Some(t[from + r])
    ensures forall r :: from + r !in MoveResult(t, from, to)
  {
    hide Merge;
    CopyLands(t, from, to);
    forall r | from + r in t ensures !(from <= to + r) {
      PrefixesApart(to, from, to + r);
    }
  }

  function Renamed(p: Path, from: Path, to: Path): Path {
    if from <= p then Relocate(p, from, to) else p
  }

  lemma MoveResultAt(t: Tree, from: Path, to: Path, q: Path)
    ensures Lookup(MoveResult(t, from, to), q)
         == if from <= q then None
            else if to <= q && from + q[|to|..] in t then Some(t[from + q[|to|..]])
            else if q in t then Some(t[q])
            else if q < to then Some(Dir)
            else None
  {
    MergeAt(t, from, to, q);
  }

  // A move to a new place renames paths: every entry is found again, as it
  // was, under its new name; no two entries end up at one path; and nothing
  // else appears but directories above the destination.
  lemma {:induction false} MoveRenames(t: Tree, from: Path, to: Path)
    requires WellFormed(t) && Disjoint(from, to) && to !in t
    ensures forall p :: p in t ==> Lookup(MoveResult(t, from, to), Renamed(p, from, to)) == Some(t[p])
    ensures forall p, p' :: p in t && p' in t && Renamed(p, from, to) == Renamed(p', from, to) ==> p == p'
    ensures forall q :: q in MoveResult(t, from, to) ==>
      (exists p :: p in t && q == Renamed(p, from, to))
           || (q < to && q !in t && MoveResult(t, from, to)[q] == Dir)
  {
    hide MoveResult, WellFormed;
    NothingBelow(t, to);
    forall p | p in t ensures Lookup(MoveResult(t, from, to), Renamed(p, from, to)) == Some(t[p]) {
      RenamedEntry(t, from, to, p);
    }
    forall p, p' | p in t && p' in t && Renamed(p, from, to) == Renamed(p', from, to) ensures p == p' {
      if from <= p && from <= p' {
        assert p == from + Relocate(p, from, to)[|to|..];
        assert p' == from + Relocate(p', from, to)[|to|..];
      }
    }
    forall q | q in MoveResult(t, from, to)
      ensures (exists p :: p in t && q == Renamed(p, from, to))
           || (q < to && q !in t && MoveResult(t, from, to)[q] == Dir)
    {
      MoveResultAt(t, from, to, q);
      if to <= q && from + q[|to|..] in t {
        assert q == Renamed(from + q[|to|..], from, to);
      } else if q in t {
        assert q == Renamed(q, from, to);
      }
    }
  }

  lemma {:induction false} RenamedEntry(t: Tree, from: Path, to: Path, p: Path)
    requires WellFormed(t) && Disjoint(from, to) && to !in t && p in t
    ensures Lookup(MoveResult(t, from, to), Renamed(p, from, to)) == Some(t[p])
  {
    hide MoveResult, WellFormed;
    NothingBelow(t, to);
    var q := Renamed(p, from, to);
    MoveResultAt(t, from, to, q);
    if from <= p {
      assert from + q[|to|..] == p;
      PrefixesApart(to, from, q);
    }
  }

  lemma {:induction false} PrefixesApart(p: Path, p': Path, q: Path)
    requires Disjoint(p, p') && p <= q
    ensures !(p' <= q)
  {
    assert |p| <= |p'| <= |q| ==> q[..|p'|][..|p|] == q[..|p|];
    assert |p'| <= |p| ==> q[..|p|][..|p'|] == q[..|p'|];
  }

  // Moving back with inside=False is allowed, succeeds, and restores the tree
  // but for the ancestors the first move made.
  lemma {:induction false} MoveBack(t: Tree, from: Path, to: Path)
    requires WellFormed(t) && Disjoint(from, to) && to !in t
    requires CanCopy(t, from, to)
    ensures var moved := MoveResult(t, from, to);
            && WellFormed(moved)
            && Destination(moved, to, from, false) == from
            && NoConflict(moved, to, from)
            && CanCopy(moved, to, from)
            && MoveResult(moved, to, from) == Ancestors(to) + t
  {
    hide MoveResult, WellFormed;
    MovedWellFormed(t, from, to);
    MovedCanReturn(t, from, to);
    var moved := MoveResult(t, from, to);
    forall q ensures Lookup(MoveResult(moved, to, from), q) == Lookup(Ancestors(to) + t, q) {
      ReturnedAt(t, from, to, q);
    }
    SameLookups(MoveResult(moved, to, from), Ancestors(to) + t);
  }

  lemma {:induction false} MovedWellFormed(t: Tree, from: Path, to: Path)
    requires WellFormed(t) && Disjoint(from, to) && to !in t
    requires CanCopy(t, from, to)
    ensures WellFormed(MoveResult(t, from, to))
  {
    hide MoveResult, ClearAbove;
    var moved := MoveResult(t, from, to);
    MoveResultAt(t, from, to, []);
    forall q | q in moved && q != [] ensures IsDir(moved, Parent(q)) {
      MovedParent(t, from, to, q);
    }
  }

  lemma {:induction false} MovedParent(t: Tree, from: Path, to: Path, q: Path)
    requires WellFormed(t) && Disjoint(from, to) && to !in t && ClearAbove(t, to)
    requires q in MoveResult(t, from, to) && q != []
    ensures IsDir(MoveResult(t, from, to), Parent(q))
  {
    hide MoveResult;
    MoveResultAt(t, from, to, q);
    MoveResultAt(t, from, to, Parent(q));
    assert from <= Parent(q) ==> from <= q;
    NothingBelow(t, to);
    if to < q {
      assert to <= Parent(q);
      PrefixesApart(to, from, q);
      assert Parent(from + q[|to|..]) == from + Parent(q)[|to|..];
    } else if q == to {
      assert Parent(q) < to;
    } else {
      assert !(to <= q) && (q in t || q < to);
      assert !(to <= Parent(q));
      assert q < to ==> Parent(q) < to;
    }
  }

  lemma {:induction false} MovedCanReturn(t: Tree, from: Path, to: Path)
    requires WellFormed(t) && Disjoint(from, to) && to !in t
    requires CanCopy(t, from, to)
    ensures NoConflict(MoveResult(t, from, to), to, from) && CanCopy(MoveResult(t, from, to), to, from)
  {
    hide MoveResult, WellFormed;
    var moved := MoveResult(t, from, to);
    FreshCopy(t, from, to);
    forall q | from <= q ensures q !in moved {
      MoveResultAt(t, from, to, q);
    }
    MoveResultAt(t, from, to, to);
    assert from + to[|to|..] == from;
    forall q | q in moved && q < from ensures moved[q].Dir? {
      MoveResultAt(t, from, to, q);
      if q in t {
        AboveEntryIsDir(t, q, from);
      }
      assert to <= q ==> to <= from;
    }
    forall d | to <= d && IsEmptyDir(moved, d) ensures false {
      MovedDirNotEmpty(t, from, to, d);
    }
  }

  lemma {:induction false} MovedDirNotEmpty(t: Tree, from: Path, to: Path, d: Path)
    requires WellFormed(t) && Disjoint(from, to) && to !in t
    requires forall c :: from <= c ==> !IsEmptyDir(t, c)
    requires to <= d && IsDir(MoveResult(t, from, to), d)
    ensures !IsEmptyDir(MoveResult(t, from, to), d)
  {
    hide MoveResult, WellFormed;
    var c := from + d[|to|..];
    MoveResultAt(t, from, to, d);
    NothingBelow(t, to);
    PrefixesApart(to, from, d);
    assert IsDir(t, c) && from <= c && !IsEmptyDir(t, c);
    var n: Name :| c + [n] in t;
    PrefixesApart(to, from, d + [n]);
    MoveResultAt(t, from, to, d + [n]);
    assert from + (d + [n])[|to|..] == c + [n];
  }

  lemma {:induction false} ReturnedAt(t: Tree, from: Path, to: Path, q: Path)
    requires WellFormed(t) && Disjoint(from, to) && to !in t
    requires from in t
    ensures Lookup(MoveResult(MoveResult(t, from, to), to, from), q) == Lookup(Ancestors(to) + t, q)
  {
    hide MoveResult, WellFormed;
    var moved := MoveResult(t, from, to);
    NothingBelow(t, to);
    MoveResultAt(moved, to, from, q);
    MoveResultAt(t, from, to, q);
    AncestorsAt(to, q);
    if from <= q {
      PrefixesApart(from, to, q);
      var r := to + q[|from|..];
      MoveResultAt(t, from, to, r);
      PrefixesApart(to, from, r);
      assert from + r[|to|..] == q;
    } else if q < from {
      AboveEntryIsDir(t, q, from);
    }
  }
}
