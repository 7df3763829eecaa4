// What a copy that fails leaves behind.
module FailedCopies {
  import opened Common
  import opened FileTree
  import Ordering

  // copy visits a directory first, then what is in it, name by name in order.
  // Paths are relative to the source.
  predicate Before(p: Path, d: Path) {
    d != [] && (p == [] || if p[0] == d[0] then Before(p[1..], d[1..]) else Ordering.Le(p[0], d[0]))
  }

  // An empty source directory without a counterpart.
  ghost predicate Uncovered(t: Tree, from: Path, to: Path, d: Path) {
    IsEmptyDir(t, from + d) && to + d !in t
  }

  ghost predicate StopsAt(t: Tree, from: Path, to: Path, d: Path) {
    Uncovered(t, from, to, d) && forall e :: Uncovered(t, from, to, e) ==> !Before(e, d)
  }

  // All that comes before d has been merged, and nothing else.
  ghost function CopiedUpTo(t: Tree, from: Path, to: Path, d: Path): Tree {
    Ancestors(to) + t + ImageUpTo(t, from, to, d)
  }

  ghost function ImageUpTo(t: Tree, from: Path, to: Path, d: Path): Tree {
    map q | q in Image(t, from, to) && to <= q && Before(q[|to|..], d) :: Image(t, from, to)[q]
  }

  // The tree after a copy that fails: untouched if something other than a
  // directory stands above the destination, with its ancestors if there is no
  // source, and otherwise merged up to the first empty directory without a
  // counterpart.
  ghost predicate LeftBy(t: Tree, from: Path, to: Path, left: Tree) {
    if !ClearAbove(t, to) then left == t
    else if from !in t then left == Ancestors(to) + t
    else exists d :: StopsAt(t, from, to, d) && left == CopiedUpTo(t, from, to, d)
  }

  predicate BeforeAt(p: Path, d: Path, k: nat) {
    k < |p| && k < |d| && p[..k] == d[..k] && p[k] != d[k] && Ordering.Le(p[k], d[k])
  }

  lemma BeforeLater(p: Path, d: Path, k: nat)
    requires p != [] && d != [] && p[0] == d[0]
    ensures BeforeAt(p, d, k + 1) <==> BeforeAt(p[1..], d[1..], k)
  {
    if k < |p[1..]| && k < |d[1..]| {
      assert p[..k + 1] == [p[0]] + p[1..][..k] && d[..k + 1] == [d[0]] + d[1..][..k];
      assert p[1..][..k] == p[..k + 1][1..] && d[1..][..k] == d[..k + 1][1..];
    }
  }

  // What is above d comes before it; otherwise the first differing names decide.
  lemma {:induction false} BeforeIs(p: Path, d: Path)
    ensures Before(p, d) <==> p < d || exists k: nat :: BeforeAt(p, d, k)
  {
    if p != [] && d != [] {
      BeforeIs(p[1..], d[1..]);
      assert p == [p[0]] + p[1..] && d == [d[0]] + d[1..];
      assert p < d <==> p[0] == d[0] && p[1..] < d[1..];
      assert BeforeAt(p, d, 0) <==> p[0] != d[0] && Ordering.Le(p[0], d[0]);
      assert forall k: nat :: k > 0 && BeforeAt(p, d, k) ==> p[..k][0] == d[..k][0];
      if p[0] == d[0] {
        forall k: nat ensures BeforeAt(p, d, k + 1) <==> BeforeAt(p[1..], d[1..], k) {
          BeforeLater(p, d, k);
        }
        hide BeforeAt;
        if k: nat :| BeforeAt(p[1..], d[1..], k) {
          assert BeforeAt(p, d, k + 1);
        }
        if k: nat :| BeforeAt(p, d, k) {
          assert BeforeAt(p, d, k - 1 + 1) && BeforeAt(p[1..], d[1..], k - 1);
        }
      }
    }
  }

  // ---------- it is determined ----------

  lemma {:induction false} BeforeTotal(p: Path, d: Path)
    ensures p == d || Before(p, d) || Before(d, p)
  {
    if p != [] && d != [] {
      Ordering.LeTotal(p[0], d[0]);
      if p[0] == d[0] {
        BeforeTotal(p[1..], d[1..]);
        assert p == [p[0]] + p[1..] && d == [d[0]] + d[1..];
      }
    }
  }

  lemma OneOutcome(t: Tree, from: Path, to: Path, a: Tree, b: Tree)
    requires LeftBy(t, from, to, a) && LeftBy(t, from, to, b)
    ensures a == b
  {
    hide CopiedUpTo, Uncovered, Before;
    if ClearAbove(t, to) && from in t {
      var d :| StopsAt(t, from, to, d) && a == CopiedUpTo(t, from, to, d);
      var e :| StopsAt(t, from, to, e) && b == CopiedUpTo(t, from, to, e);
      BeforeTotal(d, e);
    }
  }

  lemma UpToAt(t: Tree, from: Path, to: Path, d: Path, q: Path)
    ensures Lookup(CopiedUpTo(t, from, to, d), q)
         == if to <= q && from + q[|to|..] in t && Before(q[|to|..], d) then Some(t[from + q[|to|..]])
            else if q in t then Some(t[q])
            else if q < to then Some(Dir)
            else None
  {
    hide Before, Image, Ancestors;
    ImageAt(t, from, to, q);
    AncestorsAt(to, q);
  }

  // ---------- it is a fixed point ----------

  // Copying again after a failure fails at the same place and changes nothing.
  lemma {:induction false} FailsAgain(t: Tree, from: Path, to: Path, left: Tree)
    requires Disjoint(from, to) && LeftBy(t, from, to, left)
    ensures LeftBy(left, from, to, left)
  {
    hide StopsAt, CopiedUpTo, Ancestors;
    if ClearAbove(t, to) && from !in t {
      forall q ensures Lookup(left, q) == if q in t then Some(t[q]) else if q < to then Some(Dir) else None {
        AncestorsAt(to, q);
      }
      assert Lookup(left, from) == None;
      assert forall q :: q in left && q < to ==> Lookup(left, q) == Some(Dir);
      assert Ancestors(to) + left == left;
    } else if ClearAbove(t, to) {
      var d :| StopsAt(t, from, to, d) && left == CopiedUpTo(t, from, to, d);
      SourceKept(t, from, to, d, from);
      forall q | q in left && q < to ensures left[q].Dir? {
        UpToAt(t, from, to, d, q);
      }
      StopsAgain(t, from, to, d);
      UpToAgain(t, from, to, d);
    }
  }

  lemma SourceKept(t: Tree, from: Path, to: Path, d: Path, p: Path)
    requires Disjoint(from, to) && from <= p
    ensures Lookup(CopiedUpTo(t, from, to, d), p) == Lookup(t, p)
  {
    UpToAt(t, from, to, d, p);
  }

  lemma StopsAgain(t: Tree, from: Path, to: Path, d: Path)
    requires Disjoint(from, to) && StopsAt(t, from, to, d)
    ensures StopsAt(CopiedUpTo(t, from, to, d), from, to, d)
  {
    hide CopiedUpTo;
    var left := CopiedUpTo(t, from, to, d);
    forall e ensures IsEmptyDir(left, from + e) <==> IsEmptyDir(t, from + e) {
      SourceKept(t, from, to, d, from + e);
      forall m: Name ensures from + e + [m] in left <==> from + e + [m] in t {
        SourceKept(t, from, to, d, from + e + [m]);
      }
    }
    forall e ensures to + e in t ==> to + e in left {
      UpToAt(t, from, to, d, to + e);
    }
    UpToAt(t, from, to, d, to + d);
    assert (to + d)[|to|..] == d;
    NotBeforeItself(d);
  }

  lemma {:induction false} NotBeforeItself(d: Path)
    ensures !Before(d, d)
  {
    if d != [] {
      NotBeforeItself(d[1..]);
    }
  }

  lemma {:induction false} UpToAgain(t: Tree, from: Path, to: Path, d: Path)
    requires Disjoint(from, to)
    ensures CopiedUpTo(CopiedUpTo(t, from, to, d), from, to, d) == CopiedUpTo(t, from, to, d)
  {
    hide CopiedUpTo, Before;
    var left := CopiedUpTo(t, from, to, d);
    forall q ensures Lookup(CopiedUpTo(left, from, to, d), q) == Lookup(left, q) {
      UpToAt(left, from, to, d, q);
      UpToAt(t, from, to, d, q);
      if to <= q {
        SourceKept(t, from, to, d, from + q[|to|..]);
      }
    }
    SameLookups(CopiedUpTo(left, from, to, d), left);
  }

  // ---------- one directory level ----------

  // The first name whose copy fails, those before it copied.
  ghost predicate FirstFailing(t: Tree, from: Path, to: Path, done: set<Name>, n: Name) {
    && n in Children(t, from) && n !in done
    && (forall m :: m in Children(t, from) && m != n && Ordering.Le(m, n) ==> m in done)
    && (forall m :: m in done ==> m != n && Ordering.Le(m, n) && CanCopy(t, from + [m], to + [m]))
    && !CanCopy(t, from + [n], to + [n])
  }

  // The copy of a directory stops where that of its first failing child does.
  lemma {:induction false} FailedChildLeaves(t: Tree, from: Path, to: Path, done: set<Name>, n: Name, left: Tree)
    requires MayCopyDir(t, from, to) && FirstFailing(t, from, to, done, n)
    requires !ClearAbove(t, to) ==> Ancestors(to) + t == t
    requires LeftBy(Copied(t, from, to, done), from + [n], to + [n], left)
    ensures LeftBy(t, from, to, left)
  {
    hide WellFormed, NoConflict, Children, PartMerge, CopiedUpTo, StopsAt, CanCopy, Ancestors, Before;
    var s := Copied(t, from, to, done);
    ChildClear(t, from, to, done, n);
    if !ClearAbove(t, to) {
      NoneDone(t, from, to, done, n);
    } else {
      ChildrenAt(t, from);
      PartMergeElsewhere(t, from, to, done, from + [n]);
      var e :| StopsAt(s, from + [n], to + [n], e) && left == CopiedUpTo(s, from + [n], to + [n], e);
      ChildStops(t, from, to, done, n, e);
      ChildLeaves(t, from, to, done, n, e);
    }
  }

  lemma ChildClear(t: Tree, from: Path, to: Path, done: set<Name>, n: Name)
    requires MayCopyDir(t, from, to) && n !in done
    ensures ClearAbove(Copied(t, from, to, done), to + [n]) <==> ClearAbove(t, to)
  {
    hide PartMerge, Ancestors, WellFormed, NoConflict;
    CounterpartIsDir(t, from, to);
    forall q | q < to + [n]
      ensures (q in Copied(t, from, to, done) ==> Copied(t, from, to, done)[q].Dir?) <==> (q in t ==> t[q].Dir?)
      ensures q == to || q < to
    {
      assert q <= to;
      PartMergeAt(Ancestors(to) + t, from, to, done, q);
      AncestorsAt(to, q);
    }
    if q :| q in t && q < to && !t[q].Dir? {
      assert q < to + [n];
    }
  }

  lemma NoneDone(t: Tree, from: Path, to: Path, done: set<Name>, n: Name)
    requires !ClearAbove(t, to) && FirstFailing(t, from, to, done, n)
    ensures done == {} && Copied(t, from, to, done) == Ancestors(to) + t
  {
    hide PartMerge, Ancestors, Children;
    var q :| q in t && q < to && !t[q].Dir?;
    if m :| m in done {
      assert CanCopy(t, from + [m], to + [m]) && q < to + [m];
    }
    PartMergeNone(Ancestors(to) + t, from, to);
  }

  // Below a child that is still to be copied nothing has changed.
  lemma ChildUncovered(t: Tree, from: Path, to: Path, done: set<Name>, n: Name, e: Path)
    requires n !in done && Disjoint(from, to)
    ensures Uncovered(Copied(t, from, to, done), from + [n], to + [n], e) <==> Uncovered(t, from, to, [n] + e)
  {
    hide PartMerge, Ancestors;
    var d := from + [n] + e;
    assert from + ([n] + e) == d && to + ([n] + e) == to + [n] + e;
    PartMergeElsewhere(t, from, to, done, d);
    PartMergeElsewhere(t, from, to, done, to + [n] + e);
    forall m: Name ensures d + [m] in Copied(t, from, to, done) <==> d + [m] in t {
      PartMergeElsewhere(t, from, to, done, d + [m]);
    }
  }

  lemma {:induction false} ChildStops(t: Tree, from: Path, to: Path, done: set<Name>, n: Name, e: Path)
    requires MayCopyDir(t, from, to) && FirstFailing(t, from, to, done, n)
    requires StopsAt(Copied(t, from, to, done), from + [n], to + [n], e)
    ensures StopsAt(t, from, to, [n] + e)
  {
    hide WellFormed, NoConflict, Children, Copied, Uncovered, Ordering.Le, CanCopy;
    ChildUncovered(t, from, to, done, n, e);
    forall x | Uncovered(t, from, to, x) ensures !Before(x, [n] + e) {
      NotTheTop(t, from, to, x, n);
      var (m, y) := (x[0], x[1..]);
      assert x == [m] + y && ([n] + e)[1..] == e;
      if m == n {
        ChildUncovered(t, from, to, done, n, y);
      } else if Ordering.Le(m, n) {
        CopiedCovers(t, from, to, m, y);
      }
    }
  }

  lemma NotTheTop(t: Tree, from: Path, to: Path, x: Path, n: Name)
    requires WellFormed(t) && n in Children(t, from) && Uncovered(t, from, to, x)
    ensures x != [] && x[0] in Children(t, from)
  {
    hide WellFormed, Children;
    ChildrenAt(t, from);
    assert x == [] ==> from + x == from;
    if x != [] {
      ChildOnTheWay(t, from, from + x);
    }
  }

  // A child that can be copied has no uncovered directory.
  lemma CopiedCovers(t: Tree, from: Path, to: Path, m: Name, y: Path)
    requires CanCopy(t, from + [m], to + [m])
    ensures !Uncovered(t, from, to, [m] + y)
  {
    var d := from + [m] + y;
    assert from + ([m] + y) == d && to + ([m] + y) == to + [m] + y;
    assert from + [m] <= d && Relocate(d, from + [m], to + [m]) == to + [m] + y;
  }

  lemma {:induction false} ChildLeaves(t: Tree, from: Path, to: Path, done: set<Name>, n: Name, e: Path)
    requires MayCopyDir(t, from, to) && FirstFailing(t, from, to, done, n)
    ensures CopiedUpTo(Copied(t, from, to, done), from + [n], to + [n], e) == CopiedUpTo(t, from, to, [n] + e)
  {
    hide *;
    var s := Copied(t, from, to, done);
    forall q
      ensures Lookup(CopiedUpTo(s, from + [n], to + [n], e), q) == Lookup(CopiedUpTo(t, from, to, [n] + e), q)
    {
      ChildLeavesAt(t, from, to, done, n, e, q);
    }
    SameLookups(CopiedUpTo(s, from + [n], to + [n], e), CopiedUpTo(t, from, to, [n] + e));
  }

  lemma {:induction false} ChildLeavesAt(t: Tree, from: Path, to: Path, done: set<Name>, n: Name, e: Path, q: Path)
    requires MayCopyDir(t, from, to) && FirstFailing(t, from, to, done, n)
    ensures Lookup(CopiedUpTo(Copied(t, from, to, done), from + [n], to + [n], e), q)
         == Lookup(CopiedUpTo(t, from, to, [n] + e), q)
  {
    hide CopiedUpTo, PartMerge, Ancestors, WellFormed, NoConflict, Children, CanCopy, Ordering.Le;
    var s := Copied(t, from, to, done);
    UpToAt(s, from + [n], to + [n], e, q);
    UpToAt(t, from, to, [n] + e, q);
    PartMergeAt(Ancestors(to) + t, from, to, done, q);
    AncestorsAt(to, q);
    assert q < to + [n] <==> q <= to;
    assert ([n] + e)[1..] == e;
    if to < q {
      var (r, p) := (q[|to|..], from + q[|to|..]);
      assert r[0] == q[|to|] && r[1..] == q[|to| + 1..];
      AncestorsAt(to, p);
      assert !(p < to) && from < p;
      if p in t {
        ChildOnTheWay(t, from, p);
      }
      if to + [n] <= q {
        assert from + [n] + q[|to| + 1..] == p;
        PartMergeElsewhere(t, from, to, done, p);
      }
    } else if q == to {
      CounterpartIsDir(t, from, to);
      assert from + q[|to|..] == from && q[|to|..] == [];
    }
  }

  lemma BlockedLeaves(t: Tree, from: Path, to: Path)
    ensures !ClearAbove(t, to) ==> LeftBy(t, from, to, t)
    ensures ClearAbove(t, to) && from !in t ==> LeftBy(t, from, to, Ancestors(to) + t)
  {}

  // Without children, a directory stops its own copy.
  lemma {:induction false} EmptyLeaves(t: Tree, from: Path, to: Path)
    requires MayCopyDir(t, from, to) && !CanCopy(t, from, to)
    requires forall n :: n in Children(t, from) ==> CanCopy(t, from + [n], to + [n])
    requires !ClearAbove(t, to) ==> Ancestors(to) + t == t
    ensures Copied(t, from, to, Children(t, from)) == Ancestors(to) + t
    ensures LeftBy(t, from, to, Ancestors(to) + t)
  {
    hide WellFormed, NoConflict, Children, CanCopy, Ancestors, PartMerge;
    CounterpartIsDir(t, from, to);
    CanCopyByChildren(t, from, to);
    PartMergeNone(Ancestors(to) + t, from, to);
    ChildrenAt(t, from);
    assert from + [] == from && to + [] == to;
    assert StopsAt(t, from, to, []);
    assert CopiedUpTo(t, from, to, []) == Ancestors(to) + t;
  }

  lemma ListedInOrder(names: seq<Name>, s: set<Name>, i: nat)
    requires Ordering.Sorted(names) && multiset(names) == multiset(s) && i < |names|
    ensures names[i] in s && names[i] !in names[..i]
    ensures forall m :: m in s && m != names[i] && Ordering.Le(m, names[i]) ==> m in names[..i]
    ensures forall m :: m in names[..i] ==> m != names[i] && Ordering.Le(m, names[i])
  {
    hide Ordering.Le;
    ListedOnce(names, s, i);
    forall m | m in s && m != names[i] && Ordering.Le(m, names[i]) ensures m in names[..i] {
      assert m in multiset(s) && m in names;
      var k :| 0 <= k < |names| && names[k] == m;
      Ordering.LeTotal(m, names[i]);
    }
  }
}
