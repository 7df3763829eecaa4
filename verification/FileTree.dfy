// The file-tree operations of plano: make_dir, copy, move, remove.
//
// A tree maps a path, the sequence of its component names, to the node found
// there.  [] is the directory that paths are resolved from; it always exists.
module FileTree {
  import opened Common

  type Name = string
  type Path = seq<Name>
  type Tree = map<Path, Node>

  datatype Node = File(content: string) | Dir | Link(target: string)

  datatype Error = NotFound | NotADirectory

  // ---------- trees ----------

  function Parent(p: Path): Path
    requires p != []
  {
    p[..|p| - 1]
  }

  predicate IsDir(t: Tree, p: Path) {
    p in t && t[p].Dir?
  }

  // Every entry sits in a directory.
  ghost predicate WellFormed(t: Tree) {
    IsDir(t, []) &&
    forall p {:trigger p in t} :: p in t && p != [] ==> IsDir(t, Parent(p))
  }

  function Lookup(t: Tree, p: Path): Option<Node> {
    if p in t then Some(t[p]) else None
  }

  // Neither path lies inside the other.
  predicate Disjoint(p: Path, q: Path) {
    !(p <= q) && !(q <= p)
  }

  // p, which lies under from, carried over to the same place under to.
  function Relocate(p: Path, from: Path, to: Path): Path
    requires from <= p
  {
    to + p[|from|..]
  }

  ghost function Under(t: Tree, p: Path): set<Path> {
    set q | q in t && p <= q
  }

  function Prefixes(p: Path): set<Path> {
    set i | 0 <= i <= |p| :: p[..i]
  }

  // The directories from the root down to p, p included.
  function DirsTo(p: Path): Tree {
    map q | q in Prefixes(p) :: Dir
  }

  // The directories above p.
  function Ancestors(p: Path): Tree {
    if p == [] then map[] else DirsTo(Parent(p))
  }

  // Some listed path leads to q.
  predicate Covered(paths: seq<Path>, q: Path) {
    exists p :: p in paths && p <= q
  }

  function Without(t: Tree, p: Path): Tree {
    map q | q in t && !(p <= q) :: t[q]
  }

  // What lies under from, seen from to.
  ghost function Image(t: Tree, from: Path, to: Path): Tree {
    map q | q in (set p | p in t && from <= p :: Relocate(p, from, to)) && from + q[|to|..] in t :: t[from + q[|to|..]]
  }

  // The merge that a successful copy leaves behind: the source's image wins
  // over what was there, what was there wins over newly made ancestors.
  ghost function Merge(t: Tree, from: Path, to: Path): Tree {
    Ancestors(to) + t + Image(t, from, to)
  }

  lemma AncestorsAt(p: Path, q: Path)
    ensures q in Ancestors(p) <==> q < p
    ensures q < p ==> Ancestors(p)[q] == Dir
  {
    if q < p {
      assert q == Parent(p)[..|q|];
    }
  }

  lemma DirsToAt(p: Path, q: Path)
    ensures q in DirsTo(p) <==> q <= p
    ensures q <= p ==> DirsTo(p)[q] == Dir
  {
    if q <= p {
      assert q == p[..|q|];
    }
  }

  lemma ImageAt(t: Tree, from: Path, to: Path, q: Path)
    ensures Lookup(Image(t, from, to), q) == if to <= q then Lookup(t, from + q[|to|..]) else None
  {
    if to <= q && from + q[|to|..] in t {
      assert Relocate(from + q[|to|..], from, to) == q;
    }
  }

  lemma MergeAt(t: Tree, from: Path, to: Path, q: Path)
    ensures Lookup(Merge(t, from, to), q)
         == if to <= q && from + q[|to|..] in t then Some(t[from + q[|to|..]])
            else if q in t then Some(t[q])
            else if q < to then Some(Dir)
            else None
  {
    ImageAt(t, from, to, q);
    AncestorsAt(to, q);
  }

  lemma SameLookups(a: Tree, b: Tree)
    requires forall q :: Lookup(a, q) == Lookup(b, q)
    ensures a == b
  {
    forall q ensures q in a <==> q in b {
      assert Lookup(a, q) == Lookup(b, q);
    }
    forall q | q in a ensures a[q] == b[q] {
      assert Lookup(a, q) == Lookup(b, q);
    }
  }

  // In a well-formed tree everything above an entry is a directory.
  lemma AboveEntryIsDir(t: Tree, p: Path, q: Path)
    requires WellFormed(t) && q in t && p < q
    ensures IsDir(t, p)
    decreases |q|
  {
    if p != Parent(q) {
      assert p <= Parent(q);
      AboveEntryIsDir(t, p, Parent(q));
    }
  }

  // ---------- what copy needs and does ----------

  // An entry that already stands where an image is to go has the same kind;
  // only a link may replace a file.
  ghost predicate NoConflict(t: Tree, from: Path, to: Path) {
    forall p :: p in t && from <= p && Relocate(p, from, to) in t ==> Replaceable(t[p], t[Relocate(p, from, to)])
  }

  predicate Replaceable(source: Node, there: Node) {
    match source
    case Dir => there.Dir?
    case File(_) => there.File?
    case Link(_) => !there.Dir?
  }

  // Nothing but directories stands above p.
  predicate ClearAbove(t: Tree, p: Path) {
    forall q :: q in t && q < p ==> t[q].Dir?
  }

  ghost predicate IsEmptyDir(t: Tree, d: Path) {
    IsDir(t, d) && forall n: Name :: d + [n] !in t
  }

  // When copy succeeds: the source exists, nothing but directories stands
  // above the destination, and every empty source directory already has a
  // counterpart.
  ghost predicate CanCopy(t: Tree, from: Path, to: Path) {
    && from in t
    && ClearAbove(t, to)
    && (forall d :: from <= d && IsEmptyDir(t, d) ==> Relocate(d, from, to) in t)
  }

  // b keeps every entry of a, except that some may have become as in goal.
  ghost predicate Between(a: Tree, b: Tree, goal: Tree) {
    && a.Keys <= b.Keys
    && forall q :: q in b ==> (q in a && b[q] == a[q]) || (q in goal && b[q] == goal[q])
  }

  ghost function Children(t: Tree, dir: Path): set<Name> {
    set p | p in t && p != [] && Parent(p) == dir :: p[|p| - 1]
  }

  // ---------- one directory level ----------

  // The tree after the children named in done have been merged.
  ghost function PartMerge(t: Tree, from: Path, to: Path, done: set<Name>): Tree {
    (if done == {} then map[] else DirsTo(to)) + t + PartImage(t, from, to, done)
  }

  ghost function PartImage(t: Tree, from: Path, to: Path, done: set<Name>): Tree {
    map q | q in Image(t, from, to) && |to| < |q| && q[|to|] in done :: Image(t, from, to)[q]
  }

  lemma {:induction false} PartMergeAt(t: Tree, from: Path, to: Path, done: set<Name>, q: Path)
    ensures Lookup(PartMerge(t, from, to, done), q)
         == if to < q && q[|to|] in done && from + q[|to|..] in t then Some(t[from + q[|to|..]])
            else if q in t then Some(t[q])
            else if done != {} && q <= to then Some(Dir)
            else None
  {
    ImageAt(t, from, to, q);
    DirsToAt(to, q);
  }

  // Merging one more child.
  lemma {:induction false} PartMergeStep(t: Tree, from: Path, to: Path, done: set<Name>, n: Name)
    requires Disjoint(from, to)
    ensures Merge(PartMerge(t, from, to, done), from + [n], to + [n]) == PartMerge(t, from, to, done + {n})
  {
    hide *;
    forall q
      ensures Lookup(Merge(PartMerge(t, from, to, done), from + [n], to + [n]), q)
           == Lookup(PartMerge(t, from, to, done + {n}), q)
    {
      PartMergeStepAt(t, from, to, done, n, q);
    }
    SameLookups(Merge(PartMerge(t, from, to, done), from + [n], to + [n]), PartMerge(t, from, to, done + {n}));
  }

  lemma {:induction false} PartMergeStepAt(t: Tree, from: Path, to: Path, done: set<Name>, n: Name, q: Path)
    requires Disjoint(from, to)
    ensures Lookup(Merge(PartMerge(t, from, to, done), from + [n], to + [n]), q)
         == Lookup(PartMerge(t, from, to, done + {n}), q)
  {
    hide PartMerge, Merge;
    var s := PartMerge(t, from, to, done);
    MergeAt(s, from + [n], to + [n], q);
    PartMergeAt(t, from, to, done + {n}, q);
    PartMergeAt(t, from, to, done, q);
    assert q < to + [n] <==> q <= to;
    if to + [n] <= q {
      var p := from + [n] + q[|to| + 1..];
      assert p == from + q[|to|..];
      PartMergeAt(t, from, to, done, p);
    }
  }

  lemma PartMergeNone(t: Tree, from: Path, to: Path)
    ensures PartMerge(t, from, to, {}) == t
  {}

  // Once all children are merged, the directory itself is.
  lemma {:induction false} PartMergeAll(t: Tree, made: Tree, from: Path, to: Path)
    requires WellFormed(t) && Disjoint(from, to)
    requires IsDir(t, from)
    requires made == Ancestors(to) + t
    requires Children(t, from) != {} || to in t
    requires to in t ==> t[to].Dir?
    ensures PartMerge(made, from, to, Children(t, from)) == Merge(t, from, to)
  {
    hide *;
    var names := Children(t, from);
    forall q ensures Lookup(PartMerge(made, from, to, names), q) == Lookup(Merge(t, from, to), q) {
      PartMergeAllAt(t, made, from, to, q);
    }
    SameLookups(PartMerge(made, from, to, names), Merge(t, from, to));
  }

  lemma {:induction false} PartMergeAllAt(t: Tree, made: Tree, from: Path, to: Path, q: Path)
    requires WellFormed(t) && Disjoint(from, to)
    requires IsDir(t, from)
    requires made == Ancestors(to) + t
    requires Children(t, from) != {} || to in t
    requires to in t ==> t[to].Dir?
    ensures Lookup(PartMerge(made, from, to, Children(t, from)), q) == Lookup(Merge(t, from, to), q)
  {
    hide PartMerge, Merge, Children, Ancestors, WellFormed;
    PartMergeAt(made, from, to, Children(t, from), q);
    MergeAt(t, from, to, q);
    AncestorsAt(to, q);
    assert Lookup(made, q) == if q in t then Some(t[q]) else if q < to then Some(Dir) else None;
    if to < q {
      var p := from + q[|to|..];
      AncestorsAt(to, p);
      assert !(p < to) && from < p;
      if p in t {
        ChildOnTheWay(t, from, p);
      }
    } else if q == to {
      assert from + q[|to|..] == from;
    } else {
      assert !(to <= q);
    }
  }

  // The name that follows from on the way to an entry below it is a child.
  lemma ChildOnTheWay(t: Tree, from: Path, p: Path)
    requires WellFormed(t) && p in t && from < p
    ensures p[|from|] in Children(t, from)
  {
    var c := p[..|from| + 1];
    if c != p {
      AboveEntryIsDir(t, c, p);
    }
    assert c in t && Parent(c) == from && c[|c| - 1] == p[|from|];
  }

  // ---------- what one child's copy does not disturb ----------

  // Outside the images of the done children, above them aside, a partial
  // merge still shows the tree as it was.
  lemma {:induction false} PartMergeElsewhere(t: Tree, from: Path, to: Path, done: set<Name>, q: Path)
    requires !(q <= to)
    requires to < q ==> q[|to|] !in done
    ensures Lookup(PartMerge(Ancestors(to) + t, from, to, done), q) == Lookup(t, q)
  {
    PartMergeAt(Ancestors(to) + t, from, to, done, q);
    AncestorsAt(to, q);
  }

  lemma {:induction false} ChildNoConflict(t: Tree, from: Path, to: Path, done: set<Name>, n: Name)
    requires Disjoint(from, to) && n !in done
    requires NoConflict(t, from, to)
    ensures NoConflict(PartMerge(Ancestors(to) + t, from, to, done), from + [n], to + [n])
  {
    hide PartMerge, Ancestors;
    var s := PartMerge(Ancestors(to) + t, from, to, done);
    forall p | p in s && from + [n] <= p && Relocate(p, from + [n], to + [n]) in s
      ensures Replaceable(s[p], s[Relocate(p, from + [n], to + [n])])
    {
      var q := Relocate(p, from + [n], to + [n]);
      assert q == Relocate(p, from, to);
      PartMergeElsewhere(t, from, to, done, p);
      PartMergeElsewhere(t, from, to, done, q);
      assert p in t && Relocate(p, from, to) in t;
    }
  }

  lemma {:induction false} ChildCanCopy(t: Tree, from: Path, to: Path, done: set<Name>, n: Name)
    requires Disjoint(from, to) && n !in done
    requires to in t ==> t[to].Dir?
    ensures CanCopy(PartMerge(Ancestors(to) + t, from, to, done), from + [n], to + [n])
       <==> CanCopy(t, from + [n], to + [n])
  {
    hide PartMerge, Ancestors;
    var s := PartMerge(Ancestors(to) + t, from, to, done);
    PartMergeElsewhere(t, from, to, done, from + [n]);
    forall q | q < to + [n]
      ensures (q in s ==> s[q].Dir?) <==> (q in t ==> t[q].Dir?)
    {
      assert q <= to;
      PartMergeAt(Ancestors(to) + t, from, to, done, q);
      AncestorsAt(to, q);
    }
    forall d | from + [n] <= d
      ensures IsEmptyDir(s, d) <==> IsEmptyDir(t, d)
      ensures Relocate(d, from + [n], to + [n]) in s <==> Relocate(d, from + [n], to + [n]) in t
    {
      PartMergeElsewhere(t, from, to, done, d);
      PartMergeElsewhere(t, from, to, done, Relocate(d, from + [n], to + [n]));
      forall m: Name ensures d + [m] in s <==> d + [m] in t {
        PartMergeElsewhere(t, from, to, done, d + [m]);
      }
    }
  }

  // Copying a directory succeeds when each child's copy does and, if there is
  // none, the counterpart already exists.
  lemma CanCopyByChildren(t: Tree, from: Path, to: Path)
    requires WellFormed(t) && IsDir(t, from)
    requires to in t ==> t[to].Dir?
    ensures CanCopy(t, from, to) <==>
      && (forall n :: n in Children(t, from) ==> CanCopy(t, from + [n], to + [n]))
      && (Children(t, from) == {} ==> to in t)
  {
    hide WellFormed, Children;
    ChildrenAt(t, from);
    if CanCopy(t, from, to) {
      forall n | n in Children(t, from)
        ensures CanCopy(t, from + [n], to + [n])
      {
        forall q | q in t && q < to + [n] ensures t[q].Dir? {
          assert q == to || q < to;
        }
        forall d | from + [n] <= d && IsEmptyDir(t, d) ensures Relocate(d, from + [n], to + [n]) in t {
          assert Relocate(d, from + [n], to + [n]) == Relocate(d, from, to);
        }
      }
      if Children(t, from) == {} {
        assert IsEmptyDir(t, from) && Relocate(from, from, to) == to;
      }
    } else {
      CanCopyFromChildren(t, from, to);
    }
  }

  lemma CanCopyFromChildren(t: Tree, from: Path, to: Path)
    requires WellFormed(t) && IsDir(t, from) && !CanCopy(t, from, to)
    ensures (exists n :: n in Children(t, from) && !CanCopy(t, from + [n], to + [n]))
         || (Children(t, from) == {} && to !in t)
  {
    hide WellFormed;
    if q :| q in t && q < to && !t[q].Dir? {
      if to in t {
        AboveEntryIsDir(t, q, to);
      }
      if n :| n in Children(t, from) {
        assert q < to + [n];
        assert !CanCopy(t, from + [n], to + [n]);
      }
    } else {
      var d :| from <= d && IsEmptyDir(t, d) && Relocate(d, from, to) !in t;
      UncoveredBelow(t, from, to, d);
    }
  }

  lemma UncoveredBelow(t: Tree, from: Path, to: Path, d: Path)
    requires WellFormed(t)
    requires from <= d && IsEmptyDir(t, d) && Relocate(d, from, to) !in t
    ensures (exists n :: n in Children(t, from) && !CanCopy(t, from + [n], to + [n]))
         || (Children(t, from) == {} && to !in t)
  {
    hide WellFormed, Children;
    if d == from {
      assert Relocate(d, from, to) == to;
      ChildrenAt(t, from);
    } else {
      var n := d[|from|];
      ChildOnTheWay(t, from, d);
      assert from + [n] <= d;
      assert Relocate(d, from + [n], to + [n]) == Relocate(d, from, to);
      assert !CanCopy(t, from + [n], to + [n]);
    }
  }

  lemma ChildrenAt(t: Tree, dir: Path)
    ensures forall n: Name :: n in Children(t, dir) <==> dir + [n] in t
  {
    forall n: Name | dir + [n] in t ensures n in Children(t, dir) {
      var p := dir + [n];
      assert Parent(p) == dir && p[|p| - 1] == n;
    }
    forall n | n in Children(t, dir) ensures dir + [n] in t {
      var p :| p in t && p != [] && Parent(p) == dir && p[|p| - 1] == n;
      assert p == dir + [n];
    }
  }

  lemma BetweenTrans(a: Tree, b: Tree, c: Tree, m: Tree, goal: Tree)
    requires Between(a, b, goal) && Between(a, m, goal) && Between(b, c, m)
    ensures Between(a, c, goal)
  {}

  lemma {:induction false} PartMergeBetween(t: Tree, from: Path, to: Path, done: set<Name>)
    requires Disjoint(from, to) && IsDir(t, from)
    ensures Between(t, PartMerge(Ancestors(to) + t, from, to, done), Merge(t, from, to))
  {
    hide PartMerge, Merge, Ancestors;
    var s := PartMerge(Ancestors(to) + t, from, to, done);
    forall q | q in t ensures q in s {
      PartMergeAt(Ancestors(to) + t, from, to, done, q);
    }
    forall q | q in s
      ensures (q in t && s[q] == t[q]) || (q in Merge(t, from, to) && s[q] == Merge(t, from, to)[q])
    {
      PartMergeAt(Ancestors(to) + t, from, to, done, q);
      MergeAt(t, from, to, q);
      AncestorsAt(to, q);
      if q == to {
        assert from + q[|to|..] == from;
      } else if to < q {
        var p := from + q[|to|..];
        AncestorsAt(to, p);
        assert !(p < to) && from < p;
      }
    }
  }

  // ---------- keeping the tree well formed ----------

  lemma MadeDirsWellFormed(t: Tree, dir: Path)
    requires WellFormed(t)
    requires ClearAbove(t, dir) && (dir in t ==> t[dir].Dir?)
    ensures WellFormed(DirsTo(dir) + t)
  {
    var s := DirsTo(dir) + t;
    forall p | p in s && p != [] ensures IsDir(s, Parent(p)) {
      DirsToAt(dir, p);
      DirsToAt(dir, Parent(p));
    }
  }

  lemma {:induction false} PutWellFormed(t: Tree, p: Path, n: Node)
    requires WellFormed(t) && p != [] && IsDir(t, Parent(p))
    requires n.Dir? || !IsDir(t, p)
    ensures WellFormed(t[p := n])
  {
    var s := t[p := n];
    forall q | q in s && q != [] ensures IsDir(s, Parent(q)) {
      if q != p {
        assert q in t;
      }
    }
  }

  lemma {:induction false} WithoutWellFormed(t: Tree, p: Path)
    requires WellFormed(t) && p != []
    ensures WellFormed(Without(t, p))
  {
    var s := Without(t, p);
    forall q | q in s && q != [] ensures IsDir(s, Parent(q)) {
      assert q in t;
      assert p <= Parent(q) ==> p <= q;
    }
  }

  lemma DirsToPresent(t: Tree, dir: Path)
    requires WellFormed(t) && dir in t
    ensures DirsTo(dir) + t == t
  {
    hide WellFormed;
    forall q ensures Lookup(DirsTo(dir) + t, q) == Lookup(t, q) {
      DirsToAt(dir, q);
      if q < dir {
        AboveEntryIsDir(t, q, dir);
      } else if q <= dir {
        assert q == dir;
      }
    }
    SameLookups(DirsTo(dir) + t, t);
  }

  // A merge whose source is one file or link.
  lemma {:induction false} MergeLeaf(t: Tree, from: Path, to: Path)
    requires WellFormed(t) && Disjoint(from, to)
    requires from in t && !t[from].Dir?
    ensures Merge(t, from, to) == (Ancestors(to) + t)[to := t[from]]
  {
    forall q ensures Lookup(Merge(t, from, to), q) == Lookup((Ancestors(to) + t)[to := t[from]], q) {
      MergeAt(t, from, to, q);
      AncestorsAt(to, q);
      if q == to {
        assert from + q[|to|..] == from;
      } else if to < q && from + q[|to|..] in t {
        AboveEntryIsDir(t, from, from + q[|to|..]);
      }
    }
    SameLookups(Merge(t, from, to), (Ancestors(to) + t)[to := t[from]]);
  }

  lemma CanCopyLeaf(t: Tree, from: Path, to: Path)
    requires WellFormed(t) && Disjoint(from, to)
    requires !IsDir(t, from)
    ensures CanCopy(t, from, to) <==> from in t && ClearAbove(t, to)
  {
    forall d | from <= d && IsEmptyDir(t, d) ensures false {
      if from != d {
        assert from < d;
        AboveEntryIsDir(t, from, d);
      }
    }
  }

  // Making the ancestors is a first step towards the merge.
  lemma {:induction false} AncestorsBetween(t: Tree, from: Path, to: Path)
    requires Disjoint(from, to)
    ensures Between(t, Ancestors(to) + t, Merge(t, from, to))
    ensures forall p :: from <= p ==> Lookup(Ancestors(to) + t, p) == Lookup(t, p)
  {
    forall q | q in Ancestors(to) + t
      ensures (q in t && (Ancestors(to) + t)[q] == t[q])
           || (q in Merge(t, from, to) && (Ancestors(to) + t)[q] == Merge(t, from, to)[q])
    {
      MergeAt(t, from, to, q);
      AncestorsAt(to, q);
    }
    forall p | from <= p ensures Lookup(Ancestors(to) + t, p) == Lookup(t, p) {
      AncestorsAt(to, p);
    }
  }

  lemma AncestorsPresent(t: Tree, p: Path)
    requires WellFormed(t) && p != [] && Parent(p) in t
    ensures Ancestors(p) + t == t
  {
    DirsToPresent(t, Parent(p));
  }

  lemma AncestorsAreDirs(t: Tree, p: Path)
    requires WellFormed(t) && p != []
    requires ClearAbove(t, p)
    ensures IsDir(Ancestors(p) + t, Parent(p))
  {
    AncestorsAt(p, Parent(p));
  }

  // Where copy puts its source.
  function Destination(t: Tree, from: Path, to: Path, inside: bool): Path {
    if IsDir(t, to) && inside && from != [] then to + [from[|from| - 1]] else to
  }

  lemma NothingBelow(t: Tree, p: Path)
    requires WellFormed(t) && p !in t
    ensures forall q :: p <= q ==> q !in t
  {
    forall q | p <= q ensures q !in t {
      if q in t {
        assert q != p && p < q;
        AboveEntryIsDir(t, p, q);
      }
    }
  }

  lemma CoveredSnoc(paths: seq<Path>, p: Path, q: Path)
    ensures Covered(paths + [p], q) <==> Covered(paths, q) || p <= q
  {
    if Covered(paths, q) {
      var r :| r in paths && r <= q;
      assert r in paths + [p];
    }
    if p <= q {
      assert p in paths + [p];
    }
  }

  lemma LeafRemoved(t: Tree, p: Path, n: Node)
    requires WellFormed(t) && !IsDir(t, p)
    ensures Without(t, p)[p := n] == t[p := n]
  {
    forall q | q in t && p <= q ensures q == p {
      if q != p {
        assert p < q;
        AboveEntryIsDir(t, p, q);
      }
    }
  }

  // Something other than a directory above p keeps p from existing.
  lemma BlockedAbove(t: Tree, p: Path)
    requires WellFormed(t) && p != [] && !ClearAbove(t, p)
    ensures p !in t && !IsDir(t, Parent(p))
    ensures Parent(p) in t || !ClearAbove(t, Parent(p))
    ensures Without(t, p) == t
  {
    var q :| q in t && q < p && !t[q].Dir?;
    if p in t {
      AboveEntryIsDir(t, q, p);
    }
    NothingBelow(t, p);
    if q != Parent(p) {
      assert q < Parent(p);
      if Parent(p) in t {
        AboveEntryIsDir(t, q, Parent(p));
      }
    }
  }

  // A spot whose ancestors are made and which is cleared can be filled.
  lemma ClearedSpot(t: Tree, p: Path)
    requires WellFormed(t) && p != [] && ClearAbove(t, p)
    ensures IsDir(Without(Ancestors(p) + t, p), Parent(p)) && p !in Without(Ancestors(p) + t, p)
  {
    MadeDirsWellFormed(t, Parent(p));
    AncestorsAreDirs(t, p);
  }

  // Clearing the spot of a leaf loses nothing but the leaf.
  lemma LeafSpot(t: Tree, p: Path, n: Node)
    requires WellFormed(t) && p != [] && !IsDir(t, p) && ClearAbove(t, p)
    ensures Without(Ancestors(p) + t, p)[p := n] == (Ancestors(p) + t)[p := n]
  {
    MadeDirsWellFormed(t, Parent(p));
    AncestorsAt(p, p);
    LeafRemoved(Ancestors(p) + t, p, n);
  }

  // ---------- the loop over a directory's names ----------

  // What copying a directory starts from.
  ghost predicate MayCopyDir(t: Tree, from: Path, to: Path) {
    WellFormed(t) && Disjoint(from, to) && NoConflict(t, from, to) && IsDir(t, from)
  }

  ghost function Copied(t: Tree, from: Path, to: Path, done: set<Name>): Tree {
    PartMerge(Ancestors(to) + t, from, to, done)
  }

  lemma CounterpartIsDir(t: Tree, from: Path, to: Path)
    requires MayCopyDir(t, from, to)
    ensures to in t ==> t[to].Dir?
  {
    assert Relocate(from, from, to) == to;
  }

  lemma ChildDisjoint(from: Path, to: Path, n: Name)
    requires Disjoint(from, to)
    ensures Disjoint(from + [n], to + [n])
  {
    assert |from| <= |to| ==> (to + [n])[..|from|] == to[..|from|];
    assert |to| <= |from| ==> (from + [n])[..|to|] == from[..|to|];
  }

  lemma {:induction false} NextChild(t: Tree, from: Path, to: Path, done: set<Name>, n: Name)
    requires MayCopyDir(t, from, to) && n !in done
    ensures Disjoint(from + [n], to + [n])
    ensures NoConflict(Copied(t, from, to, done), from + [n], to + [n])
    ensures Under(Copied(t, from, to, done), from + [n]) < Under(Ancestors(to) + t, from)
    ensures CanCopy(Copied(t, from, to, done), from + [n], to + [n]) <==> CanCopy(t, from + [n], to + [n])
    ensures Merge(Copied(t, from, to, done), from + [n], to + [n]) == Copied(t, from, to, done + {n})
  {
    hide WellFormed, PartMerge, Merge, CanCopy, NoConflict, Ancestors;
    CounterpartIsDir(t, from, to);
    ChildDisjoint(from, to, n);
    ChildNoConflict(t, from, to, done, n);
    ChildCanCopy(t, from, to, done, n);
    PartMergeStep(Ancestors(to) + t, from, to, done, n);
    forall q | from + [n] <= q && q in Copied(t, from, to, done) ensures q in Ancestors(to) + t {
      PartMergeElsewhere(t, from, to, done, q);
    }
    assert from in Under(Ancestors(to) + t, from) && from !in Under(Copied(t, from, to, done), from + [n]);
  }

  // A child whose copy fails leaves the whole copy part done.
  lemma {:induction false} FailedChild(t: Tree, from: Path, to: Path, done: set<Name>, n: Name, left: Tree)
    requires MayCopyDir(t, from, to) && n in Children(t, from)
    requires !CanCopy(t, from + [n], to + [n])
    requires Between(Copied(t, from, to, done), left, Copied(t, from, to, done + {n}))
    ensures !CanCopy(t, from, to) && Between(t, left, Merge(t, from, to))
  {
    hide WellFormed, PartMerge, Merge, CanCopy, Children, Ancestors, Between;
    CounterpartIsDir(t, from, to);
    CanCopyByChildren(t, from, to);
    PartMergeBetween(t, from, to, done);
    PartMergeBetween(t, from, to, done + {n});
    BetweenTrans(t, Copied(t, from, to, done), left, Copied(t, from, to, done + {n}), Merge(t, from, to));
  }

  lemma {:induction false} AllChildren(t: Tree, from: Path, to: Path)
    requires MayCopyDir(t, from, to)
    requires forall n :: n in Children(t, from) ==> CanCopy(t, from + [n], to + [n])
    ensures CanCopy(t, from, to) <==> to in Copied(t, from, to, Children(t, from))
    ensures CanCopy(t, from, to) ==> Copied(t, from, to, Children(t, from)) == Merge(t, from, to)
    ensures Between(t, Copied(t, from, to, Children(t, from)), Merge(t, from, to))
  {
    hide WellFormed, PartMerge, Merge, CanCopy, Children, Ancestors, Between, NoConflict;
    CounterpartIsDir(t, from, to);
    CanCopyByChildren(t, from, to);
    PartMergeBetween(t, from, to, Children(t, from));
    PartMergeAt(Ancestors(to) + t, from, to, Children(t, from), to);
    AncestorsAt(to, to);
    if CanCopy(t, from, to) {
      PartMergeAll(t, Ancestors(to) + t, from, to);
    }
  }

  // The state in which the directory branch starts.
  lemma {:induction false} DirStart(t: Tree, from: Path, to: Path)
    requires WellFormed(t) && Disjoint(from, to)
    ensures Under(Ancestors(to) + t, from) == Under(t, from)
    ensures IsDir(Ancestors(to) + t, from) <==> IsDir(t, from)
    ensures Children(Ancestors(to) + t, from) == Children(t, from)
    ensures Copied(t, from, to, {}) == Ancestors(to) + t
  {
    hide Children, Ancestors, WellFormed;
    AncestorsBetween(t, from, to);
    SameBelow(Ancestors(to) + t, t, from);
    PartMergeNone(Ancestors(to) + t, from, to);
  }

  lemma SameBelow(s: Tree, t: Tree, dir: Path)
    requires forall p :: dir <= p ==> Lookup(s, p) == Lookup(t, p)
    ensures IsDir(s, dir) <==> IsDir(t, dir)
    ensures Under(s, dir) == Under(t, dir) && Children(s, dir) == Children(t, dir)
  {
    hide Children;
    assert Lookup(s, dir) == Lookup(t, dir);
    forall p | dir <= p ensures p in s <==> p in t {
      assert Lookup(s, p) == Lookup(t, p);
    }
    ChildrenAt(t, dir);
    ChildrenAt(s, dir);
    forall n: Name ensures n in Children(s, dir) <==> n in Children(t, dir) {
      assert dir <= dir + [n];
    }
  }

  // The state in which the branches for files and links start.
  lemma LeafStart(t: Tree, from: Path, to: Path)
    requires WellFormed(t) && !IsDir(t, from) && to != []
    requires Disjoint(from, to) && NoConflict(t, from, to)
    requires WellFormed(Ancestors(to) + t)
    ensures Lookup(Ancestors(to) + t, from) == Lookup(t, from)
    ensures from in t && to in t ==> Replaceable(t[from], t[to])
    ensures Lookup(Ancestors(to) + t, to) == Lookup(t, to)
    ensures IsDir(Ancestors(to) + t, Parent(to)) <==> ClearAbove(t, to)
    ensures ClearAbove(Ancestors(to) + t, to) <==> ClearAbove(t, to)
    ensures Ancestors(to) + (Ancestors(to) + t) == Ancestors(to) + t
  {
    hide WellFormed, Ancestors, ClearAbove;
    AncestorsBetween(t, from, to);
    AncestorsAt(to, to);
    MadeAbove(t, to);
    assert Relocate(from, from, to) == to;
    assert Ancestors(to) + (Ancestors(to) + t) == Ancestors(to) + t;
  }

  // Making ancestors turns p's parent into a directory just when nothing else
  // was in the way.
  lemma MadeAbove(t: Tree, p: Path)
    requires p != [] && WellFormed(t) && WellFormed(Ancestors(p) + t)
    ensures IsDir(Ancestors(p) + t, Parent(p)) <==> ClearAbove(t, p)
    ensures ClearAbove(Ancestors(p) + t, p) <==> ClearAbove(t, p)
  {
    hide WellFormed, Ancestors;
    var made := Ancestors(p) + t;
    forall q | q < p ensures q in made && made[q] == if q in t then t[q] else Dir {
      AncestorsAt(p, q);
    }
    if q :| q in t && q < p && !t[q].Dir? {
      if IsDir(made, Parent(p)) && q != Parent(p) {
        assert q < Parent(p);
        AboveEntryIsDir(made, q, Parent(p));
      }
    }
  }

  lemma ListedOnce(names: seq<Name>, s: set<Name>, i: nat)
    requires multiset(names) == multiset(s) && i <= |names|
    ensures i < |names| ==> names[i] !in names[..i] && names[i] in s
    ensures i == |names| ==> s == set n | n in names[..i]
  {
    forall n ensures n in names <==> n in s {
      assert n in names <==> n in multiset(names);
      assert n in s <==> n in multiset(s);
    }
    if i < |names| {
      assert names == names[..i] + [names[i]] + names[i + 1..];
      assert multiset(names)[names[i]] >= multiset(names[..i])[names[i]] + 1;
    }
    assert names[..|names|] == names;
  }
}
