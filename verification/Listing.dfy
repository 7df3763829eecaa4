// The filter loops of list_dir and find.
module Listing {
  import opened Ordering

  // How fnmatch relates a pattern (first) to a name (second).
  type Glob = (string, string) -> bool

  // One directory visited by os.walk.
  datatype Visit = Visit(root: string, dirs: seq<string>, files: seq<string>)

  predicate Keep(glob: Glob, name: string, included: seq<string>, excluded: seq<string>) {
    && (forall p :: p in included ==> glob(p, name))
    && (forall p :: p in excluded ==> !glob(p, name))
  }

  // The names that match every include pattern and no exclude pattern.
  function Selected(glob: Glob, names: seq<string>, included: seq<string>, excluded: seq<string>): seq<string> {
    if names == [] then []
    else
      (if Keep(glob, names[0], included, excluded) then [names[0]] else [])
      + Selected(glob, names[1..], included, excluded)
  }

  lemma SelectedMember(glob: Glob, names: seq<string>, included: seq<string>, excluded: seq<string>, n: string)
    ensures n in Selected(glob, names, included, excluded) <==> n in names && Keep(glob, n, included, excluded)
  {}

  lemma SelectedTwice(glob: Glob, names: seq<string>, i: seq<string>, e: seq<string>, i': seq<string>,
                      e': seq<string>)
    ensures Selected(glob, Selected(glob, names, i, e), i', e') == Selected(glob, names, i + i', e + e')
  {
    if names != [] {
      SelectedTwice(glob, names[1..], i, e, i', e');
      var tail := Selected(glob, names[1..], i, e);
      assert ([names[0]] + tail)[1..] == tail;
      assert [] + tail == tail;
    }
  }

  lemma SelectedSame(glob: Glob, names: seq<string>, i: seq<string>, e: seq<string>, i': seq<string>, e': seq<string>)
    requires forall p :: p in i <==> p in i'
    requires forall p :: p in e <==> p in e'
    ensures Selected(glob, names, i, e) == Selected(glob, names, i', e')
  {}

  lemma {:induction false} SelectedEvery(glob: Glob, names: seq<string>, pattern: string)
    requires forall n :: glob(pattern, n)
    ensures Selected(glob, names, [pattern], []) == names
  {
    if names != [] {
      SelectedEvery(glob, names[1..], pattern);
      assert names == [names[0]] + names[1..];
    }
  }

  // ---------- list.remove ----------

  function RemoveFirst(s: seq<string>, x: string): seq<string>
    requires x in s
  {
    if s[0] == x then s[1..] else [s[0]] + RemoveFirst(s[1..], x)
  }

  // names without its first k matches of pattern.
  ghost function DropMatches(glob: Glob, names: seq<string>, pattern: string, k: nat): seq<string> {
    if names == [] || k == 0 then names
    else if glob(pattern, names[0]) then DropMatches(glob, names[1..], pattern, k - 1)
    else [names[0]] + DropMatches(glob, names[1..], pattern, k)
  }

  // Removing the k-th match by value removes the k-th match by position, even
  // when names repeat.
  lemma {:induction false} RemoveNextMatch(glob: Glob, names: seq<string>, pattern: string, k: nat)
    requires k < |Selected(glob, names, [pattern], [])|
    ensures Selected(glob, names, [pattern], [])[k] in DropMatches(glob, names, pattern, k)
    ensures RemoveFirst(DropMatches(glob, names, pattern, k), Selected(glob, names, [pattern], [])[k])
         == DropMatches(glob, names, pattern, k + 1)
  {
    var matches := Selected(glob, names, [pattern], []);
    if Keep(glob, names[0], [pattern], []) {
      assert glob(pattern, names[0]);
      if k > 0 {
        RemoveNextMatch(glob, names[1..], pattern, k - 1);
      } else {
        assert DropMatches(glob, names[1..], pattern, 0) == names[1..];
      }
    } else {
      assert !glob(pattern, names[0]);
      RemoveNextMatch(glob, names[1..], pattern, k);
      SelectedMember(glob, names, [pattern], [], matches[k]);
      assert matches[k] != names[0];
      var rest := DropMatches(glob, names[1..], pattern, k);
      assert DropMatches(glob, names, pattern, k) == [names[0]] + rest by {
        if k == 0 { assert names == [names[0]] + names[1..]; }
      }
      assert ([names[0]] + rest)[1..] == rest;
    }
  }

  lemma {:induction false} DropAllMatches(glob: Glob, names: seq<string>, pattern: string)
    ensures DropMatches(glob, names, pattern, |Selected(glob, names, [pattern], [])|)
         == Selected(glob, names, [], [pattern])
  {
    if names != [] {
      DropAllMatches(glob, names[1..], pattern);
      assert Keep(glob, names[0], [pattern], []) <==> glob(pattern, names[0]);
      assert Keep(glob, names[0], [], [pattern]) <==> !glob(pattern, names[0]);
      if Selected(glob, names, [pattern], []) == [] {
        assert names == [names[0]] + names[1..];
      }
    }
  }

  // ---------- the loops ----------

  // for name in fnmatch.filter(names, pattern): names.remove(name)
  method RemoveMatches(glob: Glob, names: seq<string>, pattern: string) returns (left: seq<string>)
    ensures left == Selected(glob, names, [], [pattern])
  {
    left := names;
    var matches := Selected(glob, names, [pattern], []);
    for i := 0 to |matches|
      invariant left == DropMatches(glob, names, pattern, i)
    {
      RemoveNextMatch(glob, names, pattern, i);
      left := RemoveFirst(left, matches[i]);
    }
    DropAllMatches(glob, names, pattern);
  }

  // One include pattern, then all exclude patterns.
  method FilterRound(glob: Glob, names: seq<string>, pattern: string,
                     excluded: seq<string>) returns (left: seq<string>)
    ensures left == Selected(glob, names, [pattern], excluded)
  {
    left := Selected(glob, names, [pattern], []);
    for j := 0 to |excluded|
      invariant left == Selected(glob, names, [pattern], excluded[..j])
    {
      left := RemoveMatches(glob, left, excluded[j]);
      SelectedTwice(glob, names, [pattern], excluded[..j], [], [excluded[j]]);
      assert [pattern] + [] == [pattern];
      assert excluded[..j] + [excluded[j]] == excluded[..j + 1];
    }
    assert excluded[..|excluded|] == excluded;
  }

  // Round i of the include loop.
  method FilterAgain(glob: Glob, ghost all: seq<string>, names: seq<string>, included: seq<string>, i: nat,
                     excluded: seq<string>)
    returns (left: seq<string>)
    requires i < |included|
    requires i == 0 ==> names == all
    requires i > 0 ==> names == Selected(glob, all, included[..i], excluded)
    ensures left == Selected(glob, all, included[..i + 1], excluded)
  {
    left := FilterRound(glob, names, included[i], excluded);
    if i == 0 {
      assert included[..1] == [included[0]];
    } else {
      SelectedTwice(glob, all, included[..i], excluded, [included[i]], excluded);
      assert included[..i] + [included[i]] == included[..i + 1];
      SelectedSame(glob, all, included[..i + 1], excluded + excluded, included[..i + 1], excluded);
    }
  }

  // list_dir, given what os.listdir returned.
  method ListNames(glob: Glob, names: seq<string>, included: seq<string>, excluded: seq<string>)
    returns (r: seq<string>)
    ensures included != [] ==> r == Sort(Selected(glob, names, included, excluded))
    ensures included == [] ==> r == Sort(names)
  {
    var left := names;
    for i := 0 to |included|
      invariant i == 0 ==> left == names
      invariant i > 0 ==> left == Selected(glob, names, included[..i], excluded)
    {
      left := FilterAgain(glob, names, left, included, i, excluded);
    }
    assert included[..|included|] == included;
    r := Sort(left);
  }

  // os.path.join: the separator is added unless the root is empty or ends with it.
  function Join(root: string, name: string): string {
    if root == "" || root[|root| - 1] == '/' then root + name else root + "/" + name
  }

  // What find collects: the first include pattern alone decides.
  ghost function Found(glob: Glob, walk: seq<Visit>, included: seq<string>, excluded: seq<string>): set<string> {
    set v, x | v in walk && x in FoundIn(glob, v, included, excluded) :: x
  }

  ghost function FoundIn(glob: Glob, v: Visit, included: seq<string>, excluded: seq<string>): set<string> {
    if included == [] then {}
    else set n | n in Selected(glob, v.dirs + v.files, [included[0]], excluded) :: Join(v.root, n)
  }

  lemma {:induction false} FoundSnoc(glob: Glob, walk: seq<Visit>, k: nat, included: seq<string>,
                                     excluded: seq<string>)
    requires k < |walk|
    ensures Found(glob, walk[..k + 1], included, excluded)
         == Found(glob, walk[..k], included, excluded) + FoundIn(glob, walk[k], included, excluded)
  {
    assert forall v :: v in walk[..k + 1] <==> v in walk[..k] || v == walk[k];
  }

  // find, given what os.walk yields.
  method Find(glob: Glob, walk: seq<Visit>, included: seq<string>, excluded: seq<string>) returns (r: seq<string>)
    ensures Sorted(r) && multiset(r) == multiset(Found(glob, walk, included, excluded))
  {
    var found: set<string> := {};
    for k := 0 to |walk|
      invariant found == Found(glob, walk[..k], included, excluded)
    {
      var v := walk[k];
      var names := v.dirs + v.files;
      ghost var before := found;
      for i := 0 to |included|
        invariant i == 0 ==> names == v.dirs + v.files && found == before
        invariant i > 0 ==> names == Selected(glob, v.dirs + v.files, included[..i], excluded)
        invariant i > 0 ==> found == before + FoundIn(glob, v, included, excluded)
      {
        names := FilterAgain(glob, v.dirs + v.files, names, included, i, excluded);
        forall n | n in names ensures n in Selected(glob, v.dirs + v.files, [included[0]], excluded) {
          SelectedMember(glob, v.dirs + v.files, included[..i + 1], excluded, n);
          SelectedMember(glob, v.dirs + v.files, [included[0]], excluded, n);
          assert included[0] in included[..i + 1];
        }
        if i == 0 {
          assert included[..1] == [included[0]];
        }
        found := found + set n | n in names :: Join(v.root, n);
      }
      FoundSnoc(glob, walk, k, included, excluded);
    }
    assert walk[..|walk|] == walk;
    r := SortSet(found);
  }

  // What list_dir returns, name by name: with a pattern to include by, those
  // that match all include patterns and no exclude pattern; without one, all.
  lemma ListedExactly(glob: Glob, names: seq<string>, included: seq<string>, excluded: seq<string>, n: string)
    ensures var r := Sort(if included == [] then names else Selected(glob, names, included, excluded));
            var kept := included != [] ==>
              (forall p :: p in included ==> glob(p, n)) && (forall p :: p in excluded ==> !glob(p, n));
            && Sorted(r)
            && multiset(r)[n] == (if kept then multiset(names)[n] else 0) && (n in r <==> n in names && kept)
  {
    var left := if included == [] then names else Selected(glob, names, included, excluded);
    SortSorted(left);
    SelectedCounts(glob, names, included, excluded, n);
    assert n in Sort(left) <==> n in multiset(Sort(left));
    SelectedMember(glob, names, included, excluded, n);
  }

  lemma {:induction false} SelectedCounts(glob: Glob, names: seq<string>, included: seq<string>,
                                          excluded: seq<string>, n: string)
    ensures multiset(Selected(glob, names, included, excluded))[n]
         == if Keep(glob, n, included, excluded) then multiset(names)[n] else 0
  {
    if names != [] {
      SelectedCounts(glob, names[1..], included, excluded, n);
      assert names == [names[0]] + names[1..];
    }
  }

  lemma JoinIs(root: string, name: string)
    ensures Join(root, name) == root + (if root == "" || root[|root| - 1] == '/' then "" else "/") + name
  {
    assert root + "" == root;
  }

  lemma FoundByJoin(glob: Glob, walk: seq<Visit>, included: seq<string>, excluded: seq<string>, path: string)
    ensures path in Found(glob, walk, included, excluded) <==>
      exists v, n :: v in walk && n in v.dirs + v.files && path == Join(v.root, n) && included != []
        && glob(included[0], n) && !(exists p :: p in excluded && glob(p, n))
  {
    hide Join;
    if path in Found(glob, walk, included, excluded) {
      var v :| v in walk && path in FoundIn(glob, v, included, excluded);
      var n :| n in Selected(glob, v.dirs + v.files, [included[0]], excluded) && path == Join(v.root, n);
      SelectedMember(glob, v.dirs + v.files, [included[0]], excluded, n);
      assert included[0] in [included[0]];
    }
    if v, n :| v in walk && n in v.dirs + v.files && path == Join(v.root, n) && included != []
               && glob(included[0], n) && !(exists p :: p in excluded && glob(p, n))
    {
      SelectedMember(glob, v.dirs + v.files, [included[0]], excluded, n);
      assert path in FoundIn(glob, v, included, excluded);
    }
  }

  // What find returns, path by path: only the first include pattern and the
  // exclude patterns matter; without an include pattern, nothing is found.
  lemma FoundExactly(glob: Glob, walk: seq<Visit>, included: seq<string>, excluded: seq<string>, path: string)
    ensures path in Found(glob, walk, included, excluded) <==>
      exists v, n :: v in walk && n in v.dirs + v.files && included != []
        && glob(included[0], n) && !(exists p :: p in excluded && glob(p, n))
        && path == v.root + (if v.root == "" || v.root[|v.root| - 1] == '/' then "" else "/") + n
  {
    FoundByJoin(glob, walk, included, excluded, path);
    hide Join, Found;
    forall v: Visit, n
      ensures Join(v.root, n) == v.root + (if v.root == "" || v.root[|v.root| - 1] == '/' then "" else "/") + n
    {
      JoinIs(v.root, n);
    }
  }

  // The entries that list_dir keeps.
  ghost predicate Lists(glob: Glob, n: string, included: seq<string>, excluded: seq<string>) {
    included == [] || Keep(glob, n, included, excluded)
  }

  lemma ListsIs(glob: Glob, n: string, included: seq<string>, excluded: seq<string>)
    ensures Lists(glob, n, included, excluded) <==>
      (included != [] ==> (forall p :: p in included ==> glob(p, n)) && (forall p :: p in excluded ==> !glob(p, n)))
  {}

  // With distinct entries: each kept entry once, in order.
  lemma ListedOnceEach(glob: Glob, names: seq<string>, all: set<string>, included: seq<string>, excluded: seq<string>)
    requires multiset(names) == multiset(all)
    ensures var r := Sort(if included == [] then names else Selected(glob, names, included, excluded));
            Sorted(r) && multiset(r) == multiset(set n | n in all && Lists(glob, n, included, excluded))
  {
    var r := Sort(if included == [] then names else Selected(glob, names, included, excluded));
    var kept := set n | n in all && Lists(glob, n, included, excluded);
    ListedExactly(glob, names, included, excluded, "");
    forall n ensures multiset(r)[n] == multiset(kept)[n] {
      ListedExactly(glob, names, included, excluded, n);
      assert multiset(all)[n] == if n in all then 1 else 0;
    }
  }
}
