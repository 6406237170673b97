/**
 * Every mutation the editor's segment walk performs keeps a forest valid: pushing a missing
 * folder, pushing or overwriting the leaf, and re-sorting the top-level list.
 */
module ForestFacts {
  import opened Common
  import opened FilePaths
  import opened FileForest

  /** A path that is not yet listed under `level` is not a node of a valid forest at all. */
  lemma {:induction false} FreshChild(f: Forest, level: string, name: string)
    requires Valid(f) && level in f.children && '/' !in name
    requires level + "/" + name !in f.children[level]
    ensures level + "/" + name !in f.items
    ensures level + "/" + name !in f.children
  {
    var path := level + "/" + name;
    ParentOfChild(level, name);
    assert path in f.items ==> WellPlaced(f, path);
  }

  /** Appending a path that is not yet in a list keeps the list free of duplicates. */
  lemma PushDistinct(s: seq<string>, x: string)
    requires NoDup(s) && x !in s
    ensures NoDup(s + [x])
  {
    assert multiset(s + [x]) == multiset(s) + multiset{x};
  }

  lemma {:induction false} AddFolderOwners(f: Forest, level: string, name: string)
    requires Valid(f) && level in f.children && '/' !in name
    requires level + "/" + name !in f.children[level]
    ensures Owners(AddFolder(f, level, level + "/" + name, name))
  {
    FreshChild(f, level, name);
  }

  lemma {:induction false} AddFolderDistinct(f: Forest, level: string, name: string)
    requires Valid(f) && level in f.children && '/' !in name
    requires level + "/" + name !in f.children[level]
    ensures Distinct(AddFolder(f, level, level + "/" + name, name))
  {
    var path := level + "/" + name;
    var g := AddFolder(f, level, path, name);
    assert level != path;
    assert g.children[level] == f.children[level] + [path];
    PushDistinct(f.children[level], path);
  }

  lemma {:induction false} AddFolderListed(f: Forest, level: string, name: string)
    requires Valid(f) && level in f.children && '/' !in name
    requires level + "/" + name !in f.children[level]
    ensures Listed(AddFolder(f, level, level + "/" + name, name))
  {
    var path := level + "/" + name;
    var g := AddFolder(f, level, path, name);
    ParentOfChild(level, name);
    assert level != path;
    assert g.children[level] == f.children[level] + [path];
    forall p, i | p in g.children && 0 <= i < |g.children[p]|
      ensures g.children[p][i] in g.items && ParentPath(g.children[p][i]) == p
    {
      if p == level && i < |f.children[level]| {
        assert g.children[p][i] == f.children[level][i];
      }
    }
  }

  lemma {:induction false} AddFolderPlaced(f: Forest, level: string, name: string)
    requires Valid(f) && level in f.children && '/' !in name
    requires level + "/" + name !in f.children[level]
    ensures Placed(AddFolder(f, level, level + "/" + name, name))
  {
    var path := level + "/" + name;
    var g := AddFolder(f, level, path, name);
    ParentOfChild(level, name);
    assert level != path;
    assert g.children[level] == f.children[level] + [path];
    forall q | q in g.items
      ensures WellPlaced(g, q)
    {
      if q != path {
        assert WellPlaced(f, q);
        assert ParentPath(q) == level ==> q in g.children[level];
      }
    }
  }

  lemma AddFolderValid(f: Forest, level: string, name: string)
    requires Valid(f) && level in f.children && '/' !in name
    requires level + "/" + name !in f.children[level]
    ensures Valid(AddFolder(f, level, level + "/" + name, name))
  {
    AddFolderOwners(f, level, name);
    AddFolderDistinct(f, level, name);
    AddFolderListed(f, level, name);
    AddFolderPlaced(f, level, name);
  }

  lemma {:induction false} PutLeafOwners(f: Forest, level: string, name: string, code: string)
    requires Valid(f) && level in f.children && '/' !in name
    ensures Owners(PutLeaf(f, level, level + "/" + name, name, code))
  {
    if level + "/" + name !in f.children[level] {
      FreshChild(f, level, name);
    }
  }

  lemma {:induction false} PutLeafDistinct(f: Forest, level: string, name: string, code: string)
    requires Valid(f) && level in f.children && '/' !in name
    ensures Distinct(PutLeaf(f, level, level + "/" + name, name, code))
  {
    var path := level + "/" + name;
    if path !in f.children[level] {
      PushDistinct(f.children[level], path);
    }
  }

  lemma {:induction false} PutLeafListed(f: Forest, level: string, name: string, code: string)
    requires Valid(f) && level in f.children && '/' !in name
    ensures Listed(PutLeaf(f, level, level + "/" + name, name, code))
  {
    var path := level + "/" + name;
    var g := PutLeaf(f, level, path, name, code);
    ParentOfChild(level, name);
    if path !in f.children[level] {
      assert g.children[level] == f.children[level] + [path];
      forall p, i | p in g.children && 0 <= i < |g.children[p]|
        ensures g.children[p][i] in g.items && ParentPath(g.children[p][i]) == p
      {
        if p == level && i < |f.children[level]| {
          assert g.children[p][i] == f.children[level][i];
        }
      }
    }
  }

  lemma {:induction false} PutLeafPlaced(f: Forest, level: string, name: string, code: string)
    requires Valid(f) && level in f.children && '/' !in name
    ensures Placed(PutLeaf(f, level, level + "/" + name, name, code))
  {
    var path := level + "/" + name;
    var g := PutLeaf(f, level, path, name, code);
    ParentOfChild(level, name);
    if path in f.children[level] {
      forall q | q in g.items
        ensures WellPlaced(g, q)
      {
        assert WellPlaced(f, q);
      }
    } else {
      assert g.children[level] == f.children[level] + [path];
      forall q | q in g.items
        ensures WellPlaced(g, q)
      {
        if q != path {
          assert WellPlaced(f, q);
          assert ParentPath(q) == level ==> q in g.children[level];
        }
      }
    }
  }

  /** The leaf step keeps the forest valid, whether it overwrites or pushes a new file. */
  lemma PutLeafValid(f: Forest, level: string, name: string, code: string)
    requires Valid(f) && level in f.children && '/' !in name
    ensures Valid(PutLeaf(f, level, level + "/" + name, name, code))
  {
    PutLeafOwners(f, level, name, code);
    PutLeafDistinct(f, level, name, code);
    PutLeafListed(f, level, name, code);
    PutLeafPlaced(f, level, name, code);
  }

  /** Re-sorting the top-level list keeps the forest valid. */
  lemma {:induction false} SortRootValid(f: Forest)
    requires Valid(f)
    ensures Valid(SortRoot(f))
  {
    var g := SortRoot(f);
    var before, after := f.children[Root], g.children[Root];
    assert multiset(after) == multiset(before);
    assert Distinct(g) by {
      forall p | p in g.children
        ensures NoDup(g.children[p])
      {
        if p == Root {
          assert forall x :: multiset(after)[x] == multiset(before)[x];
        }
      }
    }
    assert Listed(g) by {
      forall p, i | p in g.children && 0 <= i < |g.children[p]|
        ensures g.children[p][i] in g.items && ParentPath(g.children[p][i]) == p
      {
        if p == Root {
          var x := after[i];
          assert x in multiset(before);
          var m :| 0 <= m < |before| && before[m] == x;
        }
      }
    }
    assert Placed(g) by {
      forall q | q in g.items
        ensures WellPlaced(g, q)
      {
        assert WellPlaced(f, q);
        assert ParentPath(q) == Root ==> q in multiset(after);
      }
    }
  }

  /** No list of a valid forest holds two nodes with the same name. */
  lemma NamesDistinct(f: Forest, p: string, i: nat, j: nat)
    requires Valid(f) && p in f.children && i < j < |f.children[p]|
    ensures f.items[f.children[p][i]].name != f.items[f.children[p][j]].name
  {
    var x, y := f.children[p][i], f.children[p][j];
    NoDupDistinct(f.children[p], i, j);
    assert WellPlaced(f, x) && WellPlaced(f, y);
    assert x == p + "/" + f.items[x].name;
    assert y == p + "/" + f.items[y].name;
  }
}

/**
 * The whole segment walk of one `CreateFile` step, by induction on the remaining segments.
 */
module WalkFacts {
  import opened Common
  import opened FilePaths
  import opened FileForest
  import opened ForestFacts

  ghost predicate Slashless(rest: seq<string>) {
    forall i :: 0 <= i < |rest| ==> '/' !in rest[i]
  }

  /** The forest after a non-final segment: the folder found, or a new empty one pushed. */
  function Descend(f: Forest, level: string, name: string): Forest
    requires level in f.children
  {
    var path := level + "/" + name;
    if path in f.children[level] then f else AddFolder(f, level, path, name)
  }

  lemma DescendClosed(f: Forest, level: string, name: string)
    requires Closed(f) && level in f.children
    ensures var g := Descend(f, level, name);
      && Closed(g) && level + "/" + name in g.items && g.children.Keys >= f.children.Keys
      && (level + "/" + name !in f.children[level] ==>
            g.items[level + "/" + name].Folder? && g.children[level + "/" + name] == [])
  {
  }

  lemma {:induction false} DescendValid(f: Forest, level: string, name: string)
    requires Valid(f) && level in f.children && '/' !in name
    ensures Valid(Descend(f, level, name))
    ensures level + "/" + name in Descend(f, level, name).items
  {
    if level + "/" + name !in f.children[level] {
      AddFolderValid(f, level, name);
    }
  }

  lemma {:induction false} WalkValid(f: Forest, level: string, rest: seq<string>, code: string)
    requires Valid(f) && level in f.children && Slashless(rest)
    ensures Walk(f, level, rest, code).Some? ==> Valid(Walk(f, level, rest, code).value)
    decreases |rest|
  {
    if |rest| == 1 {
      PutLeafValid(f, level, rest[0], code);
    } else if |rest| > 1 {
      var path := level + "/" + rest[0];
      var g := Descend(f, level, rest[0]);
      DescendValid(f, level, rest[0]);
      if g.items[path].Folder? {
        WalkValid(g, path, rest[1..], code);
      }
    }
  }

  /** The step creates exactly the nodes on its path that were missing, and nothing else. */
  lemma {:induction false} WalkKeys(f: Forest, level: string, rest: seq<string>, code: string)
    requires Closed(f) && level in f.children
    requires Walk(f, level, rest, code).Some?
    ensures Walk(f, level, rest, code).value.items.Keys == f.items.Keys + PathSet(level, rest)
    decreases |rest|
  {
    if |rest| > 1 {
      var path := level + "/" + rest[0];
      var g := Descend(f, level, rest[0]);
      assert Walk(f, level, rest, code) == Walk(g, path, rest[1..], code);
      WalkKeys(g, path, rest[1..], code);
      assert path in f.children[level] ==> path in f.items;
      assert g.items.Keys == f.items.Keys + {path};
    }
  }

  /**
   * Along the walk, every path not yet listed under its parent is new: neither a node nor the
   * owner of a list.  `Valid` implies it (`ValidFreshAlong`); the walk lemmas below need only it.
   */
  ghost predicate FreshAlong(f: Forest, level: string, rest: seq<string>)
    requires Closed(f) && level in f.children
    decreases |rest|
  {
    |rest| == 0 ||
    var path := level + "/" + rest[0];
    && (path !in f.children[level] ==> path !in f.items && path !in f.children)
    && (|rest| > 1 ==>
          var g := Descend(f, level, rest[0]);
          g.items[path].File? || FreshAlong(g, path, rest[1..]))
  }

  lemma {:induction false} ValidFreshAlong(f: Forest, level: string, rest: seq<string>)
    requires Valid(f) && level in f.children && Slashless(rest)
    ensures FreshAlong(f, level, rest)
    decreases |rest|
  {
    if |rest| > 0 {
      var path := level + "/" + rest[0];
      if path !in f.children[level] {
        FreshChild(f, level, rest[0]);
      }
      if |rest| > 1 {
        var g := Descend(f, level, rest[0]);
        DescendValid(f, level, rest[0]);
        if g.items[path].Folder? {
          ValidFreshAlong(g, path, rest[1..]);
        }
      }
    }
  }

  /** Every node other than the leaf keeps its record: only the leaf's content is written. */
  lemma {:induction false} WalkKeepsOthers(f: Forest, level: string, rest: seq<string>, code: string, q: string)
    requires Closed(f) && level in f.children && FreshAlong(f, level, rest) && |rest| > 0
    requires Walk(f, level, rest, code).Some?
    requires q in f.items && q != Leaf(level, rest)
    ensures q in Walk(f, level, rest, code).value.items
    ensures Walk(f, level, rest, code).value.items[q] == f.items[q]
    decreases |rest|
  {
    if |rest| > 1 {
      var path := level + "/" + rest[0];
      var g := Descend(f, level, rest[0]);
      assert Walk(f, level, rest, code) == Walk(g, path, rest[1..], code);
      WalkKeepsOthers(g, path, rest[1..], code, q);
    }
  }

  /** The leaf: an existing node at the path gets the new content, otherwise a new file holds it. */
  lemma {:induction false} WalkLeaf(f: Forest, level: string, rest: seq<string>, code: string)
    requires Closed(f) && level in f.children && FreshAlong(f, level, rest) && |rest| > 0
    requires Walk(f, level, rest, code).Some?
    ensures var leaf, g := Leaf(level, rest), Walk(f, level, rest, code).value;
      && leaf in g.items
      && g.items[leaf] == if leaf in f.items then Overwrite(f.items[leaf], code)
                          else File(rest[|rest| - 1], leaf, code, LanguageOf(leaf))
    decreases |rest|
  {
    if |rest| > 1 {
      var path := level + "/" + rest[0];
      var g := Descend(f, level, rest[0]);
      assert Walk(f, level, rest, code) == Walk(g, path, rest[1..], code);
      WalkLeaf(g, path, rest[1..], code);
      PathsBelow(path, rest[1..]);
      assert Leaf(path, rest[1..]) in PathSet(path, rest[1..]);
      assert rest[1..][|rest[1..]| - 1] == rest[|rest| - 1];
    }
  }

  /** Every node on the way to the leaf is a folder afterwards. */
  lemma {:induction false} WalkFolders(f: Forest, level: string, rest: seq<string>, code: string, q: string)
    requires Closed(f) && level in f.children && FreshAlong(f, level, rest)
    requires Walk(f, level, rest, code).Some?
    requires q in InnerPaths(level, rest)
    ensures q in Walk(f, level, rest, code).value.items && Walk(f, level, rest, code).value.items[q].Folder?
    decreases |rest|
  {
    var path := level + "/" + rest[0];
    var g := Descend(f, level, rest[0]);
    assert Walk(f, level, rest, code) == Walk(g, path, rest[1..], code);
    if q == path {
      PathsBelow(path, rest[1..]);
      assert Leaf(path, rest[1..]) in PathSet(path, rest[1..]);
      WalkKeepsOthers(g, path, rest[1..], code, q);
    } else {
      WalkFolders(g, path, rest[1..], code, q);
    }
  }

  /**
   * Child lists are only pushed to: an existing list keeps its old entries as a prefix and
   * gains at most one path; lists other than those of the starting level and of the folders
   * on the way do not change.
   */
  lemma {:induction false} WalkChildren(f: Forest, level: string, rest: seq<string>, code: string, p: string)
    requires Closed(f) && level in f.children && FreshAlong(f, level, rest)
    requires Walk(f, level, rest, code).Some?
    requires p in f.children
    ensures var g := Walk(f, level, rest, code).value;
      && p in g.children
      && f.children[p] <= g.children[p]
      && |g.children[p]| <= |f.children[p]| + 1
      && (p != level && p !in InnerPaths(level, rest) ==> g.children[p] == f.children[p])
    decreases |rest|
  {
    if |rest| > 1 {
      var path := level + "/" + rest[0];
      var g := Descend(f, level, rest[0]);
      assert Walk(f, level, rest, code) == Walk(g, path, rest[1..], code);
      if p == level {
        PathsBelow(path, rest[1..]);
        assert forall q :: q in InnerPaths(path, rest[1..]) ==> q in PathSet(path, rest[1..]);
      }
      WalkChildren(g, path, rest[1..], code, p);
    }
  }

  /**
   * The walk fails exactly when a folder segment of the path names an existing file: that
   * file has no `children` list to descend into.
   */
  lemma {:induction false} WalkFails(f: Forest, level: string, rest: seq<string>, code: string)
    requires Closed(f) && level in f.children && FreshAlong(f, level, rest)
    ensures Walk(f, level, rest, code).None? <==>
              exists q :: q in InnerPaths(level, rest) && q in f.items && f.items[q].File?
    decreases |rest|
  {
    if |rest| > 1 {
      var path := level + "/" + rest[0];
      var g := Descend(f, level, rest[0]);
      if g.items[path].File? {
        assert path in InnerPaths(level, rest);
      } else {
        var inner := InnerPaths(path, rest[1..]);
        assert Walk(f, level, rest, code) == Walk(g, path, rest[1..], code);
        assert Walk(g, path, rest[1..], code).None? <==>
                 exists q :: q in inner && q in g.items && g.items[q].File? by {
          WalkFails(g, path, rest[1..], code);
        }
        assert path !in inner by {
          PathsBelow(path, rest[1..]);
          assert forall q :: q in inner ==> q in PathSet(path, rest[1..]);
        }
        assert InnerPaths(level, rest) == {path} + inner;
        assert !(path in f.items && f.items[path].File?);
        if exists q :: q in InnerPaths(level, rest) && q in f.items && f.items[q].File? {
          var q :| q in InnerPaths(level, rest) && q in f.items && f.items[q].File?;
          assert q in inner && q in g.items && g.items[q] == f.items[q];
        }
        if Walk(f, level, rest, code).None? {
          var q :| q in inner && q in g.items && g.items[q].File?;
          assert q != path && q in f.items && g.items[q] == f.items[q];
        }
      }
    }
  }
}
