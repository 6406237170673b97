/**
 * What one `CreateFile` step does to the forest as a whole: the walk from the top-level list
 * followed by the re-sort of that list.
 */
module StepFacts {
  import opened Common
  import opened FilePaths
  import opened FileForest
  import opened ForestFacts
  import opened WalkFacts

  /** The path of the node a step's path string names: "/" followed by the string. */
  function NodePath(s: string): string {
    "/" + s
  }

  lemma SegmentsSlashless(path: Option<string>)
    ensures Slashless(Segments(path))
  {
  }

  /** The walk from the top-level list ends at the node `NodePath(s)`. */
  lemma LeafOfStep(s: string)
    ensures Leaf(Root, Split(s)) == NodePath(s)
  {
    LeafIsJoin(Root, Split(s));
    assert Root + "/" == "/";
  }

  /** A step that succeeds is a walk that succeeds; the re-sort leaves the nodes alone. */
  lemma ApplyUnfold(f: Forest, s: string, code: string)
    requires Closed(f) && Root in f.children && Apply(f, Some(s), code).Some?
    ensures Walk(f, Root, Split(s), code).Some?
    ensures Apply(f, Some(s), code).value.items == Walk(f, Root, Split(s), code).value.items
  {
    assert Segments(Some(s)) == Split(s);
  }

  lemma ApplyKeepsValid(f: Forest, path: Option<string>, code: string)
    requires Valid(f) && Apply(f, path, code).Some?
    ensures Valid(Apply(f, path, code).value)
  {
    WalkValid(f, Root, Segments(path), code);
    SortRootValid(Walk(f, Root, Segments(path), code).value);
  }

  /** A step keeps the forest valid and leaves the top-level list sorted. */
  lemma ApplyValid(f: Forest, path: Option<string>, code: string)
    requires Valid(f)
    ensures Apply(f, path, code).Some? ==>
              && Valid(Apply(f, path, code).value)
              && Sorted(Apply(f, path, code).value.children[Root], Apply(f, path, code).value.items)
  {
    var segs := Segments(path);
    WalkValid(f, Root, segs, code);
    var w := Walk(f, Root, segs, code);
    if w.Some? {
      SortRootValid(w.value);
      SortTopSorted(w.value.children[Root], w.value.items);
    }
  }

  /**
   * A step fails (the effect throws) exactly when one of the folders on its path is an
   * existing file.
   */
  lemma ApplyFails(f: Forest, path: Option<string>, code: string)
    requires Valid(f)
    ensures Apply(f, path, code).None? <==>
              exists q :: q in InnerPaths(Root, Segments(path)) && q in f.items && f.items[q].File?
  {
    ValidFreshAlong(f, Root, Segments(path));
    WalkFails(f, Root, Segments(path), code);
  }

  /** The nodes after a step are the nodes before it plus every node on the step's path. */
  lemma ApplyKeys(f: Forest, path: Option<string>, code: string)
    requires Valid(f) && Apply(f, path, code).Some?
    ensures Apply(f, path, code).value.items.Keys == f.items.Keys + PathSet(Root, Segments(path))
  {
    WalkKeys(f, Root, Segments(path), code);
  }

  /**
   * The step's own node: it is found at "/" + path; an existing node there keeps its kind and
   * gets the step's code, otherwise a new file named by the last segment holds it, with the
   * language of its extension.
   */
  lemma ApplyLeaf(f: Forest, s: string, code: string)
    requires Valid(f) && Apply(f, Some(s), code).Some?
    ensures var g, leaf, segs := Apply(f, Some(s), code).value, NodePath(s), Split(s);
      && leaf in g.items
      && g.items[leaf] == if leaf in f.items then Overwrite(f.items[leaf], code)
                          else File(segs[|segs| - 1], leaf, code, LanguageOf(leaf))
  {
    ValidFreshAlong(f, Root, Split(s));
    ApplyLeafFresh(f, s, code);
  }

  lemma ApplyLeafFresh(f: Forest, s: string, code: string)
    requires Closed(f) && Root in f.children && FreshAlong(f, Root, Split(s))
    requires Apply(f, Some(s), code).Some?
    ensures var g, leaf, segs := Apply(f, Some(s), code).value, NodePath(s), Split(s);
      && leaf in g.items
      && g.items[leaf] == if leaf in f.items then Overwrite(f.items[leaf], code)
                          else File(segs[|segs| - 1], leaf, code, LanguageOf(leaf))
  {
    var segs := Split(s);
    var g := Apply(f, Some(s), code).value;
    assert Walk(f, Root, segs, code).Some? && g.items == Walk(f, Root, segs, code).value.items by {
      ApplyUnfold(f, s, code);
    }
    assert Leaf(Root, segs) == NodePath(s) by {
      LeafOfStep(s);
    }
    WalkLeaf(f, Root, segs, code);
  }

  /** Every node off the step's own node keeps its record. */
  lemma ApplyKeepsOthers(f: Forest, path: Option<string>, code: string, q: string)
    requires Valid(f) && Apply(f, path, code).Some?
    requires q in f.items && (path.Some? ==> q != NodePath(path.value))
    ensures q in Apply(f, path, code).value.items
    ensures Apply(f, path, code).value.items[q] == f.items[q]
  {
    if path.Some? {
      ValidFreshAlong(f, Root, Segments(path));
      LeafOfStep(path.value);
      WalkKeepsOthers(f, Root, Segments(path), code, q);
    }
  }

  /** The path of the folder reached after the first `k` segments. */
  lemma {:induction false} InnerPathOf(from: string, rest: seq<string>, k: nat)
    requires 0 < k < |rest|
    ensures from + "/" + Join(rest[..k]) in InnerPaths(from, rest)
    decreases |rest|
  {
    var head := from + "/" + rest[0];
    assert InnerPaths(from, rest) == {head} + InnerPaths(head, rest[1..]);
    if k == 1 {
      assert rest[..1] == [rest[0]];
    } else {
      InnerPathOf(head, rest[1..], k - 1);
      var prefix := rest[..k];
      assert prefix[1..] == rest[1..][..k - 1];
      assert Join(prefix) == rest[0] + "/" + Join(prefix[1..]);
      assert from + "/" + Join(prefix) == head + "/" + Join(rest[1..][..k - 1]);
    }
  }

  /**
   * After a step, the folders on its path exist: for every proper prefix of the segments there
   * is a folder at "/" followed by that prefix joined with "/", named by the prefix's last
   * segment.
   */
  lemma ApplyFolders(f: Forest, s: string, code: string, k: nat)
    requires Valid(f) && Apply(f, Some(s), code).Some?
    requires 0 < k < |Split(s)|
    ensures var g, q := Apply(f, Some(s), code).value, NodePath(Join(Split(s)[..k]));
      q in g.items && g.items[q].Folder? && g.items[q].name == Split(s)[k - 1]
  {
    var segs := Split(s);
    var q := NodePath(Join(segs[..k]));
    ValidFreshAlong(f, Root, segs);
    FolderOnPath(f, s, code, k);
    PrefixNodePath(segs, k);
    ApplyKeepsValid(f, Some(s), code);
    NameFromPath(Apply(f, Some(s), code).value, q, segs[k - 1]);
  }

  lemma FolderOnPath(f: Forest, s: string, code: string, k: nat)
    requires Closed(f) && Root in f.children && FreshAlong(f, Root, Split(s))
    requires Apply(f, Some(s), code).Some?
    requires 0 < k < |Split(s)|
    ensures var g, q := Apply(f, Some(s), code).value, NodePath(Join(Split(s)[..k]));
      q in g.items && g.items[q].Folder?
  {
    var segs := Split(s);
    var g := Apply(f, Some(s), code).value;
    assert Walk(f, Root, segs, code).Some? && g.items == Walk(f, Root, segs, code).value.items by {
      ApplyUnfold(f, s, code);
    }
    WalkFolderOnPath(f, segs, code, k);
  }

  lemma WalkFolderOnPath(f: Forest, segs: seq<string>, code: string, k: nat)
    requires Closed(f) && Root in f.children && FreshAlong(f, Root, segs)
    requires Walk(f, Root, segs, code).Some?
    requires 0 < k < |segs|
    ensures var w, q := Walk(f, Root, segs, code).value, NodePath(Join(segs[..k]));
      q in w.items && w.items[q].Folder?
  {
    var q := NodePath(Join(segs[..k]));
    assert q in InnerPaths(Root, segs) by {
      InnerPathOf(Root, segs, k);
      assert Root + "/" + Join(segs[..k]) == q;
    }
    WalkFolders(f, Root, segs, code, q);
  }

  /** The node path of a prefix of the segments ends with that prefix's last segment. */
  lemma PrefixNodePath(segs: seq<string>, k: nat)
    requires 0 < k <= |segs| && Slashless(segs)
    ensures var q := NodePath(Join(segs[..k]));
      q == ParentPath(q) + "/" + segs[k - 1] && '/' !in segs[k - 1]
  {
    var q := NodePath(Join(segs[..k]));
    LeafIsJoin(Root, segs[..k]);
    assert Root + "/" + Join(segs[..k]) == q;
    LeafParent(Root, segs[..k]);
  }

  /** In a valid forest a node's name is the part of its path after the last '/'. */
  lemma NameFromPath(g: Forest, q: string, last: string)
    requires Valid(g) && q in g.items
    requires '/' !in last && q == ParentPath(q) + "/" + last
    ensures g.items[q].name == last
  {
    assert WellPlaced(g, q);
    SuffixAfterSlash(ParentPath(q), g.items[q].name, last);
  }

  /** The leaf of a walk is its parent's path, a '/', and the last segment. */
  lemma {:induction false} LeafParent(from: string, rest: seq<string>)
    requires |rest| > 0 && '/' !in rest[|rest| - 1]
    ensures Leaf(from, rest) == ParentPath(Leaf(from, rest)) + "/" + rest[|rest| - 1]
    decreases |rest|
  {
    if |rest| == 1 {
      ParentOfChild(from, rest[0]);
    } else {
      LeafParent(from + "/" + rest[0], rest[1..]);
    }
  }

  /** Two slash-free names ending the same string after the same '/' are equal. */
  lemma SuffixAfterSlash(p: string, a: string, b: string)
    requires '/' !in a && '/' !in b
    requires p + "/" + a == p + "/" + b
    ensures a == b
  {
    assert a == (p + "/" + a)[|p| + 1..];
    assert b == (p + "/" + b)[|p| + 1..];
  }

  lemma InnerFolderFresh(f: Forest, s: string, code: string, q: string)
    requires Closed(f) && Root in f.children && FreshAlong(f, Root, Split(s))
    requires Apply(f, Some(s), code).Some? && q in InnerPaths(Root, Split(s))
    ensures q in Apply(f, Some(s), code).value.items && Apply(f, Some(s), code).value.items[q].Folder?
  {
    ApplyUnfold(f, s, code);
    WalkFolders(f, Root, Split(s), code, q);
  }

  /** After a step every folder on its path is a folder node, so the same path walks again. */
  lemma InnerFolders(f: Forest, s: string, code: string)
    requires Valid(f) && Apply(f, Some(s), code).Some?
    ensures forall q :: q in InnerPaths(Root, Split(s)) ==>
              q in Apply(f, Some(s), code).value.items && Apply(f, Some(s), code).value.items[q].Folder?
  {
    ValidFreshAlong(f, Root, Split(s));
    forall q | q in InnerPaths(Root, Split(s))
      ensures q in Apply(f, Some(s), code).value.items && Apply(f, Some(s), code).value.items[q].Folder?
    {
      InnerFolderFresh(f, s, code, q);
    }
  }

  /** A second step with the same path does not throw: its folders are all folders now. */
  lemma SamePathSucceeds(f: Forest, s: string, code1: string, code2: string)
    requires Valid(f) && Apply(f, Some(s), code1).Some?
    ensures Valid(Apply(f, Some(s), code1).value)
    ensures Apply(Apply(f, Some(s), code1).value, Some(s), code2).Some?
  {
    var g := Apply(f, Some(s), code1).value;
    ApplyKeepsValid(f, Some(s), code1);
    InnerFolders(f, s, code1);
    ApplyFails(g, Some(s), code2);
  }

  /** A second step with the same path adds no node. */
  lemma SamePathKeys(f: Forest, s: string, code1: string, code2: string)
    requires Valid(f) && Apply(f, Some(s), code1).Some?
    ensures var g := Apply(f, Some(s), code1).value;
      && Apply(g, Some(s), code2).Some?
      && Apply(g, Some(s), code2).value.items.Keys == g.items.Keys
  {
    SamePathSucceeds(f, s, code1, code2);
    var g := Apply(f, Some(s), code1).value;
    ApplyKeys(f, Some(s), code1);
    ApplyKeys(g, Some(s), code2);
  }

  /** A second step with the same path writes its code into the node the first one left. */
  lemma SamePathLeaf(f: Forest, s: string, code1: string, code2: string)
    requires Valid(f) && Apply(f, Some(s), code1).Some?
    ensures var g := Apply(f, Some(s), code1).value;
      && NodePath(s) in g.items
      && Apply(g, Some(s), code2).Some?
      && NodePath(s) in Apply(g, Some(s), code2).value.items
      && Apply(g, Some(s), code2).value.items[NodePath(s)] == Overwrite(g.items[NodePath(s)], code2)
  {
    SamePathSucceeds(f, s, code1, code2);
    var g := Apply(f, Some(s), code1).value;
    ApplyLeaf(f, s, code1);
    ApplyLeaf(g, s, code2);
  }

  /**
   * Overwrite, not duplicate: a second step with the same path succeeds, adds no node, and
   * writes its code into the node the first step left at that path.
   */
  lemma SamePathTwice(f: Forest, s: string, code1: string, code2: string)
    requires Valid(f) && Apply(f, Some(s), code1).Some?
    ensures var g := Apply(f, Some(s), code1).value;
      && Apply(g, Some(s), code2).Some?
      && Apply(g, Some(s), code2).value.items.Keys == g.items.Keys
      && NodePath(s) in g.items
      && Apply(g, Some(s), code2).value.items[NodePath(s)] == Overwrite(g.items[NodePath(s)], code2)
  {
    SamePathKeys(f, s, code1, code2);
    SamePathLeaf(f, s, code1, code2);
  }

  /** The paths a walk through segments `a` and `b` from the top-level list visits. */
  lemma PathSetTwo(a: string, b: string)
    ensures PathSet(Root, [a, b]) == {NodePath(a), NodePath(a + "/" + b)}
  {
    var segs := [a, b];
    var top := Root + "/" + a;
    assert top == NodePath(a);
    assert segs[1..] == [b];
    assert InnerPaths(top, [b]) == {};
    assert InnerPaths(Root, segs) == {top} + InnerPaths(top, [b]);
    assert Leaf(top, [b]) == NodePath(a) + "/" + b;
    assert Leaf(Root, segs) == Leaf(top, [b]);
    assert NodePath(a + "/" + b) == NodePath(a) + "/" + b;
  }

  /** The nodes a two-segment step walks through: the folder "/a" and the leaf "/a/b". */
  lemma TwoSegments(a: string, b: string)
    requires '/' !in a && '/' !in b
    ensures Split(a + "/" + b) == [a, b]
    ensures PathSet(Root, Split(a + "/" + b)) == {NodePath(a), NodePath(a + "/" + b)}
    ensures NodePath(Join(Split(a + "/" + b)[..1])) == NodePath(a)
  {
    SplitCons(a, b);
    SplitNoSlash(b);
    PathSetTwo(a, b);
    assert [a, b][..1] == [a];
  }

  /** Steps for "a/b" and then "a/c" add exactly the nodes "/a", "/a/b" and "/a/c". */
  lemma SharedFolderKeys(f: Forest, a: string, b: string, c: string, code1: string, code2: string)
    requires Valid(f) && '/' !in a && '/' !in b && '/' !in c
    requires Apply(f, Some(a + "/" + b), code1).Some?
    requires Apply(Apply(f, Some(a + "/" + b), code1).value, Some(a + "/" + c), code2).Some?
    ensures var h := Apply(Apply(f, Some(a + "/" + b), code1).value, Some(a + "/" + c), code2).value;
      h.items.Keys == f.items.Keys + {NodePath(a), NodePath(a + "/" + b), NodePath(a + "/" + c)}
  {
    var g := Apply(f, Some(a + "/" + b), code1).value;
    TwoSegments(a, b);
    TwoSegments(a, c);
    ApplyKeys(f, Some(a + "/" + b), code1);
    ApplyKeepsValid(f, Some(a + "/" + b), code1);
    ApplyKeys(g, Some(a + "/" + c), code2);
  }

  /**
   * Folder inference: steps for "a/b" and then "a/c" add exactly the nodes "/a", "/a/b" and
   * "/a/c", with "/a" a folder listing both files, so the folder is shared, not duplicated.
   */
  lemma SharedFolder(f: Forest, a: string, b: string, c: string, code1: string, code2: string)
    requires Valid(f) && '/' !in a && '/' !in b && '/' !in c
    requires Apply(f, Some(a + "/" + b), code1).Some?
    requires Apply(Apply(f, Some(a + "/" + b), code1).value, Some(a + "/" + c), code2).Some?
    ensures var h := Apply(Apply(f, Some(a + "/" + b), code1).value, Some(a + "/" + c), code2).value;
      && h.items.Keys == f.items.Keys + {NodePath(a), NodePath(a + "/" + b), NodePath(a + "/" + c)}
      && h.items[NodePath(a)].Folder?
      && NodePath(a) in h.children
      && NodePath(a + "/" + b) in h.children[NodePath(a)]
      && NodePath(a + "/" + c) in h.children[NodePath(a)]
  {
    var g := Apply(f, Some(a + "/" + b), code1).value;
    SharedFolderKeys(f, a, b, c, code1, code2);
    ApplyKeepsValid(f, Some(a + "/" + b), code1);
    TwoSegments(a, c);
    ApplyFolders(g, a + "/" + c, code2, 1);
    ApplyKeepsValid(g, Some(a + "/" + c), code2);
    SharedFolderListed(Apply(g, Some(a + "/" + c), code2).value, a, b, c);
  }

  lemma SharedFolderListed(h: Forest, a: string, b: string, c: string)
    requires Placed(h) && '/' !in b && '/' !in c
    requires NodePath(a + "/" + b) in h.items && NodePath(a + "/" + c) in h.items
    ensures && NodePath(a) in h.children
            && NodePath(a + "/" + b) in h.children[NodePath(a)]
            && NodePath(a + "/" + c) in h.children[NodePath(a)]
  {
    var p := NodePath(a);
    assert NodePath(a + "/" + b) == p + "/" + b;
    assert NodePath(a + "/" + c) == p + "/" + c;
    ListedUnder(h, p, b);
    ListedUnder(h, p, c);
  }

  /** In a valid forest the node "p/name" is listed under "p". */
  lemma ListedUnder(h: Forest, p: string, name: string)
    requires Placed(h) && '/' !in name && p + "/" + name in h.items
    ensures p in h.children && p + "/" + name in h.children[p]
  {
    assert WellPlaced(h, p + "/" + name);
    ParentOfChild(p, name);
  }
}
