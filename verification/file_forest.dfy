/**
 * The file forest of the code editor and the effect of one `CreateFile` step on it.
 *
 * In the editor every node is an object and every folder owns a `children` array that is
 * pushed to in place, shared between successive states.  Here the objects live in an arena:
 * `items` maps a node's `path` (which the editor keeps unique, see `Valid`) to the node, and
 * `children` maps a folder's path to the ordered paths of its children.  The key `Root` ("")
 * stands for the top-level list.
 */
module FileForest {
  import opened Common
  import opened FilePaths

  datatype FileItem =
    | File(name: string, path: string, content: string, language: string)
      /** `strayContent` is set when a step's final segment names an existing folder. */
    | Folder(name: string, path: string, strayContent: Option<string>)

  datatype Forest = Forest(items: map<string, FileItem>, children: map<string, seq<string>>)

  /** The key of the top-level list. */
  const Root: string := ""

  const EmptyForest: Forest := Forest(map[], map[Root := []])

  /** Every listed child is a node, and every folder owns a child list. */
  ghost predicate Closed(f: Forest) {
    && (forall p, i :: p in f.children && 0 <= i < |f.children[p]| ==> f.children[p][i] in f.items)
    && (forall p :: p in f.items && f.items[p].Folder? ==> p in f.children)
  }

  /** Node `q` sits where its path says: under its parent path, named by its last segment. */
  ghost predicate WellPlaced(f: Forest, q: string)
    requires q in f.items
  {
    var item := f.items[q];
    && item.path == q
    && '/' !in item.name
    && q == ParentPath(q) + "/" + item.name
    && ParentPath(q) in f.children
    && q in f.children[ParentPath(q)]
  }

  /** Child lists belong to the root or to folders, and every folder owns one. */
  ghost predicate Owners(f: Forest) {
    && Root in f.children
    && Root !in f.items
    && (forall p :: p in f.children ==> p == Root || (p in f.items && f.items[p].Folder?))
    && (forall p :: p in f.items && f.items[p].Folder? ==> p in f.children)
  }

  /** Every listed child is a node whose parent path is the owner of the list. */
  ghost predicate Listed(f: Forest) {
    forall p, i :: p in f.children && 0 <= i < |f.children[p]| ==>
      f.children[p][i] in f.items && ParentPath(f.children[p][i]) == p
  }

  ghost predicate Placed(f: Forest) {
    forall q :: q in f.items ==> WellPlaced(f, q)
  }

  /** No list holds the same path twice. */
  ghost predicate Distinct(f: Forest) {
    forall p :: p in f.children ==> NoDup(f.children[p])
  }

  /**
   * The forest invariant: child lists belong to the root or to folders, every node is listed
   * under its parent path exactly once, and nothing is listed elsewhere.  Hence at most one
   * node exists per path, and the folders on every node's path exist.
   */
  ghost predicate Valid(f: Forest) {
    Owners(f) && Listed(f) && Placed(f) && Distinct(f)
  }

  lemma ValidIsClosed(f: Forest)
    requires Valid(f)
    ensures Closed(f)
  {
  }

  /** The language picked from a path's extension. */
  function LanguageOf(path: string): (lang: string)
    ensures lang == "typescript" <==> EndsWith(path, ".ts") || EndsWith(path, ".tsx")
    ensures lang == "javascript" <==> !(EndsWith(path, ".ts") || EndsWith(path, ".tsx"))
  {
    if EndsWith(path, ".js") then "javascript"
    else if EndsWith(path, ".ts") then "typescript"
    else if EndsWith(path, ".jsx") then "javascript"
    else if EndsWith(path, ".tsx") then "typescript"
    else "javascript"
  }

  /** `file.content = code` on whichever node the final segment found. */
  function Overwrite(item: FileItem, code: string): (r: FileItem)
    ensures r.File? == item.File? && r.name == item.name && r.path == item.path
    ensures r.File? ==> r.content == code && r.language == item.language
    ensures r.Folder? ==> r.strayContent == Some(code)
  {
    match item
    case File(_, _, _, _) => item.(content := code)
    case Folder(_, _, _) => item.(strayContent := Some(code))
  }

  /** Pushes an empty folder `path` onto the list owned by `level`. */
  function AddFolder(f: Forest, level: string, path: string, name: string): Forest
    requires level in f.children
  {
    Forest(f.items[path := Folder(name, path, None)],
           f.children[path := []][level := f.children[level] + [path]])
  }

  /**
   * The final segment: overwrites the content of the node found at `path` in the list owned
   * by `level`, whatever its kind, or pushes a new file there.
   */
  function PutLeaf(f: Forest, level: string, path: string, name: string, code: string): Forest
    requires Closed(f) && level in f.children
  {
    if path in f.children[level] then
      f.(items := f.items[path := Overwrite(f.items[path], code)])
    else
      Forest(f.items[path := File(name, path, code, LanguageOf(path))],
             f.children[level := f.children[level] + [path]])
  }

  /**
   * A pushed folder: a new empty node at `path`, listed last under `level`, with a list of
   * its own; every other node and every other list is as it was.
   */
  lemma AddFolderEffect(f: Forest, level: string, path: string, name: string)
    requires level in f.children
    ensures var r := AddFolder(f, level, path, name);
      && r.items.Keys == f.items.Keys + {path} && r.items[path] == Folder(name, path, None)
      && (forall q :: q in f.items && q != path ==> r.items[q] == f.items[q])
      && r.children.Keys == f.children.Keys + {path}
      && r.children[level] == f.children[level] + [path]
      && (path != level ==> r.children[path] == [])
      && (forall p :: p in f.children && p != level && p != path ==> r.children[p] == f.children[p])
  {
  }

  /**
   * The final segment: a node already listed under `level` has its content overwritten and
   * the lists stay as they are; otherwise a new file is listed last under `level`.  No other
   * node changes.
   */
  lemma PutLeafEffect(f: Forest, level: string, path: string, name: string, code: string)
    requires Closed(f) && level in f.children
    ensures var r := PutLeaf(f, level, path, name, code);
      && r.items.Keys == f.items.Keys + {path}
      && (forall q :: q in f.items && q != path ==> r.items[q] == f.items[q])
      && (path in f.children[level] ==>
            r.children == f.children && r.items[path] == Overwrite(f.items[path], code))
      && (path !in f.children[level] ==>
            && r.items[path] == File(name, path, code, LanguageOf(path))
            && r.children.Keys == f.children.Keys
            && r.children[level] == f.children[level] + [path]
            && forall p :: p in f.children && p != level ==> r.children[p] == f.children[p])
  {
  }

  /**
   * The segment walk from the list owned by `level` through the segments `rest`, one call per
   * iteration of the editor's loop.  A non-final segment that finds a file yields `None`: the
   * file has no `children`, so the next lookup throws.
   */
  function Walk(f: Forest, level: string, rest: seq<string>, code: string): (r: Option<Forest>)
    requires Closed(f) && level in f.children
    ensures r.Some? ==> Closed(r.value) && f.children.Keys <= r.value.children.Keys
    decreases |rest|
  {
    if |rest| == 0 then Some(f)
    else
      var path := level + "/" + rest[0];
      if |rest| == 1 then Some(PutLeaf(f, level, path, rest[0], code))
      else
        var g := if path in f.children[level] then f else AddFolder(f, level, path, rest[0]);
        if g.items[path].File? then None
        else Walk(g, path, rest[1..], code)
  }

  /** The order of the top-level comparator: folders first, then by name. */
  predicate Precedes(a: FileItem, b: FileItem) {
    (a.Folder? && b.File?) || (a.Folder? == b.Folder? && NameLe(a.name, b.name))
  }

  lemma PrecedesTotal(a: FileItem, b: FileItem)
    ensures Precedes(a, b) || Precedes(b, a)
  {
    NameLeTotal(a.name, b.name);
  }

  lemma PrecedesTrans(a: FileItem, b: FileItem, c: FileItem)
    requires Precedes(a, b) && Precedes(b, c)
    ensures Precedes(a, c)
  {
    if a.Folder? == b.Folder? == c.Folder? {
      NameLeTrans(a.name, b.name, c.name);
    }
  }

  ghost predicate Sorted(keys: seq<string>, items: map<string, FileItem>)
    requires forall k :: k in keys ==> k in items
  {
    forall i, j :: 0 <= i < j < |keys| ==> Precedes(items[keys[i]], items[keys[j]])
  }

  function Insert(k: string, sorted: seq<string>, items: map<string, FileItem>): (r: seq<string>)
    requires k in items && forall x :: x in sorted ==> x in items
    ensures multiset(r) == multiset(sorted) + multiset{k}
    ensures forall x :: x in r ==> x in items
  {
    if sorted == [] then [k]
    else if Precedes(items[k], items[sorted[0]]) then [k] + sorted
    else
      assert sorted == [sorted[0]] + sorted[1..];
      [sorted[0]] + Insert(k, sorted[1..], items)
  }

  lemma {:induction false} InsertSorted(k: string, sorted: seq<string>, items: map<string, FileItem>)
    requires k in items && forall x :: x in sorted ==> x in items
    requires Sorted(sorted, items)
    ensures Sorted(Insert(k, sorted, items), items)
  {
    if sorted != [] && !Precedes(items[k], items[sorted[0]]) {
      PrecedesTotal(items[k], items[sorted[0]]);
      InsertSorted(k, sorted[1..], items);
      var r := Insert(k, sorted, items);
      forall i, j | 0 <= i < j < |r|
        ensures Precedes(items[r[i]], items[r[j]])
      {
        if i == 0 {
          assert r[j] in multiset(sorted[1..]) + multiset{k};
          if r[j] != k {
            var m :| 0 <= m < |sorted[1..]| && sorted[1..][m] == r[j];
            assert sorted[m + 1] == r[j];
          }
        }
      }
    } else if sorted != [] {
      var r := Insert(k, sorted, items);
      forall i, j | 0 <= i < j < |r|
        ensures Precedes(items[r[i]], items[r[j]])
      {
        if i == 0 && j > 1 {
          PrecedesTrans(items[k], items[sorted[0]], items[sorted[j - 1]]);
        }
      }
    }
  }

  /** `slice().sort(...)` on the top-level list: insertion into an already sorted rest. */
  function SortTop(keys: seq<string>, items: map<string, FileItem>): (r: seq<string>)
    requires forall k :: k in keys ==> k in items
    ensures multiset(r) == multiset(keys)
    ensures forall x :: x in r ==> x in items
  {
    if keys == [] then []
    else
      assert keys == [keys[0]] + keys[1..];
      Insert(keys[0], SortTop(keys[1..], items), items)
  }

  lemma {:induction false} SortTopSorted(keys: seq<string>, items: map<string, FileItem>)
    requires forall k :: k in keys ==> k in items
    ensures Sorted(SortTop(keys, items), items)
  {
    if keys != [] {
      SortTopSorted(keys[1..], items);
      InsertSorted(keys[0], SortTop(keys[1..], items), items);
    }
  }

  /** Re-sorts the top-level list only; nodes and nested lists are left as they are. */
  function SortRoot(g: Forest): (r: Forest)
    requires Closed(g) && Root in g.children
    ensures Closed(r) && r.items == g.items && r.children.Keys == g.children.Keys
    ensures multiset(r.children[Root]) == multiset(g.children[Root])
    ensures forall p :: p in g.children && p != Root ==> r.children[p] == g.children[p]
  {
    g.(children := g.children[Root := SortTop(g.children[Root], g.items)])
  }

  /** The segments of a step's path; a step without a path has none. */
  function Segments(path: Option<string>): seq<string> {
    if path.Some? then Split(path.value) else []
  }

  /**
   * The segments join back to the path and none holds a '/'; a step without a path walks
   * no segment at all.
   */
  lemma SegmentsOfPath(path: Option<string>)
    ensures var r := Segments(path);
      && (path.Some? ==> |r| > 0 && Join(r) == path.value)
      && (path.None? ==> r == [])
      && forall i :: 0 <= i < |r| ==> '/' !in r[i]
  {
  }

  /** One `CreateFile` step: the walk, then the re-sort of the top-level list. */
  function Apply(f: Forest, path: Option<string>, code: string): (r: Option<Forest>)
    requires Closed(f) && Root in f.children
    ensures r.Some? ==> Closed(r.value) && f.children.Keys <= r.value.children.Keys
  {
    match Walk(f, Root, Segments(path), code)
    case None => None
    case Some(g) => Some(SortRoot(g))
  }
}
