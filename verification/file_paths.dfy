/**
 * Path strings of the virtual file tree.  A step's path is split on '/', and the node reached
 * after the segments s0 .. sk has the path "/s0/s1/.../sk": each segment is appended to the
 * path of its parent as "/" + segment.
 */
module FilePaths {

  /** The segments joined with '/' (the inverse of `Split`). */
  function Join(segs: seq<string>): string
    requires |segs| > 0
  {
    if |segs| == 1 then segs[0] else segs[0] + "/" + Join(segs[1..])
  }

  /** `path.split("/")`: every '/' separates two segments, so there is always at least one. */
  function Split(s: string): (segs: seq<string>)
    ensures |segs| > 0
    ensures forall i :: 0 <= i < |segs| ==> '/' !in segs[i]
    ensures Join(segs) == s
  {
    if |s| == 0 then [""]
    else
      var tail := Split(s[1..]);
      if s[0] == '/' then
        assert ([""] + tail)[1..] == tail;
        [""] + tail
      else
        var segs := [[s[0]] + tail[0]] + tail[1..];
        assert |segs| > 1 ==> segs[1..] == tail[1..];
        assert s == [s[0]] + s[1..];
        segs
  }

  lemma {:induction false} SplitNoSlash(a: string)
    requires '/' !in a
    ensures Split(a) == [a]
    decreases |a|
  {
    if |a| > 0 {
      SplitNoSlash(a[1..]);
      assert a == [a[0]] + a[1..];
    }
  }

  lemma {:induction false} SplitCons(a: string, b: string)
    requires '/' !in a
    ensures Split(a + "/" + b) == [a] + Split(b)
    decreases |a|
  {
    if |a| == 0 {
      assert a + "/" + b == ['/'] + b;
      assert (a + "/" + b)[1..] == b;
    } else {
      var s := a + "/" + b;
      assert s[1..] == a[1..] + "/" + b;
      var tail := Split(s[1..]);
      assert tail == [a[1..]] + Split(b) by {
        SplitCons(a[1..], b);
      }
      assert s[0] == a[0] != '/';
      assert Split(s) == [[s[0]] + tail[0]] + tail[1..];
      assert [s[0]] + tail[0] == a;
      assert tail[1..] == Split(b);
    }
  }

  /** Splitting a joined list of slash-free segments gives the segments back. */
  lemma {:induction false} SplitJoin(segs: seq<string>)
    requires |segs| > 0
    requires forall i :: 0 <= i < |segs| ==> '/' !in segs[i]
    ensures Split(Join(segs)) == segs
    decreases |segs|
  {
    if |segs| == 1 {
      SplitNoSlash(segs[0]);
    } else {
      SplitJoin(segs[1..]);
      SplitCons(segs[0], Join(segs[1..]));
      assert segs == [segs[0]] + segs[1..];
    }
  }

  /** The part of `q` before its last '/' ("" when there is none): the path of the parent node. */
  function ParentPath(q: string): string
    decreases |q|
  {
    if |q| == 0 then ""
    else if q[|q| - 1] == '/' then q[..|q| - 1]
    else ParentPath(q[..|q| - 1])
  }

  /** The child `name` of the node at `parent` has `parent` as its parent path. */
  lemma {:induction false} ParentOfChild(parent: string, name: string)
    requires '/' !in name
    ensures ParentPath(parent + "/" + name) == parent
    decreases |name|
  {
    var q := parent + "/" + name;
    if |name| == 0 {
      assert q[..|q| - 1] == parent;
    } else {
      var shorter := name[..|name| - 1];
      assert q[..|q| - 1] == parent + "/" + shorter;
      assert name[|name| - 1] in name;
      ParentOfChild(parent, shorter);
    }
  }

  /** The path reached from `from` after descending through every segment of `rest`. */
  function Leaf(from: string, rest: seq<string>): string
    requires |rest| > 0
    decreases |rest|
  {
    if |rest| == 1 then from + "/" + rest[0] else Leaf(from + "/" + rest[0], rest[1..])
  }

  /** The paths reached from `from` before the last segment of `rest`: the folders on the way. */
  function InnerPaths(from: string, rest: seq<string>): set<string>
    decreases |rest|
  {
    if |rest| <= 1 then {} else {from + "/" + rest[0]} + InnerPaths(from + "/" + rest[0], rest[1..])
  }

  /** Every path on the way from `from` through `rest`, the leaf included. */
  function PathSet(from: string, rest: seq<string>): set<string>
  {
    if |rest| == 0 then {} else InnerPaths(from, rest) + {Leaf(from, rest)}
  }

  /** The leaf reached from the root is "/" followed by the segments joined with "/". */
  lemma {:induction false} LeafIsJoin(from: string, rest: seq<string>)
    requires |rest| > 0
    ensures Leaf(from, rest) == from + "/" + Join(rest)
    decreases |rest|
  {
    if |rest| > 1 {
      LeafIsJoin(from + "/" + rest[0], rest[1..]);
    }
  }

  /** Every path on the way is strictly longer than the starting path, so it never equals it. */
  lemma {:induction false} PathsBelow(from: string, rest: seq<string>)
    ensures forall q :: q in PathSet(from, rest) ==> |q| > |from|
    decreases |rest|
  {
    if |rest| > 1 {
      PathsBelow(from + "/" + rest[0], rest[1..]);
    }
  }
}
