/**
 * Worked consequences of the artifact scan in chatbox.tsx: what one scan makes of text
 * holding two complete artifacts.
 */
module ChatScanFacts {
  import opened Common
  import opened ChatBox

  /** A text run and a matched span in front of the parts of the rest. */
  function Prepend(run: string, span: string, rest: Parts): (r: Parts)
    ensures |r.texts| == |rest.texts| + 1 && |r.spans| == |rest.spans| + 1
    ensures r.texts[0] == run && r.spans[0] == span
    ensures r.texts[1..] == rest.texts && r.spans[1..] == rest.spans
  {
    Parts([run] + rest.texts, [span] + rest.spans)
  }

  /** Text without '<' and then a shortest match: one run, the match, and the scan after it. */
  lemma MatchAfterPlain(s: string, p: nat, q: nat, e: nat)
    requires p <= q <= e <= |s| && forall k :: p <= k < q ==> s[k] != '<'
    requires ShortestMatch(s[q..e])
    ensures Scan(s, p) == Prepend(s[p..q], s[q..e], Scan(s, e))
  {
    var rest := Scan(s, e);
    ScanMatch(s, q, e);
    ScanPlainBefore(s, p, q, rest.texts, [s[q..e]] + rest.spans);
  }

  /** The scan of `s` from `q` with one shortest match from `p` to `e` and no '<' elsewhere. */
  lemma OneMatchAt(s: string, q: nat, p: nat, e: nat)
    requires q <= p <= e <= |s| && ShortestMatch(s[p..e])
    requires forall k :: q <= k < p ==> s[k] != '<'
    requires forall k :: e <= k < |s| ==> s[k] != '<'
    ensures Scan(s, q) == Prepend(s[q..p], s[p..e], Parts([s[e..]], []))
  {
    ScanPlainEnd(s, e);
    MatchAfterPlain(s, q, p, e);
  }

  /**
   * The scan of `s` from `p0` with shortest matches from `p1` to `e1` and from `p2` to `e2`,
   * and no '<' anywhere else.
   */
  lemma TwoMatchesAt(s: string, p0: nat, p1: nat, e1: nat, p2: nat, e2: nat)
    requires p0 <= p1 <= e1 <= p2 <= e2 <= |s|
    requires ShortestMatch(s[p1..e1]) && ShortestMatch(s[p2..e2])
    requires forall k :: p0 <= k < p1 ==> s[k] != '<'
    requires forall k :: e1 <= k < p2 ==> s[k] != '<'
    requires forall k :: e2 <= k < |s| ==> s[k] != '<'
    ensures Scan(s, p0) ==
      Prepend(s[p0..p1], s[p1..e1], Prepend(s[e1..p2], s[p2..e2], Parts([s[e2..]], [])))
  {
    OneMatchAt(s, e1, p2, e2);
    MatchAfterPlain(s, p0, p1, e1);
  }

  /** Where the pieces of `a + m1 + b + m2 + c` sit. */
  lemma PiecesAt(s: string, a: string, m1: string, b: string, m2: string, c: string,
                 p1: nat, e1: nat, p2: nat, e2: nat)
    requires s == a + m1 + b + m2 + c
    requires p1 == |a| && e1 == p1 + |m1| && p2 == e1 + |b| && e2 == p2 + |m2|
    ensures e2 <= |s|
    ensures s[0..p1] == a && s[p1..e1] == m1 && s[e1..p2] == b && s[p2..e2] == m2 && s[e2..] == c
  {
    assert s[0..p1] == a;
    assert s[p1..e1] == m1;
    assert s[e1..p2] == b;
    assert s[p2..e2] == m2;
    assert s[e2..] == c;
  }

  /** In `a + m1 + b + m2 + c`, '<' occurs only inside `m1` and `m2` when `a`, `b`, `c` hold none. */
  lemma PlainAround(s: string, a: string, m1: string, b: string, m2: string, c: string,
                    p1: nat, e1: nat, p2: nat, e2: nat)
    requires s == a + m1 + b + m2 + c
    requires p1 == |a| && e1 == p1 + |m1| && p2 == e1 + |b| && e2 == p2 + |m2|
    requires '<' !in a && '<' !in b && '<' !in c
    ensures forall k :: 0 <= k < p1 ==> s[k] != '<'
    ensures forall k :: e1 <= k < p2 ==> s[k] != '<'
    ensures forall k :: e2 <= k < |s| ==> s[k] != '<'
  {
    forall k | 0 <= k < p1 ensures s[k] != '<' {
      assert s[k] == a[k];
    }
    forall k | e1 <= k < p2 ensures s[k] != '<' {
      assert s[k] == b[k - e1];
    }
    forall k | e2 <= k < |s| ensures s[k] != '<' {
      assert s[k] == c[k - e2];
    }
  }

  /** Two artifacts among text without '<': the scan finds both, and the three runs around them. */
  lemma TwoArtifactsScan(a: string, m1: string, b: string, m2: string, c: string)
    requires '<' !in a && '<' !in b && '<' !in c
    requires ShortestMatch(m1) && ShortestMatch(m2)
    ensures Scan(a + m1 + b + m2 + c, 0) == Parts([a, b, c], [m1, m2])
  {
    var s := a + m1 + b + m2 + c;
    var parts := Prepend(a, m1, Prepend(b, m2, Parts([c], [])));
    assert Scan(s, 0) == parts by {
      var p1 := |a|;
      var e1 := p1 + |m1|;
      var p2 := e1 + |b|;
      var e2 := p2 + |m2|;
      PiecesAt(s, a, m1, b, m2, c, p1, e1, p2, e2);
      PlainAround(s, a, m1, b, m2, c, p1, e1, p2, e2);
      TwoMatchesAt(s, 0, p1, e1, p2, e2);
    }
    assert parts == Parts([a, b, c], [m1, m2]);
  }

  /**
   * Two artifacts among text without '<' are both replaced: two markers, and the three runs
   * around them kept.
   */
  lemma TwoArtifacts(a: string, m1: string, b: string, m2: string, c: string)
    requires '<' !in a && '<' !in b && '<' !in c
    requires ShortestMatch(m1) && ShortestMatch(m2)
    ensures ArtifactCount(a + m1 + b + m2 + c) == 2
    ensures ReplaceArtifacts(a + m1 + b + m2 + c) == a + Marker + b + Marker + c
  {
    var s := a + m1 + b + m2 + c;
    assert Scan(s, 0) == Parts([a, b, c], [m1, m2]) by {
      TwoArtifactsScan(a, m1, b, m2, c);
    }
    ScanShown(s, 0);
    assert Markers(2) == [Marker, Marker];
    WeaveThree(a, b, c, Marker);
  }

  /** Three runs with the same separator between them. */
  lemma WeaveThree(a: string, b: string, c: string, sep: string)
    ensures Weave([a, b, c], [sep, sep]) == a + sep + b + sep + c
  {
    assert Weave([c], []) == c;
    assert Weave([b, c], [sep]) == b + sep + c;
    assert Weave([a, b, c], [sep, sep]) == a + sep + (b + sep + c);
  }
}
