/**
 * The chat panel's text: every complete artifact in the model's output is replaced by a
 * marker, `content.replace(/<boltArtifact[\s\S]*?<\/boltArtifact>/g, "<>---<>")`, the result is
 * split on "<>", and every item equal to "---" is shown as the list of steps.
 */
module ChatBox {
  import opened Common

  const Open: string := "<boltArtifact"
  const Close: string := "</boltArtifact>"
  const Marker: string := "<>---<>"
  const Separator: string := "<>"
  const StepsItem: string := "---"

  /** The first index at or after `i` where `t` occurs in `s`. */
  function FindFrom(s: string, t: string, i: nat): (r: Option<nat>)
    ensures r.Some? ==> i <= r.value && OccursAt(s, t, r.value)
    ensures r.Some? ==> forall k :: i <= k < r.value ==> !OccursAt(s, t, k)
    ensures r.None? ==> forall k :: i <= k ==> !OccursAt(s, t, k)
    decreases |s| - i
  {
    if i + |t| > |s| then None
    else if OccursAt(s, t, i) then Some(i)
    else FindFrom(s, t, i + 1)
  }

  /**
   * Where the match that starts at `p` ends: the pattern needs `Open` at `p` and then takes
   * the first `Close` after it, the shortest match.
   */
  function ArtifactEnd(s: string, p: nat): (r: Option<nat>)
    ensures r.Some? <==> OccursAt(s, Open, p) && exists c :: p + |Open| <= c && OccursAt(s, Close, c)
    ensures r.Some? ==> p + |Open| + |Close| <= r.value <= |s|
    ensures r.Some? ==> OccursAt(s, Close, r.value - |Close|)
    ensures r.Some? ==> forall c :: p + |Open| <= c < r.value - |Close| ==> !OccursAt(s, Close, c)
  {
    if !OccursAt(s, Open, p) then None
    else match FindFrom(s, Close, p + |Open|)
      case None => None
      case Some(c) => Some(c + |Close|)
  }

  /** The global replace, scanning from `p`: a match is replaced, anything else is copied. */
  function ReplaceFrom(s: string, p: nat): (r: string)
    requires p <= |s|
    ensures |r| <= |s| - p
    decreases |s| - p
  {
    if p == |s| then ""
    else match ArtifactEnd(s, p)
      case Some(e) => Marker + ReplaceFrom(s, e)
      case None => [s[p]] + ReplaceFrom(s, p + 1)
  }

  /** `replaceBoltArtifactSection`. */
  function ReplaceArtifacts(content: string): (r: string)
    ensures |r| <= |content|
  {
    ReplaceFrom(content, 0)
  }

  /**
   * The text split by the matches: the text runs between them and the matched spans, so that
   * the runs and the spans alternate, starting and ending with a run.
   */
  datatype Parts = Parts(texts: seq<string>, spans: seq<string>)

  function Scan(s: string, p: nat): (r: Parts)
    requires p <= |s|
    ensures |r.texts| == |r.spans| + 1
    ensures r.texts[0] <= s[p..]
    decreases |s| - p
  {
    if p == |s| then Parts([""], [])
    else match ArtifactEnd(s, p)
      case Some(e) =>
        var rest := Scan(s, e);
        Parts([""] + rest.texts, [s[p..e]] + rest.spans)
      case None =>
        var rest := Scan(s, p + 1);
        Parts([[s[p]] + rest.texts[0]] + rest.texts[1..], rest.spans)
  }

  /** The runs with the given separators between them. */
  function Weave(texts: seq<string>, seps: seq<string>): string
    requires |texts| == |seps| + 1
    decreases |seps|
  {
    if seps == [] then texts[0] else texts[0] + seps[0] + Weave(texts[1..], seps[1..])
  }

  /** `n` markers. */
  function Markers(n: nat): (r: seq<string>)
    ensures |r| == n
    ensures forall i :: 0 <= i < n ==> r[i] == Marker
  {
    if n == 0 then [] else [Marker] + Markers(n - 1)
  }

  /** The number of artifacts the replace finds. */
  function ArtifactCount(s: string): nat {
    |Scan(s, 0).spans|
  }

  lemma WeaveConsChar(c: char, texts: seq<string>, seps: seq<string>)
    requires |texts| == |seps| + 1
    ensures Weave([[c] + texts[0]] + texts[1..], seps) == [c] + Weave(texts, seps)
  {
    var t := [[c] + texts[0]] + texts[1..];
    assert t[1..] == texts[1..];
  }

  lemma WeaveConsEmpty(texts: seq<string>, sep: string, seps: seq<string>)
    requires |texts| == |seps| + 1
    ensures Weave([""] + texts, [sep] + seps) == sep + Weave(texts, seps)
  {
    assert ([""] + texts)[1..] == texts;
    assert ([sep] + seps)[1..] == seps;
  }

  /** Putting the spans back between the runs gives the scanned text back. */
  lemma {:induction false} ScanOriginal(s: string, p: nat)
    requires p <= |s|
    ensures Weave(Scan(s, p).texts, Scan(s, p).spans) == s[p..]
    decreases |s| - p
  {
    if p < |s| {
      match ArtifactEnd(s, p)
      case Some(e) =>
        ScanOriginal(s, e);
        WeaveConsEmpty(Scan(s, e).texts, s[p..e], Scan(s, e).spans);
        assert s[p..] == s[p..e] + s[e..];
      case None =>
        ScanOriginal(s, p + 1);
        WeaveConsChar(s[p], Scan(s, p + 1).texts, Scan(s, p + 1).spans);
        assert s[p..] == [s[p]] + s[p + 1..];
    }
  }

  /** The replace puts one marker in place of each span and keeps the runs as they are. */
  lemma {:induction false} ScanShown(s: string, p: nat)
    requires p <= |s|
    ensures ReplaceFrom(s, p) == Weave(Scan(s, p).texts, Markers(|Scan(s, p).spans|))
    decreases |s| - p
  {
    if p < |s| {
      match ArtifactEnd(s, p)
      case Some(e) =>
        ScanShown(s, e);
        var n := |Scan(s, e).spans|;
        WeaveConsEmpty(Scan(s, e).texts, Marker, Markers(n));
      case None =>
        ScanShown(s, p + 1);
        WeaveConsChar(s[p], Scan(s, p + 1).texts, Markers(|Scan(s, p + 1).spans|));
    }
  }

  /**
   * Each span is one shortest match: it opens with `Open`, ends with `Close`, and holds no
   * other `Close` after its opening tag.
   */
  ghost predicate ShortestMatch(span: string) {
    && |span| >= |Open| + |Close|
    && OccursAt(span, Open, 0)
    && OccursAt(span, Close, |span| - |Close|)
    && forall k: nat :: |Open| <= k < |span| - |Close| ==> !OccursAt(span, Close, k)
  }

  lemma {:induction false} ScanSpans(s: string, p: nat, i: nat)
    requires p <= |s| && i < |Scan(s, p).spans|
    ensures ShortestMatch(Scan(s, p).spans[i])
    decreases |s| - p
  {
    match ArtifactEnd(s, p)
    case Some(e) =>
      assert Scan(s, p).spans == [s[p..e]] + Scan(s, e).spans;
      if i == 0 {
        MatchedSpan(s, p, e);
      } else {
        ScanSpans(s, e, i - 1);
      }
    case None =>
      assert Scan(s, p).spans == Scan(s, p + 1).spans;
      ScanSpans(s, p + 1, i);
  }

  lemma MatchedSpan(s: string, p: nat, e: nat)
    requires ArtifactEnd(s, p) == Some(e)
    ensures ShortestMatch(s[p..e])
  {
    var span := s[p..e];
    OccursWithin(s, p, e, Open, p);
    OccursWithin(s, p, e, Close, e - |Close|);
    assert span <= s[p..];
    forall k: nat | |Open| <= k < |span| - |Close|
      ensures !OccursAt(span, Close, k)
    {
      if OccursAt(span, Close, k) {
        OccursInPrefix(span, s, p, Close, k);
        assert false;
      }
    }
  }

  /** Every match shortens the text by at least 21 characters (at least 28 become 7). */
  lemma {:induction false} ReplaceShrinks(s: string, p: nat)
    requires p <= |s|
    ensures |ReplaceFrom(s, p)| + 21 * |Scan(s, p).spans| == |s| - p - SpanSlack(s, p)
    decreases |s| - p
  {
    if p < |s| {
      match ArtifactEnd(s, p)
      case Some(e) =>
        ReplaceShrinks(s, e);
      case None =>
        ReplaceShrinks(s, p + 1);
    }
  }

  /** How much longer than the shortest possible match the matches from `p` are, in total. */
  function SpanSlack(s: string, p: nat): nat
    requires p <= |s|
    decreases |s| - p
  {
    if p == |s| then 0
    else match ArtifactEnd(s, p)
      case Some(e) => (e - p - |Open| - |Close|) + SpanSlack(s, e)
      case None => SpanSlack(s, p + 1)
  }

  /** A complete artifact: an `Open` with a `Close` somewhere after it. */
  ghost predicate HasArtifact(s: string) {
    exists p: nat, c: nat :: OccursAt(s, Open, p) && p + |Open| <= c && OccursAt(s, Close, c)
  }

  /** From any position before a complete artifact, the scan finds a match. */
  lemma {:induction false} ScanFinds(s: string, p: nat, p0: nat, c0: nat)
    requires p <= p0 && OccursAt(s, Open, p0) && p0 + |Open| <= c0 && OccursAt(s, Close, c0)
    ensures |Scan(s, p).spans| > 0
    decreases p0 - p
  {
    if p < p0 && ArtifactEnd(s, p).None? {
      ScanFinds(s, p + 1, p0, c0);
    }
  }

  /** With no complete artifact, the scan finds nothing. */
  lemma {:induction false} ScanFindsNothing(s: string, p: nat)
    requires p <= |s| && !HasArtifact(s)
    ensures |Scan(s, p).spans| == 0
    decreases |s| - p
  {
    if p < |s| {
      ScanFindsNothing(s, p + 1);
    }
  }

  /** The replace changes the text exactly when it holds a complete artifact. */
  lemma ReplaceUnchangedIff(s: string)
    ensures ReplaceArtifacts(s) == s <==> !HasArtifact(s)
  {
    ScanOriginal(s, 0);
    ScanShown(s, 0);
    ReplaceShrinks(s, 0);
    assert s[0..] == s;
    if HasArtifact(s) {
      var p0: nat, c0: nat :| OccursAt(s, Open, p0) && p0 + |Open| <= c0 && OccursAt(s, Close, c0);
      ScanFinds(s, 0, p0, c0);
    } else {
      ScanFindsNothing(s, 0);
      assert Markers(0) == [];
    }
  }

  /** An occurrence inside a prefix of `s[p..]` is an occurrence in `s`. */
  lemma OccursInPrefix(u: string, s: string, p: nat, t: string, k: nat)
    requires p <= |s| && u <= s[p..] && OccursAt(u, t, k)
    ensures OccursAt(s, t, p + k)
  {
    assert u[k..k + |t|] == s[p..][k..k + |t|] == s[p + k..p + k + |t|];
  }

  /** An occurrence after the first character of `[c] + u` is an occurrence in `u`. */
  lemma OccursShift(c: char, u: string, t: string, k: nat)
    requires OccursAt([c] + u, t, k + 1)
    ensures OccursAt(u, t, k)
  {
    assert ([c] + u)[k + 1..k + 1 + |t|] == u[k..k + |t|];
  }

  /**
   * A run that the scan extends by a character where no match starts still holds no
   * complete artifact.
   */
  lemma CleanCons(s: string, p: nat, u: string)
    requires p < |s| && ArtifactEnd(s, p).None? && [s[p]] + u <= s[p..] && !HasArtifact(u)
    ensures !HasArtifact([s[p]] + u)
  {
    var v := [s[p]] + u;
    if HasArtifact(v) {
      var p0: nat, c0: nat :| OccursAt(v, Open, p0) && p0 + |Open| <= c0 && OccursAt(v, Close, c0);
      if p0 == 0 {
        OccursInPrefix(v, s, p, Open, 0);
        OccursInPrefix(v, s, p, Close, c0);
        assert false;
      } else {
        OccursShift(s[p], u, Open, p0 - 1);
        OccursShift(s[p], u, Close, c0 - 1);
        assert false;
      }
    }
  }

  /**
   * The replace is global: no text run the scan leaves between the matches still holds a
   * complete artifact.
   */
  lemma {:induction false} ScanTextsClean(s: string, p: nat)
    requires p <= |s|
    ensures forall i :: 0 <= i < |Scan(s, p).texts| ==> !HasArtifact(Scan(s, p).texts[i])
    decreases |s| - p
  {
    assert !HasArtifact("");
    if p < |s| {
      match ArtifactEnd(s, p)
      case Some(e) =>
        ScanTextsClean(s, e);
        assert Scan(s, p).texts == [""] + Scan(s, e).texts;
      case None =>
        ScanTextsClean(s, p + 1);
        var rest := Scan(s, p + 1);
        assert [s[p]] + rest.texts[0] <= s[p..] by {
          assert s[p..] == [s[p]] + s[p + 1..];
        }
        CleanCons(s, p, rest.texts[0]);
        assert Scan(s, p).texts == [[s[p]] + rest.texts[0]] + rest.texts[1..];
    }
  }

  /** Text without '<' holds no match: the scan copies it into the first run. */
  lemma {:induction false} ScanPlain(s: string, p: nat, q: nat)
    requires p <= q <= |s| && forall k :: p <= k < q ==> s[k] != '<'
    ensures Scan(s, p).spans == Scan(s, q).spans
    ensures Scan(s, p).texts == [s[p..q] + Scan(s, q).texts[0]] + Scan(s, q).texts[1..]
    decreases q - p
  {
    var t := Scan(s, q).texts;
    if p < q {
      var n := p + 1;
      ScanCopies(s, p);
      ScanPlain(s, n, q);
      var r := Scan(s, n).texts;
      assert [s[p]] + r[0] == s[p..q] + t[0] by {
        assert r[0] == s[n..q] + t[0];
        assert s[p..q] == [s[p]] + s[n..q];
      }
    } else {
      assert s[p..q] + t[0] == t[0];
      assert t == [t[0]] + t[1..];
    }
  }

  /** A character other than '<' starts no match: it is copied to the front of the first run. */
  lemma ScanCopies(s: string, p: nat)
    requires p < |s| && s[p] != '<'
    ensures Scan(s, p).spans == Scan(s, p + 1).spans
    ensures Scan(s, p).texts == [[s[p]] + Scan(s, p + 1).texts[0]] + Scan(s, p + 1).texts[1..]
  {
    assert ArtifactEnd(s, p).None? by {
      if p + |Open| <= |s| {
        assert s[p..p + |Open|][0] == s[p] != '<' == Open[0];
      }
    }
  }

  /** A shortest match from `p` to `e` is exactly what the pattern matches at `p`. */
  lemma MatchEnds(s: string, p: nat, e: nat)
    requires p <= e <= |s| && ShortestMatch(s[p..e])
    ensures ArtifactEnd(s, p) == Some(e)
  {
    TagsAt(s, p, e);
    FirstFrom(s, Close, p + |Open|, e - |Close|);
  }

  /** The tags of a shortest match seen in the text around it. */
  lemma TagsAt(s: string, p: nat, e: nat)
    requires p <= e <= |s| && ShortestMatch(s[p..e])
    ensures OccursAt(s, Open, p) && OccursAt(s, Close, e - |Close|)
    ensures forall k :: p + |Open| <= k < e - |Close| ==> !OccursAt(s, Close, k)
  {
    assert s[p..e] <= s[p..];
    OccursInPrefix(s[p..e], s, p, Open, 0);
    OccursInPrefix(s[p..e], s, p, Close, e - p - |Close|);
    forall k | p + |Open| <= k < e - |Close|
      ensures !OccursAt(s, Close, k)
    {
      if OccursAt(s, Close, k) {
        OccursWithin(s, p, e, Close, k);
        assert false;
      }
    }
  }

  /** An occurrence in `s` that lies between `p` and `e` is an occurrence in `s[p..e]`. */
  lemma OccursWithin(s: string, p: nat, e: nat, t: string, k: nat)
    requires p <= k && k + |t| <= e <= |s| && OccursAt(s, t, k)
    ensures OccursAt(s[p..e], t, k - p)
  {
    var inner, outer := s[p..e][k - p..k - p + |t|], s[k..k + |t|];
    forall i | 0 <= i < |t|
      ensures inner[i] == outer[i]
    {
      assert inner[i] == s[p..e][k - p + i] == s[k + i];
    }
    assert inner == outer;
  }

  /** An occurrence with none before it, from `i` on, is the one the search finds. */
  lemma FirstFrom(s: string, t: string, i: nat, c: nat)
    requires i <= c && OccursAt(s, t, c)
    requires forall k :: i <= k < c ==> !OccursAt(s, t, k)
    ensures FindFrom(s, t, i) == Some(c)
  {
  }

  /** A shortest match from `p` to `e` is taken whole and replaced, and the scan goes on after it. */
  lemma ScanMatch(s: string, p: nat, e: nat)
    requires p <= e <= |s| && ShortestMatch(s[p..e])
    ensures Scan(s, p) == Parts([""] + Scan(s, e).texts, [s[p..e]] + Scan(s, e).spans)
  {
    MatchEnds(s, p, e);
  }

  /** Text without '<' up to the end is one run and no match. */
  lemma ScanPlainEnd(s: string, p: nat)
    requires p <= |s| && forall k :: p <= k < |s| ==> s[k] != '<'
    ensures Scan(s, p) == Parts([s[p..]], [])
  {
    ScanPlain(s, p, |s|);
    assert Scan(s, |s|) == Parts([""], []);
    assert s[p..|s|] + "" == s[p..];
  }

  /** Text without '<' before a match is the run in front of it. */
  lemma ScanPlainBefore(s: string, p: nat, q: nat, texts: seq<string>, spans: seq<string>)
    requires p <= q <= |s| && forall k :: p <= k < q ==> s[k] != '<'
    requires Scan(s, q) == Parts([""] + texts, spans)
    ensures Scan(s, p) == Parts([s[p..q]] + texts, spans)
  {
    ScanPlain(s, p, q);
    assert s[p..q] + "" == s[p..q];
    assert ([""] + texts)[1..] == texts;
  }

  /**
   * An `Open` with no `Close` after it, as at the tail of a stream still arriving: from
   * there on the text is copied unchanged.
   */
  lemma {:induction false} UnclosedStaysRaw(s: string, p: nat, q: nat)
    requires OccursAt(s, Open, p) && FindFrom(s, Close, p + |Open|).None?
    requires p <= q <= |s|
    ensures ReplaceFrom(s, q) == s[q..]
    decreases |s| - q
  {
    if q < |s| {
      UnclosedStaysRaw(s, p, q + 1);
      assert s[q..] == [s[q]] + s[q + 1..];
    }
  }

  /** `s` does not contain "<>". */
  ghost predicate NoSeparator(s: string) {
    forall k: nat :: !OccursAt(s, Separator, k)
  }

  /** `split("<>")`: the pieces between the occurrences of "<>", found left to right. */
  function SplitItems(s: string): (items: seq<string>)
    ensures |items| > 0
    decreases |s|
  {
    match FindFrom(s, Separator, 0)
    case None => [s]
    case Some(k) => [s[..k]] + SplitItems(s[k + |Separator|..])
  }

  function JoinItems(items: seq<string>): string
    requires |items| > 0
  {
    if |items| == 1 then items[0] else items[0] + Separator + JoinItems(items[1..])
  }

  /** Joining the pieces with "<>" gives the split text back. */
  lemma {:induction false} SplitJoin(s: string)
    ensures JoinItems(SplitItems(s)) == s
    decreases |s|
  {
    match FindFrom(s, Separator, 0)
    case None =>
    case Some(k) =>
      SplitJoin(s[k + |Separator|..]);
      assert s == s[..k] + Separator + s[k + |Separator|..];
  }

  lemma SplitPlain(a: string)
    requires NoSeparator(a)
    ensures SplitItems(a) == [a]
  {
  }

  /** A piece free of "<>" followed by "<>" splits off as the first item. */
  lemma SplitAfter(a: string, b: string)
    requires NoSeparator(a)
    ensures SplitItems(a + Separator + b) == [a] + SplitItems(b)
  {
    var s := a + Separator + b;
    assert OccursAt(s, Separator, |a|);
    forall k | 0 <= k < |a|
      ensures !OccursAt(s, Separator, k)
    {
      if k + 1 < |a| {
        assert s[k..k + 2] == a[k..k + 2];
        assert !OccursAt(a, Separator, k);
      } else {
        assert s[k..k + 2][1] == s[k + 1] == '<' != Separator[1];
      }
    }
    FirstFrom(s, Separator, 0, |a|);
    assert s[..|a|] == a && s[|a| + |Separator|..] == b;
  }

  /** The items the split gives for runs separated by markers: each run, then "---". */
  function Interleave(texts: seq<string>): (items: seq<string>)
    requires |texts| > 0
    ensures |items| == 2 * |texts| - 1
  {
    if |texts| == 1 then texts else [texts[0], StepsItem] + Interleave(texts[1..])
  }

  /** The runs sit at the even positions and "---" at the odd ones. */
  lemma {:induction false} InterleaveShape(texts: seq<string>)
    requires |texts| > 0
    ensures forall i :: 0 <= i < |texts| ==> Interleave(texts)[2 * i] == texts[i]
    ensures forall i :: 0 <= i < |texts| - 1 ==> Interleave(texts)[2 * i + 1] == StepsItem
    decreases |texts|
  {
    if |texts| > 1 {
      var rest := Interleave(texts[1..]);
      InterleaveShape(texts[1..]);
      forall i | 1 <= i < |texts|
        ensures Interleave(texts)[2 * i] == texts[i]
      {
        assert Interleave(texts)[2 * i] == rest[2 * (i - 1)];
      }
      forall i | 1 <= i < |texts| - 1
        ensures Interleave(texts)[2 * i + 1] == StepsItem
      {
        assert Interleave(texts)[2 * i + 1] == rest[2 * (i - 1) + 1];
      }
    }
  }

  lemma WeaveMarkerHead(texts: seq<string>)
    requires |texts| > 1
    ensures Weave(texts, Markers(|texts| - 1))
         == texts[0] + Separator + (StepsItem + Separator + Weave(texts[1..], Markers(|texts| - 2)))
  {
    var n := |texts| - 1;
    var rest := Weave(texts[1..], Markers(n - 1));
    assert Markers(n) == [Marker] + Markers(n - 1);
    assert Weave(texts, Markers(n)) == texts[0] + Marker + rest;
    assert Marker == Separator + (StepsItem + Separator);
    Regroup(texts[0], Marker, rest);
  }

  lemma Regroup(x: string, m: string, rest: string)
    requires m == Separator + (StepsItem + Separator)
    ensures x + m + rest == x + Separator + (StepsItem + Separator + rest)
  {
  }

  lemma StepsItemPlain()
    ensures NoSeparator(StepsItem)
  {
    forall k: nat
      ensures !OccursAt(StepsItem, Separator, k)
    {
      if k + 2 <= 3 {
        assert StepsItem[k] == '-';
      }
    }
  }

  /** Two pieces free of "<>", each followed by "<>", split off as the first two items. */
  lemma SplitTwo(t: string, u: string, rest: string)
    requires NoSeparator(t) && NoSeparator(u)
    ensures SplitItems(t + Separator + (u + Separator + rest)) == [t, u] + SplitItems(rest)
  {
    var tail := u + Separator + rest;
    SplitAfter(t, tail);
    SplitAfter(u, rest);
  }

  /** A run followed by a marker splits into the run and "---". */
  lemma SplitMarkedStep(t: string, rest: string)
    requires NoSeparator(t)
    ensures SplitItems(t + Separator + (StepsItem + Separator + rest)) == [t, StepsItem] + SplitItems(rest)
  {
    StepsItemPlain();
    SplitTwo(t, StepsItem, rest);
  }

  lemma {:induction false} SplitMarked(texts: seq<string>)
    requires |texts| > 0 && forall i :: 0 <= i < |texts| ==> NoSeparator(texts[i])
    ensures SplitItems(Weave(texts, Markers(|texts| - 1))) == Interleave(texts)
    decreases |texts|
  {
    if |texts| == 1 {
      SplitPlain(texts[0]);
    } else {
      var rest := Weave(texts[1..], Markers(|texts| - 2));
      WeaveMarkerHead(texts);
      SplitMarkedStep(texts[0], rest);
      SplitMarked(texts[1..]);
    }
  }

  /** A prefix of a text free of "<>" is free of it. */
  lemma PrefixNoSeparator(t: string, s: string)
    requires NoSeparator(s) && t <= s
    ensures NoSeparator(t)
  {
    forall k: nat
      ensures !OccursAt(t, Separator, k)
    {
      if k + 2 <= |t| {
        assert t[k..k + 2] == s[k..k + 2];
        assert !OccursAt(s, Separator, k);
      }
    }
  }

  lemma SuffixNoSeparator(s: string, p: nat)
    requires NoSeparator(s) && p <= |s|
    ensures NoSeparator(s[p..])
  {
    forall k: nat
      ensures !OccursAt(s[p..], Separator, k)
    {
      if k + 2 <= |s[p..]| {
        assert s[p..][k..k + 2] == s[p + k..p + k + 2];
        assert !OccursAt(s, Separator, p + k);
      }
    }
  }

  lemma {:induction false} ScanTextsPlain(s: string, p: nat)
    requires p <= |s| && NoSeparator(s)
    ensures forall i :: 0 <= i < |Scan(s, p).texts| ==> NoSeparator(Scan(s, p).texts[i])
    decreases |s| - p
  {
    SuffixNoSeparator(s, p);
    PrefixNoSeparator(Scan(s, p).texts[0], s[p..]);
    if p < |s| {
      match ArtifactEnd(s, p)
      case Some(e) =>
        ScanTextsPlain(s, e);
      case None =>
        ScanTextsPlain(s, p + 1);
    }
  }

  /** The items of the chat panel: the replaced text split on "<>". */
  function ChatItems(content: string): (items: seq<string>)
    ensures |items| > 0 && JoinItems(items) == ReplaceArtifacts(content)
  {
    SplitJoin(ReplaceArtifacts(content));
    SplitItems(ReplaceArtifacts(content))
  }

  /**
   * For text without "<>", the items are the text runs with one "---" between each two:
   * one "---" item per artifact, in place, and joining the items with "<>" gives the replaced
   * text back.
   */
  lemma ChatItemsOfPlainText(content: string)
    requires NoSeparator(content)
    ensures ChatItems(content) == Interleave(Scan(content, 0).texts)
    ensures |ChatItems(content)| == 2 * ArtifactCount(content) + 1
    ensures JoinItems(ChatItems(content)) == ReplaceArtifacts(content)
  {
    ScanShown(content, 0);
    ScanTextsPlain(content, 0);
    SplitMarked(Scan(content, 0).texts);
    SplitJoin(ReplaceArtifacts(content));
  }

  /** How the panel shows an item. */
  datatype Block = StepsList | Text(text: string)

  /** The panel as written: an item is the steps list exactly when it equals "---". */
  function RenderItems(items: seq<string>): (blocks: seq<Block>)
    ensures |blocks| == |items|
    ensures forall i :: 0 <= i < |items| ==> (blocks[i] == StepsList <==> items[i] == StepsItem)
  {
    if items == [] then []
    else [if items[0] == StepsItem then StepsList else Text(items[0])] + RenderItems(items[1..])
  }

  function CountSteps(blocks: seq<Block>): nat {
    if blocks == [] then 0 else (if blocks[0] == StepsList then 1 else 0) + CountSteps(blocks[1..])
  }

  /**
   * Text that is itself "---", with no artifact in it, is shown as a steps list: the panel
   * cannot tell a marker from text that reads the same.
   */
  lemma PlainDashesShowSteps()
    ensures ArtifactCount(StepsItem) == 0
    ensures RenderItems(ChatItems(StepsItem)) == [StepsList]
  {
    assert !HasArtifact(StepsItem) by {
      forall p: nat ensures !OccursAt(StepsItem, Open, p) {
      }
    }
    ScanFindsNothing(StepsItem, 0);
    ReplaceUnchangedIff(StepsItem);
    StepsItemPlain();
    SplitPlain(StepsItem);
  }

  /** The blocks for text runs with an artifact between each two: text, steps list, text... */
  function BlocksOf(texts: seq<string>): (blocks: seq<Block>)
    requires |texts| > 0
    ensures |blocks| == 2 * |texts| - 1
  {
    if |texts| == 1 then [Text(texts[0])] else [Text(texts[0]), StepsList] + BlocksOf(texts[1..])
  }

  lemma {:induction false} BlocksOfShape(texts: seq<string>)
    requires |texts| > 0
    ensures forall i :: 0 <= i < |texts| ==> BlocksOf(texts)[2 * i] == Text(texts[i])
    decreases |texts|
  {
    if |texts| > 1 {
      var rest := BlocksOf(texts[1..]);
      BlocksOfShape(texts[1..]);
      forall i | 1 <= i < |texts|
        ensures BlocksOf(texts)[2 * i] == Text(texts[i])
      {
        assert BlocksOf(texts)[2 * i] == rest[2 * (i - 1)];
      }
    }
  }

  /** The panel built from the scan itself: a steps list exactly where an artifact was. */
  function Blocks(content: string): seq<Block> {
    BlocksOf(Scan(content, 0).texts)
  }

  lemma {:induction false} CountBlocksOf(texts: seq<string>)
    requires |texts| > 0
    ensures CountSteps(BlocksOf(texts)) == |texts| - 1
    decreases |texts|
  {
    if |texts| > 1 {
      var rest := BlocksOf(texts[1..]);
      var b := BlocksOf(texts);
      assert b[1..][1..] == rest;
      CountBlocksOf(texts[1..]);
    }
  }

  /** There is one steps list per artifact, and every run of text is shown as text. */
  lemma BlocksMatchArtifacts(content: string)
    ensures CountSteps(Blocks(content)) == ArtifactCount(content)
    ensures forall i :: 0 <= i < |Scan(content, 0).texts| ==>
              Blocks(content)[2 * i] == Text(Scan(content, 0).texts[i])
  {
    CountBlocksOf(Scan(content, 0).texts);
    BlocksOfShape(Scan(content, 0).texts);
  }

  /** Rendering by value agrees with the scan whenever no text run reads "---". */
  lemma {:induction false} RenderMatchesBlocks(texts: seq<string>)
    requires |texts| > 0 && forall i :: 0 <= i < |texts| ==> texts[i] != StepsItem
    ensures RenderItems(Interleave(texts)) == BlocksOf(texts)
    decreases |texts|
  {
    if |texts| > 1 {
      RenderMatchesBlocks(texts[1..]);
      var items := Interleave(texts);
      assert items == [texts[0]] + ([StepsItem] + Interleave(texts[1..]));
      assert RenderItems(items) == [Text(texts[0])] + RenderItems([StepsItem] + Interleave(texts[1..]));
      assert RenderItems([StepsItem] + Interleave(texts[1..]))
          == [StepsList] + RenderItems(Interleave(texts[1..]));
    }
  }

  /**
   * For text without "<>" in which no run between artifacts reads "---", the panel as
   * written shows exactly the blocks of the scan.
   */
  lemma ChatPanelFaithful(content: string)
    requires NoSeparator(content)
    requires forall i :: 0 <= i < |Scan(content, 0).texts| ==> Scan(content, 0).texts[i] != StepsItem
    ensures RenderItems(ChatItems(content)) == Blocks(content)
  {
    ChatItemsOfPlainText(content);
    RenderMatchesBlocks(Scan(content, 0).texts);
  }
}
