/**
 * The list operations the three profile editors share: records carry an optional string id,
 * edits replace by id, deletes filter by id, additions append with an id made from the clock,
 * and the views sort a copy by a numeric key, highest first.
 */
module ProfileLists {
  import opened Common

  /** A record of a profile list: its optional `id` and the rest of its fields. */
  datatype Entry<D> = Entry(id: Option<string>, data: D)

  /** `prev.map(x => x.id === id ? {...data, id} : x)`. */
  function ReplaceById<D>(list: seq<Entry<D>>, id: string, data: D): (r: seq<Entry<D>>)
    ensures |r| == |list|
    ensures forall i :: 0 <= i < |r| ==> r[i].id == list[i].id
    ensures forall i :: 0 <= i < |r| ==>
              if list[i].id == Some(id) then r[i].data == data else r[i] == list[i]
  {
    if list == [] then []
    else
      var head := if list[0].id == Some(id) then Entry(Some(id), data) else list[0];
      [head] + ReplaceById(list[1..], id, data)
  }

  /** Replacing twice with the same data is replacing once. */
  lemma ReplaceByIdIdempotent<D>(list: seq<Entry<D>>, id: string, data: D)
    ensures ReplaceById(ReplaceById(list, id, data), id, data) == ReplaceById(list, id, data)
  {
    var once := ReplaceById(list, id, data);
    var twice := ReplaceById(once, id, data);
    assert forall i :: 0 <= i < |twice| ==> twice[i] == once[i];
  }

  /** `prev.filter(x => x.id !== id)`. */
  function RemoveById<D(!new)>(list: seq<Entry<D>>, id: string): (r: seq<Entry<D>>)
    ensures |r| <= |list|
    ensures forall x :: x in r <==> x in list && x.id != Some(id)
    ensures (forall x :: x in list ==> x.id != Some(id)) ==> r == list
  {
    if list == [] then []
    else if list[0].id == Some(id) then RemoveById(list[1..], id)
    else [list[0]] + RemoveById(list[1..], id)
  }

  /** Removal works piecewise, so the kept records stay in their order. */
  lemma {:induction false} RemoveByIdConcat<D(!new)>(a: seq<Entry<D>>, b: seq<Entry<D>>, id: string)
    ensures RemoveById(a + b, id) == RemoveById(a, id) + RemoveById(b, id)
    decreases |a|
  {
    if a == [] {
      assert a + b == b;
    } else {
      assert (a + b)[0] == a[0] && (a + b)[1..] == a[1..] + b;
      RemoveByIdConcat(a[1..], b, id);
    }
  }

  /** Removing the same id again changes nothing. */
  lemma RemoveByIdIdempotent<D(!new)>(list: seq<Entry<D>>, id: string)
    ensures RemoveById(RemoveById(list, id), id) == RemoveById(list, id)
  {
  }

  /** The decimal digits of `n`, as `${n}` writes them. */
  function Decimal(n: nat): (s: string)
    ensures |s| > 0 && (n < 10 <==> |s| == 1)
    ensures forall i :: 0 <= i < |s| ==> '0' <= s[i] <= '9'
  {
    var digit := ['0' + (n % 10) as char];
    if n < 10 then digit else Decimal(n / 10) + digit
  }

  /** Different clock readings give different decimal strings. */
  lemma {:induction false} DecimalInjective(a: nat, b: nat)
    requires Decimal(a) == Decimal(b)
    ensures a == b
    decreases a
  {
    var s := Decimal(a);
    assert s[|s| - 1] == '0' + (a % 10) as char == '0' + (b % 10) as char;
    if a >= 10 {
      assert Decimal(a / 10) == s[..|s| - 1] == Decimal(b / 10);
      DecimalInjective(a / 10, b / 10);
    }
  }

  /** The id `${prefix}${Date.now()}` an added record gets. */
  function ClockId(prefix: string, now: nat): (r: string)
    ensures |r| > |prefix| && r[..|prefix|] == prefix
    ensures forall i :: |prefix| <= i < |r| ==> '0' <= r[i] <= '9'
  {
    prefix + Decimal(now)
  }

  lemma ClockIdInjective(prefix: string, a: nat, b: nat)
    requires ClockId(prefix, a) == ClockId(prefix, b)
    ensures a == b
  {
    assert Decimal(a) == ClockId(prefix, a)[|prefix|..];
    assert Decimal(b) == ClockId(prefix, b)[|prefix|..];
    DecimalInjective(a, b);
  }

  /** Ordered by `key`, highest first. */
  ghost predicate SortedDesc<T>(s: seq<T>, key: T -> int) {
    forall i, j :: 0 <= i < j < |s| ==> key(s[i]) >= key(s[j])
  }

  function InsertDesc<T>(x: T, sorted: seq<T>, key: T -> int): (r: seq<T>)
    ensures multiset(r) == multiset(sorted) + multiset{x}
  {
    if sorted == [] || key(x) >= key(sorted[0]) then [x] + sorted
    else
      assert sorted == [sorted[0]] + sorted[1..];
      [sorted[0]] + InsertDesc(x, sorted[1..], key)
  }

  lemma {:induction false} InsertDescSorted<T>(x: T, sorted: seq<T>, key: T -> int)
    requires SortedDesc(sorted, key)
    ensures SortedDesc(InsertDesc(x, sorted, key), key)
    decreases |sorted|
  {
    if sorted != [] && key(x) < key(sorted[0]) {
      InsertDescSorted(x, sorted[1..], key);
      var r := InsertDesc(x, sorted, key);
      forall i, j | 0 <= i < j < |r|
        ensures key(r[i]) >= key(r[j])
      {
        if i == 0 {
          assert r[j] in multiset(sorted[1..]) + multiset{x};
          if r[j] != x {
            var m :| 0 <= m < |sorted[1..]| && sorted[1..][m] == r[j];
            assert sorted[m + 1] == r[j];
          }
        }
      }
    }
  }

  /** `[...list].sort((a, b) => key(b) - key(a))`: a sorted copy, the input left as it is. */
  function SortDesc<T>(list: seq<T>, key: T -> int): (r: seq<T>)
    ensures multiset(r) == multiset(list)
  {
    if list == [] then []
    else
      assert list == [list[0]] + list[1..];
      InsertDesc(list[0], SortDesc(list[1..], key), key)
  }

  lemma {:induction false} SortDescSorted<T>(list: seq<T>, key: T -> int)
    ensures SortedDesc(SortDesc(list, key), key)
    decreases |list|
  {
    if list != [] {
      SortDescSorted(list[1..], key);
      InsertDescSorted(list[0], SortDesc(list[1..], key), key);
    }
  }

  /** `list.filter(keep)`. */
  function Filter<T(!new)>(list: seq<T>, keep: T -> bool): (r: seq<T>)
    ensures |r| <= |list|
    ensures forall x :: x in r <==> x in list && keep(x)
  {
    if list == [] then []
    else if keep(list[0]) then [list[0]] + Filter(list[1..], keep)
    else Filter(list[1..], keep)
  }

  /** Filtering works piecewise, so the kept elements stay in their order. */
  lemma {:induction false} FilterConcat<T(!new)>(a: seq<T>, b: seq<T>, keep: T -> bool)
    ensures Filter(a + b, keep) == Filter(a, keep) + Filter(b, keep)
    decreases |a|
  {
    if a == [] {
      assert a + b == b;
    } else {
      assert (a + b)[0] == a[0] && (a + b)[1..] == a[1..] + b;
      FilterConcat(a[1..], b, keep);
    }
  }

  /** A filter of a list ordered by `key` is still ordered by `key`. */
  lemma {:induction false} FilterKeepsOrder<T(!new)>(list: seq<T>, keep: T -> bool, key: T -> int)
    ensures SortedDesc(list, key) ==> SortedDesc(Filter(list, keep), key)
    decreases |list|
  {
    if list != [] && SortedDesc(list, key) {
      var rest := list[1..];
      assert SortedDesc(rest, key) by {
        forall i, j | 0 <= i < j < |rest|
          ensures key(rest[i]) >= key(rest[j])
        {
          assert rest[i] == list[i + 1] && rest[j] == list[j + 1];
        }
      }
      FilterKeepsOrder(rest, keep, key);
      if keep(list[0]) {
        var r := Filter(list, keep);
        forall i, j | 0 <= i < j < |r|
          ensures key(r[i]) >= key(r[j])
        {
          if i == 0 {
            assert r[j] in rest;
            var m :| 0 <= m < |rest| && rest[m] == r[j];
            assert list[m + 1] == r[j];
          }
        }
      }
    }
  }
}
