/** Small value types and string predicates shared by the whole model. */
module Common {

  /** A value that may be absent (a JavaScript `undefined`/`null`). */
  datatype Option<+T> = None | Some(value: T)

  /** JavaScript truthiness of an optional string: `undefined`, `null` and `""` are falsy. */
  predicate Truthy(s: Option<string>) {
    s.Some? && s.value != ""
  }

  predicate StartsWith(s: string, prefix: string) {
    |prefix| <= |s| && s[..|prefix|] == prefix
  }

  predicate EndsWith(s: string, suffix: string) {
    |suffix| <= |s| && s[|s| - |suffix|..] == suffix
  }

  /** `s` has `t` as a factor starting at index `i`. */
  predicate OccursAt(s: string, t: string, i: nat) {
    i + |t| <= |s| && s[i..i + |t|] == t
  }

  /** Lexicographic order on strings, by character code. */
  predicate NameLe(a: string, b: string)
    decreases |a|
  {
    |a| == 0 || (|b| > 0 && (a[0] < b[0] || (a[0] == b[0] && NameLe(a[1..], b[1..]))))
  }

  lemma {:induction false} NameLeTotal(a: string, b: string)
    ensures NameLe(a, b) || NameLe(b, a)
    decreases |a|
  {
    if |a| > 0 && |b| > 0 && a[0] == b[0] {
      NameLeTotal(a[1..], b[1..]);
    }
  }

  lemma {:induction false} NameLeTrans(a: string, b: string, c: string)
    requires NameLe(a, b) && NameLe(b, c)
    ensures NameLe(a, c)
    decreases |a|
  {
    if |a| > 0 && |b| > 0 && |c| > 0 && a[0] == b[0] && b[0] == c[0] {
      NameLeTrans(a[1..], b[1..], c[1..]);
    }
  }

  lemma {:induction false} NameLeAntisym(a: string, b: string)
    requires NameLe(a, b) && NameLe(b, a)
    ensures a == b
    decreases |a|
  {
    if |a| > 0 {
      NameLeAntisym(a[1..], b[1..]);
      assert a == [a[0]] + a[1..] && b == [b[0]] + b[1..];
    }
  }

  /** No element occurs twice. */
  ghost predicate NoDup<T(!new)>(s: seq<T>) {
    forall x :: multiset(s)[x] <= 1
  }

  lemma {:induction false} NoDupDistinct<T(!new)>(s: seq<T>, i: nat, j: nat)
    requires NoDup(s) && i < j < |s|
    ensures s[i] != s[j]
  {
    assert s == s[..i] + [s[i]] + s[i + 1..];
    assert s[j] in multiset(s[i + 1..]);
    assert multiset(s)[s[i]] == multiset(s[..i])[s[i]] + 1 + multiset(s[i + 1..])[s[i]];
  }
}
