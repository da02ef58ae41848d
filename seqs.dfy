/**
 * Rows of a table as a sequence, and the query and array operations the core applies
 * to them: the first matching row (Prisma `findFirst` / `findUnique`), `filter`,
 * `count`, de-duplication through a `Set`, and ordering by a comparison (`orderBy`).
 */
module Seqs {
  import opened Wrappers

  /** The index of the first element satisfying `p`, or None when no element does. */
  function FindFirst<T>(s: seq<T>, p: T -> bool): (r: Option<nat>)
    ensures r.Some? ==> r.value < |s| && p(s[r.value])
    ensures r.Some? ==> forall j :: 0 <= j < r.value ==> !p(s[j])
    ensures r.None? ==> forall j :: 0 <= j < |s| ==> !p(s[j])
    decreases |s|
  {
    if |s| == 0 then None
    else if p(s[0]) then Some(0)
    else match FindFirst(s[1..], p)
      case None => None
      case Some(k) => Some(k + 1)
  }

  /** `s.filter(p)`, keeping the order of `s`. */
  function Filter<T>(s: seq<T>, p: T -> bool): seq<T>
    decreases |s|
  {
    if |s| == 0 then [] else (if p(s[0]) then [s[0]] else []) + Filter(s[1..], p)
  }

  /** `s.filter(p).length`, Prisma's `count` with a `where`. */
  function Count<T>(s: seq<T>, p: T -> bool): nat
  {
    |Filter(s, p)|
  }

  /** What a filter keeps: each element satisfying `p`, as often as it occurs in `s`, and nothing else. */
  lemma {:induction false} FilterKeeps<T>(s: seq<T>, p: T -> bool)
    ensures |Filter(s, p)| <= |s|
    ensures forall x :: x in Filter(s, p) <==> x in s && p(x)
    ensures forall x :: multiset(Filter(s, p))[x] == if p(x) then multiset(s)[x] else 0
    decreases |s|
  {
    if |s| > 0 {
      FilterKeeps(s[1..], p);
      assert s == [s[0]] + s[1..];
    }
  }

  /** A filter keeps every element iff every element satisfies its predicate. */
  lemma {:induction false} FilterAll<T>(s: seq<T>, p: T -> bool)
    ensures Filter(s, p) == s <==> forall x :: x in s ==> p(x)
    decreases |s|
  {
    FilterKeeps(s, p);
    if |s| > 0 {
      FilterAll(s[1..], p);
      if forall x :: x in s ==> p(x) {
        assert forall x :: x in s[1..] ==> x in s;
      }
    }
  }

  /** Filtering with a predicate that implies `p` discards whatever a first filter by `p` discarded:
      a second filter by `q` sees exactly the elements a single filter by `q` keeps. */
  lemma {:induction false} FilterAfterWeakerFilter<T>(s: seq<T>, p: T -> bool, q: T -> bool)
    requires forall x :: q(x) ==> p(x)
    ensures Filter(Filter(s, p), q) == Filter(s, q)
    decreases |s|
  {
    if |s| > 0 {
      FilterAfterWeakerFilter(s[1..], p, q);
      FilterAppend([s[0]], s[1..], p);
      FilterAppend(if p(s[0]) then [s[0]] else [], Filter(s[1..], p), q);
      assert s == [s[0]] + s[1..];
      FilterAppend([s[0]], s[1..], q);
    }
  }

  lemma {:induction false} FilterAppend<T>(a: seq<T>, b: seq<T>, p: T -> bool)
    ensures Filter(a + b, p) == Filter(a, p) + Filter(b, p)
    decreases |a|
  {
    if |a| > 0 {
      FilterAppend(a[1..], b, p);
      assert (a + b)[0] == a[0];
      assert (a + b)[1..] == a[1..] + b;
      var head := if p(a[0]) then [a[0]] else [];
      calc {
        Filter(a + b, p);
        head + Filter(a[1..] + b, p);
        head + (Filter(a[1..], p) + Filter(b, p));
        (head + Filter(a[1..], p)) + Filter(b, p);
      }
    } else {
      assert a + b == b;
    }
  }

  /** Two sequences whose elements satisfy `p` alike, position by position, have their first
      match at the same place. */
  lemma FindFirstAgrees<T>(s: seq<T>, s': seq<T>, p: T -> bool)
    requires |s| == |s'| && forall j :: 0 <= j < |s| ==> p(s[j]) == p(s'[j])
    ensures FindFirst(s, p) == FindFirst(s', p)
  {
    var r, r' := FindFirst(s, p), FindFirst(s', p);
    assert r.Some? ==> p(s'[r.value]);
    assert r'.Some? ==> p(s[r'.value]);
  }

  /** Two sequences whose elements satisfy `p` alike, position by position, have as many matches. */
  lemma {:induction false} CountAgrees<T>(s: seq<T>, s': seq<T>, p: T -> bool)
    requires |s| == |s'| && forall j :: 0 <= j < |s| ==> p(s[j]) == p(s'[j])
    ensures Count(s, p) == Count(s', p)
    decreases |s|
  {
    if |s| > 0 {
      assert p(s[0]) == p(s'[0]);
      assert forall j :: 0 <= j < |s[1..]| ==> s[1..][j] == s[j + 1] && s'[1..][j] == s'[j + 1];
      CountAgrees(s[1..], s'[1..], p);
    }
  }

  /** Replacing one element changes a count by what the old and the new element contribute. */
  lemma CountUpdate<T>(s: seq<T>, i: nat, x: T, p: T -> bool)
    requires i < |s|
    ensures Count(s[i := x], p) == Count(s, p) - (if p(s[i]) then 1 else 0) + (if p(x) then 1 else 0)
  {
    assert s == s[..i] + [s[i]] + s[i + 1..];
    assert s[i := x] == s[..i] + [x] + s[i + 1..];
    FilterAppend(s[..i] + [s[i]], s[i + 1..], p);
    FilterAppend(s[..i], [s[i]], p);
    FilterAppend(s[..i] + [x], s[i + 1..], p);
    FilterAppend(s[..i], [x], p);
  }

  /** Two predicates that no element satisfies together count at most the length between them. */
  lemma {:induction false} CountDisjoint<T>(s: seq<T>, p: T -> bool, q: T -> bool)
    requires forall x :: !(p(x) && q(x))
    ensures Count(s, p) + Count(s, q) <= |s|
    decreases |s|
  {
    if |s| > 0 {
      CountDisjoint(s[1..], p, q);
    }
  }

  /** A stronger predicate counts no more elements. */
  lemma CountMonotone<T>(s: seq<T>, p: T -> bool, q: T -> bool)
    requires forall x :: q(x) ==> p(x)
    ensures Count(s, q) <= Count(s, p)
  {
    FilterAfterWeakerFilter(s, p, q);
    FilterKeeps(Filter(s, p), q);
  }

  /** `s.slice(0, n)`: the first `n` elements, or all of them when there are fewer. */
  function Take<T>(s: seq<T>, n: nat): (r: seq<T>)
    ensures |r| <= n && |r| <= |s|
    ensures r == s[..|r|]
    ensures |r| == n || r == s
  {
    if |s| <= n then s else s[..n]
  }

  /** `s.map(f)`. */
  function Map<T, U>(s: seq<T>, f: T -> U): seq<U>
  {
    seq(|s|, i requires 0 <= i < |s| => f(s[i]))
  }

  predicate NoDuplicates<T(==)>(s: seq<T>)
  {
    forall i, j :: 0 <= i < j < |s| ==> s[i] != s[j]
  }

  /** `Array.from(new Set(s))`: each distinct element once, in the order of its first occurrence. */
  function Dedup<T(==)>(s: seq<T>): (r: seq<T>)
    ensures NoDuplicates(r)
    ensures forall i :: 0 <= i < |r| ==> r[i] in s
    ensures forall i :: 0 <= i < |s| ==> s[i] in r
    decreases |s|
  {
    if |s| == 0 then []
    else
      var r := Dedup(s[..|s| - 1]);
      assert s == s[..|s| - 1] + [s[|s| - 1]];
      if s[|s| - 1] in r then r else r + [s[|s| - 1]]
  }

  /** A comparison usable for sorting: every two elements are comparable, and it is transitive. */
  ghost predicate TotalPreorder<T(!new)>(before: (T, T) -> bool)
  {
    && (forall a, b :: before(a, b) || before(b, a))
    && (forall a, b, c :: before(a, b) && before(b, c) ==> before(a, c))
  }

  /** Every element may stand before every later one. */
  predicate SortedBy<T>(s: seq<T>, before: (T, T) -> bool)
  {
    forall i, j :: 0 <= i < j < |s| ==> before(s[i], s[j])
  }

  function Insert<T(!new)>(x: T, s: seq<T>, before: (T, T) -> bool): (r: seq<T>)
    requires TotalPreorder(before) && SortedBy(s, before)
    ensures SortedBy(r, before) && multiset(r) == multiset(s) + multiset{x}
    decreases |s|
  {
    if |s| == 0 then [x]
    else if before(x, s[0]) then
      assert forall j :: 0 <= j < |s| ==> before(x, s[j]) by {
        forall j | 0 < j < |s| ensures before(x, s[j]) {
          assert before(s[0], s[j]);
        }
      }
      [x] + s
    else
      var t := Insert(x, s[1..], before);
      assert s == [s[0]] + s[1..];
      assert forall k :: 0 <= k < |t| ==> before(s[0], t[k]) by {
        forall k | 0 <= k < |t| ensures before(s[0], t[k]) {
          assert t[k] in multiset(t);
          if t[k] != x {
            assert t[k] in multiset(s[1..]);
            var j :| 0 <= j < |s[1..]| && s[1..][j] == t[k];
            assert before(s[0], s[j + 1]);
          }
        }
      }
      [s[0]] + t
  }

  /** The rows of `s` ordered by `before` (Prisma `orderBy`): a sorted permutation of `s`. */
  function SortBy<T(!new)>(s: seq<T>, before: (T, T) -> bool): (r: seq<T>)
    requires TotalPreorder(before)
    ensures SortedBy(r, before) && multiset(r) == multiset(s)
    decreases |s|
  {
    if |s| == 0 then []
    else
      assert s == [s[0]] + s[1..];
      Insert(s[0], SortBy(s[1..], before), before)
  }
}
