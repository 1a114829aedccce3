/** The query primitives the stores use: filtering, first match, a stable
    sort by a caller-given order, and the skip/limit window of a listing. */
module Seqs {
  import opened Common

  /** Keeps the elements `keep` accepts, in their original order. */
  function Filter<T>(s: seq<T>, keep: T -> bool): (r: seq<T>)
    ensures |r| <= |s|
    ensures forall i :: 0 <= i < |r| ==> keep(r[i])
  {
    if s == [] then []
    else
      assert s == [s[0]] + s[1..];
      (if keep(s[0]) then [s[0]] else []) + Filter(s[1..], keep)
  }

  /** Filtering adds nothing: every kept element comes from the input. */
  lemma {:induction false} FilterFromInput<T>(s: seq<T>, keep: T -> bool)
    ensures multiset(Filter(s, keep)) <= multiset(s)
  {
    if s != [] {
      FilterFromInput(s[1..], keep);
      assert s == [s[0]] + s[1..];
    }
  }

  /** Filtering keeps each accepted element as often as the input holds
      it, and adds nothing. */
  lemma {:induction false} FilterCounts<T(!new)>(s: seq<T>, keep: T -> bool)
    ensures forall x :: multiset(Filter(s, keep))[x] == if keep(x) then multiset(s)[x] else 0
  {
    if s != [] {
      FilterCounts(s[1..], keep);
      assert s == [s[0]] + s[1..];
    }
  }

  /** Concatenation regroups freely. */
  lemma AppendAssoc<T>(a: seq<T>, b: seq<T>, c: seq<T>)
    ensures a + b + c == a + (b + c)
  {
  }

  /** A non-empty prefix splits into its head and the rest. */
  lemma HeadThenRest<T>(a: seq<T>, b: seq<T>)
    requires a != []
    ensures a + b == [a[0]] + (a[1..] + b)
  {
    assert a == [a[0]] + a[1..];
  }

  /** Filtering a concatenation filters each part. */
  lemma {:induction false} FilterAppend<T>(a: seq<T>, b: seq<T>, keep: T -> bool)
    ensures Filter(a + b, keep) == Filter(a, keep) + Filter(b, keep)
  {
    if a == [] {
      assert a + b == b;
    } else {
      var head := if keep(a[0]) then [a[0]] else [];
      assert (a + b)[0] == a[0] && (a + b)[1..] == a[1..] + b;
      assert Filter(a + b, keep) == head + Filter(a[1..] + b, keep);
      FilterAppend(a[1..], b, keep);
      assert Filter(a, keep) == head + Filter(a[1..], keep);
    }
  }

  /** The index of the first element satisfying `p`, if any. */
  function FindFirst<T>(s: seq<T>, p: T -> bool): (r: Option<nat>)
    ensures r.Some? ==> r.value < |s| && p(s[r.value])
    ensures r.Some? ==> forall j :: 0 <= j < r.value ==> !p(s[j])
    ensures r.None? <==> forall j :: 0 <= j < |s| ==> !p(s[j])
  {
    if s == [] then None
    else if p(s[0]) then Some(0)
    else match FindFirst(s[1..], p)
      case None => None
      case Some(k) => Some(k + 1)
  }

  /** `le` is a total preorder: any two elements compare, and comparison chains. */
  ghost predicate TotalPreorder<T(!new)>(le: (T, T) -> bool) {
    && (forall a, b :: le(a, b) || le(b, a))
    && (forall a, b, c :: le(a, b) && le(b, c) ==> le(a, c))
  }

  /** Every element comes no later than every element after it. */
  ghost predicate Sorted<T>(s: seq<T>, le: (T, T) -> bool) {
    forall i, j :: 0 <= i < j < |s| ==> le(s[i], s[j])
  }

  /** Puts `x` in front of the first element it may precede. */
  function Insert<T>(x: T, s: seq<T>, le: (T, T) -> bool): (r: seq<T>)
    ensures multiset(r) == multiset(s) + multiset{x}
    ensures |r| == |s| + 1
  {
    if s == [] || le(x, s[0]) then [x] + s
    else
      assert s == [s[0]] + s[1..];
      [s[0]] + Insert(x, s[1..], le)
  }

  /** Insertion sort; elements that compare both ways keep their input order. */
  function SortBy<T>(s: seq<T>, le: (T, T) -> bool): (r: seq<T>)
    ensures multiset(r) == multiset(s)
    ensures |r| == |s|
  {
    if s == [] then []
    else
      assert s == [s[0]] + s[1..];
      Insert(s[0], SortBy(s[1..], le), le)
  }

  lemma {:induction false} InsertSorted<T(!new)>(x: T, s: seq<T>, le: (T, T) -> bool)
    requires TotalPreorder(le) && Sorted(s, le)
    ensures Sorted(Insert(x, s, le), le)
  {
    if s == [] || le(x, s[0]) {
      var r := [x] + s;
      forall i, j | 0 <= i < j < |r| ensures le(r[i], r[j]) {
        if i == 0 && j > 1 {
          assert le(s[0], s[j - 1]);
        }
      }
    } else {
      assert le(s[0], x);
      InsertSorted(x, s[1..], le);
      var t := Insert(x, s[1..], le);
      var r := [s[0]] + t;
      forall j | 0 <= j < |t| ensures le(s[0], t[j]) {
        assert t[j] in multiset(t);
        assert t[j] == x || t[j] in multiset(s[1..]);
        if t[j] != x {
          var k :| 0 <= k < |s[1..]| && s[1..][k] == t[j];
          assert le(s[0], s[k + 1]);
        }
      }
      forall i, j | 0 <= i < j < |r| ensures le(r[i], r[j]) {
        if i > 0 {
          assert r[i] == t[i - 1] && r[j] == t[j - 1];
        }
      }
    }
  }

  /** For a total preorder, the sort's output is in order (and, by the
      contract of SortBy, a permutation of its input). */
  lemma {:induction false} SortBySorted<T(!new)>(s: seq<T>, le: (T, T) -> bool)
    requires TotalPreorder(le)
    ensures Sorted(SortBy(s, le), le)
  {
    if s != [] {
      SortBySorted(s[1..], le);
      InsertSorted(s[0], SortBy(s[1..], le), le);
    }
  }

  /** The elements `keep` accepts, ordered by `le`: a query with a sort. */
  function FilterSorted<T(!new)>(s: seq<T>, keep: T -> bool, le: (T, T) -> bool): (r: seq<T>)
    requires TotalPreorder(le)
    ensures |r| == |Filter(s, keep)|
    ensures multiset(r) == multiset(Filter(s, keep))
    ensures forall i :: 0 <= i < |r| ==> keep(r[i]) && r[i] in s
    ensures Sorted(r, le)
  {
    var m := Filter(s, keep);
    SortBySorted(m, le);
    PermutedFilterMembers(SortBy(m, le), s, keep);
    SortBy(m, le)
  }

  /** Any reordering of the filtered elements holds only accepted elements
      of the input. */
  lemma PermutedFilterMembers<T>(r: seq<T>, s: seq<T>, keep: T -> bool)
    requires multiset(r) == multiset(Filter(s, keep))
    ensures forall i :: 0 <= i < |r| ==> keep(r[i]) && r[i] in s
  {
    var m := Filter(s, keep);
    FilterFromInput(s, keep);
    forall i | 0 <= i < |r| ensures keep(r[i]) && r[i] in s {
      assert r[i] in multiset(m);
      assert r[i] in multiset(s);
    }
  }

  /** Nothing `keep` accepts is lost by the sorted query. */
  lemma FilterSortedComplete<T(!new)>(s: seq<T>, keep: T -> bool, le: (T, T) -> bool, x: T)
    requires TotalPreorder(le)
    requires x in s && keep(x)
    ensures x in FilterSorted(s, keep, le)
  {
    FilterCounts(s, keep);
    assert x in multiset(Filter(s, keep));
    assert x in multiset(FilterSorted(s, keep, le));
  }

  function Min(a: int, b: int): int {
    if a <= b then a else b
  }

  /** `.skip(skip).limit(limit)`: at most `limit` elements, the ones that
      follow the first `skip`. */
  function Window<T>(s: seq<T>, skip: nat, limit: nat): (r: seq<T>)
    ensures |r| == if skip >= |s| then 0 else Min(limit, |s| - skip)
    ensures forall k :: 0 <= k < |r| ==> skip + k < |s| && r[k] == s[skip + k]
  {
    s[Min(skip, |s|)..Min(skip + limit, |s|)]
  }

  /** A property of every element carries over to every element of a window. */
  lemma WindowPreserves<T>(s: seq<T>, skip: nat, limit: nat, p: T -> bool)
    requires forall i :: 0 <= i < |s| ==> p(s[i])
    ensures forall i :: 0 <= i < |Window(s, skip, limit)| ==> p(Window(s, skip, limit)[i])
  {
  }

  /** A window of a sorted sequence is sorted. */
  lemma WindowSorted<T>(s: seq<T>, skip: nat, limit: nat, le: (T, T) -> bool)
    requires Sorted(s, le)
    ensures Sorted(Window(s, skip, limit), le)
  {
    var w := Window(s, skip, limit);
    forall i, j | 0 <= i < j < |w| ensures le(w[i], w[j]) {
      assert w[i] == s[skip + i] && w[j] == s[skip + j];
    }
  }

  /** `Math.ceil(n / d)` for a positive divisor: the fewest pages of `d`
      that hold `n` items. */
  function CeilDiv(n: nat, d: nat): (r: nat)
    requires d > 0
    ensures r * d >= n
    ensures r == 0 || (r - 1) * d < n
  {
    var q := (n + d - 1) / d;
    assert n + d - 1 == q * d + (n + d - 1) % d;
    assert (q - 1) * d == q * d - d;
    q
  }

  /** Removing the `k`-th element keeps the others in order. */
  function Without<T>(s: seq<T>, k: nat): (r: seq<T>)
    requires k < |s|
    ensures |r| == |s| - 1
    ensures forall i :: 0 <= i < k ==> r[i] == s[i]
    ensures forall i :: k <= i < |r| ==> r[i] == s[i + 1]
    ensures multiset(r) + multiset{s[k]} == multiset(s)
  {
    assert s == s[..k] + [s[k]] + s[k + 1..];
    s[..k] + s[k + 1..]
  }

  /** Page `page` (counted from 1) of `limit` items: skip `(page - 1) * limit`. */
  function Page<T>(s: seq<T>, page: nat, limit: nat): seq<T>
    requires page >= 1
  {
    Window(s, (page - 1) * limit, limit)
  }

  /** Every element of a page satisfies what every element of `s` does. */
  lemma PagePreserves<T>(s: seq<T>, page: nat, limit: nat, p: T -> bool)
    requires page >= 1
    requires forall i :: 0 <= i < |s| ==> p(s[i])
    ensures forall i :: 0 <= i < |Page(s, page, limit)| ==> p(Page(s, page, limit)[i])
  {
    WindowPreserves(s, (page - 1) * limit, limit, p);
  }

  /** A page of a sorted sequence is sorted. */
  lemma PageSorted<T>(s: seq<T>, page: nat, limit: nat, le: (T, T) -> bool)
    requires page >= 1
    requires Sorted(s, le)
    ensures Sorted(Page(s, page, limit), le)
  {
    WindowSorted(s, (page - 1) * limit, limit, le);
  }

  /** Pages 1 to `k` laid end to end. */
  function Pages<T>(s: seq<T>, limit: nat, k: nat): seq<T> {
    if k == 0 then [] else Pages(s, limit, k - 1) + Page(s, k, limit)
  }

  lemma {:induction false} PagesPrefix<T>(s: seq<T>, limit: nat, k: nat)
    requires limit > 0
    ensures Pages(s, limit, k) == s[..Min(k * limit, |s|)]
  {
    if k > 0 {
      PagesPrefix(s, limit, k - 1);
      PageIsSlice(s, k, limit);
      PrefixThenSlice(s, Min((k - 1) * limit, |s|), Min(k * limit, |s|));
    }
  }

  lemma PrefixThenSlice<T>(s: seq<T>, a: nat, b: nat)
    requires a <= b <= |s|
    ensures s[..a] + s[a..b] == s[..b]
  {
  }

  /** Page `k` is the slice between the ends of pages `k - 1` and `k`. */
  lemma PageIsSlice<T>(s: seq<T>, k: nat, limit: nat)
    requires k >= 1
    ensures Min((k - 1) * limit, |s|) <= Min(k * limit, |s|)
    ensures Page(s, k, limit) == s[Min((k - 1) * limit, |s|)..Min(k * limit, |s|)]
  {
    var skip := (k - 1) * limit;
    assert skip + limit == k * limit;
  }

  /** The listing's pages partition the matches: pages 1 to
      `ceil(|s| / limit)` concatenate to exactly `s`, so paging neither
      repeats nor omits an item. */
  lemma PagesPartition<T>(s: seq<T>, limit: nat)
    requires limit > 0
    ensures Pages(s, limit, CeilDiv(|s|, limit)) == s
  {
    PagesPrefix(s, limit, CeilDiv(|s|, limit));
  }

  /** A page past the last one is empty. */
  lemma PagePastEndEmpty<T>(s: seq<T>, page: nat, limit: nat)
    requires limit > 0 && page > CeilDiv(|s|, limit)
    ensures Page(s, page, limit) == []
  {
    var c := CeilDiv(|s|, limit);
    assert (page - 1) * limit >= c * limit by {
      MulMonotone(c, page - 1, limit);
    }
  }

  lemma MulMonotone(a: nat, b: nat, m: nat)
    requires a <= b
    ensures a * m <= b * m
  {
    assert b * m == a * m + (b - a) * m;
  }
}
