/**
 * Sequence operations shared by the scripts: Python list membership and
 * `list.remove`, order-preserving filters over parallel sequences (how a
 * data frame drops labelled columns), first-appearance de-duplication
 * (`pandas.unique`, `Series.unique`) and the subsequence order.
 */
module Seqs {

  predicate Distinct<T(==)>(s: seq<T>) {
    forall i, j :: 0 <= i < j < |s| ==> s[i] != s[j]
  }

  /** The set of elements of `s`. */
  function Elems<T>(s: seq<T>): set<T> {
    set x | x in s
  }

  lemma ElemsSnoc<T>(s: seq<T>, x: T)
    ensures Elems(s + [x]) == Elems(s) + {x}
  {
    assert forall y :: y in s + [x] <==> y in s || y == x;
  }

  lemma ElemsCons<T>(x: T, s: seq<T>)
    ensures Elems([x] + s) == {x} + Elems(s)
  {
    assert forall y :: y in [x] + s <==> y == x || y in s;
  }

  /** Position of the first occurrence of `x` (Python `list.index`). */
  function IndexOf<T(==)>(s: seq<T>, x: T): (k: nat)
    requires x in s
    ensures k < |s| && s[k] == x
    ensures forall j :: 0 <= j < k ==> s[j] != x
  {
    if s[0] == x then 0 else 1 + IndexOf(s[1..], x)
  }

  lemma IndexOfPrefix<T>(s: seq<T>, n: nat, x: T)
    requires n <= |s| && x in s[..n]
    ensures x in s && IndexOf(s, x) == IndexOf(s[..n], x)
  {
    var k := IndexOf(s[..n], x);
    assert s[k] == x;
    assert forall j :: 0 <= j < k ==> s[j] == s[..n][j];
  }

  lemma IndexOfDistinct<T>(s: seq<T>, k: nat)
    requires Distinct(s) && k < |s|
    ensures IndexOf(s, s[k]) == k
  {
  }

  /** Python `list.remove(x)`: drops the first occurrence of `x`. */
  function RemoveFirst<T(==)>(s: seq<T>, x: T): (r: seq<T>)
    requires x in s
    ensures |r| == |s| - 1
    ensures r == s[..IndexOf(s, x)] + s[IndexOf(s, x) + 1..]
  {
    if s[0] == x then s[1..] else [s[0]] + RemoveFirst(s[1..], x)
  }

  /** `list.remove` shifts the elements after the removed one down by one place. */
  lemma {:induction false} RemoveFirstAt<T>(s: seq<T>, x: T, m: nat)
    requires x in s && m < |s| - 1
    ensures RemoveFirst(s, x)[m] == if m < IndexOf(s, x) then s[m] else s[m + 1]
    decreases |s|
  {
    if s[0] != x && m > 0 {
      RemoveFirstAt(s[1..], x, m - 1);
      assert RemoveFirst(s, x) == [s[0]] + RemoveFirst(s[1..], x);
      assert IndexOf(s, x) == 1 + IndexOf(s[1..], x);
    }
  }

  lemma {:induction false} RemoveFirstMultiset<T>(s: seq<T>, x: T)
    requires x in s
    ensures multiset(RemoveFirst(s, x)) == multiset(s) - multiset{x}
  {
    var k := IndexOf(s, x);
    assert s == s[..k] + [x] + s[k + 1..];
    calc {
      multiset(s);
      multiset(s[..k]) + multiset{x} + multiset(s[k + 1..]);
      multiset(RemoveFirst(s, x)) + multiset{x};
    }
  }

  // ---------------------------------------------------------------------
  // Order-preserving filters over parallel sequences
  // ---------------------------------------------------------------------

  /**
   * The elements of `xs` whose tag (at the same position in `tags`) is not
   * in `drop`, in their original order. With `xs` a row and `tags` the
   * header, this is what `DataFrame.drop(labels, axis=1)` leaves of the row;
   * with `xs == tags` it is the remaining header.
   */
  function KeepWhere<T, K>(xs: seq<T>, tags: seq<K>, drop: set<K>): (r: seq<T>)
    requires |xs| == |tags|
    decreases |xs|
  {
    if |xs| == 0 then []
    else (if tags[0] in drop then [] else [xs[0]]) + KeepWhere(xs[1..], tags[1..], drop)
  }

  lemma {:induction false} KeepWhereLength<T, K>(xs: seq<T>, tags: seq<K>, drop: set<K>)
    requires |xs| == |tags|
    ensures |KeepWhere(xs, tags, drop)| == |KeepWhere(tags, tags, drop)| <= |xs|
    decreases |xs|
  {
    if |xs| > 0 {
      KeepWhereLength(xs[1..], tags[1..], drop);
    }
  }

  lemma {:induction false} KeepWhereMember<K>(tags: seq<K>, drop: set<K>, x: K)
    ensures x in KeepWhere(tags, tags, drop) <==> x in tags && x !in drop
    decreases |tags|
  {
    if |tags| > 0 {
      KeepWhereMember(tags[1..], drop, x);
      assert tags == [tags[0]] + tags[1..];
    }
  }

  lemma {:induction false} KeepWhereDistinct<K>(tags: seq<K>, drop: set<K>)
    requires Distinct(tags)
    ensures Distinct(KeepWhere(tags, tags, drop))
    decreases |tags|
  {
    if |tags| > 0 {
      KeepWhereDistinct(tags[1..], drop);
      KeepWhereMember(tags[1..], drop, tags[0]);
    }
  }

  /** Dropping `a` and then `b` is dropping `a + b` at once. */
  lemma {:induction false} KeepWhereCompose<T, K>(xs: seq<T>, tags: seq<K>, a: set<K>, b: set<K>)
    requires |xs| == |tags|
    ensures |KeepWhere(xs, tags, a)| == |KeepWhere(tags, tags, a)|
    ensures KeepWhere(KeepWhere(xs, tags, a), KeepWhere(tags, tags, a), b) == KeepWhere(xs, tags, a + b)
    decreases |xs|
  {
    KeepWhereLength(xs, tags, a);
    if |xs| > 0 {
      KeepWhereCompose(xs[1..], tags[1..], a, b);
      var rest := KeepWhere(xs[1..], tags[1..], a);
      var restTags := KeepWhere(tags[1..], tags[1..], a);
      if tags[0] !in a {
        var kept := [xs[0]] + rest;
        var keptTags := [tags[0]] + restTags;
        assert KeepWhere(xs, tags, a) == kept && KeepWhere(tags, tags, a) == keptTags;
        assert kept[1..] == rest && keptTags[1..] == restTags;
        assert KeepWhere(kept, keptTags, b)
            == (if tags[0] in b then [] else [xs[0]]) + KeepWhere(rest, restTags, b);
      } else {
        assert KeepWhere(xs, tags, a) == rest && KeepWhere(tags, tags, a) == restTags;
      }
      assert KeepWhere(xs, tags, a + b)
          == (if tags[0] in a + b then [] else [xs[0]]) + KeepWhere(xs[1..], tags[1..], a + b);
    }
  }

  /** Nothing tagged for dropping: the sequence is unchanged. */
  lemma {:induction false} KeepWhereNothing<T, K>(xs: seq<T>, tags: seq<K>, drop: set<K>)
    requires |xs| == |tags|
    requires forall i :: 0 <= i < |tags| ==> tags[i] !in drop
    ensures KeepWhere(xs, tags, drop) == xs
    decreases |xs|
  {
    if |xs| > 0 {
      KeepWhereNothing(xs[1..], tags[1..], drop);
    }
  }

  /** A prefix with no dropped tag survives as a prefix. */
  lemma {:induction false} KeepWherePrefix<T, K>(xs: seq<T>, tags: seq<K>, drop: set<K>, k: nat)
    requires |xs| == |tags| && k <= |xs|
    requires forall i :: 0 <= i < k ==> tags[i] !in drop
    ensures KeepWhere(xs, tags, drop) == xs[..k] + KeepWhere(xs[k..], tags[k..], drop)
    decreases k
  {
    if k > 0 {
      KeepWherePrefix(xs[1..], tags[1..], drop, k - 1);
      assert xs[1..][..k - 1] == xs[1..k];
      assert xs[1..][k - 1..] == xs[k..];
      assert tags[1..][k - 1..] == tags[k..];
      assert xs[..k] == [xs[0]] + xs[1..k];
    }
  }

  /**
   * A kept tag still labels the same element: looking a name up in the
   * remaining header finds the value it had before the drop.
   */
  lemma {:induction false} KeepWhereLookup<T, K>(xs: seq<T>, tags: seq<K>, drop: set<K>, n: K)
    requires |xs| == |tags| && Distinct(tags) && n in tags && n !in drop
    ensures |KeepWhere(xs, tags, drop)| == |KeepWhere(tags, tags, drop)| && n in KeepWhere(tags, tags, drop)
            && KeepWhere(xs, tags, drop)[IndexOf(KeepWhere(tags, tags, drop), n)] == xs[IndexOf(tags, n)]
    decreases |xs|
  {
    KeepWhereLength(xs, tags, drop);
    KeepWhereMember(tags, drop, n);
    var kx, kt := KeepWhere(xs, tags, drop), KeepWhere(tags, tags, drop);
    var rx, rt := KeepWhere(xs[1..], tags[1..], drop), KeepWhere(tags[1..], tags[1..], drop);
    if tags[0] == n {
      assert kx == [xs[0]] + rx && kt == [n] + rt;
      assert IndexOf(kt, n) == 0 && IndexOf(tags, n) == 0;
    } else {
      assert n in tags[1..];
      assert Distinct(tags[1..]) by {
        forall i, j | 0 <= i < j < |tags[1..]| ensures tags[1..][i] != tags[1..][j] {
          assert tags[1..][i] == tags[i + 1] && tags[1..][j] == tags[j + 1];
        }
      }
      KeepWhereLookup(xs[1..], tags[1..], drop, n);
      KeepWhereLength(xs[1..], tags[1..], drop);
      assert IndexOf(tags, n) == 1 + IndexOf(tags[1..], n);
      if tags[0] in drop {
        assert kx == rx && kt == rt;
      } else {
        assert kx == [xs[0]] + rx && kt == [tags[0]] + rt;
        assert kt[1..] == rt;
        assert IndexOf(kt, n) == 1 + IndexOf(rt, n);
      }
    }
  }


  // ---------------------------------------------------------------------
  // First-appearance de-duplication
  // ---------------------------------------------------------------------

  /**
   * The distinct elements of `s` in the order of their first appearance,
   * as `pandas.unique` and `Series.unique` return them.
   */
  function Unique<T(==)>(s: seq<T>): (r: seq<T>)
    decreases |s|
  {
    if |s| == 0 then []
    else if s[|s| - 1] in Unique(s[..|s| - 1]) then Unique(s[..|s| - 1])
    else Unique(s[..|s| - 1]) + [s[|s| - 1]]
  }

  /** `Unique` keeps exactly the elements of its input. */
  lemma {:induction false} UniqueMembers<T>(s: seq<T>, x: T)
    ensures x in Unique(s) <==> x in s
    decreases |s|
  {
    if |s| > 0 {
      var p := s[..|s| - 1];
      UniqueMembers(p, x);
      assert s == p + [s[|s| - 1]];
    }
  }

  /** `Unique` lists no element twice. */
  lemma {:induction false} UniqueDistinct<T>(s: seq<T>)
    ensures Distinct(Unique(s))
    decreases |s|
  {
    if |s| > 0 {
      UniqueDistinct(s[..|s| - 1]);
    }
  }

  /** An element missing from `p` is first found at the end of `p + [x]`. */
  lemma IndexOfFresh<T>(p: seq<T>, x: T)
    requires x !in p
    ensures IndexOf(p + [x], x) == |p|
  {
    assert forall k :: 0 <= k < |p| ==> (p + [x])[k] == p[k];
  }

  /** `Unique` lists the elements in the order of their first occurrence. */
  lemma {:induction false} UniqueOrder<T>(s: seq<T>, i: nat, j: nat)
    requires i < j < |Unique(s)|
    ensures Unique(s)[i] in s && Unique(s)[j] in s
            && IndexOf(s, Unique(s)[i]) < IndexOf(s, Unique(s)[j])
    decreases |s|
  {
    var p := s[..|s| - 1];
    var last := s[|s| - 1];
    assert s == p + [last];
    var u := Unique(p);
    assert Unique(s)[i] == u[i];
    UniqueMembers(p, u[i]);
    IndexOfPrefix(s, |s| - 1, u[i]);
    if j < |u| {
      assert Unique(s)[j] == u[j];
      UniqueOrder(p, i, j);
      UniqueMembers(p, u[j]);
      IndexOfPrefix(s, |s| - 1, u[j]);
    } else {
      assert Unique(s)[j] == last && last !in u;
      UniqueMembers(p, last);
      IndexOfFresh(p, last);
    }
  }

  /** The elements of `u` all occur in `s`, and `u` lists them in the order of their first occurrence in `s`. */
  predicate InFirstAppearanceOrder<T(==)>(u: seq<T>, s: seq<T>) {
    (forall i :: 0 <= i < |u| ==> u[i] in s) &&
    forall i, j :: 0 <= i < j < |u| ==> IndexOf(s, u[i]) < IndexOf(s, u[j])
  }

  /** `Unique` is the duplicate-free list of the elements of `s` in first-appearance order. */
  lemma UniqueSpec<T>(s: seq<T>)
    ensures Distinct(Unique(s))
    ensures forall x :: x in Unique(s) <==> x in s
    ensures InFirstAppearanceOrder(Unique(s), s)
  {
    UniqueDistinct(s);
    forall x ensures x in Unique(s) <==> x in s {
      UniqueMembers(s, x);
    }
    forall i, j | 0 <= i < j < |Unique(s)|
      ensures Unique(s)[i] in s && Unique(s)[j] in s && IndexOf(s, Unique(s)[i]) < IndexOf(s, Unique(s)[j])
    {
      UniqueOrder(s, i, j);
    }
  }

  // ---------------------------------------------------------------------
  // Subsequences
  // ---------------------------------------------------------------------

  /** `a` is obtained from `b` by deleting elements (order kept). */
  predicate IsSubseq<T(==)>(a: seq<T>, b: seq<T>)
    decreases |b|
  {
    if |a| == 0 then true
    else if |b| == 0 then false
    else if a[0] == b[0] then IsSubseq(a[1..], b[1..])
    else IsSubseq(a, b[1..])
  }

  lemma {:induction false} SubseqRefl<T>(a: seq<T>)
    ensures IsSubseq(a, a)
    decreases |a|
  {
    if |a| > 0 {
      SubseqRefl(a[1..]);
    }
  }

  lemma {:induction false} SubseqTail<T>(a: seq<T>, b: seq<T>)
    requires |a| > 0 && IsSubseq(a, b)
    ensures IsSubseq(a[1..], b)
    decreases |b|, 1
  {
    if a[0] == b[0] {
      SubseqDropHead(a[1..], b);
    } else {
      SubseqTail(a, b[1..]);
      SubseqDropHead(a[1..], b);
    }
  }

  /** A subsequence of the tail of `b` is a subsequence of `b`. */
  lemma {:induction false} SubseqDropHead<T>(a: seq<T>, b: seq<T>)
    requires |b| > 0 && IsSubseq(a, b[1..])
    ensures IsSubseq(a, b)
    decreases |b|, 0
  {
    if |a| > 0 && a[0] == b[0] {
      SubseqTail(a, b[1..]);
    }
  }

  lemma {:induction false} SubseqTrans<T>(a: seq<T>, b: seq<T>, c: seq<T>)
    requires IsSubseq(a, b) && IsSubseq(b, c)
    ensures IsSubseq(a, c)
    decreases |c|
  {
    if |a| > 0 {
      assert |b| > 0 && |c| > 0;
      if b[0] == c[0] {
        if a[0] == b[0] {
          SubseqTrans(a[1..], b[1..], c[1..]);
        } else {
          SubseqTrans(a, b[1..], c[1..]);
        }
      } else {
        SubseqTrans(a, b, c[1..]);
        SubseqDropHead(a, c);
      }
    }
  }

  lemma {:induction false} SubseqRemoveFirst<T>(s: seq<T>, x: T)
    requires x in s
    ensures IsSubseq(RemoveFirst(s, x), s)
    decreases |s|
  {
    if s[0] == x {
      SubseqRefl(s[1..]);
      SubseqDropHead(s[1..], s);
    } else {
      SubseqRemoveFirst(s[1..], x);
    }
  }

  lemma {:induction false} SubseqKeepWhere<T, K>(xs: seq<T>, tags: seq<K>, drop: set<K>)
    requires |xs| == |tags|
    ensures IsSubseq(KeepWhere(xs, tags, drop), xs)
    decreases |xs|
  {
    if |xs| > 0 {
      SubseqKeepWhere(xs[1..], tags[1..], drop);
      var rest := KeepWhere(xs[1..], tags[1..], drop);
      if tags[0] in drop {
        assert KeepWhere(xs, tags, drop) == rest;
        SubseqDropHead(rest, xs);
      } else {
        assert KeepWhere(xs, tags, drop) == [xs[0]] + rest;
        assert ([xs[0]] + rest)[1..] == rest;
      }
    }
  }

  // ---------------------------------------------------------------------
  // Filtering
  // ---------------------------------------------------------------------

  /** The elements satisfying `p`, in their original order (a boolean mask selection). */
  function Filter<T>(s: seq<T>, p: T -> bool): (r: seq<T>)
    ensures |r| <= |s|
    decreases |s|
  {
    if |s| == 0 then [] else (if p(s[0]) then [s[0]] else []) + Filter(s[1..], p)
  }

  lemma {:induction false} FilterMember<T>(s: seq<T>, p: T -> bool, x: T)
    ensures x in Filter(s, p) <==> x in s && p(x)
    decreases |s|
  {
    if |s| > 0 {
      FilterMember(s[1..], p, x);
      assert s == [s[0]] + s[1..];
    }
  }

  lemma {:induction false} FilterSubseq<T>(s: seq<T>, p: T -> bool)
    ensures IsSubseq(Filter(s, p), s)
    decreases |s|
  {
    if |s| > 0 {
      FilterSubseq(s[1..], p);
      var rest := Filter(s[1..], p);
      if p(s[0]) {
        assert ([s[0]] + rest)[1..] == rest;
      } else {
        assert Filter(s, p) == rest;
        SubseqDropHead(rest, s);
      }
    }
  }

  /** Filtering twice is filtering once by both tests. */
  lemma {:induction false} FilterCompose<T>(s: seq<T>, p: T -> bool, q: T -> bool, pq: T -> bool)
    requires forall x :: pq(x) == (p(x) && q(x))
    ensures Filter(Filter(s, p), q) == Filter(s, pq)
    decreases |s|
  {
    if |s| > 0 {
      FilterCompose(s[1..], p, q, pq);
      var rest := Filter(s[1..], p);
      if p(s[0]) {
        assert ([s[0]] + rest)[1..] == rest;
      } else {
        assert Filter(s, p) == rest;
      }
    }
  }

  /** Filters with the same test agree. */
  lemma {:induction false} FilterExt<T>(s: seq<T>, p: T -> bool, q: T -> bool)
    requires forall x :: p(x) == q(x)
    ensures Filter(s, p) == Filter(s, q)
    decreases |s|
  {
    if |s| > 0 {
      FilterExt(s[1..], p, q);
    }
  }

  /** A test every element passes keeps the whole sequence. */
  lemma {:induction false} FilterAll<T>(s: seq<T>, p: T -> bool)
    requires forall i :: 0 <= i < |s| ==> p(s[i])
    ensures Filter(s, p) == s
    decreases |s|
  {
    if |s| > 0 {
      FilterAll(s[1..], p);
    }
  }

  lemma {:induction false} FilterConcat<T>(a: seq<T>, b: seq<T>, p: T -> bool)
    ensures Filter(a + b, p) == Filter(a, p) + Filter(b, p)
    decreases |a|
  {
    if |a| == 0 {
      assert a + b == b;
    } else {
      var ab := a + b;
      var head := if p(a[0]) then [a[0]] else [];
      assert ab[0] == a[0] && ab[1..] == a[1..] + b;
      assert Filter(ab, p) == head + Filter(a[1..] + b, p);
      FilterConcat(a[1..], b, p);
      assert Filter(a, p) == head + Filter(a[1..], p);
      assert head + (Filter(a[1..], p) + Filter(b, p)) == head + Filter(a[1..], p) + Filter(b, p);
    }
  }

  /** Filtering a prefix one element longer adds that element when it passes. */
  lemma FilterSnoc<T>(s: seq<T>, k: nat, p: T -> bool)
    requires k < |s|
    ensures Filter(s[..k + 1], p) == Filter(s[..k], p) + (if p(s[k]) then [s[k]] else [])
  {
    assert s[..k + 1] == s[..k] + [s[k]];
    FilterConcat(s[..k], [s[k]], p);
    assert Filter([s[k]], p) == if p(s[k]) then [s[k]] else [];
  }

  /** Two repetition-free sequences with nothing in common concatenate without repetition. */
  lemma DistinctConcat<T>(a: seq<T>, b: seq<T>)
    requires Distinct(a) && Distinct(b)
    requires forall x :: x in b ==> x !in a
    ensures Distinct(a + b)
  {
    forall i, j | 0 <= i < j < |a + b| ensures (a + b)[i] != (a + b)[j] {
      if j >= |a| {
        assert (a + b)[j] == b[j - |a|];
        if i >= |a| {
          assert (a + b)[i] == b[i - |a|];
        } else {
          assert (a + b)[i] == a[i];
          assert b[j - |a|] in b;
        }
      }
    }
  }

  /** A new first element keeps a sequence free of repetition. */
  lemma DistinctCons<T>(x: T, s: seq<T>)
    requires Distinct(s) && x !in s
    ensures Distinct([x] + s)
  {
    forall i, j | 0 <= i < j < |[x] + s| ensures ([x] + s)[i] != ([x] + s)[j] {
      assert ([x] + s)[j] == s[j - 1];
      if i > 0 {
        assert ([x] + s)[i] == s[i - 1];
      }
    }
  }
}
