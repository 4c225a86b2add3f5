/** Generic filtering and counting over sequences: the shape of the store's
    `filter_by(...)` queries and their `.count()`. Both recurse from the end of
    the sequence, so that appending a row (an INSERT) unfolds in one step. */
module Seqs {

  import opened Wrappers

  function Init<T>(s: seq<T>): seq<T>
    requires s != []
  {
    s[..|s| - 1]
  }

  function Last<T>(s: seq<T>): T
    requires s != []
  {
    s[|s| - 1]
  }

  lemma InitLast<T>(s: seq<T>)
    requires s != []
    ensures Init(s) + [Last(s)] == s
    ensures forall x :: x in Init(s) ==> x in s
    ensures Last(s) in s
  {
  }

  lemma SuffixIn<T>(s: seq<T>, i: nat)
    requires i <= |s|
    ensures forall x :: x in s[i..] ==> x in s
  {
    forall x | x in s[i..] ensures x in s {
      var b :| 0 <= b < |s| - i && s[i..][b] == x;
      assert s[i + b] == x;
    }
  }

  lemma AppendInitLast<T>(s: seq<T>, x: T)
    ensures Init(s + [x]) == s && Last(s + [x]) == x
  {
  }

  /** The rows of `s` that satisfy `p`, in their original order. */
  function Filter<T(!new)>(s: seq<T>, p: T -> bool): (r: seq<T>)
    ensures |r| <= |s|
    ensures forall x :: x in r <==> x in s && p(x)
  {
    if s == [] then []
    else
      InitLast(s);
      Filter(Init(s), p) + (if p(Last(s)) then [Last(s)] else [])
  }

  /** The number of rows of `s` that satisfy `p` (a SQL COUNT). */
  function Count<T(!new)>(s: seq<T>, p: T -> bool): (n: nat)
    ensures n == |Filter(s, p)|
    ensures n <= |s|
  {
    if s == [] then 0
    else Count(Init(s), p) + (if p(Last(s)) then 1 else 0)
  }

  lemma {:induction false} FilterAppend<T(!new)>(a: seq<T>, b: seq<T>, p: T -> bool)
    ensures Filter(a + b, p) == Filter(a, p) + Filter(b, p)
  {
    if b != [] {
      assert Init(a + b) == a + Init(b);
      assert Last(a + b) == Last(b);
      FilterAppend(a, Init(b), p);
    } else {
      assert a + b == a;
    }
  }

  lemma {:induction false} FilterKeepsAll<T(!new)>(s: seq<T>, p: T -> bool)
    requires forall x :: x in s ==> p(x)
    ensures Filter(s, p) == s
  {
    if s != [] {
      InitLast(s);
      FilterKeepsAll(Init(s), p);
    }
  }

  lemma {:induction false} FilterDropsAll<T(!new)>(s: seq<T>, p: T -> bool)
    requires forall x :: x in s ==> !p(x)
    ensures Filter(s, p) == []
  {
    if s != [] {
      InitLast(s);
      FilterDropsAll(Init(s), p);
    }
  }

  lemma {:induction false} FilterCommutes<T(!new)>(s: seq<T>, p: T -> bool, q: T -> bool)
    ensures Filter(Filter(s, p), q) == Filter(Filter(s, q), p)
  {
    if s != [] {
      InitLast(s);
      FilterCommutes(Init(s), p, q);
      var fp := Filter(Init(s), p);
      var fq := Filter(Init(s), q);
      var tp := if p(Last(s)) then [Last(s)] else [];
      var tq := if q(Last(s)) then [Last(s)] else [];
      FilterAppend(fp, tp, q);
      FilterAppend(fq, tq, p);
      if p(Last(s)) { AppendInitLast(fp, Last(s)); }
      if q(Last(s)) { AppendInitLast(fq, Last(s)); }
    }
  }

  lemma {:induction false} CountAppend<T(!new)>(s: seq<T>, x: T, p: T -> bool)
    ensures Count(s + [x], p) == Count(s, p) + (if p(x) then 1 else 0)
  {
    AppendInitLast(s, x);
  }

  /** Replacing one row changes a count by what that row contributed. */
  lemma {:induction false} CountUpdate<T(!new)>(s: seq<T>, i: nat, x: T, p: T -> bool)
    requires i < |s|
    ensures Count(s[i := x], p) ==
            Count(s, p) - (if p(s[i]) then 1 else 0) + (if p(x) then 1 else 0)
  {
    if i < |s| - 1 {
      assert Init(s[i := x]) == Init(s)[i := x];
      CountUpdate(Init(s), i, x, p);
    } else {
      assert Init(s[i := x]) == Init(s);
    }
  }

  /** A count is zero exactly when no row satisfies the predicate. */
  lemma {:induction false} CountZero<T(!new)>(s: seq<T>, p: T -> bool)
    ensures Count(s, p) == 0 <==> forall x :: x in s ==> !p(x)
  {
    if Count(s, p) != 0 {
      assert Filter(s, p)[0] in Filter(s, p);
    }
  }

  /** A count splits over a predicate that is the disjoint union of two. */
  lemma {:induction false} CountSplit<T(!new)>(s: seq<T>, p: T -> bool, q: T -> bool, r: T -> bool)
    requires forall x :: x in s ==> (p(x) <==> q(x) || r(x))
    requires forall x :: x in s ==> !(q(x) && r(x))
    ensures Count(s, p) == Count(s, q) + Count(s, r)
  {
    if s != [] {
      InitLast(s);
      CountSplit(Init(s), p, q, r);
    }
  }

  /** Predicates that agree on every row count the same rows. */
  lemma {:induction false} CountSame<T(!new)>(s: seq<T>, p: T -> bool, q: T -> bool)
    requires forall x :: x in s ==> p(x) == q(x)
    ensures Count(s, p) == Count(s, q)
  {
    if s != [] {
      InitLast(s);
      CountSame(Init(s), p, q);
    }
  }

  function Both<T>(p: T -> bool, q: T -> bool): T -> bool {
    x => p(x) && q(x)
  }

  /** Counting within a filtered sequence is counting under both conditions. */
  lemma {:induction false} CountOfFilter<T(!new)>(s: seq<T>, p: T -> bool, q: T -> bool)
    ensures Count(Filter(s, p), q) == Count(s, Both(p, q))
  {
    if s != [] {
      var init, last := Init(s), Last(s);
      CountOfFilter(init, p, q);
      var f := Filter(init, p);
      assert Count(s, Both(p, q)) == Count(init, Both(p, q)) + (if p(last) && q(last) then 1 else 0);
      if p(last) {
        assert Filter(s, p) == f + [last];
        CountAppend(f, last, q);
      } else {
        assert Filter(s, p) == f;
      }
    }
  }

  /** The position of the first row of `s` that satisfies `p` (a `.first()`
      query), or None when no row does. */
  function FirstIndex<T>(s: seq<T>, p: T -> bool): (r: Option<nat>)
    ensures r.Some? ==> r.value < |s| && p(s[r.value])
    ensures r.Some? ==> forall j :: 0 <= j < r.value ==> !p(s[j])
    ensures r.None? ==> forall j :: 0 <= j < |s| ==> !p(s[j])
  {
    if s == [] then None
    else if p(s[0]) then Some(0)
    else
      match FirstIndex(s[1..], p)
      case None => None
      case Some(k) => Some(k + 1)
  }

  /** The first row satisfying `p` is at `j` when row `j` does and no earlier
      row does. */
  lemma {:induction false} FirstIndexAt<T>(s: seq<T>, p: T -> bool, j: nat)
    requires j < |s| && p(s[j])
    requires forall k :: 0 <= k < j ==> !p(s[k])
    ensures FirstIndex(s, p) == Some(j)
  {
  }
}
