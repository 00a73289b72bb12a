/** Sequence utilities mirroring the JavaScript array operations the source uses:
    `filter`, `map`, `includes`, a `Set` used as an insertion-ordered union, and
    concatenation. */
module Seqs {

  /** `s.filter(p)`: the elements of `s` satisfying `p`, in order. */
  function Filter<T(==,!new)>(s: seq<T>, p: T -> bool): (r: seq<T>)
    ensures |r| <= |s|
    ensures forall x :: x in r <==> x in s && p(x)
    ensures forall i :: 0 <= i < |r| ==> p(r[i])
    ensures IsSubsequence(r, s)
    ensures |r| == |s| <==> (forall i :: 0 <= i < |s| ==> p(s[i]))
  {
    if |s| == 0 then []
    else if p(s[0]) then
      [s[0]] + Filter(s[1..], p)
    else
      var rest := Filter(s[1..], p);
      SubsequenceDropHead(rest, s);
      rest
  }

  /** `a` is an order-preserving subsequence of `b` (greedy test, which is complete). */
  predicate IsSubsequence<T(==)>(a: seq<T>, b: seq<T>)
    decreases |b|, |a|
  {
    if |a| == 0 then true
    else if |b| == 0 then false
    else if a[0] == b[0] then IsSubsequence(a[1..], b[1..])
    else IsSubsequence(a, b[1..])
  }

  /** Prefixing an optional head to a subsequence of `tail` gives a
      subsequence of `[x] + tail`. */
  lemma {:induction false} SubsequenceCons<T>(x: T, head: seq<T>, rest: seq<T>, tail: seq<T>)
    requires head == [] || head == [x]
    requires IsSubsequence(rest, tail)
    requires x !in rest
    ensures IsSubsequence(head + rest, [x] + tail)
  {
    assert ([x] + tail)[1..] == tail;
    if head == [] {
      assert head + rest == rest;
      if |rest| > 0 {
        assert rest[0] in rest;
      }
    } else {
      assert (head + rest)[0] == x && (head + rest)[1..] == rest;
    }
  }

  /** Four optional picks of four distinct values keep their order. */
  lemma {:induction false} PicksInOrder<T>(m1: T, m2: T, m3: T, m4: T, e1: seq<T>, e2: seq<T>, e3: seq<T>, e4: seq<T>)
    requires m1 != m2 && m1 != m3 && m1 != m4 && m2 != m3 && m2 != m4 && m3 != m4
    requires e1 == [] || e1 == [m1]
    requires e2 == [] || e2 == [m2]
    requires e3 == [] || e3 == [m3]
    requires e4 == [] || e4 == [m4]
    ensures IsSubsequence(e1 + e2 + e3 + e4, [m1, m2, m3, m4])
  {
    assert IsSubsequence(e4, [m4]) by {
      assert e4 + [] == e4;
      SubsequenceCons(m4, e4, [], []);
    }
    assert IsSubsequence(e3 + e4, [m3, m4]) by {
      assert [m3, m4] == [m3] + [m4];
      SubsequenceCons(m3, e3, e4, [m4]);
    }
    var r2 := e2 + (e3 + e4);
    assert IsSubsequence(r2, [m2, m3, m4]) by {
      assert [m2, m3, m4] == [m2] + [m3, m4];
      SubsequenceCons(m2, e2, e3 + e4, [m3, m4]);
    }
    assert IsSubsequence(e1 + r2, [m1, m2, m3, m4]) by {
      assert [m1, m2, m3, m4] == [m1] + [m2, m3, m4];
      SubsequenceCons(m1, e1, r2, [m2, m3, m4]);
    }
    AppendRegroup(e2, e3, e4);
    AppendRegroup(e1, e2 + e3, e4);
    AppendRegroup(e1, e2, e3);
  }

  /** Of four optional picks of four distinct values, a value is present
      exactly when its slot is filled. */
  lemma {:induction false} PicksPresent<T>(m1: T, m2: T, m3: T, m4: T, e1: seq<T>, e2: seq<T>, e3: seq<T>, e4: seq<T>)
    requires m1 != m2 && m1 != m3 && m1 != m4 && m2 != m3 && m2 != m4 && m3 != m4
    requires e1 == [] || e1 == [m1]
    requires e2 == [] || e2 == [m2]
    requires e3 == [] || e3 == [m3]
    requires e4 == [] || e4 == [m4]
    ensures m1 in e1 + e2 + e3 + e4 <==> e1 != []
    ensures m2 in e1 + e2 + e3 + e4 <==> e2 != []
    ensures m3 in e1 + e2 + e3 + e4 <==> e3 != []
    ensures m4 in e1 + e2 + e3 + e4 <==> e4 != []
  {
  }

  lemma {:induction false} SubsequenceDropHead<T>(a: seq<T>, b: seq<T>)
    requires |b| > 0
    requires IsSubsequence(a, b[1..])
    ensures IsSubsequence(a, b)
    decreases |b|, |a|
  {
    if |a| == 0 {
    } else if a[0] == b[0] {
      if |b| > 1 {
        SubsequenceTail(a, b[1..]);
      } else {
        assert false;
      }
    }
  }

  lemma {:induction false} SubsequenceTail<T>(a: seq<T>, b: seq<T>)
    requires |a| > 0
    requires IsSubsequence(a, b)
    ensures IsSubsequence(a[1..], b)
    decreases |b|, |a|
  {
    if |b| == 0 {
      assert false;
    } else if a[0] == b[0] {
      SubsequenceDropHead(a[1..], b);
    } else {
      SubsequenceTail(a, b[1..]);
      SubsequenceDropHead(a[1..], b);
    }
  }

  /** Filtering distributes over concatenation. */
  lemma {:induction false} FilterAppend<T(!new)>(a: seq<T>, b: seq<T>, p: T -> bool)
    ensures Filter(a + b, p) == Filter(a, p) + Filter(b, p)
    decreases |a|
  {
    if |a| == 0 {
      assert a + b == b;
    } else {
      var h := if p(a[0]) then [a[0]] else [];
      assert Filter(a + b, p) == h + Filter(a[1..] + b, p) by {
        assert a + b == [a[0]] + (a[1..] + b);
        FilterCons(a[0], a[1..] + b, p);
      }
      assert Filter(a, p) == h + Filter(a[1..], p) by {
        assert a == [a[0]] + a[1..];
        FilterCons(a[0], a[1..], p);
      }
      FilterAppend(a[1..], b, p);
      AppendRegroup(h, Filter(a[1..], p), Filter(b, p));
    }
  }

  lemma {:induction false} AppendRegroup<T>(h: seq<T>, x: seq<T>, y: seq<T>)
    ensures h + (x + y) == (h + x) + y
  {
  }

  /** Appending a non-empty sequence is appending its front, then its last element. */
  lemma {:induction false} AppendSnoc<T>(front: seq<T>, later: seq<T>)
    requires |later| > 0
    ensures front + later == (front + later[..|later| - 1]) + [later[|later| - 1]]
  {
    assert later == later[..|later| - 1] + [later[|later| - 1]];
  }

  /** Filtering a sequence with a known head. */
  lemma {:induction false} FilterCons<T(!new)>(x: T, s: seq<T>, p: T -> bool)
    ensures Filter([x] + s, p) == (if p(x) then [x] else []) + Filter(s, p)
  {
    var t := [x] + s;
    assert t[0] == x && t[1..] == s;
  }

  /** Filtering one more element appends it exactly when it passes. */
  lemma {:induction false} FilterSnoc<T(!new)>(s: seq<T>, x: T, p: T -> bool)
    ensures Filter(s + [x], p) == Filter(s, p) + (if p(x) then [x] else [])
  {
    FilterAppend(s, [x], p);
    assert [x][1..] == [];
  }

  /** Indexing between a first and a last element is indexing the middle. */
  lemma {:induction false} MiddleIndex<T>(first: T, middle: seq<T>, last: T, k: nat)
    requires 1 <= k <= |middle|
    ensures ([first] + middle + [last])[k] == middle[k - 1]
  {
  }

  /** A non-empty sequence is its front followed by its last element. */
  lemma {:induction false} SplitLast<T>(s: seq<T>)
    requires |s| > 0
    ensures s == s[..|s| - 1] + [s[|s| - 1]]
  {
  }

  /** One more element of a prefix. */
  lemma {:induction false} TakeSnoc<T>(s: seq<T>, i: nat)
    requires i < |s|
    ensures s[..i + 1] == s[..i] + [s[i]]
  {
  }

  /** The prefix one longer, cut back. */
  lemma {:induction false} TakeTake<T>(s: seq<T>, i: nat)
    requires i < |s|
    ensures s[..i + 1][..i] == s[..i] && s[..i + 1][i] == s[i]
  {
  }

  /** The whole prefix. */
  lemma {:induction false} TakeAll<T>(s: seq<T>)
    ensures s[..|s|] == s
  {
  }

  /** `FilterSnoc` for a sequence already split before its last element. */
  lemma {:induction false} FilterLast<T(!new)>(s: seq<T>, init: seq<T>, x: T, p: T -> bool)
    requires s == init + [x]
    ensures Filter(s, p) == Filter(init, p) + (if p(x) then [x] else [])
  {
    FilterSnoc(init, x, p);
  }

  /** Filtering keeps every occurrence of a satisfying value and none of the others. */
  lemma {:induction false} FilterMultiset<T(!new)>(s: seq<T>, p: T -> bool, x: T)
    ensures multiset(Filter(s, p))[x] == if p(x) then multiset(s)[x] else 0
    decreases |s|
  {
    if |s| > 0 {
      var t := Filter(s[1..], p);
      FilterMultiset(s[1..], p, x);
      SplitFirst(s);
      MultisetConsCount(s[0], s[1..], x);
      if p(s[0]) {
        assert Filter(s, p) == [s[0]] + t;
        MultisetConsCount(s[0], t, x);
      } else {
        assert Filter(s, p) == t;
      }
    }
  }

  lemma {:induction false} SplitFirst<T>(s: seq<T>)
    requires |s| > 0
    ensures s == [s[0]] + s[1..]
  {
  }

  /** Counting in a sequence with one more element in front. */
  lemma {:induction false} MultisetConsCount<T>(y: T, rest: seq<T>, x: T)
    ensures multiset([y] + rest)[x] == (if y == x then 1 else 0) + multiset(rest)[x]
  {
    assert multiset([y] + rest) == multiset{y} + multiset(rest);
  }

  /** A filter every element passes changes nothing. */
  lemma {:induction false} FilterAll<T(!new)>(s: seq<T>, p: T -> bool)
    requires forall i :: 0 <= i < |s| ==> p(s[i])
    ensures Filter(s, p) == s
    decreases |s|
  {
    if |s| > 0 {
      FilterAll(s[1..], p);
      assert s == [s[0]] + s[1..];
    }
  }

  /** Two predicates that agree on every element of `s` filter it identically. */
  lemma {:induction false} FilterCongruent<T(!new)>(s: seq<T>, p: T -> bool, q: T -> bool)
    requires forall x :: x in s ==> p(x) == q(x)
    ensures Filter(s, p) == Filter(s, q)
    decreases |s|
  {
    if |s| > 0 {
      assert forall x :: x in s[1..] ==> x in s;
      FilterCongruent(s[1..], p, q);
    }
  }

  /** The imperative form of `Filter`: a loop pushing each passing element. */
  method FilterLoop<T(!new)>(s: seq<T>, p: T -> bool) returns (r: seq<T>)
    ensures r == Filter(s, p)
    ensures multiset(r) <= multiset(s)
  {
    r := [];
    for i := 0 to |s|
      invariant r == Filter(s[..i], p)
    {
      var x := s[i];
      TakeSnoc(s, i);
      FilterSnoc(s[..i], x, p);
      if p(x) {
        r := r + [x];
      }
    }
    assert s[..|s|] == s;
    FilterSubMultiset(s, p);
  }

  /** Filtering keeps each element at most as often as it occurs. */
  lemma {:induction false} FilterSubMultiset<T(!new)>(s: seq<T>, p: T -> bool)
    ensures multiset(Filter(s, p)) <= multiset(s)
  {
    forall x
      ensures multiset(Filter(s, p))[x] <= multiset(s)[x]
    {
      FilterMultiset(s, p, x);
    }
  }

  /** Filtering does not see edits that keep each element's verdict and touch
      only elements the test drops. */
  lemma {:induction false} FilterIgnoresEdits<T(!new)>(s: seq<T>, t: seq<T>, p: T -> bool)
    requires |s| == |t|
    requires forall i :: 0 <= i < |s| ==> p(t[i]) == p(s[i]) && (p(s[i]) ==> t[i] == s[i])
    ensures Filter(t, p) == Filter(s, p)
    decreases |s|
  {
    if |s| > 0 {
      assert forall i :: 0 <= i < |s| - 1 ==> s[1..][i] == s[i + 1] && t[1..][i] == t[i + 1];
      FilterIgnoresEdits(s[1..], t[1..], p);
    }
  }

  /** A weaker test keeps at least as many elements. */
  lemma {:induction false} FilterLengthMonotone<T(!new)>(s: seq<T>, p: T -> bool, q: T -> bool)
    requires forall x :: p(x) ==> q(x)
    ensures |Filter(s, p)| <= |Filter(s, q)|
    decreases |s|
  {
    if |s| > 0 {
      FilterLengthMonotone(s[1..], p, q);
    }
  }

  /** A test and its negation split the elements between them. */
  lemma {:induction false} FilterSplitsLength<T(!new)>(s: seq<T>, p: T -> bool, q: T -> bool)
    requires forall x :: q(x) == !p(x)
    ensures |Filter(s, p)| + |Filter(s, q)| == |s|
    decreases |s|
  {
    if |s| > 0 {
      FilterSplitsLength(s[1..], p, q);
    }
  }

  /** `s.map(f)`. */
  function Map<T, U>(f: T -> U, s: seq<T>): (r: seq<U>)
    ensures |r| == |s|
    ensures forall i :: 0 <= i < |s| ==> r[i] == f(s[i])
  {
    seq(|s|, i requires 0 <= i < |s| => f(s[i]))
  }

  /** Mapping distributes over concatenation. */
  lemma {:induction false} MapAppend<T, U>(f: T -> U, a: seq<T>, b: seq<T>)
    ensures Map(f, a + b) == Map(f, a) + Map(f, b)
  {
    assert Map(f, a + b) == Map(f, a) + Map(f, b);
  }

  lemma {:induction false} MapCons<T, U>(f: T -> U, s: seq<T>)
    requires |s| > 0
    ensures Map(f, s) == [f(s[0])] + Map(f, s[1..])
  {
  }

  /** No element occurs twice. */
  predicate NoDups<T(==)>(s: seq<T>) {
    forall i, j :: 0 <= i < j < |s| ==> s[i] != s[j]
  }

  /** `seen` followed by every element of `xs` not yet present, in first-seen order:
      successive `Set.add` calls on an insertion-ordered `Set`. */
  function AddAll<T(==,!new)>(seen: seq<T>, xs: seq<T>): (r: seq<T>)
    requires NoDups(seen)
    ensures NoDups(r)
    ensures forall x :: x in r <==> x in seen || x in xs
    ensures |seen| <= |r| && r[..|seen|] == seen
    decreases |xs|
  {
    if |xs| == 0 then seen
    else if xs[0] in seen then AddAll(seen, xs[1..])
    else
      var next := seen + [xs[0]];
      var r := AddAll(next, xs[1..]);
      assert r[..|seen|] == r[..|next|][..|seen|];
      r
  }

  /** Adding a batch and then another is adding their concatenation. */
  lemma {:induction false} AddAllAppend<T(!new)>(seen: seq<T>, xs: seq<T>, ys: seq<T>)
    requires NoDups(seen)
    ensures AddAll(seen, xs + ys) == AddAll(AddAll(seen, xs), ys)
    decreases |xs|
  {
    if |xs| == 0 {
      assert xs + ys == ys;
    } else {
      assert (xs + ys)[1..] == xs[1..] + ys;
      if xs[0] in seen {
        AddAllAppend(seen, xs[1..], ys);
      } else {
        AddAllAppend(seen + [xs[0]], xs[1..], ys);
      }
    }
  }

  /** The insertion-ordered distinct elements of `xs`. */
  function Dedup<T(==,!new)>(xs: seq<T>): (r: seq<T>)
    ensures NoDups(r)
    ensures forall x :: x in r <==> x in xs
  {
    AddAll([], xs)
  }

  /** Deduplicating one more element appends it exactly when it is new. */
  lemma {:induction false} DedupSnoc<T(!new)>(xs: seq<T>, x: T)
    ensures Dedup(xs + [x]) == if x in xs then Dedup(xs) else Dedup(xs) + [x]
  {
    AddAllAppend([], xs, [x]);
    assert [x][1..] == [];
  }

  /** Concatenation of a sequence of sequences. */
  function Flatten<T(==,!new)>(xss: seq<seq<T>>): (r: seq<T>)
    ensures forall x :: x in r <==> exists i :: 0 <= i < |xss| && x in xss[i]
  {
    if |xss| == 0 then []
    else
      var r := xss[0] + Flatten(xss[1..]);
      assert forall i :: 1 <= i < |xss| ==> xss[i] == xss[1..][i - 1];
      r
  }

  /** Deduplicating a longer sequence keeps the shorter one's result as a prefix. */
  lemma {:induction false} DedupPrefix<T(!new)>(xs: seq<T>, ys: seq<T>)
    ensures Dedup(xs) <= Dedup(xs + ys)
  {
    AddAllAppend([], xs, ys);
  }

  lemma {:induction false} FlattenAppend<T(!new)>(xss: seq<seq<T>>, yss: seq<seq<T>>)
    ensures Flatten(xss + yss) == Flatten(xss) + Flatten(yss)
    decreases |xss|
  {
    if |xss| == 0 {
      assert xss + yss == yss;
    } else {
      assert (xss + yss)[1..] == xss[1..] + yss;
      FlattenAppend(xss[1..], yss);
    }
  }

  /** `k` copies of `s`, concatenated. */
  function Repeat<T>(s: seq<T>, k: nat): seq<T> {
    if k == 0 then [] else Repeat(s, k - 1) + s
  }

  lemma {:induction false} RepeatEmpty<T>(s: seq<T>, k: nat)
    requires s == []
    ensures Repeat(s, k) == []
  {
    if k > 0 {
      RepeatEmpty(s, k - 1);
    }
  }

  /** Number of occurrences of `x` in `s`. */
  function Count<T(==)>(s: seq<T>, x: T): (n: nat)
    ensures n == 0 <==> x !in s
    ensures n <= |s|
  {
    if |s| == 0 then 0
    else (if s[|s| - 1] == x then 1 else 0) + Count(s[..|s| - 1], x)
  }

  lemma {:induction false} CountSnoc<T>(s: seq<T>, y: T, x: T)
    ensures Count(s + [y], x) == Count(s, x) + (if y == x then 1 else 0)
  {
    assert (s + [y])[..|s|] == s;
  }
}
