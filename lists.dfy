/**
 * `Array.prototype.filter` and the facts about it the pages rely on: what it
 * keeps, that it keeps order, and how two filters combine.
 */
module Lists {

  /** `s.filter(keep)`. */
  function Filter<T(!new)>(s: seq<T>, keep: T -> bool): (r: seq<T>)
    ensures |r| <= |s|
    ensures forall x :: x in r <==> x in s && keep(x)
    ensures forall i :: 0 <= i < |r| ==> keep(r[i])
    decreases |s|
  {
    if s == [] then []
    else
      assert forall x :: x in s <==> x == s[0] || x in s[1..];
      (if keep(s[0]) then [s[0]] else []) + Filter(s[1..], keep)
  }

  /** `a` is `b` with some elements left out and the rest in their order. */
  predicate Subsequence<T(==)>(a: seq<T>, b: seq<T>)
    decreases |b|
  {
    if a == [] then true
    else if b == [] then false
    else (a[0] == b[0] && Subsequence(a[1..], b[1..])) || Subsequence(a, b[1..])
  }

  /** Filtering keeps the survivors in their original order. */
  lemma {:induction false} FilterIsSubsequence<T(!new)>(s: seq<T>, keep: T -> bool)
    ensures Subsequence(Filter(s, keep), s)
    decreases |s|
  {
    if s != [] {
      FilterIsSubsequence(s[1..], keep);
      var r := Filter(s, keep);
      if keep(s[0]) {
        assert r[0] == s[0] && r[1..] == Filter(s[1..], keep);
      } else {
        assert r == Filter(s[1..], keep);
        if r != [] {
          assert Subsequence(r, s[1..]);
        }
      }
    }
  }

  /** Filtering the output of a filter again with the same test changes nothing. */
  lemma {:induction false} FilterIdempotent<T(!new)>(s: seq<T>, keep: T -> bool)
    ensures Filter(Filter(s, keep), keep) == Filter(s, keep)
  {
    FilterKeepsAll(Filter(s, keep), keep);
  }

  /** A filter that every element passes returns its input. */
  lemma {:induction false} FilterKeepsAll<T(!new)>(s: seq<T>, keep: T -> bool)
    requires forall i :: 0 <= i < |s| ==> keep(s[i])
    ensures Filter(s, keep) == s
    decreases |s|
  {
    if s != [] {
      FilterKeepsAll(s[1..], keep);
    }
  }

  /** A filter that no element passes returns the empty list. */
  lemma {:induction false} FilterDropsAll<T(!new)>(s: seq<T>, keep: T -> bool)
    requires forall i :: 0 <= i < |s| ==> !keep(s[i])
    ensures Filter(s, keep) == []
    decreases |s|
  {
    if s != [] {
      FilterDropsAll(s[1..], keep);
    }
  }

  /** A stricter test keeps no more elements than a looser one. */
  lemma {:induction false} FilterStricterIsShorter<T(!new)>(s: seq<T>, strict: T -> bool, loose: T -> bool)
    requires forall x :: strict(x) ==> loose(x)
    ensures |Filter(s, strict)| <= |Filter(s, loose)|
    decreases |s|
  {
    if s != [] {
      FilterStricterIsShorter(s[1..], strict, loose);
    }
  }

  /** Two filters applied one after the other give the same list in either order. */
  lemma {:induction false} FilterCommutes<T(!new)>(s: seq<T>, p: T -> bool, q: T -> bool)
    ensures Filter(Filter(s, p), q) == Filter(Filter(s, q), p)
    decreases |s|
  {
    if s != [] {
      FilterCommutes(s[1..], p, q);
      FilterAppend((if p(s[0]) then [s[0]] else []), Filter(s[1..], p), q);
      FilterAppend((if q(s[0]) then [s[0]] else []), Filter(s[1..], q), p);
    }
  }

  /** Filtering distributes over concatenation. */
  lemma {:induction false} FilterAppend<T(!new)>(a: seq<T>, b: seq<T>, keep: T -> bool)
    ensures Filter(a + b, keep) == Filter(a, keep) + Filter(b, keep)
    decreases |a|
  {
    if a == [] {
      assert a + b == b;
    } else {
      FilterAppend(a[1..], b, keep);
      ConsAppend(a, b);
      var head := if keep(a[0]) then [a[0]] else [];
      assert Filter(a + b, keep) == head + Filter(a[1..] + b, keep);
      Associative(head, Filter(a[1..], keep), Filter(b, keep));
    }
  }

  /** The head and tail of a concatenation whose left part is not empty. */
  lemma ConsAppend<T>(a: seq<T>, b: seq<T>)
    requires a != []
    ensures a + b != [] && (a + b)[0] == a[0] && (a + b)[1..] == a[1..] + b
  {
  }

  lemma Associative<T>(x: seq<T>, y: seq<T>, z: seq<T>)
    ensures x + (y + z) == (x + y) + z
  {
  }

  /**
   * Every element passes exactly one of `keep` and its negation, so the two
   * filters split the list: their lengths add up and together they hold
   * every element as often as the list does.
   */
  lemma {:induction false} FilterPartition<T(!new)>(s: seq<T>, keep: T -> bool, drop: T -> bool)
    requires forall x :: drop(x) == !keep(x)
    ensures |Filter(s, keep)| + |Filter(s, drop)| == |s|
    ensures multiset(Filter(s, keep)) + multiset(Filter(s, drop)) == multiset(s)
    decreases |s|
  {
    PartitionOf(s, keep, drop);
  }

  /** The partition, needing the two tests to disagree only on the list's own elements. */
  lemma {:induction false} PartitionOf<T(!new)>(s: seq<T>, keep: T -> bool, drop: T -> bool)
    requires forall i :: 0 <= i < |s| ==> drop(s[i]) == !keep(s[i])
    ensures |Filter(s, keep)| + |Filter(s, drop)| == |s|
    ensures multiset(Filter(s, keep)) + multiset(Filter(s, drop)) == multiset(s)
    decreases |s|
  {
    if s != [] {
      assert forall i :: 0 <= i < |s[1..]| ==> s[1..][i] == s[i + 1];
      PartitionOf(s[1..], keep, drop);
      assert drop(s[0]) == !keep(s[0]);
      SplitHead(s, Filter(s, keep), Filter(s, drop), Filter(s[1..], keep), Filter(s[1..], drop), keep(s[0]));
    }
  }

  /** The head goes to exactly one side of a split of the tail. */
  lemma SplitHead<T>(s: seq<T>, k: seq<T>, d: seq<T>, kr: seq<T>, dr: seq<T>, kept: bool)
    requires s != []
    requires |kr| + |dr| == |s| - 1 && multiset(kr) + multiset(dr) == multiset(s[1..])
    requires kept ==> k == [s[0]] + kr && d == dr
    requires !kept ==> k == kr && d == [s[0]] + dr
    ensures |k| + |d| == |s| && multiset(k) + multiset(d) == multiset(s)
  {
    assert s == [s[0]] + s[1..];
  }

  /** Elements passing two tests that exclude each other are counted apart: the counts add up to at most the length. */
  lemma {:induction false} ExclusiveCounts<T(!new)>(s: seq<T>, p: T -> bool, q: T -> bool)
    requires forall x :: !(p(x) && q(x))
    ensures |Filter(s, p)| + |Filter(s, q)| <= |s|
    decreases |s|
  {
    if s != [] {
      ExclusiveCounts(s[1..], p, q);
    }
  }

  /** Two tests that agree on every element filter alike. */
  lemma {:induction false} FilterSame<T(!new)>(s: seq<T>, p: T -> bool, q: T -> bool)
    requires forall x :: p(x) == q(x)
    ensures Filter(s, p) == Filter(s, q)
    decreases |s|
  {
    if s != [] {
      FilterSame(s[1..], p, q);
    }
  }

  /** Filtering by one test and then another is filtering once by both. */
  lemma {:induction false} FilterBoth<T(!new)>(s: seq<T>, p: T -> bool, q: T -> bool, both: T -> bool)
    requires forall x :: both(x) == (p(x) && q(x))
    ensures Filter(Filter(s, p), q) == Filter(s, both)
    decreases |s|
  {
    if s != [] {
      FilterBoth(s[1..], p, q, both);
      FilterAppend((if p(s[0]) then [s[0]] else []), Filter(s[1..], p), q);
    }
  }

  /** Every list is a subsequence of itself. */
  lemma {:induction false} SubsequenceOfSelf<T>(s: seq<T>)
    ensures Subsequence(s, s)
    decreases |s|
  {
    if s != [] {
      SubsequenceOfSelf(s[1..]);
    }
  }

  /** Three tests that exclude one another pairwise: the three counts add up to at most the length. */
  lemma {:induction false} ExclusiveCounts3<T(!new)>(s: seq<T>, p: T -> bool, q: T -> bool, r: T -> bool)
    requires forall x :: !(p(x) && q(x)) && !(p(x) && r(x)) && !(q(x) && r(x))
    ensures |Filter(s, p)| + |Filter(s, q)| + |Filter(s, r)| <= |s|
    decreases |s|
  {
    if s != [] {
      ExclusiveCounts3(s[1..], p, q, r);
    }
  }

  /** The positions of `s` whose element passes `keep`. */
  ghost function Positions<T>(s: seq<T>, keep: T -> bool): set<int> {
    set i | 0 <= i < |s| && keep(s[i])
  }

  /** Filtering keeps one element per passing position: its length counts the positions that pass. */
  lemma {:induction false} FilterCountsPositions<T(!new)>(s: seq<T>, keep: T -> bool)
    ensures |Filter(s, keep)| == |Positions(s, keep)|
    decreases |s|
  {
    if s != [] {
      var init, last := s[..|s| - 1], s[|s| - 1];
      FilterCountsPositions(init, keep);
      FilterSnoc(init, last, keep);
      PositionsSnoc(init, last, keep);
      assert s == init + [last];
    }
  }

  /** Filtering a list with one more element at the end. */
  lemma FilterSnoc<T(!new)>(init: seq<T>, last: T, keep: T -> bool)
    ensures Filter(init + [last], keep) == Filter(init, keep) + (if keep(last) then [last] else [])
  {
    FilterAppend(init, [last], keep);
    assert Filter([last], keep) == (if keep(last) then [last] else []) + Filter([], keep);
  }

  /** The passing positions of a list with one more element at the end: the old ones, and the new last one if it passes. */
  lemma PositionsSnoc<T>(init: seq<T>, last: T, keep: T -> bool)
    ensures |Positions(init + [last], keep)| == |Positions(init, keep)| + (if keep(last) then 1 else 0)
  {
    var s := init + [last];
    var before, added := Positions(init, keep), if keep(last) then {|init|} else {};
    forall i | i in Positions(s, keep)
      ensures i in before + added
    {
      if i < |init| {
        assert init[i] == s[i];
      }
    }
    forall i | i in before + added
      ensures i in Positions(s, keep)
    {
      if i < |init| {
        assert init[i] == s[i];
      }
    }
    assert Positions(s, keep) == before + added;
    assert before !! added;
  }

  /** Filtering keeps every occurrence of an element that passes and none of one that does not. */
  lemma {:induction false} FilterMultiplicity<T(!new)>(s: seq<T>, keep: T -> bool, x: T)
    ensures multiset(Filter(s, keep))[x] == if keep(x) then multiset(s)[x] else 0
    decreases |s|
  {
    if s != [] {
      FilterMultiplicity(s[1..], keep, x);
      assert s == [s[0]] + s[1..];
      CountCons(s[0], s[1..], Filter(s[1..], keep), keep(s[0]), x);
    }
  }

  /** Occurrences of `x` in a list with `h` in front, whether or not `h` is kept. */
  lemma CountCons<T>(h: T, rest: seq<T>, kept: seq<T>, keepHead: bool, x: T)
    ensures multiset([h] + rest)[x] == (if h == x then 1 else 0) + multiset(rest)[x]
    ensures multiset((if keepHead then [h] else []) + kept)[x] == (if keepHead && h == x then 1 else 0) + multiset(kept)[x]
  {
    assert multiset([h] + rest) == multiset([h]) + multiset(rest);
    if keepHead {
      assert multiset([h] + kept) == multiset([h]) + multiset(kept);
    } else {
      assert [] + kept == kept;
    }
  }
}
