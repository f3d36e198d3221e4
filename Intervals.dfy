/** The interval merger (src/scheduling/intervals.ts): closed intervals of
    minutes, sorted by start and folded so that overlapping or touching
    intervals become one. */
module Intervals {
  import opened Sorting

  datatype Interval = Interval(start: int, end: int)

  function StartOf(i: Interval): int {
    i.start
  }

  predicate SortedByStart(s: seq<Interval>) {
    SortedBy(s, StartOf)
  }

  /** Consecutive intervals neither overlap nor touch. */
  predicate Separated(s: seq<Interval>) {
    forall i :: 0 < i < |s| ==> s[i - 1].end < s[i].start
  }

  predicate Inside(x: Interval, y: Interval) {
    y.start <= x.start && x.end <= y.end
  }

  predicate CoversPoint(i: Interval, p: int) {
    i.start <= p <= i.end
  }

  function Max(a: int, b: int): int {
    if a >= b then a else b
  }

  /** One step of the fold: the current interval extends the last merged one
      when it starts no later than that one's end, else it is appended. */
  function Absorb(merged: seq<Interval>, cur: Interval): seq<Interval> {
    if merged != [] && cur.start <= merged[|merged| - 1].end then
      var last := merged[|merged| - 1];
      merged[..|merged| - 1] + [Interval(last.start, Max(last.end, cur.end))]
    else merged + [cur]
  }

  /** The fold over the first `n` intervals of an already sorted list. */
  function MergePrefix(s: seq<Interval>, n: nat): seq<Interval>
    requires n <= |s|
  {
    if n == 0 then [] else Absorb(MergePrefix(s, n - 1), s[n - 1])
  }

  /** `mergeIntervals` as a function of its input. */
  function Merge(xs: seq<Interval>): seq<Interval> {
    var s := SortBy(xs, StartOf);
    SortByFacts(xs, StartOf);
    MergePrefix(s, |s|)
  }

  /** `x` lies inside some interval of `r`. */
  ghost predicate InsideSome(x: Interval, r: seq<Interval>) {
    exists i :: 0 <= i < |r| && Inside(x, r[i])
  }

  /** `v` is the start of one of the first `n` intervals of `s`. */
  ghost predicate IsStartIn(v: int, s: seq<Interval>, n: nat) {
    exists k :: 0 <= k < n && k < |s| && s[k].start == v
  }

  /** `v` is the end of one of the first `n` intervals of `s`. */
  ghost predicate IsEndIn(v: int, s: seq<Interval>, n: nat) {
    exists k :: 0 <= k < n && k < |s| && s[k].end == v
  }

  /** Minute `p` is covered by one of the first `n` intervals of `s`. */
  ghost predicate PointIn(p: int, s: seq<Interval>, n: nat) {
    exists k :: 0 <= k < n && k < |s| && CoversPoint(s[k], p)
  }

  /** Each of the first `n` input intervals lies inside one merged interval. */
  ghost predicate Covered(s: seq<Interval>, n: nat, r: seq<Interval>) {
    forall k :: 0 <= k < n && k < |s| ==> InsideSome(s[k], r)
  }

  /** Every merged start is the start of an input interval. */
  ghost predicate StartsFrom(s: seq<Interval>, n: nat, r: seq<Interval>) {
    forall i :: 0 <= i < |r| ==> IsStartIn(r[i].start, s, n)
  }

  /** Every merged end is the end of an input interval. */
  ghost predicate EndsFrom(s: seq<Interval>, n: nat, r: seq<Interval>) {
    forall i :: 0 <= i < |r| ==> IsEndIn(r[i].end, s, n)
  }

  /** No merged interval covers a minute that no input interval covers. */
  ghost predicate NoNewPoints(s: seq<Interval>, n: nat, r: seq<Interval>) {
    forall i, p :: 0 <= i < |r| && CoversPoint(r[i], p) ==> PointIn(p, s, n)
  }

  ghost predicate Shape(n: nat, r: seq<Interval>) {
    |r| <= n && (n == 0 <==> r == []) && SortedByStart(r) && Separated(r)
  }

  /** Everything the merger promises about its input `s`. */
  ghost predicate MergeFacts(s: seq<Interval>, r: seq<Interval>) {
    && Shape(|s|, r)
    && Covered(s, |s|, r)
    && StartsFrom(s, |s|, r)
    && EndsFrom(s, |s|, r)
    && NoNewPoints(s, |s|, r)
  }

  /** The result of one fold step, written out by case. */
  lemma AbsorbCases(m: seq<Interval>, x: Interval)
    ensures m != [] && x.start <= m[|m| - 1].end ==>
      && |Absorb(m, x)| == |m|
      && (forall i :: 0 <= i < |m| - 1 ==> Absorb(m, x)[i] == m[i])
      && Absorb(m, x)[|m| - 1] == Interval(m[|m| - 1].start, Max(m[|m| - 1].end, x.end))
    ensures !(m != [] && x.start <= m[|m| - 1].end) ==>
      && |Absorb(m, x)| == |m| + 1
      && (forall i :: 0 <= i < |m| ==> Absorb(m, x)[i] == m[i])
      && Absorb(m, x)[|m|] == x
  {
  }

  /** Every interval merged so far starts no later than the next input. */
  lemma StartsBefore(s: seq<Interval>, n: nat, m: seq<Interval>)
    requires 0 < n <= |s| && SortedByStart(s) && StartsFrom(s, n - 1, m)
    ensures forall i :: 0 <= i < |m| ==> m[i].start <= s[n - 1].start
  {
    forall i | 0 <= i < |m| ensures m[i].start <= s[n - 1].start {
      assert IsStartIn(m[i].start, s, n - 1);
      var k :| 0 <= k < n - 1 && k < |s| && s[k].start == m[i].start;
    }
  }

  /** After one step the result is still sorted and separated. */
  lemma AbsorbOrder(m: seq<Interval>, x: Interval)
    requires SortedByStart(m) && Separated(m)
    requires forall i :: 0 <= i < |m| ==> m[i].start <= x.start
    ensures SortedByStart(Absorb(m, x)) && Separated(Absorb(m, x))
  {
    var r := Absorb(m, x);
    AbsorbCases(m, x);
    forall i, j | 0 <= i < j < |r| ensures r[i].start <= r[j].start {
      if j < |m| {
        assert m[i].start <= m[j].start;
      }
    }
    assert Separated(r);
  }

  /** After one step the starts still come from the input. */
  lemma AbsorbStartsFrom(s: seq<Interval>, n: nat, m: seq<Interval>)
    requires 0 < n <= |s| && StartsFrom(s, n - 1, m)
    ensures StartsFrom(s, n, Absorb(m, s[n - 1]))
  {
    var x, r := s[n - 1], Absorb(m, s[n - 1]);
    AbsorbCases(m, x);
    var grows := m != [] && x.start <= m[|m| - 1].end;
    forall i | 0 <= i < |r| ensures IsStartIn(r[i].start, s, n) {
      if !grows && i == |r| - 1 {
        assert s[n - 1].start == r[i].start;
      } else {
        assert r[i].start == m[i].start;
        assert IsStartIn(m[i].start, s, n - 1);
        var k :| 0 <= k < n - 1 && k < |s| && s[k].start == m[i].start;
      }
    }
  }

  /** After one step the result is still sorted and separated, and its starts
      still come from the input, when the input is sorted. */
  lemma AbsorbShape(s: seq<Interval>, n: nat, m: seq<Interval>)
    requires 0 < n <= |s| && SortedByStart(s)
    requires Shape(n - 1, m) && StartsFrom(s, n - 1, m)
    ensures Shape(n, Absorb(m, s[n - 1])) && StartsFrom(s, n, Absorb(m, s[n - 1]))
  {
    StartsBefore(s, n, m);
    AbsorbOrder(m, s[n - 1]);
    AbsorbStartsFrom(s, n, m);
    AbsorbCases(m, s[n - 1]);
  }

  lemma AbsorbCovered(s: seq<Interval>, n: nat, m: seq<Interval>)
    requires 0 < n <= |s|
    requires Covered(s, n - 1, m)
    requires m != [] ==> m[|m| - 1].start <= s[n - 1].start
    ensures Covered(s, n, Absorb(m, s[n - 1]))
  {
    var x, r := s[n - 1], Absorb(m, s[n - 1]);
    AbsorbCases(m, x);
    var grows := m != [] && x.start <= m[|m| - 1].end;
    forall k | 0 <= k < n && k < |s| ensures InsideSome(s[k], r) {
      if k == n - 1 {
        assert Inside(s[k], r[|r| - 1]);
      } else {
        assert InsideSome(s[k], m);
        var i :| 0 <= i < |m| && Inside(s[k], m[i]);
        assert Inside(s[k], r[i]);
      }
    }
  }

  lemma AbsorbEndsFrom(s: seq<Interval>, n: nat, m: seq<Interval>)
    requires 0 < n <= |s|
    requires EndsFrom(s, n - 1, m)
    ensures EndsFrom(s, n, Absorb(m, s[n - 1]))
  {
    var x, r := s[n - 1], Absorb(m, s[n - 1]);
    AbsorbCases(m, x);
    var grows := m != [] && x.start <= m[|m| - 1].end;
    forall i | 0 <= i < |r| ensures IsEndIn(r[i].end, s, n) {
      if i == |r| - 1 && (!grows || x.end > m[|m| - 1].end) {
        assert s[n - 1].end == r[i].end;
      } else {
        assert r[i].end == m[i].end;
        assert IsEndIn(m[i].end, s, n - 1);
        var k :| 0 <= k < n - 1 && k < |s| && s[k].end == m[i].end;
      }
    }
  }

  lemma AbsorbNoNewPoints(s: seq<Interval>, n: nat, m: seq<Interval>)
    requires 0 < n <= |s|
    requires NoNewPoints(s, n - 1, m)
    ensures NoNewPoints(s, n, Absorb(m, s[n - 1]))
  {
    var x, r := s[n - 1], Absorb(m, s[n - 1]);
    AbsorbCases(m, x);
    var grows := m != [] && x.start <= m[|m| - 1].end;
    forall i, q | 0 <= i < |r| && CoversPoint(r[i], q) ensures PointIn(q, s, n) {
      if i == |r| - 1 && (!grows || q > m[|m| - 1].end) {
        assert CoversPoint(s[n - 1], q);
      } else {
        assert CoversPoint(m[i], q);
        assert PointIn(q, s, n - 1);
        var k :| 0 <= k < n - 1 && k < |s| && CoversPoint(s[k], q);
      }
    }
  }

  lemma {:induction false} MergePrefixShape(s: seq<Interval>, n: nat)
    requires n <= |s| && SortedByStart(s)
    ensures Shape(n, MergePrefix(s, n)) && StartsFrom(s, n, MergePrefix(s, n))
  {
    if n > 0 {
      MergePrefixShape(s, n - 1);
      AbsorbShape(s, n, MergePrefix(s, n - 1));
    }
  }

  lemma {:induction false} MergePrefixCovered(s: seq<Interval>, n: nat)
    requires n <= |s| && SortedByStart(s)
    ensures Covered(s, n, MergePrefix(s, n))
  {
    if n > 0 {
      var m := MergePrefix(s, n - 1);
      MergePrefixCovered(s, n - 1);
      MergePrefixShape(s, n - 1);
      if m != [] {
        assert IsStartIn(m[|m| - 1].start, s, n - 1);
      }
      AbsorbCovered(s, n, m);
    }
  }

  lemma {:induction false} MergePrefixEndsFrom(s: seq<Interval>, n: nat)
    requires n <= |s|
    ensures EndsFrom(s, n, MergePrefix(s, n))
  {
    if n > 0 {
      MergePrefixEndsFrom(s, n - 1);
      AbsorbEndsFrom(s, n, MergePrefix(s, n - 1));
    }
  }

  lemma {:induction false} MergePrefixNoNewPoints(s: seq<Interval>, n: nat)
    requires n <= |s|
    ensures NoNewPoints(s, n, MergePrefix(s, n))
  {
    if n > 0 {
      MergePrefixNoNewPoints(s, n - 1);
      AbsorbNoNewPoints(s, n, MergePrefix(s, n - 1));
    }
  }

  /** The fold over a sorted list keeps all the merger's promises. */
  lemma MergeSortedFacts(s: seq<Interval>)
    requires SortedByStart(s)
    ensures MergeFacts(s, MergePrefix(s, |s|))
  {
    MergePrefixShape(s, |s|);
    MergePrefixCovered(s, |s|);
    MergePrefixEndsFrom(s, |s|);
    MergePrefixNoNewPoints(s, |s|);
  }

  /** Each promise is about the input's multiset of intervals, so it carries
      over from the sorted copy to the caller's list. */
  lemma PermutedCovered(s: seq<Interval>, xs: seq<Interval>, r: seq<Interval>)
    requires multiset(s) == multiset(xs) && Covered(s, |s|, r)
    ensures Covered(xs, |xs|, r)
  {
    forall k | 0 <= k < |xs| ensures InsideSome(xs[k], r) {
      assert xs[k] in multiset(s);
      var j :| 0 <= j < |s| && s[j] == xs[k];
      assert InsideSome(s[j], r);
    }
  }

  lemma PermutedStartsFrom(s: seq<Interval>, xs: seq<Interval>, r: seq<Interval>)
    requires multiset(s) == multiset(xs) && StartsFrom(s, |s|, r)
    ensures StartsFrom(xs, |xs|, r)
  {
    forall i | 0 <= i < |r| ensures IsStartIn(r[i].start, xs, |xs|) {
      assert IsStartIn(r[i].start, s, |s|);
      var j :| 0 <= j < |s| && s[j].start == r[i].start;
      assert s[j] in multiset(xs);
      var k :| 0 <= k < |xs| && xs[k] == s[j];
    }
  }

  lemma PermutedEndsFrom(s: seq<Interval>, xs: seq<Interval>, r: seq<Interval>)
    requires multiset(s) == multiset(xs) && EndsFrom(s, |s|, r)
    ensures EndsFrom(xs, |xs|, r)
  {
    forall i | 0 <= i < |r| ensures IsEndIn(r[i].end, xs, |xs|) {
      assert IsEndIn(r[i].end, s, |s|);
      var j :| 0 <= j < |s| && s[j].end == r[i].end;
      assert s[j] in multiset(xs);
      var k :| 0 <= k < |xs| && xs[k] == s[j];
    }
  }

  lemma PermutedNoNewPoints(s: seq<Interval>, xs: seq<Interval>, r: seq<Interval>)
    requires multiset(s) == multiset(xs) && NoNewPoints(s, |s|, r)
    ensures NoNewPoints(xs, |xs|, r)
  {
    forall i, q | 0 <= i < |r| && CoversPoint(r[i], q) ensures PointIn(q, xs, |xs|) {
      assert PointIn(q, s, |s|);
      var j :| 0 <= j < |s| && CoversPoint(s[j], q);
      assert s[j] in multiset(xs);
      var k :| 0 <= k < |xs| && xs[k] == s[j];
    }
  }

  /** `mergeIntervals` keeps all its promises on any input, sorted or not:
      the result is sorted, no two merged intervals overlap or touch, each input
      interval lies inside a merged one, the merged intervals cover no minute
      the input does not, and their bounds are input bounds. */
  lemma MergeProperties(xs: seq<Interval>)
    ensures MergeFacts(xs, Merge(xs))
  {
    var s := SortBy(xs, StartOf);
    var r := Merge(xs);
    SortByFacts(xs, StartOf);
    MergeSortedFacts(s);
    PermutedCovered(s, xs, r);
    PermutedStartsFrom(s, xs, r);
    PermutedEndsFrom(s, xs, r);
    PermutedNoNewPoints(s, xs, r);
  }

  /** The merged intervals are sorted by start and separated, and there are
      no more of them than inputs. */
  lemma MergeShape(xs: seq<Interval>)
    ensures SortedByStart(Merge(xs)) && Separated(Merge(xs)) && |Merge(xs)| <= |xs|
  {
    MergeProperties(xs);
  }

  /** Every input interval lies inside some merged interval. */
  lemma MergeCovers(xs: seq<Interval>, k: nat)
    requires k < |xs|
    ensures exists i :: 0 <= i < |Merge(xs)| && Inside(xs[k], Merge(xs)[i])
  {
    MergeProperties(xs);
    assert InsideSome(xs[k], Merge(xs));
  }

  predicate WellFormed(s: seq<Interval>) {
    forall i :: 0 <= i < |s| ==> s[i].start <= s[i].end
  }

  lemma {:induction false} MergePrefixWellFormed(s: seq<Interval>, n: nat)
    requires n <= |s| && WellFormed(s)
    ensures WellFormed(MergePrefix(s, n))
  {
    if n > 0 {
      MergePrefixWellFormed(s, n - 1);
      AbsorbCases(MergePrefix(s, n - 1), s[n - 1]);
    }
  }

  /** Merging well-formed intervals gives well-formed intervals. */
  lemma MergeWellFormed(xs: seq<Interval>)
    requires WellFormed(xs)
    ensures WellFormed(Merge(xs))
  {
    var s := SortBy(xs, StartOf);
    SortByFacts(xs, StartOf);
    forall i | 0 <= i < |s| ensures s[i].start <= s[i].end {
      assert s[i] in multiset(xs);
    }
    MergePrefixWellFormed(s, |s|);
  }

  /** Every interval has positive length. */
  predicate Proper(s: seq<Interval>) {
    forall i :: 0 <= i < |s| ==> s[i].start < s[i].end
  }

  lemma {:induction false} MergePrefixProper(s: seq<Interval>, n: nat)
    requires n <= |s| && Proper(s)
    ensures Proper(MergePrefix(s, n))
  {
    if n > 0 {
      MergePrefixProper(s, n - 1);
      AbsorbCases(MergePrefix(s, n - 1), s[n - 1]);
    }
  }

  /** Merging intervals of positive length gives intervals of positive length. */
  lemma MergeProper(xs: seq<Interval>)
    requires Proper(xs)
    ensures Proper(Merge(xs))
  {
    var s := SortBy(xs, StartOf);
    SortByFacts(xs, StartOf);
    forall i | 0 <= i < |s| ensures s[i].start < s[i].end {
      assert s[i] in multiset(xs);
    }
    MergePrefixProper(s, |s|);
  }

  /** On a separated list the fold changes nothing. */
  lemma {:induction false} MergePrefixIdentity(s: seq<Interval>, n: nat)
    requires n <= |s| && Separated(s)
    ensures MergePrefix(s, n) == s[..n]
  {
    if n > 0 {
      MergePrefixIdentity(s, n - 1);
      AbsorbCases(s[..n - 1], s[n - 1]);
    }
  }

  /** Merging is idempotent. */
  lemma MergeIdempotent(xs: seq<Interval>)
    ensures Merge(Merge(xs)) == Merge(xs)
  {
    var r := Merge(xs);
    MergeShape(xs);
    SortBySorted(r, StartOf);
    MergePrefixIdentity(r, |r|);
    assert r[..|r|] == r;
  }

  /** The loop of `mergeIntervals` over its sorted copy: each step either
      stretches the last merged interval or appends the current one. */
  method Fold(sorted: seq<Interval>) returns (merged: seq<Interval>)
    requires sorted != []
    ensures merged == MergePrefix(sorted, |sorted|)
  {
    merged := [sorted[0]];
    assert MergePrefix(sorted, 1) == Absorb([], sorted[0]) == merged;
    for i := 1 to |sorted|
      invariant merged == MergePrefix(sorted, i) && merged != []
    {
      var last := merged[|merged| - 1];
      var current := sorted[i];
      assert MergePrefix(sorted, i + 1) == Absorb(merged, current);
      if current.start <= last.end {
        merged := merged[..|merged| - 1] + [Interval(last.start, Max(last.end, current.end))];
      } else {
        merged := merged + [current];
      }
    }
  }

  /** `mergeIntervals`: copies and sorts its input, then folds it. The result
      is the merger's function of the input, so it keeps all its promises. */
  method MergeIntervals(intervals: seq<Interval>) returns (merged: seq<Interval>)
    ensures merged == Merge(intervals)
    ensures MergeFacts(intervals, merged)
  {
    if |intervals| == 0 {
      merged := [];
    } else {
      var sorted := SortBy(intervals, StartOf);
      SortByFacts(intervals, StartOf);
      merged := Fold(sorted);
    }
    MergeProperties(intervals);
  }
}
