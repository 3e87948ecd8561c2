/**
 * The built-in `Array.prototype` methods that both repositories are written with:
 * `find`, `findIndex`, `filter` and `reduce`, over a callback `p` that has no side effects.
 */
module JsArray {
  import opened Wrappers

  /** `s.findIndex(p)`: the index of the first element satisfying `p`, or -1 if there is none. */
  function FindIndex<T>(s: seq<T>, p: T -> bool): (k: int)
    ensures -1 <= k < |s|
    ensures k == -1 <==> forall i :: 0 <= i < |s| ==> !p(s[i])
    ensures 0 <= k ==> p(s[k]) && forall j :: 0 <= j < k ==> !p(s[j])
  {
    if |s| == 0 then -1
    else if p(s[0]) then 0
    else
      var k := FindIndex(s[1..], p);
      if k == -1 then -1 else k + 1
  }

  /** `s.find(p)`: the first element satisfying `p`; `None` plays the part of `undefined`. */
  function Find<T>(s: seq<T>, p: T -> bool): (r: Option<T>)
    ensures r.None? <==> FindIndex(s, p) == -1
    ensures r.Some? ==> r.value == s[FindIndex(s, p)]
  {
    if |s| == 0 then None
    else if p(s[0]) then Some(s[0])
    else Find(s[1..], p)
  }

  /** Once the first match is replaced by another match, that index is still the first match. */
  lemma FindAfterReplace<T>(s: seq<T>, p: T -> bool, x: T)
    requires FindIndex(s, p) != -1 && p(x)
    ensures FindIndex(s[FindIndex(s, p) := x], p) == FindIndex(s, p)
    ensures Find(s[FindIndex(s, p) := x], p) == Some(x)
  {
    var k := FindIndex(s, p);
    var t := s[k := x];
    assert forall j :: 0 <= j < k ==> t[j] == s[j];
    assert t[k] == x;
  }

  /** Appending a match to a sequence with none makes the appended element the first match. */
  lemma FindAfterAppend<T>(s: seq<T>, p: T -> bool, x: T)
    requires FindIndex(s, p) == -1 && p(x)
    ensures FindIndex(s + [x], p) == |s|
    ensures Find(s + [x], p) == Some(x)
  {
    var t := s + [x];
    assert forall j :: 0 <= j < |s| ==> t[j] == s[j];
    assert t[|s|] == x;
  }

  /** `s.filter(p)`: a new array of the elements satisfying `p`, in their original order. */
  function Filter<T>(s: seq<T>, p: T -> bool): (r: seq<T>)
    ensures |r| <= |s|
    ensures forall i :: 0 <= i < |r| ==> r[i] in s && p(r[i])
    ensures forall i :: 0 <= i < |s| && p(s[i]) ==> s[i] in r
  {
    if |s| == 0 then []
    else (if p(s[0]) then [s[0]] else []) + Filter(s[1..], p)
  }

  /** Filtering distributes over concatenation: the kept elements stay in their relative order. */
  lemma {:induction false} FilterAppend<T>(a: seq<T>, b: seq<T>, p: T -> bool)
    ensures Filter(a + b, p) == Filter(a, p) + Filter(b, p)
    decreases |a|
  {
    if |a| > 0 {
      assert (a + b)[1..] == a[1..] + b;
      FilterAppend(a[1..], b, p);
    } else {
      assert a + b == b;
    }
  }

  /**
   * Filtering with `keep` does not change what `find` answers for a callback `want` that
   * only matches elements `keep` retains.
   */
  lemma {:induction false} FindThroughFilter<T>(s: seq<T>, keep: T -> bool, want: T -> bool)
    requires forall x :: want(x) ==> keep(x)
    ensures Find(Filter(s, keep), want) == Find(s, want)
    decreases |s|
  {
    if |s| > 0 {
      var rest := Filter(s[1..], keep);
      FindThroughFilter(s[1..], keep, want);
      if !keep(s[0]) {
        assert Filter(s, keep) == rest;
      } else {
        var t := [s[0]] + rest;
        assert Filter(s, keep) == t;
        assert t[0] == s[0] && t[1..] == rest;
      }
    }
  }

  /** Filtering keeps everything when every element satisfies the predicate. */
  lemma {:induction false} FilterKeepsAll<T>(s: seq<T>, p: T -> bool)
    requires forall i :: 0 <= i < |s| ==> p(s[i])
    ensures Filter(s, p) == s
    decreases |s|
  {
    if |s| > 0 {
      FilterKeepsAll(s[1..], p);
    }
  }

  /** Filtering drops a single rejected element from between two runs of kept ones. */
  lemma FilterDropsOne<T>(before: seq<T>, x: T, after: seq<T>, p: T -> bool)
    requires forall i :: 0 <= i < |before| ==> p(before[i])
    requires forall i :: 0 <= i < |after| ==> p(after[i])
    requires !p(x)
    ensures Filter(before + [x] + after, p) == before + after
  {
    calc {
      Filter(before + [x] + after, p);
      { FilterAppend(before + [x], after, p); }
      Filter(before + [x], p) + Filter(after, p);
      { FilterAppend(before, [x], p); }
      Filter(before, p) + Filter([x], p) + Filter(after, p);
      { FilterKeepsAll(before, p);
        FilterKeepsAll(after, p);
        assert [x][1..] == [];
        assert Filter([x], p) == []; }
      before + [] + after;
      { assert before + [] == before; }
      before + after;
    }
  }

  /** Filtering keeps every occurrence of a kept value and none of a dropped one. */
  lemma {:induction false} FilterCounts<T>(s: seq<T>, p: T -> bool)
    ensures forall x :: multiset(Filter(s, p))[x] == if p(x) then multiset(s)[x] else 0
    decreases |s|
  {
    if |s| > 0 {
      FilterCounts(s[1..], p);
      assert s == [s[0]] + s[1..];
    }
  }

  /**
   * `s.reduce(f, init)`: folds the elements from left to right into an accumulator;
   * written by peeling off the last element, so the last call of `f` sees the whole prefix.
   */
  function Reduce<A, T>(s: seq<T>, f: (A, T) -> A, init: A): A
    decreases |s|
  {
    if |s| == 0 then init
    else f(Reduce(s[..|s| - 1], f, init), s[|s| - 1])
  }

  /**
   * `Reduce` folds in the front-to-back order in which the language defines `reduce`:
   * the first element is folded into the initial value first.
   */
  lemma {:induction false} ReduceFront<A, T>(s: seq<T>, f: (A, T) -> A, init: A)
    ensures |s| > 0 ==> Reduce(s, f, init) == Reduce(s[1..], f, f(init, s[0]))
    decreases |s|
  {
    if |s| > 1 {
      var prefix := s[..|s| - 1];
      ReduceFront(prefix, f, init);
      assert prefix[1..] == s[1..][..|s| - 2];
    }
  }
}
