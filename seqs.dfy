/** Order-preserving sequence operations: the `Array.prototype.filter`,
    `slice`, `includes` and `Set` idioms the source builds its lists with. */
module Seqs {

  /** `s.filter(p)`: the elements of `s` that satisfy `p`, in order. */
  function Filter<T>(s: seq<T>, p: T -> bool): (r: seq<T>)
    ensures |r| <= |s|
    ensures forall i :: 0 <= i < |r| ==> p(r[i])
  {
    if s == [] then [] else (if p(s[0]) then [s[0]] else []) + Filter(s[1..], p)
  }

  /** An element is kept exactly when it occurs in `s` and satisfies `p`. */
  lemma {:induction false} FilterMembership<T>(s: seq<T>, p: T -> bool, x: T)
    ensures x in Filter(s, p) <==> x in s && p(x)
  {
    if s != [] {
      FilterMembership(s[1..], p, x);
      assert s == [s[0]] + s[1..];
    }
  }

  /** `a` is `b` with some elements left out and the rest kept in order. */
  predicate IsSubsequence<T(==)>(a: seq<T>, b: seq<T>)
  {
    if b == [] then a == []
    else (a != [] && a[0] == b[0] && IsSubsequence(a[1..], b[1..])) || IsSubsequence(a, b[1..])
  }

  lemma {:induction false} SubsequenceReflexive<T>(s: seq<T>)
    ensures IsSubsequence(s, s)
  {
    if s != [] {
      SubsequenceReflexive(s[1..]);
    }
  }

  lemma {:induction false} FilterIsSubsequence<T>(s: seq<T>, p: T -> bool)
    ensures IsSubsequence(Filter(s, p), s)
  {
    if s != [] {
      FilterIsSubsequence(s[1..], p);
      var a := Filter(s, p);
      if p(s[0]) {
        assert a == [s[0]] + Filter(s[1..], p);
        assert a[1..] == Filter(s[1..], p);
        assert a != [] && a[0] == s[0] && IsSubsequence(a[1..], s[1..]);
      } else {
        assert a == Filter(s[1..], p);
        assert IsSubsequence(a, s[1..]);
      }
    }
  }

  /** Filtering with the same predicate a second time changes nothing. */
  lemma {:induction false} FilterIdempotent<T>(s: seq<T>, p: T -> bool)
    ensures Filter(Filter(s, p), p) == Filter(s, p)
  {
    if s != [] {
      FilterIdempotent(s[1..], p);
      if p(s[0]) {
        assert Filter([s[0]], p) == [s[0]];
        assert Filter(s, p) == [s[0]] + Filter(s[1..], p);
        FilterAppend([s[0]], Filter(s[1..], p), p);
      } else {
        assert Filter(s, p) == Filter(s[1..], p);
      }
    }
  }

  lemma {:induction false} FilterAppend<T>(a: seq<T>, b: seq<T>, p: T -> bool)
    ensures Filter(a + b, p) == Filter(a, p) + Filter(b, p)
  {
    if a == [] {
      assert a + b == b;
    } else {
      var ab, rest := a + b, a[1..];
      FilterAppend(rest, b, p);
      assert ab != [] && ab[0] == a[0];
      assert ab[1..] == rest + b;
      var head := if p(a[0]) then [a[0]] else [];
      calc {
        Filter(ab, p);
        head + Filter(rest + b, p);
        head + (Filter(rest, p) + Filter(b, p));
        (head + Filter(rest, p)) + Filter(b, p);
        Filter(a, p) + Filter(b, p);
      }
    }
  }

  /** Two successive filters are one filter with the conjunction. */
  lemma {:induction false} FilterCompose<T>(s: seq<T>, p: T -> bool, q: T -> bool, both: T -> bool)
    requires forall x :: both(x) == (p(x) && q(x))
    ensures Filter(Filter(s, p), q) == Filter(s, both)
  {
    if s != [] {
      FilterCompose(s[1..], p, q, both);
      if p(s[0]) {
        assert Filter(s, p) == [s[0]] + Filter(s[1..], p);
        assert Filter([s[0]], q) == if q(s[0]) then [s[0]] else [];
        FilterAppend([s[0]], Filter(s[1..], p), q);
      } else {
        assert Filter(s, p) == Filter(s[1..], p);
      }
    }
  }

  /** Predicates that agree on the elements of `s` filter it alike. */
  lemma {:induction false} FilterCongruent<T>(s: seq<T>, p: T -> bool, q: T -> bool)
    requires forall x :: x in s ==> p(x) == q(x)
    ensures Filter(s, p) == Filter(s, q)
  {
    if s != [] {
      FilterCongruent(s[1..], p, q);
    }
  }

  /** A predicate every element satisfies keeps the whole sequence. */
  lemma {:induction false} FilterAll<T>(s: seq<T>, p: T -> bool)
    requires forall x :: x in s ==> p(x)
    ensures Filter(s, p) == s
  {
    if s != [] {
      FilterAll(s[1..], p);
    }
  }

  /** `s.filter(p).length`. */
  function Count<T>(s: seq<T>, p: T -> bool): nat
  {
    |Filter(s, p)|
  }

  /** The count of a predicate depends only on which elements occur how
      often, not on their order. */
  lemma {:induction false} CountPermutation<T>(a: seq<T>, b: seq<T>, p: T -> bool)
    requires multiset(a) == multiset(b)
    decreases |a|
    ensures Count(a, p) == Count(b, p)
  {
    if a == [] {
      assert |multiset(b)| == 0;
    } else {
      var x := a[0];
      assert x in multiset(b);
      var j :| 0 <= j < |b| && b[j] == x;
      var front, back := b[..j], b[j + 1..];
      assert b == front + [x] + back;
      assert a == [x] + a[1..];
      assert multiset(a[1..]) == multiset(a) - multiset{x};
      assert multiset(b) == multiset(front + back) + multiset{x};
      assert multiset(front + back) == multiset(b) - multiset{x};
      CountPermutation(a[1..], front + back, p);
      FilterAppend(front, back, p);
      FilterAppend(front + [x], back, p);
      FilterAppend(front, [x], p);
      FilterAppend([x], a[1..], p);
      assert Filter([x], p) == if p(x) then [x] else [];
    }
  }

  /** `s.slice(0, n)` for a non-negative `n`. */
  function Take<T>(s: seq<T>, n: nat): (r: seq<T>)
    ensures |r| == if n < |s| then n else |s|
    ensures r <= s
  {
    if n < |s| then s[..n] else s
  }

  /** `s.filter(y => y !== x)`. */
  function RemoveAll<T(==)>(s: seq<T>, x: T): (r: seq<T>)
    ensures x !in r
    ensures IsSubsequence(r, s)
  {
    FilterIsSubsequence(s, y => y != x);
    Filter(s, y => y != x)
  }

  lemma RemoveAllMembership<T>(s: seq<T>, x: T, y: T)
    ensures y in RemoveAll(s, x) <==> y in s && y != x
  {
    FilterMembership(s, z => z != x, y);
  }

  /** The checkbox idiom `prev.includes(x) ? prev.filter(y => y !== x) : [...prev, x]`. */
  function Toggle<T(==)>(s: seq<T>, x: T): seq<T>
  {
    if x in s then RemoveAll(s, x) else s + [x]
  }

  /** Toggling flips membership of the toggled value and no other. */
  lemma ToggleMembership<T>(s: seq<T>, x: T, y: T)
    ensures y in Toggle(s, x) <==> if y == x then x !in s else y in s
  {
    if x in s {
      RemoveAllMembership(s, x, y);
    }
  }

  lemma ToggleMembershipAll<T>(s: seq<T>, x: T)
    ensures forall y :: y in Toggle(s, x) <==> if y == x then x !in s else y in s
  {
    forall y {
      ToggleMembership(s, x, y);
    }
  }

  /** Toggling twice restores membership of every value, and restores the
      sequence itself when the value was absent to begin with. */
  lemma ToggleTwice<T>(s: seq<T>, x: T, y: T)
    ensures y in Toggle(Toggle(s, x), x) <==> y in s
    ensures x !in s ==> Toggle(Toggle(s, x), x) == s
  {
    ToggleMembership(s, x, y);
    ToggleMembership(Toggle(s, x), x, y);
    ToggleMembership(s, x, x);
    if x !in s {
      assert Toggle(s, x) == s + [x];
      FilterAppend(s, [x], z => z != x);
      FilterAll(s, z => z != x);
    }
  }

  /** `s.filter((_, i) => i !== index)`, written as the walk over positions
      the callback performs. */
  function RemoveIndex<T>(s: seq<T>, index: int): (r: seq<T>)
    ensures 0 <= index < |s| ==> r == s[..index] + s[index + 1..]
    ensures !(0 <= index < |s|) ==> r == s
  {
    RemoveIndexFromAt(s, index, 0);
    RemoveIndexFrom(s, index, 0)
  }

  function RemoveIndexFrom<T>(s: seq<T>, index: int, pos: int): (r: seq<T>)
    decreases |s|
  {
    if s == [] then []
    else (if pos == index then [] else [s[0]]) + RemoveIndexFrom(s[1..], index, pos + 1)
  }

  /** Walking from position `pos`, the element at `index` is the one dropped. */
  lemma {:induction false} RemoveIndexFromAt<T>(s: seq<T>, index: int, pos: int)
    decreases |s|
    ensures pos <= index < pos + |s| ==>
              RemoveIndexFrom(s, index, pos) == s[..index - pos] + s[index - pos + 1..]
    ensures !(pos <= index < pos + |s|) ==> RemoveIndexFrom(s, index, pos) == s
  {
    if s != [] {
      RemoveIndexFromAt(s[1..], index, pos + 1);
      var rest := RemoveIndexFrom(s[1..], index, pos + 1);
      if pos == index {
        assert RemoveIndexFrom(s, index, pos) == rest;
        assert rest == s[1..];
        assert s[..0] + s[1..] == s[1..];
      } else if pos < index < pos + |s| {
        var k := index - pos;
        assert RemoveIndexFrom(s, index, pos) == [s[0]] + rest;
        assert rest == s[1..][..k - 1] + s[1..][k..];
        assert s[1..][..k - 1] == s[1..k];
        assert s[1..][k..] == s[k + 1..];
        assert [s[0]] + (s[1..k] + s[k + 1..]) == ([s[0]] + s[1..k]) + s[k + 1..];
        assert [s[0]] + s[1..k] == s[..k];
      } else {
        assert RemoveIndexFrom(s, index, pos) == [s[0]] + rest;
        assert rest == s[1..];
        assert [s[0]] + s[1..] == s;
      }
    }
  }

  /** `[...new Set(s)]` under an equality `same`: the first element of each
      class, in order of first occurrence. */
  function Distinct<T>(s: seq<T>, same: (T, T) -> bool): (r: seq<T>)
  {
    DistinctAfter(s, [], same)
  }

  predicate SeenBefore<T>(x: T, seen: seq<T>, same: (T, T) -> bool)
  {
    exists k :: 0 <= k < |seen| && same(x, seen[k])
  }

  /** No element of `r` is `same` as an element of `seen`. */
  ghost predicate NoneSeen<T>(r: seq<T>, seen: seq<T>, same: (T, T) -> bool)
  {
    forall i :: 0 <= i < |r| ==> !SeenBefore(r[i], seen, same)
  }

  /** No element of `r` is `same` as an earlier one. */
  ghost predicate PairwiseDistinct<T>(r: seq<T>, same: (T, T) -> bool)
  {
    forall i, j :: 0 <= i < j < |r| ==> !same(r[j], r[i])
  }

  /** Every element of `s` was seen, occurs in `r`, or is `same` as one in `r`. */
  ghost predicate Covers<T>(s: seq<T>, seen: seq<T>, r: seq<T>, same: (T, T) -> bool)
  {
    forall i :: 0 <= i < |s| ==> SeenBefore(s[i], seen, same) || s[i] in r || SeenBefore(s[i], r, same)
  }

  function DistinctAfter<T>(s: seq<T>, seen: seq<T>, same: (T, T) -> bool): (r: seq<T>)
    ensures |r| <= |s|
  {
    if s == [] then []
    else if SeenBefore(s[0], seen, same) then DistinctAfter(s[1..], seen, same)
    else [s[0]] + DistinctAfter(s[1..], seen + [s[0]], same)
  }

  lemma {:induction false} DistinctAfterProperties<T>(s: seq<T>, seen: seq<T>, same: (T, T) -> bool)
    ensures NoneSeen(DistinctAfter(s, seen, same), seen, same)
    ensures PairwiseDistinct(DistinctAfter(s, seen, same), same)
    ensures Covers(s, seen, DistinctAfter(s, seen, same), same)
  {
    if s != [] {
      var r := DistinctAfter(s, seen, same);
      if SeenBefore(s[0], seen, same) {
        DistinctAfterProperties(s[1..], seen, same);
        assert r == DistinctAfter(s[1..], seen, same);
        forall i | 0 <= i < |s|
          ensures SeenBefore(s[i], seen, same) || s[i] in r || SeenBefore(s[i], r, same)
        {
          if i > 0 { assert s[i] == s[1..][i - 1]; }
        }
      } else {
        var seen' := seen + [s[0]];
        var r' := DistinctAfter(s[1..], seen', same);
        DistinctAfterProperties(s[1..], seen', same);
        assert r == [s[0]] + r';
        forall i | 0 <= i < |r|
          ensures !SeenBefore(r[i], seen, same)
        {
          if i > 0 {
            assert r[i] == r'[i - 1];
            assert !SeenBefore(r'[i - 1], seen', same);
            forall k | 0 <= k < |seen|
              ensures !same(r[i], seen[k])
            {
              assert seen'[k] == seen[k];
            }
          }
        }
        forall i, j | 0 <= i < j < |r|
          ensures !same(r[j], r[i])
        {
          assert r[j] == r'[j - 1];
          assert !SeenBefore(r'[j - 1], seen', same);
          if i == 0 {
            assert seen'[|seen|] == s[0] == r[i];
          } else {
            assert r[i] == r'[i - 1];
          }
        }
        forall i | 0 <= i < |s|
          ensures SeenBefore(s[i], seen, same) || s[i] in r || SeenBefore(s[i], r, same)
        {
          if i > 0 {
            assert s[i] == s[1..][i - 1];
            if SeenBefore(s[i], seen', same) {
              var k :| 0 <= k < |seen'| && same(s[i], seen'[k]);
              if k < |seen| {
                assert seen'[k] == seen[k];
              } else {
                assert same(s[i], r[0]);
              }
            } else if s[i] in r' {
              assert s[i] in r;
            } else {
              var k :| 0 <= k < |r'| && same(s[i], r'[k]);
              assert r[k + 1] == r'[k];
            }
          }
        }
      }
    }
  }

  /** The kept elements are drawn from `s` in their original order. */
  lemma {:induction false} DistinctAfterSubsequence<T>(s: seq<T>, seen: seq<T>, same: (T, T) -> bool)
    ensures IsSubsequence(DistinctAfter(s, seen, same), s)
  {
    if s != [] {
      var r := DistinctAfter(s, seen, same);
      if SeenBefore(s[0], seen, same) {
        DistinctAfterSubsequence(s[1..], seen, same);
      } else {
        DistinctAfterSubsequence(s[1..], seen + [s[0]], same);
        assert r[1..] == DistinctAfter(s[1..], seen + [s[0]], same);
      }
    }
  }

  lemma DistinctProperties<T>(s: seq<T>, same: (T, T) -> bool)
    ensures IsSubsequence(Distinct(s, same), s)
    ensures PairwiseDistinct(Distinct(s, same), same)
    ensures Covers(s, [], Distinct(s, same), same)
  {
    DistinctAfterProperties(s, [], same);
    DistinctAfterSubsequence(s, [], same);
  }

  /** One line `if (active) list = list.filter(test)` of a filter pipeline. */
  datatype Step<!T> = Step(active: bool, test: T -> bool)

  /** `x` survives the first `k` lines of the pipeline `steps`. */
  predicate PassesFirst<T>(steps: seq<Step<T>>, k: nat, x: T)
    requires k <= |steps|
  {
    k == 0 || (PassesFirst(steps, k - 1, x) && (steps[k - 1].active ==> steps[k - 1].test(x)))
  }

  function Stage<T>(steps: seq<Step<T>>, k: nat): T -> bool
    requires k <= |steps|
  {
    (x: T) => PassesFirst(steps, k, x)
  }

  /** The list a pipeline leaves: the elements that pass every active
      line, in their original order. */
  function Pipeline<T>(s: seq<T>, steps: seq<Step<T>>): seq<T>
  {
    Filter(s, Stage(steps, |steps|))
  }

  /** Before any line runs the list is the whole input. */
  lemma PipelineStart<T>(s: seq<T>, steps: seq<Step<T>>)
    ensures Filter(s, Stage(steps, 0)) == s
  {
    FilterAll(s, Stage(steps, 0));
  }

  /** Running line `k` (filtering with a test equal to its own when it is
      active, leaving the list alone otherwise) takes the list from the
      `k`-th stage to the next. */
  lemma PipelineStep<T>(s: seq<T>, steps: seq<Step<T>>, k: nat, prev: seq<T>, test: T -> bool, next: seq<T>)
    requires k < |steps|
    requires prev == Filter(s, Stage(steps, k))
    requires forall x :: test(x) == steps[k].test(x)
    requires next == if steps[k].active then Filter(prev, test) else prev
    ensures next == Filter(s, Stage(steps, k + 1))
  {
    if steps[k].active {
      FilterCompose(s, Stage(steps, k), test, Stage(steps, k + 1));
    } else {
      FilterCongruent(s, Stage(steps, k), Stage(steps, k + 1));
    }
  }

  /** A pipeline keeps the input order, and running it again on its own
      output changes nothing. */
  lemma PipelineOrderAndIdempotence<T>(s: seq<T>, steps: seq<Step<T>>)
    ensures IsSubsequence(Pipeline(s, steps), s)
    ensures Pipeline(Pipeline(s, steps), steps) == Pipeline(s, steps)
  {
    FilterIsSubsequence(s, Stage(steps, |steps|));
    FilterIdempotent(s, Stage(steps, |steps|));
  }

  lemma PipelineMembership<T>(s: seq<T>, steps: seq<Step<T>>, x: T)
    ensures x in Pipeline(s, steps) <==> x in s && PassesFirst(steps, |steps|, x)
  {
    FilterMembership(s, Stage(steps, |steps|), x);
  }
}
