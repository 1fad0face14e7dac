/** The library's quicksort: in place, with an explicit stack of twenty segments. */
module Quicksort {
  import opened Common

  /** What the comparison function must be: `cmp(a, b) < 0` says a comes before b. */
  ghost predicate Leq<T(!new)>(cmp: (T, T) -> int, a: T, b: T) {
    cmp(b, a) >= 0
  }

  ghost predicate Preorder<T(!new)>(cmp: (T, T) -> int) {
    && (forall a, b :: Leq(cmp, a, b) || Leq(cmp, b, a))
    && forall a, b, c :: Leq(cmp, a, b) && Leq(cmp, b, c) ==> Leq(cmp, a, c)
  }

  ghost predicate Sorted<T(!new)>(cmp: (T, T) -> int, a: seq<T>) {
    forall p, q :: 0 <= p < q < |a| ==> Leq(cmp, a[p], a[q])
  }

  /** Everything before `k` may stay before everything from `k` on. */
  ghost predicate Cut<T(!new)>(cmp: (T, T) -> int, a: seq<T>, k: int) {
    forall p, q :: 0 <= p < k <= q < |a| ==> Leq(cmp, a[p], a[q])
  }

  // ----- segments still to be sorted -----

  datatype Segment = Segment(l: int, r: int)

  ghost predicate Inside(g: Segment, k: int) {
    g.l < k <= g.r
  }

  ghost predicate Apart(g: Segment, h: Segment) {
    g.r < h.l || h.r < g.l
  }

  ghost predicate Placed<T(!new)>(cmp: (T, T) -> int, a: seq<T>, g: Segment) {
    0 <= g.l <= g.r + 1 <= |a| && Cut(cmp, a, g.l) && Cut(cmp, a, g.r + 1)
  }

  ghost predicate Covered(todo: seq<Segment>, k: int) {
    exists t :: 0 <= t < |todo| && Inside(todo[t], k)
  }

  /** All that is out of order lies within the segments of `todo`. */
  ghost predicate Pending<T(!new)>(cmp: (T, T) -> int, a: seq<T>, todo: seq<Segment>) {
    && (forall t {:trigger todo[t]} :: 0 <= t < |todo| ==> Placed(cmp, a, todo[t]))
    && (forall t, u {:trigger todo[t], todo[u]} :: 0 <= t < u < |todo| ==> Apart(todo[t], todo[u]))
    && forall k {:trigger Cut(cmp, a, k)} :: 0 <= k <= |a| && !Covered(todo, k) ==> Cut(cmp, a, k)
  }

  lemma NothingPending<T(!new)>(cmp: (T, T) -> int, a: seq<T>)
    requires Pending(cmp, a, [])
    ensures Sorted(cmp, a)
  {
    forall p, q | 0 <= p < q < |a| ensures Leq(cmp, a[p], a[q]) {
      assert Cut(cmp, a, q);
    }
  }

  lemma AllPending<T(!new)>(cmp: (T, T) -> int, a: seq<T>)
    requires |a| > 0
    ensures Pending(cmp, a, [Segment(0, |a| - 1)])
  {
    var todo := [Segment(0, |a| - 1)];
    forall k | 0 <= k <= |a| && !Covered(todo, k) ensures Cut(cmp, a, k) {
      assert !Inside(todo[0], k);
    }
  }

  lemma CoveredSnoc(todo: seq<Segment>, g: Segment, k: int)
    ensures Covered(todo + [g], k) <==> Covered(todo, k) || Inside(g, k)
  {
    var all := todo + [g];
    if Covered(todo, k) {
      var t :| 0 <= t < |todo| && Inside(todo[t], k);
      assert Inside(all[t], k);
    }
    if Inside(g, k) {
      assert Inside(all[|todo|], k);
    }
  }

  /** A segment of at most one element is done. */
  lemma DropSmall<T(!new)>(cmp: (T, T) -> int, a: seq<T>, todo: seq<Segment>, g: Segment)
    requires Pending(cmp, a, todo + [g]) && g.l >= g.r
    ensures Pending(cmp, a, todo)
  {
    var all := todo + [g];
    forall t | 0 <= t < |todo| ensures Placed(cmp, a, todo[t]) { assert all[t] == todo[t]; }
    forall t, u | 0 <= t < u < |todo| ensures Apart(todo[t], todo[u]) { assert all[t] == todo[t] && all[u] == todo[u]; }
    forall k | 0 <= k <= |a| && !Covered(todo, k) ensures Cut(cmp, a, k) {
      CoveredSnoc(todo, g, k);
    }
  }

  /** The outcome of partitioning the last segment around a value. */
  ghost predicate Split<T(!new)>(cmp: (T, T) -> int, a: seq<T>, b: seq<T>, g: Segment, i: int, j: int) {
    && |b| == |a| && g.l < i <= g.r + 1 && g.l - 1 <= j < g.r && j < i
    && (forall k {:trigger Cut(cmp, b, k)} :: (k <= g.l || k > g.r) && Cut(cmp, a, k) ==> Cut(cmp, b, k))
    && (forall k {:trigger Cut(cmp, b, k)} :: j < k <= i ==> Cut(cmp, b, k))
  }

  lemma SplitPlaced<T(!new)>(cmp: (T, T) -> int, a: seq<T>, b: seq<T>, g: Segment, i: int, j: int, h: Segment)
    requires Placed(cmp, a, g) && g.l <= g.r && Split(cmp, a, b, g, i, j)
    ensures Placed(cmp, b, Segment(g.l, j)) && Placed(cmp, b, Segment(i, g.r))
    ensures Placed(cmp, a, h) && Apart(h, g) && h.l <= h.r ==>
              Placed(cmp, b, h) && Apart(h, Segment(g.l, j)) && Apart(h, Segment(i, g.r))
  {
    hide Cut;
  }

  ghost predicate NonEmpty(todo: seq<Segment>) {
    forall t {:trigger todo[t]} :: 0 <= t < |todo| ==> todo[t].l <= todo[t].r
  }

  lemma SplitPending<T(!new)>(cmp: (T, T) -> int, a: seq<T>, b: seq<T>, todo: seq<Segment>, g: Segment, i: int, j: int)
    requires Pending(cmp, a, todo + [g]) && NonEmpty(todo) && g.l <= g.r && Split(cmp, a, b, g, i, j)
    ensures Pending(cmp, b, todo + [Segment(g.l, j), Segment(i, g.r)])
  {
    hide Cut, Placed;
    var before, left, right := todo + [g], Segment(g.l, j), Segment(i, g.r);
    var after := todo + [left, right];
    assert before[|todo|] == g;
    forall t | 0 <= t < |after| ensures Placed(cmp, b, after[t]) {
      var h := if t < |todo| then todo[t] else g;
      assert h == before[if t < |todo| then t else |todo|];
      SplitPlaced(cmp, a, b, g, i, j, h);
    }
    forall t, u | 0 <= t < u < |after| ensures Apart(after[t], after[u]) {
      if t < |todo| {
        assert before[t] == todo[t];
        if u < |todo| { assert before[u] == todo[u]; }
        SplitPlaced(cmp, a, b, g, i, j, todo[t]);
      }
    }
    forall k | 0 <= k <= |b| && !Covered(after, k) ensures Cut(cmp, b, k) {
      assert after == (todo + [left]) + [right];
      CoveredSnoc(todo, left, k);
      CoveredSnoc(todo + [left], right, k);
      if k <= j || i < k {
        CoveredSnoc(todo, g, k);
        assert Cut(cmp, a, k);
      }
    }
  }

  // ----- partitioning -----

  function Swapped<T>(a: seq<T>, i: int, j: int): seq<T>
    requires 0 <= i < |a| && 0 <= j < |a|
  {
    a[i := a[j]][j := a[i]]
  }

  /** An exchange on one side of a cut keeps it. */
  lemma SwapKeepsCut<T(!new)>(cmp: (T, T) -> int, a: seq<T>, i: int, j: int, k: int)
    requires 0 <= i < |a| && 0 <= j < |a| && Cut(cmp, a, k) && (i < k <==> j < k)
    ensures Cut(cmp, Swapped(a, i, j), k)
  {
    var b := Swapped(a, i, j);
    forall p, q | 0 <= p < k <= q < |b| ensures Leq(cmp, b[p], b[q]) {
      var p0 := if p == i then j else if p == j then i else p;
      var q0 := if q == i then j else if q == j then i else q;
      assert Leq(cmp, a[p0], a[q0]);
    }
  }

  /** Small values up to `j`, large ones from `i`, and equal ones between make cuts. */
  lemma MiddleCut<T(!new)>(cmp: (T, T) -> int, a: seq<T>, g: Segment, i: int, j: int, x: T, k: int)
    requires Preorder(cmp) && Placed(cmp, a, g) && j < k <= i && g.l <= k <= g.r + 1
    requires forall p :: g.l <= p < i && p < |a| ==> Leq(cmp, a[p], x)
    requires forall q :: j < q <= g.r && q >= 0 ==> Leq(cmp, x, a[q])
    ensures Cut(cmp, a, k)
  {
    forall p, q | 0 <= p < k <= q < |a| ensures Leq(cmp, a[p], a[q]) {
      if g.l <= p && q <= g.r {
        assert Leq(cmp, a[p], x) && Leq(cmp, x, a[q]);
      }
    }
  }

  lemma PartitionDone<T(!new)>(cmp: (T, T) -> int, a: seq<T>, b: seq<T>, l: int, r: int, i: int, j: int, x: T)
    requires Preorder(cmp) && Placed(cmp, a, Segment(l, r)) && CutsKept(cmp, a, b, l, r) && |b| == |a|
    requires l < i <= r + 1 && l - 1 <= j < r && j < i
    requires forall p :: l <= p < i ==> Leq(cmp, b[p], x)
    requires forall q :: j < q <= r ==> Leq(cmp, x, b[q])
    ensures Split(cmp, a, b, Segment(l, r), i, j)
  {
    hide Cut;
    assert Cut(cmp, b, l) && Cut(cmp, b, r + 1);
    forall k | j < k <= i ensures Cut(cmp, b, k) {
      MiddleCut(cmp, b, Segment(l, r), i, j, x, k);
    }
  }

  lemma KeptTrans<T(!new)>(cmp: (T, T) -> int, a: seq<T>, b: seq<T>, c: seq<T>, l: int, r: int)
    requires CutsKept(cmp, a, b, l, r) && CutsKept(cmp, b, c, l, r)
    ensures CutsKept(cmp, a, c, l, r)
  {
    hide Cut;
    forall k | (k <= l || k > r) && Cut(cmp, a, k) ensures Cut(cmp, c, k) {
      assert Cut(cmp, b, k);
    }
  }

  lemma SelfKept<T(!new)>(cmp: (T, T) -> int, a: seq<T>, l: int, r: int, x: T)
    requires Preorder(cmp)
    ensures CutsKept(cmp, a, a, l, r) && Leq(cmp, x, x)
  {
  }

  /** The scan upward stops by `s` at the latest, where the value is not smaller. */
  method ScanUp<T(!new)>(a: array<T>, cmp: (T, T) -> int, x: T, i0: int, ghost s: int) returns (i: int)
    requires Preorder(cmp) && 0 <= i0 <= s < a.Length && Leq(cmp, x, a[s])
    ensures i0 <= i <= s && Leq(cmp, x, a[i])
    ensures forall p :: i0 <= p < i ==> Leq(cmp, a[p], x)
  {
    i := i0;
    while cmp(a[i], x) < 0
      invariant i0 <= i <= s
      invariant forall p :: i0 <= p < i ==> Leq(cmp, a[p], x)
      decreases s - i
    {
      i := i + 1;
    }
  }

  /** The scan downward stops by `t` at the latest, where the value is not larger. */
  method ScanDown<T(!new)>(a: array<T>, cmp: (T, T) -> int, x: T, j0: int, ghost t: int) returns (j: int)
    requires Preorder(cmp) && 0 <= t <= j0 < a.Length && Leq(cmp, a[t], x)
    ensures t <= j <= j0 && Leq(cmp, a[j], x)
    ensures forall q :: j < q <= j0 ==> Leq(cmp, x, a[q])
  {
    j := j0;
    while cmp(x, a[j]) < 0
      invariant t <= j <= j0
      invariant forall q :: j < q <= j0 ==> Leq(cmp, x, a[q])
      decreases j - t
    {
      j := j - 1;
    }
  }

  ghost predicate CutsKept<T(!new)>(cmp: (T, T) -> int, a: seq<T>, b: seq<T>, l: int, r: int) {
    forall k {:trigger Cut(cmp, b, k)} :: (k <= l || k > r) && Cut(cmp, a, k) ==> Cut(cmp, b, k)
  }

  lemma SwapKeepsCuts<T(!new)>(cmp: (T, T) -> int, a0: seq<T>, a: seq<T>, l: int, r: int, i: int, j: int)
    requires CutsKept(cmp, a0, a, l, r) && 0 <= l <= i <= r < |a| && l <= j <= r
    ensures CutsKept(cmp, a0, Swapped(a, i, j), l, r)
  {
    hide Cut, Swapped;
    forall k | (k <= l || k > r) && Cut(cmp, a0, k) ensures Cut(cmp, Swapped(a, i, j), k) {
      assert Cut(cmp, a, k);
      SwapKeepsCut(cmp, a, i, j, k);
    }
  }

  method Exchange<T(!new)>(a: array<T>, i: int, j: int)
    requires 0 <= i <= j < a.Length
    modifies a
    ensures a[..] == Swapped(old(a[..]), i, j) && multiset(a[..]) == multiset(old(a[..]))
  {
    a[i], a[j] := a[j], a[i];
  }

  /** Small values before `i`, large ones after `j`; while the scans have not met, one
      at `s` stops the scan upward and one at `t` the scan downward. */
  ghost predicate Sides<T(!new)>(cmp: (T, T) -> int, a: seq<T>, x: T, l: int, r: int, i: int, j: int, s: int, t: int)
    requires 0 <= l <= r < |a|
  {
    && l <= i <= r + 1 && l - 1 <= j <= r
    && (forall p :: l <= p < i ==> Leq(cmp, a[p], x))
    && (forall q :: j < q <= r ==> Leq(cmp, x, a[q]))
    && (i <= j ==> i <= s <= r && Leq(cmp, x, a[s]) && l <= t <= j && Leq(cmp, a[t], x))
  }

  lemma SidesSwapped<T(!new)>(cmp: (T, T) -> int, a: seq<T>, x: T, l: int, r: int, i: int, j: int, s: int, t: int)
    requires 0 <= l <= r < |a| && Sides(cmp, a, x, l, r, i, j, s, t) && i <= j
    requires Leq(cmp, x, a[i]) && Leq(cmp, a[j], x)
    ensures Sides(cmp, Swapped(a, i, j), x, l, r, i + 1, j - 1, j, i)
  {
  }

  /** One round: scan from both sides, and exchange unless the scans have passed. */
  method Round<T(!new)>(a: array<T>, cmp: (T, T) -> int, x: T, l: int, r: int, i0: int, j0: int, ghost s0: int,
                 ghost t0: int)
    returns (i: int, j: int, ghost s: int, ghost t: int)
    requires Preorder(cmp) && 0 <= l <= r < a.Length && i0 <= j0 && Sides(cmp, a[..], x, l, r, i0, j0, s0, t0)
    modifies a
    ensures Sides(cmp, a[..], x, l, r, i, j, s, t) && i >= i0 && j <= j0 && j - i < j0 - i0
    ensures i0 <= s0 && t0 <= j0 && s0 <= t0 ==> i > i0 && j < j0
    ensures multiset(a[..]) == multiset(old(a[..])) && CutsKept(cmp, old(a[..]), a[..], l, r)
  {
    hide Cut, CutsKept, Preorder, Swapped;
    i := ScanUp(a, cmp, x, i0, s0);
    j := ScanDown(a, cmp, x, j0, t0);
    s, t := s0, t0;
    SelfKept(cmp, a[..], l, r, x);
    if i <= j {
      SidesSwapped(cmp, a[..], x, l, r, i, j, s, t);
      SwapKeepsCuts(cmp, a[..], a[..], l, r, i, j);
      Exchange(a, i, j);
      i, j, s, t := i + 1, j - 1, j, i;
    }
  }

  /** Partition a segment: both scans stay within it, and both ends move. */
  method Partition<T(!new)>(a: array<T>, cmp: (T, T) -> int, l: int, r: int) returns (i: int, j: int)
    requires Preorder(cmp) && 0 <= l <= r < a.Length && Placed(cmp, a[..], Segment(l, r))
    modifies a
    ensures multiset(a[..]) == multiset(old(a[..]))
    ensures Split(cmp, old(a[..]), a[..], Segment(l, r), i, j)
  {
    hide Cut, CutsKept, Preorder;
    i, j := l, r;
    var x := a[(i + j) / 2];
    ghost var s, t := (i + j) / 2, (i + j) / 2;
    SelfKept(cmp, a[..], l, r, x);
    while i <= j
      invariant Sides(cmp, a[..], x, l, r, i, j, s, t)
      invariant (i == l && j == r && s == t) || (i > l && j < r)
      invariant multiset(a[..]) == multiset(old(a[..])) && CutsKept(cmp, old(a[..]), a[..], l, r)
      decreases j - i
    {
      ghost var before := a[..];
      i, j, s, t := Round(a, cmp, x, l, r, i, j, s, t);
      KeptTrans(cmp, old(a[..]), before, a[..], l, r);
    }
    PartitionDone(cmp, old(a[..]), a[..], l, r, i, j, x);
  }

  // ----- the stack -----

  const STACK_SIZE := 20

  function Length(g: Segment): int {
    g.r - g.l + 1
  }

  /** A segment with `d` others stacked below it has at most nel / 2^d elements. */
  ghost predicate Halved(g: Segment, d: nat, nel: nat) {
    Length(g) * Pow2(d) <= nel
  }

  ghost predicate Stacked(st: seq<Segment>, nel: nat) {
    forall t {:trigger st[t]} :: 0 <= t < |st| ==> st[t].l <= st[t].r && Halved(st[t], t, nel)
  }

  /** Continuing with the smaller part halves the length once more. */
  lemma SmallerIsHalved(g: Segment, small: Segment, large: Segment, d: nat, nel: nat)
    requires Halved(g, d, nel) && 0 <= Length(small) <= Length(large) && Length(small) + Length(large) <= Length(g)
    ensures Halved(large, d, nel) && Halved(small, d + 1, nel) && Halved(small, d, nel)
  {
    var x := Pow2(d);
    assert Length(large) * x <= Length(g) * x by { Scaled(Length(large), Length(g), x); }
    assert Length(small) * x <= Length(g) * x by { Scaled(Length(small), Length(g), x); }
    assert 2 * Length(small) * x <= Length(g) * x by { Scaled(2 * Length(small), Length(g), x); }
    assert Length(small) * Pow2(d + 1) == 2 * Length(small) * x;
  }

  lemma Scaled(a: int, b: int, x: nat)
    requires a <= b
    ensures a * x <= b * x
  {
  }

  /** A frame pushed at index `d` needs 2^(d+1) elements, so twenty are enough below 2^21. */
  lemma StackSuffices(g: Segment, d: nat, nel: nat)
    requires Halved(g, d, nel) && Length(g) >= 2
    ensures Pow2(d + 1) <= nel
    ensures nel < Pow2(STACK_SIZE + 1) ==> d < STACK_SIZE
  {
    Scaled(2, Length(g), Pow2(d));
    if d >= STACK_SIZE { Pow2Monotone(STACK_SIZE + 1, d + 1); }
  }

  function Work(g: Segment): nat {
    if g.r < g.l then 0 else 2 * (g.r - g.l) + 1
  }

  function TotalWork(st: seq<Segment>): nat {
    if st == [] then 0 else TotalWork(st[..|st| - 1]) + Work(st[|st| - 1])
  }

  lemma WorkSnoc(st: seq<Segment>, g: Segment)
    ensures TotalWork(st + [g]) == TotalWork(st) + Work(g)
  {
    assert (st + [g])[..|st|] == st;
  }

  /** What holds between segments: the stack `st`, and `cur` unless it is done. */
  ghost predicate Between<T(!new)>(cmp: (T, T) -> int, a: seq<T>, st: seq<Segment>, cur: Segment, nel: nat) {
    && nel == |a| && Pending(cmp, a, st + [cur]) && Stacked(st, nel)
    && Halved(cur, |st|, nel) && 0 <= Length(cur)
  }

  /** The step after a partition: `large` is stacked if it has two elements or more. */
  lemma NextStep<T(!new)>(cmp: (T, T) -> int, a: seq<T>, b: seq<T>, st: seq<Segment>, cur: Segment, nel: nat, i: int,
                   j: int, leftFirst: bool)
    requires Between(cmp, a, st, cur, nel) && cur.l <= cur.r && Split(cmp, a, b, cur, i, j)
    requires leftFirst <==> j - cur.l < cur.r - i
    ensures var left, right := Segment(cur.l, j), Segment(i, cur.r);
            var small, large := if leftFirst then left else right, if leftFirst then right else left;
            && Work(small) + Work(large) < Work(cur)
            && (large.l < large.r ==>
                  && Between(cmp, b, st + [large], small, nel)
                  && (nel < Pow2(STACK_SIZE + 1) ==> |st| < STACK_SIZE))
            && (large.l >= large.r ==> Between(cmp, b, st, small, nel))
  {
    hide Pending, Split;
    var left, right := Segment(cur.l, j), Segment(i, cur.r);
    SplitBounds(cmp, a, b, cur, i, j);
    SplitPending(cmp, a, b, st, cur, i, j);
    var small, large := if leftFirst then left else right, if leftFirst then right else left;
    SmallerIsHalved(cur, small, large, |st|, nel);
    assert Pending(cmp, b, st + [large] + [small]) by {
      assert st + [left, right] == st + [left] + [right];
      if leftFirst { SwapPending(cmp, b, st, left, right); }
    }
    if large.l < large.r {
      StackSuffices(cur, |st|, nel);
    } else {
      SwapPending(cmp, b, st, large, small);
      DropSmall(cmp, b, st + [small], large);
    }
  }

  lemma SplitBounds<T(!new)>(cmp: (T, T) -> int, a: seq<T>, b: seq<T>, g: Segment, i: int, j: int)
    requires Split(cmp, a, b, g, i, j)
    ensures |b| == |a| && g.l < i <= g.r + 1 && g.l - 1 <= j < g.r && j < i
  {
  }

  lemma SwapPending<T(!new)>(cmp: (T, T) -> int, a: seq<T>, st: seq<Segment>, g: Segment, h: Segment)
    requires Pending(cmp, a, st + [g] + [h])
    ensures Pending(cmp, a, st + [h] + [g])
  {
    hide Cut, Placed;
    var x, y := st + [g] + [h], st + [h] + [g];
    var n := |st|;
    assert forall t :: 0 <= t < |y| ==> y[t] == x[if t == n then n + 1 else if t == n + 1 then n else t];
    forall t, u | 0 <= t < u < |y| ensures Apart(y[t], y[u]) {
      var t0 := if t == n then n + 1 else t;
      var u0 := if u == n then n + 1 else if u == n + 1 then n else u;
      assert x[t0] == y[t] && x[u0] == y[u];
    }
    forall k | 0 <= k <= |a| && !Covered(y, k) ensures Cut(cmp, a, k) {
      CoveredSnoc(st, g, k);
      CoveredSnoc(st + [g], h, k);
      CoveredSnoc(st, h, k);
      CoveredSnoc(st + [h], g, k);
    }
  }

  // ----- the sort -----

  ghost predicate Ready<T(!new)>(cmp: (T, T) -> int, a: seq<T>, stack: seq<Segment>, s: int, l: int, r: int) {
    && |stack| == STACK_SIZE && -1 <= s < STACK_SIZE && 0 < |a| < Pow2(STACK_SIZE + 1)
    && Between(cmp, a, stack[..s + 1], Segment(l, r), |a|)
  }

  function Left(stack: seq<Segment>, s: int, l: int, r: int): nat
    requires -1 <= s < |stack|
  {
    TotalWork(stack[..s + 1]) + Work(Segment(l, r))
  }

  /** The new stack and segment are ready, with less work left. */
  lemma StepReady<T(!new)>(cmp: (T, T) -> int, a: seq<T>, b: seq<T>, stack: seq<Segment>, s: int, l: int, r: int,
                    i: int, j: int)
    requires Ready(cmp, a, stack, s, l, r) && l <= r && Split(cmp, a, b, Segment(l, r), i, j)
    ensures var left := j - l < r - i;
            var large := if left then Segment(i, r) else Segment(l, j);
            var l2, r2 := if left then l else i, if left then j else r;
            if large.l < large.r then
              && s + 1 < STACK_SIZE && Ready(cmp, b, stack[s + 1 := large], s + 1, l2, r2)
              && Left(stack[s + 1 := large], s + 1, l2, r2) < Left(stack, s, l, r)
            else
              Ready(cmp, b, stack, s, l2, r2) && Left(stack, s, l2, r2) < Left(stack, s, l, r)
  {
    hide Between, Split, Pow2;
    var st, cur := stack[..s + 1], Segment(l, r);
    SplitBounds(cmp, a, b, cur, i, j);
    NextStep(cmp, a, b, st, cur, |a|, i, j, j - l < r - i);
    var large := if j - l < r - i then Segment(i, r) else Segment(l, j);
    if large.l < large.r {
      assert stack[s + 1 := large][..s + 2] == st + [large];
      WorkSnoc(st, large);
    }
  }

  /** One partition: stack the larger part and go on with the smaller. */
  method Step<T(!new)>(a: array<T>, cmp: (T, T) -> int, stack: array<Segment>, s0: int, l0: int, r0: int)
    returns (s: int, l: int, r: int)
    requires Preorder(cmp) && Ready(cmp, a[..], stack[..], s0, l0, r0) && l0 <= r0 && (a as object) != (stack as object)
    modifies a, stack
    ensures Ready(cmp, a[..], stack[..], s, l, r) && Left(stack[..], s, l, r) < Left(old(stack[..]), s0, l0, r0)
    ensures multiset(a[..]) == multiset(old(a[..]))
  {
    hide Preorder, Between, Split, Pow2, Placed, Left;
    s, l, r := s0, l0, r0;
    CurrentPlaced(cmp, a[..], stack[..s + 1], Segment(l, r));
    ghost var before := a[..];
    var i, j := Partition(a, cmp, l, r);
    StepReady(cmp, before, a[..], stack[..], s, l, r, i, j);
    ghost var st := stack[..];
    if j - l < r - i {
      if i < r {
        s := s + 1;
        stack[s] := Segment(i, r);
        assert stack[..] == st[s := Segment(i, r)];
      }
      r := j;
    } else {
      if l < j {
        s := s + 1;
        stack[s] := Segment(l, j);
        assert stack[..] == st[s := Segment(l, j)];
      }
      l := i;
    }
  }

  /** Sort the segment on top of the stack down to segments of one element. */
  method SortTop<T(!new)>(a: array<T>, cmp: (T, T) -> int, stack: array<Segment>, s0: int) returns (s: int)
    requires Preorder(cmp) && stack.Length == STACK_SIZE && 0 <= s0 < STACK_SIZE && 0 < a.Length < Pow2(STACK_SIZE + 1)
    requires Stacked(stack[..s0 + 1], a.Length) && Pending(cmp, a[..], stack[..s0 + 1])
    requires (a as object) != (stack as object)
    modifies a, stack
    ensures -1 <= s < STACK_SIZE && Stacked(stack[..s + 1], a.Length) && Pending(cmp, a[..], stack[..s + 1])
    ensures TotalWork(stack[..s + 1]) < TotalWork(old(stack[..s0 + 1]))
    ensures multiset(a[..]) == multiset(old(a[..]))
  {
    hide Preorder, Pending, Pow2;
    var l, r := stack[s0].l, stack[s0].r;
    s := s0 - 1;
    assert stack[..s0 + 1] == stack[..][..s + 1] + [Segment(l, r)];
    WorkSnoc(stack[..][..s + 1], Segment(l, r));
    ghost var bound := TotalWork(stack[..s0 + 1]);
    s, l, r := Step(a, cmp, stack, s, l, r);
    while l < r
      invariant Ready(cmp, a[..], stack[..], s, l, r) && Left(stack[..], s, l, r) < bound
      invariant multiset(a[..]) == multiset(old(a[..]))
      decreases Left(stack[..], s, l, r)
    {
      s, l, r := Step(a, cmp, stack, s, l, r);
    }
    assert stack[..][..s + 1] == stack[..s + 1];
    DropSmall(cmp, a[..], stack[..s + 1], Segment(l, r));
  }

  lemma CurrentPlaced<T(!new)>(cmp: (T, T) -> int, a: seq<T>, st: seq<Segment>, g: Segment)
    requires Between(cmp, a, st, g, |a|)
    ensures Placed(cmp, a, g) && 0 <= g.l <= g.r + 1 <= |a|
  {
    LastPlaced(cmp, a, st, g);
  }

  lemma LastPlaced<T(!new)>(cmp: (T, T) -> int, a: seq<T>, st: seq<Segment>, g: Segment)
    requires Pending(cmp, a, st + [g])
    ensures Placed(cmp, a, g) && 0 <= g.l <= g.r + 1 <= |a|
  {
    assert (st + [g])[|st|] == g;
  }

  lemma StackHolds()
    ensures Pow2(STACK_SIZE + 1) == 0x200000
  {
    assert Pow2(8) == 0x100 && Pow2(16) == 0x100 * Pow2(8);
  }

  /** Sorts any array of 1 to 2^21 - 1 elements in place. Elements too wide for the
      built-in pivot buffer need one from the allocator; without it nothing is done. */
  method Qsort<T(!new)>(a: array<T>, cmp: (T, T) -> int, haveBuffer: bool)
    requires Preorder(cmp) && 0 < a.Length < 0x200000
    modifies a
    ensures multiset(a[..]) == multiset(old(a[..]))
    ensures if haveBuffer then Sorted(cmp, a[..]) else a[..] == old(a[..])
  {
    StackHolds();
    hide Preorder, Pending, Sorted;
    if !haveBuffer {
      return;
    }
    var stack := new Segment[STACK_SIZE](_ => Segment(0, 0));
    var s := 0;
    stack[0] := Segment(0, a.Length - 1);
    AllPending(cmp, a[..]);
    assert stack[..1] == [Segment(0, a.Length - 1)];
    while s >= 0
      invariant -1 <= s < STACK_SIZE && Stacked(stack[..s + 1], a.Length) && Pending(cmp, a[..], stack[..s + 1])
      invariant multiset(a[..]) == multiset(old(a[..])) && fresh(stack)
      decreases TotalWork(stack[..s + 1])
    {
      s := SortTop(a, cmp, stack, s);
    }
    NothingPending(cmp, a[..]);
  }
}
