/** The reference-counted type table of the Q/C compiler. */
module TypeTable {
  import opened Common
  import opened TypeLists

  const STRUCT_CODE := 8
  const UNION_CODE := 9

  /** The bookkeeping of references: `ext` counts those held outside the table, `deps`
      the live nodes based on each node. */
  datatype Refs = Refs(code: seq<nat>, base: seq<int>, refs: seq<int>, ext: seq<int>, deps: seq<set<nat>>,
                       rank: seq<nat>)

  ghost predicate Live(code: seq<nat>, n: int) {
    0 <= n < |code| && code[n] != 0
  }

  ghost predicate Shaped(r: Refs) {
    |r.code| == |r.base| == |r.refs| == |r.ext| == |r.deps| == |r.rank|
  }

  /** A node's own part of the invariant. `dying` nodes are being scrapped: they count
      for nothing any more, but are still on their lists. */
  ghost predicate NodeOk(r: Refs, dying: set<nat>, n: nat)
    requires Shaped(r) && n < |r.code|
  {
    && r.ext[n] >= 0
    && (Live(r.code, n) ==> r.refs[n] == r.ext[n] + |r.deps[n]|)
    && (!Live(r.code, n) ==> r.ext[n] == 0)
    && (n in dying ==> Live(r.code, n) && r.refs[n] == 0)
    && (forall m {:trigger m in r.deps[n]} :: m in r.deps[n] ==> Live(r.code, m) && m !in dying && r.base[m] == n)
    && (Live(r.code, n) && n !in dying && r.base[n] != -1 ==>
          && Live(r.code, r.base[n]) && r.base[n] !in dying
          && n in r.deps[r.base[n]] && r.rank[r.base[n]] < r.rank[n])
  }

  ghost predicate Counts(r: Refs, dying: set<nat>) {
    && Shaped(r)
    && (forall n {:trigger NodeOk(r, dying, n)} :: 0 <= n < |r.code| ==> NodeOk(r, dying, n))
    && forall d {:trigger d in dying} :: d in dying ==> d < |r.code|
  }

  /** A live node's base is live, and its count covers every node based on it. */
  lemma BaseIsLive(r: Refs, n: nat)
    requires Counts(r, {}) && Live(r.code, n)
    ensures r.refs[n] >= |r.deps[n]|
    ensures r.base[n] != -1 ==> Live(r.code, r.base[n]) && r.refs[r.base[n]] >= 1 && n in r.deps[r.base[n]]
  {
    assert NodeOk(r, {}, n);
    if r.base[n] != -1 {
      assert NodeOk(r, {}, r.base[n]);
      assert |r.deps[r.base[n]]| > 0;
    }
  }

  lemma DependedOnIsLive(r: Refs, m: nat, n: nat)
    requires Counts(r, {}) && n < |r.code| && m in r.deps[n]
    ensures Live(r.code, n)
  {
    assert NodeOk(r, {}, n) && NodeOk(r, {}, m);
  }

  // ----- the steps -----

  function Bump(s: seq<int>, i: nat, k: int): seq<int>
    requires i < |s|
  {
    s[i := s[i] + k]
  }

  function Adjusted(r: Refs, n: nat, k: int): Refs
    requires Shaped(r) && n < |r.code|
  {
    r.(refs := r.refs[n := r.refs[n] + k], ext := r.ext[n := r.ext[n] + k])
  }

  /** One more, or one fewer, outside reference. */
  lemma AdjustKeeps(r: Refs, dying: set<nat>, n: nat, k: int)
    requires Counts(r, dying) && Live(r.code, n) && n !in dying && r.ext[n] + k >= 0
    ensures Counts(Adjusted(r, n, k), dying)
  {
    var r2 := Adjusted(r, n, k);
    forall m | 0 <= m < |r.code| ensures NodeOk(r2, dying, m) {
      assert NodeOk(r, dying, m);
    }
  }

  function Doomed(r: Refs, p: nat): Refs
    requires Shaped(r) && p < |r.code|
  {
    if 0 <= r.base[p] < |r.code| then
      var b := r.base[p];
      r.(deps := r.deps[b := r.deps[b] - {p}], ext := r.ext[b := r.ext[b] + 1])
    else r
  }

  /** An unreferenced node starts dying: its reference to its base is now one to give up. */
  lemma DoomKeeps(r: Refs, dying: set<nat>, p: nat)
    requires Counts(r, dying) && Live(r.code, p) && p !in dying && r.refs[p] == 0
    ensures Counts(Doomed(r, p), dying + {p}) && r.ext[p] == 0
    ensures r.base[p] != -1 ==> Live(r.code, r.base[p]) && r.base[p] !in dying + {p} && Doomed(r, p).ext[r.base[p]] >= 1
  {
    assert NodeOk(r, dying, p);
    assert r.deps[p] == {};
    var r2 := Doomed(r, p);
    forall m | 0 <= m < |r.code| ensures NodeOk(r2, dying + {p}, m) {
      assert NodeOk(r, dying, m);
    }
    if r.base[p] != -1 { assert NodeOk(r, dying, r.base[p]); }
  }

  /** Giving up the base then restores the outside counts. */
  lemma DoomedExt(r: Refs, p: nat)
    requires Shaped(r) && p < |r.code| && -1 <= r.base[p] < |r.code|
    ensures var d := Doomed(r, p);
            && d == r.(deps := d.deps, ext := d.ext) && Shaped(d)
            && r.ext == if r.base[p] == -1 then d.ext else Bump(d.ext, r.base[p], -1)
  {
  }

  function Buried(r: Refs, p: nat): Refs
    requires Shaped(r) && p < |r.code|
  {
    r.(code := r.code[p := 0])
  }

  /** A dying node leaves the table. */
  lemma BuryKeeps(r: Refs, dying: set<nat>, p: nat)
    requires Counts(r, dying) && p in dying
    ensures Counts(Buried(r, p), dying - {p})
  {
    assert NodeOk(r, dying, p);
    var r2 := Buried(r, p);
    forall m | 0 <= m < |r.code| ensures NodeOk(r2, dying - {p}, m) {
      assert NodeOk(r, dying, m);
    }
  }

  function Born(r: Refs, p: nat, c: nat, b: int): Refs
    requires Shaped(r) && p < |r.code| && -1 <= b < |r.code|
  {
    var r1 := r.(code := r.code[p := c], base := r.base[p := b], refs := r.refs[p := 0],
                 rank := r.rank[p := if b == -1 then 0 else r.rank[b] + 1]);
    if b == -1 then r1 else r1.(deps := r.deps[b := r.deps[b] + {p}], ext := r.ext[b := r.ext[b] - 1])
  }

  /** A free node becomes a type based on a node that was referenced for the purpose. */
  lemma BirthKeeps(r: Refs, p: nat, c: nat, b: int)
    requires Counts(r, {}) && p < |r.code| && !Live(r.code, p) && c != 0
    requires b != -1 ==> Live(r.code, b) && r.ext[b] >= 1
    ensures -1 <= b < |r.code| && Counts(Born(r, p, c, b), {}) && Live(Born(r, p, c, b).code, p)
  {
    assert NodeOk(r, {}, p);
    forall m ensures m !in r.deps[p] {
      if m in r.deps[p] { DependedOnIsLive(r, m, p); }
    }
    assert r.deps[p] == {};
    var r2 := Born(r, p, c, b);
    if b != -1 { assert NodeOk(r, {}, b) && p !in r.deps[b]; }
    forall m | 0 <= m < |r.code| ensures NodeOk(r2, {}, m) {
      assert NodeOk(r, {}, m);
    }
  }

  function Collected(r: Refs, p: nat): Refs
    requires Shaped(r) && p < |r.code| && -1 <= r.base[p] < |r.code|
  {
    var b := r.base[p];
    if b == -1 then r.(code := r.code[p := 0])
    else r.(code := r.code[p := 0], refs := r.refs[b := r.refs[b] - 1], deps := r.deps[b := r.deps[b] - {p}])
  }

  /** Collecting an unreferenced node only lowers its base's count. */
  lemma CollectKeeps(r: Refs, p: nat)
    requires Counts(r, {}) && Live(r.code, p) && r.refs[p] == 0 && r.base[p] >= -1
    ensures r.base[p] != -1 ==> Live(r.code, r.base[p]) && r.base[p] != p
    ensures Counts(Collected(r, p), {})
  {
    assert Shaped(r);
    hide Counts;
    DoomKeeps(r, {}, p);
    var d, b := Doomed(r, p), r.base[p];
    if b != -1 {
      AdjustKeeps(d, {} + {p}, b, -1);
      d := Adjusted(d, b, -1);
    }
    BuryKeeps(d, {} + {p}, p);
    assert {} + {p} - {p} == {};
    assert Buried(d, p).ext == r.ext;
    assert Buried(d, p) == Collected(r, p);
  }

  // ----- what nodes stand for -----

  datatype Type = Type(code: nat, size: int, of: Option<Type>)

  /** The type a node stands for. */
  ghost function Meaning(r: Refs, size: seq<int>, n: nat): Type
    requires Counts(r, {}) && |size| == |r.code| && Live(r.code, n)
    decreases r.rank[n]
  {
    assert NodeOk(r, {}, n);
    Type(r.code[n], size[n], if r.base[n] == -1 then None else Some(Meaning(r, size, r.base[n])))
  }

  /** Nodes were only freed; the others are as before. */
  ghost predicate Kept(code0: seq<nat>, code: seq<nat>) {
    |code| == |code0| && forall n {:trigger code[n]} :: 0 <= n < |code| ==> code[n] == code0[n] || code[n] == 0
  }

  /** Nodes other than `p` were at most freed. */
  ghost predicate Elsewhere(r0: Refs, size0: seq<int>, r: Refs, size: seq<int>, p: int) {
    && Shaped(r0) && Shaped(r) && |r.code| == |r0.code| == |size| == |size0|
    && forall n {:trigger r.code[n]} :: 0 <= n < |r.code| && n != p ==>
         && (r.code[n] == r0.code[n] || r.code[n] == 0)
         && r.base[n] == r0.base[n] && size[n] == size0[n] && r.rank[n] == r0.rank[n]
  }

  lemma ElsewhereTrans(r0: Refs, s0: seq<int>, r1: Refs, s1: seq<int>, r2: Refs, s2: seq<int>, p: int)
    requires Elsewhere(r0, s0, r1, s1, -1) && Elsewhere(r1, s1, r2, s2, p)
    ensures Elsewhere(r0, s0, r2, s2, p)
  {
    forall n | 0 <= n < |r2.code| && n != p
      ensures && (r2.code[n] == r0.code[n] || r2.code[n] == 0)
              && r2.base[n] == r0.base[n] && s2[n] == s0[n] && r2.rank[n] == r0.rank[n]
    {
      assert r1.code[n] == r0.code[n] || r1.code[n] == 0;
    }
  }

  lemma BornElsewhere(r: Refs, size: seq<int>, p: nat, c: nat, b: int, v: int)
    requires Shaped(r) && |size| == |r.code| && p < |r.code| && -1 <= b < |r.code|
    ensures var r2 := Born(r, p, c, b);
            && r2 == Refs(r.code[p := c], r.base[p := b], r.refs[p := 0], r2.ext, r2.deps, r2.rank)
            && r2.ext == (if b == -1 then r.ext else Bump(r.ext, b, -1))
            && Elsewhere(r, size, r2, size[p := v], p)
  {
  }

  /** A node that survives still stands for the same type, even when a node nothing is
      based on was reused. */
  lemma {:induction false} MeaningKept(r0: Refs, size0: seq<int>, r: Refs, size: seq<int>, p: int, n: nat)
    requires Counts(r0, {}) && Counts(r, {}) && Elsewhere(r0, size0, r, size, p)
    requires (0 <= p < |r.code| ==> r.deps[p] == {}) && Live(r.code, n) && n != p
    ensures Live(r0.code, n) && Meaning(r, size, n) == Meaning(r0, size0, n)
    decreases r.rank[n]
  {
    assert NodeOk(r, {}, n) && r.code[n] == r0.code[n];
    if r.base[n] != -1 {
      MeaningKept(r0, size0, r, size, p, r.base[n]);
    }
  }

  /** Nodes referenced from outside, and those they are built from, are never freed. */
  lemma ReferencedSurvives(r: Refs, n: nat)
    requires Counts(r, {}) && n < |r.code| && r.ext[n] > 0
    ensures Live(r.code, n) && (r.base[n] != -1 ==> Live(r.code, r.base[n]))
  {
    assert NodeOk(r, {}, n);
  }

  ghost predicate SameKey(code: seq<nat>, size: seq<int>, base: seq<int>, m: nat, n: nat)
    requires |code| == |size| == |base| && m < |code| && n < |code|
  {
    code[m] == code[n] && size[m] == size[n] && base[m] == base[n]
  }

  predicate Tagged(c: nat) {
    c == STRUCT_CODE || c == UNION_CODE
  }

  /** Apart from structures and unions, no type is entered twice. */
  ghost predicate Keys(code: seq<nat>, size: seq<int>, base: seq<int>) {
    && |code| == |size| == |base|
    && forall m, n {:trigger SameKey(code, size, base, m, n)} ::
         0 <= m < |code| && 0 <= n < |code| && code[m] != 0 && !Tagged(code[m]) && SameKey(code, size, base, m, n) ==>
           m == n
  }

  lemma KeysFewer(code0: seq<nat>, code: seq<nat>, size: seq<int>, base: seq<int>)
    requires Keys(code0, size, base) && Kept(code0, code)
    ensures Keys(code, size, base)
  {
    forall m, n | && 0 <= m < |code| && 0 <= n < |code| && code[m] != 0 && !Tagged(code[m])
                  && SameKey(code, size, base, m, n)
      ensures m == n
    {
      assert SameKey(code0, size, base, m, n);
    }
  }

  ghost predicate Untagged(t: Type) {
    t.code != 8 && t.code != 9 && (t.of.Some? ==> Untagged(t.of.value))
  }

  /** Equal types are the same node, so comparing pointers compares types. */
  lemma {:induction false} EqualTypesAreOneNode(r: Refs, size: seq<int>, m: nat, n: nat)
    requires Counts(r, {}) && Keys(r.code, size, r.base) && Live(r.code, m) && Live(r.code, n)
    requires (forall k :: 0 <= k < |r.base| ==> r.base[k] >= -1) && Untagged(Meaning(r, size, m))
    ensures Meaning(r, size, m) == Meaning(r, size, n) <==> m == n
    decreases r.rank[m]
  {
    assert NodeOk(r, {}, m) && NodeOk(r, {}, n);
    if Meaning(r, size, m) == Meaning(r, size, n) && r.base[m] != -1 {
      EqualTypesAreOneNode(r, size, r.base[m], r.base[n]);
    }
    assert Meaning(r, size, m) == Meaning(r, size, n) ==> SameKey(r.code, size, r.base, m, n);
  }

  ghost function LiveSet(code: seq<nat>): set<nat> {
    set n: nat | n < |code| && code[n] != 0
  }

  lemma FewerLeft(code: seq<nat>, dying: set<nat>, p: nat)
    requires Live(code, p) && p !in dying
    ensures |LiveSet(code) - (dying + {p})| < |LiveSet(code) - dying|
  {
    assert LiveSet(code) - dying == (LiveSet(code) - (dying + {p})) + {p};
  }

  lemma DyingIsLive(r: Refs, dying: set<nat>, p: nat)
    requires Counts(r, dying) && p in dying
    ensures Live(r.code, p)
  {
    assert NodeOk(r, dying, p);
  }

  lemma PartitionLengths(heads: seq<int>, next: seq<int>, code: seq<nat>, lists: seq<seq<nat>>, p: nat)
    requires Partition(heads, next, code, lists, -1) && p < |code|
    ensures |heads| == |lists| == CODES && |next| == |code| && code[p] < CODES
  {
  }

  lemma RefsNotNegative(r: Refs, n: nat)
    requires Counts(r, {}) && Live(r.code, n)
    ensures r.refs[n] >= 0 && r.ext[n] >= 0
  {
    assert NodeOk(r, {}, n);
  }

  ghost predicate Idle(code: seq<nat>, refs: seq<int>, n: nat) {
    Live(code, n) && n < |refs| && refs[n] == 0
  }

  /** The nodes of a list, and where each one leads. */
  lemma ListStart(heads: seq<int>, next: seq<int>, code: seq<nat>, lists: seq<seq<nat>>, c: nat)
    requires Partition(heads, next, code, lists, -1) && c < CODES
    ensures |heads| == |lists| == CODES && heads[c] == if lists[c] == [] then -1 else lists[c][0]
    ensures forall n :: 0 <= n < |code| && code[n] == c ==> n in lists[c]
  {
    assert ListOk(heads, next, code, lists, -1, c);
  }

  lemma ListNode(heads: seq<int>, next: seq<int>, code: seq<nat>, lists: seq<seq<nat>>, c: nat, i: nat)
    requires Partition(heads, next, code, lists, -1) && c < CODES && |heads| == |lists| == CODES && i < |lists[c]|
    ensures var p := lists[c][i];
            p < |code| == |next| && code[p] == c && next[p] == if i + 1 < |lists[c]| then lists[c][i + 1] else -1
  {
    assert ListOk(heads, next, code, lists, -1, c);
    assert lists[c][i] in lists[c];
    LinkAt(heads[c], next, lists[c], i);
  }

  /** The free list is empty exactly when every node is in use. */
  lemma NoneFree(heads: seq<int>, next: seq<int>, code: seq<nat>, lists: seq<seq<nat>>)
    requires Partition(heads, next, code, lists, -1)
    ensures heads[0] == -1 <==> forall n :: 0 <= n < |code| ==> code[n] != 0
  {
    assert ListOk(heads, next, code, lists, -1, 0);
    if heads[0] == -1 {
      forall n | 0 <= n < |code| ensures code[n] != 0 { assert n in lists[0] <==> code[n] == 0; }
    } else {
      assert lists[0][0] in lists[0];
    }
  }

  /** Referencing the base leaves exactly the other idle nodes. */
  lemma IdleBut(code: seq<nat>, refs0: seq<int>, refs: seq<int>, b: int)
    requires |refs0| == |code| && (b != -1 ==> Live(code, b) && refs0[b] >= 0)
    requires refs == if b == -1 then refs0 else refs0[b := refs0[b] + 1]
    ensures (exists n :: Idle(code, refs, n)) <==> exists n :: n != b && Idle(code, refs0, n)
  {
    if n :| n != b && Idle(code, refs0, n) {
      assert Idle(code, refs, n);
    }
    if n :| Idle(code, refs, n) {
      assert n != b && Idle(code, refs0, n);
    }
  }

  /** A structure, a union, or a type not entered. */
  ghost predicate NotYet(code: seq<nat>, base: seq<int>, size: seq<int>, c: nat, b: int, v: int)
    requires |base| >= |code| && |size| >= |code|
  {
    Tagged(c) || forall n :: 0 <= n < |code| && code[n] == c ==> !(base[n] == b && size[n] == v)
  }

  lemma KeysBorn(code: seq<nat>, size: seq<int>, base: seq<int>, p: nat, c: nat, b: int, v: int)
    requires Keys(code, size, base) && p < |code| && code[p] == 0
    requires NotYet(code, base, size, c, b, v)
    ensures Keys(code[p := c], size[p := v], base[p := b])
  {
    var code2, size2, base2 := code[p := c], size[p := v], base[p := b];
    forall m, n | && 0 <= m < |code2| && 0 <= n < |code2| && code2[m] != 0 && !Tagged(code2[m])
                  && SameKey(code2, size2, base2, m, n)
      ensures m == n
    {
      if m != p && n != p { assert SameKey(code, size, base, m, n); }
    }
  }

  /** Once nodes have been freed they do not come back. */
  lemma KeptAndBack(code0: seq<nat>, code1: seq<nat>, code2: seq<nat>)
    requires Kept(code0, code1) && Kept(code1, code2) && code2 != code1
    ensures Kept(code0, code2) && code2 != code0
  {
    var n :| 0 <= n < |code1| && code2[n] != code1[n];
  }

  lemma SomeFree(heads: seq<int>, next: seq<int>, code0: seq<nat>, code: seq<nat>, lists: seq<seq<nat>>)
    requires Partition(heads, next, code, lists, -1) && Kept(code0, code) && code != code0
    ensures heads[0] != -1
  {
    var n :| 0 <= n < |code| && code[n] != code0[n];
    assert ListOk(heads, next, code, lists, -1, 0) && n in lists[0];
  }

  lemma CodesBounded(heads: seq<int>, next: seq<int>, code: seq<nat>, lists: seq<seq<nat>>)
    requires Partition(heads, next, code, lists, -1)
    ensures forall n :: 0 <= n < |code| ==> code[n] < CODES
  {
  }

  // ----- what a collection frees -----

  /** The codes and counts a collection works on. */
  datatype Sweep = Sweep(code: seq<nat>, refs: seq<int>)

  /** One node is looked at: without references it is freed, and its base's count lowered. */
  function Visited(s: Sweep, base: seq<int>, p: nat): Sweep {
    if p >= |s.code| || p >= |s.refs| || p >= |base| || s.refs[p] > 0 then s
    else Sweep(s.code[p := 0], if 0 <= base[p] < |s.refs| then s.refs[base[p] := s.refs[base[p]] - 1] else s.refs)
  }

  /** The nodes of a list, in order. */
  function Swept(s: Sweep, base: seq<int>, l: seq<nat>): Sweep {
    if l == [] then s else Visited(Swept(s, base, l[..|l| - 1]), base, l[|l| - 1])
  }

  /** The lists for the codes from 1 up to `c`. */
  function SweptTo(s: Sweep, base: seq<int>, lists: seq<seq<nat>>, c: nat): Sweep {
    if c <= 1 || c > |lists| then s else Swept(SweptTo(s, base, lists, c - 1), base, lists[c - 1])
  }

  /** Nodes are collected only when none is free. */
  function Roomed(heads: seq<int>, s: Sweep, base: seq<int>, lists: seq<seq<nat>>): Sweep {
    if heads != [] && heads[0] != -1 then s else SweptTo(s, base, lists, CODES)
  }

  /** A node `p` has been made of a free one: one that was free, or, only when none was,
      one that a collection freed. */
  ghost predicate Placed(heads: seq<int>, code0: seq<nat>, refs: seq<int>, base: seq<int>, lists: seq<seq<nat>>,
                         c: nat, b: int, p: int, code: seq<nat>) {
    var left := Roomed(heads, Sweep(code0, WithBase(refs, b)), base, lists).code;
    0 <= p < |left| && left[p] == 0 && code == left[p := c]
  }

  /** While a node is free, none is collected. */
  lemma PlacedAmongFree(heads: seq<int>, code0: seq<nat>, refs: seq<int>, base: seq<int>, lists: seq<seq<nat>>,
                        c: nat, b: int, p: nat, code: seq<nat>)
    requires heads != [] && heads[0] != -1 && Placed(heads, code0, refs, base, lists, c, b, p, code)
    ensures p < |code0| && code0[p] == 0 && code == code0[p := c]
  {
  }

  lemma SweptNothing(s: Sweep, base: seq<int>, l: seq<nat>)
    ensures Swept(s, base, l[..0]) == s
  {
  }

  lemma VisitedKept(s: Sweep, base: seq<int>, p: nat)
    requires p < |s.refs| && s.refs[p] > 0
    ensures Visited(s, base, p) == s
  {
  }

  /** What sweeping the list for the code `c` does and does not do. */
  lemma {:induction false} SweptFacts(s: Sweep, base: seq<int>, l: seq<nat>, c: nat)
    requires |s.code| == |s.refs| == |base| && c != 0
    requires forall k {:trigger l[k]} :: 0 <= k < |l| ==> l[k] < |s.code| && s.code[l[k]] == c
    ensures var t := Swept(s, base, l);
            && |t.code| == |s.code| && |t.refs| == |s.refs| && Kept(s.code, t.code)
            && (forall n :: 0 <= n < |s.refs| ==> t.refs[n] <= s.refs[n])
            && (forall n :: 0 <= n < |s.code| && s.code[n] != c ==> t.code[n] == s.code[n])
            && (forall n :: n in l && t.code[n] != 0 ==> s.refs[n] > 0)
            && (if t.code == s.code then t.refs == s.refs
                else exists n :: 0 <= n < |s.code| && s.code[n] == c && s.refs[n] <= 0)
    decreases |l|
  {
    if l != [] {
      var k := |l| - 1;
      var m := l[..k];
      assert forall n :: n in l ==> n in m || n == l[k];
      SweptFacts(s, base, m, c);
    }
  }

  lemma SomeIdle(r: Refs, c: nat) returns (n: nat)
    requires Counts(r, {}) && c != 0
    requires exists n :: 0 <= n < |r.code| && r.code[n] == c && n < |r.refs| && r.refs[n] <= 0
    ensures Idle(r.code, r.refs, n)
  {
    n :| 0 <= n < |r.code| && r.code[n] == c && n < |r.refs| && r.refs[n] <= 0;
    RefsNotNegative(r, n);
  }

  lemma ListNodes(heads: seq<int>, next: seq<int>, code: seq<nat>, lists: seq<seq<nat>>, c: nat)
    requires Partition(heads, next, code, lists, -1) && c < CODES
    ensures c < |lists| && forall k {:trigger lists[c][k]} ::
              0 <= k < |lists[c]| ==> lists[c][k] < |code| && code[lists[c][k]] == c
    ensures forall n :: 0 <= n < |code| && code[n] == c ==> n in lists[c]
  {
    assert ListOk(heads, next, code, lists, -1, c);
    forall k | 0 <= k < |lists[c]| ensures lists[c][k] < |code| && code[lists[c][k]] == c {
      assert lists[c][k] in lists[c];
    }
  }

  lemma KeptItself(code: seq<nat>)
    ensures Kept(code, code)
  {
  }

  lemma ZeroedIsKept(code0: seq<nat>, code: seq<nat>, p: nat)
    requires Kept(code0, code) && p < |code| && code[p] != 0
    ensures Kept(code0, code[p := 0]) && code[p := 0] != code0
  {
    assert code[p] == code0[p] && code[p := 0][p] == 0;
  }

  lemma SweptNext(s: Sweep, base: seq<int>, l: seq<nat>, k: nat)
    requires k < |l|
    ensures Swept(s, base, l[..k + 1]) == Visited(Swept(s, base, l[..k]), base, l[k])
  {
    assert l[..k + 1][..k] == l[..k];
  }

  /** The counts after references to `b` gained one. */
  function WithBase(refs: seq<int>, b: int): seq<int> {
    if 0 <= b < |refs| then refs[b := refs[b] + 1] else refs
  }

  // ----- what giving up a reference frees -----

  /** Besides `p`, a node is freed only along with one that was based on it. */
  ghost predicate ChainOnly(code0: seq<nat>, code: seq<nat>, base: seq<int>, p: int) {
    forall n {:trigger Live(code0, n)} :: Live(code0, n) && !Live(code, n) && n != p ==> BasedOn(code0, code, base, n)
  }

  ghost predicate BasedOn(code0: seq<nat>, code: seq<nat>, base: seq<int>, n: int) {
    exists m: nat :: m < |base| && base[m] == n && Live(code0, m) && !Live(code, m)
  }

  /** And no node is left over: what remains without references had none before. */
  ghost predicate NoNewIdle(code0: seq<nat>, refs0: seq<int>, code: seq<nat>, refs: seq<int>) {
    forall n {:trigger Idle(code, refs, n)} :: Idle(code, refs, n) ==> Idle(code0, refs0, n)
  }

  lemma NothingFreed(code: seq<nat>, base: seq<int>, p: int)
    ensures ChainOnly(code, code, base, p)
  {
  }

  lemma LessOne(code: seq<nat>, refs0: seq<int>, refs1: seq<int>, p: nat, code2: seq<nat>, refs2: seq<int>)
    requires p < |refs0| && refs1 == refs0[p := refs0[p] - 1] && NoNewIdle(code, refs1, code2, refs2)
    requires !Idle(code2, refs2, p)
    ensures NoNewIdle(code, refs0, code2, refs2)
  {
    forall n | Idle(code2, refs2, n) ensures Idle(code, refs0, n) {
      assert Idle(code, refs1, n) && n != p;
    }
  }

  lemma FewerIdle(code0: seq<nat>, refs0: seq<int>, code: seq<nat>, refs: seq<int>, p: nat)
    requires NoNewIdle(code0, refs0, code, refs) && p < |code|
    ensures NoNewIdle(code0, refs0, code[p := 0], refs)
  {
    forall n | Idle(code[p := 0], refs, n) ensures Idle(code0, refs0, n) {
      assert Idle(code, refs, n);
    }
  }

  lemma SameIdle(code: seq<nat>, refs: seq<int>)
    ensures NoNewIdle(code, refs, code, refs)
  {
  }

  lemma MoreByOne(code: seq<nat>, refs: seq<int>, b: nat)
    requires b < |refs| && refs[b] >= 0
    ensures NoNewIdle(code, refs, code, WithBase(refs, b))
  {
    forall n | Idle(code, WithBase(refs, b), n) ensures Idle(code, refs, n) {
    }
  }

  lemma IdleTrans(code: seq<nat>, refs0: seq<int>, refs1: seq<int>, code2: seq<nat>, refs2: seq<int>)
    requires NoNewIdle(code, refs0, code, refs1) && NoNewIdle(code, refs1, code2, refs2)
    ensures NoNewIdle(code, refs0, code2, refs2)
  {
    forall n | Idle(code2, refs2, n) ensures Idle(code, refs0, n) {
      assert Idle(code, refs1, n);
    }
  }

  lemma ChainThrough(code0: seq<nat>, code1: seq<nat>, code: seq<nat>, base: seq<int>, p: nat)
    requires Kept(code0, code1) && p < |base| && Live(code0, p) && code == code1[p := 0] && p < |code1|
    requires if base[p] == -1 then code1 == code0 else ChainOnly(code0, code1, base, base[p])
    ensures ChainOnly(code0, code, base, p)
  {
    forall n | Live(code0, n) && !Live(code, n) && n != p ensures BasedOn(code0, code, base, n) {
      assert !Live(code1, n);
      if n == base[p] {
        assert !Live(code, p);
      } else {
        assert BasedOn(code0, code1, base, n);
        var m: nat :| m < |base| && base[m] == n && Live(code0, m) && !Live(code1, m);
        assert !Live(code, m);
      }
    }
  }

  ghost predicate Permanent(r: Refs, n: nat) {
    n < |r.ext| && n < |r.code| && r.ext[n] >= 1
  }

  /** No node is free, and every node other than the base is referenced. */
  ghost predicate Full(heads: seq<int>, code: seq<nat>, refs: seq<int>, b: int) {
    |heads| > 0 && heads[0] == -1 && !exists n :: n != b && Idle(code, refs, n)
  }

  ghost predicate Matches(code: seq<nat>, base: seq<int>, size: seq<int>, c: nat, b: int, v: int, n: nat) {
    n < |code| && n < |base| && n < |size| && code[n] == c && base[n] == b && size[n] == v
  }

  lemma PartitionSizes(heads: seq<int>, next: seq<int>, code: seq<nat>, lists: seq<seq<nat>>, out: int)
    requires Partition(heads, next, code, lists, out)
    ensures |heads| == |lists| == CODES && |next| == |code|
  {
  }

  lemma ElsewhereShapes(r0: Refs, size0: seq<int>, r: Refs, size: seq<int>, p: int)
    requires Elsewhere(r0, size0, r, size, p)
    ensures Shaped(r) && |size| == |r.code| == |r0.code|
  {
  }

  lemma Unreferenced(r: Refs, p: nat)
    requires Counts(r, {}) && Live(r.code, p) && r.refs[p] == 0
    ensures r.ext[p] == 0
  {
    assert NodeOk(r, {}, p);
  }

  lemma NoDependants(r: Refs, p: nat)
    requires Counts(r, {}) && Live(r.code, p) && r.refs[p] == 0
    ensures r.deps[p] == {}
  {
    assert NodeOk(r, {}, p);
  }

  lemma {:induction false} ChainOfAll(next: seq<int>, n: nat, i: nat)
    requires i <= n == |next| && forall k :: 0 <= k < n ==> next[k] == if k + 1 < n then k + 1 else -1
    ensures IsList(if i < n then i else -1, next, seq(n, j => j)[i..])
    decreases n - i
  {
    if i < n {
      ChainOfAll(next, n, i + 1);
      assert seq(n, j => j)[i..][1..] == seq(n, j => j)[i + 1..];
    }
  }

  lemma FreshPartition(heads: seq<int>, next: seq<int>, code: seq<nat>, lists: seq<seq<nat>>, n: nat)
    requires |heads| == |lists| == CODES && |next| == |code| == n > 0
    requires forall k :: 0 <= k < n ==> code[k] == 0
    requires forall c :: 0 < c < CODES ==> heads[c] == -1 && lists[c] == []
    requires IsList(heads[0], next, lists[0]) && lists[0] == seq(n, i => i)
    ensures Partition(heads, next, code, lists, -1)
  {
    hide IsList;
    assert forall k: nat :: k < n ==> lists[0][k] == k;
    forall c | 0 <= c < CODES ensures ListOk(heads, next, code, lists, -1, c) {
      if c > 0 {
        EmptyList(next);
      } else {
        assert forall k: int :: k in lists[0] <==> 0 <= k < n && code[k] == 0 && k != -1 by {
          forall k: int ensures k in lists[0] <==> 0 <= k < n && code[k] == 0 && k != -1 {
            if 0 <= k < n { assert lists[0][k] == k; }
          }
        }
      }
    }
  }

  lemma EmptyList(next: seq<int>)
    ensures IsList(-1, next, [])
  {
  }

  // ----- the table -----

  class Table {
    var code: seq<nat>
    var size: seq<int>
    var refs: seq<int>
    var base: seq<int>    // -1 for none
    var next: seq<int>
    var heads: seq<int>   // first node of each list
    var intType: nat
    ghost var ext: seq<int>
    ghost var deps: seq<set<nat>>
    ghost var rank: seq<nat>
    ghost var lists: seq<seq<nat>>

    ghost function R(): Refs
      reads this
    {
      Refs(code, base, refs, ext, deps, rank)
    }

    ghost predicate Valid(dying: set<nat>)
      reads this
    {
      && Partition(heads, next, code, lists, -1) && Counts(R(), dying) && Keys(code, size, base)
      && (forall k {:trigger base[k]} :: 0 <= k < |base| ==> base[k] >= -1)
      && Shaped(R()) && |heads| == |lists| == CODES && |next| == |size| == |code|
      && forall d {:trigger d in dying} :: d in dying ==> d < |code|
    }

    /** A table of free nodes only. */
    constructor (n: nat)
      requires n > 0
      ensures Valid({}) && |code| == n && |heads| == 12 && heads[0] != -1 && forall k :: 0 <= k < n ==> code[k] == 0
    {
      code, size, refs := seq(n, _ => 0), seq(n, _ => 0), seq(n, _ => 0);
      base, next := seq(n, _ => -1), seq(n, i => if i + 1 < n then i + 1 else -1);
      heads := seq(CODES, c => if c == 0 then 0 else -1);
      intType := 0;
      ext, deps, rank := seq(n, _ => 0), seq(n, _ => {}), seq(n, _ => 0);
      lists := seq(CODES, c => if c == 0 then seq(n, i => i) else []);
      new;
      ChainOfAll(next, n, 0);
      assert lists[0] == seq(n, i => i)[0..];
      FreshPartition(heads, next, code, lists, n);
      assert forall k :: 0 <= k < n ==> NodeOk(R(), {}, k);
    }

    method Reftype(p: nat)
      requires Valid({}) && Live(code, p)
      modifies this`refs, this`ext
      ensures Valid({}) && ext == Bump(old(ext), p, 1)
      ensures refs == old(refs)[p := old(refs)[p] + 1]
    {
      hide Partition;
      assert NodeOk(R(), {}, p);
      AdjustKeeps(R(), {}, p, 1);
      refs := refs[p := refs[p] + 1];
      ext := Bump(ext, p, 1);
    }

    /** Return a node to the free list, given its predecessor on its own list. */
    method Freetype(prev: int, p: nat, ghost i: nat)
      requires Partition(heads, next, code, lists, -1) && p < |code| && code[p] != 0
      requires i < |lists[code[p]]| && lists[code[p]][i] == p
      requires prev == if i == 0 then -1 else lists[code[p]][i - 1]
      modifies this`heads, this`next, this`code, this`lists
      ensures Partition(heads, next, code, lists, -1) && code == old(code)[p := 0]
      ensures lists == old(lists)[old(code)[p] := Without(old(lists)[old(code)[p]], i)][0 := [p] + old(lists)[0]]
    {
      MoveToFree(heads, next, code, lists, i, p, prev);
      lists := lists[code[p] := Without(lists[code[p]], i)][0 := [p] + lists[0]];
      if prev < 0 {
        heads := heads[code[p] := next[p]];
      } else {
        next := next[prev := next[p]];
      }
      next := next[p := heads[0]];
      heads := heads[0 := p];
      code := code[p := 0];
    }

    /** Drop an outside reference; the last one scraps the node, and in turn any base
        it was the last to need. */
    method Unreftype(p: nat, ghost dying: set<nat>)
      requires Valid(dying) && Live(code, p) && p !in dying && ext[p] >= 1
      modifies this`refs, this`ext, this`deps, this`heads, this`next, this`code, this`lists
      ensures Valid(dying) && Kept(old(code), code) && ext == Bump(old(ext), p, -1)
      ensures code[p] == 0 <==> old(refs)[p] == 1
      ensures forall d :: d in dying ==> code[d] == old(code)[d]
      ensures ChainOnly(old(code), code, base, p) && NoNewIdle(old(code), old(refs), code, refs)
      decreases |LiveSet(code) - dying|, 1
    {
      hide Partition, Counts, Keys, ChainOnly;
      assert Shaped(R());
      AdjustKeeps(R(), dying, p, -1);
      NothingFreed(code, base, p);
      ghost var code0, refs0 := code, refs;
      refs := refs[p := refs[p] - 1];
      ghost var refs1 := refs;
      ext := Bump(ext, p, -1);
      if refs[p] == 0 {
        Scrap(p, dying);
      }
      LessOne(code0, refs0, refs1, p, code, refs);
    }

    /** A node without references starts dying and is removed. */
    method Scrap(p: nat, ghost dying: set<nat>)
      requires Valid(dying) && Live(code, p) && p !in dying && refs[p] == 0
      modifies this`refs, this`ext, this`deps, this`heads, this`next, this`code, this`lists
      ensures Valid(dying) && Kept(old(code), code) && ext == old(ext) && code[p] == 0
      ensures forall d :: d in dying ==> code[d] == old(code)[d]
      ensures ChainOnly(old(code), code, base, p) && NoNewIdle(old(code), old(refs), code, refs)
      decreases |LiveSet(code) - dying|, 0
    {
      hide Partition, Counts, Keys, Doomed, Bump, ChainOnly;
      DoomKeeps(R(), dying, p);
      DoomedExt(R(), p);
      ghost var doomed := Doomed(R(), p);
      deps, ext := doomed.deps, doomed.ext;
      FewerLeft(code, dying, p);
      Scraptype(p, dying + {p});
      assert dying + {p} - {p} == dying;
    }

    /** Remove a dying node: give up its base first, then unlink it. */
    method Scraptype(p: nat, ghost dying: set<nat>)
      requires Valid(dying) && p in dying && p < |code|
      requires Live(code, p) && (base[p] != -1 ==> Live(code, base[p]) && base[p] !in dying && ext[base[p]] >= 1)
      modifies this`refs, this`ext, this`deps, this`heads, this`next, this`code, this`lists
      ensures Valid(dying - {p}) && Kept(old(code), code) && code[p] == 0
      ensures ext == if base[p] == -1 then old(ext) else Bump(old(ext), base[p], -1)
      ensures forall d :: d in dying && d != p ==> code[d] == old(code)[d]
      ensures ChainOnly(old(code), code, base, p) && NoNewIdle(old(code), old(refs), code, refs)
      decreases |LiveSet(code) - dying|, 2
    {
      hide Counts, Bump, ChainOnly, Partition, NoNewIdle;
      ghost var code0, refs0 := code, refs;
      SameIdle(code, refs);
      if base[p] != -1 {
        Unreftype(base[p], dying);
      }
      ChainThrough(code0, code, code[p := 0], base, p);
      FewerIdle(code0, refs0, code, refs, p);
      assert Live(code, p) by { DyingIsLive(R(), dying, p); }
      BuryKeeps(R(), dying, p);
      Unlink(p);
      KeysFewer(old(code), code, size, base);
    }

    /** Find a node on its list and move it to the free list. */
    method Unlink(p: nat)
      requires Partition(heads, next, code, lists, -1) && Live(code, p)
      modifies this`heads, this`next, this`code, this`lists
      ensures Partition(heads, next, code, lists, -1) && code == old(code)[p := 0]
    {
      ghost var l := lists[code[p]];
      assert ListOk(heads, next, code, lists, -1, code[p]) && p in l;
      var prev, t := -1, heads[code[p]];
      ghost var i := 0;
      while t != -1
        invariant heads == old(heads) && next == old(next) && code == old(code) && lists == old(lists)
        invariant i <= |l| && p !in l[..i]
        invariant t == (if i < |l| then l[i] else -1) && prev == (if i == 0 then -1 else l[i - 1])
        decreases |l| - i
      {
        LinkAt(heads[code[p]], next, l, i);
        if t == p {
          break;
        }
        prev, t := t, next[t];
        i := i + 1;
      }
      assert l[..|l|] == l;
      Freetype(prev, p, i);
    }

    /** The node with this code, base and size, or -1 if there is none. */
    method Findtype(c: nat, b: int, v: int) returns (p: int)
      requires Valid({}) && c < CODES
      ensures p != -1 ==> 0 <= p < |code| && code[p] == c && base[p] == b && size[p] == v
      ensures p == -1 ==> forall n :: 0 <= n < |code| && code[n] == c ==> !(base[n] == b && size[n] == v)
    {
      assert ListOk(heads, next, code, lists, -1, c);
      ghost var l, i := lists[c], 0;
      p := heads[c];
      forall k | 0 <= k < |l| ensures l[k] < |code| { assert l[k] in l; }
      while p != -1
        invariant i <= |l| && p == (if i < |l| then l[i] else -1)
        invariant forall k :: 0 <= k < |l| ==> l[k] < |code|
        invariant forall k :: 0 <= k < i ==> !(base[l[k]] == b && size[l[k]] == v)
        decreases |l| - i
      {
        LinkAt(heads[c], next, l, i);
        assert l[i] in l;
        var q := next[p];
        if size[p] == v && base[p] == b {
          return;
        }
        p := q;
        i := i + 1;
      }
      forall n | 0 <= n < |code| && code[n] == c ensures !(base[n] == b && size[n] == v) {
        assert n in l;
      }
    }

    /** Collect one unreferenced node, given its predecessor. */
    method Collect(prev: int, p: nat, ghost i: nat)
      requires Valid({}) && p < |code| && code[p] != 0 && refs[p] == 0
      requires i < |lists[code[p]]| && lists[code[p]][i] == p
      requires prev == if i == 0 then -1 else lists[code[p]][i - 1]
      modifies this`refs, this`deps, this`heads, this`next, this`code, this`lists
      ensures Valid({}) && code == old(code)[p := 0] && forall n :: 0 <= n < |code| ==> refs[n] <= old(refs)[n]
      ensures |refs| == |old(refs)| && |code| == |old(code)|
      ensures Sweep(code, refs) == Visited(Sweep(old(code), old(refs)), base, p)
      ensures lists == old(lists)[old(code)[p] := Without(old(lists)[old(code)[p]], i)][0 := [p] + old(lists)[0]]
    {
      hide Partition, Counts;
      CollectKeeps(R(), p);
      var b := base[p];
      if b != -1 {
        refs := refs[b := refs[b] - 1];
        deps := deps[b := deps[b] - {p}];
      }
      assert Partition(heads, next, code, lists, -1) && |lists| == CODES && code[p] < CODES by {
        PartitionLengths(heads, next, code, lists, p);
      }
      Freetype(prev, p, i);
      KeysFewer(old(code), code, size, base);
    }

    /** Look at one node of a list, the k-th it had when the collection began. */
    method Visit(c: nat, prev: int, p: nat, ghost i: nat, ghost s0: Sweep, ghost l0: seq<nat>, ghost k: nat)
      returns (gone: bool)
      requires Valid({}) && 0 < c < CODES && i < |lists[c]| && p == lists[c][i]
      requires prev == if i == 0 then -1 else lists[c][i - 1]
      requires i <= k < |l0| && lists[c][i..] == l0[k..]
      requires Sweep(code, refs) == Swept(s0, base, l0[..k]) && Kept(s0.code, code)
      modifies this`refs, this`deps, this`heads, this`next, this`code, this`lists
      ensures Valid({}) && |lists| == |old(lists)| && |refs| == |old(refs)| && |code| == |old(code)|
      ensures Sweep(code, refs) == Swept(s0, base, l0[..k + 1]) && Kept(s0.code, code)
      ensures gone ==> code != s0.code && lists[c] == Without(old(lists)[c], i) && lists[c][i..] == l0[k + 1..]
      ensures !gone ==>
                code == old(code) && lists == old(lists) && next == old(next) && lists[c][i + 1..] == l0[k + 1..]
      ensures forall d :: c < d < CODES ==> lists[d] == old(lists)[d]
    {
      hide Counts, Keys, Partition, Swept, Visited, Kept;
      ListNode(heads, next, code, lists, c, i);
      assert lists[c][i..][0] == p && l0[k..][0] == l0[k] && lists[c][i..][1..] == l0[k + 1..];
      SweptNext(s0, base, l0, k);
      gone := !(refs[p] > 0);
      if gone {
        RefsNotNegative(R(), p);
        ghost var l := lists[c];
        ZeroedIsKept(s0.code, code, p);
        Collect(prev, p, i);
        assert lists[c][i..] == l[i + 1..];
      } else {
        VisitedKept(Sweep(code, refs), base, p);
      }
    }

    /** Collect the unreferenced nodes of one list. */
    method CollectList(c: nat) returns (freed: nat)
      requires Valid({}) && 0 < c < CODES
      modifies this`refs, this`deps, this`heads, this`next, this`code, this`lists
      ensures Valid({}) && Kept(old(code), code) && |refs| == |old(refs)|
      ensures forall n :: 0 <= n < |code| ==> refs[n] <= old(refs)[n]
      ensures forall n :: 0 <= n < |code| && old(code)[n] != c ==> code[n] == old(code)[n]
      ensures forall n :: 0 <= n < |code| && code[n] == c ==> old(refs)[n] > 0
      ensures freed == 0 <==> code == old(code)
      ensures if freed == 0 then refs == old(refs) else exists n :: Idle(old(code), old(refs), n)
      ensures Sweep(code, refs) == Swept(Sweep(old(code), old(refs)), base, old(lists)[c])
      ensures |lists| == |old(lists)| == CODES && forall d :: c < d < CODES ==> lists[d] == old(lists)[d]
    {
      hide Counts, Keys, Partition, Swept, Visited, Kept;
      freed := 0;
      KeptItself(code);
      ListStart(heads, next, code, lists, c);
      ghost var l0, k, r0, s0 := lists[c], 0, R(), Sweep(code, refs);
      ListNodes(heads, next, code, lists, c);
      SweptNothing(Sweep(code, refs), base, l0);
      var prev, p := -1, heads[c];
      ghost var i := 0;
      while p != -1
        invariant Valid({}) && Kept(old(code), code) && |refs| == |old(refs)| && |code| == |old(code)|
        invariant i <= |lists[c]| && p == (if i < |lists[c]| then lists[c][i] else -1)
        invariant prev == (if i == 0 then -1 else lists[c][i - 1])
        invariant freed == 0 <==> code == old(code)
        invariant i <= k <= |l0| && lists[c][i..] == l0[k..]
        invariant Sweep(code, refs) == Swept(s0, base, l0[..k])
        invariant |lists| == CODES && forall d :: c < d < CODES ==> lists[d] == old(lists)[d]
        decreases |lists[c]| - i
      {
        ListNode(heads, next, code, lists, c, i);
        var after := next[p];
        var gone := Visit(c, prev, p, i, s0, l0, k);
        if gone {
          freed := freed + 1;
        } else {
          prev := p;
          i := i + 1;
        }
        k := k + 1;
        p := after;
      }
      assert l0[..k] == l0;
      SweptFacts(s0, base, l0, c);
      if code != old(code) {
        var n := SomeIdle(r0, c);
      }
    }

    /** Collect every unreferenced node of the table. */
    method Typecollect() returns (freed: nat)
      requires Valid({})
      modifies this`refs, this`deps, this`heads, this`next, this`code, this`lists
      ensures Valid({}) && Kept(old(code), code)
      ensures forall n :: Live(code, n) ==> old(refs)[n] > 0
      ensures freed == 0 <==> code == old(code)
      ensures freed == 0 ==> refs == old(refs)
      ensures freed > 0 ==> heads[0] != -1 && exists n :: Idle(old(code), old(refs), n)
      ensures Sweep(code, refs) == SweptTo(Sweep(old(code), old(refs)), base, old(lists), CODES)
    {
      hide Counts, Keys, Partition, Swept;
      freed := 0;
      for c := 1 to CODES
        invariant Valid({}) && Kept(old(code), code) && |refs| == |old(refs)| && |code| == |old(code)|
        invariant forall n :: 0 <= n < |code| ==> refs[n] <= old(refs)[n]
        invariant forall n :: 0 <= n < |code| && 0 < code[n] < c ==> old(refs)[n] > 0
        invariant freed == 0 <==> code == old(code)
        invariant if freed == 0 then refs == old(refs) else exists n :: Idle(old(code), old(refs), n)
        invariant |lists| == |old(lists)| == CODES && forall d :: c <= d < CODES ==> lists[d] == old(lists)[d]
        invariant Sweep(code, refs) == SweptTo(Sweep(old(code), old(refs)), base, old(lists), c)
      {
        ghost var before := code;
        var k := CollectList(c);
        freed := freed + k;
        if code != before { KeptAndBack(old(code), before, code); }
      }
      if freed > 0 {
        SomeFree(heads, next, old(code), code, lists);
      }
      CodesBounded(heads, next, code, lists);
    }

    /** Make sure there is a free node, collecting if there is none. */
    method Room() returns (full: bool)
      requires Valid({})
      modifies this`refs, this`deps, this`heads, this`next, this`code, this`lists
      ensures Valid({}) && Kept(old(code), code) && (!full <==> heads[0] != -1)
      ensures full <==> old(heads)[0] == -1 && !exists n :: Idle(old(code), old(refs), n)
      ensures full ==> code == old(code) && refs == old(refs)
      ensures old(heads)[0] != -1 ==> code == old(code) && refs == old(refs)
      ensures Sweep(code, refs) == Roomed(old(heads), Sweep(old(code), old(refs)), base, old(lists))
    {
      hide Counts, Keys, Partition, SweptTo;
      full := heads[0] == -1;
      if full {
        NoneFree(heads, next, code, lists);
        var freed := Typecollect();
        NoneFree(heads, next, code, lists);
        full := freed == 0;
      }
    }

    /** Write a type into a free node; its base has been referenced already. */
    method Fill(p: nat, c: nat, b: int, v: int)
      requires Counts(R(), {}) && Keys(code, size, base) && Shaped(R()) && |size| == |code|
      requires p < |code| && !Live(code, p) && c != 0 && (b != -1 ==> Live(code, b) && ext[b] >= 1)
      requires NotYet(code, base, size, c, b, v)
      modifies this`code, this`size, this`base, this`refs, this`rank, this`deps, this`ext
      ensures -1 <= b < |code| && b != p && Counts(R(), {}) && Keys(code, size, base)
      ensures code == old(code)[p := c] && base == old(base)[p := b] && size == old(size)[p := v]
      ensures refs == old(refs)[p := 0]
      ensures ext == if b == -1 then old(ext) else Bump(old(ext), b, -1)
      ensures Elsewhere(old(R()), old(size), R(), size, p)
    {
      hide Counts, Keys, Born, Elsewhere, Bump, NotYet;
      BirthKeeps(R(), p, c, b);
      BornElsewhere(R(), size, p, c, b, v);
      KeysBorn(code, size, base, p, c, b, v);
      ghost var born := Born(R(), p, c, b);
      code, size, base, refs := code[p := c], size[p := v], base[p := b], refs[p := 0];
      rank, deps, ext := born.rank, born.deps, born.ext;
      assert R() == born;
    }

    /** Take the first free node for a type; its base has been referenced already. */
    method Take(c: nat, b: int, v: int) returns (p: nat)
      requires Valid({}) && 0 < c < CODES && heads[0] != -1 && (b != -1 ==> Live(code, b) && ext[b] >= 1)
      requires NotYet(code, base, size, c, b, v)
      modifies this
      ensures intType == old(intType) && ext == if b == -1 then old(ext) else Bump(old(ext), b, -1)
      ensures p < |code| && p != b && Partition(heads, next, code, lists, p) && Counts(R(), {})
      ensures Keys(code, size, base)
      ensures forall k {:trigger base[k]} :: 0 <= k < |base| ==> base[k] >= -1
      ensures code[p] == c && base[p] == b && size[p] == v && refs[p] == 0
      ensures p < |old(code)| && old(code)[p] == 0 && code == old(code)[p := c]
      ensures Elsewhere(old(R()), old(size), R(), size, p)
    {
      hide Counts, Keys, Partition, Elsewhere, Bump, NotYet;
      TakeFree(heads, next, code, lists, c);
      p := heads[0];
      heads, lists, next := heads[0 := next[p]], lists[0 := lists[0][1..]], next[p := -1];
      Fill(p, c, b, v);
    }

    /** Take a node for a type; -1 when the table is full, that is, when no node is free
        and every node other than the base is referenced. */
    method Alloctype(c: nat, b: int, v: int) returns (p: int)
      requires Valid({}) && 0 < c < CODES && (b != -1 ==> Live(code, b))
      requires NotYet(code, base, size, c, b, v)
      modifies this
      ensures intType == old(intType) && ext == old(ext)
      ensures p == -1 <==> old(heads)[0] == -1 && !exists n :: n != b && Idle(old(code), old(refs), n)
      ensures p == -1 ==> Valid({}) && Elsewhere(old(R()), old(size), R(), size, -1)
      ensures p == -1 ==> ChainOnly(old(code), code, base, b) && NoNewIdle(old(code), old(refs), code, refs)
      ensures p != -1 ==> Placed(old(heads), old(code), old(refs), old(base), old(lists), c, b, p, code)
      ensures p != -1 ==>
                && 0 <= p < |code| && p != b && Partition(heads, next, code, lists, p) && Counts(R(), {})
                && Keys(code, size, base)
                && (forall k {:trigger base[k]} :: 0 <= k < |base| ==> base[k] >= -1)
                && code[p] == c && base[p] == b && size[p] == v && refs[p] == 0
                && Elsewhere(old(R()), old(size), R(), size, p)
    {
      hide Counts, Keys, Partition, ChainOnly, NoNewIdle, Roomed;
      SameIdle(code, refs);
      NothingFreed(code, base, b);
      ghost var refs0 := refs;
      if b != -1 {
        RefsNotNegative(R(), b);
        Reftype(b);
      }
      IdleBut(code, old(refs), refs, b);
      assert refs == WithBase(refs0, b);
      ghost var left := Roomed(heads, Sweep(code, refs), base, lists);
      var full := Room();
      assert Sweep(code, refs) == left;
      if b != -1 { ReferencedSurvives(R(), b); }
      assert Elsewhere(old(R()), old(size), R(), size, -1);
      ghost var r1 := R();
      p := -1;
      if full {
        if b != -1 {
          MoreByOne(old(code), refs0, b);
          ghost var refs1 := refs;
          Unreftype(b, {});
          IdleTrans(old(code), refs0, refs1, code, refs);
        }
      } else {
        p := Take(c, b, v);
        ElsewhereTrans(old(R()), old(size), r1, old(size), R(), size, p);
      }
    }

    /** Enter a type without looking for an equal one; int when the table is full. */
    method Uniquetype(c: nat, b: int, v: int) returns (p: nat)
      requires Valid({}) && 0 < c < CODES && (b != -1 ==> Live(code, b))
      requires Full(heads, code, refs, b) ==> Permanent(R(), intType)
      requires c == 8 || c == 9 || NotYet(code, base, size, c, b, v)
      modifies this
      ensures Valid({}) && intType == old(intType) && ext == old(ext) && Live(code, p) && |code| == |old(code)|
      ensures if Full(old(heads), old(code), old(refs), b)
              then p == intType && Elsewhere(old(R()), old(size), R(), size, -1)
              else && code[p] == c && base[p] == b && size[p] == v && refs[p] == 0
                   && Elsewhere(old(R()), old(size), R(), size, p)
      ensures if Full(old(heads), old(code), old(refs), b)
              then ChainOnly(old(code), code, base, b) && NoNewIdle(old(code), old(refs), code, refs)
              else Placed(old(heads), old(code), old(refs), old(base), old(lists), c, b, p, code)
    {
      hide Counts, Keys, Partition, Elsewhere, Placed, ChainOnly, NoNewIdle;
      var q := Alloctype(c, b, v);
      if q == -1 {
        ElsewhereShapes(old(R()), old(size), R(), size, -1);
        ReferencedSurvives(R(), intType);
        return intType;
      }
      PartitionSizes(heads, next, code, lists, q);
      PutFirst(heads, next, code, lists, q);
      assert Shaped(R()) && |size| == |code| by { ElsewhereShapes(old(R()), old(size), R(), size, q); }
      lists := lists[c := [q] + lists[c]];
      next := next[q := heads[c]];
      heads := heads[c := q];
      p := q;
    }

    /** The node for a type: an equal one when there is one, else a new one. Every other
        node that survives keeps its meaning. */
    method Addtype(c: nat, b: int, v: int) returns (p: nat)
      requires Valid({}) && 0 < c < CODES && (b != -1 ==> Live(code, b))
      requires Full(heads, code, refs, b) ==> Permanent(R(), intType)
      modifies this
      ensures Valid({}) && intType == old(intType) && ext == old(ext) && Live(code, p) && |code| == |old(code)|
      ensures (exists n :: Matches(old(code), old(base), old(size), c, b, v, n)) ==>
                Matches(code, base, size, c, b, v, p) && old(R()) == R() && old(size) == size
      ensures (exists n :: Matches(old(code), old(base), old(size), c, b, v, n))
              || !Full(old(heads), old(code), old(refs), b) ==>
                Meaning(R(), size, p) == Type(c, v, if b == -1 then None else Some(old(Meaning(R(), size, b))))
      ensures forall n ::
                n != p && Live(code, n) ==> Live(old(code), n) && Meaning(R(), size, n) == old(Meaning(R(), size, n))
      ensures forall n :: Live(old(code), n) && old(ext)[n] > 0 ==>
                Live(code, n) && Meaning(R(), size, n) == old(Meaning(R(), size, n))
      ensures (exists n :: Matches(old(code), old(base), old(size), c, b, v, n))
              || (if Full(old(heads), old(code), old(refs), b)
                  then ChainOnly(old(code), code, base, b) && NoNewIdle(old(code), old(refs), code, refs)
                  else Placed(old(heads), old(code), old(refs), old(base), old(lists), c, b, p, code))
      ensures old(heads)[0] != -1 ==> forall n :: n != p && Live(old(code), n) ==> code[n] == old(code)[n]
    {
      hide Counts, Keys, Partition, Placed, ChainOnly, NoNewIdle;
      var q := Findtype(c, b, v);
      if q != -1 {
        assert Matches(code, base, size, c, b, v, q);
        return q;
      }
      assert forall n :: !Matches(code, base, size, c, b, v, n);
      p := Uniquetype(c, b, v);
      ghost var full := Full(old(heads), old(code), old(refs), b);
      if !full { NoDependants(R(), p); }
      forall n | n != p && Live(code, n)
        ensures Live(old(code), n) && Meaning(R(), size, n) == old(Meaning(R(), size, n))
      {
        MeaningKept(old(R()), old(size), R(), size, if full then -1 else p, n);
      }
      if !full && b != -1 { BaseIsLive(R(), p); }
      if old(heads)[0] != -1 {
        PlacedAmongFree(old(heads), old(code), old(refs), old(base), old(lists), c, b, p, code);
      }
      forall n | Live(old(code), n) && old(ext)[n] > 0
        ensures Live(code, n) && Meaning(R(), size, n) == old(Meaning(R(), size, n))
      {
        ReferencedSurvives(R(), n);
        if !full { Unreferenced(R(), p); }
        MeaningKept(old(R()), old(size), R(), size, if full then -1 else p, n);
      }
    }
  }
}
