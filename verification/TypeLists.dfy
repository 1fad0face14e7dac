/** The lists of the Q/C type table: nodes are numbered, and each node is on the list
    for its type code, code 0 being the free list. */
module TypeLists {
  const CODES := 12

  /** Following `next` from `head` visits exactly `l`; -1 is the null pointer. */
  ghost predicate IsList(head: int, next: seq<int>, l: seq<nat>)
    decreases |l|
  {
    if l == [] then head == -1
    else head == l[0] && l[0] < |next| && IsList(next[l[0]], next, l[1..])
  }

  ghost predicate Distinct(l: seq<nat>) {
    forall i, j :: 0 <= i < j < |l| ==> l[i] != l[j]
  }

  lemma {:induction false} ListFrame(head: int, next: seq<int>, next2: seq<int>, l: seq<nat>)
    requires IsList(head, next, l) && |next2| == |next|
    requires forall n :: n in l && n < |next| ==> next2[n] == next[n]
    ensures IsList(head, next2, l)
    decreases |l|
  {
    if l != [] {
      forall n | n in l[1..] ensures n in l { }
      ListFrame(next[l[0]], next, next2, l[1..]);
    }
  }

  /** The link out of the element at `i` leads to the next one. */
  lemma {:induction false} LinkAt(head: int, next: seq<int>, l: seq<nat>, i: nat)
    requires IsList(head, next, l) && i < |l|
    ensures l[i] < |next| && next[l[i]] == (if i + 1 < |l| then l[i + 1] else -1)
    decreases |l|
  {
    if i == 0 {
      if |l| > 1 { assert l[1..][0] == l[1]; }
    } else {
      LinkAt(next[l[0]], next, l[1..], i - 1);
    }
  }

  function Without(l: seq<nat>, i: nat): seq<nat>
    requires i < |l|
  {
    l[..i] + l[i + 1..]
  }

  lemma WithoutMembers(l: seq<nat>, i: nat)
    requires i < |l| && Distinct(l)
    ensures Distinct(Without(l, i))
    ensures forall n :: n in Without(l, i) <==> n in l && n != l[i]
  {
    forall n | n in l && n != l[i] ensures n in Without(l, i) {
      var k :| 0 <= k < |l| && l[k] == n;
      assert n == if k < i then Without(l, i)[k] else Without(l, i)[k - 1];
    }
  }

  /** Making the predecessor's link skip an element takes it off the list. */
  lemma {:induction false} Unlinked(head: int, next: seq<int>, l: seq<nat>, i: nat)
    requires IsList(head, next, l) && Distinct(l) && 0 < i < |l| && l[i - 1] < |next| && l[i] < |next|
    ensures IsList(head, next[l[i - 1] := next[l[i]]], Without(l, i))
    decreases |l|
  {
    var next2 := next[l[i - 1] := next[l[i]]];
    assert Without(l, i)[1..] == if i == 1 then l[2..] else Without(l[1..], i - 1);
    if i == 1 {
      assert l[1..][1..] == l[2..];
      forall n | n in l[2..] ensures n != l[0] { }
      ListFrame(next[l[1]], next, next2, l[2..]);
    } else {
      assert Without(l, i)[0] == l[0];
      Unlinked(next[l[0]], next, l[1..], i - 1);
    }
  }

  lemma ConsList(next: seq<int>, p: nat, l: seq<nat>)
    requires p < |next| && IsList(next[p], next, l) && Distinct(l) && p !in l
    ensures IsList(p, next, [p] + l) && Distinct([p] + l)
    ensures forall n :: n in [p] + l <==> n == p || n in l
  {
    assert ([p] + l)[1..] == l;
  }

  lemma TailList(head: int, next: seq<int>, l: seq<nat>)
    requires IsList(head, next, l) && l != []
    ensures l[0] < |next| && IsList(next[l[0]], next, l[1..])
  {
  }

  // ----- the table of lists -----

  /** List `c` holds exactly the nodes of code `c`, each once, apart from `out`. */
  ghost predicate ListOk(heads: seq<int>, next: seq<int>, code: seq<nat>, lists: seq<seq<nat>>, out: int, c: nat)
    requires c < |heads| && c < |lists|
  {
    && IsList(heads[c], next, lists[c])
    && Distinct(lists[c])
    && forall n {:trigger n in lists[c]} :: n in lists[c] <==> 0 <= n < |code| && code[n] == c && n != out
  }

  /** Every node but `out` is on exactly one list, the one for its code. */
  ghost predicate Partition(heads: seq<int>, next: seq<int>, code: seq<nat>, lists: seq<seq<nat>>, out: int) {
    && |heads| == |lists| == CODES && |next| == |code|
    && (forall n {:trigger code[n]} :: 0 <= n < |code| ==> code[n] < CODES)
    && forall c {:trigger ListOk(heads, next, code, lists, out, c)} ::
         0 <= c < CODES ==> ListOk(heads, next, code, lists, out, c)
  }

  /** The links after `p`, whose predecessor is `prev`, moves to the free list. */
  function FreedHeads(heads: seq<int>, next: seq<int>, code: seq<nat>, prev: int, p: nat): seq<int>
    requires |heads| == CODES && p < |next| == |code| && code[p] < CODES
  {
    (if prev < 0 then heads[code[p] := next[p]] else heads)[0 := p]
  }

  function FreedNext(heads: seq<int>, next: seq<int>, prev: int, p: nat): seq<int>
    requires |heads| == CODES && p < |next| && prev < |next|
  {
    (if prev < 0 then next else next[prev := next[p]])[p := heads[0]]
  }

  /** Moving a node from its list to the free list keeps the partition. */
  lemma MoveToFree(heads: seq<int>, next: seq<int>, code: seq<nat>, lists: seq<seq<nat>>, i: nat, p: nat, prev: int)
    requires Partition(heads, next, code, lists, -1) && p < |code| && code[p] != 0
    requires i < |lists[code[p]]| && lists[code[p]][i] == p
    requires prev == if i == 0 then -1 else lists[code[p]][i - 1]
    ensures prev < |next|
    ensures Partition(FreedHeads(heads, next, code, prev, p), FreedNext(heads, next, prev, p), code[p := 0],
                      lists[code[p] := Without(lists[code[p]], i)][0 := [p] + lists[0]], -1)
  {
    var c := code[p];
    var l := lists[c];
    assert ListOk(heads, next, code, lists, -1, c) && ListOk(heads, next, code, lists, -1, 0);
    if i > 0 { assert l[i - 1] in l; }
    var heads2, next2 := FreedHeads(heads, next, code, prev, p), FreedNext(heads, next, prev, p);
    var code2, lists2 := code[p := 0], lists[c := Without(l, i)][0 := [p] + lists[0]];
    WithoutMembers(l, i);
    hide Distinct, IsList;
    forall d | 0 <= d < CODES ensures ListOk(heads2, next2, code2, lists2, -1, d) {
      assert ListOk(heads, next, code, lists, -1, d);
      if d == 0 {
        ListFrame(heads[0], next, next2, lists[0]);
        ConsList(next2, p, lists[0]);
      } else if d == c {
        if i == 0 {
          assert Without(l, 0) == l[1..];
          TailList(heads[c], next, l);
          ListFrame(next[p], next, next2, l[1..]);
        } else {
          Unlinked(heads[c], next, l, i);
          ListFrame(heads[c], next[prev := next[p]], next2, Without(l, i));
        }
      } else {
        ListFrame(heads[d], next, next2, lists[d]);
      }
    }
  }

  /** Taking the first free node leaves it on no list. */
  lemma TakeFree(heads: seq<int>, next: seq<int>, code: seq<nat>, lists: seq<seq<nat>>, c: nat)
    requires Partition(heads, next, code, lists, -1) && heads[0] != -1 && 0 < c < CODES
    ensures lists[0] != [] && heads[0] == lists[0][0] && 0 <= heads[0] < |code| && code[heads[0]] == 0
    ensures var p := heads[0];
            Partition(heads[0 := next[p]], next[p := -1], code[p := c], lists[0 := lists[0][1..]], p)
  {
    assert ListOk(heads, next, code, lists, -1, 0);
    var p := heads[0];
    assert p in lists[0];
    var heads2, next2, code2, lists2 := heads[0 := next[p]], next[p := -1], code[p := c], lists[0 := lists[0][1..]];
    WithoutMembers(lists[0], 0);
    assert Without(lists[0], 0) == lists[0][1..];
    TailList(heads[0], next, lists[0]);
    hide Distinct, IsList;
    forall d | 0 <= d < CODES ensures ListOk(heads2, next2, code2, lists2, p, d) {
      assert ListOk(heads, next, code, lists, -1, d);
      ListFrame(heads2[d], next, next2, lists2[d]);
    }
  }

  /** Putting it at the front of the list for its code completes the partition. */
  lemma PutFirst(heads: seq<int>, next: seq<int>, code: seq<nat>, lists: seq<seq<nat>>, p: nat)
    requires p < |code| && Partition(heads, next, code, lists, p)
    ensures var c := code[p];
            Partition(heads[c := p], next[p := heads[c]], code, lists[c := [p] + lists[c]], -1)
  {
    var c := code[p];
    var heads2, next2, lists2 := heads[c := p], next[p := heads[c]], lists[c := [p] + lists[c]];
    hide Distinct, IsList;
    forall d | 0 <= d < CODES ensures ListOk(heads2, next2, code, lists2, -1, d) {
      assert ListOk(heads, next, code, lists, p, d);
      ListFrame(heads[d], next, next2, lists[d]);
      if d == c { ConsList(next2, p, lists[c]); }
    }
  }
}
