/** Walking a forest downwards: subtrees, breadth-first search, and totals rolled up depth first. */
module Rollup {
  import opened Wire
  import opened Sequences
  import opened Forest

  function ChildrenAt<N(==, !new)>(children: map<N, seq<N>>, id: N): seq<N> {
    if id in children then children[id] else []
  }

  /** Children lists are exactly the parent edges, each child once. */
  ghost predicate ListsChildren<N(!new)>(p: Parents<N>, nodes: set<N>, children: map<N, seq<N>>) {
    && (forall id, c :: c in ChildrenAt(children, id) <==> c in nodes && c in p && p[c] == id)
    && (forall id :: Distinct(ChildrenAt(children, id)))
  }

  /** Ids that are rows, whose walk up meets `root`. */
  ghost function Subtree<N(!new)>(p: Parents<N>, nodes: set<N>, root: N): set<N> {
    set x | x in nodes && Reaches(p, x, root)
  }

  /** A set that holds the root and every child of its members holds everything below the root. */
  lemma {:induction false} ClosedHoldsAll<N(!new)>(p: Parents<N>, s: set<N>, root: N, x: N, n: nat)
    requires root in s && (forall c :: c in p && p[c] in s ==> c in s)
    requires Walk(p, x, n) == At(root)
    ensures x in s
    decreases n
  {
    if n != 0 {
      if x in p {
        assert Walk(p, x, 0) == At(x) && Walk(p, x, 1) == At(p[x]);
        WalkCompose(p, x, 1, n - 1);
        ClosedHoldsAll(p, s, root, p[x], n - 1);
      } else {
        assert Walk(p, x, 0) == At(x) && Walk(p, x, 1).Off?;
        WalkOff(p, x, 1, n);
      }
    }
  }

  /** A set closed under children that holds the root holds exactly what is below it. */
  lemma VisitedIsBelow<N(!new)>(p: Parents<N>, visited: set<N>, root: N, x: N)
    requires root in visited && (forall c :: c in p && p[c] in visited ==> c in visited)
    requires forall y :: y in visited ==> Reaches(p, y, root)
    ensures x in visited <==> Reaches(p, x, root)
  {
    if Reaches(p, x, root) {
      var n: nat :| Walk(p, x, n) == At(root);
      ClosedHoldsAll(p, visited, root, x, n);
    }
  }

  function Count<N(==, !new)>(direct: map<N, int>, id: N): int { if id in direct then direct[id] else 0 }

  ghost function SumOver<N(!new)>(direct: map<N, int>, s: set<N>): int {
    if s == {} then 0 else
    var x :| x in s; Count(direct, x) + SumOver(direct, s - {x})
  }

  lemma {:induction false} SumRemove<N(!new)>(direct: map<N, int>, s: set<N>, x: N)
    requires x in s
    ensures SumOver(direct, s) == Count(direct, x) + SumOver(direct, s - {x})
    decreases s
  {
    var y :| y in s && SumOver(direct, s) == Count(direct, y) + SumOver(direct, s - {y});
    if y != x {
      SumRemove(direct, s - {y}, x);
      SumRemove(direct, s - {x}, y);
      assert s - {x} - {y} == s - {y} - {x};
    }
  }

  lemma {:induction false} SumUnion<N(!new)>(direct: map<N, int>, a: set<N>, b: set<N>)
    requires a !! b
    ensures SumOver(direct, a + b) == SumOver(direct, a) + SumOver(direct, b)
    decreases a
  {
    if a == {} {
      assert a + b == b;
    } else {
      var x :| x in a;
      SumRemove(direct, a, x);
      SumRemove(direct, a + b, x);
      assert (a + b) - {x} == (a - {x}) + b;
      SumUnion(direct, a - {x}, b);
    }
  }

  /** Everything below one of the listed nodes. */
  ghost function Below<N(!new)>(p: Parents<N>, nodes: set<N>, cs: seq<N>): set<N> {
    set x | x in nodes && exists c :: c in cs && Reaches(p, x, c)
  }

  /** Different children of one node, and different roots, share no descendants. */
  ghost predicate Siblings<N(!new)>(p: Parents<N>, a: N, b: N) {
    (a in p <==> b in p) && (a in p ==> p[a] == p[b])
  }

  lemma SiblingsApart<N(!new)>(p: Parents<N>, a: N, b: N, x: N)
    requires Acyclic(p) && Siblings(p, a, b) && Reaches(p, x, a) && Reaches(p, x, b)
    ensures a == b
  {
    ReachesChain(p, x, a, b);
    if Reaches(p, a, b) {
      SiblingAbove(p, a, b);
    } else {
      SiblingAbove(p, b, a);
    }
  }

  lemma NoSelfLoop<N(!new)>(p: Parents<N>, x: N)
    requires Acyclic(p)
    ensures x in p ==> p[x] != x
  {
    assert Walk(p, x, 0) == At(x);
    assert x in p ==> Walk(p, x, 1) == At(p[x]);
  }

  lemma SiblingAbove<N(!new)>(p: Parents<N>, a: N, b: N)
    requires Acyclic(p) && Siblings(p, a, b) && Reaches(p, a, b)
    ensures a == b
  {
    ReachesStep(p, a, b);
    if a != b {
      ReachesStep(p, b, b);
      ReachesStep(p, p[a], p[a]);
      ReachesStep(p, b, p[a]);
      ReachesAntisymmetric(p, p[a], b);
      NoSelfLoop(p, b);
    }
  }

  lemma BelowSnoc<N(!new)>(p: Parents<N>, nodes: set<N>, cs: seq<N>, i: nat)
    requires Acyclic(p) && i < |cs| && Distinct(cs)
    requires forall a, b :: a in cs && b in cs ==> Siblings(p, a, b)
    ensures Below(p, nodes, cs[..i + 1]) == Below(p, nodes, cs[..i]) + Subtree(p, nodes, cs[i])
    ensures Below(p, nodes, cs[..i]) !! Subtree(p, nodes, cs[i])
  {
    assert cs[..i + 1] == cs[..i] + [cs[i]];
    forall x | x in Below(p, nodes, cs[..i]) ensures x !in Subtree(p, nodes, cs[i]) {
      var c :| c in cs[..i] && Reaches(p, x, c);
      if Reaches(p, x, cs[i]) {
        SiblingsApart(p, c, cs[i], x);
      }
    }
  }

  /** What the roll-up needs to know before it descends into child `i`. */
  lemma NextChild<N(!new)>(p: Parents<N>, nodes: set<N>, children: map<N, seq<N>>, node: N, i: nat)
    requires Acyclic(p) && ListsChildren(p, nodes, children) && i < |ChildrenAt(children, node)|
    ensures var cs := ChildrenAt(children, node);
            && cs[i] in nodes && cs[i] in Subtree(p, nodes, cs[i])
            && Below(p, nodes, cs[..i + 1]) == Below(p, nodes, cs[..i]) + Subtree(p, nodes, cs[i])
            && Below(p, nodes, cs[..i]) !! Subtree(p, nodes, cs[i])
            && Subtree(p, nodes, cs[i]) <= Below(p, nodes, cs)
  {
    var cs := ChildrenAt(children, node);
    assert Distinct(cs) && cs[i] in cs;
    BelowSnoc(p, nodes, cs, i);
    ReachesStep(p, cs[i], cs[i]);
  }

  /** A subtree is its root and what lies below the root's children. */
  lemma SubtreeUnfold<N(!new)>(p: Parents<N>, nodes: set<N>, children: map<N, seq<N>>, node: N)
    requires Acyclic(p) && ListsChildren(p, nodes, children) && node in nodes
    requires ParentClosed(p, nodes)
    ensures Subtree(p, nodes, node) == {node} + Below(p, nodes, ChildrenAt(children, node))
    ensures node !in Below(p, nodes, ChildrenAt(children, node))
  {
    var cs := ChildrenAt(children, node);
    forall x | x in nodes ensures Reaches(p, x, node) <==> x == node || exists c :: c in cs && Reaches(p, x, c) {
      if Reaches(p, x, node) && x != node {
        var n: nat :| Walk(p, x, n) == At(node);
        ChildOnTheWay(p, nodes, x, node, n);
        var c :| c in nodes && c in p && p[c] == node && Reaches(p, x, c);
        assert c in cs;
      }
      if c :| c in cs && Reaches(p, x, c) {
        ReachesStep(p, node, node);
        ReachesStep(p, c, node);
        ReachesTransitive(p, x, c, node);
      }
      ReachesStep(p, node, node);
    }
    if c :| c in cs && Reaches(p, node, c) {
      ReachesStep(p, node, node);
      ReachesStep(p, c, node);
      ReachesAntisymmetric(p, node, c);
      NoSelfLoop(p, c);
      assert false;
    }
  }

  /** A walk of nodes that arrives from elsewhere arrives through a child. */
  lemma {:induction false} ChildOnTheWay<N(!new)>(p: Parents<N>, nodes: set<N>, x: N, node: N, n: nat)
    requires x in nodes && x != node && Walk(p, x, n) == At(node)
    requires ParentClosed(p, nodes)
    ensures exists c :: c in nodes && c in p && p[c] == node && Reaches(p, x, c)
    decreases n
  {
    ReachesStep(p, x, node);
    assert Reaches(p, x, node);
    assert x in p && Walk(p, x, 0) == At(x) && Walk(p, x, 1) == At(p[x]);
    WalkCompose(p, x, 1, n - 1);
    if p[x] == node {
      ReachesStep(p, x, x);
    } else {
      ChildOnTheWay(p, nodes, p[x], node, n - 1);
      var c :| c in nodes && c in p && p[c] == node && Reaches(p, p[x], c);
      ReachesStep(p, x, c);
    }
  }

  /** The nodes of one tree request, by id: item counts, child lists, and the totals that the
      roll-up fills in. */
  class Tree<N(==, !new)> {
    const direct: map<N, int>
    const children: map<N, seq<N>>
    var total: map<N, int>

    constructor (direct: map<N, int>, children: map<N, seq<N>>)
      ensures this.direct == direct && this.children == children && total == map[]
    {
      this.direct, this.children, this.total := direct, children, map[];
    }

    /** Sum a node's counts depth first and store the total of every node met.  A node met
        before contributes nothing. */
    method RollUp(node: N, visited: set<N>, ghost p: Parents<N>, ghost nodes: set<N>)
      returns (sum: int, seen: set<N>)
      requires Acyclic(p) && ListsChildren(p, nodes, children) && node in nodes && ParentClosed(p, nodes)
      requires node in visited || visited !! Subtree(p, nodes, node)
      modifies this`total
      ensures node in visited ==> sum == 0 && seen == visited && total == old(total)
      ensures node !in visited ==>
                && sum == SumOver(direct, Subtree(p, nodes, node))
                && seen == visited + Subtree(p, nodes, node)
                && Filled(old(total), total, direct, p, nodes, Subtree(p, nodes, node))
      decreases nodes - visited, 0
    {
      if node in visited {
        return 0, visited;
      }
      SubtreeUnfold(p, nodes, children, node);
      var cs := ChildrenAt(children, node);
      sum, seen := RollUpList(node, cs, visited + {node}, p, nodes);
      SumRemove(direct, Subtree(p, nodes, node), node);
      assert Subtree(p, nodes, node) - {node} == Below(p, nodes, cs);
      sum := sum + Count(direct, node);
      total := total[node := sum];
    }

    /** Roll up every root, each with nothing visited yet. */
    method RollUpRoots(roots: seq<N>, ghost p: Parents<N>, ghost nodes: set<N>)
      requires Acyclic(p) && ListsChildren(p, nodes, children) && ParentClosed(p, nodes)
      requires Distinct(roots) && (forall x :: x in roots <==> x in nodes && x !in p)
      requires total == map[]
      modifies this`total
      ensures RootsDone(total, direct, p, nodes, roots, |roots|)
    {
      assert Below(p, nodes, roots[..0]) == {};
      for i := 0 to |roots|
        invariant RootsDone(total, direct, p, nodes, roots, i)
      {
        ghost var before := total;
        NextRoot(p, nodes, roots, i);
        var _, _ := RollUp(roots[i], {}, p, nodes);
        RootsDoneStep(before, total, direct, p, nodes, roots, i);
      }
    }

    /** The loop over a node's children. */
    method RollUpList(ghost node: N, cs: seq<N>, visited: set<N>, ghost p: Parents<N>, ghost nodes: set<N>)
      returns (sum: int, seen: set<N>)
      requires Acyclic(p) && ListsChildren(p, nodes, children) && node in nodes && ParentClosed(p, nodes)
      requires cs == ChildrenAt(children, node) && visited !! Below(p, nodes, cs)
      modifies this`total
      ensures sum == SumOver(direct, Below(p, nodes, cs))
      ensures seen == visited + Below(p, nodes, cs)
      ensures Filled(old(total), total, direct, p, nodes, Below(p, nodes, cs))
      decreases nodes - visited, 2
    {
      sum, seen := 0, visited;
      assert Below(p, nodes, cs[..0]) == {};
      for i := 0 to |cs|
        invariant ListDone(old(total), total, direct, p, nodes, visited, Below(p, nodes, cs[..i]), seen, sum)
      {
        sum, seen := RollUpNext(node, cs, i, sum, visited, seen, old(total), p, nodes);
      }
      assert cs[..|cs|] == cs;
    }

    method RollUpNext(ghost node: N, cs: seq<N>, i: nat, sum: int, ghost visited: set<N>, seen: set<N>,
                      ghost start: map<N, int>, ghost p: Parents<N>, ghost nodes: set<N>)
      returns (sum': int, seen': set<N>)
      requires Acyclic(p) && ListsChildren(p, nodes, children) && node in nodes && ParentClosed(p, nodes)
      requires cs == ChildrenAt(children, node) && i < |cs| && visited !! Below(p, nodes, cs)
      requires ListDone(start, total, direct, p, nodes, visited, Below(p, nodes, cs[..i]), seen, sum)
      modifies this`total
      ensures ListDone(start, total, direct, p, nodes, visited, Below(p, nodes, cs[..i + 1]), seen', sum')
      decreases nodes - visited, 1
    {
      NextChild(p, nodes, children, node, i);
      ghost var done, sub, next := Below(p, nodes, cs[..i]), Subtree(p, nodes, cs[i]), Below(p, nodes, cs[..i + 1]);
      MayDescend(visited, done, sub, Below(p, nodes, cs), seen, nodes);
      var part;
      part, seen' := RollUp(cs[i], seen, p, nodes);
      ListStep(start, old(total), total, direct, p, nodes, done, sub, next);
      sum' := sum + part;
    }
  }

  lemma MayDescend<N>(visited: set<N>, done: set<N>, sub: set<N>, below: set<N>, seen: set<N>, nodes: set<N>)
    requires visited !! below && sub <= below && done !! sub && seen == visited + done
    ensures seen !! sub && nodes - seen <= nodes - visited
  {
  }

  /** Where the loop over the children stands after those whose subtrees make up `done`. */
  ghost predicate ListDone<N(!new)>(start: map<N, int>, total: map<N, int>, direct: map<N, int>, p: Parents<N>,
                                    nodes: set<N>, visited: set<N>, done: set<N>, seen: set<N>, sum: int) {
    seen == visited + done && sum == SumOver(direct, done) && Filled(start, total, direct, p, nodes, done)
  }

  ghost predicate ParentClosed<N(!new)>(p: Parents<N>, nodes: set<N>) {
    forall x :: x in nodes && x in p ==> p[x] in nodes
  }

  /** Totals were stored for exactly the nodes of `s`, each the sum over its own subtree. */
  ghost predicate Filled<N(!new)>(before: map<N, int>, after: map<N, int>, direct: map<N, int>,
                         p: Parents<N>, nodes: set<N>, s: set<N>)
  {
    && after.Keys == before.Keys + s
    && (forall x :: x in s ==> after[x] == SumOver(direct, Subtree(p, nodes, x)))
    && (forall x :: x in before && x !in s ==> after[x] == before[x])
  }

  lemma FilledBoth<N(!new)>(a: map<N, int>, b: map<N, int>, c: map<N, int>, direct: map<N, int>,
                   p: Parents<N>, nodes: set<N>, s: set<N>, t: set<N>)
    requires Filled(a, b, direct, p, nodes, s) && Filled(b, c, direct, p, nodes, t) && s !! t
    ensures Filled(a, c, direct, p, nodes, s + t)
  {
  }

  /** One more child rolled up. */
  lemma ListStep<N(!new)>(a: map<N, int>, b: map<N, int>, c: map<N, int>, direct: map<N, int>,
                 p: Parents<N>, nodes: set<N>, s: set<N>, t: set<N>, both: set<N>)
    requires Filled(a, b, direct, p, nodes, s) && Filled(b, c, direct, p, nodes, t) && s !! t && both == s + t
    ensures Filled(a, c, direct, p, nodes, both) && SumOver(direct, both) == SumOver(direct, s) + SumOver(direct, t)
  {
    FilledBoth(a, b, c, direct, p, nodes, s, t);
    SumUnion(direct, s, t);
  }

  /** Every node lies below a root. */
  lemma {:induction false} RootAbove<N(!new)>(p: Parents<N>, nodes: set<N>, x: N, n: nat)
    requires x in nodes && ParentClosed(p, nodes) && Walk(p, x, n).Off?
    ensures exists r :: r in nodes && r !in p && Reaches(p, x, r)
    decreases n
  {
    ReachesStep(p, x, x);
    if x in p {
      assert Walk(p, x, 0) == At(x) && Walk(p, x, 1) == At(p[x]);
      WalkCompose(p, x, 1, n - 1);
      RootAbove(p, nodes, p[x], n - 1);
      var r :| r in nodes && r !in p && Reaches(p, p[x], r);
      ReachesStep(p, x, r);
    }
  }

  lemma RootsCover<N(!new)>(p: Parents<N>, nodes: set<N>, roots: seq<N>)
    requires Acyclic(p) && ParentClosed(p, nodes)
    requires forall x :: x in roots <==> x in nodes && x !in p
    ensures Below(p, nodes, roots) == nodes
  {
    forall x | x in nodes ensures exists r :: r in roots && Reaches(p, x, r) {
      if Walk(p, x, |p| + 1).At? {
        WalkBounded(p, x, |p| + 1);
      }
      RootAbove(p, nodes, x, |p| + 1);
    }
  }

  ghost predicate Enumerates<N(!new)>(order: seq<N>, s: set<N>) {
    Distinct(order) && forall x :: x in order <==> x in s
  }

  /** Child lists over the ids linked so far. */
  ghost predicate Linked<N(!new)>(p: Parents<N>, done: seq<N>, children: map<N, seq<N>>) {
    && (forall id, c :: c in ChildrenAt(children, id) <==> c in done && c in p && p[c] == id)
    && (forall id :: Distinct(ChildrenAt(children, id)))
  }

  lemma LinkOne<N(!new)>(p: Parents<N>, done: seq<N>, children: map<N, seq<N>>, x: N)
    requires Linked(p, done, children) && x !in done && x in p
    ensures Linked(p, done + [x], children[p[x] := ChildrenAt(children, p[x]) + [x]])
  {
    var children' := children[p[x] := ChildrenAt(children, p[x]) + [x]];
    forall id ensures ChildrenAt(children', id) == ChildrenAt(children, id) + (if id == p[x] then [x] else [])
      ensures Distinct(ChildrenAt(children', id))
    {
      assert Distinct(ChildrenAt(children, id));
    }
  }

  lemma LinkRoot<N(!new)>(p: Parents<N>, done: seq<N>, children: map<N, seq<N>>, x: N)
    requires Linked(p, done, children) && x !in p
    ensures Linked(p, done + [x], children)
  {
  }

  function SumSeq<N(==, !new)>(direct: map<N, int>, s: seq<N>): int {
    if s == [] then 0 else SumSeq(direct, s[..|s| - 1]) + Count(direct, s[|s| - 1])
  }

  /** The first `i` roots are rolled up. */
  ghost predicate RootsDone<N(!new)>(total: map<N, int>, direct: map<N, int>, p: Parents<N>, nodes: set<N>,
                            roots: seq<N>, i: nat)
    requires i <= |roots|
  {
    && Filled(map[], total, direct, p, nodes, Below(p, nodes, roots[..i]))
    && SumSeq(total, roots[..i]) == SumOver(direct, Below(p, nodes, roots[..i]))
  }

  lemma RootsDoneStep<N(!new)>(before: map<N, int>, after: map<N, int>, direct: map<N, int>,
                      p: Parents<N>, nodes: set<N>, roots: seq<N>, i: nat)
    requires Acyclic(p) && Distinct(roots) && i < |roots|
    requires forall x :: x in roots <==> x in nodes && x !in p
    requires RootsDone(before, direct, p, nodes, roots, i)
    requires Filled(before, after, direct, p, nodes, Subtree(p, nodes, roots[i]))
    ensures RootsDone(after, direct, p, nodes, roots, i + 1)
  {
    NextRoot(p, nodes, roots, i);
    SumUnion(direct, Below(p, nodes, roots[..i]), Subtree(p, nodes, roots[i]));
    FilledBoth(map[], before, after, direct, p, nodes, Below(p, nodes, roots[..i]), Subtree(p, nodes, roots[i]));
    forall j | 0 <= j < i ensures roots[j] in before && roots[j] !in Subtree(p, nodes, roots[i]) {
      assert roots[j] in roots && roots[j] in roots[..i];
      ReachesStep(p, roots[j], roots[j]);
      assert roots[j] in Below(p, nodes, roots[..i]);
    }
    RootTotals(p, nodes, before, after, roots, i);
  }

  lemma NextRoot<N(!new)>(p: Parents<N>, nodes: set<N>, roots: seq<N>, i: nat)
    requires Acyclic(p) && Distinct(roots) && i < |roots|
    requires forall x :: x in roots <==> x in nodes && x !in p
    ensures roots[i] in nodes && roots[i] in Subtree(p, nodes, roots[i])
    ensures Below(p, nodes, roots[..i + 1]) == Below(p, nodes, roots[..i]) + Subtree(p, nodes, roots[i])
    ensures Below(p, nodes, roots[..i]) !! Subtree(p, nodes, roots[i])
  {
    assert roots[i] in roots;
    BelowSnoc(p, nodes, roots, i);
    ReachesStep(p, roots[i], roots[i]);
  }

  lemma RootTotals<N(!new)>(p: Parents<N>, nodes: set<N>, before: map<N, int>, after: map<N, int>, roots: seq<N>,
                            i: nat)
    requires i < |roots| && Distinct(roots)
    requires forall x :: x in before && x !in Subtree(p, nodes, roots[i]) ==> x in after && after[x] == before[x]
    requires forall j :: 0 <= j < i ==> roots[j] in before && roots[j] !in Subtree(p, nodes, roots[i])
    ensures SumSeq(after, roots[..i + 1]) == SumSeq(before, roots[..i]) + Count(after, roots[i])
  {
    assert roots[..i + 1][..i] == roots[..i];
    SameTotals(before, after, roots[..i]);
  }

  lemma {:induction false} SameTotals<N(!new)>(before: map<N, int>, after: map<N, int>, s: seq<N>)
    requires forall x :: x in s ==> Count(after, x) == Count(before, x)
    ensures SumSeq(after, s) == SumSeq(before, s)
  {
    if s != [] {
      SameTotals(before, after, s[..|s| - 1]);
    }
  }

  /** Summing the counts over an enumeration is summing over the set. */
  lemma {:induction false} SumOfEnumeration<N(!new)>(direct: map<N, int>, s: seq<N>)
    requires Distinct(s)
    ensures SumSeq(direct, s) == SumOver(direct, set x | x in s)
  {
    if s != [] {
      var init, last := s[..|s| - 1], s[|s| - 1];
      SumOfEnumeration(direct, init);
      assert s == init + [last] && last !in init;
      var all, rest := (set x | x in s), (set x | x in init);
      assert all - {last} == rest;
      SumRemove(direct, all, last);
    }
  }

  // ----- Breadth-first search -----

  /** The nodes below `root`, itself included, in breadth-first order.  The walk goes through
      dead nodes; only live ones are returned, each once. */
  method BreadthFirst<N(==, !new)>(children: map<N, seq<N>>, live: map<N, bool>, root: N, ghost p: Parents<N>,
                                   ghost ids: set<N>)
    returns (out: seq<N>)
    requires forall id, c :: c in ChildrenAt(children, id) <==> c in p && p[c] == id
    requires p.Keys <= ids && root in ids
    ensures Distinct(out) && forall x :: x in out <==> Reaches(p, x, root) && x in live && live[x]
  {
    out := [];
    var visited: set<N> := {};
    var queue := [root];
    ReachesStep(p, root, root);
    while queue != []
      invariant visited <= ids && (forall x :: x in queue ==> x in ids)
      invariant forall x :: x in visited || x in queue ==> Reaches(p, x, root)
      invariant root in visited || root in queue
      invariant forall c :: c in p && p[c] in visited ==> c in visited || c in queue
      invariant Distinct(out)
      invariant forall x :: x in out <==> x in visited && x in live && live[x]
      decreases ids - visited, |queue|
    {
      var current := queue[0];
      var rest := queue[1..];
      assert forall x :: x in queue <==> x == current || x in rest;
      if current in visited {
        queue := rest;
      } else {
        forall c | c in ChildrenAt(children, current) ensures Reaches(p, c, root) && c in ids {
          ReachesStep(p, c, root);
        }
        visited := visited + {current};
        if current in live && live[current] {
          out := out + [current];
        }
        queue := rest + ChildrenAt(children, current);
      }
    }
    forall x ensures x in visited <==> Reaches(p, x, root) {
      VisitedIsBelow(p, visited, root, x);
    }
  }

  // ----- Linking nodes -----

  /** Hang every node under its parent, or among the roots if that is not among the nodes. */
  method LinkNodes<N(==, !new)>(order: seq<N>, up: N -> Option<N>, ghost p: Parents<N>, ghost nodes: set<N>)
    returns (children: map<N, seq<N>>, roots: seq<N>)
    requires Enumerates(order, nodes)
    requires forall x :: x in nodes ==>
               (x in p <==> up(x).Some? && up(x).value in nodes) && (x in p ==> up(x) == Some(p[x]))
    ensures ListsChildren(p, nodes, children)
    ensures Distinct(roots) && forall x :: x in roots <==> x in nodes && x !in p
  {
    children, roots := map[], [];
    for i := 0 to |order|
      invariant Linked(p, order[..i], children)
      invariant Distinct(roots)
      invariant forall x :: x in roots <==> x in order[..i] && x !in p
    {
      var x := order[i];
      var parent := up(x);
      assert order[..i + 1] == order[..i] + [x];
      assert x !in order[..i] && x in nodes;
      if parent.None? || parent.value !in order {
        LinkRoot(p, order[..i], children, x);
        roots := roots + [x];
      } else {
        LinkOne(p, order[..i], children, x);
        children := children[parent.value := ChildrenAt(children, parent.value) + [x]];
      }
    }
    assert order[..|order|] == order;
  }
}
