/** Parent edges of the location tree: walks, acyclicity, the bounded cycle check, and why
    redirecting edges keeps the graph acyclic. */
module Forest {
  /** `parents[x]` is the parent of `x`; roots have no entry. */
  type Parents<N> = map<N, N>

  datatype Node<N> = At(id: N) | Off

  /** Where `n` steps up from `x` lead; `Off` once the walk has left a root. */
  function Walk<N(==, !new)>(p: Parents<N>, x: N, n: nat): Node<N> {
    if n == 0 then At(x) else
    match Walk(p, x, n - 1)
    case Off => Off
    case At(y) => if y in p then At(p[y]) else Off
  }

  /** `y` is `x` or one of its ancestors. */
  ghost predicate Reaches<N(!new)>(p: Parents<N>, x: N, y: N) {
    exists n: nat :: Walk(p, x, n) == At(y)
  }

  ghost predicate Acyclic<N(!new)>(p: Parents<N>) {
    forall x, n: nat :: 0 < n ==> Walk(p, x, n) != At(x)
  }

  lemma {:induction false} WalkCompose<N(!new)>(p: Parents<N>, x: N, m: nat, n: nat)
    ensures Walk(p, x, m + n) ==
            match Walk(p, x, m) case Off => Off case At(y) => Walk(p, y, n)
  {
    if n != 0 {
      WalkCompose(p, x, m, n - 1);
    }
  }

  lemma {:induction false} WalkOff<N(!new)>(p: Parents<N>, x: N, m: nat, n: nat)
    requires m <= n && Walk(p, x, m).Off?
    ensures Walk(p, x, n).Off?
  {
    if m < n {
      WalkOff(p, x, m, n - 1);
    }
  }

  lemma ReachesTransitive<N(!new)>(p: Parents<N>, x: N, y: N, z: N)
    requires Reaches(p, x, y) && Reaches(p, y, z)
    ensures Reaches(p, x, z)
  {
    var m: nat :| Walk(p, x, m) == At(y);
    var n: nat :| Walk(p, y, n) == At(z);
    WalkCompose(p, x, m, n);
  }

  /** Unfolding `Reaches` at its lower end. */
  lemma ReachesStep<N(!new)>(p: Parents<N>, x: N, y: N)
    ensures Reaches(p, x, y) <==> x == y || (x in p && Reaches(p, p[x], y))
  {
    assert Walk(p, x, 0) == At(x);
    if x in p {
      assert Walk(p, x, 1) == At(p[x]) by { assert Walk(p, x, 0) == At(x); }
      if Reaches(p, x, y) && x != y {
        var n: nat :| Walk(p, x, n) == At(y);
        WalkCompose(p, x, 1, n - 1);
      }
      if Reaches(p, p[x], y) {
        var n: nat :| Walk(p, p[x], n) == At(y);
        WalkCompose(p, x, 1, n);
      }
    } else if Reaches(p, x, y) {
      var n: nat :| Walk(p, x, n) == At(y);
      if 0 < n {
        assert Walk(p, x, 1).Off? by { assert Walk(p, x, 0) == At(x); }
        WalkOff(p, x, 1, n);
      }
    }
  }

  lemma ReachesAntisymmetric<N(!new)>(p: Parents<N>, x: N, y: N)
    requires Acyclic(p) && Reaches(p, x, y) && Reaches(p, y, x)
    ensures x == y
  {
    var m: nat :| Walk(p, x, m) == At(y);
    var n: nat :| Walk(p, y, n) == At(x);
    WalkCompose(p, x, m, n);
  }

  /** On an upward walk the ancestors form a chain: of two of them one reaches the other. */
  lemma ReachesChain<N(!new)>(p: Parents<N>, x: N, y: N, z: N)
    requires Reaches(p, x, y) && Reaches(p, x, z)
    ensures Reaches(p, y, z) || Reaches(p, z, y)
  {
    var m: nat :| Walk(p, x, m) == At(y);
    var n: nat :| Walk(p, x, n) == At(z);
    if m <= n {
      WalkCompose(p, x, m, n - m);
    } else {
      WalkCompose(p, x, n, m - n);
    }
  }

  // ----- Termination of the walk -----

  /** The ids a walk has left behind after `n` steps. */
  function Passed<N(==, !new)>(p: Parents<N>, x: N, n: nat): set<N> {
    if n == 0 then {} else
    Passed(p, x, n - 1) + match Walk(p, x, n - 1) case Off => {} case At(y) => {y}
  }

  lemma {:induction false} PassedMembers<N(!new)>(p: Parents<N>, x: N, n: nat, y: N)
    ensures y in Passed(p, x, n) <==> exists i: nat :: i < n && Walk(p, x, i) == At(y)
  {
    if n != 0 {
      PassedMembers(p, x, n - 1, y);
      if y in Passed(p, x, n) && y !in Passed(p, x, n - 1) {
        assert Walk(p, x, n - 1) == At(y);
      }
    }
  }

  /** Pigeonhole: a walk that is still on the graph after `n` steps has passed `n` different
      ids, each of which has a parent. */
  lemma {:induction false} PassedDistinct<N(!new)>(p: Parents<N>, x: N, n: nat)
    requires Acyclic(p) && Walk(p, x, n).At?
    ensures |Passed(p, x, n)| == n && Passed(p, x, n) <= p.Keys
  {
    if n != 0 {
      PassedDistinct(p, x, n - 1);
      var y := Walk(p, x, n - 1).id;
      PassedMembers(p, x, n - 1, y);
      if i: nat :| i < n - 1 && Walk(p, x, i) == At(y) {
        WalkCompose(p, x, i, n - 1 - i);
        assert false;
      }
    }
  }

  lemma SubsetCard<T>(a: set<T>, b: set<T>)
    requires a <= b
    ensures |a| <= |b|
  {
    assert b == a + (b - a);
  }

  /** An acyclic walk stays on the graph for at most one step per edge. */
  lemma WalkBounded<N(!new)>(p: Parents<N>, x: N, n: nat)
    requires Acyclic(p) && Walk(p, x, n).At?
    ensures n <= |p|
  {
    PassedDistinct(p, x, n);
    SubsetCard(Passed(p, x, n), p.Keys);
    assert |p.Keys| == |p|;
  }

  datatype Check = Cycle | NoCycle | DidNotTerminate

  /** The bounded upward walk from the candidate parent.  `edges` is the number of location
      rows, live or tombstoned, whether or not they have a parent. */
  method MoveCreatesCycle<N(==, !new)>(p: Parents<N>, edges: nat, moving: N, candidate: N) returns (r: Check)
    requires |p| <= edges
    ensures Acyclic(p) ==> r == if Reaches(p, candidate, moving) then Cycle else NoCycle
    ensures r.Cycle? ==> Reaches(p, candidate, moving)
    ensures r.NoCycle? ==> !Reaches(p, candidate, moving)
    ensures r.DidNotTerminate? ==> !Acyclic(p)
  {
    var current := candidate;
    var i := 0;
    while i <= edges
      invariant 0 <= i <= edges + 1
      invariant Walk(p, candidate, i) == At(current)
      invariant forall j: nat :: j < i ==> Walk(p, candidate, j) != At(moving)
    {
      if current == moving {
        return Cycle;
      }
      if current !in p {
        assert Walk(p, candidate, i + 1).Off?;
        forall j: nat | i < j ensures Walk(p, candidate, j) != At(moving) {
          WalkOff(p, candidate, i + 1, j);
        }
        return NoCycle;
      }
      current := p[current];
      i := i + 1;
    }
    if Acyclic(p) {
      WalkBounded(p, candidate, i);
      assert false;
    }
    return DidNotTerminate;
  }

  // ----- Redirecting edges -----

  /** `q` is `p` with every node of `moved` pointed at `target`, or made a root when `target`
      is empty. */
  ghost predicate Redirected(p: Parents<string>, q: Parents<string>, moved: set<string>, target: string) {
    && (forall x :: x !in moved ==> (x in q <==> x in p))
    && (forall x :: x !in moved && x in q ==> q[x] == p[x])
    && (forall x :: x in moved ==> (x in q <==> target != ""))
    && (forall x :: x in moved && x in q ==> q[x] == target)
  }

  /** A walk that meets no moved node before step `n` is the same walk in both graphs. */
  lemma {:induction false} SameWalk(p: Parents<string>, q: Parents<string>, moved: set<string>, target: string,
                                    x: string, n: nat)
    requires Redirected(p, q, moved, target)
    requires forall j: nat, y :: j < n && Walk(p, x, j) == At(y) ==> y !in moved
    ensures Walk(q, x, n) == Walk(p, x, n)
  {
    if n != 0 {
      SameWalk(p, q, moved, target, x, n - 1);
    }
  }

  /** Redirecting keeps a forest a forest when the target does not lie below a moved node. */
  lemma RedirectAcyclic(p: Parents<string>, q: Parents<string>, moved: set<string>, target: string)
    requires Acyclic(p) && Redirected(p, q, moved, target)
    requires target != "" ==> forall y :: y in moved ==> !Reaches(p, target, y)
    ensures Acyclic(q)
  {
    forall x, n: nat | 0 < n ensures Walk(q, x, n) != At(x) {
      NoNewCycle(p, q, moved, target, x, n);
    }
  }

  lemma NoNewCycle(p: Parents<string>, q: Parents<string>, moved: set<string>, target: string, x: string, n: nat)
    requires Acyclic(p) && Redirected(p, q, moved, target)
    requires target != "" ==> forall y :: y in moved ==> !Reaches(p, target, y)
    requires 0 < n
    ensures Walk(q, x, n) != At(x)
  {
    if j: nat, y :| j < n && Walk(p, x, j) == At(y) && y in moved {
      FirstMoved(p, q, moved, target, x, j);
      var i: nat, z :| i <= j && Walk(q, x, i) == At(z) && z in moved;
      if Walk(q, x, n) == At(x) {
        // From the moved node z the cycle leads through the target back to z.
        WalkCompose(q, x, n, i);
        WalkCompose(q, x, i, n);
        MovedNotOnCycle(p, q, moved, target, z, n);
      }
    } else {
      SameWalk(p, q, moved, target, x, n);
    }
  }

  lemma MovedNotOnCycle(p: Parents<string>, q: Parents<string>, moved: set<string>, target: string, z: string, n: nat)
    requires Redirected(p, q, moved, target) && z in moved
    requires target != "" ==> forall y :: y in moved ==> !Reaches(p, target, y)
    requires 0 < n
    ensures Walk(q, z, n) != At(z)
  {
    assert Walk(q, z, 0) == At(z);
    WalkCompose(q, z, 1, n - 1);
    if target != "" {
      SameWalk(p, q, moved, target, target, n - 1);
    }
  }

  /** If the old walk meets a moved node by step `j`, the new walk does so too. */
  lemma {:induction false} FirstMoved(p: Parents<string>, q: Parents<string>, moved: set<string>, target: string,
                                      x: string, j: nat)
    requires Redirected(p, q, moved, target)
    requires exists y :: Walk(p, x, j) == At(y) && y in moved
    ensures exists i: nat, z :: i <= j && Walk(q, x, i) == At(z) && z in moved
  {
    if i: nat, y :| i < j && Walk(p, x, i) == At(y) && y in moved {
      FirstMoved(p, q, moved, target, x, i);
    } else {
      SameWalk(p, q, moved, target, x, j);
    }
  }
}
