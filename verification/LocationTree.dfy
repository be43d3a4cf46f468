/** The two readers of the location forest: breadth-first `Descendants` and the tree with
    rolled-up item counts, and their agreement. */
module LocationTree {
  import opened Wire
  import opened Sequences
  import opened Rollup
  import opened Database
  import opened Runs
  import opened LocationRuns

  /** A location row as the parent-edge query returns it; an empty parent means none. */
  datatype Edge = Edge(id: string, parent: string, live: bool)

  /** `edges` lists every location row once. */
  ghost predicate EdgesOf(rows: map<Key, Row>, edges: seq<Edge>) {
    && (forall i :: 0 <= i < |edges| ==>
          var key := Key(Location, edges[i].id);
          key in rows && edges[i].parent == ParentOf(rows, edges[i].id) && edges[i].live == rows[key].live)
    && (forall id :: Key(Location, id) in rows ==> exists i :: 0 <= i < |edges| && edges[i].id == id)
    && (forall i, j :: 0 <= i < j < |edges| ==> edges[i].id != edges[j].id)
  }

  /** Index edges by parent. */
  method GroupByParent(edges: seq<Edge>) returns (children: map<string, seq<string>>, live: map<string, bool>)
    requires forall i, j :: 0 <= i < j < |edges| ==> edges[i].id != edges[j].id
    ensures forall id, c :: c in ChildrenAt(children, id) <==>
              exists i :: 0 <= i < |edges| && edges[i].id == c && edges[i].parent == id && id != ""
    ensures forall id :: Distinct(ChildrenAt(children, id))
    ensures forall id :: id in live && live[id] <==> exists i :: 0 <= i < |edges| && edges[i].id == id && edges[i].live
  {
    children, live := map[], map[];
    for k := 0 to |edges|
      invariant forall id, c :: c in ChildrenAt(children, id) <==>
                  exists i :: 0 <= i < k && edges[i].id == c && edges[i].parent == id && id != ""
      invariant forall id :: Distinct(ChildrenAt(children, id))
      invariant forall id :: id in live <==> exists i :: 0 <= i < k && edges[i].id == id
      invariant forall i :: 0 <= i < k ==> edges[i].id in live && live[edges[i].id] == edges[i].live
    {
      var e := edges[k];
      live := live[e.id := e.live];
      if e.parent != "" {
        ghost var before := children;
        assert e.id !in ChildrenAt(before, e.parent);
        assert Distinct(ChildrenAt(before, e.parent));
        children := children[e.parent := ChildrenAt(children, e.parent) + [e.id]];
        assert forall id :: id != e.parent ==> ChildrenAt(children, id) == ChildrenAt(before, id);
        assert ChildrenAt(children, e.parent) == ChildrenAt(before, e.parent) + [e.id];
      }
    }
  }

  // ----- Breadth-first descendants -----

  lemma LocationIdsAt(rows: map<Key, Row>, id: string)
    ensures id in LocationIds(rows) <==> Key(Location, id) in rows
  {
    if Key(Location, id) in rows {
      assert Key(Location, id).id in LocationIds(rows);
    }
  }

  ghost function LiveLocations(rows: map<Key, Row>): set<string> {
    set id | id in LocationIds(rows) && Key(Location, id) in rows && rows[Key(Location, id)].live
  }

  /** The live ids below a location, itself included if it is live, each once. */
  method Descendants(rows: map<Key, Row>, edges: seq<Edge>, root: string) returns (out: seq<string>)
    requires EdgesOf(rows, edges)
    ensures Distinct(out)
    ensures (set x | x in out) == Subtree(ParentsOf(rows), LiveLocations(rows), root)
  {
    ghost var p, ids := ParentsOf(rows), LocationIds(rows) + {root};
    var children, live := GroupByParent(edges);
    ChildrenAreEdges(rows, edges, children);
    LiveMapExact(rows, edges, live);
    forall c | c in p ensures c in ids {
      ParentsOfAt(rows, c);
      LocationIdsAt(rows, c);
    }
    out := BreadthFirst(children, live, root, p, ids);
    assert forall x :: x in out <==> x in Subtree(p, LiveLocations(rows), root);
  }

  lemma ChildrenAreEdges(rows: map<Key, Row>, edges: seq<Edge>, children: map<string, seq<string>>)
    requires EdgesOf(rows, edges)
    requires forall id, c :: c in ChildrenAt(children, id) <==>
               exists i :: 0 <= i < |edges| && edges[i].id == c && edges[i].parent == id && id != ""
    ensures forall id, c :: c in ChildrenAt(children, id) <==> c in ParentsOf(rows) && ParentsOf(rows)[c] == id
  {
    forall id, c ensures c in ChildrenAt(children, id) <==> c in ParentsOf(rows) && ParentsOf(rows)[c] == id {
      ParentsOfAt(rows, c);
      if c in ParentsOf(rows) && ParentsOf(rows)[c] == id {
        var i :| 0 <= i < |edges| && edges[i].id == c;
        assert edges[i].parent == id;
      }
    }
  }

  lemma LiveMapExact(rows: map<Key, Row>, edges: seq<Edge>, live: map<string, bool>)
    requires EdgesOf(rows, edges)
    requires forall id :: id in live && live[id] <==> exists i :: 0 <= i < |edges| && edges[i].id == id && edges[i].live
    ensures forall id :: id in live && live[id] <==> id in LiveLocations(rows)
  {
    forall id ensures id in live && live[id] <==> id in LiveLocations(rows) {
      LocationIdsAt(rows, id);
      if id in LiveLocations(rows) {
        var i :| 0 <= i < |edges| && edges[i].id == id;
        assert edges[i].live;
      }
    }
  }

  // ----- The tree with rolled-up counts -----

  lemma LiveIsClosed(rows: map<Key, Row>)
    requires ForestRows(rows)
    ensures ParentClosed(ParentsOf(rows), LiveLocations(rows))
  {
    var p, nodes := ParentsOf(rows), LiveLocations(rows);
    forall x | x in nodes && x in p ensures p[x] in nodes {
      ParentsOfAt(rows, x);
      assert Grounded(rows, x);
      LocationIdsAt(rows, p[x]);
    }
  }

  function Up(rows: map<Key, Row>, x: string): Option<string> {
    if ParentOf(rows, x) == "" then None else Some(ParentOf(rows, x))
  }

  /** A live location with a parent finds it among the live ones. */
  lemma LiveParentListed(rows: map<Key, Row>, order: seq<string>, x: string)
    requires ForestRows(rows) && Enumerates(order, LiveLocations(rows)) && x in LiveLocations(rows)
    ensures x in ParentsOf(rows) <==> ParentOf(rows, x) != "" && ParentOf(rows, x) in order
    ensures x in ParentsOf(rows) ==> ParentsOf(rows)[x] == ParentOf(rows, x)
  {
    LiveIsClosed(rows);
    ParentsOfAt(rows, x);
  }

  method Link(rows: map<Key, Row>, order: seq<string>) returns (children: map<string, seq<string>>, roots: seq<string>)
    requires ForestRows(rows) && Enumerates(order, LiveLocations(rows))
    ensures ListsChildren(ParentsOf(rows), LiveLocations(rows), children)
    ensures Distinct(roots) && forall x :: x in roots <==> x in LiveLocations(rows) && x !in ParentsOf(rows)
  {
    ghost var p, nodes := ParentsOf(rows), LiveLocations(rows);
    forall x | x in nodes
      ensures (x in p <==> Up(rows, x).Some? && Up(rows, x).value in nodes) && (x in p ==> Up(rows, x) == Some(p[x]))
    {
      LiveParentListed(rows, order, x);
    }
    children, roots := LinkNodes(order, x => Up(rows, x), p, nodes);
  }

  /** The whole tree: every live location is a root or the child of one live parent, every node
      carries the sum over its subtree, and the root totals add up to the sum over all live
      locations. */
  method BuildTree(rows: map<Key, Row>, order: seq<string>, direct: map<string, int>)
    returns (tree: Tree<string>, roots: seq<string>)
    requires ForestRows(rows) && Enumerates(order, LiveLocations(rows))
    ensures fresh(tree)
    ensures ListsChildren(ParentsOf(rows), LiveLocations(rows), tree.children)
    ensures Distinct(roots) && forall x :: x in roots <==> x in LiveLocations(rows) && x !in ParentsOf(rows)
    ensures tree.total.Keys == LiveLocations(rows)
    ensures forall x :: x in tree.total ==>
              tree.total[x] == SumOver(direct, Subtree(ParentsOf(rows), LiveLocations(rows), x))
    ensures SumSeq(tree.total, roots) == SumOver(direct, LiveLocations(rows))
  {
    ghost var p, nodes := ParentsOf(rows), LiveLocations(rows);
    LiveIsClosed(rows);
    var children;
    children, roots := Link(rows, order);
    tree := new Tree(direct, children);
    tree.RollUpRoots(roots, p, nodes);
    RootsCover(p, nodes, roots);
    assert roots[..|roots|] == roots;
  }

  /** The two algorithms agree: the total that the tree carries at a node, the sum over its
      subtree, is the sum over what the downward search returns for it. */
  method TotalsAgree(rows: map<Key, Row>, edges: seq<Edge>, order: seq<string>, direct: map<string, int>, node: string)
    returns (total: int, below: seq<string>)
    requires ForestRows(rows) && EdgesOf(rows, edges) && Enumerates(order, LiveLocations(rows))
    requires node in LiveLocations(rows)
    ensures Distinct(below) && (set x | x in below) == Subtree(ParentsOf(rows), LiveLocations(rows), node)
    ensures total == SumOver(direct, Subtree(ParentsOf(rows), LiveLocations(rows), node)) == SumSeq(direct, below)
  {
    var tree, _ := BuildTree(rows, order, direct);
    below := Descendants(rows, edges, node);
    SumOfEnumeration(direct, below);
    total := tree.total[node];
  }

  // ----- What the counts count -----

  ghost function ItemsAt(rows: map<Key, Row>, s: set<string>): set<Key> {
    set key | key in rows && key.kind.Item? && rows[key].live && Text(rows[key].vals, LocationId) in s
  }

  /** Direct counts as the grouped query returns them. */
  ghost predicate CountsItems(rows: map<Key, Row>, direct: map<string, int>) {
    forall id :: id != "" ==> Count(direct, id) == |ItemsAt(rows, {id})|
  }

  /** Summed over any set of locations, the direct counts are the number of live items there; so
      the root totals add up to the live items held by live locations. */
  lemma {:induction false} SumCountsItems(rows: map<Key, Row>, direct: map<string, int>, s: set<string>)
    requires CountsItems(rows, direct) && "" !in s
    ensures SumOver(direct, s) == |ItemsAt(rows, s)|
    decreases s
  {
    if s == {} {
      assert ItemsAt(rows, s) == {};
    } else {
      var x :| x in s;
      SumRemove(direct, s, x);
      SumCountsItems(rows, direct, s - {x});
      assert ItemsAt(rows, s) == ItemsAt(rows, {x}) + ItemsAt(rows, s - {x});
      assert ItemsAt(rows, {x}) !! ItemsAt(rows, s - {x});
    }
  }

  /** Locations are never filed under the empty id. */
  lemma NoEmptyLocation(db: Db)
    requires Sound(db)
    ensures "" !in LiveLocations(db.rows)
  {
    assert SoundAt(db, Key(Location, ""));
  }

  /** In every state of every run: each live location appears once and carries the number of live
      items held by the live locations below it, and the root totals add up to the number of live
      items held by live locations. */
  method TreeCountsItems(ghost ts: seq<Db>, ghost es: seq<Event>, ghost defs: set<string>, ghost n: nat,
                         rows: map<Key, Row>, order: seq<string>, direct: map<string, int>)
    returns (tree: Tree<string>, roots: seq<string>)
    requires IsRun(ts, es) && ts[0] == Empty(defs) && n <= |es| && rows == ts[n].rows
    requires Enumerates(order, LiveLocations(rows)) && CountsItems(rows, direct)
    ensures fresh(tree)
    ensures ListsChildren(ParentsOf(rows), LiveLocations(rows), tree.children)
    ensures Distinct(roots) && forall x :: x in roots <==> x in LiveLocations(rows) && x !in ParentsOf(rows)
    ensures tree.total.Keys == LiveLocations(rows)
    ensures forall x :: x in tree.total ==>
              tree.total[x] == |ItemsAt(rows, Subtree(ParentsOf(rows), LiveLocations(rows), x))|
    ensures SumSeq(tree.total, roots) == |ItemsAt(rows, LiveLocations(rows))|
  {
    RunForest(ts, es, defs, n);
    NoEmptyLocation(ts[n]);
    tree, roots := BuildTree(rows, order, direct);
    ghost var p, nodes := ParentsOf(rows), LiveLocations(rows);
    forall x | x in tree.total ensures tree.total[x] == |ItemsAt(rows, Subtree(p, nodes, x))| {
      SumCountsItems(rows, direct, Subtree(p, nodes, x));
    }
    SumCountsItems(rows, direct, nodes);
  }
}
