/** The location forest over every run: parent edges, tombstones included, stay acyclic, and a
    live location's parent stays live. */
module LocationRuns {
  import opened Wire
  import opened Forest
  import opened Database
  import opened Push
  import opened Runs

  function ParentOf(rows: map<Key, Row>, id: string): string {
    if Key(Location, id) in rows then Text(rows[Key(Location, id)].vals, ParentId) else ""
  }

  /** Parents exist, live locations have live parents, and nothing is its own ancestor. */
  ghost predicate Grounded(rows: map<Key, Row>, id: string) {
    var parent := ParentOf(rows, id);
    parent != "" ==>
      && Key(Location, parent) in rows
      && (rows[Key(Location, id)].live ==> rows[Key(Location, parent)].live)
  }

  ghost predicate ForestRows(rows: map<Key, Row>) {
    && Acyclic(ParentsOf(rows))
    && forall id :: Grounded(rows, id)
  }

  /** The location rows of `rows'` differ from those of `rows` in no placement and no tombstone. */
  ghost predicate SameLocations(rows: map<Key, Row>, rows': map<Key, Row>) {
    forall id ::
      var key := Key(Location, id);
      && (key in rows <==> key in rows')
      && (key in rows ==> rows'[key].live == rows[key].live && ParentOf(rows', id) == ParentOf(rows, id))
  }

  lemma ParentsEqual(rows: map<Key, Row>, rows': map<Key, Row>)
    requires forall id :: ParentOf(rows, id) == ParentOf(rows', id)
    ensures ParentsOf(rows) == ParentsOf(rows')
  {
    forall id ensures id in ParentsOf(rows) <==> id in ParentsOf(rows')
      ensures id in ParentsOf(rows) ==> ParentsOf(rows)[id] == ParentsOf(rows')[id]
    {
      assert ParentOf(rows, id) == ParentOf(rows', id);
      ParentsOfAt(rows, id);
      ParentsOfAt(rows', id);
    }
  }

  lemma SameForest(rows: map<Key, Row>, rows': map<Key, Row>)
    requires ForestRows(rows) && SameLocations(rows, rows')
    ensures ForestRows(rows')
  {
    ParentsEqual(rows, rows');
    forall id ensures Grounded(rows', id) {
      assert Grounded(rows, id);
      var parent := ParentOf(rows, id);
      assert Key(Location, parent) in rows <==> Key(Location, parent) in rows';
    }
  }

  /** A walk from one existing location cannot arrive at an id that is no row. */
  lemma NoWayToMissing(rows: map<Key, Row>, from: string, id: string)
    requires ForestRows(rows) && Key(Location, id) !in rows && from != id
    ensures !Reaches(ParentsOf(rows), from, id)
  {
    var p := ParentsOf(rows);
    forall n: nat ensures Walk(p, from, n) != At(id) {
      if n != 0 && Walk(p, from, n - 1).At? {
        var y := Walk(p, from, n - 1).id;
        ParentsOfAt(rows, y);
        assert Grounded(rows, y);
      }
    }
  }

  /** Writing one location row with an accepted parent. */
  lemma PlaceForest(rows: map<Key, Row>, id: string, row: Row)
    requires ForestRows(rows) && id != "" && row.live
    requires Key(Location, id) in rows ==> rows[Key(Location, id)].live
    requires var to := Text(row.vals, ParentId);
             to != "" ==>
               && Key(Location, to) in rows && rows[Key(Location, to)].live
               && (Key(Location, id) in rows ==> !Reaches(ParentsOf(rows), to, id))
    ensures ForestRows(rows[Key(Location, id) := row])
  {
    var key := Key(Location, id);
    var rows' := rows[key := row];
    var p, q, to := ParentsOf(rows), ParentsOf(rows'), Text(row.vals, ParentId);
    forall x ensures (x != id ==> (x in q <==> x in p)) && (x != id && x in q ==> q[x] == p[x])
      ensures x == id ==> (x in q <==> to != "") && (x in q ==> q[x] == to)
    {
      ParentsOfAt(rows, x);
      ParentsOfAt(rows', x);
    }
    if to != "" && key !in rows {
      NoWayToMissing(rows, to, id);
    }
    RedirectAcyclic(p, q, {id}, to);
    forall x ensures Grounded(rows', x) {
      assert Grounded(rows, x);
    }
  }

  /** Deleting a location, with everything it held moved away. */
  lemma RemovalForest(db: Db, id: string, reassign: bool, to: string)
    requires Sound(db) && ForestRows(db.rows)
    ensures ForestRows(StepRemoveLocation(db, id, reassign, to).rows)
  {
    if RemovalAccepted(db, id, reassign, to) {
      var rows, rows' := db.rows, StepRemoveLocation(db, id, reassign, to).rows;
      var p, q := ParentsOf(rows), ParentsOf(rows');
      var moved := set key | key in Held(db, id) && key.kind.Location? :: key.id;
      forall x ensures x in moved <==> Key(Location, x) in rows && HeldBy(rows[Key(Location, x)], Location, id) {
        if Key(Location, x) in rows && HeldBy(rows[Key(Location, x)], Location, id) {
          assert Key(Location, x) in Held(db, id);
        }
      }
      NotOwnParent(rows, id);
      forall x ensures ParentOf(rows', x) == if x in moved then to else ParentOf(rows, x)
        ensures x !in moved ==> (x in q <==> x in p) && (x in q ==> q[x] == p[x])
        ensures x in moved ==> (x in q <==> to != "") && (x in q ==> q[x] == to)
      {
        ParentsOfAt(rows, x);
        ParentsOfAt(rows', x);
        MovedParent(db, id, to, x);
      }
      if to != "" {
        forall y | y in moved ensures !Reaches(p, to, y) {
          ParentsOfAt(rows, y);
          ReachesStep(p, id, id);
          ReachesStep(p, y, id);
          if Reaches(p, to, y) {
            ReachesTransitive(p, to, y, id);
          }
        }
      }
      RedirectAcyclic(p, q, moved, to);
      forall x ensures Grounded(rows', x) {
        assert Grounded(rows, x);
        RemovedGrounded(db, id, reassign, to, x);
      }
    }
  }

  lemma NotOwnParent(rows: map<Key, Row>, id: string)
    requires ForestRows(rows) && id != ""
    ensures ParentOf(rows, id) != id
  {
    var p := ParentsOf(rows);
    ParentsOfAt(rows, id);
    assert Walk(p, id, 0) == At(id);
    assert id in p ==> Walk(p, id, 1) == At(p[id]);
  }

  lemma MovedParent(db: Db, id: string, to: string, x: string)
    requires Sound(db) && ForestRows(db.rows) && id != ""
    requires ParentOf(db.rows, id) != id
    ensures var rows' := map key | key in db.rows :: Relocated(db.rows[key], key, id, to, db.counter + 1);
            ParentOf(rows', x) ==
            if Key(Location, x) in db.rows && HeldBy(db.rows[Key(Location, x)], Location, id) then to
            else ParentOf(db.rows, x)
  {
  }

  lemma RemovedGrounded(db: Db, id: string, reassign: bool, to: string, x: string)
    requires Sound(db) && RemovalAccepted(db, id, reassign, to) && Grounded(db.rows, x)
    requires ParentOf(db.rows, id) != id
    ensures Grounded(StepRemoveLocation(db, id, reassign, to).rows, x)
  {
    var rows := db.rows;
    var key := Key(Location, x);
    var parent := ParentOf(rows, x);
    if key in rows && HeldBy(rows[key], Location, id) {
      assert to == id ==> Reaches(ParentsOf(rows), to, id) by { ReachesStep(ParentsOf(rows), id, id); }
      assert key in Held(db, id);
    }
  }

  /** Inserts into and updates of other tables leave the forest alone; those of locations pass
      the parent and cycle checks first. */
  lemma WriteForest(db: Db, key: Key, row: Row)
    requires ForestRows(db.rows) && key.id != ""
    requires key.kind.Location? ==>
      && row.live && (key in db.rows ==> db.rows[key].live)
      && var to := Text(row.vals, ParentId);
         to != "" ==> Live(db, Key(Location, to)) && (key in db.rows ==> !Reaches(ParentsOf(db.rows), to, key.id))
    ensures ForestRows(db.rows[key := row])
  {
    if key.kind.Location? {
      PlaceForest(db.rows, key.id, row);
    } else {
      SameForest(db.rows, db.rows[key := row]);
    }
  }

  lemma {:induction false} CreateItemLocations(db: Db, m: Mutation, vals: map<Field, Val>, attempt: nat)
    requires m.target == Table(Item)
    ensures var h := CreateItem(db, m, vals, attempt); h.Done? ==> SameLocations(db.rows, h.db.rows)
    decreases MAX_CODE_ATTEMPTS - attempt
  {
    if attempt < MAX_CODE_ATTEMPTS && CodeTaken(db, m.Code(attempt)) {
      CreateItemLocations(db.(counter := db.counter + 1), m, vals, attempt + 1);
    }
  }

  lemma AdjustForest(db: Db, id: string, item: string, delta: int, reason: string, note: string)
    requires ForestRows(db.rows) && Key(Item, item) in db.rows && IsInt64(delta)
    ensures ForestRows(Adjust(db, id, item, delta, reason, note).rows)
  {
    SameForest(db.rows, Adjust(db, id, item, delta, reason, note).rows);
  }

  lemma PushForest(db: Db, m: Mutation)
    requires Sound(db) && ForestRows(db.rows)
    ensures ForestRows(Apply(db, m).db.rows)
  {
    if Invalid(m).None? && m.id !in db.ledger && m.op.Upsert? && m.target.Table? {
      HandleForest(db, m);
    }
  }

  lemma HandleForest(db: Db, m: Mutation)
    requires Sound(db) && ForestRows(db.rows) && m.op.Upsert? && m.target.Table? && m.entityId != "" && 0 <= m.base
    ensures Handle(db, m).Done? ==> ForestRows(Handle(db, m).db.rows)
  {
    if m.target.kind.Stock? {
      PushStockForest(db, m);
    } else if m.base == 0 {
      PushCreateForest(db, m);
    } else {
      PushUpdateForest(db, m);
    }
  }

  lemma PushStockForest(db: Db, m: Mutation)
    requires ForestRows(db.rows) && m.target == Table(Stock)
    ensures PushStock(db, m).Done? ==> ForestRows(PushStock(db, m).db.rows)
  {
    if PushStock(db, m).Done? && PushStock(db, m).outcome.applied {
      var vals := CreatedVals(m, Stock);
      AdjustForest(db, m.entityId, Owner(m), Number64(vals, Delta), Text(vals, Reason), Text(vals, Note));
    }
  }

  lemma PushCreateForest(db: Db, m: Mutation)
    requires ForestRows(db.rows) && m.target.Table? && !m.target.kind.Stock? && m.entityId != ""
    ensures var h := PushCreate(db, m, Owner(m)); h.Done? ==> ForestRows(h.db.rows)
  {
    var k := m.target.kind;
    if m.TheKey() !in db.rows && Decodable(m, Columns(k)) {
      var vals := CreatedVals(m, k);
      if k.Item? {
        ItemCreateForest(db, m, vals);
      } else if CreateGuard(db, k, Owner(m), vals) == [] {
        InsertForest(db, m.TheKey(), Owner(m), vals, "");
      }
    }
  }

  lemma ItemCreateForest(db: Db, m: Mutation, vals: map<Field, Val>)
    requires ForestRows(db.rows) && m.target == Table(Item)
    ensures var h := CreateItem(db, m, vals, 0); h.Done? ==> ForestRows(h.db.rows)
  {
    CreateItemLocations(db, m, vals, 0);
    var h := CreateItem(db, m, vals, 0);
    if h.Done? {
      SameForest(db.rows, h.db.rows);
    }
  }

  lemma InsertForest(db: Db, key: Key, owner: string, vals: map<Field, Val>, code: string)
    requires ForestRows(db.rows) && key.id != "" && key !in db.rows
    requires key.kind.Location? && Text(vals, ParentId) != "" ==> Live(db, Key(Location, Text(vals, ParentId)))
    ensures ForestRows(Insert(db, key, owner, vals, code).rows)
  {
    WriteForest(db, key, Insert(db, key, owner, vals, code).rows[key]);
  }

  lemma PushUpdateForest(db: Db, m: Mutation)
    requires Sound(db) && ForestRows(db.rows) && m.target.Table? && !m.target.kind.Stock? && m.entityId != ""
    ensures var h := PushUpdate(db, m, Owner(m)); h.Done? ==> ForestRows(h.db.rows)
  {
    var h := PushUpdate(db, m, Owner(m));
    if h.Done? && h.outcome.applied {
      WriteForest(db, m.TheKey(), h.db.rows[m.TheKey()]);
    }
  }

  lemma TombstoneForest(db: Db, keys: set<Key>)
    requires ForestRows(db.rows) && forall key :: key in keys ==> !key.kind.Location?
    ensures ForestRows(Tombstone(db, keys).rows)
  {
    SameForest(db.rows, Tombstone(db, keys).rows);
  }

  lemma StepRemoveForest(db: Db, e: Event)
    requires ForestRows(db.rows) && e.Remove?
    ensures ForestRows(Step(db, e).rows)
  {
    if !e.kind.Location? {
      TombstoneForest(db, {Key(e.kind, e.id)} + if e.kind.Item? then SatellitesOf(db, e.id) else {});
    }
  }

  lemma StepCreateForest(db: Db, e: Event)
    requires ForestRows(db.rows) && e.Create?
    ensures ForestRows(Step(db, e).rows)
  {
    if e.id != "" && Key(e.kind, e.id) !in db.rows && CreateGuard(db, e.kind, e.owner, e.vals) == [] {
      InsertForest(db, Key(e.kind, e.id), e.owner, e.vals, if e.kind.Item? then e.code else "");
    }
  }

  lemma StepEditForest(db: Db, e: Event)
    requires Sound(db) && ForestRows(db.rows) && e.Edit?
    ensures ForestRows(Step(db, e).rows)
  {
    var key := Key(e.kind, e.id);
    if Live(db, key) && UpdateGuard(db, e.kind, e.id, e.vals) == [] {
      assert SoundAt(db, key);
      WriteForest(db, key, Update(db, key, e.vals).rows[key]);
    }
  }

  lemma StepImportForest(db: Db, e: Event)
    requires Sound(db) && ForestRows(db.rows) && e.ImportCore?
    ensures ForestRows(Step(db, e).rows)
  {
    var key := Key(Item, e.id);
    if Live(db, key) {
      assert SoundAt(db, key);
      WriteForest(db, key, Update(db, key, e.vals).rows[key]);
    }
  }

  lemma StepAdjustForest(db: Db, e: Event)
    requires ForestRows(db.rows) && e.AdjustStock?
    ensures ForestRows(Step(db, e).rows)
  {
    AdjustStepForest(db, e.id, e.item, e.delta, e.reason, e.note);
  }

  lemma AdjustStepForest(db: Db, id: string, item: string, delta: int, reason: string, note: string)
    requires ForestRows(db.rows)
    ensures ForestRows(StepAdjust(db, id, item, delta, reason, note).rows)
  {
    if IsInt64(delta) && Live(db, Key(Item, item)) {
      AdjustForest(db, id, item, delta, reason, note);
    }
  }

  /** Every step keeps the forest. */
  lemma StepForest(db: Db, e: Event)
    requires Sound(db) && ForestRows(db.rows)
    ensures ForestRows(Step(db, e).rows)
  {
    match e
    case Create(_, _, _, _, _) => StepCreateForest(db, e);
    case Edit(_, _, _, _, _) => StepEditForest(db, e);
    case Remove(_, _, _) => StepRemoveForest(db, e);
    case RemoveLocation(id, reassign, to) => RemovalForest(db, id, reassign, to);
    case AdjustStock(_, _, _, _, _) => StepAdjustForest(db, e);
    case ImportCore(_, _) => StepImportForest(db, e);
    case PushOne(m) => PushForest(db, m);
  }

  lemma EmptyForest(defs: set<string>)
    ensures Sound(Empty(defs)) && ForestRows(Empty(defs).rows)
  {
    var p: Parents<string> := map[];
    forall x, n: nat | 0 < n ensures Walk(p, x, n) != At(x) {
      assert Walk(p, x, 1).Off? by { assert Walk(p, x, 0) == At(x); }
      WalkOff(p, x, 1, n);
    }
    assert ParentsOf(map[]) == p;
  }

  lemma ForestNext(ts: seq<Db>, es: seq<Event>, i: nat)
    requires |ts| == |es| + 1 && i < |es| && ts[i + 1] == Step(ts[i], es[i])
    requires Sound(ts[i]) && ForestRows(ts[i].rows)
    ensures ForestRows(ts[i + 1].rows)
  {
    StepForest(ts[i], es[i]);
  }

  /** From a forest on, every state of a run is one. */
  lemma ForestKept(ts: seq<Db>, es: seq<Event>, n: nat)
    requires IsRun(ts, es) && Sound(ts[0]) && ForestRows(ts[0].rows) && n <= |es|
    ensures Sound(ts[n]) && ForestRows(ts[n].rows)
  {
    RunAdvances(ts, es);
    var i := 0;
    while i < n
      invariant 0 <= i <= n && ForestRows(ts[i].rows)
    {
      ForestNext(ts, es, i);
      i := i + 1;
    }
  }

  /** In every state of every run of a group the parent edges are acyclic, every parent exists,
      and every live location's parent is live. */
  lemma RunForest(ts: seq<Db>, es: seq<Event>, defs: set<string>, n: nat)
    requires IsRun(ts, es) && ts[0] == Empty(defs) && n <= |es|
    ensures Sound(ts[n]) && ForestRows(ts[n].rows)
  {
    EmptyForest(defs);
    ForestKept(ts, es, n);
  }
}
