/** What the tables never hold, over every run: two live labels of one name, two live items with
    one short code, a live satellite of a dead item. */
module Tidy {
  import opened Wire
  import opened Database
  import opened Push
  import opened Runs

  predicate LiveLabel(rows: map<Key, Row>, key: Key, name: string) {
    key in rows && key.kind.Label? && rows[key].live && Text(rows[key].vals, Name) == name
  }

  predicate LiveItem(rows: map<Key, Row>, key: Key, code: string) {
    key in rows && key.kind.Item? && rows[key].live && rows[key].code == code
  }

  predicate LiveSatellite(rows: map<Key, Row>, key: Key) {
    key in rows && (key.kind.Identification? || key.kind.CustomField?) && rows[key].live
  }

  predicate LiveKey(rows: map<Key, Row>, key: Key) { key in rows && rows[key].live }

  ghost predicate TidyRows(rows: map<Key, Row>) {
    && (forall a, b, name :: LiveLabel(rows, a, name) && LiveLabel(rows, b, name) ==> a == b)
    && (forall a, b, code :: LiveItem(rows, a, code) && LiveItem(rows, b, code) ==> a == b)
    && (forall key :: LiveSatellite(rows, key) ==> LiveKey(rows, Key(Item, rows[key].owner)))
  }

  ghost predicate IdsOk(rows: map<Key, Row>) { forall key :: key in rows ==> key.id != "" }

  lemma SoundIds(db: Db)
    requires Sound(db)
    ensures IdsOk(db.rows)
  {
    forall key | key in db.rows ensures key.id != "" {
      assert SoundAt(db, key);
    }
  }

  /** Rows that are live in the new table come from live ones in the old, except one. */
  ghost predicate OneNew(rows: map<Key, Row>, rows': map<Key, Row>, key: Key) {
    forall k :: k != key && LiveKey(rows', k) ==>
      k in rows && rows[k].live && rows'[k].code == rows[k].code && rows'[k].owner == rows[k].owner
      && (k.kind.Label? ==> rows'[k].vals == rows[k].vals)
  }

  /** A row that is written while it passes the checks of its table. */
  lemma WriteTidy(db: Db, rows': map<Key, Row>, key: Key)
    requires TidyRows(db.rows) && IdsOk(db.rows) && OneNew(db.rows, rows', key) && LiveKey(rows', key)
    requires forall k :: LiveKey(db.rows, k) ==> LiveKey(rows', k)
    requires key.kind.Label? ==> !LabelNameTaken(db, Text(rows'[key].vals, Name), if key in db.rows then key.id else "")
    requires key.kind.Item? ==>
               (key in db.rows && db.rows[key].live && rows'[key].code == db.rows[key].code)
                 || !CodeTaken(db, rows'[key].code)
    requires key.kind.Identification? || key.kind.CustomField? ==> LiveKey(db.rows, Key(Item, rows'[key].owner))
    ensures TidyRows(rows')
  {
    forall a, b, name | LiveLabel(rows', a, name) && LiveLabel(rows', b, name) ensures a == b {
      OtherLabel(db, rows', key, a, name);
      OtherLabel(db, rows', key, b, name);
    }
    forall a, b, code | LiveItem(rows', a, code) && LiveItem(rows', b, code) ensures a == b {
      OtherItem(db, rows', key, a, code);
      OtherItem(db, rows', key, b, code);
    }
    forall k | LiveSatellite(rows', k) ensures LiveKey(rows', Key(Item, rows'[k].owner)) {
      if k != key {
        assert LiveKey(rows', k) && LiveSatellite(db.rows, k);
      }
    }
  }

  lemma OtherLabel(db: Db, rows': map<Key, Row>, key: Key, a: Key, name: string)
    requires IdsOk(db.rows) && OneNew(db.rows, rows', key) && LiveKey(rows', key) && LiveLabel(rows', a, name)
    requires key.kind.Label? ==> !LabelNameTaken(db, Text(rows'[key].vals, Name), if key in db.rows then key.id else "")
    ensures a != key ==> LiveLabel(db.rows, a, name) && !LiveLabel(rows', key, name)
  {
    if a != key {
      assert LiveKey(rows', a);
      assert key.kind.Label? && key in db.rows ==> a.id != key.id;
    }
  }

  lemma OtherItem(db: Db, rows': map<Key, Row>, key: Key, a: Key, code: string)
    requires TidyRows(db.rows) && OneNew(db.rows, rows', key) && LiveKey(rows', key) && LiveItem(rows', a, code)
    requires key.kind.Item? ==>
               (key in db.rows && db.rows[key].live && rows'[key].code == db.rows[key].code)
                 || !CodeTaken(db, rows'[key].code)
    ensures a != key ==> LiveItem(db.rows, a, code) && !LiveItem(rows', key, code)
  {
    if a != key {
      assert LiveKey(rows', a) && LiveItem(db.rows, a, code);
      if LiveItem(rows', key, code) && key in db.rows && db.rows[key].live && rows'[key].code == db.rows[key].code {
        assert LiveItem(db.rows, key, code);
      }
    }
  }

  /** Rows die, and satellites with their items. */
  lemma FewerTidy(rows: map<Key, Row>, rows': map<Key, Row>)
    requires TidyRows(rows)
    requires forall k :: LiveKey(rows', k) ==>
               LiveKey(rows, k) && rows'[k].code == rows[k].code && rows'[k].owner == rows[k].owner
                 && (k.kind.Label? ==> rows'[k].vals == rows[k].vals)
    requires forall k :: LiveSatellite(rows', k) && LiveKey(rows, Key(Item, rows'[k].owner)) ==>
               LiveKey(rows', Key(Item, rows'[k].owner))
    ensures TidyRows(rows')
  {
    forall a, b, name | LiveLabel(rows', a, name) && LiveLabel(rows', b, name) ensures a == b {
      assert LiveKey(rows', a) && LiveKey(rows', b);
      assert LiveLabel(rows, a, name) && LiveLabel(rows, b, name);
    }
    forall a, b, code | LiveItem(rows', a, code) && LiveItem(rows', b, code) ensures a == b {
      assert LiveKey(rows', a) && LiveKey(rows', b);
      assert LiveItem(rows, a, code) && LiveItem(rows, b, code);
    }
    forall k | LiveSatellite(rows', k) ensures LiveKey(rows', Key(Item, rows'[k].owner)) {
      assert LiveKey(rows', k) && LiveSatellite(rows, k);
    }
  }

  // ----- Every event -----

  lemma InsertTidy(db: Db, key: Key, owner: string, vals: map<Field, Val>, code: string)
    requires TidyRows(db.rows) && IdsOk(db.rows) && key !in db.rows && CreateGuard(db, key.kind, owner, vals) == []
    requires key.kind.Item? ==> !CodeTaken(db, code)
    ensures TidyRows(Insert(db, key, owner, vals, code).rows)
  {
    WriteTidy(db, Insert(db, key, owner, vals, code).rows, key);
  }

  lemma UpdateTidy(db: Db, key: Key, vals: map<Field, Val>)
    requires TidyRows(db.rows) && IdsOk(db.rows) && Live(db, key) && UpdateGuard(db, key.kind, key.id, vals) == []
    ensures TidyRows(Update(db, key, vals).rows)
  {
    assert LiveSatellite(db.rows, key) ==> LiveKey(db.rows, Key(Item, db.rows[key].owner));
    WriteTidy(db, Update(db, key, vals).rows, key);
  }

  lemma {:induction false} CreateItemTidy(db: Db, m: Mutation, vals: map<Field, Val>, attempt: nat)
    requires TidyRows(db.rows) && IdsOk(db.rows) && m.target == Table(Item) && m.TheKey() !in db.rows
    ensures var h := CreateItem(db, m, vals, attempt); h.Done? ==> TidyRows(h.db.rows)
    decreases MAX_CODE_ATTEMPTS - attempt
  {
    if attempt < MAX_CODE_ATTEMPTS {
      if CodeTaken(db, m.Code(attempt)) {
        CreateItemTidy(db.(counter := db.counter + 1), m, vals, attempt + 1);
      } else {
        InsertTidy(db, m.TheKey(), "", vals, m.Code(attempt));
      }
    }
  }

  lemma AdjustTidy(db: Db, id: string, item: string, delta: int, reason: string, note: string)
    requires TidyRows(db.rows) && IdsOk(db.rows) && Live(db, Key(Item, item)) && Key(Stock, id) !in db.rows
             && IsInt64(delta)
    ensures TidyRows(Adjust(db, id, item, delta, reason, note).rows)
  {
    var key := Key(Item, item);
    var quantity := Add64(Number64(db.rows[key].vals, Quantity), delta);
    var db1 := Update(db, key, db.rows[key].vals[Quantity := Int(quantity)]);
    UpdateTidy(db, key, db.rows[key].vals[Quantity := Int(quantity)]);
    var rows' := Adjust(db, id, item, delta, reason, note).rows;
    WriteTidy(db1, rows', Key(Stock, id));
  }

  lemma PushCreateTidy(db: Db, m: Mutation, owner: string)
    requires TidyRows(db.rows) && IdsOk(db.rows) && m.target.Table? && !m.target.kind.Stock?
    ensures var h := PushCreate(db, m, owner); h.Done? ==> TidyRows(h.db.rows)
  {
    var k := m.target.kind;
    if m.TheKey() !in db.rows && Decodable(m, Columns(k)) {
      var vals := CreatedVals(m, k);
      if k.Item? {
        CreateItemTidy(db, m, vals, 0);
      } else if CreateGuard(db, k, owner, vals) == [] {
        InsertTidy(db, m.TheKey(), owner, vals, "");
      }
    }
  }

  lemma PushUpdateTidy(db: Db, m: Mutation, owner: string)
    requires TidyRows(db.rows) && IdsOk(db.rows) && m.target.Table? && !m.target.kind.Stock?
    ensures var h := PushUpdate(db, m, owner); h.Done? ==> TidyRows(h.db.rows)
  {
    var key := m.TheKey();
    if Live(db, key) && db.rows[key].owner == owner {
      var cur := db.rows[key];
      var apply := ApplySet(db, m, cur.version);
      if Decodable(m, cur.vals.Keys * apply)
         && UpdateGuard(db, key.kind, key.id, MergedVals(m, cur.vals, apply)) == [] {
        UpdateTidy(db, key, MergedVals(m, cur.vals, apply));
      }
    }
  }

  lemma PushTidy(db: Db, m: Mutation)
    requires TidyRows(db.rows) && IdsOk(db.rows)
    ensures TidyRows(Apply(db, m).db.rows)
  {
    if Invalid(m).None? && m.id !in db.ledger && m.op.Upsert? && m.target.Table? {
      if m.target.kind.Stock? {
        PushStockTidy(db, m);
      } else {
        PushCreateTidy(db, m, Owner(m));
        PushUpdateTidy(db, m, Owner(m));
      }
    }
  }

  lemma PushStockTidy(db: Db, m: Mutation)
    requires TidyRows(db.rows) && IdsOk(db.rows) && m.target == Table(Stock)
    ensures PushStock(db, m).Done? ==> TidyRows(PushStock(db, m).db.rows)
  {
    if PushStock(db, m).Done? && PushStock(db, m).outcome.applied {
      var vals := CreatedVals(m, Stock);
      AdjustTidy(db, m.entityId, Owner(m), Number64(vals, Delta), Text(vals, Reason), Text(vals, Note));
    }
  }

  lemma RemoveTidy(db: Db, k: Kind, id: string, owner: string)
    requires TidyRows(db.rows)
    ensures TidyRows(StepRemove(db, k, id, owner).rows)
  {
    FewerTidy(db.rows, StepRemove(db, k, id, owner).rows);
  }

  lemma RelocatedAlike(row: Row, key: Key, id: string, to: string, n: int)
    ensures var r := Relocated(row, key, id, to, n);
            && (r.live ==> row.live) && r.code == row.code && r.owner == row.owner
            && (key.kind.Label? ==> r.vals == row.vals) && (!key.kind.Location? ==> r.live == row.live)
  {
  }

  lemma RemoveLocationTidy(db: Db, id: string, reassign: bool, to: string)
    requires TidyRows(db.rows)
    ensures TidyRows(StepRemoveLocation(db, id, reassign, to).rows)
  {
    if RemovalAccepted(db, id, reassign, to) {
      var rows, rows' := db.rows, StepRemoveLocation(db, id, reassign, to).rows;
      forall k | k in rows'
        ensures k in rows && (rows'[k].live ==> rows[k].live) && rows'[k].code == rows[k].code
                && rows'[k].owner == rows[k].owner
        ensures (k.kind.Label? ==> rows'[k].vals == rows[k].vals)
                && (!k.kind.Location? ==> rows'[k].live == rows[k].live)
      {
        RelocatedAlike(rows[k], k, id, to, db.counter + 1);
      }
      AlikeTidy(rows, rows');
    }
  }

  lemma AlikeTidy(rows: map<Key, Row>, rows': map<Key, Row>)
    requires TidyRows(rows) && rows'.Keys == rows.Keys
    requires forall k :: k in rows' ==>
               (rows'[k].live ==> rows[k].live) && rows'[k].code == rows[k].code && rows'[k].owner == rows[k].owner
    requires forall k :: k in rows' ==>
               (k.kind.Label? ==> rows'[k].vals == rows[k].vals)
                 && (!k.kind.Location? ==> rows'[k].live == rows[k].live)
    ensures TidyRows(rows')
  {
    FewerTidy(rows, rows');
  }

  lemma CreateTidy(db: Db, k: Kind, id: string, owner: string, vals: map<Field, Val>, code: string)
    requires TidyRows(db.rows) && IdsOk(db.rows)
    ensures TidyRows(StepCreate(db, k, id, owner, vals, code).rows)
  {
    if Key(k, id) !in db.rows && CreateGuard(db, k, owner, vals) == [] && !(k.Item? && CodeTaken(db, code)) {
      InsertTidy(db, Key(k, id), owner, vals, if k.Item? then code else "");
    }
  }

  lemma EditTidy(db: Db, k: Kind, id: string, owner: string, vals: map<Field, Val>, expected: int)
    requires TidyRows(db.rows) && IdsOk(db.rows)
    ensures TidyRows(StepEdit(db, k, id, owner, vals, expected).rows)
  {
    if Live(db, Key(k, id)) && UpdateGuard(db, k, id, vals) == [] {
      UpdateTidy(db, Key(k, id), vals);
    }
  }

  lemma AdjustStepTidy(db: Db, id: string, item: string, delta: int, reason: string, note: string)
    requires TidyRows(db.rows) && IdsOk(db.rows)
    ensures TidyRows(StepAdjust(db, id, item, delta, reason, note).rows)
  {
    if IsInt64(delta) && Key(Stock, id) !in db.rows && Live(db, Key(Item, item)) {
      AdjustTidy(db, id, item, delta, reason, note);
    }
  }

  lemma ImportTidy(db: Db, id: string, vals: map<Field, Val>)
    requires TidyRows(db.rows) && IdsOk(db.rows)
    ensures TidyRows(StepImport(db, id, vals).rows)
  {
    if Live(db, Key(Item, id)) {
      UpdateTidy(db, Key(Item, id), vals);
    }
  }

  lemma StepTidy(db: Db, e: Event)
    requires Sound(db) && TidyRows(db.rows)
    ensures TidyRows(Step(db, e).rows)
  {
    SoundIds(db);
    match e
    case Create(k, id, owner, vals, code) => CreateTidy(db, k, id, owner, vals, code);
    case Edit(k, id, owner, vals, expected) => EditTidy(db, k, id, owner, vals, expected);
    case Remove(k, id, owner) => RemoveTidy(db, k, id, owner);
    case RemoveLocation(id, reassign, to) => RemoveLocationTidy(db, id, reassign, to);
    case AdjustStock(id, item, delta, reason, note) => AdjustStepTidy(db, id, item, delta, reason, note);
    case ImportCore(id, vals) => ImportTidy(db, id, vals);
    case PushOne(m) => PushTidy(db, m);
  }

  lemma TidyNext(ts: seq<Db>, es: seq<Event>, i: nat)
    requires |ts| == |es| + 1 && i < |es| && ts[i + 1] == Step(ts[i], es[i])
    requires Sound(ts[i]) && TidyRows(ts[i].rows)
    ensures TidyRows(ts[i + 1].rows)
  {
    StepTidy(ts[i], es[i]);
  }

  lemma TidyKept(ts: seq<Db>, es: seq<Event>, n: nat)
    requires IsRun(ts, es) && Sound(ts[0]) && TidyRows(ts[0].rows) && n <= |es|
    ensures TidyRows(ts[n].rows)
  {
    RunAdvances(ts, es);
    var i := 0;
    while i < n
      invariant 0 <= i <= n && TidyRows(ts[i].rows)
    {
      TidyNext(ts, es, i);
      i := i + 1;
    }
  }

  /** In every state of every run of a group live labels have different names, live items
      different short codes, and live identifications and custom fields a live item. */
  lemma RunTidy(ts: seq<Db>, es: seq<Event>, defs: set<string>, n: nat)
    requires IsRun(ts, es) && ts[0] == Empty(defs) && n <= |es|
    ensures TidyRows(ts[n].rows)
  {
    TidyKept(ts, es, n);
  }
}
