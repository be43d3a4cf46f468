/** Every way a group's synced rows are written, as one step function, and what each step
    keeps: row soundness, and version, field-version and change_seq bookkeeping. */
module Runs {
  import opened Wire
  import opened Forest
  import opened Database
  import opened Push

  /** One committed transaction, or one row of an import commit.  A request the server rejects
      is a step that changes nothing. */
  datatype Event =
    | Create(kind: Kind, id: string, owner: string, vals: map<Field, Val>, code: string)
    | Edit(kind: Kind, id: string, owner: string, vals: map<Field, Val>, expected: int)
    | Remove(kind: Kind, id: string, owner: string)
    | RemoveLocation(id: string, reassign: bool, to: string)
    | AdjustStock(id: string, item: string, delta: int, reason: string, note: string)
    | ImportCore(id: string, vals: map<Field, Val>)
    | PushOne(m: Mutation)

  ghost function Step(db: Db, e: Event): Db {
    match e
    case Create(k, id, owner, vals, code) => StepCreate(db, k, id, owner, vals, code)
    case Edit(k, id, owner, vals, expected) => StepEdit(db, k, id, owner, vals, expected)
    case Remove(k, id, owner) => StepRemove(db, k, id, owner)
    case RemoveLocation(id, reassign, to) => StepRemoveLocation(db, id, reassign, to)
    case AdjustStock(id, item, delta, reason, note) => StepAdjust(db, id, item, delta, reason, note)
    case ImportCore(id, vals) => StepImport(db, id, vals)
    case PushOne(m) => Apply(db, m).db
  }

  function StepCreate(db: Db, k: Kind, id: string, owner: string, vals: map<Field, Val>, code: string): Db {
    var key := Key(k, id);
    if id == "" || k.Stock? || key in db.rows || !WellTyped(k, vals) || (!Satellite(k) && owner != "") then db
    else if k.Item? && CodeTaken(db, code) then db
    else if CreateGuard(db, k, owner, vals) != [] || !ConstraintsHold(db, k, vals) then db
    else Insert(db, key, owner, vals, if k.Item? then code else "")
  }

  function StepAdjust(db: Db, id: string, item: string, delta: int, reason: string, note: string): Db {
    if id == "" || !IsInt64(delta) || Key(Stock, id) in db.rows || !Live(db, Key(Item, item)) then db
    else Adjust(db, id, item, delta, reason, note)
  }

  /** The import's write of an item's own columns. */
  function StepImport(db: Db, id: string, vals: map<Field, Val>): Db {
    if !Live(db, Key(Item, id)) || !WellTyped(Item, vals) || !ConstraintsHold(db, Item, vals) then db
    else Update(db, Key(Item, id), vals)
  }

  ghost function StepEdit(db: Db, k: Kind, id: string, owner: string, vals: map<Field, Val>, expected: int): Db {
    var key := Key(k, id);
    if k.Stock? || !Live(db, key) || db.rows[key].owner != owner || !WellTyped(k, vals) then db
    else if db.rows[key].version != expected then db
    else if UpdateGuard(db, k, id, vals) != [] || !ConstraintsHold(db, k, vals) then db
    else Update(db, key, vals)
  }

  /** Deleting an item tombstones its satellites with it; stock adjustments stay. */
  function StepRemove(db: Db, k: Kind, id: string, owner: string): Db {
    var key := Key(k, id);
    if k.Stock? || k.Location? || !Live(db, key) || db.rows[key].owner != owner then db
    else Tombstone(db, {key} + if k.Item? then SatellitesOf(db, id) else {})
  }

  function SatellitesOf(db: Db, item: string): set<Key> {
    set key | key in db.rows && (key.kind.Identification? || key.kind.CustomField?) && db.rows[key].owner == item
  }

  /** The live rows held directly by a location: child locations and items. */
  predicate HeldBy(row: Row, k: Kind, location: string) {
    row.live && match k
      case Location => Text(row.vals, ParentId) == location
      case Item => Text(row.vals, LocationId) == location
      case _ => false
  }

  function Held(db: Db, location: string): set<Key> {
    set key | key in db.rows && HeldBy(db.rows[key], key.kind, location)
  }

  ghost predicate RemovalAccepted(db: Db, id: string, reassign: bool, to: string) {
    && Live(db, Key(Location, id)) && id != ""
    && (reassign || (to == "" && Held(db, id) == {}))
    && (reassign && to != "" ==> Live(db, Key(Location, to)) && !Reaches(ParentsOf(db.rows), to, id))
  }

  /** Delete a location.  With `reassign` its live children and items move to `to` (or to the
      root); the move bumps versions but records no field versions. */
  ghost function StepRemoveLocation(db: Db, id: string, reassign: bool, to: string): Db {
    if !RemovalAccepted(db, id, reassign, to) then db
    else db.(rows := map key | key in db.rows :: Relocated(db.rows[key], key, id, to, db.counter + 1),
             counter := db.counter + 1)
  }

  function Relocated(row: Row, key: Key, id: string, to: string, changeSeq: int): Row {
    if key == Key(Location, id) then row.(version := row.version + 1, live := false, changeSeq := changeSeq)
    else if HeldBy(row, key.kind, id) then
      row.(version := row.version + 1, changeSeq := changeSeq,
           vals := row.vals[PlaceField(key.kind) := Str(to)])
    else row
  }

  /** The column that says where a row is placed. */
  function PlaceField(k: Kind): Field { if k.Location? then ParentId else LocationId }

  /** The states of a run: `ts[i]` is the database before event `es[i]`. */
  ghost predicate IsRun(ts: seq<Db>, es: seq<Event>) {
    && |ts| == |es| + 1
    && forall i :: 0 <= i < |es| ==> ts[i + 1] == Step(ts[i], es[i])
  }

  // ----- Soundness of rows -----

  ghost predicate SoundRow(key: Key, row: Row) {
    && key.id != "" && WellTyped(key.kind, row.vals) && 1 <= row.version
    && (Satellite(key.kind) || row.owner == "")
  }

  ghost predicate SoundAt(db: Db, key: Key) {
    key in db.rows ==> SoundRow(key, db.rows[key]) && db.rows[key].changeSeq <= db.counter
  }

  /** Only stored columns are tracked, at versions the row has reached since it was created. */
  ghost predicate SoundVersion(db: Db, fk: FieldKey) {
    fk in db.fv ==>
      fk.key in db.rows && fk.field in db.rows[fk.key].vals && 2 <= db.fv[fk] <= db.rows[fk.key].version
  }

  ghost predicate Sound(db: Db) {
    (forall key :: SoundAt(db, key)) && (forall fk :: SoundVersion(db, fk))
  }

  // ----- What one step does to one column of one row -----

  function Column(db: Db, key: Key, f: Field): Option<Val> {
    if key in db.rows && f in db.rows[key].vals then Some(db.rows[key].vals[f]) else None
  }

  /** A column changes silently when its location is deleted from under it. */
  predicate Silent(e: Event, key: Key, f: Field) {
    e.RemoveLocation? && (key.kind.Item? || key.kind.Location?) && f == PlaceField(key.kind)
  }

  /** Rows never disappear; a row that differs at all is one version further and carries a
      change_seq from this step; a new row starts at version 1. */
  ghost predicate RowStep(db: Db, db': Db, key: Key) {
    && (key in db.rows ==> key in db'.rows)
    && (key in db'.rows && (key !in db.rows || db.rows[key] != db'.rows[key]) ==>
          && db.counter < db'.rows[key].changeSeq <= db'.counter
          && db'.rows[key].version == (if key in db.rows then db.rows[key].version + 1 else 1))
  }

  /** The tracked field version becomes the row's new version exactly when the column changed
      (unless silently), and stays otherwise. */
  ghost predicate FieldStep(db: Db, db': Db, key: Key, f: Field, silent: bool) {
    FieldVersion(db', key, f) ==
      if key in db.rows && Column(db', key, f) != Column(db, key, f) && !silent && key in db'.rows
      then db'.rows[key].version else FieldVersion(db, key, f)
  }

  ghost predicate Advances(db: Db, db': Db, e: Event) {
    && db.counter <= db'.counter && db'.defs == db.defs
    && (forall key :: RowStep(db, db', key))
    && (forall key, f :: FieldStep(db, db', key, f, Silent(e, key, f)))
  }

  lemma InsertAdvances(db: Db, key: Key, owner: string, vals: map<Field, Val>, code: string, e: Event)
    requires Sound(db) && key !in db.rows
    requires key.id != "" && WellTyped(key.kind, vals) && (Satellite(key.kind) || owner == "")
    ensures Sound(Insert(db, key, owner, vals, code))
    ensures Advances(db, Insert(db, key, owner, vals, code), e)
  {
    var db' := Insert(db, key, owner, vals, code);
    forall k ensures SoundAt(db', k) && RowStep(db, db', k) {
      assert SoundAt(db, k);
    }
    forall fk ensures SoundVersion(db', fk) {
      assert SoundVersion(db, fk);
    }
    forall k, f ensures FieldStep(db, db', k, f, Silent(e, k, f)) {
    }
  }

  lemma UpdateAdvances(db: Db, key: Key, vals: map<Field, Val>, e: Event)
    requires Sound(db) && key in db.rows && WellTyped(key.kind, vals) && !e.RemoveLocation?
    ensures Sound(Update(db, key, vals))
    ensures Advances(db, Update(db, key, vals), e)
  {
    var db' := Update(db, key, vals);
    assert SoundAt(db, key);
    forall k ensures SoundAt(db', k) && RowStep(db, db', k) {
      assert SoundAt(db, k);
    }
    forall fk ensures SoundVersion(db', fk) {
      assert SoundVersion(db, fk);
    }
    forall k, f ensures FieldStep(db, db', k, f, Silent(e, k, f)) {
      if k == key {
        assert FieldKey(k, f) in db'.fv <==> FieldKey(k, f) in db.fv || f in ChangedFields(db.rows[key].vals, vals);
      }
    }
  }

  lemma TombstoneAdvances(db: Db, keys: set<Key>, e: Event)
    requires Sound(db)
    ensures Sound(Tombstone(db, keys))
    ensures Advances(db, Tombstone(db, keys), e)
  {
    var db' := Tombstone(db, keys);
    forall k ensures SoundAt(db', k) && RowStep(db, db', k) {
      assert SoundAt(db, k);
    }
    forall fk ensures SoundVersion(db', fk) {
      assert SoundVersion(db, fk);
    }
    forall k, f ensures FieldStep(db, db', k, f, Silent(e, k, f)) {
    }
  }

  lemma RelocatedSound(row: Row, key: Key, id: string, to: string, changeSeq: int)
    requires SoundRow(key, row)
    ensures SoundRow(key, Relocated(row, key, id, to, changeSeq))
  {
  }

  lemma RelocateAdvances(db: Db, id: string, reassign: bool, to: string)
    requires Sound(db)
    ensures Sound(StepRemoveLocation(db, id, reassign, to))
    ensures Advances(db, StepRemoveLocation(db, id, reassign, to), RemoveLocation(id, reassign, to))
  {
    var e := RemoveLocation(id, reassign, to);
    var db' := StepRemoveLocation(db, id, reassign, to);
    forall k ensures SoundAt(db', k) && RowStep(db, db', k) {
      assert SoundAt(db, k);
      if k in db.rows {
        RelocatedSound(db.rows[k], k, id, to, db.counter + 1);
      }
    }
    forall fk ensures SoundVersion(db', fk) {
      assert SoundVersion(db, fk);
    }
    forall k, f ensures FieldStep(db, db', k, f, Silent(e, k, f)) {
    }
  }

  lemma QuantityTyped(vals: map<Field, Val>, quantity: int)
    requires WellTyped(Item, vals) && IsInt64(quantity)
    ensures WellTyped(Item, vals[Quantity := Int(quantity)])
  {
  }

  lemma StockTyped(delta: int, reason: string, note: string, quantity: int)
    requires IsInt64(delta) && IsInt64(quantity)
    ensures WellTyped(Stock, StockVals(delta, reason, note, quantity))
  {
    var vals := StockVals(delta, reason, note, quantity);
    assert vals.Keys == {Delta, Reason, Note, ResultingQuantity} == Columns(Stock);
    assert vals[Delta] == Int(delta) && vals[ResultingQuantity] == Int(quantity) && vals[Reason] == Str(reason)
           && vals[Note] == Str(note);
  }

  lemma MergedTyped(k: Kind, m: Mutation, current: map<Field, Val>, apply: set<Field>)
    requires WellTyped(k, current) && Decodable(m, current.Keys * apply)
    ensures WellTyped(k, MergedVals(m, current, apply))
  {
    assert MergedVals(m, current, apply).Keys == current.Keys;
  }

  lemma CreatedTyped(k: Kind, m: Mutation)
    requires Decodable(m, Columns(k))
    ensures WellTyped(k, CreatedVals(m, k))
  {
    assert CreatedVals(m, k).Keys == Columns(k);
  }

  lemma AdjustAdvances(db: Db, id: string, item: string, delta: int, reason: string, note: string, e: Event)
    requires Sound(db) && Key(Item, item) in db.rows && Key(Stock, id) !in db.rows
    requires id != "" && IsInt64(delta) && !e.RemoveLocation?
    ensures Sound(Adjust(db, id, item, delta, reason, note))
    ensures Advances(db, Adjust(db, id, item, delta, reason, note), e)
  {
    var key := Key(Item, item);
    var quantity := Add64(Number64(db.rows[key].vals, Quantity), delta);
    assert SoundAt(db, key);
    var vals := db.rows[key].vals[Quantity := Int(quantity)];
    QuantityTyped(db.rows[key].vals, quantity);
    StockTyped(delta, reason, note, quantity);
    UpdateAdvances(db, key, vals, e);
    AddRowAdvances(db, Update(db, key, vals), Key(Stock, id),
                   Row(item, 1, true, StockVals(delta, reason, note, quantity), db.counter + 1, ""), e);
  }

  /** A new row written beside other writes of the same step. */
  lemma AddRowAdvances(db: Db, db1: Db, key: Key, row: Row, e: Event)
    requires Sound(db) && Sound(db1) && Advances(db, db1, e) && key !in db1.rows
    requires SoundRow(key, row) && row.version == 1 && db.counter < row.changeSeq == db1.counter
    ensures var db' := db1.(rows := db1.rows[key := row]); Sound(db') && Advances(db, db', e)
  {
    var db' := db1.(rows := db1.rows[key := row]);
    assert RowStep(db, db1, key);
    forall k ensures SoundAt(db', k) && RowStep(db, db', k) {
      assert SoundAt(db1, k) && RowStep(db, db1, k);
    }
    forall fk ensures SoundVersion(db', fk) {
      assert SoundVersion(db1, fk);
    }
    forall k, f ensures FieldStep(db, db', k, f, Silent(e, k, f)) {
      assert FieldStep(db, db1, k, f, Silent(e, k, f));
    }
  }

  lemma {:induction false} CreateItemAdvances(db: Db, m: Mutation, vals: map<Field, Val>, attempt: nat, e: Event)
    requires Sound(db) && m.target == Table(Item) && m.TheKey() !in db.rows && m.entityId != ""
    requires WellTyped(Item, vals)
    ensures var h := CreateItem(db, m, vals, attempt);
            h.Done? ==> Sound(h.db) && Advances(db, h.db, e)
    decreases MAX_CODE_ATTEMPTS - attempt
  {
    if attempt < MAX_CODE_ATTEMPTS {
      if CodeTaken(db, m.Code(attempt)) {
        var db1 := db.(counter := db.counter + 1);
        forall k ensures SoundAt(db1, k) {
          assert SoundAt(db, k);
        }
        forall fk ensures SoundVersion(db1, fk) {
          assert SoundVersion(db, fk);
        }
        CreateItemAdvances(db1, m, vals, attempt + 1, e);
        var h := CreateItem(db1, m, vals, attempt + 1);
        if h.Done? {
          forall k ensures RowStep(db, h.db, k) {
            assert RowStep(db1, h.db, k);
          }
          forall k, f ensures FieldStep(db, h.db, k, f, Silent(e, k, f)) {
            assert FieldStep(db1, h.db, k, f, Silent(e, k, f));
          }
        }
      } else if ConstraintsHold(db, Item, vals) {
        InsertAdvances(db, m.TheKey(), "", vals, m.Code(attempt), e);
      }
    }
  }

  lemma IdleAdvances(db: Db, e: Event)
    ensures Advances(db, db, e)
  {
  }

  lemma CreateAdvances(db: Db, m: Mutation, e: Event)
    requires Sound(db) && m.target.Table? && !m.target.kind.Stock? && m.entityId != ""
    ensures var h := PushCreate(db, m, Owner(m));
            h.Done? ==> Sound(h.db) && Advances(db, h.db, e) && h.db.ledger == db.ledger && h.db.log == db.log
  {
    var k := m.target.kind;
    IdleAdvances(db, e);
    if m.TheKey() !in db.rows && Decodable(m, Columns(k)) {
      var vals := CreatedVals(m, k);
      CreatedTyped(k, m);
      if k.Item? {
        CreateItemAdvances(db, m, vals, 0, e);
        CreateItemLedger(db, m, vals, 0);
      } else {
        InsertAdvances(db, m.TheKey(), Owner(m), vals, "", e);
      }
    }
  }

  lemma PushUpdateAdvances(db: Db, m: Mutation, e: Event)
    requires Sound(db) && m.target.Table? && !m.target.kind.Stock? && !e.RemoveLocation?
    ensures var h := PushUpdate(db, m, Owner(m));
            h.Done? ==> Sound(h.db) && Advances(db, h.db, e) && h.db.ledger == db.ledger && h.db.log == db.log
  {
    IdleAdvances(db, e);
    var h := PushUpdate(db, m, Owner(m));
    if h.Done? && h.outcome.applied {
      var cur := db.rows[m.TheKey()];
      var apply := ApplySet(db, m, cur.version);
      assert SoundAt(db, m.TheKey());
      MergedTyped(m.target.kind, m, cur.vals, apply);
      UpdateAdvances(db, m.TheKey(), MergedVals(m, cur.vals, apply), e);
    }
  }

  lemma PushStockAdvances(db: Db, m: Mutation, e: Event)
    requires Sound(db) && m.target == Table(Stock) && m.entityId != "" && !e.RemoveLocation?
    ensures var h := PushStock(db, m);
            h.Done? ==> Sound(h.db) && Advances(db, h.db, e) && h.db.ledger == db.ledger && h.db.log == db.log
  {
    IdleAdvances(db, e);
    var h := PushStock(db, m);
    if h.Done? && h.outcome.applied {
      var vals := CreatedVals(m, Stock);
      CreatedTyped(Stock, m);
      AdjustAdvances(db, m.entityId, Owner(m), Number64(vals, Delta), Text(vals, Reason), Text(vals, Note), e);
    }
  }

  /** Handling a mutation touches neither the ledger nor the conflict log. */
  lemma HandleAdvances(db: Db, m: Mutation, e: Event)
    requires Sound(db) && m.entityId != "" && !e.RemoveLocation?
    ensures var h := Handle(db, m);
            h.Done? ==> Sound(h.db) && Advances(db, h.db, e) && h.db.ledger == db.ledger && h.db.log == db.log
  {
    if m.op.Upsert? && m.target.Table? {
      if m.target.kind.Stock? {
        PushStockAdvances(db, m, e);
      } else if m.base == 0 {
        CreateAdvances(db, m, e);
      } else {
        PushUpdateAdvances(db, m, e);
      }
    }
  }

  lemma ApplyAdvances(db: Db, m: Mutation, e: Event)
    requires Sound(db) && !e.RemoveLocation?
    ensures Sound(Apply(db, m).db) && Advances(db, Apply(db, m).db, e)
  {
    IdleAdvances(db, e);
    if Invalid(m).None? && m.id !in db.ledger && Handle(db, m).Done? {
      HandleAdvances(db, m, e);
      var db1 := Handle(db, m).db;
      var db' := Apply(db, m).db;
      forall k ensures SoundAt(db', k) && RowStep(db, db', k) {
        assert SoundAt(db1, k) && RowStep(db, db1, k);
      }
      forall fk ensures SoundVersion(db', fk) {
        assert SoundVersion(db1, fk);
      }
      forall k, f ensures FieldStep(db, db', k, f, Silent(e, k, f)) {
        assert FieldStep(db, db1, k, f, Silent(e, k, f));
      }
    }
  }

  lemma {:induction false} CreateItemLedger(db: Db, m: Mutation, vals: map<Field, Val>, attempt: nat)
    requires m.target.Table?
    ensures var h := CreateItem(db, m, vals, attempt); h.Done? ==> h.db.ledger == db.ledger && h.db.log == db.log
    decreases MAX_CODE_ATTEMPTS - attempt
  {
    if attempt < MAX_CODE_ATTEMPTS && CodeTaken(db, m.Code(attempt)) {
      CreateItemLedger(db.(counter := db.counter + 1), m, vals, attempt + 1);
    }
  }

  /** Every step of every kind keeps the rows sound and moves versions, field versions and
      change_seq as described. */
  lemma StepAdvances(db: Db, e: Event)
    requires Sound(db)
    ensures Sound(Step(db, e)) && Advances(db, Step(db, e), e)
  {
    IdleAdvances(db, e);
    match e {
      case Create(k, id, owner, vals, code) =>
        if Step(db, e) != db {
          InsertAdvances(db, Key(k, id), owner, vals, if k.Item? then code else "", e);
        }
      case Edit(k, id, owner, vals, expected) =>
        if Step(db, e) != db {
          UpdateAdvances(db, Key(k, id), vals, e);
        }
      case Remove(k, id, owner) =>
        TombstoneAdvances(db, {Key(k, id)} + if k.Item? then SatellitesOf(db, id) else {}, e);
      case RemoveLocation(id, reassign, to) =>
        RelocateAdvances(db, id, reassign, to);
      case AdjustStock(id, item, delta, reason, note) =>
        if Step(db, e) != db {
          AdjustAdvances(db, id, item, delta, reason, note, e);
        }
      case ImportCore(id, vals) =>
        if Step(db, e) != db {
          UpdateAdvances(db, Key(Item, id), vals, e);
        }
      case PushOne(m) =>
        ApplyAdvances(db, m, e);
    }
  }

  /** All states sound, every step as described. */
  ghost predicate Advancing(ts: seq<Db>, es: seq<Event>) {
    && |ts| == |es| + 1
    && (forall i :: 0 <= i < |ts| ==> Sound(ts[i]))
    && (forall i :: 0 <= i < |es| ==> Advances(ts[i], ts[i + 1], es[i]))
  }

  lemma AdvancesNext(ts: seq<Db>, es: seq<Event>, i: nat)
    requires |ts| == |es| + 1 && i < |es| && ts[i + 1] == Step(ts[i], es[i]) && Sound(ts[i])
    ensures Sound(ts[i + 1]) && Advances(ts[i], ts[i + 1], es[i])
  {
    StepAdvances(ts[i], es[i]);
  }

  lemma {:induction false} SoundAlong(ts: seq<Db>, es: seq<Event>, i: nat)
    requires IsRun(ts, es) && Sound(ts[0]) && i <= |es|
    ensures Sound(ts[i])
  {
    if i > 0 {
      SoundAlong(ts, es, i - 1);
      var j := i - 1;
      assert ts[j + 1] == Step(ts[j], es[j]);
      StepAdvances(ts[j], es[j]);
    }
  }

  lemma RunAdvances(ts: seq<Db>, es: seq<Event>)
    requires IsRun(ts, es) && Sound(ts[0])
    ensures Advancing(ts, es)
  {
    forall i | 0 <= i < |ts| ensures Sound(ts[i]) {
      SoundAlong(ts, es, i);
    }
    forall i | 0 <= i < |es| ensures Advances(ts[i], ts[i + 1], es[i]) {
      AdvancesNext(ts, es, i);
    }
  }
}
