/** What a push answers and what it does to the tables, written out column by column: neither the
    conditions nor the effects below refer to how a handler computes them. */
module PushEffects {
  import opened Wire
  import opened Forest
  import opened Database
  import opened Push
  import opened Runs
  import opened Effects

  // ----- What stays, and what is put on record -----

  /** Ledger and conflict log after an answer: one ledger row, and one log row per conflict with
      the submitted value and the server's, where there is one. */
  ghost predicate OnRecord(db: Db, db': Db, m: Mutation, o: Outcome)
    requires m.target.Table?
  {
    && db'.ledger == db.ledger[m.id := LedgerRow(m.target.kind, m.entityId, o.applied)]
    && |db'.log| == |db.log| + |o.conflicts| && db'.log[..|db.log|] == db.log
    && forall i :: 0 <= i < |o.conflicts| ==>
         var f := o.conflicts[i];
         db'.log[|db.log| + i] ==
           ConflictRow(m.target.kind, m.entityId, f,
                       if f in o.snapshots then Some(o.snapshots[f]) else None,
                       if f in m.fields && f != Entity then Some(m.fields[f]) else None, m.id)
  }

  /** Nothing but ledger and log. */
  ghost predicate TablesKept(db: Db, db': Db) {
    db'.rows == db.rows && db'.fv == db.fv && db'.defs == db.defs && db'.counter == db.counter
  }

  /** The mutation is refused: nothing is written, and these are the reasons. */
  ghost predicate RefusedWith(db: Db, m: Mutation, conflicts: seq<Field>)
    requires m.target.Table?
  {
    var a := Apply(db, m);
    && a.result.Ok? && OnRecord(db, a.db, m, a.result.outcome)
    && TablesKept(db, a.db) && a.result.outcome == Outcome(false, false, m.entityId, 0, conflicts, map[])
  }

  lemma RecordExact(db: Db, db1: Db, m: Mutation, o: Outcome)
    requires m.target.Table? && db1.ledger == db.ledger && db1.log == db.log && o.entityId == m.entityId
    ensures OnRecord(db, Record(db1, m, o), m, o)
    ensures Record(db1, m, o).rows == db1.rows && Record(db1, m, o).fv == db1.fv
    ensures Record(db1, m, o).defs == db1.defs && Record(db1, m, o).counter == db1.counter
  {
  }

  // ----- Before anything is looked up -----

  /** The request names an entity, a base version and a time, and is not yet answered. */
  predicate Fresh(db: Db, m: Mutation) {
    m.id != "" && m.entityId != "" && 0 <= m.base && 0 < m.now && m.id !in db.ledger
  }

  /** Identifications, custom fields and stock adjustments name an item. */
  predicate NamesItem(k: Kind) { k.Identification? || k.CustomField? || k.Stock? }

  /** The item a mutation names; empty when it names none. */
  function ItemNamed(m: Mutation): string
    requires m.target.Table?
  {
    if NamesItem(m.target.kind) then Submitted(m, ItemId) else ""
  }

  /** It is an upsert of a table's row, with field names of that table, and names its item. */
  predicate WellFormed(m: Mutation) {
    && m.op.Upsert? && m.target.Table?
    && (forall f :: f in m.fields ==> f in Names(m.target.kind))
    && (NamesItem(m.target.kind) ==> ItemId in m.fields && Storable(ItemId, m.fields[ItemId]))
    && (m.target.kind.Stock? ==> m.base == 0)
  }

  /** An answer or an error that does not depend on the rows. */
  lemma Screened(db: Db, m: Mutation)
    ensures m.id == "" || m.entityId == "" ==> Apply(db, m) == Answer(db, Err(MissingField))
    ensures m.id != "" && m.entityId != "" && m.base < 0 ==> Apply(db, m) == Answer(db, Err(InvalidFieldValue))
    ensures m.id != "" && m.entityId != "" && 0 <= m.base && m.now <= 0 ==>
              Apply(db, m) == Answer(db, Err(BadTimestamp))
    ensures m.id != "" && m.entityId != "" && 0 <= m.base && 0 < m.now && m.id in db.ledger ==>
              Apply(db, m) == Answer(db, Ok(Outcome(true, false, m.entityId, 0, [], map[])))
    ensures Fresh(db, m) && !WellFormed(m) ==>
              var e := if m.op.Delete? then DeleteNotSupported
                       else if m.op.OtherOp? then UnknownOp
                       else if m.target.Attachment? then AttachmentRejected
                       else if m.target.UnknownType? then UnknownEntityType
                       else if m.target.kind.Stock? && m.base != 0 then CreationOnly
                       else if exists f :: f in m.fields && f !in Names(m.target.kind) then UnknownField
                       else if ItemId !in m.fields then MissingField
                       else InvalidFieldValue;
              Apply(db, m) == Answer(db, Err(e))
  {
    if ItemId in m.fields {
      StorableExact(ItemId, m.fields[ItemId]);
    }
  }

  // ----- Creates -----

  /** So have live items for every one of ten draws. */
  ghost predicate AllInUse(db: Db, m: Mutation) { forall i :: 0 <= i < 10 ==> CodeInUse(db, m.Code(i)) }

  /** The field that stands in the way of a create, if there is one. */
  ghost function Obstacle(db: Db, m: Mutation): Option<Field>
    requires m.target.Table?
  {
    match m.target.kind
    case Item => if AllInUse(db, m) then Some(ShortCode) else None
    case Location =>
      var parent := Submitted(m, ParentId);
      if parent != "" && !IsLive(db, Location, parent) then Some(ParentId) else None
    case Label => if NameInUse(db, Submitted(m, Name), "") then Some(Name) else None
    case _ => if IsLive(db, Item, Submitted(m, ItemId)) then None else Some(ItemId)
  }

  /** The row a create makes. */
  ghost predicate CreatedRow(db: Db, m: Mutation, row: Row)
    requires m.target.Table?
  {
    && row.live && row.version == 1
    && (forall f :: f in row.vals <==> f in Fields(m.target.kind))
    && (forall f :: f in row.vals ==>
          if f in m.fields then Means(f, m.fields[f], row.vals[f]) else row.vals[f] == Blank(f))
    && row.owner == ItemNamed(m)
    && if m.target.kind.Item? then FirstFree(db, m, row.code, row.changeSeq - db.counter - 1)
       else row.code == "" && row.changeSeq == db.counter + 1
  }

  /** The code is the first of ten draws that no live item has. */
  ghost predicate FirstFree(db: Db, m: Mutation, code: string, i: int) {
    0 <= i < 10 && code == m.Code(i) && !CodeInUse(db, code) && forall j :: 0 <= j < i ==> CodeInUse(db, m.Code(j))
  }

  /** The one new row, and nothing more. */
  ghost predicate CreatesRow(db: Db, m: Mutation)
    requires m.target.Table?
  {
    var key, a := m.TheKey(), Apply(db, m);
    && a.result == Ok(Outcome(false, true, m.entityId, 1, [], map[]))
    && key in a.db.rows && CreatedRow(db, m, a.db.rows[key]) && a.db.rows[key].changeSeq == a.db.counter
    && OthersKept(db, a.db, {key}) && a.db.fv == db.fv && OnRecord(db, a.db, m, a.result.outcome)
  }

  /** A create, decided: refused if the id is in use or something stands in the way, an error if a
      value cannot be stored or a constraint is broken, and else the one new row and nothing more. */
  lemma CreateExact(db: Db, m: Mutation)
    requires Fresh(db, m) && WellFormed(m) && m.base == 0 && !m.target.kind.Stock?
    ensures var k, key, a := m.target.kind, m.TheKey(), Apply(db, m);
            var unstorable := exists f :: f in m.fields && f in Fields(k) && !Storable(f, m.fields[f]);
            if key in db.rows then RefusedWith(db, m, [Entity])
            else if unstorable then a == Answer(db, Err(InvalidFieldValue))
            else if Obstacle(db, m).Some? then
              && a.result == Ok(Outcome(false, false, m.entityId, 0, [Obstacle(db, m).value], map[]))
              && OnRecord(db, a.db, m, a.result.outcome)
              && TablesKept(if k.Item? then db.(counter := db.counter + 10) else db, a.db)
            else if BreaksConstraint(db, k, f => Submitted(m, f)) then a == Answer(db, Err(ConstraintViolation))
            else CreatesRow(db, m)
  {
    var k, key := m.target.kind, m.TheKey();
    StorableAll(m, Columns(k));
    assert Handle(db, m) == PushCreate(db, m, Owner(m));
    if key !in db.rows && Decodable(m, Columns(k)) {
      CreatedColumns(m, k);
      if k.Item? {
        CreateItemExact(db, m);
      } else {
        CreateOtherExact(db, m);
      }
    } else {
      RecordExact(db, db, m, Refused(m, [Entity]));
    }
  }

  lemma OwnerSubmitted(m: Mutation)
    requires WellFormed(m)
    ensures Owner(m) == ItemNamed(m)
  {
  }

  lemma CreateOtherExact(db: Db, m: Mutation)
    requires Fresh(db, m) && WellFormed(m) && !m.target.kind.Stock? && !m.target.kind.Item?
    requires m.TheKey() !in db.rows && Decodable(m, Columns(m.target.kind))
    requires Handle(db, m) == PushCreate(db, m, Owner(m))
    ensures var k, key, a := m.target.kind, m.TheKey(), Apply(db, m);
            if Obstacle(db, m).Some? then RefusedWith(db, m, [Obstacle(db, m).value])
            else if BreaksConstraint(db, k, f => Submitted(m, f)) then a == Answer(db, Err(ConstraintViolation))
            else CreatesRow(db, m)
  {
    var k := m.target.kind;
    var vals := CreatedVals(m, k);
    OwnerSubmitted(m);
    CreatedColumns(m, k);
    CreateGuardExact(db, m, vals);
    ConstraintsExact(db, k, vals, f => Submitted(m, f));
    if Obstacle(db, m).Some? {
      RecordExact(db, db, m, Refused(m, [Obstacle(db, m).value]));
    } else {
      RecordExact(db, Insert(db, m.TheKey(), Owner(m), vals, ""), m, Accepted(m, 1, [], map[]));
    }
  }

  lemma CreateGuardExact(db: Db, m: Mutation, vals: map<Field, Val>)
    requires WellFormed(m) && !m.target.kind.Item? && !m.target.kind.Stock?
    requires forall f :: f in Fields(m.target.kind) && TypeOf(f).TString? ==> Text(vals, f) == Submitted(m, f)
    ensures CreateGuard(db, m.target.kind, Owner(m), vals) ==
            match Obstacle(db, m) case Some(f) => [f] case None => []
  {
    OwnerSubmitted(m);
    match m.target.kind
    case Location => assert ParentId in Fields(Location);
    case Label =>
      assert Name in Fields(Label);
      assert LabelNameTaken(db, Text(vals, Name), "") <==> NameInUse(db, Text(vals, Name), "");
    case _ =>
  }

  /** How the draws come out. */
  ghost predicate Drawn(db: Db, m: Mutation, vals: map<Field, Val>, h: Handled)
    requires m.target == Table(Item)
  {
    if AllInUse(db, m) then h == Done(db.(counter := db.counter + 10), Refused(m, [ShortCode]))
    else if !ConstraintsHold(db, Item, vals) then h == Fail(ConstraintViolation)
    else exists i: nat :: DrawnAt(db, m, vals, h, i)
  }

  ghost predicate DrawnAt(db: Db, m: Mutation, vals: map<Field, Val>, h: Handled, i: nat)
    requires m.target == Table(Item)
  {
    && FirstFree(db, m, m.Code(i), i)
    && h == Done(Insert(db.(counter := db.counter + i), m.TheKey(), "", vals, m.Code(i)), Accepted(m, 1, [], map[]))
  }

  /** The draws from number `n` on, the earlier ones being in use. */
  lemma {:induction false} DrawsExact(db: Db, m: Mutation, vals: map<Field, Val>, n: nat)
    requires m.target == Table(Item) && n <= 10 && forall i :: 0 <= i < n ==> CodeInUse(db, m.Code(i))
    ensures Drawn(db, m, vals, CreateItem(db.(counter := db.counter + n), m, vals, n))
    decreases 10 - n
  {
    var db' := db.(counter := db.counter + n);
    if n < 10 {
      assert CodeTaken(db', m.Code(n)) <==> CodeInUse(db, m.Code(n));
      if CodeInUse(db, m.Code(n)) {
        DrawsExact(db, m, vals, n + 1);
        assert db'.(counter := db'.counter + 1) == db.(counter := db.counter + (n + 1));
      } else {
        assert ConstraintsHold(db', Item, vals) <==> ConstraintsHold(db, Item, vals);
        assert ConstraintsHold(db, Item, vals) ==> DrawnAt(db, m, vals, CreateItem(db', m, vals, n), n);
      }
    }
  }

  lemma DrawsFromZero(db: Db, m: Mutation, vals: map<Field, Val>, h: Handled)
    requires m.target == Table(Item) && h == CreateItem(db, m, vals, 0)
    ensures Drawn(db, m, vals, h)
  {
    DrawsExact(db, m, vals, 0);
    assert db.(counter := db.counter + 0) == db;
  }

  lemma CreateItemExact(db: Db, m: Mutation)
    requires Fresh(db, m) && m.target == Table(Item) && m.TheKey() !in db.rows && Decodable(m, Columns(Item))
    requires Handle(db, m) == CreateItem(db, m, CreatedVals(m, Item), 0)
    ensures ItemDecided(db, m)
  {
    DrawsFromZero(db, m, CreatedVals(m, Item), Handle(db, m));
    ItemAnswered(db, m, Handle(db, m));
  }

  ghost predicate ItemDecided(db: Db, m: Mutation)
    requires m.target == Table(Item)
  {
    var a := Apply(db, m);
    if AllInUse(db, m) then
      && a.result == Ok(Outcome(false, false, m.entityId, 0, [ShortCode], map[]))
      && OnRecord(db, a.db, m, a.result.outcome) && TablesKept(db.(counter := db.counter + 10), a.db)
    else if BreaksConstraint(db, Item, f => Submitted(m, f)) then a == Answer(db, Err(ConstraintViolation))
    else CreatesRow(db, m)
  }

  lemma ItemAnswered(db: Db, m: Mutation, h: Handled)
    requires Fresh(db, m) && m.target == Table(Item) && h == Handle(db, m)
    requires m.TheKey() !in db.rows && Decodable(m, Columns(Item)) && Drawn(db, m, CreatedVals(m, Item), h)
    ensures ItemDecided(db, m)
  {
    var vals := CreatedVals(m, Item);
    CreatedColumns(m, Item);
    ConstraintsExact(db, Item, vals, f => Submitted(m, f));
    if AllInUse(db, m) {
      RecordExact(db, db.(counter := db.counter + 10), m, Refused(m, [ShortCode]));
    } else if ConstraintsHold(db, Item, vals) {
      var i: nat :| DrawnAt(db, m, vals, h, i);
      ItemCreated(db, m, i);
    }
  }

  lemma ItemCreated(db: Db, m: Mutation, i: nat)
    requires Fresh(db, m) && m.target == Table(Item) && m.TheKey() !in db.rows && Decodable(m, Columns(Item))
    requires DrawnAt(db, m, CreatedVals(m, Item), Handle(db, m), i)
    ensures CreatesRow(db, m)
  {
    var db1 := Insert(db.(counter := db.counter + i), m.TheKey(), "", CreatedVals(m, Item), m.Code(i));
    CreatedColumns(m, Item);
    RecordExact(db, db1, m, Accepted(m, 1, [], map[]));
    assert CreatedRow(db, m, db1.rows[m.TheKey()]);
  }

  // ----- Updates -----

  /** A write after the mutation's base version is on record for the field. */
  ghost predicate Behind(db: Db, m: Mutation, f: Field)
    requires m.target.Table?
  {
    FieldKey(m.TheKey(), f) in db.fv && db.fv[FieldKey(m.TheKey(), f)] > m.base
  }

  /** A submitted field loses when the row has moved on from the base version and the field is
      behind, or belongs with one that is. */
  ghost predicate Loses(db: Db, m: Mutation, f: Field)
    requires m.target.Table? && m.TheKey() in db.rows
  {
    && f in m.fields && db.rows[m.TheKey()].version != m.base
    && (Behind(db, m, f) || (&& m.target.kind.CustomField? && f in VALUE_UNION
                             && exists g :: g in VALUE_UNION && g in m.fields && Behind(db, m, g)))
  }

  /** One field name comes before another. */
  ghost predicate Precedes(names: seq<Field>, f: Field, g: Field) {
    exists i, j :: 0 <= i < j < |names| && names[i] == f && names[j] == g
  }

  /** All fields that lose, each once, in the order of their names. */
  ghost predicate ListsLosers(db: Db, m: Mutation, fs: seq<Field>)
    requires m.target.Table? && m.TheKey() in db.rows
  {
    && (forall f :: f in fs <==> Loses(db, m, f))
    && forall i, j :: 0 <= i < j < |fs| ==> Precedes(Names(m.target.kind), fs[i], fs[j])
  }

  /** A snapshot of the server's value for each of these columns. */
  ghost predicate ServerValues(vals: map<Field, Val>, fs: seq<Field>, snapshots: map<Field, Json>) {
    && (forall f :: f in snapshots <==> f in fs && f in vals)
    && forall f :: f in snapshots ==> Means(f, snapshots[f], vals[f])
  }

  /** The text a column will hold: the submitted one, if it does not lose, or the one it holds. */
  ghost function TextAfter(db: Db, m: Mutation, f: Field): string
    requires m.target.Table? && m.TheKey() in db.rows
  {
    if f in m.fields && !Loses(db, m, f) then Submitted(m, f) else Text(db.rows[m.TheKey()].vals, f)
  }

  /** What stands in the way of an update: a parent that is not there or lies below the location
      itself, or a label name in use. */
  ghost function UpdateObstacle(db: Db, m: Mutation): Option<Field>
    requires m.target.Table? && m.TheKey() in db.rows
  {
    match m.target.kind
    case Location =>
      var parent := TextAfter(db, m, ParentId);
      if parent != "" && (!IsLive(db, Location, parent) || Reaches(ParentsOf(db.rows), parent, m.entityId))
      then Some(ParentId) else None
    case Label => if NameInUse(db, TextAfter(db, m, Name), m.entityId) then Some(Name) else None
    case _ => None
  }

  /** The row at its next version: columns that are submitted and do not lose take the submitted
      value, all others stay, and exactly the changed ones are tracked at the new version. */
  ghost predicate RowUpdated(db: Db, db': Db, m: Mutation)
    requires m.target.Table? && m.TheKey() in db.rows
  {
    var key, cur := m.TheKey(), db.rows[m.TheKey()];
    && key in db'.rows && db'.counter == db.counter + 1
    && var row := db'.rows[key];
       && row == cur.(version := cur.version + 1, vals := row.vals, changeSeq := db.counter + 1)
       && row.vals.Keys == cur.vals.Keys
       && (forall f :: f in cur.vals ==>
             if f in m.fields && !Loses(db, m, f) then Means(f, m.fields[f], row.vals[f])
                  else row.vals[f] == cur.vals[f])
       && ChangesTracked(db, db', key)
       && OthersKept(db, db', {key})
  }

  /** The row is there for the item named, but everything submitted loses. */
  ghost predicate AllLose(db: Db, m: Mutation)
    requires m.target.Table? && m.TheKey() in db.rows
  {
    db.rows[m.TheKey()].version != m.base && forall f :: f in m.fields ==> Loses(db, m, f)
  }

  /** An update of a row that is there, decided. */
  ghost predicate UpdateDecided(db: Db, m: Mutation)
    requires m.target.Table? && m.TheKey() in db.rows
  {
    var k, cur, a := m.target.kind, db.rows[m.TheKey()], Apply(db, m);
    if AllLose(db, m) then
      && a.result.Ok? && OnRecord(db, a.db, m, a.result.outcome) && TablesKept(db, a.db)
      && var o := a.result.outcome;
         && o == Outcome(false, false, m.entityId, 0, o.conflicts, o.snapshots)
         && ListsLosers(db, m, o.conflicts) && ServerValues(cur.vals, o.conflicts, o.snapshots)
    else if exists f :: f in m.fields && f in Fields(k) && !Loses(db, m, f) && !Storable(f, m.fields[f])
    then a == Answer(db, Err(InvalidFieldValue))
    else if UpdateObstacle(db, m).Some? then
      && a.result.Ok? && |a.result.outcome.conflicts| > 0
      && a.result.outcome.conflicts[0] == UpdateObstacle(db, m).value
      && ListsLosers(db, m, a.result.outcome.conflicts[1..])
      && RefusedWith(db, m, a.result.outcome.conflicts)
    else if BreaksConstraint(db, k, f => TextAfter(db, m, f)) then a == Answer(db, Err(ConstraintViolation))
    else
      && a.result.Ok? && OnRecord(db, a.db, m, a.result.outcome) && RowUpdated(db, a.db, m)
      && var o := a.result.outcome;
         && o == Outcome(false, true, m.entityId, cur.version + 1, o.conflicts, o.snapshots)
         && ListsLosers(db, m, o.conflicts) && ServerValues(cur.vals, o.conflicts, o.snapshots)
  }

  /** An update, decided: refused if the row is not there for the item named or everything loses
      or something stands in the way, an error if a value cannot be stored or a constraint is
      broken, and else the one row rewritten, the fields that lose reported with the server's
      values. */
  lemma UpdateExact(db: Db, m: Mutation)
    requires Sound(db) && Fresh(db, m) && WellFormed(m) && 1 <= m.base && !m.target.kind.Stock?
    ensures if !IsLive(db, m.target.kind, m.entityId) || db.rows[m.TheKey()].owner != ItemNamed(m)
            then RefusedWith(db, m, [Entity])
            else UpdateDecided(db, m)
  {
    assert Handle(db, m) == PushUpdate(db, m, Owner(m));
    OwnerSubmitted(m);
    if !Live(db, m.TheKey()) || db.rows[m.TheKey()].owner != Owner(m) {
      RecordExact(db, db, m, Refused(m, [Entity]));
    } else {
      UpdateCases(db, m);
    }
  }

  lemma UpdateCases(db: Db, m: Mutation)
    requires Sound(db) && Fresh(db, m) && WellFormed(m) && 1 <= m.base && Live(db, m.TheKey())
    requires !m.target.kind.Stock? && db.rows[m.TheKey()].owner == Owner(m)
             && Handle(db, m) == PushUpdate(db, m, Owner(m))
    ensures UpdateDecided(db, m)
  {
    var cur := db.rows[m.TheKey()];
    var apply, conflicts := ApplySet(db, m, cur.version), Conflicts(db, m, cur.version);
    LosersListed(db, m);
    if cur.version != m.base && apply == {} {
      AllLoseExact(db, m, conflicts);
    } else {
      assert !AllLose(db, m);
      StorableApplied(db, m, apply);
      if Decodable(m, cur.vals.Keys * apply) {
        UpdateMerged(db, m, apply, conflicts);
      }
    }
  }

  lemma AllLoseExact(db: Db, m: Mutation, conflicts: seq<Field>)
    requires Sound(db) && Fresh(db, m) && m.target.Table? && m.TheKey() in db.rows && AllLose(db, m)
    requires ListsLosers(db, m, conflicts)
    requires Handle(db, m)
             == Done(db, Refused(m, conflicts).(snapshots := Snapshots(db.rows[m.TheKey()].vals, conflicts)))
    ensures UpdateDecided(db, m)
  {
    ServerValuesExact(db, m, conflicts);
    RecordExact(db, db, m, Refused(m, conflicts).(snapshots := Snapshots(db.rows[m.TheKey()].vals, conflicts)));
  }

  lemma StorableApplied(db: Db, m: Mutation, apply: set<Field>)
    requires Sound(db) && WellFormed(m) && m.TheKey() in db.rows
    requires forall f :: f in apply <==> f in m.fields && !Loses(db, m, f)
    ensures Decodable(m, db.rows[m.TheKey()].vals.Keys * apply) <==>
            !exists f :: f in m.fields && f in Fields(m.target.kind) && !Loses(db, m, f) && !Storable(f, m.fields[f])
  {
    var vals := db.rows[m.TheKey()].vals;
    assert SoundAt(db, m.TheKey());
    assert vals.Keys == Columns(m.target.kind);
    StorableAll(m, vals.Keys * apply);
  }

  /** The columns of a merged row, and the texts among them. */
  lemma MergedColumns(db: Db, m: Mutation, apply: set<Field>)
    requires Sound(db) && m.target.Table? && m.TheKey() in db.rows
    requires Decodable(m, db.rows[m.TheKey()].vals.Keys * apply)
    requires forall f :: f in apply <==> f in m.fields && !Loses(db, m, f)
    ensures var cur, vals := db.rows[m.TheKey()].vals, MergedVals(m, db.rows[m.TheKey()].vals, apply);
            && vals.Keys == cur.Keys && (forall f :: f in vals <==> f in Fields(m.target.kind))
            && (forall f :: f in cur ==>
                  if f in m.fields && !Loses(db, m, f) then Means(f, m.fields[f], vals[f]) else vals[f] == cur[f])
            && (forall f :: f in vals && TypeOf(f).TString? ==> Text(vals, f) == TextAfter(db, m, f))
  {
    var cur := db.rows[m.TheKey()].vals;
    assert SoundAt(db, m.TheKey());
    assert cur.Keys == Columns(m.target.kind);
    forall f | f in cur && f in apply ensures Means(f, m.fields[f], MergedVals(m, cur, apply)[f]) {
      DecodeExact(f, m.fields[f]);
    }
  }

  lemma UpdateMerged(db: Db, m: Mutation, apply: set<Field>, conflicts: seq<Field>)
    requires Sound(db) && Fresh(db, m) && WellFormed(m) && m.TheKey() in db.rows && !AllLose(db, m)
    requires Decodable(m, db.rows[m.TheKey()].vals.Keys * apply) && ListsLosers(db, m, conflicts)
    requires forall f :: f in apply <==> f in m.fields && !Loses(db, m, f)
    requires !exists f :: f in m.fields && f in Fields(m.target.kind) && !Loses(db, m, f) && !Storable(f, m.fields[f])
    requires var cur := db.rows[m.TheKey()];
             Handle(db, m) == Finished(db, m, MergedVals(m, cur.vals, apply), conflicts)
    ensures UpdateDecided(db, m)
  {
    var cur := db.rows[m.TheKey()];
    var vals := MergedVals(m, cur.vals, apply);
    MergedColumns(db, m, apply);
    UpdateGuardExact(db, m, vals);
    ConstraintsExact(db, m.target.kind, vals, f => TextAfter(db, m, f));
    if UpdateObstacle(db, m).Some? {
      var fs := [UpdateObstacle(db, m).value] + conflicts;
      assert fs[1..] == conflicts;
      RecordExact(db, db, m, Refused(m, fs));
    } else if ConstraintsHold(db, m.target.kind, vals) {
      UpdateWritten(db, m, vals, conflicts);
    }
  }

  /** What remains of an update once its columns are merged. */
  ghost function Finished(db: Db, m: Mutation, vals: map<Field, Val>, conflicts: seq<Field>): Handled
    requires m.target.Table? && m.TheKey() in db.rows
  {
    var k, cur := m.target.kind, db.rows[m.TheKey()];
    if UpdateGuard(db, k, m.entityId, vals) != []
    then Done(db, Refused(m, UpdateGuard(db, k, m.entityId, vals) + conflicts))
    else if !ConstraintsHold(db, k, vals) then Fail(ConstraintViolation)
    else Done(Update(db, m.TheKey(), vals), Accepted(m, cur.version + 1, conflicts, Snapshots(cur.vals, conflicts)))
  }

  lemma UpdateGuardExact(db: Db, m: Mutation, vals: map<Field, Val>)
    requires m.target.Table? && m.TheKey() in db.rows
    requires forall f :: f in Fields(m.target.kind) && TypeOf(f).TString? ==> Text(vals, f) == TextAfter(db, m, f)
    ensures UpdateGuard(db, m.target.kind, m.entityId, vals) ==
            match UpdateObstacle(db, m) case Some(f) => [f] case None => []
  {
    match m.target.kind
    case Location => assert ParentId in Fields(Location);
    case Label =>
      assert Name in Fields(Label);
      assert LabelNameTaken(db, Text(vals, Name), m.entityId) <==> NameInUse(db, Text(vals, Name), m.entityId);
    case _ =>
  }

  lemma UpdateWritten(db: Db, m: Mutation, vals: map<Field, Val>, conflicts: seq<Field>)
    requires Sound(db) && Fresh(db, m) && m.target.Table? && m.TheKey() in db.rows && ListsLosers(db, m, conflicts)
    requires var cur := db.rows[m.TheKey()];
             Handle(db, m) == Done(Update(db, m.TheKey(), vals),
                                   Accepted(m, cur.version + 1, conflicts, Snapshots(cur.vals, conflicts)))
    requires var cur := db.rows[m.TheKey()].vals;
             && vals.Keys == cur.Keys
             && (forall f :: f in cur ==>
                   if f in m.fields && !Loses(db, m, f) then Means(f, m.fields[f], vals[f]) else vals[f] == cur[f])
    ensures var a, cur := Apply(db, m), db.rows[m.TheKey()];
            && a.result.Ok? && OnRecord(db, a.db, m, a.result.outcome) && RowUpdated(db, a.db, m)
            && var o := a.result.outcome;
               && o == Outcome(false, true, m.entityId, cur.version + 1, o.conflicts, o.snapshots)
               && o.conflicts == conflicts && ServerValues(cur.vals, o.conflicts, o.snapshots)
  {
    var key, cur := m.TheKey(), db.rows[m.TheKey()];
    var db1 := Update(db, key, vals);
    ServerValuesExact(db, m, conflicts);
    RecordExact(db, db1, m, Accepted(m, cur.version + 1, conflicts, Snapshots(cur.vals, conflicts)));
    RowWritten(db, Apply(db, m).db, m, vals);
  }

  lemma RowWritten(db: Db, db': Db, m: Mutation, vals: map<Field, Val>)
    requires m.target.Table? && m.TheKey() in db.rows
    requires var db1 := Update(db, m.TheKey(), vals);
             db'.rows == db1.rows && db'.fv == db1.fv && db'.defs == db1.defs && db'.counter == db1.counter
    requires var cur := db.rows[m.TheKey()].vals;
             && vals.Keys == cur.Keys
             && (forall f :: f in cur ==>
                   if f in m.fields && !Loses(db, m, f) then Means(f, m.fields[f], vals[f]) else vals[f] == cur[f])
    ensures RowUpdated(db, db', m)
  {
    UpdateTracks(db, m.TheKey(), vals);
  }

  lemma BehindExact(db: Db, m: Mutation, f: Field)
    requires m.target.Table? && 1 <= m.base
    ensures Stale(db, m.TheKey(), m.base, f) <==> Behind(db, m, f)
  {
  }

  lemma LosersListed(db: Db, m: Mutation)
    requires WellFormed(m) && 1 <= m.base && m.TheKey() in db.rows
    ensures var v := db.rows[m.TheKey()].version;
            && ListsLosers(db, m, Conflicts(db, m, v))
            && forall f :: f in ApplySet(db, m, v) <==> f in m.fields && !Loses(db, m, f)
  {
    var names := Names(m.target.kind);
    if db.rows[m.TheKey()].version != m.base {
      forall f ensures f in ConflictSet(db, m) <==> Loses(db, m, f) {
        LosesExact(db, m, f);
      }
      KeepMembers(names, ConflictSet(db, m));
      KeepOrder(names, ConflictSet(db, m));
    }
  }

  lemma LosesExact(db: Db, m: Mutation, f: Field)
    requires m.target.Table? && 1 <= m.base && m.TheKey() in db.rows && db.rows[m.TheKey()].version != m.base
    ensures f in ConflictSet(db, m) <==> Loses(db, m, f)
  {
    var stale := set g | g in m.fields && Stale(db, m.TheKey(), m.base, g);
    forall g ensures Stale(db, m.TheKey(), m.base, g) <==> Behind(db, m, g) {
      BehindExact(db, m, g);
    }
    if g :| g in VALUE_UNION && g in m.fields && Behind(db, m, g) {
      assert g in stale * VALUE_UNION;
    } else {
      assert stale * VALUE_UNION == {};
    }
  }

  /** What is kept of a list stays in order. */
  lemma {:induction false} KeepOrder(names: seq<Field>, s: set<Field>)
    ensures var fs := Keep(names, s); forall i, j :: 0 <= i < j < |fs| ==> Precedes(names, fs[i], fs[j])
  {
    if names != [] {
      var n := |names| - 1;
      var init, fs := names[..n], Keep(names, s);
      KeepOrder(init, s);
      KeepMembers(init, s);
      forall i, j | 0 <= i < j < |fs| ensures Precedes(names, fs[i], fs[j]) {
        if j < |Keep(init, s)| {
          assert Precedes(init, fs[i], fs[j]);
          var a, b :| 0 <= a < b < |init| && init[a] == fs[i] && init[b] == fs[j];
          assert names[a] == fs[i] && names[b] == fs[j];
        } else {
          assert fs[i] in init;
          var a :| 0 <= a < |init| && init[a] == fs[i];
          assert names[a] == fs[i] && names[n] == fs[j];
        }
      }
    }
  }

  lemma ServerValuesExact(db: Db, m: Mutation, fs: seq<Field>)
    requires Sound(db) && m.target.Table? && m.TheKey() in db.rows
    ensures ServerValues(db.rows[m.TheKey()].vals, fs, Snapshots(db.rows[m.TheKey()].vals, fs))
  {
    var vals := db.rows[m.TheKey()].vals;
    assert SoundAt(db, m.TheKey());
    forall f | f in fs && f in vals ensures Means(f, Snapshot(vals[f]), vals[f]) {
      assert Typed(TypeOf(f), vals[f]);
    }
  }

  // ----- Stock adjustments -----

  /** The number a mutation submits for a field; zero when it submits none. */
  function SubmittedInt(m: Mutation, f: Field): int {
    if f in m.fields && m.fields[f].JInt? then m.fields[f].n else 0
  }

  /** A pushed adjustment, decided: refused if the id is in use or the item is not live, an error if
      a value cannot be stored, and else one posting with what was submitted. */
  lemma AdjustmentExact(db: Db, m: Mutation)
    requires Sound(db) && Fresh(db, m) && WellFormed(m) && m.target == Table(Stock)
    ensures var a, item := Apply(db, m), Submitted(m, ItemId);
            if m.TheKey() in db.rows then RefusedWith(db, m, [Entity])
            else if exists f :: f in m.fields && f in Fields(Stock) && !Storable(f, m.fields[f])
            then a == Answer(db, Err(InvalidFieldValue))
            else if !IsLive(db, Item, item) then RefusedWith(db, m, [ItemId])
            else
              && a.result == Ok(Outcome(false, true, m.entityId, 1, [], map[]))
                 && OnRecord(db, a.db, m, a.result.outcome)
              && Posted(db, a.db, m.entityId, item, SubmittedInt(m, Delta), Submitted(m, Reason), Submitted(m, Note))
  {
    assert Handle(db, m) == PushStock(db, m);
    OwnerSubmitted(m);
    StorableAll(m, Columns(Stock));
    if m.TheKey() in db.rows {
      RecordExact(db, db, m, Refused(m, [Entity]));
    } else if Decodable(m, Columns(Stock)) {
      if IsLive(db, Item, Owner(m)) {
        AdjustmentPosted(db, m);
      } else {
        RecordExact(db, db, m, Refused(m, [ItemId]));
      }
    }
  }

  lemma AdjustmentPosted(db: Db, m: Mutation)
    requires Sound(db) && Fresh(db, m) && WellFormed(m) && m.target == Table(Stock)
    requires m.TheKey() !in db.rows && Decodable(m, Columns(Stock)) && IsLive(db, Item, Owner(m))
    requires Handle(db, m) == PushStock(db, m)
    ensures var a, item := Apply(db, m), Submitted(m, ItemId);
            && a.result == Ok(Outcome(false, true, m.entityId, 1, [], map[])) && OnRecord(db, a.db, m, a.result.outcome)
            && Posted(db, a.db, m.entityId, item, SubmittedInt(m, Delta), Submitted(m, Reason), Submitted(m, Note))
  {
    var vals := CreatedVals(m, Stock);
    OwnerSubmitted(m);
    PostingSubmitted(m);
    var db1 := Adjust(db, m.entityId, Owner(m), Number64(vals, Delta), Text(vals, Reason), Text(vals, Note));
    AdjustPosts(db, m.entityId, Owner(m), Number64(vals, Delta), Text(vals, Reason), Text(vals, Note));
    RecordExact(db, db1, m, Accepted(m, 1, [], map[]));
    PostedAlike(db, db1, Apply(db, m).db, m.entityId, Owner(m), Number64(vals, Delta), Text(vals, Reason),
                Text(vals, Note));
  }

  lemma PostingSubmitted(m: Mutation)
    requires Decodable(m, Columns(Stock))
    ensures var vals := CreatedVals(m, Stock);
            && Number64(vals, Delta) == SubmittedInt(m, Delta)
            && Text(vals, Reason) == Submitted(m, Reason) && Text(vals, Note) == Submitted(m, Note)
  {
    CreatedColumns(m, Stock);
    assert Delta in Fields(Stock) && Reason in Fields(Stock) && Note in Fields(Stock);
  }

  lemma PostedAlike(db: Db, a: Db, b: Db, id: string, item: string, delta: int, reason: string, note: string)
    requires Key(Item, item) in db.rows && Posted(db, a, id, item, delta, reason, note)
    requires a.rows == b.rows && a.fv == b.fv && a.defs == b.defs && a.counter == b.counter
    ensures Posted(db, b, id, item, delta, reason, note)
  {
  }
}
