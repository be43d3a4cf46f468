/** The effect of one pushed mutation and of a pushed batch, as functions of the database. */
module Push {
  import opened Wire
  import opened Database

  const MAX_CODE_ATTEMPTS := 10

  datatype Op = Upsert | Delete | OtherOp

  datatype Target = Table(kind: Kind) | Attachment | UnknownType

  /** A pushed mutation.  `codes` are the short codes that the random source would draw for it. */
  datatype Mutation = Mutation(
    id: string, target: Target, entityId: string, base: int,
    fields: map<Field, Json>, now: int, op: Op, codes: seq<string>)
  {
    function Code(i: nat): string { if i < |codes| then codes[i] else "" }
    function TheKey(): Key requires target.Table? { Key(target.kind, entityId) }
  }

  datatype Error =
    | MissingField | InvalidFieldValue | BadTimestamp | UnknownEntityType | UnknownField
    | AttachmentRejected | CreationOnly | UnknownOp | DeleteNotSupported | ConstraintViolation

  datatype Outcome = Outcome(
    skipped: bool, applied: bool, entityId: string, version: int,
    conflicts: seq<Field>, snapshots: map<Field, Json>)

  datatype Handled = Fail(error: Error) | Done(db: Db, outcome: Outcome)

  datatype Answer = Answer(db: Db, result: Result)

  datatype Result = Ok(outcome: Outcome) | Err(error: Error)

  function Refused(m: Mutation, conflicts: seq<Field>): Outcome {
    Outcome(false, false, m.entityId, 0, conflicts, map[])
  }

  function Accepted(m: Mutation, version: int, conflicts: seq<Field>, snapshots: map<Field, Json>): Outcome {
    Outcome(false, true, m.entityId, version, conflicts, snapshots)
  }

  function Skip(m: Mutation): Outcome { Outcome(true, false, m.entityId, 0, [], map[]) }

  // ----- Splitting a stale mutation's fields -----

  /** Some write after the mutation's base version is on record for `f`. */
  predicate Stale(db: Db, key: Key, base: int, f: Field) { FieldVersion(db, key, f) > base }

  /** The submitted fields that lose: the stale ones, and every submitted member of the
      custom-field value union as soon as one submitted member is stale. */
  function ConflictSet(db: Db, m: Mutation): set<Field>
    requires m.target.Table?
  {
    var stale := set f | f in m.fields && Stale(db, m.TheKey(), m.base, f);
    if m.target.kind.CustomField? && stale * VALUE_UNION != {}
    then stale + (m.fields.Keys * VALUE_UNION)
    else stale
  }

  /** The fields a mutation against a row at `version` is allowed to write. */
  function ApplySet(db: Db, m: Mutation, version: int): set<Field>
    requires m.target.Table?
  {
    if version == m.base then m.fields.Keys else m.fields.Keys - ConflictSet(db, m)
  }

  function Conflicts(db: Db, m: Mutation, version: int): seq<Field>
    requires m.target.Table?
  {
    if version == m.base then [] else Keep(Names(m.target.kind), ConflictSet(db, m))
  }

  /** Server values of the conflicting columns. */
  function Snapshots(vals: map<Field, Val>, conflicts: seq<Field>): map<Field, Json> {
    map f | f in conflicts && f in vals :: Snapshot(vals[f])
  }

  // ----- Column values a mutation leads to -----

  predicate Decodable(m: Mutation, fields: set<Field>) {
    forall f :: f in fields && f in m.fields ==> Decode(TypeOf(f), m.fields[f]).Some?
  }

  function Columns(k: Kind): set<Field> { set f | f in Fields(k) }

  function CreatedVals(m: Mutation, k: Kind): map<Field, Val>
    requires Decodable(m, Columns(k))
  {
    map f | f in Columns(k) ::
      if f in m.fields then Decode(TypeOf(f), m.fields[f]).value else Zero(TypeOf(f))
  }

  /** Applied columns take the pushed value, all others keep the server's. */
  function MergedVals(m: Mutation, current: map<Field, Val>, apply: set<Field>): map<Field, Val>
    requires Decodable(m, current.Keys * apply)
  {
    map f | f in current ::
      if f in apply && f in m.fields then Decode(TypeOf(f), m.fields[f]).value else current[f]
  }

  // ----- Entity handlers -----

  predicate KnownFields(m: Mutation, k: Kind) { forall f :: f in m.fields ==> f in Names(k) }

  ghost function PushEntity(db: Db, m: Mutation): Handled
    requires m.target.Table? && !m.target.kind.Stock?
  {
    var k := m.target.kind;
    if !KnownFields(m, k) then Fail(UnknownField)
    else if Satellite(k) && ItemId !in m.fields then Fail(MissingField)
    else if Satellite(k) && Decode(TString, m.fields[ItemId]).None? then Fail(InvalidFieldValue)
    else
      var owner := Owner(m);
      if m.base == 0 then PushCreate(db, m, owner) else PushUpdate(db, m, owner)
  }

  /** The item a satellite mutation names; empty for other tables. */
  function Owner(m: Mutation): string
    requires m.target.Table?
  {
    if Satellite(m.target.kind) && ItemId in m.fields && Decode(TString, m.fields[ItemId]).Some?
    then Decode(TString, m.fields[ItemId]).value.s else ""
  }

  function PushCreate(db: Db, m: Mutation, owner: string): Handled
    requires m.target.Table? && !m.target.kind.Stock?
  {
    var k := m.target.kind;
    if m.TheKey() in db.rows then Done(db, Refused(m, [Entity]))
    else if !Decodable(m, Columns(k)) then Fail(InvalidFieldValue)
    else
      var vals := CreatedVals(m, k);
      if k.Item? then CreateItem(db, m, vals, 0)
      else if CreateGuard(db, k, owner, vals) != [] then Done(db, Refused(m, CreateGuard(db, k, owner, vals)))
      else if !ConstraintsHold(db, k, vals) then Fail(ConstraintViolation)
      else Done(Insert(db, m.TheKey(), owner, vals, ""), Accepted(m, 1, [], map[]))
  }

  /** Draw short codes until one is free.  Every attempt allocates a change_seq, also the
      ones whose insert is refused. */
  function CreateItem(db: Db, m: Mutation, vals: map<Field, Val>, attempt: nat): Handled
    requires m.target.Table?
    decreases MAX_CODE_ATTEMPTS - attempt
  {
    if attempt >= MAX_CODE_ATTEMPTS then Done(db, Refused(m, [ShortCode]))
    else if CodeTaken(db, m.Code(attempt)) then CreateItem(db.(counter := db.counter + 1), m, vals, attempt + 1)
    else if !ConstraintsHold(db, Item, vals) then Fail(ConstraintViolation)
    else Done(Insert(db, m.TheKey(), "", vals, m.Code(attempt)), Accepted(m, 1, [], map[]))
  }

  ghost function PushUpdate(db: Db, m: Mutation, owner: string): Handled
    requires m.target.Table? && !m.target.kind.Stock?
  {
    var k := m.target.kind;
    var key := m.TheKey();
    if !Live(db, key) || db.rows[key].owner != owner then Done(db, Refused(m, [Entity]))
    else
      var cur := db.rows[key];
      var apply := ApplySet(db, m, cur.version);
      var conflicts := Conflicts(db, m, cur.version);
      var snapshots := Snapshots(cur.vals, conflicts);
      if cur.version != m.base && apply == {}
      then Done(db, Refused(m, conflicts).(snapshots := snapshots))
      else if !Decodable(m, cur.vals.Keys * apply) then Fail(InvalidFieldValue)
      else
        var vals := MergedVals(m, cur.vals, apply);
        if UpdateGuard(db, k, m.entityId, vals) != []
        then Done(db, Refused(m, UpdateGuard(db, k, m.entityId, vals) + conflicts))
        else if !ConstraintsHold(db, k, vals) then Fail(ConstraintViolation)
        else Done(Update(db, key, vals), Accepted(m, cur.version + 1, conflicts, snapshots))
  }

  /** The writes of one stock adjustment: the adjustment row and the item's new quantity,
      recorded as a field change, share one change_seq. */
  function Adjust(db: Db, id: string, item: string, delta: int, reason: string, note: string): Db
    requires Key(Item, item) in db.rows && IsInt64(delta)
  {
    var key := Key(Item, item);
    var quantity := Add64(Number64(db.rows[key].vals, Quantity), delta);
    var db1 := Update(db, key, db.rows[key].vals[Quantity := Int(quantity)]);
    db1.(rows := db1.rows[Key(Stock, id) :=
           Row(item, 1, true, StockVals(delta, reason, note, quantity), db1.counter, "")])
  }

  function StockVals(delta: int, reason: string, note: string, quantity: int): map<Field, Val> {
    map[Delta := Int(delta), Reason := Str(reason), Note := Str(note), ResultingQuantity := Int(quantity)]
  }

  function PushStock(db: Db, m: Mutation): Handled
    requires m.target == Table(Stock)
  {
    if m.base != 0 then Fail(CreationOnly)
    else if !KnownFields(m, Stock) then Fail(UnknownField)
    else if ItemId !in m.fields then Fail(MissingField)
    else if Decode(TString, m.fields[ItemId]).None? then Fail(InvalidFieldValue)
    else if m.TheKey() in db.rows then Done(db, Refused(m, [Entity]))
    else if !Decodable(m, Columns(Stock)) then Fail(InvalidFieldValue)
    else
      var vals := CreatedVals(m, Stock);
      if !Live(db, Key(Item, Owner(m))) then Done(db, Refused(m, [ItemId]))
      else Done(Adjust(db, m.entityId, Owner(m), Number64(vals, Delta), Text(vals, Reason), Text(vals, Note)),
                Accepted(m, 1, [], map[]))
  }

  // ----- One mutation, one batch -----

  ghost function Handle(db: Db, m: Mutation): Handled {
    match m.op
    case Delete => Fail(DeleteNotSupported)
    case OtherOp => Fail(UnknownOp)
    case Upsert =>
      match m.target
      case Attachment => Fail(AttachmentRejected)
      case UnknownType => Fail(UnknownEntityType)
      case Table(k) => if k.Stock? then PushStock(db, m) else PushEntity(db, m)
  }

  function Invalid(m: Mutation): Option<Error> {
    if m.id == "" || m.entityId == "" then Some(MissingField)
    else if m.base < 0 then Some(InvalidFieldValue)
    else if m.now <= 0 then Some(BadTimestamp)
    else None
  }

  function LogRow(m: Mutation, o: Outcome, f: Field): ConflictRow
    requires m.target.Table?
  {
    ConflictRow(m.target.kind, o.entityId, f,
                if f in o.snapshots then Some(o.snapshots[f]) else None,
                if !f.Entity? && f in m.fields then Some(m.fields[f]) else None,
                m.id)
  }

  function LogRows(m: Mutation, o: Outcome, fs: seq<Field>): seq<ConflictRow>
    requires m.target.Table?
  {
    seq(|fs|, i requires 0 <= i < |fs| => LogRow(m, o, fs[i]))
  }

  /** The ledger row and the conflict rows written beside an entity write. */
  function Record(db: Db, m: Mutation, o: Outcome): Db
    requires m.target.Table?
  {
    db.(ledger := db.ledger[m.id := LedgerRow(m.target.kind, o.entityId, o.applied)],
        log := db.log + LogRows(m, o, o.conflicts))
  }

  /** One mutation, all or nothing. */
  ghost function Apply(db: Db, m: Mutation): Answer {
    if Invalid(m).Some? then Answer(db, Err(Invalid(m).value))
    else if m.id in db.ledger then Answer(db, Ok(Skip(m)))
    else match Handle(db, m)
      case Fail(e) => Answer(db, Err(e))
      case Done(db1, o) => Answer(Record(db1, m, o), Ok(o))
  }

  /** Push mutations in order until one fails. */
  ghost function ApplyAll(db: Db, ms: seq<Mutation>): Db
    decreases |ms|
  {
    if ms == [] then db
    else
      var a := Apply(db, ms[0]);
      if a.result.Err? then db else ApplyAll(a.db, ms[1..])
  }

  /** No mutation of the batch fails. */
  ghost predicate Succeeds(db: Db, ms: seq<Mutation>)
    decreases |ms|
  {
    ms == [] || (Apply(db, ms[0]).result.Ok? && Succeeds(Apply(db, ms[0]).db, ms[1..]))
  }
}
