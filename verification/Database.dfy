/** One group's database as a value: the synced rows, the per-field versions, the mutation
    ledger, the conflict log and the change-sequence counter, with the row writes the SQL
    statements perform. */
module Database {
  import opened Wire
  import opened Forest

  datatype Key = Key(kind: Kind, id: string)

  /** A row of a synced table.  `owner` is `item_id` on satellites and empty elsewhere, `code`
      the short code of an item and empty elsewhere.  A tombstone has `live == false`. */
  datatype Row = Row(owner: string, version: int, live: bool, vals: map<Field, Val>, changeSeq: int, code: string)

  /** Primary key of a field_versions row. */
  datatype FieldKey = FieldKey(key: Key, field: Field)

  datatype LedgerRow = LedgerRow(kind: Kind, entityId: string, applied: bool)

  /** A row of the conflict log.  Absent snapshots are NULL columns. */
  datatype ConflictRow = ConflictRow(
    kind: Kind, entityId: string, field: Field,
    server: Option<Json>, losing: Option<Json>, mutation: string)

  /** `defs` holds the ids of the custom field definitions, which no step below changes. */
  datatype Db = Db(
    rows: map<Key, Row>,
    fv: map<FieldKey, int>,
    ledger: map<string, LedgerRow>,
    log: seq<ConflictRow>,
    counter: int,
    defs: set<string>)

  function Empty(defs: set<string>): Db { Db(map[], map[], map[], [], 0, defs) }

  predicate Live(db: Db, key: Key) { key in db.rows && db.rows[key].live }

  /** An untracked field counts as version 1. */
  function FieldVersion(db: Db, key: Key, f: Field): int {
    if FieldKey(key, f) in db.fv then db.fv[FieldKey(key, f)] else 1
  }

  function Text(vals: map<Field, Val>, f: Field): string {
    if f in vals && vals[f].Str? then vals[f].s else ""
  }

  function Number64(vals: map<Field, Val>, f: Field): (n: int)
    ensures IsInt64(n)
  {
    if f in vals && vals[f].Int? && IsInt64(vals[f].n) then vals[f].n else 0
  }

  /** The values a Go parameter struct for table `k` can hold. */
  predicate WellTyped(k: Kind, vals: map<Field, Val>) {
    && vals.Keys == (set f | f in Fields(k))
    && forall f :: f in vals ==> Typed(TypeOf(f), vals[f])
  }

  /** Ids of all location rows, tombstones included. */
  function LocationIds(rows: map<Key, Row>): set<string> {
    set key | key in rows && key.kind.Location? :: key.id
  }

  /** Parent edges of all location rows, tombstones included. */
  function ParentsOf(rows: map<Key, Row>): Parents<string> {
    map key | key in rows && key.kind.Location? && Text(rows[key].vals, ParentId) != ""
      :: key.id := Text(rows[key].vals, ParentId)
  }

  lemma ParentsOfAt(rows: map<Key, Row>, id: string)
    ensures id in ParentsOf(rows) <==>
            Key(Location, id) in rows && Text(rows[Key(Location, id)].vals, ParentId) != ""
    ensures id in ParentsOf(rows) ==> ParentsOf(rows)[id] == Text(rows[Key(Location, id)].vals, ParentId)
  {
    var key := Key(Location, id);
    if key in rows && Text(rows[key].vals, ParentId) != "" {
      assert key.id in ParentsOf(rows);
    }
  }

  // ----- Row writes -----

  /** Insert a row at version 1 under a fresh change_seq. */
  function Insert(db: Db, key: Key, owner: string, vals: map<Field, Val>, code: string): Db {
    db.(rows := db.rows[key := Row(owner, 1, true, vals, db.counter + 1, code)], counter := db.counter + 1)
  }

  function ChangedFields(before: map<Field, Val>, after: map<Field, Val>): set<Field> {
    set f | f in before && f in after && before[f] != after[f]
  }

  /** Field versions after the given fields of a row were written at `version`. */
  function Recorded(fv: map<FieldKey, int>, key: Key, fields: set<Field>, version: int): map<FieldKey, int> {
    fv + map f | f in fields :: FieldKey(key, f) := version
  }

  /** Update a row's columns: version and change_seq move on, and every field whose value
      changed is recorded at the new version. */
  function Update(db: Db, key: Key, vals: map<Field, Val>): Db
    requires key in db.rows
  {
    var cur := db.rows[key];
    db.(rows := db.rows[key := cur.(version := cur.version + 1, vals := vals, changeSeq := db.counter + 1)],
        fv := Recorded(db.fv, key, ChangedFields(cur.vals, vals), cur.version + 1),
        counter := db.counter + 1)
  }

  /** Tombstone the live rows among `keys` under one change_seq. */
  function Tombstone(db: Db, keys: set<Key>): Db {
    db.(rows := map key | key in db.rows ::
          if key in keys && db.rows[key].live
          then db.rows[key].(version := db.rows[key].version + 1, live := false, changeSeq := db.counter + 1)
          else db.rows[key],
        counter := db.counter + 1)
  }

  // ----- What the checks before a write look at -----

  predicate LabelNameTaken(db: Db, name: string, except: string) {
    exists key :: key in db.rows && key.kind.Label? && key.id != except && db.rows[key].live
                  && Text(db.rows[key].vals, Name) == name
  }

  /** Short codes are unique among live items. */
  predicate CodeTaken(db: Db, code: string) {
    exists key :: key in db.rows && key.kind.Item? && db.rows[key].live && db.rows[key].code == code
  }

  /** CHECK and FOREIGN KEY constraints on the columns of a written row.  A foreign key is
      satisfied by a tombstone. */
  predicate ConstraintsHold(db: Db, k: Kind, vals: map<Field, Val>) {
    match k
    case Item => Text(vals, LocationId) == "" || Key(Location, Text(vals, LocationId)) in db.rows
    case Identification => Text(vals, IdKind) in {"serial", "model", "asset_tag", "barcode", "other"}
    case CustomField =>
      && Text(vals, FieldType) in {"text", "number", "boolean", "date"}
      && (Text(vals, FieldDefId) == "" || Text(vals, FieldDefId) in db.defs)
    case _ => true
  }

  /** The conflict fields a create is refused with before anything is written, if any. */
  function CreateGuard(db: Db, k: Kind, owner: string, vals: map<Field, Val>): seq<Field> {
    match k
    case Item => []
    case Location =>
      if Text(vals, ParentId) == "" || Live(db, Key(Location, Text(vals, ParentId))) then [] else [ParentId]
    case Label => if LabelNameTaken(db, Text(vals, Name), "") then [Name] else []
    case _ => if Live(db, Key(Item, owner)) then [] else [ItemId]
  }

  /** The conflict fields an update of row `id` is refused with, if any. */
  ghost function UpdateGuard(db: Db, k: Kind, id: string, vals: map<Field, Val>): seq<Field> {
    match k
    case Location =>
      if Text(vals, ParentId) == "" then []
      else if !Live(db, Key(Location, Text(vals, ParentId))) then [ParentId]
      else if Reaches(ParentsOf(db.rows), Text(vals, ParentId), id) then [ParentId] else []
    case Label => if LabelNameTaken(db, Text(vals, Name), id) then [Name] else []
    case _ => []
  }
}
