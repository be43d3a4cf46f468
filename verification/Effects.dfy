/** The vocabulary in which effects on the tables are written out: what a row's change leaves
    alone, what is tracked, and what stands against a write. */
module Effects {
  import opened Wire
  import opened Forest
  import opened Database
  import opened Push

  // ----- What a submitted value means in a column -----

  /** The JSON value stands for this column value; null stands for the empty one. */
  predicate Means(f: Field, j: Json, v: Val) {
    match f
    case Quantity => v.Int? && IsInt64(v.n) && (j == JInt(v.n) || (j.JNull? && v.n == 0))
    case Delta => v.Int? && IsInt64(v.n) && (j == JInt(v.n) || (j.JNull? && v.n == 0))
    case ResultingQuantity => v.Int? && IsInt64(v.n) && (j == JInt(v.n) || (j.JNull? && v.n == 0))
    case TextValue => v.NullStr? && if v.os.Some? then j == JString(v.os.value) else j.JNull?
    case DateValue => v.NullStr? && if v.os.Some? then j == JString(v.os.value) else j.JNull?
    case NumberValue => v.NullReal? && (match v.ox
                                        case Some(x) => j == JReal(x) || (j.JInt? && j.n as real == x)
                                        case None => j.JNull?)
    case BoolValue => v.NullBool? && if v.ob.Some? then j == JBool(v.ob.value) else j.JNull?
    case _ => v.Str? && (j == JString(v.s) || (j.JNull? && v.s == ""))
  }

  /** What a column holds when nothing is submitted for it. */
  function Blank(f: Field): Val {
    match f
    case Quantity => Int(0)
    case Delta => Int(0)
    case ResultingQuantity => Int(0)
    case TextValue => NullStr(None)
    case DateValue => NullStr(None)
    case NumberValue => NullReal(None)
    case BoolValue => NullBool(None)
    case _ => Str("")
  }

  lemma DecodeExact(f: Field, j: Json)
    ensures forall v :: Decode(TypeOf(f), j) == Some(v) <==> Means(f, j, v)
    ensures Means(f, JNull, Blank(f)) && Zero(TypeOf(f)) == Blank(f)
  {
  }

  /** The value can be stored in the column. */
  predicate Storable(f: Field, j: Json) {
    match f
    case Quantity => j.JNull? || (j.JInt? && IsInt64(j.n))
    case Delta => j.JNull? || (j.JInt? && IsInt64(j.n))
    case ResultingQuantity => j.JNull? || (j.JInt? && IsInt64(j.n))
    case NumberValue => j.JNull? || j.JInt? || j.JReal?
    case BoolValue => j.JNull? || j.JBool?
    case _ => j.JNull? || j.JString?
  }

  lemma StorableExact(f: Field, j: Json)
    ensures Storable(f, j) <==> Decode(TypeOf(f), j).Some?
  {
  }

  /** The text a mutation submits for a field; empty when it submits none. */
  function Submitted(m: Mutation, f: Field): string {
    if f in m.fields && m.fields[f].JString? then m.fields[f].s else ""
  }

  lemma StorableAll(m: Mutation, fields: set<Field>)
    ensures Decodable(m, fields) <==> !exists f :: f in m.fields && f in fields && !Storable(f, m.fields[f])
  {
    forall f | f in m.fields ensures Storable(f, m.fields[f]) <==> Decode(TypeOf(f), m.fields[f]).Some? {
      StorableExact(f, m.fields[f]);
    }
  }

  /** The columns of a created row, and the texts among them. */
  lemma CreatedColumns(m: Mutation, k: Kind)
    requires Decodable(m, Columns(k))
    ensures var vals := CreatedVals(m, k);
            && (forall f :: f in vals <==> f in Fields(k))
            && (forall f :: f in vals ==> if f in m.fields then Means(f, m.fields[f], vals[f]) else vals[f] == Blank(f))
            && (forall f :: f in vals && TypeOf(f).TString? ==> Text(vals, f) == Submitted(m, f))
  {
    forall f | f in Columns(k)
      ensures if f in m.fields then Means(f, m.fields[f], CreatedVals(m, k)[f]) else CreatedVals(m, k)[f] == Blank(f)
    {
      DecodeExact(f, if f in m.fields then m.fields[f] else JNull);
    }
  }

  // ----- What stays and what is tracked -----

  /** Every other row is kept, with the versions tracked for it. */
  ghost predicate OthersKept(db: Db, db': Db, keys: set<Key>) {
    && (forall x :: x !in keys ==> (x in db'.rows <==> x in db.rows) && (x in db.rows ==> db'.rows[x] == db.rows[x]))
    && (forall t: FieldKey :: t.key !in keys ==>
          (t in db'.fv <==> t in db.fv) && (t in db.fv ==> db'.fv[t] == db.fv[t]))
    && db'.defs == db.defs
  }

  /** Exactly the columns that differ are tracked at the row's new version. */
  ghost predicate ChangesTracked(db: Db, db': Db, key: Key)
    requires key in db.rows && key in db'.rows
  {
    forall f :: var t := FieldKey(key, f);
      if f in db.rows[key].vals && f in db'.rows[key].vals && db.rows[key].vals[f] != db'.rows[key].vals[f]
      then t in db'.fv && db'.fv[t] == db'.rows[key].version
      else (t in db'.fv <==> t in db.fv) && (t in db.fv ==> db'.fv[t] == db.fv[t])
  }

  /** Writing a row's columns: the row at its next version, the changed columns tracked. */
  lemma UpdateTracks(db: Db, key: Key, vals: map<Field, Val>)
    requires key in db.rows
    ensures var db' := Update(db, key, vals);
            && key in db'.rows && ChangesTracked(db, db', key) && OthersKept(db, db', {key})
  {
    var cur := db.rows[key].vals;
    var db' := Update(db, key, vals);
    forall f ensures FieldKey(key, f) in db'.fv <==> FieldKey(key, f) in db.fv || f in ChangedFields(cur, vals) {
    }
    forall t: FieldKey | t.key !in {key} ensures t in db'.fv <==> t in db.fv {
    }
  }

  // ----- What stands against a write -----

  /** A live item has the short code. */
  ghost predicate CodeInUse(db: Db, code: string) {
    exists x :: x in db.rows && x.kind.Item? && db.rows[x].live && db.rows[x].code == code
  }

  ghost predicate IsLive(db: Db, k: Kind, id: string) { Key(k, id) in db.rows && db.rows[Key(k, id)].live }

  /** Another live label has the name. */
  ghost predicate NameInUse(db: Db, name: string, except: string) {
    exists x :: x in db.rows && x.kind.Label? && x.id != except && db.rows[x].live
      && Text(db.rows[x].vals, Name) == name
  }

  /** The texts break a constraint of the table: a location or definition that does not exist, or
      a word outside a closed list. */
  predicate BreaksConstraint(db: Db, k: Kind, text: Field -> string) {
    match k
    case Item => text(LocationId) != "" && Key(Location, text(LocationId)) !in db.rows
    case Identification => text(IdKind) !in {"serial", "model", "asset_tag", "barcode", "other"}
    case CustomField =>
      || text(FieldType) !in {"text", "number", "boolean", "date"}
      || (text(FieldDefId) != "" && text(FieldDefId) !in db.defs)
    case _ => false
  }

  lemma ConstraintsExact(db: Db, k: Kind, vals: map<Field, Val>, text: Field -> string)
    requires forall f :: f in Fields(k) && TypeOf(f).TString? ==> Text(vals, f) == text(f)
    ensures ConstraintsHold(db, k, vals) <==> !BreaksConstraint(db, k, text)
  {
    match k
    case Item => assert LocationId in Fields(Item);
    case Identification => assert IdKind in Fields(Identification);
    case CustomField => assert FieldType in Fields(CustomField) && FieldDefId in Fields(CustomField);
    case _ =>
  }

  // ----- Stock adjustments -----

  /** Equal as 64-bit integers. */
  ghost predicate Wraps(sum: int, q: int) { IsInt64(q) && exists n: int :: sum == q + n * 0x1_0000_0000_0000_0000 }

  /** The four columns of a posting. */
  ghost predicate PostingVals(vals: map<Field, Val>, delta: int, reason: string, note: string, q: int) {
    && (forall f :: f in vals <==> f == Delta || f == Reason || f == Note || f == ResultingQuantity)
    && vals[Delta] == Int(delta) && vals[Reason] == Str(reason) && vals[Note] == Str(note)
    && vals[ResultingQuantity] == Int(q)
  }

  /** One new stock row, the item at its next version with the new quantity, and nothing else. */
  ghost predicate Posted(db: Db, db': Db, id: string, item: string, delta: int, reason: string, note: string)
    requires Key(Item, item) in db.rows
  {
    && Key(Stock, id) !in db.rows && Key(Stock, id) in db'.rows
    && exists q :: Wraps(Number64(db.rows[Key(Item, item)].vals, Quantity) + delta, q)
         && PostingVals(db'.rows[Key(Stock, id)].vals, delta, reason, note, q) && PostedRows(db, db', id, item, q)
  }

  ghost predicate PostedRows(db: Db, db': Db, id: string, item: string, q: int)
    requires Key(Item, item) in db.rows && Key(Stock, id) in db'.rows
  {
    var key, post, cur := Key(Item, item), Key(Stock, id), db.rows[Key(Item, item)];
    && key in db'.rows && db'.counter == db.counter + 1
    && db'.rows[post] == Row(item, 1, true, db'.rows[post].vals, db'.counter, "")
    && db'.rows[key] == cur.(version := cur.version + 1, vals := cur.vals[Quantity := Int(q)], changeSeq := db'.counter)
    && ChangesTracked(db, db', key) && OthersKept(db, db', {key, post}) && VersionsKept(db, db', post)
  }

  /** The versions tracked for a row are kept. */
  ghost predicate VersionsKept(db: Db, db': Db, key: Key) {
    forall f :: (FieldKey(key, f) in db'.fv <==> FieldKey(key, f) in db.fv)
                && (FieldKey(key, f) in db.fv ==> db'.fv[FieldKey(key, f)] == db.fv[FieldKey(key, f)])
  }

  lemma AdjustPosts(db: Db, id: string, item: string, delta: int, reason: string, note: string)
    requires Key(Item, item) in db.rows && Key(Stock, id) !in db.rows && IsInt64(delta)
    ensures Posted(db, Adjust(db, id, item, delta, reason, note), id, item, delta, reason, note)
  {
    var key := Key(Item, item);
    var q := Add64(Number64(db.rows[key].vals, Quantity), delta);
    AddWraps(Number64(db.rows[key].vals, Quantity), delta);
    AdjustRows(db, id, item, delta, reason, note);
    PostingExact(delta, reason, note, q);
    assert Adjust(db, id, item, delta, reason, note).rows[Key(Stock, id)].vals == StockVals(delta, reason, note, q);
  }

  lemma PostingExact(delta: int, reason: string, note: string, q: int)
    ensures PostingVals(StockVals(delta, reason, note, q), delta, reason, note, q)
  {
  }

  lemma AddWraps(a: int, d: int)
    requires IsInt64(a) && IsInt64(d)
    ensures Wraps(a + d, Add64(a, d))
  {
    var n := if a + d > INT64_MAX then 1 else if a + d < INT64_MIN then -1 else 0;
    assert a + d == Add64(a, d) + n * 0x1_0000_0000_0000_0000;
  }

  lemma AdjustRows(db: Db, id: string, item: string, delta: int, reason: string, note: string)
    requires Key(Item, item) in db.rows && Key(Stock, id) !in db.rows && IsInt64(delta)
    ensures var q := Add64(Number64(db.rows[Key(Item, item)].vals, Quantity), delta);
            PostedRows(db, Adjust(db, id, item, delta, reason, note), id, item, q)
  {
    var key := Key(Item, item);
    var q := Add64(Number64(db.rows[key].vals, Quantity), delta);
    UpdateTracks(db, key, db.rows[key].vals[Quantity := Int(q)]);
  }
}
