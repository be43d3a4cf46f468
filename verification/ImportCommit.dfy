/** Committing an import: the groups of attributes that the diff named are replaced, and a
    second diff against the same proposed row finds nothing. */
module ImportCommit {
  import opened Wire
  import opened Cells
  import opened Headers
  import opened Rows

  // ----- Tables of rows that hang off an item -----

  /** A row, with the versions tracked for its columns, which go by number. */
  datatype Sat<T> = Sat(item: string, live: bool, version: nat, changeSeq: nat, value: T, tracked: map<nat, nat>)

  /** The value of one column. */
  datatype Cell = Plain(s: string) | Nullable(o: Option<string>) | Number(n: int)

  function LiveValues<T>(table: seq<Sat<T>>, item: string): seq<T> {
    if table == [] then []
    else
      var n := |table| - 1;
      LiveValues(table[..n], item) + if table[n].live && table[n].item == item then [table[n].value] else []
  }

  function Bumped<T>(r: Sat<T>, stamp: nat): Sat<T> { r.(version := r.version + 1, changeSeq := stamp) }

  function Buried<T>(r: Sat<T>, item: string, stamp: nat): Sat<T> {
    if r.live && r.item == item then Bumped(r, stamp).(live := false) else r
  }

  predicate CellChanged(before: seq<Cell>, after: seq<Cell>, c: nat) {
    c < |before| && c < |after| && before[c] != after[c]
  }

  /** A live row of the item takes the value at its next version, recorded for changed columns. */
  function Reworked<T>(r: Sat<T>, item: string, value: T, stamp: nat, cells: T -> seq<Cell>): Sat<T> {
    if r.live && r.item == item then
      Bumped(r, stamp).(value := value, tracked := r.tracked + TrackedAt(cells(r.value), cells(value), r.version + 1))
    else r
  }

  function TrackedAt(before: seq<Cell>, after: seq<Cell>, version: nat): map<nat, nat> {
    map c: nat | c < |before| && CellChanged(before, after, c) :: version
  }

  /** A row changes one version at a time, and tracks a column at the new version exactly when the
      column changed. */
  ghost predicate RowTracks<T>(r: Sat<T>, r': Sat<T>, cells: T -> seq<Cell>) {
    r' == r || (
      && r'.version == r.version + 1
      && forall c: nat ::
           if CellChanged(cells(r.value), cells(r'.value), c) then c in r'.tracked && r'.tracked[c] == r'.version
           else (c in r'.tracked <==> c in r.tracked) && (c in r.tracked ==> r'.tracked[c] == r.tracked[c]))
  }

  /** Every row of a table does; new rows track nothing yet. */
  ghost predicate TableTracks<T>(a: seq<Sat<T>>, b: seq<Sat<T>>, cells: T -> seq<Cell>) {
    && |a| <= |b| && (forall i :: 0 <= i < |a| ==> RowTracks(a[i], b[i], cells))
    && (forall i :: |a| <= i < |b| ==> b[i].tracked == map[] && b[i].version == 1)
  }

  lemma ReworkedTracks<T>(r: Sat<T>, item: string, value: T, stamp: nat, cells: T -> seq<Cell>)
    ensures RowTracks(r, Reworked(r, item, value, stamp, cells), cells)
  {
  }

  lemma BuriedTracks<T>(r: Sat<T>, item: string, stamp: nat, cells: T -> seq<Cell>)
    ensures RowTracks(r, Buried(r, item, stamp), cells)
  {
  }

  /** The cascade: all live rows of the item become tombstones. */
  function Tombstoned<T>(table: seq<Sat<T>>, item: string, stamp: nat): seq<Sat<T>> {
    seq(|table|, i requires 0 <= i < |table| => Buried(table[i], item, stamp))
  }

  function Rewritten<T>(table: seq<Sat<T>>, item: string, value: T, stamp: nat, cells: T -> seq<Cell>): seq<Sat<T>> {
    seq(|table|, i requires 0 <= i < |table| => Reworked(table[i], item, value, stamp, cells))
  }

  /** A table grows, and every row that is new or different carries a sequence number allocated
      since `lo`. */
  ghost predicate Stamped<T>(before: seq<Sat<T>>, after: seq<Sat<T>>, lo: nat, hi: nat) {
    && |before| <= |after|
    && forall i :: 0 <= i < |after| ==> (i < |before| && after[i] == before[i]) || lo < after[i].changeSeq <= hi
  }

  /** One item's live values replaced, under one sequence number; other items' kept. */
  ghost predicate TableWritten<T>(a: seq<Sat<T>>, b: seq<Sat<T>>, item: string, values: seq<T>, stamp: nat)
    requires stamp > 0
  {
    && (forall x :: LiveValues(b, x) == if x == item then values else LiveValues(a, x))
    && Stamped(a, b, stamp - 1, stamp)
  }

  /** The item's live rows become tombstones at their next version, and one new row at version 1
      follows for each value, all under one sequence number. */
  ghost predicate RowsReplaced<T>(a: seq<Sat<T>>, b: seq<Sat<T>>, item: string, values: seq<T>, stamp: nat) {
    && |b| == |a| + |values|
    && (forall i :: 0 <= i < |a| ==>
          b[i] == if a[i].live && a[i].item == item
                  then a[i].(version := a[i].version + 1, live := false, changeSeq := stamp) else a[i])
    && (forall j :: 0 <= j < |values| ==> b[|a| + j] == Sat(item, true, 1, stamp, values[j], map[]))
  }

  ghost predicate HasLive<T>(table: seq<Sat<T>>, item: string) {
    exists i :: 0 <= i < |table| && table[i].live && table[i].item == item
  }

  /** With a value proposed, the item's live row takes it at its next version, or a new row does if
      there is none; without one the live row becomes a tombstone. */
  ghost predicate RowUpserted<T>(a: seq<Sat<T>>, b: seq<Sat<T>>, item: string, proposed: Option<T>, stamp: nat) {
    if proposed.None? then RowsReplaced(a, b, item, [], stamp)
    else if !HasLive(a, item) then b == a + [Sat(item, true, 1, stamp, proposed.value, map[])]
    else
      && |b| == |a|
      && forall i :: 0 <= i < |a| ==>
           b[i] == if a[i].live && a[i].item == item
                   then a[i].(version := a[i].version + 1, changeSeq := stamp, value := proposed.value, tracked :=
                              b[i].tracked)
                   else a[i]
  }

  lemma {:induction false} LiveExact<T>(table: seq<Sat<T>>, item: string)
    ensures LiveValues(table, item) == [] <==> !HasLive(table, item)
  {
    if table != [] {
      var n := |table| - 1;
      LiveExact(table[..n], item);
      assert forall i :: 0 <= i < n ==> table[..n][i] == table[i];
      assert HasLive(table, item) <==> HasLive(table[..n], item) || (table[n].live && table[n].item == item);
    }
  }

  ghost predicate AtMostOne<T>(table: seq<Sat<T>>) { forall x :: |LiveValues(table, x)| <= 1 }

  lemma {:induction false} TombstonedLive<T>(table: seq<Sat<T>>, item: string, stamp: nat, x: string)
    ensures LiveValues(Tombstoned(table, item, stamp), x) == if x == item then [] else LiveValues(table, x)
  {
    if table != [] {
      var n := |table| - 1;
      TombstonedLive(table[..n], item, stamp, x);
      assert Tombstoned(table, item, stamp)[..n] == Tombstoned(table[..n], item, stamp);
    }
  }

  lemma {:induction false} RewrittenLive<T>(table: seq<Sat<T>>, item: string, value: T, stamp: nat,
                                            cells: T -> seq<Cell>, x: string)
    ensures |LiveValues(Rewritten(table, item, value, stamp, cells), x)| == |LiveValues(table, x)|
    ensures x != item ==> LiveValues(Rewritten(table, item, value, stamp, cells), x) == LiveValues(table, x)
    ensures forall v :: x == item && v in LiveValues(Rewritten(table, item, value, stamp, cells), x) ==> v == value
  {
    if table != [] {
      var n := |table| - 1;
      RewrittenLive(table[..n], item, value, stamp, cells, x);
      assert Rewritten(table, item, value, stamp, cells)[..n] == Rewritten(table[..n], item, value, stamp, cells);
    }
  }

  lemma AppendLive<T>(table: seq<Sat<T>>, r: Sat<T>, x: string)
    ensures LiveValues(table + [r], x) == LiveValues(table, x) + if r.live && r.item == x then [r.value] else []
  {
    assert (table + [r])[..|table|] == table;
  }

  /** replaceIdentifications, replaceCustomFields and the edges of replaceLabels: tombstone all,
      then insert the proposed values.  An insert that the table's constraints reject fails. */
  method ReplaceRows<T>(table: seq<Sat<T>>, item: string, values: seq<T>, stamp: nat, fits: T -> bool)
    returns (ok: bool, t: seq<Sat<T>>)
    requires stamp > 0
    ensures ok <==> forall v :: v in values ==> fits(v)
    ensures ok ==> TableWritten(table, t, item, values, stamp) && RowsReplaced(table, t, item, values, stamp)
  {
    t := Tombstoned(table, item, stamp);
    forall x ensures LiveValues(t, x) == if x == item then [] else LiveValues(table, x) {
      TombstonedLive(table, item, stamp, x);
    }
    for i := 0 to |values|
      invariant forall x :: LiveValues(t, x) == if x == item then values[..i] else LiveValues(table, x)
      invariant Stamped(table, t, stamp - 1, stamp)
      invariant forall v :: v in values[..i] ==> fits(v)
      invariant RowsReplaced(table, t, item, values[..i], stamp)
    {
      if !fits(values[i]) {
        return false, table;
      }
      var r := Sat(item, true, 1, stamp, values[i], map[]);
      forall x ensures LiveValues(t + [r], x) == if x == item then values[..i + 1] else LiveValues(table, x) {
        AppendLive(t, r, x);
      }
      t := t + [r];
    }
    assert values[..|values|] == values;
    ok := true;
  }

  function AsSeq<T>(o: Option<T>): seq<T> { match o case Some(v) => [v] case None => [] }

  /** upsertWarranty and its two siblings: delete, create, update or nothing, with at most one
      live row per item; an update records the columns it changes. */
  method Upsert<T>(table: seq<Sat<T>>, item: string, proposed: Option<T>, stamp: nat, cells: T -> seq<Cell>)
    returns (t: seq<Sat<T>>)
    requires stamp > 0 && AtMostOne(table)
    ensures TableWritten(table, t, item, AsSeq(proposed), stamp) && AtMostOne(t)
    ensures TableTracks(table, t, cells) && RowUpserted(table, t, item, proposed, stamp)
  {
    LiveExact(table, item);
    var current := LiveValues(table, item);
    if proposed.None? {
      if current == [] {
        return table;
      }
      t := Tombstoned(table, item, stamp);
      TombstonedExact(table, item, stamp, cells);
    } else if current == [] {
      t := table + [Sat(item, true, 1, stamp, proposed.value, map[])];
      forall x ensures LiveValues(t, x) == if x == item then [proposed.value] else LiveValues(table, x) {
        AppendLive(table, Sat(item, true, 1, stamp, proposed.value, map[]), x);
      }
    } else {
      t := Rewritten(table, item, proposed.value, stamp, cells);
      RewrittenExact(table, item, proposed.value, stamp, cells);
    }
  }

  lemma TombstonedExact<T>(table: seq<Sat<T>>, item: string, stamp: nat, cells: T -> seq<Cell>)
    requires stamp > 0 && AtMostOne(table)
    ensures var t := Tombstoned(table, item, stamp);
            && TableWritten(table, t, item, [], stamp) && AtMostOne(t) && TableTracks(table, t, cells)
            && RowsReplaced(table, t, item, [], stamp)
  {
    var t := Tombstoned(table, item, stamp);
    forall x ensures LiveValues(t, x) == if x == item then [] else LiveValues(table, x) {
      TombstonedLive(table, item, stamp, x);
    }
    forall i | 0 <= i < |table| ensures RowTracks(table[i], t[i], cells) {
      BuriedTracks(table[i], item, stamp, cells);
    }
  }

  lemma RewrittenExact<T>(table: seq<Sat<T>>, item: string, value: T, stamp: nat, cells: T -> seq<Cell>)
    requires stamp > 0 && AtMostOne(table) && HasLive(table, item) && LiveValues(table, item) != []
    ensures var t := Rewritten(table, item, value, stamp, cells);
            && TableWritten(table, t, item, [value], stamp) && AtMostOne(t) && TableTracks(table, t, cells)
            && RowUpserted(table, t, item, Some(value), stamp)
  {
    var t := Rewritten(table, item, value, stamp, cells);
    forall x ensures LiveValues(t, x) == if x == item then [value] else LiveValues(table, x) {
      RewrittenLive(table, item, value, stamp, cells, x);
      if x == item {
        assert LiveValues(t, x)[0] in LiveValues(t, x);
      }
    }
    forall i | 0 <= i < |table| ensures RowTracks(table[i], t[i], cells) {
      ReworkedTracks(table[i], item, value, stamp, cells);
    }
  }

  lemma StampedTrans<T>(a: seq<Sat<T>>, b: seq<Sat<T>>, c: seq<Sat<T>>, lo: nat, mid: nat, hi: nat)
    requires lo <= mid <= hi && Stamped(a, b, lo, mid) && Stamped(b, c, mid, hi)
    ensures Stamped(a, c, lo, hi)
  {
  }

  // ----- Custom fields: when does a rewrite settle? -----

  lemma {:induction false} SameAdHoc(values: seq<FieldValue>, live: set<string>, live': set<string>, key: AdHoc)
    requires forall v :: v in values ==> (IsAdHoc(v, live) <==> IsAdHoc(v, live'))
    ensures ByKey(values, live, key) == ByKey(values, live', key)
  {
    if values != [] {
      SameAdHoc(values[..|values| - 1], live, live', key);
    }
  }

  lemma SameIsEqual(o: Option<FieldValue>)
    ensures SameValue(o, o)
  {
  }

  /** Written custom fields, read back in the order they were inserted, compare equal to the
      proposed ones exactly when these are linked to live definitions only. */
  lemma WrittenSettles(values: seq<FieldValue>, live: set<string>)
    ensures FieldsEqual(values, values, live) <==> LinkedIds(values) <= live
  {
    var linked := LinkedIds(values);
    if linked <= live {
      forall id ensures SameValue(if id in live then ByDef(values, id) else None, ByDef(values, id)) {
        SameIsEqual(ByDef(values, id));
        if id !in linked {
          NotLinked(values, id);
        }
      }
      forall key ensures SameValue(ByKey(values, live, key), ByKey(values, linked, key)) {
        SameAdHoc(values, live, linked, key);
        SameIsEqual(ByKey(values, linked, key));
      }
    }
    if FieldsEqual(values, values, live) {
      forall id | id in linked ensures id in live {
        var v :| v in values && v.defId == Some(id);
        ByDefMember(values, id);
        assert SameValue(if id in live then ByDef(values, id) else None, ByDef(values, id));
      }
    }
  }

  // ----- A remark: any other read order -----

  predicate SameTarget(v: FieldValue, w: FieldValue) {
    v.defId == w.defId && (v.defId.None? ==> KeyOf(v) == KeyOf(w))
  }

  /** Proposed values are linked to live definitions only, and two of them for one target agree. */
  ghost predicate Unambiguous(values: seq<FieldValue>, live: set<string>) {
    && LinkedIds(values) <= live
    && forall v, w :: v in values && w in values && SameTarget(v, w) ==> ValueEqual(v, w)
  }

  lemma SameMembers<T>(s: seq<T>, t: seq<T>)
    requires multiset(s) == multiset(t)
    ensures forall x :: x in s <==> x in t
  {
    forall x ensures x in s <==> x in t {
      assert x in multiset(s) <==> x in multiset(t);
    }
  }

  lemma WrittenFieldsEqual(values: seq<FieldValue>, stored: seq<FieldValue>, live: set<string>)
    requires Unambiguous(values, live) && multiset(stored) == multiset(values)
    ensures FieldsEqual(stored, values, live)
  {
    SameMembers(stored, values);
    var linked := LinkedIds(values);
    forall id ensures SameValue(if id in live then ByDef(stored, id) else None, ByDef(values, id)) {
      ByDefMember(stored, id);
      ByDefMember(values, id);
    }
    forall key ensures SameValue(ByKey(stored, live, key), ByKey(values, linked, key)) {
      ByKeyMember(stored, live, key);
      ByKeyMember(values, linked, key);
      assert forall v :: v in values ==>
               (IsAdHoc(v, live) <==> v.defId.None?) && (IsAdHoc(v, linked) <==> v.defId.None?);
    }
  }

  lemma {:induction false} FirstByKey(v: FieldValue, rest: seq<FieldValue>, live: set<string>)
    requires IsAdHoc(v, live)
    ensures ByKey([v] + rest, live, KeyOf(v)) == Some(v)
  {
    if rest == [] {
      assert ([v] + rest)[..0] == [];
    } else {
      var n := |rest| - 1;
      FirstByKey(v, rest[..n], live);
      assert ([v] + rest)[..n + 1] == [v] + rest[..n];
    }
  }

  /** Written values compare equal in whatever order they are read back. */
  ghost predicate Settles(values: seq<FieldValue>, live: set<string>) {
    forall stored :: multiset(stored) == multiset(values) ==> FieldsEqual(stored, values, live)
  }

  lemma MoveToEnds<T>(values: seq<T>, i: nat)
    requires i < |values|
    ensures var rest := values[..i] + values[i + 1..];
            multiset(rest + [values[i]]) == multiset(values) && multiset([values[i]] + rest) == multiset(values)
  {
    assert values == values[..i] + [values[i]] + values[i + 1..];
  }

  lemma LastByDef(rest: seq<FieldValue>, v: FieldValue, id: string)
    requires v.defId == Some(id)
    ensures ByDef(rest + [v], id) == Some(v)
  {
  }

  lemma SettledById(values: seq<FieldValue>, stored: seq<FieldValue>, live: set<string>, id: string)
    requires Settles(values, live) && multiset(stored) == multiset(values)
    ensures SameValue(if id in live then ByDef(stored, id) else None, ByDef(values, id))
  {
    assert FieldsEqual(stored, values, live);
  }

  lemma SettledByKey(values: seq<FieldValue>, stored: seq<FieldValue>, live: set<string>, key: AdHoc)
    requires Settles(values, live) && multiset(stored) == multiset(values)
    ensures SameValue(ByKey(stored, live, key), ByKey(values, LinkedIds(values), key))
  {
    assert FieldsEqual(stored, values, live);
  }

  /** A value that can be read back in any position equals the one that counts among the
      proposed values. */
  lemma LinkedAgrees(values: seq<FieldValue>, live: set<string>, i: nat, id: string)
    requires Settles(values, live) && i < |values| && values[i].defId == Some(id)
    ensures id in live && SameValue(Some(values[i]), ByDef(values, id))
  {
    var rest := values[..i] + values[i + 1..];
    MoveToEnds(values, i);
    SettledById(values, rest + [values[i]], live, id);
    LastByDef(rest, values[i], id);
    ByDefMember(values, id);
    assert values[i] in values;
  }

  lemma AdHocAgrees(values: seq<FieldValue>, live: set<string>, i: nat)
    requires Settles(values, live) && i < |values| && values[i].defId.None?
    ensures SameValue(Some(values[i]), ByKey(values, LinkedIds(values), KeyOf(values[i])))
  {
    var rest := values[..i] + values[i + 1..];
    MoveToEnds(values, i);
    SettledByKey(values, [values[i]] + rest, live, KeyOf(values[i]));
    FirstByKey(values[i], rest, live);
  }

  lemma SettledAgree(values: seq<FieldValue>, live: set<string>, i: nat, j: nat)
    requires Settles(values, live) && i < |values| && j < |values| && SameTarget(values[i], values[j])
    ensures ValueEqual(values[i], values[j])
  {
    if values[i].defId.Some? {
      LinkedAgrees(values, live, i, values[i].defId.value);
      LinkedAgrees(values, live, j, values[i].defId.value);
    } else {
      AdHocAgrees(values, live, i);
      AdHocAgrees(values, live, j);
    }
  }

  /** Were the rows read back in just any order, they would have to be unambiguous as well. */
  lemma FieldsSettle(values: seq<FieldValue>, live: set<string>)
    ensures Settles(values, live) <==> Unambiguous(values, live)
  {
    if Unambiguous(values, live) {
      forall stored | multiset(stored) == multiset(values) ensures FieldsEqual(stored, values, live) {
        WrittenFieldsEqual(values, stored, live);
      }
    }
    if Settles(values, live) {
      forall id | id in LinkedIds(values) ensures id in live {
        var i :| 0 <= i < |values| && values[i].defId == Some(id);
        LinkedAgrees(values, live, i, id);
      }
      forall v, w | v in values && w in values && SameTarget(v, w) ensures ValueEqual(v, w) {
        var i :| 0 <= i < |values| && values[i] == v;
        var j :| 0 <= j < |values| && values[j] == w;
        SettledAgree(values, live, i, j);
      }
    }
  }

  // ----- The state a commit works on -----

  /** An item's own row, with its short code and the versions tracked for its columns. */
  datatype Core = Core(name: string, description: string, quantity: int, location: Option<string>, code: string,
                       version: nat, changeSeq: nat, tracked: map<Group, nat>)

  datatype LabelRow = LabelRow(name: string, live: bool, changeSeq: nat)

  /** What foreign keys lead to: the ids of all locations and field definitions of the group,
      tombstones included. */
  datatype Known = Known(locations: set<string>, defs: set<string>)

  /** Live items, labels and satellite tables of one group, and its sequence counter. */
  datatype State = State(
    counter: nat, items: map<string, Core>, labels: map<string, LabelRow>, edges: seq<Sat<string>>,
    idents: seq<Sat<Ident>>, fields: seq<Sat<FieldValue>>,
    warranties: seq<Sat<Warranty>>, purchases: seq<Sat<Purchase>>, sales: seq<Sat<Sale>>,
    known: Known)

  /** Names of the live labels among these ids. */
  function NamesOf(labels: map<string, LabelRow>, ids: seq<string>): set<string> {
    set l | l in ids && l in labels && labels[l].live :: labels[l].name
  }

  function LabelNames(st: State, item: string): set<string> { NamesOf(st.labels, LiveValues(st.edges, item)) }

  function NullIfEmpty(s: string): Option<string> { if s == "" then None else Some(s) }

  function StoredWarranty(w: Option<StagedWarranty>): Option<Warranty> {
    match w
    case None => None
    case Some(w) => Some(Warranty(w.holder, w.provider, NullIfEmpty(w.startsOn), NullIfEmpty(w.expiresOn),
                                  if w.isLifetime then 1 else 0, w.notes))
  }

  function StoredPurchase(p: Option<StagedPurchase>): Option<Purchase> {
    match p
    case None => None
    case Some(p) => Some(Purchase(p.vendor, NullIfEmpty(p.purchasedOn), p.priceMinor, p.orderReference, p.notes))
  }

  function StoredSale(s: Option<StagedSale>): Option<Sale> {
    match s
    case None => None
    case Some(s) => Some(Sale(s.buyerName, NullIfEmpty(s.soldOn), s.priceMinor, s.notes))
  }

  /** An empty text is stored as NULL; nothing else is lost. */
  ghost predicate NullOrText(o: Option<string>, text: string) { SameText(o, text) && o != Some("") }

  lemma StoredExact(w: StagedWarranty, p: StagedPurchase, e: StagedSale)
    ensures StoredWarranty(None) == None && StoredPurchase(None) == None && StoredSale(None) == None
    ensures StoredWarranty(Some(w)).Some? && StoredPurchase(Some(p)).Some? && StoredSale(Some(e)).Some?
    ensures var x := StoredWarranty(Some(w)).value;
            && SameWarranty(x, w) && (x.isLifetime == 0 || x.isLifetime == 1)
            && NullOrText(x.startsOn, w.startsOn) && NullOrText(x.expiresOn, w.expiresOn)
    ensures var x := StoredPurchase(Some(p)).value; SamePurchase(x, p) && NullOrText(x.purchasedOn, p.purchasedOn)
    ensures var x := StoredSale(Some(e)).value; SameSale(x, e) && NullOrText(x.soldOn, e.soldOn)
  {
  }

  function NewCore(s: Staged, code: string, stamp: nat): Core {
    Core(s.name, s.description, s.quantity, NullIfEmpty(OrEmpty(s.location)), code, 1, stamp, map[])
  }

  predicate ColumnChanged(c: Core, d: Core, g: Group) {
    match g
    case GName => c.name != d.name
    case GDescription => c.description != d.description
    case GQuantity => c.quantity != d.quantity
    case GLocation => c.location != d.location
    case _ => false
  }

  /** The four columns written, and the changed ones recorded at the new version. */
  function UpdatedCore(c: Core, s: Staged, stamp: nat): Core {
    var d := c.(name := s.name, description := s.description, quantity := s.quantity,
                location := NullIfEmpty(OrEmpty(s.location)), version := c.version + 1, changeSeq := stamp);
    d.(tracked := c.tracked +
                  map g | g in {GName, GDescription, GQuantity, GLocation} && ColumnChanged(c, d, g) :: d.version)
  }

  /** An item's row moves on by one version at a time, keeps its short code, and tracks a column
      at the new version exactly when the column changed. */
  ghost predicate CoreStep(c: Core, d: Core) {
    d == c || (
      && d.version == c.version + 1 && d.code == c.code
      && forall g :: if ColumnChanged(c, d, g) then g in d.tracked && d.tracked[g] == d.version
                     else (g in d.tracked <==> g in c.tracked) && (g in c.tracked ==> d.tracked[g] == c.tracked[g]))
  }

  lemma UpdatedCoreSteps(c: Core, s: Staged, stamp: nat)
    ensures CoreStep(c, UpdatedCore(c, s, stamp)) && CoreHolds(UpdatedCore(c, s, stamp), s)
  {
  }

  /** The columns hold what the row proposes. */
  predicate CoreHolds(c: Core, s: Staged) {
    c.name == s.name && c.description == s.description && c.quantity == s.quantity
      && c.location == NullIfEmpty(OrEmpty(s.location))
  }

  /** What the exporter may read back for an item: labels and identifications in any order,
      custom fields in the order they were inserted. */
  ghost predicate Reads(st: State, item: string, row: Row) {
    && item in st.items && row.id == item
    && row.name == st.items[item].name && row.description == st.items[item].description
    && row.quantity == st.items[item].quantity && row.location == st.items[item].location
    && (set x | x in row.labels) == LabelNames(st, item)
    && multiset(row.idents) == multiset(LiveValues(st.idents, item))
    && row.fields == LiveValues(st.fields, item)
    && AsSeq(row.warranty) == LiveValues(st.warranties, item)
    && AsSeq(row.purchase) == LiveValues(st.purchases, item)
    && AsSeq(row.sale) == LiveValues(st.sales, item)
  }

  /** An attribute group of an item holds what the row proposes. */
  ghost predicate Holds(st: State, item: string, s: Staged, g: Group) {
    match g
    case GName => item in st.items && st.items[item].name == s.name
    case GDescription => item in st.items && st.items[item].description == s.description
    case GQuantity => item in st.items && st.items[item].quantity == s.quantity
    case GLocation => item in st.items && OrEmpty(st.items[item].location) == OrEmpty(s.location)
    case GLabels => LabelNames(st, item) == (set x | x in s.labels)
    case GIdents => LiveValues(st.idents, item) == s.idents
    case GWarranty => LiveValues(st.warranties, item) == AsSeq(StoredWarranty(s.warranty))
    case GPurchase => LiveValues(st.purchases, item) == AsSeq(StoredPurchase(s.purchase))
    case GSale => LiveValues(st.sales, item) == AsSeq(StoredSale(s.sale))
    case GFields => LiveValues(st.fields, item) == s.fields
  }

  /** An attribute group of an item is the same in two states. */
  ghost predicate Kept(a: State, b: State, item: string, g: Group) {
    match g
    case GName => item in a.items && item in b.items && a.items[item].name == b.items[item].name
    case GDescription => item in a.items && item in b.items && a.items[item].description == b.items[item].description
    case GQuantity => item in a.items && item in b.items && a.items[item].quantity == b.items[item].quantity
    case GLocation => item in a.items && item in b.items
                      && OrEmpty(a.items[item].location) == OrEmpty(b.items[item].location)
    case GLabels => LabelNames(a, item) == LabelNames(b, item)
    case GIdents => LiveValues(a.idents, item) == LiveValues(b.idents, item)
    case GWarranty => LiveValues(a.warranties, item) == LiveValues(b.warranties, item)
    case GPurchase => LiveValues(a.purchases, item) == LiveValues(b.purchases, item)
    case GSale => LiveValues(a.sales, item) == LiveValues(b.sales, item)
    case GFields => LiveValues(a.fields, item) == LiveValues(b.fields, item)
  }

  predicate TouchesCore(changes: set<Group>) {
    GName in changes || GDescription in changes || GQuantity in changes || GLocation in changes
  }

  // ----- What the tables' constraints demand of a row -----

  /** The foreign key of an item's location column. */
  predicate LocationFits(known: Known, s: Staged) {
    NullIfEmpty(OrEmpty(s.location)).Some? ==> OrEmpty(s.location) in known.locations
  }

  /** The check on identification kinds. */
  predicate IdentFits(id: Ident) { id.kind in KINDS }

  /** The checks on a custom field's type and truth value, and its foreign key. */
  predicate FieldFits(known: Known, v: FieldValue) {
    && v.fieldType in TYPES && (v.defId.Some? ==> v.defId.value in known.defs)
    && (v.boolean.Some? ==> v.boolean.value == 0 || v.boolean.value == 1)
  }

  predicate SatellitesFit(known: Known, s: Staged, changes: set<Group>) {
    && (GIdents in changes ==> forall id :: id in s.idents ==> IdentFits(id))
    && (GFields in changes ==> forall v :: v in s.fields ==> FieldFits(known, v))
  }

  /** Whatever is written of the row when these groups are rewritten meets the constraints. */
  predicate RowFits(known: Known, s: Staged, changes: set<Group>) {
    (TouchesCore(changes) ==> LocationFits(known, s)) && SatellitesFit(known, s, changes)
  }

  /** The groups a change list rewrites: the four core columns go together. */
  predicate Rewrites(changes: set<Group>, g: Group) { g in changes || (IsCore(g) && TouchesCore(changes)) }

  /** The effect of committing one row: the named groups hold the proposal, everything else of
      this item and all other items are kept. */
  ghost predicate Written(a: State, b: State, item: string, s: Staged, changes: set<Group>) {
    && (forall g :: Rewrites(changes, g) ==> Holds(b, item, s, g))
    && (item in a.items ==> forall g :: !Rewrites(changes, g) ==> Kept(a, b, item, g))
    && (forall x, g :: x in a.items && x != item ==> Kept(a, b, x, g))
    && (forall x :: x in a.items ==> x in b.items)
  }

  /** The item itself: named groups hold the proposal, the others are kept. */
  ghost predicate Patched(a: State, b: State, item: string, s: Staged, changes: set<Group>) {
    && (forall g :: Rewrites(changes, g) ==> Holds(b, item, s, g))
    && (forall g :: !Rewrites(changes, g) ==> Kept(a, b, item, g))
  }

  /** Every row written gets a sequence number above the counter before and at most the counter
      after, so a reader at watermark `a.counter` sees all of them. */
  ghost predicate Watermarked(a: State, b: State) {
    && a.counter <= b.counter
    && (forall x :: x in b.items ==>
        (x in a.items && b.items[x] == a.items[x]) || a.counter < b.items[x].changeSeq <= b.counter)
    && (forall l :: l in b.labels ==>
        (l in a.labels && b.labels[l] == a.labels[l]) || a.counter < b.labels[l].changeSeq <= b.counter)
    && Stamped(a.edges, b.edges, a.counter, b.counter) && Stamped(a.idents, b.idents, a.counter, b.counter)
    && Stamped(a.fields, b.fields, a.counter, b.counter) && Stamped(a.warranties, b.warranties, a.counter, b.counter)
    && Stamped(a.purchases, b.purchases, a.counter, b.counter) && Stamped(a.sales, b.sales, a.counter, b.counter)
  }

  lemma WatermarkedTrans(a: State, b: State, c: State)
    requires Watermarked(a, b) && Watermarked(b, c)
    ensures Watermarked(a, c)
  {
    StampedTrans(a.edges, b.edges, c.edges, a.counter, b.counter, c.counter);
    StampedTrans(a.idents, b.idents, c.idents, a.counter, b.counter, c.counter);
    StampedTrans(a.fields, b.fields, c.fields, a.counter, b.counter, c.counter);
    StampedTrans(a.warranties, b.warranties, c.warranties, a.counter, b.counter, c.counter);
    StampedTrans(a.purchases, b.purchases, c.purchases, a.counter, b.counter, c.counter);
    StampedTrans(a.sales, b.sales, c.sales, a.counter, b.counter, c.counter);
  }

  // ----- Diff and patch converge -----

  function Without<T>(s: seq<T>, j: nat): seq<T>
    requires j < |s|
  {
    s[..j] + s[j + 1..]
  }

  lemma PullOut<T>(s: seq<T>, j: nat)
    requires j < |s|
    ensures multiset(s) == multiset{s[j]} + multiset(Without(s, j))
  {
    assert s == s[..j] + [s[j]] + s[j + 1..];
  }

  lemma MappedPullOut<T, U>(f: T -> U, s: seq<T>, j: nat)
    requires j < |s|
    ensures multiset(Mapped(f, s)) == multiset{f(s[j])} + multiset(Mapped(f, Without(s, j)))
  {
    PullOut(Mapped(f, s), j);
    assert Without(Mapped(f, s), j) == Mapped(f, Without(s, j));
  }

  lemma {:induction false} MappedPermutation<T, U>(f: T -> U, a: seq<T>, b: seq<T>)
    requires multiset(a) == multiset(b)
    ensures multiset(Mapped(f, a)) == multiset(Mapped(f, b))
    decreases |a|
  {
    assert |a| == |multiset(a)| == |multiset(b)| == |b|;
    if a != [] {
      assert a[0] in multiset(b);
      var j :| 0 <= j < |b| && b[j] == a[0];
      PullOut(a, 0);
      PullOut(b, j);
      assert multiset(Without(a, 0)) == multiset(a) - multiset{a[0]} == multiset(Without(b, j));
      MappedPermutation(f, Without(a, 0), Without(b, j));
      MappedPullOut(f, a, 0);
      MappedPullOut(f, b, j);
    }
  }

  lemma WarrantyHeld(w: Option<Warranty>, s: Option<StagedWarranty>)
    requires AsSeq(w) == AsSeq(StoredWarranty(s))
    ensures WarrantyFields(w) == StagedWarrantyFields(s)
  {
    assert w.Some? ==> AsSeq(w)[0] == w.value;
    assert s.Some? ==> AsSeq(StoredWarranty(s))[0] == StoredWarranty(s).value;
  }

  lemma PurchaseHeld(p: Option<Purchase>, s: Option<StagedPurchase>)
    requires AsSeq(p) == AsSeq(StoredPurchase(s))
    ensures PurchaseFields(p) == StagedPurchaseFields(s)
  {
    assert p.Some? ==> AsSeq(p)[0] == p.value;
    assert s.Some? ==> AsSeq(StoredPurchase(s))[0] == StoredPurchase(s).value;
  }

  lemma SaleHeld(p: Option<Sale>, s: Option<StagedSale>)
    requires AsSeq(p) == AsSeq(StoredSale(s))
    ensures SaleFields(p) == StagedSaleFields(s)
  {
    assert p.Some? ==> AsSeq(p)[0] == p.value;
    assert s.Some? ==> AsSeq(StoredSale(s))[0] == StoredSale(s).value;
  }

  lemma SameOption<T>(a: Option<T>, b: Option<T>)
    requires AsSeq(a) == AsSeq(b)
    ensures a == b
  {
    assert a.Some? ==> AsSeq(a)[0] == a.value;
    assert b.Some? ==> AsSeq(b)[0] == b.value;
  }

  /** A group that holds the proposal does not differ from it, unless it is the custom fields and
      one of these is linked to a definition that is not live. */
  lemma HeldIsEqual(st: State, item: string, s: Staged, g: Group, row: Row, live: set<string>)
    requires Reads(st, item, row) && Holds(st, item, s, g)
    ensures Differs(row, s, live, g) <==> g.GFields? && !(LinkedIds(s.fields) <= live)
  {
    match g
    case GIdents => MappedPermutation(IdentKey, row.idents, s.idents);
    case GFields => WrittenSettles(s.fields, live);
    case GWarranty => WarrantyHeld(row.warranty, s.warranty);
    case GPurchase => PurchaseHeld(row.purchase, s.purchase);
    case GSale => SaleHeld(row.sale, s.sale);
    case _ =>
  }

  /** A group that was equal and is kept is still equal. */
  lemma KeptIsEqual(a: State, b: State, item: string, s: Staged, g: Group, row: Row, row': Row, live: set<string>)
    requires Reads(a, item, row) && Reads(b, item, row') && Kept(a, b, item, g) && !Differs(row, s, live, g)
    ensures !Differs(row', s, live, g)
  {
    match g
    case GIdents => MappedPermutation(IdentKey, row.idents, row'.idents);
    case GWarranty => SameOption(row.warranty, row'.warranty);
    case GPurchase => SameOption(row.purchase, row'.purchase);
    case GSale => SameOption(row.sale, row'.sale);
    case _ =>
  }

  /** Diff and patch converge: after committing the groups that the diff named, the item read
      again differs from the proposed row in nothing, except in rewritten custom fields exactly
      when one of these is linked to a definition that is not live; and what the diff did not
      name is as before. */
  lemma DiffPatchConverges(a: State, b: State, item: string, s: Staged, changes: set<Group>, live: set<string>,
                           row: Row, row': Row)
    requires Reads(a, item, row) && Reads(b, item, row') && Patched(a, b, item, s, changes)
    requires forall g :: g in changes <==> Differs(row, s, live, g)
    ensures forall g :: Differs(row', s, live, g) <==>
              g == GFields && GFields in changes && !(LinkedIds(s.fields) <= live)
    ensures forall g :: g !in changes ==> Kept(a, b, item, g)
  {
    forall g: Group
      ensures Differs(row', s, live, g) <==> g == GFields && GFields in changes && !(LinkedIds(s.fields) <= live)
    {
      if Rewrites(changes, g) {
        HeldIsEqual(b, item, s, g, row', live);
      } else {
        KeptIsEqual(a, b, item, s, g, row, row', live);
      }
    }
  }

  // ----- The satellite part of a commit -----

  ghost predicate WrittenIf<T>(on: bool, a: seq<Sat<T>>, b: seq<Sat<T>>, item: string, values: seq<T>, stamp: nat)
    requires stamp > 0
  {
    if on then TableWritten(a, b, item, values, stamp) else b == a
  }

  method ReplaceIf<T>(on: bool, table: seq<Sat<T>>, item: string, values: seq<T>, stamp: nat, fits: T -> bool)
    returns (ok: bool, t: seq<Sat<T>>)
    requires stamp > 0
    ensures ok <==> (on ==> forall v :: v in values ==> fits(v))
    ensures ok ==> WrittenIf(on, table, t, item, values, stamp)
    ensures ok ==> if on then RowsReplaced(table, t, item, values, stamp) else t == table
  {
    ok, t := true, table;
    if on {
      ok, t := ReplaceRows(table, item, values, stamp, fits);
    }
  }

  method UpsertIf<T>(on: bool, table: seq<Sat<T>>, item: string, proposed: Option<T>, stamp: nat,
                     cells: T -> seq<Cell>) returns (t: seq<Sat<T>>)
    requires stamp > 0 && AtMostOne(table)
    ensures WrittenIf(on, table, t, item, AsSeq(proposed), stamp) && AtMostOne(t) && TableTracks(table, t, cells)
    ensures if on then RowUpserted(table, t, item, proposed, stamp) else t == table
  {
    t := table;
    if on {
      t := Upsert(table, item, proposed, stamp, cells);
    }
  }

  /** The satellite groups named hold the proposal; all others, and all other items, are kept. */
  ghost predicate GroupsWritten(a: State, b: State, item: string, s: Staged, changes: set<Group>, stamp: nat)
    requires stamp > 0
  {
    && LabelsWritten(GLabels in changes, a.labels, a.edges, b.labels, b.edges, item, s.labels)
    && Stamped(a.edges, b.edges, stamp - 1, stamp) && LabelsStamped(a.labels, b.labels, a.counter, b.counter)
    && WrittenIf(GIdents in changes, a.idents, b.idents, item, s.idents, stamp)
    && WrittenIf(GFields in changes, a.fields, b.fields, item, s.fields, stamp)
    && WrittenIf(GWarranty in changes, a.warranties, b.warranties, item, AsSeq(StoredWarranty(s.warranty)), stamp)
    && WrittenIf(GPurchase in changes, a.purchases, b.purchases, item, AsSeq(StoredPurchase(s.purchase)), stamp)
    && WrittenIf(GSale in changes, a.sales, b.sales, item, AsSeq(StoredSale(s.sale)), stamp)
  }

  function Members<T>(s: seq<T>): set<T> { set x | x in s }

  ghost predicate LabelsWritten(on: bool, labels: map<string, LabelRow>, edges: seq<Sat<string>>,
                                labels': map<string, LabelRow>, edges': seq<Sat<string>>, item: string,
                                names: seq<string>) {
    forall x :: NamesOf(labels', LiveValues(edges', x)) ==
                if x == item && on then Members(names) else NamesOf(labels, LiveValues(edges, x))
  }

  /** The labels part of a commit: rows are added, none is changed. */
  ghost predicate LabelsStamped(labels: map<string, LabelRow>, labels': map<string, LabelRow>, lo: nat, hi: nat) {
    && lo <= hi
    && forall l :: l in labels' ==> (l in labels && labels'[l] == labels[l]) || lo < labels'[l].changeSeq <= hi
  }

  function WarrantyCells(w: Warranty): seq<Cell> {
    [Plain(w.holder), Plain(w.provider), Nullable(w.startsOn), Nullable(w.expiresOn), Number(w.isLifetime),
     Plain(w.notes)]
  }

  function PurchaseCells(p: Purchase): seq<Cell> {
    [Plain(p.vendor), Nullable(p.purchasedOn), Number(p.priceMinor), Plain(p.orderReference), Plain(p.notes)]
  }

  function SaleCells(s: Sale): seq<Cell> {
    [Plain(s.buyerName), Nullable(s.soldOn), Number(s.priceMinor), Plain(s.notes)]
  }

  /** All block rows track the columns that change. */
  ghost predicate BlocksTrack(a: State, b: State) {
    && TableTracks(a.warranties, b.warranties, WarrantyCells) && TableTracks(a.purchases, b.purchases, PurchaseCells)
    && TableTracks(a.sales, b.sales, SaleCells)
  }

  /** The item's own row: rewritten, inserted, or left alone. */
  ghost predicate CoreWritten(a: State, b: State, item: string, s: Staged, core: bool) {
    if core then exists c :: CoreHolds(c, s) && b.items == a.items[item := c]
    else b.items == a.items
  }

  lemma WrittenElsewhere<T>(on: bool, a: seq<Sat<T>>, b: seq<Sat<T>>, item: string, values: seq<T>, stamp: nat)
    requires stamp > 0 && WrittenIf(on, a, b, item, values, stamp)
    ensures Stamped(a, b, stamp - 1, stamp)
    ensures forall x :: LiveValues(b, x) == if x == item && on then values else LiveValues(a, x)
  {
  }

  lemma RewrittenHolds(a: State, b: State, item: string, s: Staged, changes: set<Group>, g: Group, stamp: nat)
    requires stamp > 0 && GroupsWritten(a, b, item, s, changes, stamp)
             && CoreWritten(a, b, item, s, TouchesCore(changes))
    requires Rewrites(changes, g)
    ensures Holds(b, item, s, g)
  {
  }

  lemma OthersKept(a: State, b: State, item: string, s: Staged, changes: set<Group>, x: string, g: Group, stamp: nat)
    requires stamp > 0 && GroupsWritten(a, b, item, s, changes, stamp)
             && CoreWritten(a, b, item, s, TouchesCore(changes))
    requires x in a.items && !(x == item && Rewrites(changes, g))
    ensures Kept(a, b, x, g)
  {
  }

  lemma GroupsAreWritten(a: State, b: State, item: string, s: Staged, changes: set<Group>, stamp: nat)
    requires stamp > 0 && GroupsWritten(a, b, item, s, changes, stamp)
             && CoreWritten(a, b, item, s, TouchesCore(changes))
    ensures Written(a, b, item, s, changes)
  {
    forall g | Rewrites(changes, g) ensures Holds(b, item, s, g) {
      RewrittenHolds(a, b, item, s, changes, g, stamp);
    }
    forall x, g: Group | x in a.items && !(x == item && Rewrites(changes, g)) ensures Kept(a, b, x, g) {
      OthersKept(a, b, item, s, changes, x, g, stamp);
    }
  }

  lemma StampedWider<T>(a: seq<Sat<T>>, b: seq<Sat<T>>, stamp: nat, hi: nat)
    requires 0 < stamp <= hi && Stamped(a, b, stamp - 1, stamp)
    ensures Stamped(a, b, stamp - 1, hi)
  {
  }

  lemma WrittenStamped<T>(on: bool, a: seq<Sat<T>>, b: seq<Sat<T>>, item: string, values: seq<T>, stamp: nat, hi: nat)
    requires 0 < stamp <= hi && WrittenIf(on, a, b, item, values, stamp)
    ensures Stamped(a, b, stamp - 1, hi)
  {
    WrittenElsewhere(on, a, b, item, values, stamp);
    StampedWider(a, b, stamp, hi);
  }

  lemma GroupsAreWatermarked(a: State, b: State, item: string, s: Staged, changes: set<Group>, stamp: nat)
    requires 0 < stamp <= a.counter && GroupsWritten(a, b, item, s, changes, stamp)
    requires forall x :: x in b.items ==> (x in a.items && b.items[x] == a.items[x]) || b.items[x].changeSeq == stamp
    ensures Watermarked(a.(counter := stamp - 1), b)
  {
    var hi := b.counter;
    StampedWider(a.edges, b.edges, stamp, hi);
    WrittenStamped(GIdents in changes, a.idents, b.idents, item, s.idents, stamp, hi);
    WrittenStamped(GFields in changes, a.fields, b.fields, item, s.fields, stamp, hi);
    WrittenStamped(GWarranty in changes, a.warranties, b.warranties, item, AsSeq(StoredWarranty(s.warranty)), stamp,
                   hi);
    WrittenStamped(GPurchase in changes, a.purchases, b.purchases, item, AsSeq(StoredPurchase(s.purchase)), stamp, hi);
    WrittenStamped(GSale in changes, a.sales, b.sales, item, AsSeq(StoredSale(s.sale)), stamp, hi);
  }
}
