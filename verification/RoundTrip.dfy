/** Export followed by import changes nothing: every exported row comes back as an update with
    an empty diff. */
module RoundTrip {
  import opened Wire
  import opened Sequences
  import opened Escape
  import opened Cells
  import opened Headers
  import opened Numerals
  import opened Rows
  import opened Export
  import opened Import

  // ----- Rows an export can carry -----

  /** A custom field value of a known type; a date is a calendar day or empty. */
  predicate TypedValue(v: FieldValue) {
    v.fieldType in TYPES && (v.fieldType == "date" ==> DateAccepted(OrEmpty(v.date)))
  }

  /** The custom field values that count are well typed, and have their definition's type. */
  ghost predicate FieldsOk(values: seq<FieldValue>, defs: seq<Def>) {
    && (forall d :: d in defs && ByDef(values, d.id).Some? ==>
          TypedValue(ByDef(values, d.id).value) && ByDef(values, d.id).value.fieldType == d.fieldType)
    && (forall key :: ByKey(values, LiveIds(defs), key).Some? ==> TypedValue(ByKey(values, LiveIds(defs), key).value))
  }

  /** A value is printed when its cell is not empty. */
  function Printed(ft: FloatText, v: Option<FieldValue>): Option<FieldValue> {
    if v.Some? && FieldCell(ft, v.value) != "" then v else None
  }

  /** No value that counts prints as an empty cell, which the import would skip. */
  ghost predicate AllPrinted(ft: FloatText, values: seq<FieldValue>, live: set<string>) {
    && (forall id :: id in live && ByDef(values, id).Some? ==> FieldCell(ft, ByDef(values, id).value) != "")
    && (forall key :: ByKey(values, live, key).Some? ==> FieldCell(ft, ByKey(values, live, key).value) != "")
  }

  predicate ListsOk(row: Row) {
    && (forall i :: 0 <= i < |row.labels| ==> row.labels[i] != "")
    && (forall i :: 0 <= i < |row.idents| ==> row.idents[i].kind in KINDS && row.idents[i].value != "")
    && (forall i :: 0 <= i < |row.files| ==>
          row.files[i].category in CATEGORIES && row.files[i].filename != "" && row.files[i].sha != "")
  }

  predicate BlocksOk(row: Row) {
    && (row.warranty.Some? ==>
        DateAccepted(OrEmpty(row.warranty.value.startsOn)) && DateAccepted(OrEmpty(row.warranty.value.expiresOn)))
    && (row.purchase.Some? ==>
        DateAccepted(OrEmpty(row.purchase.value.purchasedOn)) && 0 <= row.purchase.value.priceMinor <= INT64_MAX)
    && (row.sale.Some? ==> DateAccepted(OrEmpty(row.sale.value.soldOn)) && 0 <= row.sale.value.priceMinor <= INT64_MAX)
  }

  ghost predicate RowOk(row: Row, defs: seq<Def>) {
    && row.id != "" && row.name != "" && IsInt64(row.quantity)
    && ListsOk(row) && BlocksOk(row) && FieldsOk(row.fields, defs)
  }

  // ----- Fixed columns -----

  /** Looking fixed columns up by name finds the cells in export order. */
  lemma GatherInOrder(f: Format<string>, header: seq<string>, layout: Layout<string>, record: seq<string>)
    requires LayoutOf(f, header, layout) && Distinct(header)
    requires |f.fixed| <= |header| && |f.fixed| <= |record|
             && (forall i :: 0 <= i < |f.fixed| ==> header[i] == f.fixed[i])
    ensures Gather(f.fixed, layout, record) == record[..|f.fixed|]
  {
    var fixed := f.fixed;
    forall i | 0 <= i < |fixed| ensures FixedCell(layout, record, fixed[i]) == record[i] {
      assert header[i] in fixed;
      var k := layout.fixedIdx[fixed[i]];
      assert header[k] == header[i];
    }
  }

  lemma WarrantyRoundTrip(w: Option<Warranty>)
    requires w.Some? ==> DateAccepted(OrEmpty(w.value.startsOn)) && DateAccepted(OrEmpty(w.value.expiresOn))
    ensures var b := WarrantyBlock(WarrantyCells(w));
            b.errors == 0 && StagedWarrantyFields(b.value) == WarrantyFields(w)
  {
    if w.Some? {
      BoolRoundTrip(w.value.isLifetime != 0);
      assert WarrantyCells(w)[4] != "";
    }
  }

  lemma PriceRoundTrip(n: int)
    requires 0 <= n <= INT64_MAX
    ensures ParsePrice(FormatInt(n)) == Some(n)
  {
    Int64RoundTrip(n);
  }

  lemma PurchaseRoundTrip(p: Option<Purchase>)
    requires p.Some? ==> DateAccepted(OrEmpty(p.value.purchasedOn)) && 0 <= p.value.priceMinor <= INT64_MAX
    ensures var b := PurchaseBlock(PurchaseCells(p));
            b.errors == 0 && StagedPurchaseFields(b.value) == PurchaseFields(p)
  {
    if p.Some? {
      PriceRoundTrip(p.value.priceMinor);
      assert PurchaseCells(p)[2] != "";
    }
  }

  lemma SaleRoundTrip(s: Option<Sale>)
    requires s.Some? ==> DateAccepted(OrEmpty(s.value.soldOn)) && 0 <= s.value.priceMinor <= INT64_MAX
    ensures var b := SaleBlock(SaleCells(s));
            b.errors == 0 && StagedSaleFields(b.value) == SaleFields(s)
  {
    if s.Some? {
      PriceRoundTrip(s.value.priceMinor);
      assert SaleCells(s)[2] != "";
    }
  }

  // ----- Custom fields -----

  /** Reading back a printed value gives an equal value of the column's target. */
  lemma ValueRoundTrip(ft: FloatText, v: FieldValue, target: FieldValue)
    requires v.number.Some? ==> Readable(ft, v.number.value)
    requires TypedValue(v) && FieldCell(ft, v) != "" && target.fieldType == v.fieldType
    ensures var r := WithCell(ft, target, FieldCell(ft, v));
            && r.Some? && ValueEqual(v, r.value)
            && r.value.defId == target.defId && KeyOf(r.value) == KeyOf(target)
  {
    if v.fieldType == "boolean" {
      BoolRoundTrip(v.boolean.value != 0);
    }
  }

  /** What one dynamic column of an exported record reads back as: nothing where the item has
      nothing to print, else one equal value carrying the column's definition or key. */
  ghost predicate ReadsBack(p: Parsed<FieldValue>, cur: Option<FieldValue>, defId: Option<string>, key: Option<AdHoc>) {
    && p.errors == 0
    && (cur.None? ==> p.values == [])
    && (cur.Some? ==> |p.values| == 1 && ValueEqual(cur.value, p.values[0]) && p.values[0].defId == defId
                      && (key.Some? ==> KeyOf(p.values[0]) == key.value))
  }

  lemma ColumnTarget(sorted: seq<Def>, defs: seq<Def>, d: Def)
    requires DefsOk(sorted) && DefsOk(defs) && (forall x :: x in sorted <==> x in defs) && d in defs
    ensures Target(defs, ColumnFor(sorted, d))
            == Some(FieldValue(Some(d.id), d.name, d.fieldType, None, None, None, None))
  {
    HeaderResolves(sorted, defs, d);
    if NameCount(sorted, d.name) > 1 {
      QualifiedDefHeader(d);
    } else {
      PlainDefHeader(d);
    }
  }

  lemma DefColumnReadsBack(ft: FloatText, values: seq<FieldValue>, sorted: seq<Def>, defs: seq<Def>, d: Def)
    requires Inverse(ft, values) && DefsOk(sorted) && DefsOk(defs) && (forall x :: x in sorted <==> x in defs)
    requires FieldsOk(values, defs) && d in defs
    ensures ReadsBack(ReadField(ft, defs, ColumnFor(sorted, d), DefCell(ft, values, d)),
                      Printed(ft, ByDef(values, d.id)), Some(d.id), None)
  {
    ColumnTarget(sorted, defs, d);
    var cur := Printed(ft, ByDef(values, d.id));
    if cur.Some? {
      ByDefMember(values, d.id);
      ValueRoundTrip(ft, cur.value, FieldValue(Some(d.id), d.name, d.fieldType, None, None, None, None));
    }
  }

  lemma AdHocColumnReadsBack(ft: FloatText, values: seq<FieldValue>, defs: seq<Def>, key: AdHoc)
    requires Inverse(ft, values) && FieldsOk(values, defs) && key.fieldType in TYPES
    ensures ReadsBack(ReadField(ft, defs, AdHocColumn(key), AdHocCell(ft, values, LiveIds(defs), key)),
                      Printed(ft, ByKey(values, LiveIds(defs), key)), None, Some(key))
  {
    var cur := Printed(ft, ByKey(values, LiveIds(defs), key));
    if cur.Some? {
      ByKeyMember(values, LiveIds(defs), key);
      ValueRoundTrip(ft, cur.value, FieldValue(None, key.name, key.fieldType, None, None, None, None));
    }
  }

  // ----- All columns of a record -----

  function Concat<T>(ps: seq<Parsed<T>>): Parsed<T> {
    if ps == [] then Parsed([], 0)
    else
      var n := |ps| - 1;
      var before := Concat(ps[..n]);
      Parsed(before.values + ps[n].values, before.errors + ps[n].errors)
  }

  lemma {:induction false} ReadFieldsConcat(ft: FloatText, defs: seq<Def>, dyn: seq<DynColumn>, record: seq<string>,
                                            ps: seq<Parsed<FieldValue>>)
    requires |ps| == |dyn|
    requires forall j :: 0 <= j < |dyn| ==> ps[j] == ReadField(ft, defs, dyn[j].column, CellAt(record, dyn[j].index))
    ensures ReadFields(ft, defs, dyn, record) == Concat(ps)
  {
    if dyn != [] {
      var n := |dyn| - 1;
      ReadFieldsConcat(ft, defs, dyn[..n], record, ps[..n]);
    }
  }

  lemma {:induction false} ConcatMembers<T>(ps: seq<Parsed<T>>)
    requires forall j :: 0 <= j < |ps| ==> ps[j].errors == 0
    ensures Concat(ps).errors == 0
    ensures forall v :: v in Concat(ps).values <==> exists j :: 0 <= j < |ps| && v in ps[j].values
  {
    if ps != [] {
      var n := |ps| - 1;
      ConcatMembers(ps[..n]);
      forall v ensures v in Concat(ps).values <==> exists j :: 0 <= j < |ps| && v in ps[j].values {
        if v in Concat(ps[..n]).values {
          var j :| 0 <= j < n && v in ps[..n][j].values;
          assert v in ps[j].values;
        }
        if j :| 0 <= j < n && v in ps[j].values {
          assert v in ps[..n][j].values;
        }
      }
    }
  }

  /** What is read back from an exported record: exactly one value per definition and one per
      ad-hoc key that the item prints a value for, each equal to the item's. */
  ghost predicate FieldsBack(ft: FloatText, values: seq<FieldValue>, cur: seq<FieldValue>, live: set<string>) {
    && (forall v :: v in values ==>
          if v.defId.Some? then v.defId.value in live && SameValue(Printed(ft, ByDef(cur, v.defId.value)), Some(v))
          else SameValue(Printed(ft, ByKey(cur, live, KeyOf(v))), Some(v)))
    && (forall id :: id in live && Printed(ft, ByDef(cur, id)).Some? ==> exists v :: v in values && v.defId == Some(id))
    && (forall key :: Printed(ft, ByKey(cur, live, key)).Some? ==>
        exists v :: v in values && v.defId == None && KeyOf(v) == key)
  }

  lemma BackByDef(ft: FloatText, values: seq<FieldValue>, cur: seq<FieldValue>, live: set<string>, id: string)
    requires FieldsBack(ft, values, cur, live)
    ensures SameValue(if id in live then Printed(ft, ByDef(cur, id)) else None, ByDef(values, id))
  {
    ByDefMember(values, id);
  }

  lemma BackByKey(ft: FloatText, values: seq<FieldValue>, cur: seq<FieldValue>, live: set<string>, key: AdHoc)
    requires FieldsBack(ft, values, cur, live)
    ensures SameValue(Printed(ft, ByKey(cur, live, key)), ByKey(values, LinkedIds(values), key))
  {
    ByKeyMember(values, LinkedIds(values), key);
    assert forall v :: v in values ==> (IsAdHoc(v, LinkedIds(values)) <==> v.defId == None);
  }

  /** Custom fields compare equal exactly when every value that counts was printed. */
  lemma FieldsBackEqual(ft: FloatText, values: seq<FieldValue>, cur: seq<FieldValue>, live: set<string>)
    requires FieldsBack(ft, values, cur, live)
    ensures FieldsEqual(cur, values, live) <==> AllPrinted(ft, cur, live)
  {
    forall id ensures SameValue(if id in live then Printed(ft, ByDef(cur, id)) else None, ByDef(values, id)) {
      BackByDef(ft, values, cur, live, id);
    }
    forall key ensures SameValue(Printed(ft, ByKey(cur, live, key)), ByKey(values, LinkedIds(values), key)) {
      BackByKey(ft, values, cur, live, key);
    }
    if FieldsEqual(cur, values, live) {
      forall id | id in live && ByDef(cur, id).Some? ensures FieldCell(ft, ByDef(cur, id).value) != "" {
        assert SameValue(if id in live then ByDef(cur, id) else None, ByDef(values, id));
      }
      forall key | ByKey(cur, live, key).Some? ensures FieldCell(ft, ByKey(cur, live, key).value) != "" {
        assert SameValue(ByKey(cur, live, key), ByKey(values, LinkedIds(values), key));
      }
    }
  }

  /** The cell under a dynamic column in the record of one item. */
  function CellFor(ft: FloatText, values: seq<FieldValue>, sorted: seq<Def>, keys: seq<AdHoc>, live: set<string>,
                   j: nat): string
    requires j < |sorted| + |keys|
  {
    if j < |sorted| then DefCell(ft, values, sorted[j]) else AdHocCell(ft, values, live, keys[j - |sorted|])
  }

  ghost predicate CellsOf(ft: FloatText, values: seq<FieldValue>, sorted: seq<Def>, keys: seq<AdHoc>,
                          live: set<string>, record: seq<string>) {
    && |record| == FIXED_COUNT + |sorted| + |keys|
    && forall j :: 0 <= j < |sorted| + |keys| ==>
         CellAt(record, FIXED_COUNT + j) == CellFor(ft, values, sorted, keys, live, j)
  }

  ghost predicate ColumnBack(ft: FloatText, p: Parsed<FieldValue>, cur: seq<FieldValue>, sorted: seq<Def>,
                             keys: seq<AdHoc>, live: set<string>, j: nat)
    requires j < |sorted| + |keys|
  {
    if j < |sorted| then ReadsBack(p, Printed(ft, ByDef(cur, sorted[j].id)), Some(sorted[j].id), None)
    else ReadsBack(p, Printed(ft, ByKey(cur, live, keys[j - |sorted|])), None, Some(keys[j - |sorted|]))
  }

  lemma OneColumnBack(ft: FloatText, values: seq<FieldValue>, sorted: seq<Def>, keys: seq<AdHoc>, defs: seq<Def>,
                      dyn: seq<DynColumn>, record: seq<string>, j: nat)
    requires Inverse(ft, values) && DefsOk(sorted) && DefsOk(defs) && (forall x :: x in sorted <==> x in defs)
             && KeysOk(keys)
    requires FieldsOk(values, defs) && ColumnsOf(ExportColumns(sorted, keys), dyn)
             && CellsOf(ft, values, sorted, keys, LiveIds(defs), record)
    requires j < |dyn|
    ensures ColumnBack(ft, ReadField(ft, defs, dyn[j].column, CellAt(record, dyn[j].index)), values, sorted, keys,
                       LiveIds(defs), j)
  {
    assert CellAt(record, dyn[j].index) == CellFor(ft, values, sorted, keys, LiveIds(defs), j);
    if j < |sorted| {
      assert sorted[j] in sorted;
      assert dyn[j] == DynColumn(FIXED_COUNT + j, ColumnFor(sorted, sorted[j]));
      DefColumnReadsBack(ft, values, sorted, defs, sorted[j]);
    } else {
      var i := j - |sorted|;
      assert keys[i] in keys;
      assert dyn[j] == DynColumn(FIXED_COUNT + j, AdHocColumn(keys[i]));
      AdHocColumnReadsBack(ft, values, defs, keys[i]);
    }
  }

  lemma CollectedBack(ft: FloatText, ps: seq<Parsed<FieldValue>>, values: seq<FieldValue>, cur: seq<FieldValue>,
                      sorted: seq<Def>, keys: seq<AdHoc>, defs: seq<Def>)
    requires (forall x :: x in sorted <==> x in defs) && |ps| == |sorted| + |keys|
    requires forall j :: 0 <= j < |ps| ==> ColumnBack(ft, ps[j], cur, sorted, keys, LiveIds(defs), j)
    requires forall v :: v in values <==> exists j :: 0 <= j < |ps| && v in ps[j].values
    requires forall key :: ByKey(cur, LiveIds(defs), key).Some? ==> key in keys
    ensures FieldsBack(ft, values, cur, LiveIds(defs))
  {
    var live := LiveIds(defs);
    forall v | v in values
      ensures if v.defId.Some? then v.defId.value in live && SameValue(Printed(ft, ByDef(cur, v.defId.value)), Some(v))
              else SameValue(Printed(ft, ByKey(cur, live, KeyOf(v))), Some(v))
    {
      var j :| 0 <= j < |ps| && v in ps[j].values;
      assert ColumnBack(ft, ps[j], cur, sorted, keys, live, j);
      if j < |sorted| {
        assert sorted[j] in defs;
      }
    }
    forall id | id in live && Printed(ft, ByDef(cur, id)).Some? ensures exists v :: v in values && v.defId == Some(id) {
      var d :| d in defs && d.id == id;
      var j :| 0 <= j < |sorted| && sorted[j] == d;
      assert ColumnBack(ft, ps[j], cur, sorted, keys, live, j);
      assert ps[j].values[0] in values;
    }
    forall key | Printed(ft, ByKey(cur, live, key)).Some?
      ensures exists v :: v in values && v.defId == None && KeyOf(v) == key
    {
      var i :| 0 <= i < |keys| && keys[i] == key;
      var j := |sorted| + i;
      assert ColumnBack(ft, ps[j], cur, sorted, keys, live, j);
      assert ps[j].values[0] in values;
    }
  }

  /** Custom fields read from an exported record have no errors, and are the item's own unless
      one of those printed as an empty cell. */
  lemma FieldsRoundTrip(ft: FloatText, values: seq<FieldValue>, sorted: seq<Def>, keys: seq<AdHoc>, defs: seq<Def>,
                        dyn: seq<DynColumn>, record: seq<string>)
    requires Inverse(ft, values) && DefsOk(sorted) && DefsOk(defs) && (forall x :: x in sorted <==> x in defs)
             && KeysOk(keys)
    requires FieldsOk(values, defs) && ColumnsOf(ExportColumns(sorted, keys), dyn)
             && CellsOf(ft, values, sorted, keys, LiveIds(defs), record)
    requires forall key :: ByKey(values, LiveIds(defs), key).Some? ==> key in keys
    ensures var r := ReadFields(ft, defs, dyn, record);
            r.errors == 0 && (FieldsEqual(values, r.values, LiveIds(defs)) <==> AllPrinted(ft, values, LiveIds(defs)))
  {
    var ps := seq(|dyn|, j requires 0 <= j < |dyn| => ReadField(ft, defs, dyn[j].column, CellAt(record, dyn[j].index)));
    forall j | 0 <= j < |ps| ensures ColumnBack(ft, ps[j], values, sorted, keys, LiveIds(defs), j) {
      OneColumnBack(ft, values, sorted, keys, defs, dyn, record, j);
    }
    ReadFieldsConcat(ft, defs, dyn, record, ps);
    NoColumnErrors(ft, ps, values, sorted, keys, LiveIds(defs));
    ConcatMembers(ps);
    CollectedBack(ft, ps, Concat(ps).values, values, sorted, keys, defs);
    FieldsBackEqual(ft, Concat(ps).values, values, LiveIds(defs));
  }

  lemma NoColumnErrors(ft: FloatText, ps: seq<Parsed<FieldValue>>, cur: seq<FieldValue>, sorted: seq<Def>,
                       keys: seq<AdHoc>, live: set<string>)
    requires |ps| == |sorted| + |keys| && forall j :: 0 <= j < |ps| ==>
               ColumnBack(ft, ps[j], cur, sorted, keys, live, j)
    ensures forall j :: 0 <= j < |ps| ==> ps[j].errors == 0
  {
  }

  // ----- The whole row -----

  /** The parsed parts of a row's own cells. */
  ghost predicate PartsBack(ft: FloatText, row: Row, p: Parts, live: set<string>) {
    && p.labels == Parsed(row.labels, 0) && p.idents == Parsed(row.idents, 0) && p.files == Parsed(row.files, 0)
    && p.warranty.errors == 0 && StagedWarrantyFields(p.warranty.value) == WarrantyFields(row.warranty)
    && p.purchase.errors == 0 && StagedPurchaseFields(p.purchase.value) == PurchaseFields(row.purchase)
    && p.sale.errors == 0 && StagedSaleFields(p.sale.value) == SaleFields(row.sale)
    && p.fields.errors == 0 && (FieldsEqual(row.fields, p.fields.values, live) <==> AllPrinted(ft, row.fields, live))
  }

  /** The composite cells of a row, by position. */
  ghost predicate CellGroups(row: Row, c: seq<string>)
    requires |c| == FIXED_COUNT
  {
    && c[7] == LabelsCell(row.labels) && c[8] == IdentsCell(row.idents) && c[9] == FilesCell(row.files)
    && c[10..16] == WarrantyCells(row.warranty) && c[16..21] == PurchaseCells(row.purchase)
       && c[21..25] == SaleCells(row.sale)
  }

  lemma FixedCellGroups(row: Row)
    ensures CellGroups(row, FixedCells(row))
  {
  }

  lemma PartsRoundTrip(ft: FloatText, row: Row, c: seq<string>, sorted: seq<Def>, keys: seq<AdHoc>, defs: seq<Def>,
                       dyn: seq<DynColumn>, record: seq<string>)
    requires |c| == FIXED_COUNT && CellGroups(row, c)
    requires Inverse(ft, row.fields) && DefsOk(sorted) && DefsOk(defs) && (forall x :: x in sorted <==> x in defs)
             && KeysOk(keys)
    requires RowOk(row, defs) && ColumnsOf(ExportColumns(sorted, keys), dyn)
             && CellsOf(ft, row.fields, sorted, keys, LiveIds(defs), record)
    requires forall key :: ByKey(row.fields, LiveIds(defs), key).Some? ==> key in keys
    ensures PartsBack(ft, row, PartsOf(ft, defs, c, dyn, record), LiveIds(defs))
  {
    FieldsRoundTrip(ft, row.fields, sorted, keys, defs, dyn, record);
    ListsRoundTrip(row, c);
    BlocksRoundTrip(row, c);
  }

  lemma ListsRoundTrip(row: Row, c: seq<string>)
    requires |c| == FIXED_COUNT && CellGroups(row, c) && ListsOk(row)
    ensures Collect(Split(c[7], '|'), LabelEntry) == Parsed(row.labels, 0)
    ensures Collect(Split(c[8], '|'), IdentEntry) == Parsed(row.idents, 0)
    ensures Collect(Split(c[9], '|'), FileEntry) == Parsed(row.files, 0)
  {
    LabelsRoundTrip(row.labels);
    IdentsRoundTrip(row.idents);
    FilesRoundTrip(row.files);
  }

  lemma BlocksRoundTrip(row: Row, c: seq<string>)
    requires |c| == FIXED_COUNT && CellGroups(row, c) && BlocksOk(row)
    ensures var w := WarrantyBlock(c[10..16]);
            w.errors == 0 && StagedWarrantyFields(w.value) == WarrantyFields(row.warranty)
    ensures var p := PurchaseBlock(c[16..21]);
            p.errors == 0 && StagedPurchaseFields(p.value) == PurchaseFields(row.purchase)
    ensures var s := SaleBlock(c[21..25]); s.errors == 0 && StagedSaleFields(s.value) == SaleFields(row.sale)
  {
    WarrantyRoundTrip(row.warranty);
    PurchaseRoundTrip(row.purchase);
    SaleRoundTrip(row.sale);
  }

  /** What the import makes of an exported row: an update of that item in which at most the
      custom fields differ, and those exactly when one of them printed as an empty cell. */
  ghost predicate RowBack(ft: FloatText, row: Row, s: Staged, live: set<string>) {
    && s.action == ActUpdate && s.errors == 0 && s.id == row.id && s.files == row.files
    && forall g :: Differs(row, s, live, g) <==> g.GFields? && !AllPrinted(ft, row.fields, live)
  }

  lemma AssembledBack(ft: FloatText, row: Row, p: Parts, live: set<string>, existing: set<string>)
    requires PartsBack(ft, row, p, live) && row.id != "" && row.name != "" && IsInt64(row.quantity)
             && row.id in existing
    ensures RowBack(ft, row, Assemble(existing, FixedCells(row), p), live)
  {
    var c := FixedCells(row);
    assert c[0] == row.id && c[1] == row.name && c[2] == row.description && c[3] == FormatInt(row.quantity)
           && c[5] == OrEmpty(row.location);
    Int64RoundTrip(row.quantity);
  }

  lemma WinnerUsesKey(rows: seq<Row>, row: Row, live: set<string>, key: AdHoc)
    requires row in rows && ByKey(row.fields, live, key).Some?
    ensures KeyUsed(rows, live, key)
  {
    ByKeyMember(row.fields, live, key);
    assert RowUses(row.fields, live, key);
  }

  lemma RecordCells(ft: FloatText, row: Row, sorted: seq<Def>, keys: seq<AdHoc>, live: set<string>)
    ensures CellsOf(ft, row.fields, sorted, keys, live, RecordOf(ft, sorted, keys, live, row))
    ensures RecordOf(ft, sorted, keys, live, row)[..FIXED_COUNT] == FixedCells(row)
  {
  }

  /** Every ad-hoc key in use has a known type. */
  lemma UsedKeysTyped(rows: seq<Row>, defs: seq<Def>)
    requires forall i :: 0 <= i < |rows| ==> RowOk(rows[i], defs)
    ensures forall key :: KeyUsed(rows, LiveIds(defs), key) ==> key.fieldType in TYPES
  {
    var live := LiveIds(defs);
    forall key | KeyUsed(rows, live, key) ensures key.fieldType in TYPES {
      var i :| 0 <= i < |rows| && RowUses(rows[i].fields, live, key);
      ByKeyMember(rows[i].fields, live, key);
      assert RowOk(rows[i], defs);
    }
  }

  lemma StagedRowBack(ft: FloatText, defs: seq<Def>, sorted: seq<Def>, keys: seq<AdHoc>, rows: seq<Row>,
                      f: Format<string>, header: seq<string>, layout: Layout<string>, existing: set<string>, i: nat)
    requires DefsOk(sorted) && DefsOk(defs) && (forall x :: x in sorted <==> x in defs) && KeysOk(keys)
    requires forall k :: k in keys <==> KeyUsed(rows, LiveIds(defs), k)
    requires |f.fixed| == FIXED_COUNT && |header| == FIXED_COUNT + |sorted| + |keys| && Distinct(header)
    requires forall k :: 0 <= k < FIXED_COUNT ==> header[k] == f.fixed[k]
    requires LayoutOf(f, header, layout) && ColumnsOf(ExportColumns(sorted, keys), layout.dynamic)
    requires i < |rows| && Inverse(ft, rows[i].fields) && RowOk(rows[i], defs) && rows[i].id in existing
    ensures var record := RecordOf(ft, sorted, keys, LiveIds(defs), rows[i]);
            RowBack(ft, rows[i], StageLine(ft, defs, existing, f.fixed, layout, |header|, Cells(record)), LiveIds(defs))
  {
    var row := rows[i];
    var record := RecordOf(ft, sorted, keys, LiveIds(defs), row);
    RecordCells(ft, row, sorted, keys, LiveIds(defs));
    GatherInOrder(f, header, layout, record);
    forall key | ByKey(row.fields, LiveIds(defs), key).Some? ensures key in keys {
      WinnerUsesKey(rows, row, LiveIds(defs), key);
    }
    FixedCellGroups(row);
    PartsRoundTrip(ft, row, FixedCells(row), sorted, keys, defs, layout.dynamic, record);
    AssembledBack(ft, row, PartsOf(ft, defs, FixedCells(row), layout.dynamic, record), LiveIds(defs), existing);
  }

  lemma SortedDefsOk(defs: seq<Def>, sorted: seq<Def>)
    requires DefsOk(defs) && multiset(sorted) == multiset(defs)
    ensures DefsOk(sorted) && forall x :: x in sorted <==> x in defs
  {
    assert Distinct(defs);
    PermutationKeeps(defs, sorted);
    forall i, j | 0 <= i < j < |sorted| ensures sorted[i].id != sorted[j].id {
      assert sorted[i] in defs && sorted[j] in defs && sorted[i] != sorted[j];
    }
  }

  /** An export, and what parsing it gives: the layout found in its header and a staged row for
      each of its lines. */
  datatype Trip = Trip(table: Table, sorted: seq<Def>, keys: seq<AdHoc>, layout: Option<Layout<string>>,
                       staged: seq<Staged>)

  /** The table is the export of the rows, and the staged rows are what the table parses to when
      the items in `existing` are known. */
  ghost predicate IsTrip(ft: FloatText, defs: seq<Def>, rows: seq<Row>, existing: set<string>, trip: Trip) {
    && IsExport(ft, defs, rows, trip.table, trip.sorted, trip.keys)
    && trip.layout.Some? && LayoutOf(CSV_FORMAT, trip.table.header, trip.layout.value)
    && StagedFrom(ft, FIXED, trip.table, trip.layout.value, existing, defs, trip.staged)
  }

  /** Well-formed rows, with numbers that read back, of known items. */
  ghost predicate Exportable(ft: FloatText, defs: seq<Def>, rows: seq<Row>, existing: set<string>) {
    && DefsOk(defs)
    && forall i :: 0 <= i < |rows| ==>
         Inverse(ft, rows[i].fields) && RowOk(rows[i], defs) && rows[i].id in existing
  }

  /** Exporting and parsing the export with the exported items known. */
  method Reimport(ft: FloatText, defs: seq<Def>, rows: seq<Row>, existing: set<string>) returns (trip: Trip)
    requires Exportable(ft, defs, rows, existing)
    ensures |trip.staged| == |rows| && IsTrip(ft, defs, rows, existing, trip)
    ensures forall i :: 0 <= i < |rows| ==> RowBack(ft, rows[i], trip.staged[i], LiveIds(defs))
  {
    var t, sorted, keys := EncodeCSV(ft, defs, rows);
    SortedDefsOk(defs, sorted);
    UsedKeysTyped(rows, defs);
    FixedColumnsOk();
    ExportAccepted(CSV_FORMAT, sorted, keys);
    var layout, staged := ParseCSV(ft, t, existing, defs);
    forall i | 0 <= i < |rows| ensures RowBack(ft, rows[i], staged[i], LiveIds(defs)) {
      StagedRowBack(ft, defs, sorted, keys, rows, CSV_FORMAT, t.header, layout.value, existing, i);
    }
    trip := Trip(t, sorted, keys, layout, staged);
  }

  lemma NoMembers<T>(s: seq<T>)
    ensures s == [] <==> forall x :: x !in s
  {
    if s != [] {
      assert s[0] in s;
    }
  }

  lemma EmptyDiff(ft: FloatText, row: Row, s: Staged, live: set<string>, diff: seq<Group>)
    requires RowBack(ft, row, s, live) && IsDiff(row, s, live, diff)
    ensures diff == [] <==> AllPrinted(ft, row.fields, live)
    ensures forall g :: g in diff ==> g == GFields
  {
    NoMembers(diff);
    if diff == [] {
      assert GFields !in diff;
    }
  }

  method DiffAll(rows: seq<Row>, staged: seq<Staged>, live: set<string>) returns (diffs: seq<seq<Group>>)
    requires |staged| == |rows|
    ensures |diffs| == |rows| && forall i :: 0 <= i < |rows| ==> IsDiff(rows[i], staged[i], live, diffs[i])
  {
    diffs := [];
    for i := 0 to |rows|
      invariant |diffs| == i && forall j :: 0 <= j < i ==> IsDiff(rows[j], staged[j], live, diffs[j])
    {
      var diff := DiffStagedRow(rows[i], staged[i], live);
      diffs := diffs + [diff];
    }
  }

  /** Export then import: with the exported items known, every row comes back as an update of
      its own item with no errors.  Its diff names at most the custom fields, and is empty
      exactly when no custom field value of the item prints as an empty cell. */
  method ExportThenImport(ft: FloatText, defs: seq<Def>, rows: seq<Row>, existing: set<string>)
    returns (trip: Trip, diffs: seq<seq<Group>>)
    requires Exportable(ft, defs, rows, existing)
    ensures |trip.staged| == |diffs| == |rows|
    ensures forall i :: 0 <= i < |rows| ==>
              trip.staged[i].action == ActUpdate && trip.staged[i].errors == 0 && trip.staged[i].id == rows[i].id
    ensures forall i :: 0 <= i < |rows| ==> IsDiff(rows[i], trip.staged[i], LiveIds(defs), diffs[i])
    ensures forall i :: 0 <= i < |rows| ==> (diffs[i] == [] <==> AllPrinted(ft, rows[i].fields, LiveIds(defs)))
    ensures forall i :: 0 <= i < |rows| ==> forall g :: g in diffs[i] ==> g == GFields
    ensures IsTrip(ft, defs, rows, existing, trip)
  {
    trip := Reimport(ft, defs, rows, existing);
    diffs := DiffAll(rows, trip.staged, LiveIds(defs));
    forall i | 0 <= i < |rows|
      ensures trip.staged[i].action == ActUpdate && trip.staged[i].errors == 0 && trip.staged[i].id == rows[i].id
      ensures diffs[i] == [] <==> AllPrinted(ft, rows[i].fields, LiveIds(defs))
      ensures forall g :: g in diffs[i] ==> g == GFields
    {
      EmptyDiff(ft, rows[i], trip.staged[i], LiveIds(defs), diffs[i]);
    }
  }

  // ----- The conditions can be met, and the exception occurs -----

  function IndexOf(nums: seq<real>, x: real): nat
    requires x in nums
    ensures IndexOf(nums, x) < |nums| && nums[IndexOf(nums, x)] == x
  {
    if nums[0] == x then 0 else 1 + IndexOf(nums[1..], x)
  }

  /** A printer and parser that are inverse on any given numbers. */
  lemma PrinterFor(nums: seq<real>) returns (ft: FloatText)
    ensures forall x :: x in nums ==> Readable(ft, x)
  {
    var show := (x: real) => if x in nums then FormatNat(IndexOf(nums, x)) else "";
    var parse := (s: string) =>
      match ParseNat(s)
      case Some(i) => if i < |nums| then Some(nums[i]) else None
      case None => None;
    ft := FloatText(show, parse);
    forall x | x in nums ensures Readable(ft, x) {
      NatRoundTrip(IndexOf(nums, x));
    }
  }

  function NumbersOf(values: seq<FieldValue>): seq<real> {
    if values == [] then []
    else (if values[0].number.Some? then [values[0].number.value] else []) + NumbersOf(values[1..])
  }

  lemma {:induction false} NumbersOfAll(values: seq<FieldValue>, v: FieldValue)
    requires v in values && v.number.Some?
    ensures v.number.value in NumbersOf(values)
  {
    if v != values[0] {
      NumbersOfAll(values[1..], v);
    }
  }

  /** For every set of rows there is one that reads all their numbers back. */
  lemma {:induction false} PrinterForRows(rows: seq<Row>, nums: seq<real>) returns (ft: FloatText)
    ensures forall x :: x in nums ==> Readable(ft, x)
    ensures forall i :: 0 <= i < |rows| ==> Inverse(ft, rows[i].fields)
    decreases |rows|
  {
    if rows == [] {
      ft := PrinterFor(nums);
    } else {
      ft := PrinterForRows(rows[1..], nums + NumbersOf(rows[0].fields));
      forall v | v in rows[0].fields && v.number.Some? ensures Readable(ft, v.number.value) {
        NumbersOfAll(rows[0].fields, v);
      }
      forall i | 0 <= i < |rows| ensures Inverse(ft, rows[i].fields) {
        assert i > 0 ==> rows[i] == rows[1..][i - 1];
      }
    }
  }

  function EmptyTextRow(): Row {
    Row("i", "lamp", "", 1, "", None, "C1", [], [], [], None, None, None,
        [FieldValue(None, "Colour", "text", Some(""), None, None, None)])
  }

  lemma EmptyTextOk()
    ensures RowOk(EmptyTextRow(), [])
  {
    var row := EmptyTextRow();
    forall key | ByKey(row.fields, LiveIds([]), key).Some?
      ensures TypedValue(ByKey(row.fields, LiveIds([]), key).value)
    {
      ByKeyMember(row.fields, LiveIds([]), key);
    }
  }

  lemma EmptyTextNotPrinted(ft: FloatText)
    ensures !AllPrinted(ft, EmptyTextRow().fields, LiveIds([]))
  {
    var v := FieldValue(None, "Colour", "text", Some(""), None, None, None);
    assert EmptyTextRow().fields == [v] && [v][..0] == [];
    assert ByKey([v], LiveIds([]), KeyOf(v)) == Some(v);
  }

  /** An item whose only custom field is an empty text comes back with a difference, whatever
      the printer of numbers. */
  method EmptyTextWitness(ft: FloatText) returns (trip: Trip, diffs: seq<seq<Group>>)
    ensures |trip.staged| == 1 && trip.staged[0].errors == 0 && diffs == [[GFields]]
    ensures IsDiff(EmptyTextRow(), trip.staged[0], {}, diffs[0])
    ensures IsTrip(ft, [], [EmptyTextRow()], {"i"}, trip)
  {
    EmptyTextOk();
    EmptyTextNotPrinted(ft);
    assert LiveIds([]) == {};
    trip, diffs := ExportThenImport(ft, [], [EmptyTextRow()], {"i"});
    OnlyFields(diffs[0]);
  }

  lemma OnlyFields(diffs: seq<Group>)
    requires diffs != [] && Ascending(diffs)
    ensures (forall g :: g in diffs ==> g == GFields) ==> diffs == [GFields]
  {
    assert diffs[0] in diffs;
    if |diffs| > 1 {
      assert diffs[1] in diffs && Rank(diffs[0]) < Rank(diffs[1]);
    }
  }
}
