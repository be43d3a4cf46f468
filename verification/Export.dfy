/** Writing an export: column selection, and one record per item written into a buffer that all
    records share. */
module Export {
  import opened Wire
  import opened Sequences
  import opened Cells
  import opened Headers
  import opened Numerals
  import opened Rows
  import opened Sorting

  /** How numbers become text and back. */
  datatype FloatText = FloatText(format: real -> string, parse: string -> Option<real>)

  /** The number prints to something that reads back as the number. */
  ghost predicate Readable(ft: FloatText, x: real) { ft.parse(ft.format(x)) == Some(x) && ft.format(x) != "" }

  /** All numbers among these values do. */
  ghost predicate Inverse(ft: FloatText, values: seq<FieldValue>) {
    forall v :: v in values && v.number.Some? ==> Readable(ft, v.number.value)
  }

  /** One line of a file as the CSV reader delivers it. */
  datatype Line = Cells(cells: seq<string>) | Malformed

  /** A file at the level of lines. */
  datatype Table = Table(header: seq<string>, lines: seq<Line>)

  // ----- The order of columns -----

  predicate DefBefore(a: Def, b: Def) { PairBefore(a.name, a.id, b.name, b.id) }

  predicate KeyBefore(a: AdHoc, b: AdHoc) { PairBefore(a.fieldType, a.name, b.fieldType, b.name) }

  lemma DefsCompare()
    ensures Compares(DefBefore)
  {
    forall a, b | DefBefore(a, b) ensures !DefBefore(b, a) {
      PairOneWay(a.name, a.id, b.name, b.id);
    }
    forall a, b, c | !DefBefore(b, a) && !DefBefore(c, b) ensures !DefBefore(c, a) {
      PairNotBeforeTransitive(a.name, a.id, b.name, b.id, c.name, c.id);
    }
  }

  lemma KeysCompare()
    ensures Compares(KeyBefore)
  {
    forall a, b | KeyBefore(a, b) ensures !KeyBefore(b, a) {
      PairOneWay(a.fieldType, a.name, b.fieldType, b.name);
    }
    forall a, b, c | !KeyBefore(b, a) && !KeyBefore(c, b) ensures !KeyBefore(c, a) {
      PairNotBeforeTransitive(a.fieldType, a.name, b.fieldType, b.name, c.fieldType, c.name);
    }
  }

  /** A permutation has the same members, and distinct ones if the original has. */
  lemma PermutationKeeps<T>(s: seq<T>, t: seq<T>)
    requires multiset(s) == multiset(t)
    ensures |s| == |t| && (forall x :: x in s <==> x in t)
    ensures Distinct(s) ==> Distinct(t)
  {
    assert |multiset(s)| == |s| && |multiset(t)| == |t|;
    forall x ensures x in s <==> x in t {
      assert x in multiset(s) <==> x in multiset(t);
    }
    if Distinct(s) {
      forall i, j | 0 <= i < j < |t| ensures t[i] != t[j] {
        if t[i] == t[j] {
          Twice(t, i, j);
          Once(s, t[i]);
        }
      }
    }
  }

  lemma Twice<T>(t: seq<T>, i: nat, j: nat)
    requires i < j < |t| && t[i] == t[j]
    ensures multiset(t)[t[i]] >= 2
  {
    assert t == t[..i] + [t[i]] + t[i + 1..j] + [t[j]] + t[j + 1..];
  }

  lemma {:induction false} Once<T>(s: seq<T>, x: T)
    requires Distinct(s)
    ensures multiset(s)[x] <= 1
  {
    if s != [] {
      var n := |s| - 1;
      Once(s[..n], x);
      assert s == s[..n] + [s[n]];
      if s[n] == x {
        assert x !in s[..n];
        assert x !in multiset(s[..n]);
      }
    }
  }

  // ----- Ad-hoc columns -----

  /** Some row holds an ad-hoc value under this key. */
  ghost predicate KeyUsed(rows: seq<Row>, live: set<string>, key: AdHoc) {
    exists r :: r in rows && RowUses(r.fields, live, key)
  }

  ghost predicate RowUses(values: seq<FieldValue>, live: set<string>, key: AdHoc) {
    exists v :: v in values && IsAdHoc(v, live) && KeyOf(v) == key
  }

  method CollectAdHocColumns(rows: seq<Row>, live: set<string>) returns (keys: seq<AdHoc>)
    ensures Distinct(keys) && Ordered(keys, KeyBefore) && forall k :: k in keys <==> KeyUsed(rows, live, k)
  {
    var found: seq<AdHoc> := [];
    var seen: set<AdHoc> := {};
    for i := 0 to |rows|
      invariant Distinct(found) && (forall k :: k in seen <==> k in found)
      invariant forall k :: k in found <==> KeyUsed(rows[..i], live, k)
    {
      ghost var before := found;
      assert rows[..i + 1] == rows[..i] + [rows[i]];
      var values := rows[i].fields;
      for j := 0 to |values|
        invariant Distinct(found) && (forall k :: k in seen <==> k in found)
        invariant forall k :: k in found <==>
          k in before || RowUses(values[..j], live, k)
      {
        assert values[..j + 1] == values[..j] + [values[j]];
        var v := values[j];
        if IsAdHoc(v, live) && KeyOf(v) !in seen {
          seen := seen + {KeyOf(v)};
          found := found + [KeyOf(v)];
        }
      }
      assert values[..|values|] == values;
      OneMoreRow(rows, i, live);
    }
    assert rows[..|rows|] == rows;
    keys := SortBy(found, KeyBefore);
    SortByMultiset(found, KeyBefore);
    KeysCompare();
    SortByOrdered(found, KeyBefore);
    PermutationKeeps(found, keys);
  }

  lemma OneMoreRow(rows: seq<Row>, i: nat, live: set<string>)
    requires i < |rows|
    ensures forall k :: KeyUsed(rows[..i + 1], live, k) <==>
              KeyUsed(rows[..i], live, k) || RowUses(rows[i].fields, live, k)
  {
    assert forall r :: r in rows[..i + 1] <==> r in rows[..i] || r == rows[i];
  }

  // ----- The cells of a record -----

  function FieldCell(ft: FloatText, v: FieldValue): string {
    match v.fieldType
    case "text" => OrEmpty(v.text)
    case "number" => if v.number.Some? then ft.format(v.number.value) else ""
    case "boolean" => if v.boolean.Some? then FormatBool(v.boolean.value != 0) else ""
    case "date" => OrEmpty(v.date)
    case _ => ""
  }

  function DefCell(ft: FloatText, values: seq<FieldValue>, d: Def): string {
    match ByDef(values, d.id) case Some(v) => FieldCell(ft, v) case None => ""
  }

  function AdHocCell(ft: FloatText, values: seq<FieldValue>, live: set<string>, key: AdHoc): string {
    match ByKey(values, live, key) case Some(v) => FieldCell(ft, v) case None => ""
  }

  function WarrantyCells(w: Option<Warranty>): seq<string> {
    match w
    case None => ["", "", "", "", "", ""]
    case Some(w) => [w.holder, w.provider, OrEmpty(w.startsOn), OrEmpty(w.expiresOn), FormatBool(w.isLifetime != 0),
                     w.notes]
  }

  function PurchaseCells(p: Option<Purchase>): seq<string> {
    match p
    case None => ["", "", "", "", ""]
    case Some(p) => [p.vendor, OrEmpty(p.purchasedOn), FormatInt(p.priceMinor), p.orderReference, p.notes]
  }

  function SaleCells(s: Option<Sale>): seq<string> {
    match s
    case None => ["", "", "", ""]
    case Some(s) => [s.buyerName, OrEmpty(s.soldOn), FormatInt(s.priceMinor), s.notes]
  }

  function FixedCells(row: Row): (cells: seq<string>)
    ensures |cells| == FIXED_COUNT
  {
    [row.id, row.name, row.description, FormatInt(row.quantity), row.locationPath, OrEmpty(row.location), row.shortCode,
     LabelsCell(row.labels), IdentsCell(row.idents), FilesCell(row.files)]
    + WarrantyCells(row.warranty) + PurchaseCells(row.purchase) + SaleCells(row.sale)
  }

  /** What an item's record shows under a fixed header. */
  function CellUnder(row: Row, header: string): string {
    match header
    case "id" => row.id
    case "name" => row.name
    case "description" => row.description
    case "quantity" => FormatInt(row.quantity)
    case "location_path" => row.locationPath
    case "location_id" => if row.location.Some? then row.location.value else ""
    case "short_code" => row.shortCode
    case "labels" => LabelsCell(row.labels)
    case "identifications" => IdentsCell(row.idents)
    case "attachments" => FilesCell(row.files)
    case _ =>
      if row.warranty.Some? && header in WARRANTY_HEADERS then WarrantyCellUnder(row.warranty.value, header)
      else if row.purchase.Some? && header in PURCHASE_HEADERS then PurchaseCellUnder(row.purchase.value, header)
      else if row.sale.Some? && header in SALE_HEADERS then SaleCellUnder(row.sale.value, header)
      else ""
  }

  const WARRANTY_HEADERS: set<string> :=
    {"warranty_holder", "warranty_provider", "warranty_starts_on", "warranty_expires_on", "warranty_is_lifetime",
     "warranty_notes"}
  const PURCHASE_HEADERS: set<string> :=
    {"purchase_vendor", "purchase_purchased_on", "purchase_price_minor", "purchase_order_reference", "purchase_notes"}
  const SALE_HEADERS: set<string> := {"sale_buyer_name", "sale_sold_on", "sale_price_minor", "sale_notes"}

  function WarrantyCellUnder(w: Warranty, header: string): string {
    match header
    case "warranty_holder" => w.holder
    case "warranty_provider" => w.provider
    case "warranty_starts_on" => if w.startsOn.Some? then w.startsOn.value else ""
    case "warranty_expires_on" => if w.expiresOn.Some? then w.expiresOn.value else ""
    case "warranty_is_lifetime" => if w.isLifetime == 0 then "false" else "true"
    case _ => w.notes
  }

  function PurchaseCellUnder(p: Purchase, header: string): string {
    match header
    case "purchase_vendor" => p.vendor
    case "purchase_purchased_on" => if p.purchasedOn.Some? then p.purchasedOn.value else ""
    case "purchase_price_minor" => FormatInt(p.priceMinor)
    case "purchase_order_reference" => p.orderReference
    case _ => p.notes
  }

  function SaleCellUnder(s: Sale, header: string): string {
    match header
    case "sale_buyer_name" => s.buyerName
    case "sale_sold_on" => if s.soldOn.Some? then s.soldOn.value else ""
    case "sale_price_minor" => FormatInt(s.priceMinor)
    case _ => s.notes
  }

  lemma PlainCellsExact(row: Row, i: nat)
    requires i < 10
    ensures |FIXED| == FIXED_COUNT && FixedCells(row)[i] == CellUnder(row, FIXED[i])
  {
    FixedIndexExact(i);
    if i == 0 {} else if i == 1 {} else if i == 2 {} else if i == 3 {} else if i == 4 {}
    else if i == 5 {} else if i == 6 {} else if i == 7 {} else if i == 8 {} else {}
  }

  lemma WarrantyCellsExact(row: Row, i: nat)
    requires i < 6
    ensures |FIXED| == FIXED_COUNT && WarrantyCells(row.warranty)[i] == CellUnder(row, FIXED[10 + i])
  {
    FixedIndexExact(10 + i);
    if i == 0 {} else if i == 1 {} else if i == 2 {} else if i == 3 {} else if i == 4 {} else {}
  }

  lemma PurchaseCellsExact(row: Row, i: nat)
    requires i < 5
    ensures |FIXED| == FIXED_COUNT && PurchaseCells(row.purchase)[i] == CellUnder(row, FIXED[16 + i])
  {
    FixedIndexExact(16 + i);
    if i == 0 {} else if i == 1 {} else if i == 2 {} else if i == 3 {} else {}
  }

  lemma SaleCellsExact(row: Row, i: nat)
    requires i < 4
    ensures |FIXED| == FIXED_COUNT && SaleCells(row.sale)[i] == CellUnder(row, FIXED[21 + i])
  {
    FixedIndexExact(21 + i);
    if i == 0 {} else if i == 1 {} else if i == 2 {} else {}
  }

  /** Every fixed cell of a record is the one that belongs under its header. */
  lemma FixedCellsExact(row: Row, i: nat)
    requires i < FIXED_COUNT
    ensures |FIXED| == FIXED_COUNT && FixedCells(row)[i] == CellUnder(row, FIXED[i])
  {
    if i < 10 {
      PlainCellsExact(row, i);
    } else if i < 16 {
      WarrantyCellsExact(row, i - 10);
    } else if i < 21 {
      PurchaseCellsExact(row, i - 16);
    } else {
      SaleCellsExact(row, i - 21);
    }
  }

  /** The record of one item; it depends on that item alone. */
  function RecordOf(ft: FloatText, defs: seq<Def>, keys: seq<AdHoc>, live: set<string>, row: Row): seq<string> {
    FixedCells(row)
    + seq(|defs|, j requires 0 <= j < |defs| => DefCell(ft, row.fields, defs[j]))
    + seq(|keys|, j requires 0 <= j < |keys| => AdHocCell(ft, row.fields, live, keys[j]))
  }

  // ----- Filling the shared buffer -----

  /** Overwrite `cells.Length`-long windows of the buffer; everything outside is untouched. */
  method Put(buffer: array<string>, at: nat, cells: seq<string>)
    requires at + |cells| <= buffer.Length
    modifies buffer
    ensures buffer[..] == old(buffer[..at]) + cells + old(buffer[at + |cells|..])
  {
    for i := 0 to |cells|
      invariant forall j :: 0 <= j < buffer.Length && !(at <= j < at + i) ==> buffer[j] == old(buffer[j])
      invariant forall j :: 0 <= j < i ==> buffer[at + j] == cells[j]
    {
      buffer[at + i] := cells[i];
    }
  }

  method FillDefColumns(ft: FloatText, buffer: array<string>, at: nat, defs: seq<Def>, values: seq<FieldValue>)
    requires at + |defs| <= buffer.Length
    modifies buffer
    ensures buffer[..] == old(buffer[..at]) + seq(|defs|, j requires 0 <= j < |defs| => DefCell(ft, values, defs[j]))
                          + old(buffer[at + |defs|..])
  {
    var byDef: map<string, FieldValue> := map[];
    for i := 0 to |values|
      invariant forall id :: (if id in byDef then Some(byDef[id]) else None) == ByDef(values[..i], id)
      invariant buffer[..] == old(buffer[..])
    {
      assert values[..i + 1][..i] == values[..i];
      if values[i].defId.Some? {
        byDef := byDef[values[i].defId.value := values[i]];
      }
    }
    assert values[..|values|] == values;
    for j := 0 to |defs|
      invariant forall k :: 0 <= k < buffer.Length && !(at <= k < at + j) ==> buffer[k] == old(buffer[k])
      invariant forall k :: 0 <= k < j ==> buffer[at + k] == DefCell(ft, values, defs[k])
    {
      if defs[j].id in byDef {
        buffer[at + j] := FieldCell(ft, byDef[defs[j].id]);
      } else {
        buffer[at + j] := "";
      }
    }
  }

  method FillAdHocColumns(ft: FloatText, buffer: array<string>, at: nat, keys: seq<AdHoc>, values: seq<FieldValue>,
                          live: set<string>)
    requires at + |keys| <= buffer.Length
    modifies buffer
    ensures buffer[..] == old(buffer[..at])
            + seq(|keys|, j requires 0 <= j < |keys| => AdHocCell(ft, values, live, keys[j]))
                          + old(buffer[at + |keys|..])
  {
    var byKey: map<AdHoc, FieldValue> := map[];
    for i := 0 to |values|
      invariant forall k :: (if k in byKey then Some(byKey[k]) else None) == ByKey(values[..i], live, k)
      invariant buffer[..] == old(buffer[..])
    {
      assert values[..i + 1][..i] == values[..i];
      var v := values[i];
      if IsAdHoc(v, live) && KeyOf(v) !in byKey {
        byKey := byKey[KeyOf(v) := v];
      }
    }
    assert values[..|values|] == values;
    for j := 0 to |keys|
      invariant forall k :: 0 <= k < buffer.Length && !(at <= k < at + j) ==> buffer[k] == old(buffer[k])
      invariant forall k :: 0 <= k < j ==> buffer[at + k] == AdHocCell(ft, values, live, keys[k])
    {
      if keys[j] in byKey {
        buffer[at + j] := FieldCell(ft, byKey[keys[j]]);
      } else {
        buffer[at + j] := "";
      }
    }
  }

  /** One record: all three windows of the buffer are overwritten, so it depends on the row alone. */
  method FillRecord(ft: FloatText, buffer: array<string>, defs: seq<Def>, keys: seq<AdHoc>, live: set<string>, row: Row)
    requires buffer.Length == FIXED_COUNT + |defs| + |keys|
    modifies buffer
    ensures buffer[..] == RecordOf(ft, defs, keys, live, row)
  {
    Put(buffer, 0, FixedCells(row));
    ghost var fixed := FixedCells(row);
    assert buffer[..FIXED_COUNT] == fixed;
    FillDefColumns(ft, buffer, FIXED_COUNT, defs, row.fields);
    ghost var middle := seq(|defs|, j requires 0 <= j < |defs| => DefCell(ft, row.fields, defs[j]));
    assert buffer[..FIXED_COUNT + |defs|] == fixed + middle;
    FillAdHocColumns(ft, buffer, FIXED_COUNT + |defs|, keys, row.fields, live);
    assert FIXED_COUNT + |defs| + |keys| == buffer.Length;
  }

  function LiveIds(defs: seq<Def>): set<string> { set d | d in defs :: d.id }

  /** Every record is written into the one buffer, yet none carries anything over from the
      record before. */
  method EncodeRecords(ft: FloatText, defs: seq<Def>, keys: seq<AdHoc>, live: set<string>, rows: seq<Row>)
    returns (lines: seq<Line>)
    ensures |lines| == |rows|
    ensures forall i :: 0 <= i < |rows| ==> lines[i] == Cells(RecordOf(ft, defs, keys, live, rows[i]))
  {
    var width := FIXED_COUNT + |defs| + |keys|;
    var buffer := new string[width](_ => "");
    lines := [];
    for i := 0 to |rows|
      invariant |lines| == i
      invariant forall j :: 0 <= j < i ==> lines[j] == Cells(RecordOf(ft, defs, keys, live, rows[j]))
    {
      ghost var written := RecordOf(ft, defs, keys, live, rows[i]);
      FillRecord(ft, buffer, defs, keys, live, rows[i]);
      var record := buffer[..];
      assert record == written;
      lines := lines + [Cells(record)];
    }
  }

  /** A whole export: definition columns sorted by name and id, then the ad-hoc keys in use
      sorted by type and name, and one record per row that depends on that row alone. */
  ghost predicate IsExport(ft: FloatText, defs: seq<Def>, rows: seq<Row>, t: Table, sorted: seq<Def>,
                           keys: seq<AdHoc>) {
    && multiset(sorted) == multiset(defs) && Ordered(sorted, DefBefore)
    && Distinct(keys) && Ordered(keys, KeyBefore) && (forall k :: k in keys <==> KeyUsed(rows, LiveIds(defs), k))
    && t.header == ExportHeader(FIXED, sorted, keys)
    && |t.lines| == |rows|
    && (forall i :: 0 <= i < |rows| ==> t.lines[i] == Cells(RecordOf(ft, sorted, keys, LiveIds(defs), rows[i])))
  }

  /** Definition columns stand in the order of their names, and of their ids under one name; ad-hoc
      columns in the order of their types, and of their names within a type. */
  lemma ColumnsInOrder(ft: FloatText, defs: seq<Def>, rows: seq<Row>, t: Table, sorted: seq<Def>, keys: seq<AdHoc>,
                       i: nat, j: nat)
    requires IsExport(ft, defs, rows, t, sorted, keys) && i < j
    ensures j < |sorted| ==> Before(sorted[i].name, sorted[j].name)
                             || (sorted[i].name == sorted[j].name && !Before(sorted[j].id, sorted[i].id))
    ensures j < |keys| ==> Before(keys[i].fieldType, keys[j].fieldType)
                           || (keys[i].fieldType == keys[j].fieldType && Before(keys[i].name, keys[j].name))
  {
    if j < |sorted| {
      BeforeOneWay(sorted[i].name, sorted[j].name);
    }
    if j < |keys| {
      BeforeOneWay(keys[i].fieldType, keys[j].fieldType);
      BeforeOneWay(keys[i].name, keys[j].name);
      assert keys[i] != keys[j];
    }
  }

  method EncodeCSV(ft: FloatText, defs: seq<Def>, rows: seq<Row>) returns (t: Table, sorted: seq<Def>, keys: seq<AdHoc>)
    ensures IsExport(ft, defs, rows, t, sorted, keys)
  {
    sorted := SortBy(defs, DefBefore);
    SortByMultiset(defs, DefBefore);
    DefsCompare();
    SortByOrdered(defs, DefBefore);
    PermutationKeeps(defs, sorted);
    var live := LiveIds(sorted);
    assert live == LiveIds(defs);
    keys := CollectAdHocColumns(rows, live);
    var lines := EncodeRecords(ft, sorted, keys, live, rows);
    t := Table(ExportHeader(FIXED, sorted, keys), lines);
  }
}
