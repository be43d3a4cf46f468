/** Reading an import file: header layout, rows, and the errors a row can have. */
module Import {
  import opened Wire
  import opened Sequences
  import opened Escape
  import opened Cells
  import opened Headers
  import opened Numerals
  import opened Rows
  import opened Export

  function CellAt(record: seq<string>, i: nat): string { if i < |record| then record[i] else "" }

  function FixedCell(layout: Layout<string>, record: seq<string>, c: string): string {
    if c in layout.fixedIdx then CellAt(record, layout.fixedIdx[c]) else ""
  }

  function Gather(fixed: seq<string>, layout: Layout<string>, record: seq<string>): seq<string> {
    seq(|fixed|, i requires 0 <= i < |fixed| => FixedCell(layout, record, fixed[i]))
  }

  // ----- Scalar cells and blocks -----

  function ParseQuantity(s: string): Option<int> { if s == "" then Some(0) else ParseInt64(s) }

  function ParsePrice(s: string): Option<int> {
    if s == "" then Some(0)
    else match ParseInt64(s)
      case Some(n) => if n < 0 then None else Some(n)
      case None => None
  }

  function OrZero(o: Option<int>): int { if o.Some? then o.value else 0 }

  datatype Block<T> = Block(value: Option<T>, errors: nat)

  function ErrorIf(b: bool): nat { if b then 1 else 0 }

  predicate AllEmpty(cells: seq<string>) { forall i :: 0 <= i < |cells| ==> cells[i] == "" }

  function WarrantyBlock(c: seq<string>): Block<StagedWarranty>
    requires |c| == 6
  {
    if AllEmpty(c) then Block(None, 0)
    else
      var lifetime := ParseBool(c[4]);
      Block(Some(StagedWarranty(c[0], c[1], c[2], c[3], lifetime == Some(true), c[5])),
            ErrorIf(!DateAccepted(c[2])) + ErrorIf(!DateAccepted(c[3])) + ErrorIf(c[4] != "" && lifetime.None?))
  }

  function PurchaseBlock(c: seq<string>): Block<StagedPurchase>
    requires |c| == 5
  {
    if AllEmpty(c) then Block(None, 0)
    else Block(Some(StagedPurchase(c[0], c[1], OrZero(ParsePrice(c[2])), c[3], c[4])),
               ErrorIf(!DateAccepted(c[1])) + ErrorIf(ParsePrice(c[2]).None?))
  }

  function SaleBlock(c: seq<string>): Block<StagedSale>
    requires |c| == 4
  {
    if AllEmpty(c) then Block(None, 0)
    else Block(Some(StagedSale(c[0], c[1], OrZero(ParsePrice(c[2])), c[3])),
               ErrorIf(!DateAccepted(c[1])) + ErrorIf(ParsePrice(c[2]).None?))
  }

  // ----- Custom fields -----

  /** The name, type and definition a dynamic column gives its values, unless its type is
      unknown or its definition cannot be found. */
  function Target(defs: seq<Def>, c: Column): Option<FieldValue> {
    match c
    case AdHocColumn(k) =>
      if k.fieldType in TYPES then Some(FieldValue(None, k.name, k.fieldType, None, None, None, None)) else None
    case DefColumn(name, defId) =>
      match Resolve(defs, name, defId)
      case None => None
      case Some(d) =>
        var defId := if d.id != "" then Some(d.id) else None;
        Some(FieldValue(defId, d.name, d.fieldType, None, None, None, None))
  }

  /** Put a non-empty cell into the value column of its type. */
  function WithCell(ft: FloatText, v: FieldValue, cell: string): Option<FieldValue> {
    match v.fieldType
    case "text" => Some(v.(text := Some(cell)))
    case "number" => (match ft.parse(cell) case Some(x) => Some(v.(number := Some(x))) case None => None)
    case "boolean" =>
      (match ParseBool(cell)
       case Some(b) => Some(v.(boolean := Some(if b then 1 else 0)))
       case None => None)
    case "date" => if DateAccepted(cell) then Some(v.(date := Some(cell))) else None
    case _ => Some(v)
  }

  /** One dynamic column of one record; empty cells are skipped. */
  function ReadField(ft: FloatText, defs: seq<Def>, c: Column, cell: string): Parsed<FieldValue> {
    if cell == "" then Parsed([], 0)
    else match Target(defs, c)
      case None => Parsed([], 1)
      case Some(v) =>
        match WithCell(ft, v, cell)
        case None => Parsed([], 1)
        case Some(v) => Parsed([v], 0)
  }

  function ReadFields(ft: FloatText, defs: seq<Def>, dyn: seq<DynColumn>, record: seq<string>): Parsed<FieldValue> {
    if dyn == [] then Parsed([], 0)
    else
      var n := |dyn| - 1;
      var before := ReadFields(ft, defs, dyn[..n], record);
      var last := ReadField(ft, defs, dyn[n].column, CellAt(record, dyn[n].index));
      Parsed(before.values + last.values, before.errors + last.errors)
  }

  method ParseCustomFields(ft: FloatText, defs: seq<Def>, dyn: seq<DynColumn>, record: seq<string>)
    returns (r: Parsed<FieldValue>)
    ensures r == ReadFields(ft, defs, dyn, record)
  {
    var out, errors := [], 0;
    for i := 0 to |dyn|
      invariant Parsed(out, errors) == ReadFields(ft, defs, dyn[..i], record)
    {
      assert dyn[..i + 1][..i] == dyn[..i];
      var cell := CellAt(record, dyn[i].index);
      if cell != "" {
        var target := Target(defs, dyn[i].column);
        if target.None? {
          errors := errors + 1;
        } else {
          var v := WithCell(ft, target.value, cell);
          if v.None? {
            errors := errors + 1;
          } else {
            out := out + [v.value];
          }
        }
      }
    }
    assert dyn[..|dyn|] == dyn;
    return Parsed(out, errors);
  }

  // ----- Rows -----

  /** The list-valued and block-valued parts of a record, parsed. */
  datatype Parts = Parts(labels: Parsed<string>, idents: Parsed<Ident>, files: Parsed<FileRef>,
                         warranty: Block<StagedWarranty>, purchase: Block<StagedPurchase>, sale: Block<StagedSale>,
                         fields: Parsed<FieldValue>)
  {
    function Errors(): nat {
      labels.errors + idents.errors + files.errors + warranty.errors + purchase.errors + sale.errors + fields.errors
    }
  }

  function PartsOf(ft: FloatText, defs: seq<Def>, c: seq<string>, dyn: seq<DynColumn>, record: seq<string>): Parts
    requires |c| == FIXED_COUNT
  {
    Parts(Collect(Split(c[7], '|'), LabelEntry), Collect(Split(c[8], '|'), IdentEntry),
          Collect(Split(c[9], '|'), FileEntry),
          WarrantyBlock(c[10..16]), PurchaseBlock(c[16..21]), SaleBlock(c[21..25]),
          ReadFields(ft, defs, dyn, record))
  }

  /** A row with errors is an error row, a known id makes an update, anything else a create. */
  function Assemble(existing: set<string>, c: seq<string>, p: Parts): Staged
    requires |c| == FIXED_COUNT
  {
    var quantity := ParseQuantity(c[3]);
    var errors := ErrorIf(c[1] == "") + ErrorIf(quantity.None?) + p.Errors();
    var known := c[0] != "" && c[0] in existing;
    Staged(if errors > 0 then ActError else if known then ActUpdate else ActCreate,
           errors, c[0], if errors == 0 && known then c[0] else "",
           c[1], c[2], OrZero(quantity), if c[5] != "" then Some(c[5]) else None, c[6],
           p.labels.values, p.idents.values, p.files.values, p.warranty.value, p.purchase.value, p.sale.value,
           p.fields.values)
  }

  /** A record whose fixed cells are `c`. */
  function StageRow(ft: FloatText, defs: seq<Def>, existing: set<string>, c: seq<string>, dyn: seq<DynColumn>,
                    record: seq<string>): Staged
    requires |c| == FIXED_COUNT
  {
    Assemble(existing, c, PartsOf(ft, defs, c, dyn, record))
  }

  method ParseParts(ft: FloatText, defs: seq<Def>, c: seq<string>, dyn: seq<DynColumn>, record: seq<string>)
    returns (p: Parts)
    requires |c| == FIXED_COUNT
    ensures p == PartsOf(ft, defs, c, dyn, record)
  {
    var labels := ParseLabels(c[7]);
    var idents := ParseIdentifications(c[8]);
    var files := ParseAttachments(c[9]);
    var fields := ParseCustomFields(ft, defs, dyn, record);
    p := Parts(labels, idents, files, WarrantyBlock(c[10..16]), PurchaseBlock(c[16..21]), SaleBlock(c[21..25]), fields);
  }

  method ParseRow(ft: FloatText, defs: seq<Def>, existing: set<string>, c: seq<string>, dyn: seq<DynColumn>,
                  record: seq<string>)
    returns (s: Staged)
    requires |c| == FIXED_COUNT
    ensures s == StageRow(ft, defs, existing, c, dyn, record)
  {
    var p := ParseParts(ft, defs, c, dyn, record);
    var errors: nat := p.Errors();
    if c[1] == "" {
      errors := errors + 1;
    }
    var quantity := ParseQuantity(c[3]);
    if quantity.None? {
      errors := errors + 1;
    }
    var location := None;
    if c[5] != "" {
      location := Some(c[5]);
    }
    s := Staged(ActCreate, errors, c[0], "", c[1], c[2], OrZero(quantity), location, c[6],
                p.labels.values, p.idents.values, p.files.values, p.warranty.value, p.purchase.value, p.sale.value,
                p.fields.values);
    if errors > 0 {
      s := s.(action := ActError);
    } else if c[0] != "" && c[0] in existing {
      s := s.(action := ActUpdate, id := c[0]);
    }
  }

  // ----- What a record's cells make of it -----

  /** An entry of the labels cell is empty. */
  predicate BadLabel(piece: string) { piece == "" }

  /** An identification is not a known kind and a value. */
  predicate BadIdent(piece: string) {
    var parts := Split(piece, ':');
    |parts| != 2 || Unescaped(parts[0], false) !in KINDS || parts[1] == ""
  }

  /** An attachment reference is not a known category, a name and a checksum. */
  predicate BadFile(piece: string) {
    var parts := Split(piece, ':');
    |parts| != 3 || Unescaped(parts[0], false) !in CATEGORIES || parts[1] == "" || parts[2] == ""
  }

  /** A cell that is neither empty nor a calendar day. */
  predicate BadDay(cell: string) { cell != "" && !IsDay(cell) }

  /** A cell that is neither empty nor a 64-bit integer of at least this much. */
  ghost predicate BadNumber(cell: string, least: int) {
    cell != "" && forall n :: Denotes(cell, n) ==> !(least <= n && IsInt64(n))
  }

  /** A cell that is neither empty nor true or false, in any case of letters. */
  predicate BadTruth(cell: string) { cell != "" && LowerAll(cell) != "true" && LowerAll(cell) != "false" }

  /** The type of the values in a dynamic column, if it has one. */
  function TypeIn(defs: seq<Def>, c: Column): Option<string> {
    match c
    case AdHocColumn(k) => if k.fieldType in TYPES then Some(k.fieldType) else None
    case DefColumn(name, defId) =>
      match Resolve(defs, name, defId)
      case Some(d) => Some(d.fieldType)
      case None => None
  }

  /** A cell of a dynamic column that is not empty and has no type or does not fit it. */
  predicate BadField(ft: FloatText, defs: seq<Def>, c: Column, cell: string) {
    && cell != ""
    && match TypeIn(defs, c)
       case None => true
       case Some(t) => (t == "number" && ft.parse(cell).None?) || (t == "boolean" && BadTruth(cell))
                       || (t == "date" && BadDay(cell))
  }

  /** What makes a record an error: no name, a cell that cannot be read, or a bad entry in a list. */
  ghost predicate Faulty(ft: FloatText, defs: seq<Def>, c: seq<string>, dyn: seq<DynColumn>, record: seq<string>)
    requires |c| == FIXED_COUNT
  {
    || c[1] == "" || BadNumber(c[3], INT64_MIN)
    || (exists p :: p in Split(c[7], '|') && BadLabel(p))
    || (exists p :: p in Split(c[8], '|') && BadIdent(p))
    || (exists p :: p in Split(c[9], '|') && BadFile(p))
    || BadDay(c[12]) || BadDay(c[13]) || BadTruth(c[14])
    || BadDay(c[17]) || BadNumber(c[18], 0)
    || BadDay(c[22]) || BadNumber(c[23], 0)
    || exists d :: d in dyn && BadField(ft, defs, d.column, CellAt(record, d.index))
  }

  /** The number in a cell; zero for an empty one and for one that is no such number. */
  ghost predicate NumberIn(cell: string, least: int, n: int) {
    if cell == "" || BadNumber(cell, least) then n == 0 else Denotes(cell, n)
  }

  /** A block is there when one of its cells is not empty, and then holds what they say. */
  ghost predicate BlocksRead(c: seq<string>, s: Staged)
    requires |c| == FIXED_COUNT
  {
    WarrantyRead(c, s.warranty) && PurchaseRead(c, s.purchase) && SaleRead(c, s.sale)
  }

  ghost predicate WarrantyRead(c: seq<string>, w: Option<StagedWarranty>)
    requires |c| == FIXED_COUNT
  {
    if forall i :: 10 <= i < 16 ==> c[i] == "" then w == None
    else w == Some(StagedWarranty(c[10], c[11], c[12], c[13], LowerAll(c[14]) == "true", c[15]))
  }

  ghost predicate PurchaseRead(c: seq<string>, p: Option<StagedPurchase>)
    requires |c| == FIXED_COUNT
  {
    if forall i :: 16 <= i < 21 ==> c[i] == "" then p == None
    else
      && p.Some? && NumberIn(c[18], 0, p.value.priceMinor)
      && p.value == StagedPurchase(c[16], c[17], p.value.priceMinor, c[19], c[20])
  }

  ghost predicate SaleRead(c: seq<string>, e: Option<StagedSale>)
    requires |c| == FIXED_COUNT
  {
    if forall i :: 21 <= i < 25 ==> c[i] == "" then e == None
    else
      && e.Some? && NumberIn(c[23], 0, e.value.priceMinor)
      && e.value == StagedSale(c[21], c[22], e.value.priceMinor, c[24])
  }

  lemma NumberExact(cell: string, least: int)
    requires INT64_MIN <= least
    ensures ParseInt64(cell).Some? && least <= ParseInt64(cell).value <==> cell != "" && !BadNumber(cell, least)
    ensures ParseInt64(cell).Some? ==> Denotes(cell, ParseInt64(cell).value)
  {
    ParseInt64Exact(cell);
  }

  lemma EmptyUnescaped(s: string)
    ensures Unescaped(s, false) == "" <==> s == ""
  {
    var units := UnescapedExact(s);
  }

  lemma {:induction false} CollectErrors<T>(pieces: seq<string>, entry: string -> Parsed<T>)
    ensures Collect(pieces, entry).errors > 0 <==> exists p :: p in pieces && entry(p).errors > 0
  {
    if pieces != [] {
      var n := |pieces| - 1;
      CollectErrors(pieces[..n], entry);
      assert pieces == pieces[..n] + [pieces[n]];
    }
  }

  lemma EntriesExact(piece: string)
    ensures LabelEntry(piece).errors > 0 <==> BadLabel(piece)
    ensures IdentEntry(piece).errors > 0 <==> BadIdent(piece)
    ensures FileEntry(piece).errors > 0 <==> BadFile(piece)
  {
    EmptyUnescaped(piece);
    var parts := Split(piece, ':');
    forall p | p in parts ensures Unescaped(p, false) == "" <==> p == "" {
      EmptyUnescaped(p);
    }
  }

  lemma ReadFieldErrors(ft: FloatText, defs: seq<Def>, c: Column, cell: string)
    requires forall d :: d in defs ==> d.fieldType in TYPES
    ensures ReadField(ft, defs, c, cell).errors > 0 <==> BadField(ft, defs, c, cell)
  {
    if c.DefColumn? {
      FoundIsLive(defs, c.name, c.defId);
    }
  }

  lemma {:induction false} ReadFieldsErrors(ft: FloatText, defs: seq<Def>, dyn: seq<DynColumn>, record: seq<string>)
    requires forall d :: d in defs ==> d.fieldType in TYPES
    ensures ReadFields(ft, defs, dyn, record).errors > 0 <==>
            exists d :: d in dyn && BadField(ft, defs, d.column, CellAt(record, d.index))
  {
    if dyn != [] {
      var n := |dyn| - 1;
      ReadFieldsErrors(ft, defs, dyn[..n], record);
      ReadFieldErrors(ft, defs, dyn[n].column, CellAt(record, dyn[n].index));
      assert dyn == dyn[..n] + [dyn[n]];
    }
  }

  /** A custom field value from a cell: named, typed and linked by its column, and holding what the
      cell says in the part that its type names. */
  ghost predicate FieldHolds(ft: FloatText, defs: seq<Def>, c: Column, cell: string, v: FieldValue) {
    && (match c
        case AdHocColumn(k) => v.defId == None && v.name == k.name && v.fieldType == k.fieldType
        case DefColumn(name, defId) =>
          exists d :: Resolve(defs, name, defId) == Some(d) && v.name == d.name && v.fieldType == d.fieldType
                      && v.defId == if d.id == "" then None else Some(d.id))
    && v.text == (if v.fieldType == "text" then Some(cell) else None)
    && v.number == (if v.fieldType == "number" then ft.parse(cell) else None)
    && v.boolean == (if v.fieldType == "boolean" then Some(if LowerAll(cell) == "true" then 1 else 0) else None)
    && v.date == (if v.fieldType == "date" then Some(cell) else None)
  }

  /** One cell of a dynamic column: nothing if it is empty, an error if it is bad, else its value. */
  lemma ReadFieldExact(ft: FloatText, defs: seq<Def>, c: Column, cell: string)
    requires forall d :: d in defs ==> d.fieldType in TYPES
    ensures var r := ReadField(ft, defs, c, cell);
            if cell == "" then r == Parsed([], 0)
            else if BadField(ft, defs, c, cell) then r == Parsed([], 1)
            else |r.values| == 1 && r.errors == 0 && FieldHolds(ft, defs, c, cell, r.values[0])
  {
    if c.DefColumn? {
      FoundIsLive(defs, c.name, c.defId);
    }
    TruthExact(cell);
  }

  /** The columns are read from left to right. */
  lemma {:induction false} ReadFieldsExact(ft: FloatText, defs: seq<Def>, dyn: seq<DynColumn>, record: seq<string>)
    ensures ReadFields(ft, defs, dyn, record).values ==
            Flat(seq(|dyn|, i requires 0 <= i < |dyn| =>
              ReadField(ft, defs, dyn[i].column, CellAt(record, dyn[i].index)).values))
  {
    if dyn != [] {
      var n := |dyn| - 1;
      ReadFieldsExact(ft, defs, dyn[..n], record);
      var parts := seq(|dyn|, i requires 0 <= i < |dyn| =>
        ReadField(ft, defs, dyn[i].column, CellAt(record, dyn[i].index)).values);
      FlatLast(parts);
      assert parts[..n] == seq(n, i requires 0 <= i < n =>
        ReadField(ft, defs, dyn[..n][i].column, CellAt(record, dyn[..n][i].index)).values);
    }
  }

  lemma ListErrors(c: seq<string>)
    requires |c| == FIXED_COUNT
    ensures Collect(Split(c[7], '|'), LabelEntry).errors > 0 <==> exists p :: p in Split(c[7], '|') && BadLabel(p)
    ensures Collect(Split(c[8], '|'), IdentEntry).errors > 0 <==> exists p :: p in Split(c[8], '|') && BadIdent(p)
    ensures Collect(Split(c[9], '|'), FileEntry).errors > 0 <==> exists p :: p in Split(c[9], '|') && BadFile(p)
  {
    forall p: string
      ensures LabelEntry(p).errors > 0 <==> BadLabel(p)
      ensures IdentEntry(p).errors > 0 <==> BadIdent(p)
      ensures FileEntry(p).errors > 0 <==> BadFile(p)
    {
      EntriesExact(p);
    }
    CollectErrors(Split(c[7], '|'), LabelEntry);
    CollectErrors(Split(c[8], '|'), IdentEntry);
    CollectErrors(Split(c[9], '|'), FileEntry);
  }

  lemma TruthExact(cell: string)
    ensures ParseBool(cell).None? <==> LowerAll(cell) != "true" && LowerAll(cell) != "false"
    ensures ParseBool(cell) == Some(true) <==> LowerAll(cell) == "true"
  {
  }

  lemma BlockErrors(c: seq<string>)
    requires |c| == FIXED_COUNT
    ensures WarrantyBlock(c[10..16]).errors > 0 <==> BadDay(c[12]) || BadDay(c[13]) || BadTruth(c[14])
    ensures PurchaseBlock(c[16..21]).errors > 0 <==> BadDay(c[17]) || BadNumber(c[18], 0)
    ensures SaleBlock(c[21..25]).errors > 0 <==> BadDay(c[22]) || BadNumber(c[23], 0)
  {
    var w, p, s := c[10..16], c[16..21], c[21..25];
    assert w[2] == c[12] && w[3] == c[13] && w[4] == c[14];
    assert p[1] == c[17] && p[2] == c[18] && s[1] == c[22] && s[2] == c[23];
    TruthExact(c[14]);
    NumberExact(c[18], 0);
    NumberExact(c[23], 0);
  }

  lemma BlocksReadExact(c: seq<string>, s: Staged)
    requires |c| == FIXED_COUNT && s.warranty == WarrantyBlock(c[10..16]).value
    requires s.purchase == PurchaseBlock(c[16..21]).value && s.sale == SaleBlock(c[21..25]).value
    ensures BlocksRead(c, s)
  {
    WarrantyReadExact(c);
    PurchaseReadExact(c);
    SaleReadExact(c);
  }

  lemma WarrantyReadExact(c: seq<string>)
    requires |c| == FIXED_COUNT
    ensures WarrantyRead(c, WarrantyBlock(c[10..16]).value)
  {
    var w := c[10..16];
    assert w[0] == c[10] && w[1] == c[11] && w[2] == c[12] && w[3] == c[13] && w[4] == c[14] && w[5] == c[15];
    TruthExact(c[14]);
  }

  lemma PurchaseReadExact(c: seq<string>)
    requires |c| == FIXED_COUNT
    ensures PurchaseRead(c, PurchaseBlock(c[16..21]).value)
  {
    var p := c[16..21];
    assert p[0] == c[16] && p[1] == c[17] && p[2] == c[18] && p[3] == c[19] && p[4] == c[20];
    NumberExact(c[18], 0);
  }

  lemma SaleReadExact(c: seq<string>)
    requires |c| == FIXED_COUNT
    ensures SaleRead(c, SaleBlock(c[21..25]).value)
  {
    var e := c[21..25];
    assert e[0] == c[21] && e[1] == c[22] && e[2] == c[23] && e[3] == c[24];
    NumberExact(c[23], 0);
  }

  /** The identification an entry stands for. */
  predicate IdentReads(piece: string, id: Ident) {
    var parts := Split(piece, ':');
    |parts| == 2 && id == Ident(Unescaped(parts[0], false), Unescaped(parts[1], false))
  }

  predicate FileReads(piece: string, f: FileRef) {
    var parts := Split(piece, ':');
    |parts| == 3 && f == FileRef(Unescaped(parts[0], false), Unescaped(parts[1], false), Unescaped(parts[2], false))
  }

  /** A list cell without bad entries gives one value per entry, in order. */
  ghost predicate ListsRead(c: seq<string>, s: Staged)
    requires |c| == FIXED_COUNT
  {
    var labels, idents, files := Split(c[7], '|'), Split(c[8], '|'), Split(c[9], '|');
    && ((forall p :: p in labels ==> !BadLabel(p)) ==>
          |s.labels| == |labels| && forall i :: 0 <= i < |labels| ==> s.labels[i] == Unescaped(labels[i], false))
    && ((forall p :: p in idents ==> !BadIdent(p)) ==>
          |s.idents| == |idents| && forall i :: 0 <= i < |idents| ==> IdentReads(idents[i], s.idents[i]))
    && ((forall p :: p in files ==> !BadFile(p)) ==>
          |s.files| == |files| && forall i :: 0 <= i < |files| ==> FileReads(files[i], s.files[i]))
  }

  lemma {:induction false} CollectValues<T>(pieces: seq<string>, entry: string -> Parsed<T>)
    requires forall p :: p in pieces ==> |entry(p).values| == 1
    ensures var r := Collect(pieces, entry).values;
            |r| == |pieces| && forall i :: 0 <= i < |pieces| ==> r[i] == entry(pieces[i]).values[0]
  {
    if pieces != [] {
      var n := |pieces| - 1;
      assert pieces == pieces[..n] + [pieces[n]];
      CollectValues(pieces[..n], entry);
    }
  }

  lemma ListsReadExact(c: seq<string>, s: Staged)
    requires |c| == FIXED_COUNT && s.labels == Collect(Split(c[7], '|'), LabelEntry).values
    requires s.idents == Collect(Split(c[8], '|'), IdentEntry).values
    requires s.files == Collect(Split(c[9], '|'), FileEntry).values
    ensures ListsRead(c, s)
  {
    forall p: string
      ensures !BadLabel(p) ==> LabelEntry(p).values == [Unescaped(p, false)]
      ensures !BadIdent(p) ==> |IdentEntry(p).values| == 1
      ensures !BadFile(p) ==> |FileEntry(p).values| == 1
    {
      EntriesExact(p);
    }
    if forall p :: p in Split(c[7], '|') ==> !BadLabel(p) {
      CollectValues(Split(c[7], '|'), LabelEntry);
    }
    if forall p :: p in Split(c[8], '|') ==> !BadIdent(p) {
      IdentsReadExact(Split(c[8], '|'));
    }
    if forall p :: p in Split(c[9], '|') ==> !BadFile(p) {
      FilesReadExact(Split(c[9], '|'));
    }
  }

  lemma IdentsReadExact(pieces: seq<string>)
    requires forall p :: p in pieces ==> !BadIdent(p)
    ensures var r := Collect(pieces, IdentEntry).values;
            |r| == |pieces| && forall i :: 0 <= i < |pieces| ==> IdentReads(pieces[i], r[i])
  {
    forall p | p in pieces ensures |IdentEntry(p).values| == 1 {
      EntriesExact(p);
    }
    CollectValues(pieces, IdentEntry);
    forall i | 0 <= i < |pieces| ensures IdentReads(pieces[i], Collect(pieces, IdentEntry).values[i]) {
      EntriesExact(pieces[i]);
    }
  }

  lemma FilesReadExact(pieces: seq<string>)
    requires forall p :: p in pieces ==> !BadFile(p)
    ensures var r := Collect(pieces, FileEntry).values;
            |r| == |pieces| && forall i :: 0 <= i < |pieces| ==> FileReads(pieces[i], r[i])
  {
    forall p | p in pieces ensures |FileEntry(p).values| == 1 {
      EntriesExact(p);
    }
    CollectValues(pieces, FileEntry);
    forall i | 0 <= i < |pieces| ensures FileReads(pieces[i], Collect(pieces, FileEntry).values[i]) {
      EntriesExact(pieces[i]);
    }
  }

  /** Wherever a fixed column stands in the header, its cell is the one read for it. */
  lemma GatherExact(f: Format<string>, header: seq<string>, layout: Layout<string>, record: seq<string>, i: nat, j: nat)
    requires LayoutOf(f, header, layout) && Distinct(header) && |record| == |header|
    requires i < |f.fixed| && j < |header| && header[j] == f.fixed[i]
    ensures Gather(f.fixed, layout, record)[i] == record[j]
  {
    assert header[layout.fixedIdx[f.fixed[i]]] == header[j];
  }

  lemma FaultsCounted(ft: FloatText, defs: seq<Def>, c: seq<string>, dyn: seq<DynColumn>, record: seq<string>)
    requires |c| == FIXED_COUNT && forall d :: d in defs ==> d.fieldType in TYPES
    ensures Faulty(ft, defs, c, dyn, record) <==>
            c[1] == "" || ParseQuantity(c[3]).None? || PartsOf(ft, defs, c, dyn, record).Errors() > 0
  {
    NumberExact(c[3], INT64_MIN);
    ListErrors(c);
    BlockErrors(c);
    ReadFieldsErrors(ft, defs, dyn, record);
  }

  /** What the cells of a record make of it, whatever they hold: an error row exactly when a cell
      is faulty, else an update of the known item it names, or a create; and the values that its
      cells say. */
  lemma RowExact(ft: FloatText, defs: seq<Def>, existing: set<string>, c: seq<string>, dyn: seq<DynColumn>,
                 record: seq<string>)
    requires |c| == FIXED_COUNT && forall d :: d in defs ==> d.fieldType in TYPES
    ensures var s := StageRow(ft, defs, existing, c, dyn, record);
            var known := c[0] != "" && c[0] in existing;
            && s.action == (if Faulty(ft, defs, c, dyn, record) then ActError else if known then ActUpdate
                            else ActCreate)
            && (s.errors > 0 <==> s.action.ActError?) && s.sourceId == c[0]
            && s.id == (if s.action.ActUpdate? then c[0] else "")
            && s.name == c[1] && s.description == c[2] && NumberIn(c[3], INT64_MIN, s.quantity)
            && s.location == (if c[5] == "" then None else Some(c[5])) && s.shortCode == c[6]
            && BlocksRead(c, s) && ListsRead(c, s)
  {
    NumberExact(c[3], INT64_MIN);
    FaultsCounted(ft, defs, c, dyn, record);
    BlocksReadExact(c, StageRow(ft, defs, existing, c, dyn, record));
    ListsReadExact(c, StageRow(ft, defs, existing, c, dyn, record));
  }

  /** What a line that cannot be read, or is not as wide as the header, becomes. */
  const UNREADABLE := Staged(ActError, 1, "", "", "", "", 0, None, "", [], [], [], None, None, None, [])

  function StageLine(ft: FloatText, defs: seq<Def>, existing: set<string>, fixed: seq<string>, layout: Layout<string>,
                     width: nat, line: Line): Staged
    requires |fixed| == FIXED_COUNT
  {
    if line.Malformed? || |line.cells| != width then UNREADABLE
    else StageRow(ft, defs, existing, Gather(fixed, layout, line.cells), layout.dynamic, line.cells)
  }

  /** A whole file.  A header the layout parser rejects rejects the file. */
  method ParseCSV(ft: FloatText, t: Table, existing: set<string>, defs: seq<Def>)
    returns (layout: Option<Layout<string>>, rows: seq<Staged>)
    ensures layout.Some? <==> Acceptable(CSV_FORMAT, t.header)
    ensures layout.Some? ==>
              LayoutOf(CSV_FORMAT, t.header, layout.value)
                && StagedFrom(ft, FIXED, t, layout.value, existing, defs, rows)
    ensures forall i :: 0 <= i < |rows| ==> LinkedIds(rows[i].fields) <= LiveIds(defs)
  {
    FixedIndexExact(0);
    layout := ParseHeaderLayout(CSV_FORMAT, t.header);
    rows := [];
    if layout.Some? {
      rows := ParseLines(ft, FIXED, t, layout.value, existing, defs);
      forall i | 0 <= i < |rows| ensures LinkedIds(rows[i].fields) <= LiveIds(defs) {
        LineLinksLive(ft, defs, existing, FIXED, layout.value, |t.header|, t.lines[i]);
      }
    }
  }

  /** Line by line, in order. */
  ghost predicate StagedFrom(ft: FloatText, fixed: seq<string>, t: Table, layout: Layout<string>,
                             existing: set<string>, defs: seq<Def>, rows: seq<Staged>)
  {
    && |rows| == |t.lines| && |fixed| == FIXED_COUNT
    && forall i :: 0 <= i < |t.lines| ==>
         rows[i] == StageLine(ft, defs, existing, fixed, layout, |t.header|, t.lines[i])
  }

  /** A line that cannot be read, or is not as wide as the header, is an error row; any other is
      what its cells, found under their headers, make of it. */
  lemma LineExact(ft: FloatText, defs: seq<Def>, existing: set<string>, f: Format<string>, header: seq<string>,
                  layout: Layout<string>, line: Line)
    requires |f.fixed| == FIXED_COUNT && LayoutOf(f, header, layout) && Distinct(header)
    requires forall d :: d in f.fixed ==> d in header
    ensures var s := StageLine(ft, defs, existing, f.fixed, layout, |header|, line);
            if line.Malformed? || |line.cells| != |header| then s.action.ActError?
            else exists c :: |c| == FIXED_COUNT && s == StageRow(ft, defs, existing, c, layout.dynamic, line.cells)
                   && forall i, j :: 0 <= i < FIXED_COUNT && 0 <= j < |header| && header[j] == f.fixed[i] ==>
                        c[i] == line.cells[j]
  {
    if line.Cells? && |line.cells| == |header| {
      var c := Gather(f.fixed, layout, line.cells);
      forall i, j | 0 <= i < FIXED_COUNT && 0 <= j < |header| && header[j] == f.fixed[i] ensures c[i] == line.cells[j] {
        GatherExact(f, header, layout, line.cells, i, j);
      }
    }
  }

  method ParseLines(ft: FloatText, fixed: seq<string>, t: Table, layout: Layout<string>, existing: set<string>,
                    defs: seq<Def>)
    returns (rows: seq<Staged>)
    requires |fixed| == FIXED_COUNT
    ensures StagedFrom(ft, fixed, t, layout, existing, defs, rows)
  {
    rows := [];
    for i := 0 to |t.lines|
      invariant |rows| == i
      invariant forall j :: 0 <= j < i ==>
                  rows[j] == StageLine(ft, defs, existing, fixed, layout, |t.header|, t.lines[j])
    {
      var s := ParseLine(ft, fixed, |t.header|, t.lines[i], layout, existing, defs);
      rows := rows + [s];
    }
  }

  method ParseLine(ft: FloatText, fixed: seq<string>, width: nat, line: Line, layout: Layout<string>,
                   existing: set<string>, defs: seq<Def>)
    returns (s: Staged)
    requires |fixed| == FIXED_COUNT
    ensures s == StageLine(ft, defs, existing, fixed, layout, width, line)
  {
    if line.Malformed? || |line.cells| != width {
      return UNREADABLE;
    }
    s := ParseRow(ft, defs, existing, Gather(fixed, layout, line.cells), layout.dynamic, line.cells);
  }

  // ----- Imported values are linked to live definitions only -----

  lemma {:induction false} FoundIsLive(defs: seq<Def>, name: string, id: string)
    ensures FindById(defs, id).Some? ==> FindById(defs, id).value in defs
    ensures FindByName(defs, name).Some? ==> FindByName(defs, name).value in defs
  {
    if defs != [] {
      FoundIsLive(defs[..|defs| - 1], name, id);
    }
  }

  lemma ReadFieldLinksLive(ft: FloatText, defs: seq<Def>, c: Column, cell: string, v: FieldValue)
    requires v in ReadField(ft, defs, c, cell).values && v.defId.Some?
    ensures v.defId.value in LiveIds(defs)
  {
    if c.DefColumn? {
      FoundIsLive(defs, c.name, c.defId);
    }
  }

  lemma {:induction false} ReadFieldsLinkLive(ft: FloatText, defs: seq<Def>, dyn: seq<DynColumn>, record: seq<string>)
    ensures LinkedIds(ReadFields(ft, defs, dyn, record).values) <= LiveIds(defs)
  {
    if dyn != [] {
      var n := |dyn| - 1;
      ReadFieldsLinkLive(ft, defs, dyn[..n], record);
      forall v | v in ReadField(ft, defs, dyn[n].column, CellAt(record, dyn[n].index)).values && v.defId.Some?
        ensures v.defId.value in LiveIds(defs)
      {
        ReadFieldLinksLive(ft, defs, dyn[n].column, CellAt(record, dyn[n].index), v);
      }
    }
  }

  /** Whatever the file holds. */
  lemma LineLinksLive(ft: FloatText, defs: seq<Def>, existing: set<string>, fixed: seq<string>, layout: Layout<string>,
                      width: nat, line: Line)
    requires |fixed| == FIXED_COUNT
    ensures LinkedIds(StageLine(ft, defs, existing, fixed, layout, width, line).fields) <= LiveIds(defs)
  {
    if line.Cells? {
      ReadFieldsLinkLive(ft, defs, layout.dynamic, line.cells);
    }
  }
}
