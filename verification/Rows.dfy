/** Items as an export sees them and as an import proposes them, and the comparison between
    the two. */
module Rows {
  import opened Wire
  import opened Cells
  import opened Headers
  import opened Sorting

  datatype Warranty = Warranty(holder: string, provider: string, startsOn: Option<string>, expiresOn: Option<string>,
                               isLifetime: int, notes: string)
  datatype Purchase = Purchase(vendor: string, purchasedOn: Option<string>, priceMinor: int, orderReference: string,
                               notes: string)
  datatype Sale = Sale(buyerName: string, soldOn: Option<string>, priceMinor: int, notes: string)

  /** One custom field value of an item: linked to a definition, or ad hoc. */
  datatype FieldValue = FieldValue(
    defId: Option<string>, name: string, fieldType: string,
    text: Option<string>, number: Option<real>, boolean: Option<int>, date: Option<string>)

  /** An item with everything that hangs off it. */
  datatype Row = Row(
    id: string, name: string, description: string, quantity: int, locationPath: string,
    location: Option<string>, shortCode: string,
    labels: seq<string>, idents: seq<Ident>, files: seq<FileRef>,
    warranty: Option<Warranty>, purchase: Option<Purchase>, sale: Option<Sale>,
    fields: seq<FieldValue>)

  datatype StagedWarranty = StagedWarranty(holder: string, provider: string, startsOn: string, expiresOn: string,
                                           isLifetime: bool, notes: string)
  datatype StagedPurchase = StagedPurchase(vendor: string, purchasedOn: string, priceMinor: int,
                                           orderReference: string, notes: string)
  datatype StagedSale = StagedSale(buyerName: string, soldOn: string, priceMinor: int, notes: string)

  datatype Action = ActCreate | ActUpdate | ActError

  /** A parsed import row. */
  datatype Staged = Staged(
    action: Action, errors: nat, sourceId: string, id: string,
    name: string, description: string, quantity: int, location: Option<string>, shortCode: string,
    labels: seq<string>, idents: seq<Ident>, files: seq<FileRef>,
    warranty: Option<StagedWarranty>, purchase: Option<StagedPurchase>, sale: Option<StagedSale>,
    fields: seq<FieldValue>)

  /** nullString: a NULL column reads as the empty string. */
  function OrEmpty(o: Option<string>): string { if o.Some? then o.value else "" }

  // ----- Satellite blocks, compared field by field; a missing block equals an all-empty one -----

  function WarrantyFields(w: Option<Warranty>): StagedWarranty {
    match w
    case None => StagedWarranty("", "", "", "", false, "")
    case Some(w) => StagedWarranty(w.holder, w.provider, OrEmpty(w.startsOn), OrEmpty(w.expiresOn), w.isLifetime != 0,
                                   w.notes)
  }

  function StagedWarrantyFields(w: Option<StagedWarranty>): StagedWarranty {
    if w.Some? then w.value else StagedWarranty("", "", "", "", false, "")
  }

  function PurchaseFields(p: Option<Purchase>): StagedPurchase {
    match p
    case None => StagedPurchase("", "", 0, "", "")
    case Some(p) => StagedPurchase(p.vendor, OrEmpty(p.purchasedOn), p.priceMinor, p.orderReference, p.notes)
  }

  function StagedPurchaseFields(p: Option<StagedPurchase>): StagedPurchase {
    if p.Some? then p.value else StagedPurchase("", "", 0, "", "")
  }

  function SaleFields(s: Option<Sale>): StagedSale {
    match s
    case None => StagedSale("", "", 0, "")
    case Some(s) => StagedSale(s.buyerName, OrEmpty(s.soldOn), s.priceMinor, s.notes)
  }

  function StagedSaleFields(s: Option<StagedSale>): StagedSale {
    if s.Some? then s.value else StagedSale("", "", 0, "")
  }

  // ----- Custom fields -----

  predicate IsAdHoc(v: FieldValue, live: set<string>) { v.defId.None? || v.defId.value !in live }

  function KeyOf(v: FieldValue): AdHoc { AdHoc(v.fieldType, v.name) }

  /** The last value linked to a definition counts. */
  function ByDef(values: seq<FieldValue>, id: string): Option<FieldValue> {
    if values == [] then None
    else
      var n := |values| - 1;
      if values[n].defId == Some(id) then Some(values[n]) else ByDef(values[..n], id)
  }

  /** The first ad-hoc value under a type and name counts. */
  function ByKey(values: seq<FieldValue>, live: set<string>, key: AdHoc): Option<FieldValue> {
    if values == [] then None
    else
      var n := |values| - 1;
      var earlier := ByKey(values[..n], live, key);
      if earlier.Some? then earlier
      else if IsAdHoc(values[n], live) && KeyOf(values[n]) == key then Some(values[n]) else None
  }

  lemma {:induction false} ByDefMember(values: seq<FieldValue>, id: string)
    ensures ByDef(values, id).Some? ==> ByDef(values, id).value in values && ByDef(values, id).value.defId == Some(id)
    ensures ByDef(values, id).None? ==> forall v :: v in values ==> v.defId != Some(id)
  {
    if values != [] {
      var n := |values| - 1;
      ByDefMember(values[..n], id);
      assert values == values[..n] + [values[n]];
    }
  }

  lemma {:induction false} ByKeyMember(values: seq<FieldValue>, live: set<string>, key: AdHoc)
    ensures var r := ByKey(values, live, key);
            r.Some? ==> r.value in values && IsAdHoc(r.value, live) && KeyOf(r.value) == key
    ensures ByKey(values, live, key).None? ==> forall v :: v in values ==> !(IsAdHoc(v, live) && KeyOf(v) == key)
  {
    if values != [] {
      var n := |values| - 1;
      ByKeyMember(values[..n], live, key);
      assert values == values[..n] + [values[n]];
    }
  }

  /** The value at this place is the last one linked to the definition. */
  ghost predicate LastLinked(values: seq<FieldValue>, id: string, i: nat) {
    && i < |values| && values[i].defId == Some(id)
    && forall j :: i < j < |values| ==> values[j].defId != Some(id)
  }

  /** The value at this place is the first ad-hoc one of its type and name. */
  ghost predicate FirstAdHoc(values: seq<FieldValue>, live: set<string>, key: AdHoc, i: nat) {
    && i < |values| && IsAdHoc(values[i], live) && KeyOf(values[i]) == key
    && forall j :: 0 <= j < i ==> !(IsAdHoc(values[j], live) && KeyOf(values[j]) == key)
  }

  lemma {:induction false} ByDefExact(values: seq<FieldValue>, id: string)
    ensures ByDef(values, id).Some? ==>
              exists i: nat :: LastLinked(values, id, i) && values[i] == ByDef(values, id).value
    ensures ByDef(values, id).None? ==> forall i :: 0 <= i < |values| ==> values[i].defId != Some(id)
  {
    if values != [] {
      var n := |values| - 1;
      ByDefExact(values[..n], id);
      if values[n].defId == Some(id) {
        assert LastLinked(values, id, n);
      } else if i: nat :| LastLinked(values[..n], id, i) && values[..n][i] == ByDef(values[..n], id).value {
        assert LastLinked(values, id, i);
      }
    }
  }

  lemma {:induction false} ByKeyExact(values: seq<FieldValue>, live: set<string>, key: AdHoc)
    ensures var r := ByKey(values, live, key);
            && (r.Some? ==> exists i: nat :: FirstAdHoc(values, live, key, i) && values[i] == r.value)
            && (r.None? ==> forall i :: 0 <= i < |values| ==> !(IsAdHoc(values[i], live) && KeyOf(values[i]) == key))
  {
    if values != [] {
      var n := |values| - 1;
      ByKeyExact(values[..n], live, key);
      if ByKey(values[..n], live, key).Some? {
        var i: nat :| FirstAdHoc(values[..n], live, key, i) && values[..n][i] == ByKey(values[..n], live, key).value;
        assert FirstAdHoc(values, live, key, i);
      } else if IsAdHoc(values[n], live) && KeyOf(values[n]) == key {
        assert FirstAdHoc(values, live, key, n);
      }
    }
  }

  predicate ValueEqual(a: FieldValue, b: FieldValue) {
    && a.fieldType == b.fieldType
    && match a.fieldType
       case "text" => OrEmpty(a.text) == OrEmpty(b.text)
       case "number" => a.number == b.number
       case "boolean" => (a.boolean.Some? && a.boolean.value != 0) == (b.boolean.Some? && b.boolean.value != 0)
       case "date" => OrEmpty(a.date) == OrEmpty(b.date)
       case _ => true
  }

  predicate SameValue(a: Option<FieldValue>, b: Option<FieldValue>) {
    (a.None? && b.None?) || (a.Some? && b.Some? && ValueEqual(a.value, b.value))
  }

  /** The ids that proposed values are linked to: all of them count as definitions. */
  function LinkedIds(values: seq<FieldValue>): set<string> {
    set v | v in values && v.defId.Some? :: v.defId.value
  }

  /** Current values by live definition and by ad-hoc key match the proposed ones. */
  ghost predicate FieldsEqual(current: seq<FieldValue>, proposed: seq<FieldValue>, live: set<string>) {
    && (forall id :: SameValue(if id in live then ByDef(current, id) else None, ByDef(proposed, id)))
    && (forall key :: SameValue(ByKey(current, live, key), ByKey(proposed, LinkedIds(proposed), key)))
  }

  // ----- The comparison -----

  datatype Group =
    | GName | GDescription | GQuantity | GLocation | GLabels | GIdents | GWarranty | GPurchase | GSale | GFields

  function Mapped<T, U>(f: T -> U, s: seq<T>): seq<U> { seq(|s|, i requires 0 <= i < |s| => f(s[i])) }

  function IdentKey(id: Ident): string { id.kind + "\0" + id.value }

  function IdentKeys(ids: seq<Ident>): seq<string> { Mapped(IdentKey, ids) }

  /** One attribute group, other than the custom fields, differs. */
  predicate PlainDiffers(cur: Row, s: Staged, g: Group) {
    match g
    case GName => cur.name != s.name
    case GDescription => cur.description != s.description
    case GQuantity => cur.quantity != s.quantity
    case GLocation => OrEmpty(cur.location) != OrEmpty(s.location)
    case GLabels => (set x | x in cur.labels) != (set x | x in s.labels)
    case GIdents => multiset(IdentKeys(cur.idents)) != multiset(IdentKeys(s.idents))
    case GWarranty => WarrantyFields(cur.warranty) != StagedWarrantyFields(s.warranty)
    case GPurchase => PurchaseFields(cur.purchase) != StagedPurchaseFields(s.purchase)
    case GSale => SaleFields(cur.sale) != StagedSaleFields(s.sale)
    case GFields => false
  }

  ghost predicate Differs(cur: Row, s: Staged, live: set<string>, g: Group) {
    if g.GFields? then !FieldsEqual(cur.fields, s.fields, live) else PlainDiffers(cur, s, g)
  }

  function Index(values: seq<FieldValue>, live: set<string>): (map<string, FieldValue>, map<AdHoc, FieldValue>) {
    if values == [] then (map[], map[])
    else
      var n := |values| - 1;
      var (defs, keys) := Index(values[..n], live);
      var v := values[n];
      if IsAdHoc(v, live) then (defs, if KeyOf(v) in keys then keys else keys[KeyOf(v) := v])
      else (defs[v.defId.value := v], keys)
  }

  lemma {:induction false} IndexAt(values: seq<FieldValue>, live: set<string>, id: string, key: AdHoc)
    ensures var (defs, keys) := Index(values, live);
            && (if id in defs then Some(defs[id]) else None) == (if id in live then ByDef(values, id) else None)
            && (if key in keys then Some(keys[key]) else None) == ByKey(values, live, key)
  {
    if values != [] {
      IndexAt(values[..|values| - 1], live, id, key);
    }
  }

  method IndexValues(values: seq<FieldValue>, live: set<string>)
    returns (defs: map<string, FieldValue>, keys: map<AdHoc, FieldValue>)
    ensures (defs, keys) == Index(values, live)
  {
    defs, keys := map[], map[];
    for i := 0 to |values|
      invariant (defs, keys) == Index(values[..i], live)
    {
      assert values[..i + 1][..i] == values[..i];
      var v := values[i];
      if IsAdHoc(v, live) {
        if KeyOf(v) !in keys {
          keys := keys[KeyOf(v) := v];
        }
      } else {
        defs := defs[v.defId.value := v];
      }
    }
    assert values[..|values|] == values;
  }

  /** Equal sizes and every left entry matched on the right: the two maps agree. */
  method MapsAgree<K(==)>(a: map<K, FieldValue>, b: map<K, FieldValue>) returns (r: bool)
    ensures r <==> a.Keys == b.Keys && forall k :: k in a ==> ValueEqual(a[k], b[k])
  {
    if |a| != |b| {
      return false;
    }
    var todo := a.Keys;
    while todo != {}
      invariant todo <= a.Keys
      invariant forall k :: k in a && k !in todo ==> k in b && ValueEqual(a[k], b[k])
    {
      var k :| k in todo;
      if k !in b || !ValueEqual(a[k], b[k]) {
        return false;
      }
      todo := todo - {k};
    }
    SameSizeSubset(a.Keys, b.Keys);
    return true;
  }

  lemma SameSizeSubset<K>(a: set<K>, b: set<K>)
    requires a <= b && |a| == |b|
    ensures a == b
  {
    assert b == a + (b - a);
    assert |b - a| == 0;
  }

  lemma {:induction false} NotLinked(values: seq<FieldValue>, id: string)
    requires forall v :: v in values ==> v.defId != Some(id)
    ensures ByDef(values, id) == None
  {
    if values != [] {
      NotLinked(values[..|values| - 1], id);
    }
  }

  method CustomFieldsEqual(current: seq<FieldValue>, proposed: seq<FieldValue>, live: set<string>) returns (r: bool)
    ensures r <==> FieldsEqual(current, proposed, live)
  {
    var curDefs, curKeys := IndexValues(current, live);
    var linked := LinkedIds(proposed);
    var propDefs, propKeys := IndexValues(proposed, linked);
    forall id
      ensures (if id in curDefs then Some(curDefs[id]) else None) == (if id in live then ByDef(current, id) else None)
      ensures (if id in propDefs then Some(propDefs[id]) else None) == ByDef(proposed, id)
    {
      IndexAt(current, live, id, AdHoc("", ""));
      IndexAt(proposed, linked, id, AdHoc("", ""));
      if id !in linked {
        NotLinked(proposed, id);
      }
    }
    forall key
      ensures (if key in curKeys then Some(curKeys[key]) else None) == ByKey(current, live, key)
      ensures (if key in propKeys then Some(propKeys[key]) else None) == ByKey(proposed, linked, key)
    {
      IndexAt(current, live, "", key);
      IndexAt(proposed, linked, "", key);
    }
    var sameDefs := MapsAgree(curDefs, propDefs);
    var sameKeys := MapsAgree(curKeys, propKeys);
    r := sameDefs && sameKeys;
    MapsAreFields(current, proposed, live, curDefs, propDefs, curKeys, propKeys);
  }

  lemma MapsAreFields(current: seq<FieldValue>, proposed: seq<FieldValue>, live: set<string>,
                      curDefs: map<string, FieldValue>, propDefs: map<string, FieldValue>,
                      curKeys: map<AdHoc, FieldValue>, propKeys: map<AdHoc, FieldValue>)
    requires forall id ::
               (if id in curDefs then Some(curDefs[id]) else None) == (if id in live then ByDef(current, id) else None)
    requires forall id :: (if id in propDefs then Some(propDefs[id]) else None) == ByDef(proposed, id)
    requires forall key :: (if key in curKeys then Some(curKeys[key]) else None) == ByKey(current, live, key)
    requires forall key ::
               (if key in propKeys then Some(propKeys[key]) else None) == ByKey(proposed, LinkedIds(proposed), key)
    ensures FieldsEqual(current, proposed, live) <==>
            && curDefs.Keys == propDefs.Keys && (forall k :: k in curDefs ==> ValueEqual(curDefs[k], propDefs[k]))
            && curKeys.Keys == propKeys.Keys && (forall k :: k in curKeys ==> ValueEqual(curKeys[k], propKeys[k]))
  {
    if FieldsEqual(current, proposed, live) {
      forall id ensures id in curDefs <==> id in propDefs
        ensures id in curDefs ==> ValueEqual(curDefs[id], propDefs[id]) {
        assert SameValue(if id in live then ByDef(current, id) else None, ByDef(proposed, id));
      }
      forall key ensures key in curKeys <==> key in propKeys
        ensures key in curKeys ==> ValueEqual(curKeys[key], propKeys[key]) {
        assert SameValue(ByKey(current, live, key), ByKey(proposed, LinkedIds(proposed), key));
      }
    }
  }

  /** The order in which the groups are listed. */
  function Rank(g: Group): nat {
    match g
    case GName => 0 case GDescription => 1 case GQuantity => 2 case GLocation => 3 case GLabels => 4
    case GIdents => 5 case GWarranty => 6 case GPurchase => 7 case GSale => 8 case GFields => 9
  }

  /** The order in which a diff lists the groups. */
  const GROUPS := [GName, GDescription, GQuantity, GLocation, GLabels, GIdents, GWarranty, GPurchase, GSale, GFields]

  lemma RankExact(g: Group)
    ensures Rank(g) < |GROUPS| && GROUPS[Rank(g)] == g
  {
  }

  ghost predicate Ascending(diffs: seq<Group>) {
    forall i, j :: 0 <= i < j < |diffs| ==> Rank(diffs[i]) < Rank(diffs[j])
  }

  method NoteIf(diffs: seq<Group>, differs: bool, g: Group) returns (r: seq<Group>)
    requires Ascending(diffs) && forall x :: x in diffs ==> Rank(x) < Rank(g)
    ensures Ascending(r) && (forall x :: x in r ==> Rank(x) <= Rank(g))
    ensures forall x :: x in r <==> x in diffs || (differs && x == g)
  {
    r := if differs then diffs + [g] else diffs;
  }

  predicate IsCore(g: Group) { g.GName? || g.GDescription? || g.GQuantity? || g.GLocation? }

  method DiffCore(cur: Row, s: Staged) returns (diffs: seq<Group>)
    ensures Ascending(diffs) && forall g :: g in diffs <==> IsCore(g) && PlainDiffers(cur, s, g)
  {
    diffs := NoteIf([], cur.name != s.name, GName);
    diffs := NoteIf(diffs, cur.description != s.description, GDescription);
    diffs := NoteIf(diffs, cur.quantity != s.quantity, GQuantity);
    diffs := NoteIf(diffs, OrEmpty(cur.location) != OrEmpty(s.location), GLocation);
  }

  predicate IsList(g: Group) { g.GLabels? || g.GIdents? }

  method DiffLists(cur: Row, s: Staged, before: seq<Group>) returns (diffs: seq<Group>)
    requires Ascending(before) && forall g :: g in before ==> IsCore(g)
    ensures Ascending(diffs) && (forall g :: g in diffs ==> IsCore(g) || IsList(g))
    ensures forall g :: g in diffs <==> g in before || (IsList(g) && PlainDiffers(cur, s, g))
  {
    diffs := NoteIf(before, (set x | x in cur.labels) != (set x | x in s.labels), GLabels);
    var same := SortedStringsEqual(IdentKeys(cur.idents), IdentKeys(s.idents));
    diffs := NoteIf(diffs, !same, GIdents);
  }

  /** The attribute groups in which the proposed row differs from the item, each once, in order. */
  ghost predicate IsDiff(row: Row, s: Staged, live: set<string>, diffs: seq<Group>) {
    Ascending(diffs) && forall g :: g in diffs <==> Differs(row, s, live, g)
  }

  method DiffStagedRow(cur: Row, s: Staged, live: set<string>) returns (diffs: seq<Group>)
    ensures IsDiff(cur, s, live, diffs)
  {
    diffs := DiffCore(cur, s);
    diffs := DiffLists(cur, s, diffs);
    diffs := NoteIf(diffs, WarrantyFields(cur.warranty) != StagedWarrantyFields(s.warranty), GWarranty);
    diffs := NoteIf(diffs, PurchaseFields(cur.purchase) != StagedPurchaseFields(s.purchase), GPurchase);
    diffs := NoteIf(diffs, SaleFields(cur.sale) != StagedSaleFields(s.sale), GSale);
    var same := CustomFieldsEqual(cur.fields, s.fields, live);
    diffs := NoteIf(diffs, !same, GFields);
  }

  // ----- What a difference is, attribute by attribute -----

  /** The same text, where a missing one is empty. */
  predicate SameText(a: Option<string>, b: string) { (a.Some? && a.value == b) || (a.None? && b == "") }

  predicate SameWarranty(w: Warranty, s: StagedWarranty) {
    && w.holder == s.holder && w.provider == s.provider && SameText(w.startsOn, s.startsOn)
    && SameText(w.expiresOn, s.expiresOn) && (w.isLifetime != 0 <==> s.isLifetime) && w.notes == s.notes
  }

  predicate SamePurchase(p: Purchase, s: StagedPurchase) {
    && p.vendor == s.vendor && SameText(p.purchasedOn, s.purchasedOn) && p.priceMinor == s.priceMinor
    && p.orderReference == s.orderReference && p.notes == s.notes
  }

  predicate SameSale(p: Sale, s: StagedSale) {
    p.buyerName == s.buyerName && SameText(p.soldOn, s.soldOn) && p.priceMinor == s.priceMinor && p.notes == s.notes
  }

  const NO_WARRANTY := Warranty("", "", None, None, 0, "")
  const NO_PURCHASE := Purchase("", None, 0, "", "")
  const NO_SALE := Sale("", None, 0, "")
  const NOTHING_STAGED_W := StagedWarranty("", "", "", "", false, "")
  const NOTHING_STAGED_P := StagedPurchase("", "", 0, "", "")
  const NOTHING_STAGED_S := StagedSale("", "", 0, "")

  function Or<T>(o: Option<T>, none: T): T { if o.Some? then o.value else none }

  /** An attribute group is the same in the item and in the proposal; a missing block is the same
      as an all-empty one. */
  ghost predicate SameGroup(row: Row, s: Staged, live: set<string>, g: Group) {
    match g
    case GName => row.name == s.name
    case GDescription => row.description == s.description
    case GQuantity => row.quantity == s.quantity
    case GLocation => Or(row.location, "") == Or(s.location, "")
    case GLabels => forall l :: l in row.labels <==> l in s.labels
    case GIdents => multiset(IdentKeys(row.idents)) == multiset(IdentKeys(s.idents))
    case GWarranty => SameWarranty(Or(row.warranty, NO_WARRANTY), Or(s.warranty, NOTHING_STAGED_W))
    case GPurchase => SamePurchase(Or(row.purchase, NO_PURCHASE), Or(s.purchase, NOTHING_STAGED_P))
    case GSale => SameSale(Or(row.sale, NO_SALE), Or(s.sale, NOTHING_STAGED_S))
    case GFields =>
      && (forall id :: SameLinked(row.fields, s.fields, live, id))
      && (forall key :: SameAdHocs(row.fields, s.fields, live, key))
  }

  /** Of two values of one type the part that the type names is the same. */
  predicate SameContent(v: FieldValue, w: FieldValue) {
    && v.fieldType == w.fieldType
    && (v.fieldType == "text" ==> Or(v.text, "") == Or(w.text, ""))
    && (v.fieldType == "number" ==> v.number == w.number)
    && (v.fieldType == "boolean" ==> (Or(v.boolean, 0) == 0 <==> Or(w.boolean, 0) == 0))
    && (v.fieldType == "date" ==> Or(v.date, "") == Or(w.date, ""))
  }

  /** The definition is linked in both or in neither, and the last value linked to it is the same;
      links of the item count only if their definition is live. */
  ghost predicate SameLinked(current: seq<FieldValue>, proposed: seq<FieldValue>, live: set<string>, id: string) {
    && (forall i: nat, j: nat :: id in live && LastLinked(current, id, i) && LastLinked(proposed, id, j) ==>
          SameContent(current[i], proposed[j]))
    && ((id in live && exists i: nat :: LastLinked(current, id, i)) <==> exists j: nat :: LastLinked(proposed, id, j))
  }

  /** The ad-hoc type and name is used in both or in neither, and the first value under it is the
      same; a value whose definition is gone counts as ad hoc. */
  ghost predicate SameAdHocs(current: seq<FieldValue>, proposed: seq<FieldValue>, live: set<string>, key: AdHoc) {
    && (forall i: nat, j: nat ::
          FirstAdHoc(current, live, key, i) && FirstAdHoc(proposed, LinkedIds(proposed), key, j) ==>
            SameContent(current[i], proposed[j]))
    && ((exists i: nat :: FirstAdHoc(current, live, key, i)) <==>
        exists j: nat :: FirstAdHoc(proposed, LinkedIds(proposed), key, j))
  }

  lemma SameLinkedExact(current: seq<FieldValue>, proposed: seq<FieldValue>, live: set<string>, id: string)
    ensures SameValue(if id in live then ByDef(current, id) else None, ByDef(proposed, id)) <==>
            SameLinked(current, proposed, live, id)
  {
    ByDefExact(current, id);
    ByDefExact(proposed, id);
  }

  lemma SameAdHocsExact(current: seq<FieldValue>, proposed: seq<FieldValue>, live: set<string>, key: AdHoc)
    ensures SameValue(ByKey(current, live, key), ByKey(proposed, LinkedIds(proposed), key)) <==>
            SameAdHocs(current, proposed, live, key)
  {
    ByKeyExact(current, live, key);
    ByKeyExact(proposed, LinkedIds(proposed), key);
  }

  /** The diff names a group exactly when it is not the same. */
  lemma DiffersExact(row: Row, s: Staged, live: set<string>, g: Group)
    ensures Differs(row, s, live, g) <==> !SameGroup(row, s, live, g)
  {
    if g.GFields? {
      forall id ensures SameValue(if id in live then ByDef(row.fields, id) else None, ByDef(s.fields, id)) <==>
                        SameLinked(row.fields, s.fields, live, id) {
        SameLinkedExact(row.fields, s.fields, live, id);
      }
      forall key ensures SameValue(ByKey(row.fields, live, key), ByKey(s.fields, LinkedIds(s.fields), key)) <==>
                         SameAdHocs(row.fields, s.fields, live, key) {
        SameAdHocsExact(row.fields, s.fields, live, key);
      }
    } else if g.GLabels? {
      var a, b := (set x | x in row.labels), (set x | x in s.labels);
      assert forall l :: (l in a <==> l in row.labels) && (l in b <==> l in s.labels);
      assert a == b <==> forall l :: l in row.labels <==> l in s.labels;
    }
  }

  /** The keys compare kind and value together: equal keys are equal identifications, as long as no
      kind holds a NUL. */
  lemma IdentKeyExact(a: Ident, b: Ident)
    requires '\0' !in a.kind && '\0' !in b.kind
    ensures IdentKey(a) == IdentKey(b) <==> a == b
  {
    var s, t := IdentKey(a), IdentKey(b);
    if s == t {
      assert forall i :: 0 <= i < |a.kind| ==> s[i] == a.kind[i] != '\0';
      assert forall i :: 0 <= i < |b.kind| ==> t[i] == b.kind[i] != '\0';
      assert s[|a.kind|] == '\0' && t[|b.kind|] == '\0' && s[|b.kind|] == '\0';
      assert a.kind == s[..|a.kind|] == t[..|b.kind|] == b.kind;
      assert a.value == s[|a.kind| + 1..] == t[|b.kind| + 1..] == b.value;
    }
  }
}
