/** Column headers of an export: the fixed columns, one `cf:` column per custom field
    definition, one `cfx:` column per ad-hoc field, and the header parser. */
module Headers {
  import opened Wire
  import opened Sequences
  import opened Escape

  const FIXED: seq<string> := [
    "id", "name", "description", "quantity", "location_path", "location_id", "short_code", "labels",
    "identifications", "attachments", "warranty_holder", "warranty_provider", "warranty_starts_on",
    "warranty_expires_on", "warranty_is_lifetime", "warranty_notes", "purchase_vendor",
    "purchase_purchased_on", "purchase_price_minor", "purchase_order_reference", "purchase_notes",
    "sale_buyer_name", "sale_sold_on", "sale_price_minor", "sale_notes"]

  const FIXED_COUNT := 25

  const TYPES: set<string> := {"text", "number", "boolean", "date"}

  datatype Def = Def(id: string, name: string, fieldType: string)

  /** An ad-hoc column stands for one field type and name. */
  datatype AdHoc = AdHoc(fieldType: string, name: string)

  /** What a dynamic header says.  An empty `defId` means the column is identified by name. */
  datatype Column = DefColumn(name: string, defId: string) | AdHocColumn(key: AdHoc)

  // ----- Printing -----

  function DefHeader(def: Def, ambiguous: bool): string {
    "cf:" + Escaped(def.name, COLUMN_NAME) + if ambiguous then "#" + def.id else ""
  }

  function AdHocHeader(key: AdHoc): string {
    "cfx:" + key.fieldType + ":" + Escaped(key.name, COLUMN_NAME)
  }

  // ----- Parsing -----

  function ParseColumn(header: string): Option<Column> {
    if "cfx:" <= header then
      var parts := Split(header[4..], ':');
      if |parts| != 2 then None
      else Some(AdHocColumn(AdHoc(Unescaped(parts[0], false), Unescaped(parts[1], false))))
    else if "cf:" <= header then
      var parts := Split(header[3..], '#');
      if |parts| == 1 then Some(DefColumn(Unescaped(parts[0], false), ""))
      else if |parts| == 2 then Some(DefColumn(Unescaped(parts[0], false), parts[1]))
      else None
    else None
  }

  // ----- The fixed columns -----

  /** Position of a fixed column, read off its length and first two letters. */
  function FixedIndex(s: string): int {
    if |s| < 2 then -1
    else if |s| == 2 then 0 else if |s| == 4 then 1
    else if |s| == 11 then (if s[0] == 'd' then 2 else if s[0] == 'l' then 5 else 9)
    else if |s| == 8 then 3 else if |s| == 13 then 4
    else if |s| == 10 then (if s[1] == 'h' then 6 else 24)
    else if |s| == 6 then 7
    else if |s| == 15 then (if s[0] == 'i' then 8 else if s[0] == 'w' then 10 else if s[0] == 'p' then 16 else 21)
    else if |s| == 17 then 11 else if |s| == 18 then 12 else if |s| == 19 then 13
    else if |s| == 20 then (if s[0] == 'w' then 14 else 18)
    else if |s| == 14 then (if s[0] == 'w' then 15 else 20)
    else if |s| == 21 then 17 else if |s| == 24 then 19 else if |s| == 12 then 22 else if |s| == 16 then 23
    else -1
  }

  lemma FixedIndexExact(i: nat)
    requires i < FIXED_COUNT
    ensures |FIXED| == FIXED_COUNT && FixedIndex(FIXED[i]) == i && |FIXED[i]| >= 2 && FIXED[i][0] != 'c'
  {
    if i == 0 {} else if i == 1 {} else if i == 2 {} else if i == 3 {} else if i == 4 {}
    else if i == 5 {} else if i == 6 {} else if i == 7 {} else if i == 8 {} else if i == 9 {}
    else if i == 10 {} else if i == 11 {} else if i == 12 {} else if i == 13 {} else if i == 14 {}
    else if i == 15 {} else if i == 16 {} else if i == 17 {} else if i == 18 {} else if i == 19 {}
    else if i == 20 {} else if i == 21 {} else if i == 22 {} else if i == 23 {} else {}
  }

  lemma FixedDistinct()
    ensures |FIXED| == FIXED_COUNT && Distinct(FIXED)
  {
    FixedIndexExact(0);
    forall i, j | 0 <= i < j < |FIXED| ensures FIXED[i] != FIXED[j] {
      FixedIndexExact(i);
      FixedIndexExact(j);
    }
  }

  // ----- Each printed header parses back -----

  lemma PlainDefHeader(def: Def)
    requires def.name != ""
    ensures ParseColumn(DefHeader(def, false)) == Some(DefColumn(def.name, ""))
  {
    var h, e := DefHeader(def, false), Escaped(def.name, COLUMN_NAME);
    assert h[3..] == e && h[2] == ':';
    EscapedSolid(def.name, COLUMN_NAME, '#');
    PiecesOfSolid(e, '#', false);
    EscapeRoundTrip(def.name, COLUMN_NAME);
    assert e != "";
  }

  /** A separator-free tail is one piece, whatever backslashes it holds. */
  lemma {:induction false} PiecesWithoutSep(s: string, sep: char, pending: bool)
    requires sep !in s
    ensures Pieces(s, sep, pending) == [s]
  {
    if s != "" {
      PiecesWithoutSep(s[1..], sep, !pending && s[0] == '\\');
      assert [s[0]] + s[1..] == s;
    }
  }

  lemma QualifiedDefHeader(def: Def)
    requires '#' !in def.id
    ensures ParseColumn(DefHeader(def, true)) == Some(DefColumn(def.name, def.id))
  {
    var h, e := DefHeader(def, true), Escaped(def.name, COLUMN_NAME);
    assert h[3..] == e + ['#'] + def.id && h[2] == ':';
    EscapedSolid(def.name, COLUMN_NAME, '#');
    PiecesAfterSolid(e, def.id, '#', false);
    PiecesWithoutSep(def.id, '#', false);
    EscapeRoundTrip(def.name, COLUMN_NAME);
  }

  lemma AdHocHeaderParses(key: AdHoc)
    requires '\\' !in key.fieldType && ':' !in key.fieldType
    ensures ParseColumn(AdHocHeader(key)) == Some(AdHocColumn(key))
  {
    var h, e := AdHocHeader(key), Escaped(key.name, COLUMN_NAME);
    assert h[4..] == key.fieldType + [':'] + e && h[..4] == "cfx:";
    EscapedSolid(key.name, COLUMN_NAME, ':');
    PlainSolid(key.fieldType, ':');
    PiecesAfterSolid(key.fieldType, e, ':', false);
    PiecesOfSolid(e, ':', false);
    EscapeRoundTrip(key.name, COLUMN_NAME);
    NothingToUnescape(key.fieldType);
  }

  lemma {:induction false} PlainSolid(s: string, sep: char)
    requires '\\' !in s && sep !in s
    ensures Solid(s, sep, false)
  {
    if s != "" {
      PlainSolid(s[1..], sep);
    }
  }

  lemma TypesArePlain(t: string)
    requires t in TYPES
    ensures '\\' !in t && ':' !in t
  {
  }

  // ----- Names shared by several definitions -----

  function NameCount(defs: seq<Def>, name: string): nat {
    if defs == [] then 0
    else NameCount(defs[..|defs| - 1], name) + if defs[|defs| - 1].name == name then 1 else 0
  }

  method NameCounts(defs: seq<Def>) returns (counts: map<string, nat>)
    ensures forall name :: (if name in counts then counts[name] else 0) == NameCount(defs, name)
  {
    counts := map[];
    for i := 0 to |defs|
      invariant forall name :: (if name in counts then counts[name] else 0) == NameCount(defs[..i], name)
    {
      assert defs[..i + 1][..i] == defs[..i];
      var name := defs[i].name;
      counts := counts[name := (if name in counts then counts[name] else 0) + 1];
    }
    assert defs[..|defs|] == defs;
  }

  /** Two definitions of the list share this name. */
  ghost predicate Ambiguous(defs: seq<Def>, name: string) {
    exists a, b :: a in defs && b in defs && a.id != b.id && a.name == name && b.name == name
  }

  /** Definitions as the database holds them: distinct ids without '#', names and known types. */
  ghost predicate DefsOk(defs: seq<Def>) {
    && (forall i, j :: 0 <= i < j < |defs| ==> defs[i].id != defs[j].id)
    && (forall d :: d in defs ==> d.id != "" && '#' !in d.id && d.name != "" && d.fieldType in TYPES)
  }

  lemma {:induction false} CountPositive(defs: seq<Def>, name: string)
    ensures NameCount(defs, name) > 0 <==> exists d :: d in defs && d.name == name
  {
    if defs != [] {
      CountPositive(defs[..|defs| - 1], name);
      assert defs == defs[..|defs| - 1] + [defs[|defs| - 1]];
    }
  }

  /** A count above one is exactly an ambiguous name. */
  lemma {:induction false} CountIsAmbiguity(defs: seq<Def>, name: string)
    requires forall i, j :: 0 <= i < j < |defs| ==> defs[i].id != defs[j].id
    ensures NameCount(defs, name) > 1 <==> Ambiguous(defs, name)
  {
    if defs != [] {
      var n := |defs| - 1;
      var init, last := defs[..n], defs[n];
      CountIsAmbiguity(init, name);
      CountPositive(init, name);
      assert forall d :: d in defs <==> d in init || d == last;
      assert forall d :: d in init ==> d.id != last.id;
      if last.name == name {
        if d :| d in init && d.name == name {
          assert d in defs && last in defs && d.id != last.id;
        }
      }
    }
  }

  function HeaderOf(defs: seq<Def>, d: Def): string { DefHeader(d, NameCount(defs, d.name) > 1) }

  function FindById(defs: seq<Def>, id: string): Option<Def> {
    if defs == [] then None
    else if defs[|defs| - 1].id == id then Some(defs[|defs| - 1])
    else FindById(defs[..|defs| - 1], id)
  }

  function FindByName(defs: seq<Def>, name: string): Option<Def> {
    if defs == [] then None
    else if defs[|defs| - 1].name == name then Some(defs[|defs| - 1])
    else FindByName(defs[..|defs| - 1], name)
  }

  /** The definition a definition column stands for on import: by id when the header has one,
      else by name, unless the name is ambiguous or gone. */
  function Resolve(defs: seq<Def>, name: string, defId: string): Option<Def> {
    if defId != "" then FindById(defs, defId)
    else if NameCount(defs, name) == 1 then FindByName(defs, name)
    else None
  }

  lemma {:induction false} FindByIdExact(defs: seq<Def>, d: Def)
    requires DefsOk(defs) && d in defs
    ensures FindById(defs, d.id) == Some(d)
  {
    var n := |defs| - 1;
    assert defs == defs[..n] + [defs[n]];
    if defs[n].id != d.id {
      FindByIdExact(defs[..n], d);
    }
  }

  lemma {:induction false} FindByNameExact(defs: seq<Def>, d: Def)
    requires DefsOk(defs) && d in defs && !Ambiguous(defs, d.name)
    ensures FindByName(defs, d.name) == Some(d)
  {
    var n := |defs| - 1;
    assert defs == defs[..n] + [defs[n]];
    if defs[n].name != d.name {
      assert !Ambiguous(defs[..n], d.name);
      FindByNameExact(defs[..n], d);
    } else {
      assert defs[n] in defs && defs[n].id == d.id;
      FindByIdExact(defs, d);
      FindByIdExact(defs, defs[n]);
    }
  }

  /** Every definition's header resolves back to that definition, also when printer and parser
      see the definitions in different orders. */
  lemma HeaderResolves(defs: seq<Def>, defs': seq<Def>, d: Def)
    requires DefsOk(defs) && DefsOk(defs') && (forall x :: x in defs <==> x in defs') && d in defs
    ensures var c := ParseColumn(HeaderOf(defs, d));
            c.Some? && c.value.DefColumn? && Resolve(defs', c.value.name, c.value.defId) == Some(d)
  {
    CountIsAmbiguity(defs, d.name);
    CountIsAmbiguity(defs', d.name);
    CountPositive(defs', d.name);
    if NameCount(defs, d.name) > 1 {
      QualifiedDefHeader(d);
      FindByIdExact(defs', d);
    } else {
      PlainDefHeader(d);
      assert Ambiguous(defs, d.name) <==> Ambiguous(defs', d.name);
      FindByNameExact(defs', d);
    }
  }

  lemma {:induction false} FindsOnly(defs: seq<Def>, name: string, id: string)
    ensures FindById(defs, id).Some? ==> FindById(defs, id).value in defs && FindById(defs, id).value.id == id
    ensures FindById(defs, id).None? ==> forall d :: d in defs ==> d.id != id
    ensures FindByName(defs, name).Some? ==>
              FindByName(defs, name).value in defs && FindByName(defs, name).value.name == name
    ensures FindByName(defs, name).None? ==> forall d :: d in defs ==> d.name != name
  {
    if defs != [] {
      FindsOnly(defs[..|defs| - 1], name, id);
      assert defs == defs[..|defs| - 1] + [defs[|defs| - 1]];
    }
  }

  /** What any header resolves to: the definition with its id if it has one, else the only one with
      its name. */
  lemma ResolveExact(defs: seq<Def>, name: string, defId: string, d: Def)
    requires DefsOk(defs)
    ensures Resolve(defs, name, defId) == Some(d) <==>
            && d in defs
            && if defId != "" then d.id == defId else d.name == name && forall e :: e in defs && e.name == name ==>
                 e == d
  {
    FindsOnly(defs, name, defId);
    CountIsAmbiguity(defs, name);
    CountPositive(defs, name);
    if d in defs && d.name == name && (forall e :: e in defs && e.name == name ==> e == d) {
      assert !Ambiguous(defs, name);
      FindByNameExact(defs, d);
    }
    if d in defs && d.id == defId {
      FindByIdExact(defs, d);
    }
    if NameCount(defs, name) == 1 {
      assert !Ambiguous(defs, name);
    }
  }

  /** A dynamic header that is recognised is a tag and one or two pieces, which unescape to what it
      stands for; a definition's id is taken as it is. */
  lemma ColumnExact(header: string)
    requires ParseColumn(header).Some?
    ensures match ParseColumn(header).value
            case AdHocColumn(key) => exists p, q ::
              && header == "cfx:" + p + [':'] + q && Solid(p, ':', false) && Unsplit(q, ':', false)
              && key == AdHoc(Unescaped(p, false), Unescaped(q, false))
            case DefColumn(name, defId) => exists p ::
              && (header == "cf:" + p + ['#'] + defId || (defId == "" && header == "cf:" + p)) && Unsplit(p, '#', false)
              && name == Unescaped(p, false)
  {
    if "cfx:" <= header {
      var parts := Split(header[4..], ':');
      PiecesExact(header[4..], ':');
      TwoJoined(parts, ':');
      assert header == header[..4] + header[4..];
      assert header == "cfx:" + parts[0] + [':'] + parts[1];
    } else {
      var parts := Split(header[3..], '#');
      PiecesExact(header[3..], '#');
      assert header == header[..3] + header[3..];
      if |parts| == 2 {
        TwoJoined(parts, '#');
        SolidUnsplit(parts[0], '#', false);
        assert header == "cf:" + parts[0] + ['#'] + parts[1];
      } else {
        assert header == "cf:" + parts[0];
      }
    }
  }

  lemma AdHocAccepted(p: string, q: string)
    requires Solid(p, ':', false) && Unsplit(q, ':', false)
    ensures ParseColumn("cfx:" + p + [':'] + q) == Some(AdHocColumn(AdHoc(Unescaped(p, false), Unescaped(q, false))))
  {
    PiecesAfterSolid(p, q, ':', false);
    PiecesOfUnsplit(q, ':', false);
    assert ("cfx:" + p + [':'] + q)[4..] == p + [':'] + q;
  }

  lemma PlainAccepted(p: string)
    requires p != "" && Unsplit(p, '#', false)
    ensures ParseColumn("cf:" + p) == Some(DefColumn(Unescaped(p, false), ""))
  {
    PiecesOfUnsplit(p, '#', false);
    assert ("cf:" + p)[3..] == p && ("cf:" + p)[2] == ':';
  }

  lemma QualifiedAccepted(p: string, q: string)
    requires Solid(p, '#', false) && Unsplit(q, '#', false)
    ensures ParseColumn("cf:" + p + ['#'] + q) == Some(DefColumn(Unescaped(p, false), q))
  {
    PiecesAfterSolid(p, q, '#', false);
    PiecesOfUnsplit(q, '#', false);
    assert ("cf:" + p + ['#'] + q)[3..] == p + ['#'] + q && ("cf:" + p + ['#'] + q)[2] == ':';
  }

  /** And every header of that form is recognised. */
  lemma ColumnAccepted(p: string, q: string)
    ensures Solid(p, ':', false) && Unsplit(q, ':', false) ==>
              ParseColumn("cfx:" + p + [':'] + q) == Some(AdHocColumn(AdHoc(Unescaped(p, false), Unescaped(q, false))))
    ensures p != "" && Unsplit(p, '#', false) ==> ParseColumn("cf:" + p) == Some(DefColumn(Unescaped(p, false), ""))
    ensures Solid(p, '#', false) && Unsplit(q, '#', false) ==>
              ParseColumn("cf:" + p + ['#'] + q) == Some(DefColumn(Unescaped(p, false), q))
  {
    if Solid(p, ':', false) && Unsplit(q, ':', false) {
      AdHocAccepted(p, q);
    }
    if p != "" && Unsplit(p, '#', false) {
      PlainAccepted(p);
    }
    if Solid(p, '#', false) && Unsplit(q, '#', false) {
      QualifiedAccepted(p, q);
    }
  }

  lemma TwoJoined(parts: seq<string>, sep: char)
    ensures |parts| == 2 ==> Join(parts, sep) == parts[0] + [sep] + parts[1]
  {
    if |parts| == 2 {
      assert parts[1..] == [parts[1]];
    }
  }

  lemma {:induction false} SolidUnsplit(s: string, sep: char, pending: bool)
    requires Solid(s, sep, pending)
    ensures Unsplit(s, sep, pending)
  {
    if s != "" {
      SolidUnsplit(s[1..], sep, if pending then false else s[0] == '\\');
    }
  }

  // ----- The whole header row -----

  datatype DynColumn = DynColumn(index: nat, column: Column)

  datatype Layout<H> = Layout(fixedIdx: map<H, nat>, dynamic: seq<DynColumn>)

  /** How a header row is read: the fixed columns, and a parser for all others. */
  datatype Format<!H> = Format(fixed: seq<H>, parse: H -> Option<Column>)

  const CSV_FORMAT := Format(FIXED, ParseColumn)

  /** The dynamic columns among the first `n` headers, in order. */
  ghost function DynamicColumns<H>(f: Format<H>, header: seq<H>, n: nat): seq<DynColumn>
    requires n <= |header|
  {
    if n == 0 then []
    else
      DynamicColumns(f, header, n - 1) +
      if header[n - 1] in f.fixed || f.parse(header[n - 1]).None? then []
      else [DynColumn(n - 1, f.parse(header[n - 1]).value)]
  }

  ghost predicate Recognised<H>(f: Format<H>, header: seq<H>) {
    forall i :: 0 <= i < |header| ==> header[i] in f.fixed || f.parse(header[i]).Some?
  }

  /** A header row is accepted when no column repeats, every column is recognised, and no fixed
      column is missing; the order of the columns is free. */
  ghost predicate Acceptable<H>(f: Format<H>, header: seq<H>) {
    && Distinct(header) && Recognised(f, header)
    && (forall i :: 0 <= i < |f.fixed| ==> f.fixed[i] in header)
  }

  /** What the layout parser finds out about a header. */
  ghost predicate LayoutOf<H>(f: Format<H>, header: seq<H>, layout: Layout<H>) {
    && (forall i :: 0 <= i < |header| && header[i] in f.fixed ==> header[i] in layout.fixedIdx)
    && (forall c :: c in layout.fixedIdx ==>
        c in f.fixed && layout.fixedIdx[c] < |header| && header[layout.fixedIdx[c]] == c)
    && layout.dynamic == DynamicColumns(f, header, |header|)
  }

  /** The first `n` headers are different, and `seen` holds them. */
  ghost predicate SeenSoFar<H>(header: seq<H>, n: nat, seen: set<H>)
    requires n <= |header|
  {
    && (forall j :: 0 <= j < n ==> header[j] in seen)
    && (forall h :: h in seen ==> exists j :: 0 <= j < n && header[j] == h)
    && (forall j, k :: 0 <= j < k < n ==> header[j] != header[k])
  }

  lemma SeenGrows<H>(header: seq<H>, n: nat, seen: set<H>)
    requires n < |header| && SeenSoFar(header, n, seen)
    ensures if header[n] in seen then !Distinct(header) else SeenSoFar(header, n + 1, seen + {header[n]})
  {
    if header[n] in seen {
      var j :| 0 <= j < n && header[j] == header[n];
    } else {
      forall h | h in seen + {header[n]} ensures exists j :: 0 <= j < n + 1 && header[j] == h {
        if h in seen {
          var j :| 0 <= j < n && header[j] == h;
        }
      }
    }
  }

  /** The first `n` headers are recognised, and `layout` holds what they say. */
  ghost predicate IndexedSoFar<H>(f: Format<H>, header: seq<H>, n: nat, layout: Layout<H>)
    requires n <= |header|
  {
    && (forall j :: 0 <= j < n ==> header[j] in f.fixed || f.parse(header[j]).Some?)
    && (forall c :: c in layout.fixedIdx ==> c in f.fixed && layout.fixedIdx[c] < n && header[layout.fixedIdx[c]] == c)
    && (forall j :: 0 <= j < n && header[j] in f.fixed ==> header[j] in layout.fixedIdx)
    && layout.dynamic == DynamicColumns(f, header, n)
  }

  /** One header: fixed, dynamic, or unknown. */
  method IndexHeader<H(==)>(f: Format<H>, header: seq<H>, i: nat, layout: Layout<H>) returns (r: Option<Layout<H>>)
    requires i < |header| && IndexedSoFar(f, header, i, layout)
    ensures r.None? <==> header[i] !in f.fixed && f.parse(header[i]).None?
    ensures r.Some? ==> IndexedSoFar(f, header, i + 1, r.value)
  {
    var h := header[i];
    if h in f.fixed {
      return Some(layout.(fixedIdx := layout.fixedIdx[h := i]));
    }
    var column := f.parse(h);
    if column.None? {
      return None;
    }
    return Some(layout.(dynamic := layout.dynamic + [DynColumn(i, column.value)]));
  }

  /** The header loop: stops at a repeated or an unknown column. */
  method ReadHeader<H(==)>(f: Format<H>, header: seq<H>) returns (r: Option<Layout<H>>)
    ensures r.Some? <==> Distinct(header) && Recognised(f, header)
    ensures r.Some? ==> LayoutOf(f, header, r.value)
  {
    var layout := Layout(map[], []);
    var seen: set<H> := {};
    for i := 0 to |header|
      invariant SeenSoFar(header, i, seen) && IndexedSoFar(f, header, i, layout)
    {
      var h := header[i];
      SeenGrows(header, i, seen);
      if h in seen {
        return None;
      }
      seen := seen + {h};
      var next := IndexHeader(f, header, i, layout);
      if next.None? {
        return None;
      }
      layout := next.value;
    }
    assert Distinct(header) && Recognised(f, header) && LayoutOf(f, header, layout);
    return Some(layout);
  }

  method ParseHeaderLayout<H(==)>(f: Format<H>, header: seq<H>) returns (r: Option<Layout<H>>)
    ensures r.Some? <==> Acceptable(f, header)
    ensures r.Some? ==> LayoutOf(f, header, r.value)
  {
    r := ReadHeader(f, header);
    if r.None? {
      return;
    }
    var fixedIdx := r.value.fixedIdx;
    for k := 0 to |f.fixed|
      invariant forall j :: 0 <= j < k ==> f.fixed[j] in fixedIdx
    {
      if f.fixed[k] !in fixedIdx {
        assert f.fixed[k] !in header;
        return None;
      }
    }
  }

  // ----- The header row of an export -----

  function DefHeaders(defs: seq<Def>): seq<string> {
    seq(|defs|, i requires 0 <= i < |defs| => HeaderOf(defs, defs[i]))
  }

  function AdHocHeaders(keys: seq<AdHoc>): seq<string> {
    seq(|keys|, i requires 0 <= i < |keys| => AdHocHeader(keys[i]))
  }

  /** The header row an export writes. */
  function ExportHeader(fixed: seq<string>, defs: seq<Def>, keys: seq<AdHoc>): (h: seq<string>)
    ensures |h| == |fixed| + |defs| + |keys|
  {
    fixed + DefHeaders(defs) + AdHocHeaders(keys)
  }

  ghost predicate KeysOk(keys: seq<AdHoc>) {
    Distinct(keys) && forall k :: k in keys ==> k.fieldType in TYPES
  }

  function ColumnFor(defs: seq<Def>, d: Def): Column {
    DefColumn(d.name, if NameCount(defs, d.name) > 1 then d.id else "")
  }

  /** The dynamic columns of an export: one per definition, then one per ad-hoc key. */
  function ExportColumns(defs: seq<Def>, keys: seq<AdHoc>): (cols: seq<Column>)
    ensures |cols| == |defs| + |keys|
  {
    seq(|defs|, j requires 0 <= j < |defs| => ColumnFor(defs, defs[j])) +
    seq(|keys|, j requires 0 <= j < |keys| => AdHocColumn(keys[j]))
  }

  /** A definition's header is told apart by what it parses to. */
  lemma DefHeaderParses(defs: seq<Def>, d: Def)
    requires DefsOk(defs) && d in defs
    ensures ParseColumn(HeaderOf(defs, d)) == Some(ColumnFor(defs, d)) && HeaderOf(defs, d)[0] == 'c'
  {
    if NameCount(defs, d.name) > 1 {
      QualifiedDefHeader(d);
    } else {
      PlainDefHeader(d);
    }
  }

  lemma KeyHeaderParses(key: AdHoc)
    requires key.fieldType in TYPES
    ensures ParseColumn(AdHocHeader(key)) == Some(AdHocColumn(key)) && AdHocHeader(key)[0] == 'c'
  {
    TypesArePlain(key.fieldType);
    AdHocHeaderParses(key);
  }

  /** Dynamic column `j` of an exported header. */
  lemma ExportColumn(fixed: seq<string>, defs: seq<Def>, keys: seq<AdHoc>, j: nat)
    requires DefsOk(defs) && KeysOk(keys) && j < |defs| + |keys|
    ensures var h := ExportHeader(fixed, defs, keys)[|fixed| + j];
            ParseColumn(h) == Some(ExportColumns(defs, keys)[j]) && |h| > 0 && h[0] == 'c'
  {
    if j < |defs| {
      assert defs[j] in defs;
      DefHeaderParses(defs, defs[j]);
    } else {
      assert keys[j - |defs|] in keys;
      KeyHeaderParses(keys[j - |defs|]);
    }
  }

  /** No two dynamic columns of an export mean the same. */
  lemma ExportColumnsDiffer(defs: seq<Def>, keys: seq<AdHoc>, i: nat, j: nat)
    requires DefsOk(defs) && KeysOk(keys) && i < j < |defs| + |keys|
    ensures ExportColumns(defs, keys)[i] != ExportColumns(defs, keys)[j]
  {
    if j < |defs| && defs[i].name == defs[j].name {
      assert defs[i] in defs && defs[j] in defs;
      CountIsAmbiguity(defs, defs[i].name);
    }
  }

  /** Column names that no dynamic header can collide with. */
  ghost predicate FixedOk(fixed: seq<string>) {
    |fixed| == FIXED_COUNT && Distinct(fixed) && forall i :: 0 <= i < |fixed| ==> |fixed[i]| > 0 && fixed[i][0] != 'c'
  }

  lemma FixedColumnsOk()
    ensures FixedOk(FIXED)
  {
    FixedDistinct();
    forall i | 0 <= i < |FIXED| ensures |FIXED[i]| > 0 && FIXED[i][0] != 'c' {
      FixedIndexExact(i);
    }
  }

  lemma DynamicIsNotFixed(fixed: seq<string>, h: string)
    requires FixedOk(fixed) && |h| > 0 && h[0] == 'c'
    ensures h !in fixed
  {
  }

  ghost predicate ColumnsOf(cols: seq<Column>, dyn: seq<DynColumn>) {
    |dyn| == |cols| && forall j :: 0 <= j < |cols| ==> dyn[j] == DynColumn(FIXED_COUNT + j, cols[j])
  }

  /** Fixed columns come first; from there on every column is dynamic. */
  ghost predicate FixedFirst<H>(f: Format<H>, header: seq<H>, k: nat, cols: seq<Column>) {
    && k + |cols| == |header|
    && (forall i :: 0 <= i < k ==> header[i] in f.fixed)
    && (forall i :: k <= i < |header| ==> header[i] !in f.fixed && f.parse(header[i]) == Some(cols[i - k]))
  }

  lemma {:induction false} DynamicAfter<H>(f: Format<H>, header: seq<H>, n: nat, k: nat, cols: seq<Column>)
    requires FixedFirst(f, header, k, cols) && n <= |header|
    ensures var dyn := DynamicColumns(f, header, n);
            && |dyn| == (if n <= k then 0 else n - k)
            && forall j :: 0 <= j < |dyn| ==> dyn[j] == DynColumn(k + j, cols[j])
  {
    if n != 0 {
      DynamicAfter(f, header, n - 1, k, cols);
    }
  }

  lemma ExportFixedFirst(f: Format<string>, defs: seq<Def>, keys: seq<AdHoc>)
    requires FixedOk(f.fixed) && f.parse == ParseColumn && DefsOk(defs) && KeysOk(keys)
    ensures FixedFirst(f, ExportHeader(f.fixed, defs, keys), FIXED_COUNT, ExportColumns(defs, keys))
  {
    var header, cols := ExportHeader(f.fixed, defs, keys), ExportColumns(defs, keys);
    forall i | 0 <= i < FIXED_COUNT ensures header[i] in f.fixed {
      assert header[i] == f.fixed[i];
    }
    forall i | FIXED_COUNT <= i < |header|
      ensures header[i] !in f.fixed && f.parse(header[i]) == Some(cols[i - FIXED_COUNT])
    {
      ExportColumn(f.fixed, defs, keys, i - FIXED_COUNT);
      DynamicIsNotFixed(f.fixed, header[i]);
    }
  }

  /** Columns that mean different things have different headers. */
  lemma DistinctByMeaning<H>(f: Format<H>, header: seq<H>, k: nat, cols: seq<Column>)
    requires FixedFirst(f, header, k, cols) && Distinct(cols)
    requires forall i, j :: 0 <= i < j < k ==> header[i] != header[j]
    ensures Distinct(header)
  {
    forall i, j | 0 <= i < j < |header| ensures header[i] != header[j] {
      if k <= i {
        assert cols[i - k] != cols[j - k];
      }
    }
  }

  /** Exported headers are pairwise distinct. */
  lemma ExportDistinct(f: Format<string>, defs: seq<Def>, keys: seq<AdHoc>)
    requires FixedOk(f.fixed) && f.parse == ParseColumn && DefsOk(defs) && KeysOk(keys)
    ensures Distinct(ExportHeader(f.fixed, defs, keys))
  {
    var header, cols := ExportHeader(f.fixed, defs, keys), ExportColumns(defs, keys);
    ExportFixedFirst(f, defs, keys);
    forall i, j | 0 <= i < j < |cols| ensures cols[i] != cols[j] {
      ExportColumnsDiffer(defs, keys, i, j);
    }
    assert forall i :: 0 <= i < FIXED_COUNT ==> header[i] == f.fixed[i];
    DistinctByMeaning(f, header, FIXED_COUNT, cols);
  }

  /** The parser accepts every exported header, and finds exactly the exported columns, in
      order, after the fixed ones. */
  lemma ExportAccepted(f: Format<string>, defs: seq<Def>, keys: seq<AdHoc>)
    requires FixedOk(f.fixed) && f.parse == ParseColumn && DefsOk(defs) && KeysOk(keys)
    ensures var header := ExportHeader(f.fixed, defs, keys);
            && Acceptable(f, header) && (forall i :: 0 <= i < FIXED_COUNT ==> header[i] == f.fixed[i])
            && ColumnsOf(ExportColumns(defs, keys), DynamicColumns(f, header, |header|))
  {
    var header := ExportHeader(f.fixed, defs, keys);
    ExportDistinct(f, defs, keys);
    ExportFixedFirst(f, defs, keys);
    forall i | 0 <= i < |f.fixed| ensures f.fixed[i] in header {
      assert header[i] == f.fixed[i];
    }
    DynamicAfter(f, header, |header|, FIXED_COUNT, ExportColumns(defs, keys));
  }
}
