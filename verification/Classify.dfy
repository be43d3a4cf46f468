/** An import from the file to the commit: the classification of its rows, and what a commit of
    a classified file is sure to do. */
module Classify {
  import opened Wire
  import opened Sequences
  import opened Escape
  import opened Cells
  import opened Headers
  import opened Rows
  import opened Export
  import opened Import
  import opened ImportCommit
  import opened ImportStore

  datatype Class = BadRow | GoodRow(row: CommitRow)

  /** The row names a location that is not a live one of the group. */
  predicate LocationMissing(s: Staged, locations: set<string>) {
    s.location.Some? && s.location.value != "" && s.location.value !in locations
  }

  /** What a staged row is classified as: bad when it has errors or its location is missing; else
      a create, an update with its diff against the item, or no change. */
  ghost predicate Judged(c: Class, s: Staged, locations: set<string>, current: map<string, Row>, live: set<string>) {
    match c
    case BadRow => s.action.ActError? || LocationMissing(s, locations)
    case GoodRow(r) =>
      && !s.action.ActError? && !LocationMissing(s, locations) && r.proposed == s
      && if s.action.ActCreate? then r.action.DoCreate?
         else
           && r.item == s.id && s.id in current && IsDiff(current[s.id], s, live, r.changes)
           && r.action == if r.changes == [] then DoNothing else DoUpdate
  }

  ghost predicate AllJudged(out: seq<Class>, staged: seq<Staged>, locations: set<string>, current: map<string, Row>,
                            live: set<string>)
  {
    |out| == |staged| && forall i :: 0 <= i < |staged| ==> Judged(out[i], staged[i], locations, current, live)
  }

  // ----- The first pass only looks for ids -----

  /** The distinct non-empty ids that the lines carry. */
  method DistinctSourceIds(rows: seq<Staged>) returns (ids: seq<string>)
    ensures Distinct(ids)
    ensures forall id :: id in ids <==> id != "" && exists i :: 0 <= i < |rows| && rows[i].sourceId == id
  {
    ids := [];
    var seen: set<string> := {};
    for k := 0 to |rows|
      invariant Distinct(ids) && seen == set id | id in ids
      invariant forall id :: id in ids <==> id != "" && exists i :: 0 <= i < k && rows[i].sourceId == id
    {
      var id := rows[k].sourceId;
      if id != "" && id !in seen {
        seen := seen + {id};
        ids := ids + [id];
      }
    }
  }

  /** A layout is determined by its header. */
  lemma LayoutUnique(f: Format<string>, header: seq<string>, a: Layout<string>, b: Layout<string>)
    requires Distinct(header) && LayoutOf(f, header, a) && LayoutOf(f, header, b)
    ensures a == b
  {
    forall c ensures c in a.fixedIdx <==> c in b.fixedIdx {
      if c in a.fixedIdx { assert header[a.fixedIdx[c]] in b.fixedIdx; }
      if c in b.fixedIdx { assert header[b.fixedIdx[c]] in a.fixedIdx; }
    }
    forall c | c in a.fixedIdx ensures a.fixedIdx[c] == b.fixedIdx[c] {
      assert header[a.fixedIdx[c]] == header[b.fixedIdx[c]];
    }
    assert a.fixedIdx == b.fixedIdx;
  }

  /** A line comes out the same whether all items are known or only those its file names, and its
      id does not depend on what is known. */
  lemma SameLine(ft: FloatText, defs: seq<Def>, some: set<string>, all: set<string>, fixed: seq<string>,
                 layout: Layout<string>, width: nat, line: Line)
    requires |fixed| == FIXED_COUNT && some <= all
    requires var id := StageLine(ft, defs, {}, fixed, layout, width, line).sourceId;
             id in all && id != "" ==> id in some
    ensures var s := StageLine(ft, defs, all, fixed, layout, width, line);
            s == StageLine(ft, defs, some, fixed, layout, width, line) && (s.action.ActUpdate? ==> s.id in all)
  {
  }

  /** Parsing with the items that the file names is parsing with all items. */
  lemma SecondPass(ft: FloatText, defs: seq<Def>, fixed: seq<string>, t: Table, layout: Layout<string>,
                   ids: seq<string>, all: set<string>, prelim: seq<Staged>, staged: seq<Staged>)
    requires StagedFrom(ft, fixed, t, layout, {}, defs, prelim)
    requires StagedFrom(ft, fixed, t, layout, (set id | id in ids && id in all), defs, staged)
    requires forall id :: id in ids <==> id != "" && exists i :: 0 <= i < |prelim| && prelim[i].sourceId == id
    ensures StagedFrom(ft, fixed, t, layout, all, defs, staged)
    ensures forall s :: s in staged && s.action.ActUpdate? ==> s.id in all
  {
    var some := set id | id in ids && id in all;
    forall i | 0 <= i < |t.lines|
      ensures staged[i] == StageLine(ft, defs, all, fixed, layout, |t.header|, t.lines[i])
      ensures staged[i].action.ActUpdate? ==> staged[i].id in all
    {
      assert prelim[i].sourceId != "" ==> prelim[i].sourceId in ids;
      SameLine(ft, defs, some, all, fixed, layout, |t.header|, t.lines[i]);
    }
  }

  /** classifyImportRows: parse once to learn the ids, once more with the items found, and judge
      row by row.  Only live items and live locations are looked up. */
  method ClassifyImportRows(ft: FloatText, t: Table, locations: set<string>, defs: seq<Def>, current: map<string, Row>)
    returns (layout: Option<Layout<string>>, staged: seq<Staged>, out: seq<Class>)
    ensures layout.Some? <==> Acceptable(CSV_FORMAT, t.header)
    ensures layout.Some? ==> LayoutOf(CSV_FORMAT, t.header, layout.value)
    ensures layout.Some? ==> StagedFrom(ft, FIXED, t, layout.value, current.Keys, defs, staged)
    ensures layout.Some? ==> AllJudged(out, staged, locations, current, LiveIds(defs))
  {
    var first, prelim := ParseCSV(ft, t, {}, defs);
    if first.None? {
      return None, [], [];
    }
    var ids := DistinctSourceIds(prelim);
    var existing := set id | id in ids && id in current;
    layout, staged := ParseCSV(ft, t, existing, defs);
    LayoutUnique(CSV_FORMAT, t.header, first.value, layout.value);
    SecondPass(ft, defs, FIXED, t, layout.value, ids, current.Keys, prelim, staged);
    out := JudgeRows(staged, locations, current, LiveIds(defs));
  }

  /** Each location is looked up once. */
  method JudgeRows(staged: seq<Staged>, locations: set<string>, current: map<string, Row>, live: set<string>)
    returns (out: seq<Class>)
    requires forall s :: s in staged && s.action.ActUpdate? ==> s.id in current
    ensures AllJudged(out, staged, locations, current, live)
  {
    out := [];
    var locationLive: map<string, bool> := map[];
    for i := 0 to |staged|
      invariant forall l :: l in locationLive ==> locationLive[l] == (l in locations)
      invariant |out| == i && forall j :: 0 <= j < i ==> Judged(out[j], staged[j], locations, current, live)
    {
      var s := staged[i];
      if !s.action.ActError? && s.location.Some? && s.location.value !in locationLive {
        locationLive := locationLive[s.location.value := s.location.value in locations];
      }
      if s.action.ActError? || (s.location.Some? && s.location.value != "" && !locationLive[s.location.value]) {
        out := out + [BadRow];
      } else if s.action.ActCreate? {
        out := out + [GoodRow(CommitRow(DoCreate, "", [], s))];
      } else {
        var diffs := DiffStagedRow(current[s.id], s, live);
        out := out + [GoodRow(CommitRow(if diffs == [] then DoNothing else DoUpdate, s.id, diffs, s))];
      }
    }
  }

  // ----- What was parsed meets the tables' constraints, but for its location -----

  /** Definitions are rows of a table that checks their types. */
  ghost predicate DefsKnown(defs: seq<Def>, known: Known) {
    forall d :: d in defs ==> d.fieldType in TYPES && d.id in known.defs
  }

  lemma {:induction false} IdentEntriesFit(pieces: seq<string>)
    ensures forall id :: id in Collect(pieces, IdentEntry).values ==> IdentFits(id)
  {
    if pieces != [] {
      IdentEntriesFit(pieces[..|pieces| - 1]);
    }
  }

  lemma ReadFieldFits(ft: FloatText, defs: seq<Def>, c: Column, cell: string, known: Known)
    requires DefsKnown(defs, known)
    ensures forall v :: v in ReadField(ft, defs, c, cell).values ==> FieldFits(known, v)
  {
    if c.DefColumn? {
      FoundIsLive(defs, c.name, c.defId);
    }
  }

  lemma {:induction false} ReadFieldsFit(ft: FloatText, defs: seq<Def>, dyn: seq<DynColumn>, record: seq<string>,
                                         known: Known)
    requires DefsKnown(defs, known)
    ensures forall v :: v in ReadFields(ft, defs, dyn, record).values ==> FieldFits(known, v)
  {
    if dyn != [] {
      var n := |dyn| - 1;
      ReadFieldsFit(ft, defs, dyn[..n], record, known);
      ReadFieldFits(ft, defs, dyn[n].column, CellAt(record, dyn[n].index), known);
    }
  }

  /** Whatever a line holds, the only constraint that its staged row can break is the foreign key
      of the location. */
  lemma LineFits(ft: FloatText, defs: seq<Def>, existing: set<string>, fixed: seq<string>, layout: Layout<string>,
                 width: nat, line: Line, known: Known, changes: set<Group>)
    requires |fixed| == FIXED_COUNT && DefsKnown(defs, known)
    ensures var s := StageLine(ft, defs, existing, fixed, layout, width, line);
            RowFits(known, s, changes) <==> (TouchesCore(changes) ==> LocationFits(known, s))
  {
    if line.Cells? && |line.cells| == width {
      var c := Gather(fixed, layout, line.cells);
      IdentEntriesFit(Split(c[8], '|'));
      ReadFieldsFit(ft, defs, layout.dynamic, line.cells, known);
    }
  }

  // ----- From the file to the commit -----

  predicate AllGood(out: seq<Class>) { forall i :: 0 <= i < |out| ==> out[i].GoodRow? }

  function RowsOf(out: seq<Class>): seq<CommitRow>
    requires AllGood(out)
  {
    seq(|out|, i requires 0 <= i < |out| => out[i].row)
  }

  /** toImportCommitRows: bad rows have no counterpart. */
  method ToCommitRows(out: seq<Class>) returns (rows: seq<CommitRow>)
    ensures AllGood(out) ==> rows == RowsOf(out)
  {
    rows := [];
    for i := 0 to |out|
      invariant AllGood(out) ==> rows == RowsOf(out)[..i]
    {
      if out[i].GoodRow? {
        rows := rows + [out[i].row];
      }
    }
  }

  /** What was read of the group agrees with its tables. */
  ghost predicate Snapshot(st: State, locations: set<string>, defs: seq<Def>, current: map<string, Row>) {
    && locations <= st.known.locations && DefsKnown(defs, st.known)
    && current.Keys == st.items.Keys && forall x :: x in current ==> Reads(st, x, current[x])
  }

  /** A file without bad rows breaks no constraint and names known items only. */
  lemma GoodFileFits(st: State, ft: FloatText, fixed: seq<string>, t: Table, layout: Layout<string>,
                     locations: set<string>, defs: seq<Def>, current: map<string, Row>,
                     staged: seq<Staged>, out: seq<Class>)
    requires Snapshot(st, locations, defs, current) && StagedFrom(ft, fixed, t, layout, current.Keys, defs, staged)
    requires AllJudged(out, staged, locations, current, LiveIds(defs)) && AllGood(out)
    ensures UpdatesKnown(st, RowsOf(out)) && AllFit(st.known, RowsOf(out))
  {
    forall i | 0 <= i < |out|
      ensures Fits(st.known, out[i].row) && (out[i].row.action.DoUpdate? ==> out[i].row.item in st.items)
    {
      assert Judged(out[i], staged[i], locations, current, LiveIds(defs));
      LineFits(ft, defs, current.Keys, fixed, layout, |t.header|, t.lines[i], st.known, ALL_GROUPS);
      LineFits(ft, defs, current.Keys, fixed, layout, |t.header|, t.lines[i], st.known, Members(out[i].row.changes));
    }
  }

  /** The row's item is known, and no other row updates it. */
  ghost predicate Alone(rows: seq<CommitRow>, i: nat)
    requires i < |rows|
  {
    !rows[i].action.DoCreate? && forall j :: 0 <= j < |rows| && j != i ==> !ImportStore.Names(rows[j], rows[i].item)
  }

  /** After the commit, an item that no other row updates does not differ from its row. */
  lemma RowSettles(a: State, b: State, rows: seq<CommitRow>, i: nat, s: Staged, live: set<string>, row: Row, row': Row)
    requires BatchDone(a, b, rows, |rows|) && i < |rows| && Alone(rows, i)
    requires rows[i].proposed == s && IsDiff(row, s, live, rows[i].changes) && LinkedIds(s.fields) <= live
    requires rows[i].action == if rows[i].changes == [] then DoNothing else DoUpdate
    requires Reads(a, rows[i].item, row) && Reads(b, rows[i].item, row')
    ensures IsDiff(row', s, live, [])
  {
    if rows[i].action.DoUpdate? {
      CommitConverges(a, b, rows, i, live, row, row');
    } else {
      var x := rows[i].item;
      assert NotAfter(rows, |rows|, -1, x);
      forall g ensures !Differs(row', s, live, g) {
        assert Kept(a, b, x, g) && g !in rows[i].changes;
        KeptIsEqual(a, b, x, s, g, row, row', live);
      }
    }
  }

  datatype Reply = Unreadable | Rejected | Failed | Committed(counts: Counts, created: seq<NewItem>)

  /** The commit of an uploaded file.  A file with bad rows is rejected; one without them is
      committed, if its session is still staged and short codes can be drawn; and then each item
      that one row speaks of reads as that row proposes. */
  method CommitFile(c: Catalog, session: string, ft: FloatText, t: Table, locations: set<string>, defs: seq<Def>,
                    current: map<string, Row>)
    returns (reply: Reply, layout: Option<Layout<string>>, staged: seq<Staged>, out: seq<Class>)
    requires c.Valid() && Snapshot(c.db, locations, defs, current)
    modifies c
    ensures c.Valid() && (!reply.Committed? ==> c.db == old(c.db) && c.staged == old(c.staged))
    ensures reply.Unreadable? <==> !Acceptable(CSV_FORMAT, t.header)
    ensures !reply.Unreadable? ==> layout.Some? && LayoutOf(CSV_FORMAT, t.header, layout.value)
    ensures !reply.Unreadable? ==> StagedFrom(ft, FIXED, t, layout.value, current.Keys, defs, staged)
    ensures !reply.Unreadable? ==> AllJudged(out, staged, locations, current, LiveIds(defs))
    ensures !reply.Unreadable? ==> (reply.Rejected? <==> !AllGood(out))
    ensures session in old(c.staged) && DrawsFree(c.draw, old(c.db).counter, old(c.db).items) ==> !reply.Failed?
    ensures reply.Committed? ==> session in old(c.staged) && c.staged == old(c.staged) - {session}
    ensures reply.Committed? ==> BatchDone(old(c.db), c.db, RowsOf(out), |out|)
    ensures reply.Committed? ==> reply.counts == Tally(RowsOf(out), |out|)
    ensures reply.Committed? ==> CreatedAll(old(c.db), c.db, RowsOf(out), |out|, reply.created)
    ensures reply.Committed? ==>
              forall i, row :: 0 <= i < |out| && Alone(RowsOf(out), i) && Reads(c.db, out[i].row.item, row) ==>
                IsDiff(row, staged[i], LiveIds(defs), [])
  {
    layout, staged, out := ClassifyImportRows(ft, t, locations, defs, current);
    if layout.None? {
      return Unreadable, layout, staged, out;
    }
    if !AllGood(out) {
      return Rejected, layout, staged, out;
    }
    GoodFileFits(c.db, ft, FIXED, t, layout.value, locations, defs, current, staged, out);
    var rows := ToCommitRows(out);
    var ok, counts, created := c.Commit(session, rows);
    reply := if ok then Committed(counts, created) else Failed;
    if ok {
      FileSettles(old(c.db), c.db, ft, FIXED, t, layout.value, locations, defs, current, staged, out);
    }
  }

  lemma FileSettles(a: State, b: State, ft: FloatText, fixed: seq<string>, t: Table, layout: Layout<string>,
                    locations: set<string>, defs: seq<Def>, current: map<string, Row>,
                    staged: seq<Staged>, out: seq<Class>)
    requires Snapshot(a, locations, defs, current) && StagedFrom(ft, fixed, t, layout, current.Keys, defs, staged)
    requires AllJudged(out, staged, locations, current, LiveIds(defs)) && AllGood(out)
    requires BatchDone(a, b, RowsOf(out), |out|)
    ensures forall i, row :: 0 <= i < |out| && Alone(RowsOf(out), i) && Reads(b, out[i].row.item, row) ==>
              IsDiff(row, staged[i], LiveIds(defs), [])
  {
    forall i, row | 0 <= i < |out| && Alone(RowsOf(out), i) && Reads(b, out[i].row.item, row)
      ensures IsDiff(row, staged[i], LiveIds(defs), [])
    {
      assert Judged(out[i], staged[i], locations, current, LiveIds(defs));
      LineLinksLive(ft, defs, current.Keys, fixed, layout, |t.header|, t.lines[i]);
      RowSettles(a, b, RowsOf(out), i, staged[i], LiveIds(defs), current[staged[i].id], row);
    }
  }
}
