/** The import commit as it runs: one transaction over the tables, row by row. */
module ImportStore {
  import opened Wire
  import opened Sequences
  import opened Headers
  import opened Rows
  import opened ImportCommit

  datatype CommitAction = DoCreate | DoUpdate | DoNothing

  datatype CommitRow = CommitRow(action: CommitAction, item: string, changes: seq<Group>, proposed: Staged)

  const ALL_GROUPS: set<Group> :=
    {GName, GDescription, GQuantity, GLocation, GLabels, GIdents, GWarranty, GPurchase, GSale, GFields}

  /** Two names never resolve to one label. */
  ghost predicate Resolved(labels: map<string, LabelRow>, ids: seq<string>, names: seq<string>) {
    && Distinct(ids) && (forall l :: l in ids ==> l in labels && labels[l].live)
    && NamesOf(labels, ids) == Members(names)
  }

  /** Drawn ids repeat neither each other nor an id in use. */
  ghost predicate DrawsNew(mint: nat -> string, counter: nat, used: set<string>) {
    && (forall m, n :: mint(m) == mint(n) ==> m == n)
    && (forall n :: n > counter ==> mint(n) !in used)
  }

  /** Some live item has the short code. */
  predicate CodeInUse(items: map<string, Core>, code: string) { exists x :: x in items && items[x].code == code }

  /** No two live items share one. */
  ghost predicate CodesDiffer(items: map<string, Core>) {
    forall x, y :: x in items && y in items && items[x].code == items[y].code ==> x == y
  }

  /** A label added for a name that no other live label has. */
  ghost predicate NewLabel(labels: map<string, LabelRow>, l: string, lo: nat, hi: nat, names: seq<string>)
    requires l in labels
  {
    && labels[l].live && labels[l].name in names && lo < labels[l].changeSeq <= hi
    && forall k :: k in labels && k != l && labels[k].live ==> labels[k].name != labels[l].name
  }

  /** Labels are added for names that no live label has, one each, under the next sequence numbers. */
  ghost predicate LabelsAdded(labels: map<string, LabelRow>, labels': map<string, LabelRow>, lo: nat, hi: nat,
                              names: seq<string>)
  {
    && Extends(labels, labels') && hi == lo + |labels'.Keys - labels.Keys|
    && forall l :: l in labels' && l !in labels ==> NewLabel(labels', l, lo, hi, names)
  }

  /** The rows of the groups named are rewritten under this number, row by row, and no others. */
  ghost predicate GroupsExact(a: State, b: State, item: string, s: Staged, changes: set<Group>, stamp: nat) {
    && (if GLabels in changes
        then exists ids :: Resolved(b.labels, ids, s.labels) && RowsReplaced(a.edges, b.edges, item, ids, stamp)
        else b.edges == a.edges && b.labels == a.labels)
    && (if GIdents in changes then RowsReplaced(a.idents, b.idents, item, s.idents, stamp) else b.idents == a.idents)
    && (if GFields in changes then RowsReplaced(a.fields, b.fields, item, s.fields, stamp) else b.fields == a.fields)
    && (if GWarranty in changes then RowUpserted(a.warranties, b.warranties, item, StoredWarranty(s.warranty), stamp)
        else b.warranties == a.warranties)
    && (if GPurchase in changes then RowUpserted(a.purchases, b.purchases, item, StoredPurchase(s.purchase), stamp)
        else b.purchases == a.purchases)
    && (if GSale in changes then RowUpserted(a.sales, b.sales, item, StoredSale(s.sale), stamp) else b.sales == a.sales)
  }

  /** A patched item: its row at the next version if a core column is named, the named groups
      rewritten, and labels added for their names only. */
  ghost predicate PatchedExactly(a: State, b: State, item: string, s: Staged, changes: set<Group>)
    requires item in a.items && item in b.items
  {
    var stamp, c := a.counter + 1, a.items[item];
    && b.items == a.items[item := b.items[item]]
    && (if TouchesCore(changes)
        then && CoreHolds(b.items[item], s) && CoreStep(c, b.items[item])
             && b.items[item].version == c.version + 1 && b.items[item].changeSeq == stamp
                && b.items[item].code == c.code
        else b.items[item] == c)
    && GroupsExact(a, b, item, s, changes, stamp)
    && LabelsAdded(a.labels, b.labels, stamp, b.counter, if GLabels in changes then s.labels else [])
  }

  /** A created item: a row at version 1, and all groups written. */
  ghost predicate CreatedExactly(a: State, b: State, item: string, s: Staged, code: string) {
    var stamp := a.counter + 1;
    && item !in a.items && item in b.items && b.items == a.items[item := b.items[item]] && CoreHolds(b.items[item], s)
    && b.items[item].version == 1 && b.items[item].changeSeq == stamp && b.items[item].tracked == map[]
    && b.items[item].code == code
    && GroupsExact(a, b, item, s, ALL_GROUPS, stamp) && LabelsAdded(a.labels, b.labels, stamp, b.counter, s.labels)
  }

  /** The tables of satellites decide. */
  lemma GroupsExactFrom(a: State, m: State, b: State, item: string, s: Staged, changes: set<Group>, stamp: nat)
    requires m == a.(counter := m.counter, items := m.items) && GroupsExact(m, b, item, s, changes, stamp)
    ensures GroupsExact(a, b, item, s, changes, stamp)
  {
  }

  lemma PatchedFrom(a: State, m: State, b: State, item: string, s: Staged, changes: set<Group>)
    requires item in a.items && m == a.(counter := a.counter + 1, items := m.items) && b.items == m.items
    requires m.items == if TouchesCore(changes) then a.items[item := UpdatedCore(a.items[item], s, m.counter)]
               else a.items
    requires GroupsExact(m, b, item, s, changes, m.counter)
    requires LabelsAdded(m.labels, b.labels, m.counter, b.counter, if GLabels in changes then s.labels else [])
    ensures item in b.items && PatchedExactly(a, b, item, s, changes)
  {
    GroupsExactFrom(a, m, b, item, s, changes, m.counter);
    if TouchesCore(changes) {
      UpdatedCoreSteps(a.items[item], s, m.counter);
    }
  }

  lemma CreatedFrom(a: State, m: State, b: State, item: string, s: Staged, code: string)
    requires item !in a.items && m == a.(counter := a.counter + 1, items := m.items) && b.items == m.items
    requires m.items == a.items[item := NewCore(s, code, m.counter)]
             && GroupsExact(m, b, item, s, ALL_GROUPS, m.counter)
    requires LabelsAdded(m.labels, b.labels, m.counter, b.counter, s.labels)
    ensures CreatedExactly(a, b, item, s, code)
  {
    GroupsExactFrom(a, m, b, item, s, ALL_GROUPS, m.counter);
  }

  const MAX_DRAWS := 10

  /** Every short code drawn under number `n` is in use. */
  predicate Exhausted(draw: (nat, nat) -> string, items: map<string, Core>, n: nat) {
    forall k :: 0 <= k < MAX_DRAWS ==> CodeInUse(items, draw(n, k))
  }

  /** One of the codes drawn under that number. */
  ghost predicate IsDraw(draw: (nat, nat) -> string, n: nat, code: string) {
    exists k: nat :: k < MAX_DRAWS && draw(n, k) == code
  }

  /** The first of the draws that no live item has. */
  ghost predicate FirstFree(draw: (nat, nat) -> string, items: map<string, Core>, n: nat, code: string) {
    && !CodeInUse(items, code)
    && exists k: nat :: k < 10 && draw(n, k) == code && forall j: nat :: j < k ==> CodeInUse(items, draw(n, j))
  }

  /** Codes drawn under later numbers repeat neither each other nor a code in use. */
  ghost predicate DrawsFree(draw: (nat, nat) -> string, counter: nat, items: map<string, Core>) {
    && (forall n :: n > counter ==> !CodeInUse(items, draw(n, 0)))
    && (forall m: nat, n: nat, k: nat :: counter < m && m < n && k < MAX_DRAWS ==> draw(n, 0) != draw(m, k))
  }

  ghost predicate EdgesLead(edges: seq<Sat<string>>, ids: set<string>) {
    forall x, l :: l in LiveValues(edges, x) ==> l in ids
  }

  /** Drawn ids are new, label edges lead to labels, an item has at most one live block of each
      kind, and live items have different short codes. */
  ghost predicate Sound(mint: nat -> string, st: State) {
    && DrawsNew(mint, st.counter, st.labels.Keys + st.items.Keys) && EdgesLead(st.edges, st.labels.Keys)
    && AtMostOne(st.warranties) && AtMostOne(st.purchases) && AtMostOne(st.sales)
    && CodesDiffer(st.items)
  }

  /** A group without items, labels and satellites. */
  function NoItems(known: Known): State { State(0, map[], map[], [], [], [], [], [], [], known) }

  /** It is sound, whatever ids are drawn, as long as none is drawn twice. */
  lemma NoItemsSound(mint: nat -> string, known: Known)
    requires forall m, n :: mint(m) == mint(n) ==> m == n
    ensures Sound(mint, NoItems(known))
  {
  }

  class Catalog {
    /** The id drawn for a row whose sequence number is `n`. */
    const mint: nat -> string

    /** The short code drawn at attempt `k` for an item with that number. */
    const draw: (nat, nat) -> string

    /** Import sessions not yet committed. */
    var staged: set<string>

    /** The tables.  A transaction that fails puts back the value they had. */
    var db: State

    ghost predicate Valid()
      reads this
    {
      Sound(mint, db)
    }

    /** Opens the tables as they are stored. */
    constructor (mint: nat -> string, draw: (nat, nat) -> string, staged: set<string>, db: State)
      requires Sound(mint, db)
      ensures Valid() && this.mint == mint && this.draw == draw && this.staged == staged && this.db == db
    {
      this.mint, this.draw, this.staged, this.db := mint, draw, staged, db;
    }

    method AllocChangeSeq() returns (n: nat)
      modifies this`db
      ensures db == old(db).(counter := n) && n == old(db).counter + 1
    {
      n := db.counter + 1;
      db := db.(counter := n);
    }

    /** resolveLabelIDs: one label per distinct name; missing ones are created, each under its
        own, later sequence number. */
    method ResolveLabelIDs(names: seq<string>) returns (ids: seq<string>)
      requires Valid()
      modifies this`db
      ensures Valid() && Resolved(db.labels, ids, names)
      ensures db == old(db).(counter := db.counter, labels := db.labels)
      ensures LabelsStamped(old(db).labels, db.labels, old(db).counter, db.counter)
      ensures Extends(old(db).labels, db.labels)
              && LabelsAdded(old(db).labels, db.labels, old(db).counter, db.counter, names)
    {
      ids := [];
      var seen: set<string> := {};
      for i := 0 to |names|
        invariant Valid() && db == old(db).(counter := db.counter, labels := db.labels)
        invariant seen == Members(names[..i]) && Resolved(db.labels, ids, names[..i])
        invariant LabelsStamped(old(db).labels, db.labels, old(db).counter, db.counter)
        invariant Extends(old(db).labels, db.labels)
                  && LabelsAdded(old(db).labels, db.labels, old(db).counter, db.counter, names[..i])
      {
        var name := names[i];
        MembersGrow(names, i);
        AddedMore(old(db).labels, db.labels, old(db).counter, db.counter, names, i);
        if name !in seen {
          seen := seen + {name};
          ghost var before, n := db.labels, db.counter;
          var id := LabelFor(name);
          KeepResolved(before, db.labels, ids, names[..i]);
          AddedOnce(old(db).labels, old(db).counter, before, n, db.labels, db.counter, names, i, id);
          OneMoreLabel(db.labels, ids, names[..i], id, name);
          ids := ids + [id];
        }
      }
      assert names[..|names|] == names;
    }

    /** A live label of that name, or a new one. */
    method LabelFor(name: string) returns (id: string)
      requires Valid()
      modifies this`db
      ensures Valid() && id in db.labels && db.labels[id].live && db.labels[id].name == name
      ensures db == old(db).(counter := db.counter, labels := db.labels)
      ensures LabelsStamped(old(db).labels, db.labels, old(db).counter, db.counter)
      ensures Extends(old(db).labels, db.labels)
              && AtMostOneLabel(old(db).labels, old(db).counter, db.labels, db.counter, id, name)
    {
      if known :| known in db.labels && db.labels[known].live && db.labels[known].name == name {
        return known;
      }
      var labelSeq := AllocChangeSeq();
      id := mint(labelSeq);
      db := db.(labels := db.labels[id := LabelRow(name, true, labelSeq)]);
    }

    /** replaceLabels.  Edges carry the row's sequence number, labels created on the way later ones. */
    method ReplaceLabels(item: string, names: seq<string>, stamp: nat)
      requires Valid() && 0 < stamp <= db.counter
      modifies this`db
      ensures Valid() && LabelsWritten(true, old(db).labels, old(db).edges, db.labels, db.edges, item, names)
      ensures db == old(db).(counter := db.counter, labels := db.labels, edges := db.edges)
      ensures LabelsStamped(old(db).labels, db.labels, old(db).counter, db.counter)
      ensures Stamped(old(db).edges, db.edges, stamp - 1, stamp)
      ensures exists ids :: Resolved(db.labels, ids, names) && RowsReplaced(old(db).edges, db.edges, item, ids, stamp)
      ensures LabelsAdded(old(db).labels, db.labels, old(db).counter, db.counter, names)
    {
      var ids := ResolveLabelIDs(names);
      var labels := db.labels;
      var _, edges := ReplaceRows(db.edges, item, ids, stamp, l => l in labels);
      LabelsReplaced(old(db).labels, db.labels, db.edges, edges, item, ids, names, stamp);
      db := db.(edges := edges);
    }

    /** Everything but the item's own row; fails when a row does not fit its table. */
    method WriteGroups(item: string, s: Staged, changes: set<Group>, stamp: nat) returns (ok: bool)
      requires Valid() && 0 < stamp <= db.counter
      modifies this`db
      ensures ok <==> SatellitesFit(old(db).known, s, changes)
      ensures Valid() && (ok ==> db.items == old(db).items && db.known == old(db).known)
      ensures ok ==> GroupsWritten(old(db), db, item, s, changes, stamp) && BlocksTrack(old(db), db)
      ensures ok ==> GroupsExact(old(db), db, item, s, changes, stamp)
      ensures ok ==> LabelsAdded(old(db).labels, db.labels, old(db).counter, db.counter, if GLabels in changes
                                 then s.labels else [])
    {
      if GLabels in changes {
        ReplaceLabels(item, s.labels, stamp);
      }
      var known := db.known;
      var idents, fields;
      ok, idents := ReplaceIf(GIdents in changes, db.idents, item, s.idents, stamp, IdentFits);
      if !ok {
        return;
      }
      ok, fields := ReplaceIf(GFields in changes, db.fields, item, s.fields, stamp, v => FieldFits(known, v));
      if !ok {
        return;
      }
      var warranties :=
        UpsertIf(GWarranty in changes, db.warranties, item, StoredWarranty(s.warranty), stamp, WarrantyCells);
      var purchases :=
        UpsertIf(GPurchase in changes, db.purchases, item, StoredPurchase(s.purchase), stamp, PurchaseCells);
      var sales := UpsertIf(GSale in changes, db.sales, item, StoredSale(s.sale), stamp, SaleCells);
      db := db.(idents := idents, fields := fields, warranties := warranties, purchases := purchases, sales := sales);
    }

    method PatchCore(item: string, s: Staged, stamp: nat)
      requires Valid() && item in db.items
      modifies this`db
      ensures Valid() && db == old(db).(items := old(db).items[item := UpdatedCore(old(db).items[item], s, stamp)])
      ensures ItemsStep(old(db).items, db.items, item) && CoreHolds(db.items[item], s)
    {
      UpdatedCoreSteps(db.items[item], s, stamp);
      db := db.(items := db.items[item := UpdatedCore(db.items[item], s, stamp)]);
    }

    /** The four core columns of an item are written together; fails when the row does not fit. */
    method PatchRow(item: string, s: Staged, changed: set<Group>) returns (ok: bool)
      requires Valid() && item in db.items
      modifies this`db
      ensures Valid() && (ok <==> RowFits(old(db).known, s, changed))
      ensures ok ==> Written(old(db), db, item, s, changed) && Watermarked(old(db), db)
      ensures ok ==> ItemsStep(old(db).items, db.items, item) && BlocksTrack(old(db), db) && db.known == old(db).known
      ensures ok ==> item in db.items && PatchedExactly(old(db), db, item, s, changed)
    {
      var stamp := AllocChangeSeq();
      if TouchesCore(changed) {
        if !LocationFits(db.known, s) {
          return false;
        }
        PatchCore(item, s, stamp);
      }
      ghost var middle := db;
      assert middle.items.Keys == old(db).items.Keys;
      ok := WriteGroups(item, s, changed, stamp);
      if ok {
        RowCommitted(old(db), middle, db, item, s, changed, stamp);
        PatchedFrom(old(db), middle, db, item, s, changed);
      }
    }

    /** commitUpdateRow: fails on an unknown item, does nothing for an empty change list, and
        otherwise rewrites exactly the groups named, unless what it writes does not fit. */
    method CommitUpdateRow(item: string, s: Staged, changes: seq<Group>) returns (ok: bool)
      requires Valid()
      modifies this`db
      ensures Valid()
      ensures ok <==> item in old(db).items && RowFits(old(db).known, s, Members(changes))
      ensures item !in old(db).items || changes == [] ==> db == old(db)
      ensures ok ==> Written(old(db), db, item, s, Members(changes)) && Watermarked(old(db), db)
      ensures ok ==> ItemsStep(old(db).items, db.items, item) && BlocksTrack(old(db), db) && db.known == old(db).known
      ensures ok && changes != [] ==> item in db.items && PatchedExactly(old(db), db, item, s, Members(changes))
    {
      ok := item in db.items;
      if ok {
        var changed := Members(changes);
        NothingNamed(changes);
        if changed == {} {
          NothingWritten(db, item, s, changed);
        } else {
          ok := PatchRow(item, s, changed);
        }
      }
    }

    /** Draw short codes until one is free, ten times at most. */
    method DrawCode(n: nat) returns (code: Option<string>)
      ensures code.None? <==> Exhausted(draw, db.items, n)
      ensures code.Some? ==> FirstFree(draw, db.items, n, code.value)
      ensures !CodeInUse(db.items, draw(n, 0)) ==> code == Some(draw(n, 0))
    {
      for k := 0 to MAX_DRAWS
        invariant forall j :: 0 <= j < k ==> CodeInUse(db.items, draw(n, j))
      {
        var drawn := draw(n, k);
        if !CodeInUse(db.items, drawn) {
          return Some(drawn);
        }
      }
      return None;
    }

    /** commitCreateRow: a new item under a drawn id and short code, with every group written;
        fails when all the codes drawn are in use or something of the row does not fit. */
    method CommitCreateRow(s: Staged) returns (item: Option<string>)
      requires Valid()
      modifies this`db
      ensures item.None? <==> CannotCreate(draw, old(db), s)
      ensures Valid() && (item.Some? ==> CreatedItem(old(db), db, s, item.value) && Watermarked(old(db), db))
      ensures item.Some? ==> AddedItem(old(db).items, db.items, item.value) && db.known == old(db).known
      ensures item.Some? ==> FirstFree(draw, old(db).items, old(db).counter + 1, db.items[item.value].code)
      ensures forall code :: item.Some? && db.items[item.value].code == code ==>
                CreatedExactly(old(db), db, item.value, s, code)
    {
      var stamp := AllocChangeSeq();
      var code := DrawCode(stamp);
      if code.None? || !LocationFits(db.known, s) {
        return None;
      }
      var id := InsertItem(s, code.value, stamp);
      ghost var middle := db;
      var ok := WriteGroups(id, s, ALL_GROUPS, stamp);
      if !ok {
        return None;
      }
      RowCommitted(old(db), middle, db, id, s, ALL_GROUPS, stamp);
      CreatedFrom(old(db), middle, db, id, s, code.value);
      return Some(id);
    }

    method InsertItem(s: Staged, code: string, stamp: nat) returns (id: string)
      requires Valid() && mint(stamp) !in db.items && mint(stamp) !in db.labels && stamp <= db.counter
               && !CodeInUse(db.items, code)
      modifies this`db
      ensures Valid() && id == mint(stamp) && AddedItem(old(db).items, db.items, id)
      ensures db == old(db).(items := old(db).items[id := NewCore(s, code, stamp)]) && CoreHolds(db.items[id], s)
    {
      id := mint(stamp);
      db := db.(items := db.items[id := NewCore(s, code, stamp)]);
    }

    /** One row of a commit. */
    method CommitOne(row: CommitRow) returns (ok: bool, item: string)
      requires Valid()
      modifies this`db
      ensures ok <==> !Fails(draw, old(db), row)
      ensures ok ==> Valid() && StepDone(draw, old(db), db, row, item)
    {
      match row.action
      case DoCreate => ok, item := CreateOne(row);
      case DoUpdate =>
        ok := UpdateOne(row);
        item := "";
      case DoNothing =>
        ok, item := true, "";
        NothingDone(draw, db, row, item);
    }

    method CreateOne(row: CommitRow) returns (ok: bool, item: string)
      requires Valid() && row.action.DoCreate?
      modifies this`db
      ensures ok <==> !Fails(draw, old(db), row)
      ensures ok ==> Valid() && StepDone(draw, old(db), db, row, item)
    {
      var created := CommitCreateRow(row.proposed);
      ok, item := created.Some?, "";
      if ok {
        item := created.value;
        CreateDone(draw, old(db), db, row, item);
      }
    }

    method UpdateOne(row: CommitRow) returns (ok: bool)
      requires Valid() && row.action.DoUpdate?
      modifies this`db
      ensures ok <==> !Fails(draw, old(db), row)
      ensures ok ==> Valid() && StepDone(draw, old(db), db, row, "")
    {
      ok := CommitUpdateRow(row.item, row.proposed, row.changes);
      if ok {
        UpdateDone(draw, old(db), db, row, "");
      }
    }

    /** The loop over the rows; stops at the first that fails. */
    method CommitRows(rows: seq<CommitRow>) returns (ok: bool, counts: Counts, created: seq<NewItem>)
      requires Valid()
      modifies this`db
      ensures ok ==> Valid() && BatchDone(old(db), db, rows, |rows|) && Watermarked(old(db), db)
      ensures ok ==> counts == Tally(rows, |rows|) && CreatedAll(old(db), db, rows, |rows|, created)
      ensures CanCommit(draw, old(db), rows) ==> ok
      ensures ok ==> AllFit(old(db).known, rows)
    {
      counts, created := Counts(0, 0, 0), [];
      ok := true;
      ghost var ts, items := [db], [];
      for i := 0 to |rows|
        invariant Valid() && ok && Progress(draw, ts, items, rows, i, counts, created)
        invariant ts[0] == old(db) && ts[i] == db
      {
        var item;
        ok, item := CommitOne(rows[i]);
        if !ok {
          TraceFails(draw, ts, rows, items, i);
          return;
        }
        ProgressGrows(draw, ts, items, rows, i, counts, created, db, item);
        ts, items := ts + [db], items + [item];
        counts := counts.Plus(rows[i].action);
        if rows[i].action.DoCreate? {
          created := created + [NewItem(i, item)];
        }
      }
      StepsMakeBatch(draw, ts, rows, items, |rows|);
      TraceFits(draw, ts, rows, items, |rows|);
    }

    /** Commit: a session is committed at most once, and either every row takes effect or
        nothing does. */
    method Commit(session: string, rows: seq<CommitRow>) returns (ok: bool, counts: Counts, created: seq<NewItem>)
      requires Valid()
      modifies this
      ensures Valid()
      ensures !ok ==> db == old(db) && staged == old(staged)
      ensures ok ==> session in old(staged) && staged == old(staged) - {session}
      ensures session in old(staged) && CanCommit(draw, old(db), rows) ==> ok
      ensures ok ==> AllFit(old(db).known, rows)
      ensures ok ==> BatchDone(old(db), db, rows, |rows|) && Watermarked(old(db), db)
      ensures ok ==> counts == Tally(rows, |rows|) && CreatedAll(old(db), db, rows, |rows|, created)
      ensures ok ==> counts.created == |OfKind(rows, |rows|, DoCreate)|
      ensures ok ==> counts.updated == |OfKind(rows, |rows|, DoUpdate)|
      ensures ok ==> counts.same == |OfKind(rows, |rows|, DoNothing)|
    {
      TallyExact(rows, |rows|);
      counts, created := Counts(0, 0, 0), [];
      ok := session in staged;
      if ok {
        var saved := db;
        ok, counts, created := CommitRows(rows);
        if ok {
          staged := staged - {session};
        } else {
          db := saved;
        }
      }
    }
  }

  /** One item's row takes a step at most, the others are untouched. */
  ghost predicate ItemsStep(a: map<string, Core>, b: map<string, Core>, item: string) {
    b.Keys == a.Keys && (forall x :: x in a && x != item ==> b[x] == a[x]) && (item in a ==> CoreStep(a[item], b[item]))
  }

  ghost predicate AddedItem(a: map<string, Core>, b: map<string, Core>, item: string) {
    item !in a && b.Keys == a.Keys + {item} && forall x :: x in a ==> b[x] == a[x]
  }

  /** A row created for a proposal: new, and holding every group of it; all else is kept. */
  ghost predicate CreatedItem(a: State, b: State, s: Staged, item: string) {
    item !in a.items && item in b.items && Written(a, b, item, s, ALL_GROUPS)
  }

  /** What the row writes meets the tables' constraints. */
  predicate Fits(known: Known, row: CommitRow) {
    match row.action
    case DoCreate => RowFits(known, row.proposed, ALL_GROUPS)
    case DoUpdate => RowFits(known, row.proposed, Members(row.changes))
    case DoNothing => true
  }

  /** All the codes drawn are in use, or something of the row does not fit. */
  predicate CannotCreate(draw: (nat, nat) -> string, st: State, s: Staged) {
    Exhausted(draw, st.items, st.counter + 1) || !RowFits(st.known, s, ALL_GROUPS)
  }

  /** The ways a row of a commit fails. */
  predicate Fails(draw: (nat, nat) -> string, st: State, row: CommitRow) {
    match row.action
    case DoCreate => CannotCreate(draw, st, row.proposed)
    case DoUpdate => row.item !in st.items || !RowFits(st.known, row.proposed, Members(row.changes))
    case DoNothing => false
  }

  predicate UpdatesKnown(st: State, rows: seq<CommitRow>) {
    forall i :: 0 <= i < |rows| && rows[i].action.DoUpdate? ==> rows[i].item in st.items
  }

  predicate AllFit(known: Known, rows: seq<CommitRow>) { forall i :: 0 <= i < |rows| ==> Fits(known, rows[i]) }

  /** Update rows name known items, all rows meet the constraints, and code draws are free. */
  ghost predicate CanCommit(draw: (nat, nat) -> string, st: State, rows: seq<CommitRow>) {
    UpdatesKnown(st, rows) && AllFit(st.known, rows) && DrawsFree(draw, st.counter, st.items)
  }

  ghost predicate FreeStays(draw: (nat, nat) -> string, a: State, b: State) {
    DrawsFree(draw, a.counter, a.items) ==> DrawsFree(draw, b.counter, b.items)
  }

  lemma FailsFor(draw: (nat, nat) -> string, st: State, row: CommitRow)
    requires Fails(draw, st, row) && Fits(st.known, row)
    ensures row.action.DoUpdate? ==> row.item !in st.items
    ensures !row.action.DoUpdate? ==> !DrawsFree(draw, st.counter, st.items)
  {
    assert Exhausted(draw, st.items, st.counter + 1) ==> CodeInUse(st.items, draw(st.counter + 1, 0));
  }

  lemma UpdateFree(draw: (nat, nat) -> string, a: State, b: State, item: string)
    requires a.counter <= b.counter && ItemsStep(a.items, b.items, item)
    ensures FreeStays(draw, a, b)
  {
    if DrawsFree(draw, a.counter, a.items) {
      forall n | n > b.counter ensures !CodeInUse(b.items, draw(n, 0)) {
        assert !CodeInUse(a.items, draw(n, 0));
        assert forall x :: x in b.items ==> x in a.items && a.items[x].code == b.items[x].code;
      }
    }
  }

  lemma CreateFree(draw: (nat, nat) -> string, a: State, b: State, item: string)
    requires a.counter < b.counter && AddedItem(a.items, b.items, item)
             && IsDraw(draw, a.counter + 1, b.items[item].code)
    ensures FreeStays(draw, a, b)
  {
    if DrawsFree(draw, a.counter, a.items) {
      var k: nat :| k < MAX_DRAWS && draw(a.counter + 1, k) == b.items[item].code;
      forall n | n > b.counter ensures !CodeInUse(b.items, draw(n, 0)) {
        assert !CodeInUse(a.items, draw(n, 0));
        assert draw(n, 0) != draw(a.counter + 1, k);
      }
    }
  }

  ghost predicate Extends(a: map<string, LabelRow>, b: map<string, LabelRow>) {
    forall l :: l in a ==> l in b && b[l] == a[l]
  }

  /** Nothing, or one label of that name, is added. */
  ghost predicate AtMostOneLabel(labels: map<string, LabelRow>, n: nat, labels': map<string, LabelRow>, n': nat,
                                 id: string,
                                 name: string)
  {
    || (labels' == labels && n' == n)
    || (&& id !in labels && n' == n + 1 && labels' == labels[id := LabelRow(name, true, n')]
        && forall l :: l in labels && labels[l].live ==> labels[l].name != name)
  }

  lemma AddedOnce(start: map<string, LabelRow>, lo: nat, labels: map<string, LabelRow>, n: nat,
                  labels': map<string, LabelRow>, n': nat, names: seq<string>, i: nat, id: string)
    requires i < |names| && LabelsAdded(start, labels, lo, n, names[..i])
    requires AtMostOneLabel(labels, n, labels', n', id, names[i])
    ensures LabelsAdded(start, labels', lo, n', names[..i + 1])
  {
    if labels' == labels && n' == n {
      AddedMore(start, labels, lo, n, names, i);
    } else {
      assert names[..i + 1] == names[..i] + [names[i]];
      OneAdded(start, labels, lo, n, names[..i], names[..i + 1], id, names[i]);
    }
  }

  lemma OneAdded(labels: map<string, LabelRow>, labels': map<string, LabelRow>, lo: nat, hi: nat, names: seq<string>,
                 names': seq<string>, id: string, name: string)
    requires LabelsAdded(labels, labels', lo, hi, names) && id !in labels'
    requires name in names' && forall x :: x in names ==> x in names'
    requires forall l :: l in labels' && labels'[l].live ==> labels'[l].name != name
    ensures LabelsAdded(labels, labels'[id := LabelRow(name, true, hi + 1)], lo, hi + 1, names')
  {
    var more := labels'[id := LabelRow(name, true, hi + 1)];
    OneMoreKey(labels, labels', id, LabelRow(name, true, hi + 1));
    ExtendsMore(labels, labels', id, LabelRow(name, true, hi + 1));
    forall l | l in more && l !in labels ensures NewLabel(more, l, lo, hi + 1, names') {
      if l != id {
        NewLabelStays(labels', l, lo, hi, names, names', id, name);
      } else {
        NewLabelFresh(labels', lo, hi, names', id, name);
      }
    }
  }

  lemma NewLabelFresh(labels: map<string, LabelRow>, lo: nat, hi: nat, names: seq<string>, id: string, name: string)
    requires lo <= hi && name in names && id !in labels
    requires forall l :: l in labels && labels[l].live ==> labels[l].name != name
    ensures NewLabel(labels[id := LabelRow(name, true, hi + 1)], id, lo, hi + 1, names)
  {
  }

  lemma ExtendsMore(labels: map<string, LabelRow>, labels': map<string, LabelRow>, id: string, row: LabelRow)
    requires Extends(labels, labels') && id !in labels'
    ensures Extends(labels, labels'[id := row])
  {
  }

  lemma OneMoreKey(labels: map<string, LabelRow>, labels': map<string, LabelRow>, id: string, row: LabelRow)
    requires id !in labels' && forall l :: l in labels ==> l in labels'
    ensures |labels'[id := row].Keys - labels.Keys| == |labels'.Keys - labels.Keys| + 1
  {
    assert labels'[id := row].Keys - labels.Keys == (labels'.Keys - labels.Keys) + {id};
  }

  lemma NewLabelStays(labels: map<string, LabelRow>, l: string, lo: nat, hi: nat, names: seq<string>,
                      names': seq<string>,
                      id: string, name: string)
    requires l in labels && NewLabel(labels, l, lo, hi, names) && labels[l].name != name && id !in labels
    requires forall x :: x in names ==> x in names'
    ensures NewLabel(labels[id := LabelRow(name, true, hi + 1)], l, lo, hi + 1, names')
  {
  }

  lemma AddedMore(labels: map<string, LabelRow>, labels': map<string, LabelRow>, lo: nat, hi: nat, names: seq<string>,
                  i: nat)
    requires i < |names| && LabelsAdded(labels, labels', lo, hi, names[..i])
    ensures LabelsAdded(labels, labels', lo, hi, names[..i + 1])
  {
    assert names[..i + 1] == names[..i] + [names[i]];
    forall l | l in labels' && l !in labels ensures NewLabel(labels', l, lo, hi, names[..i + 1]) {
      assert NewLabel(labels', l, lo, hi, names[..i]);
    }
  }

  lemma MembersGrow<T>(s: seq<T>, i: nat)
    requires i < |s|
    ensures Members(s[..i + 1]) == Members(s[..i]) + {s[i]}
  {
    assert s[..i + 1] == s[..i] + [s[i]];
  }

  lemma LabelsReplaced(labels: map<string, LabelRow>, labels': map<string, LabelRow>, edges: seq<Sat<string>>,
                       edges': seq<Sat<string>>, item: string, ids: seq<string>, names: seq<string>, stamp: nat)
    requires stamp > 0 && Extends(labels, labels') && EdgesLead(edges, labels.Keys) && Resolved(labels', ids, names)
    requires TableWritten(edges, edges', item, ids, stamp)
    ensures LabelsWritten(true, labels, edges, labels', edges', item, names) && EdgesLead(edges', labels'.Keys)
  {
    forall x
      ensures NamesOf(labels', LiveValues(edges', x)) ==
              if x == item then Members(names) else NamesOf(labels, LiveValues(edges, x))
    {
      if x != item {
        SameNames(labels, labels', LiveValues(edges, x));
      }
    }
  }

  datatype Counts = Counts(created: nat, updated: nat, same: nat) {
    function Plus(action: CommitAction): Counts {
      match action
      case DoCreate => Counts(created + 1, updated, same)
      case DoUpdate => Counts(created, updated + 1, same)
      case DoNothing => Counts(created, updated, same + 1)
    }
  }

  /** How many of the first `n` rows there are of each kind. */
  function Tally(rows: seq<CommitRow>, n: nat): Counts
    requires n <= |rows|
  {
    if n == 0 then Counts(0, 0, 0) else Tally(rows, n - 1).Plus(rows[n - 1].action)
  }

  /** The first `n` rows of one kind. */
  function OfKind(rows: seq<CommitRow>, n: nat, action: CommitAction): set<nat>
    requires n <= |rows|
  {
    set i: nat | i < n && rows[i].action == action
  }

  /** The counts are the numbers of create, update and unchanged rows. */
  lemma {:induction false} TallyExact(rows: seq<CommitRow>, n: nat)
    requires n <= |rows|
    ensures Tally(rows, n) ==
            Counts(|OfKind(rows, n, DoCreate)|, |OfKind(rows, n, DoUpdate)|, |OfKind(rows, n, DoNothing)|)
  {
    if n > 0 {
      TallyExact(rows, n - 1);
      OneMoreOfKind(rows, n - 1, DoCreate);
      OneMoreOfKind(rows, n - 1, DoUpdate);
      OneMoreOfKind(rows, n - 1, DoNothing);
    }
  }

  lemma OneMoreOfKind(rows: seq<CommitRow>, n: nat, action: CommitAction)
    requires n < |rows|
    ensures |OfKind(rows, n + 1, action)| == |OfKind(rows, n, action)| + if rows[n].action == action then 1 else 0
  {
    if rows[n].action == action {
      assert OfKind(rows, n + 1, action) == OfKind(rows, n, action) + {n};
    } else {
      assert OfKind(rows, n + 1, action) == OfKind(rows, n, action);
    }
  }

  /** A created item and the row it was created for. */
  datatype NewItem = NewItem(row: nat, item: string)

  ghost predicate HoldsAll(st: State, item: string, s: Staged) { item in st.items && forall g :: Holds(st, item, s, g) }

  /** The items drawn for the create rows among the first `n`. */
  function NewItems(rows: seq<CommitRow>, items: seq<string>, n: nat): seq<NewItem>
    requires n <= |rows| && n <= |items|
  {
    if n == 0 then []
    else NewItems(rows, items, n - 1) + if rows[n - 1].action.DoCreate? then [NewItem(n - 1, items[n - 1])] else []
  }

  /** The created items of the first `n` rows, one per create row, in order: each is new, and
      holds its proposal unless a later row names it. */
  ghost predicate CreatedAll(a: State, b: State, rows: seq<CommitRow>, n: nat, created: seq<NewItem>)
    requires n <= |rows|
  {
    && (forall i :: 0 <= i < n && rows[i].action.DoCreate? ==> exists c :: c in created && c.row == i)
    && (forall i, j :: 0 <= i < j < |created| ==> created[i].row < created[j].row)
    && (forall c :: c in created ==>
        c.row < n && rows[c.row].action.DoCreate? && c.item !in a.items && c.item in b.items)
    && (forall c :: c in created && NotAfter(rows, n, c.row, c.item) ==> HoldsAll(b, c.item, rows[c.row].proposed))
  }

  // ----- Whole commits -----

  ghost predicate AllKept(a: State, b: State, x: string) { x in b.items && forall g :: Kept(a, b, x, g) }

  /** What an update row names holds its proposal. */
  ghost predicate Landed(st: State, row: CommitRow) {
    row.item in st.items && forall g :: Rewrites(Members(row.changes), g) ==> Holds(st, row.item, row.proposed, g)
  }

  ghost predicate RowPatched(a: State, b: State, row: CommitRow) {
    Patched(a, b, row.item, row.proposed, Members(row.changes))
  }

  predicate Names(row: CommitRow, x: string) { row.action.DoUpdate? && row.item == x }

  /** One row keeps every item it does not name, and an update lands. */
  ghost predicate RowEffect(a: State, b: State, row: CommitRow) {
    && (forall x :: x in a.items ==> x in b.items)
    && (forall x :: x in a.items && !Names(row, x) ==> AllKept(a, b, x))
    && (row.action.DoUpdate? ==> Landed(b, row) && RowPatched(a, b, row))
  }

  /** Row `i` is an update, and no other of the first `n` rows names its item. */
  ghost predicate OnlyOne(rows: seq<CommitRow>, n: nat, i: nat)
    requires n <= |rows| && i < n
  {
    rows[i].action.DoUpdate? && forall j :: 0 <= j < n && j != i ==> !Names(rows[j], rows[i].item)
  }

  /** The first `n` rows name the item at no place after `i`. */
  ghost predicate NotAfter(rows: seq<CommitRow>, n: nat, i: int, x: string)
    requires n <= |rows| && -1 <= i
  {
    forall j :: i < j < n ==> !Names(rows[j], x)
  }

  /** After the first `n` rows: items no row names are kept; the last row to name an item has its
      changes in place, and the only row to name it has changed nothing else. */
  ghost predicate BatchDone(a: State, b: State, rows: seq<CommitRow>, n: nat)
    requires n <= |rows|
  {
    && (forall x :: x in a.items ==> x in b.items)
    && (forall x :: x in a.items && NotAfter(rows, n, -1, x) ==> AllKept(a, b, x))
    && (forall i :: 0 <= i < n && rows[i].action.DoUpdate? && NotAfter(rows, n, i, rows[i].item) ==> Landed(b, rows[i]))
    && (forall i :: 0 <= i < n && OnlyOne(rows, n, i) && rows[i].item in a.items ==> RowPatched(a, b, rows[i]))
  }

  /** One row committed, a create row as the given item. */
  ghost predicate StepDone(draw: (nat, nat) -> string, a: State, b: State, row: CommitRow, item: string) {
    && RowEffect(a, b, row) && Watermarked(a, b) && FreeStays(draw, a, b)
    && b.known == a.known && Fits(a.known, row)
    && (row.action.DoCreate? ==> CreatedItem(a, b, row.proposed, item))
  }

  ghost predicate StepAt(draw: (nat, nat) -> string, ts: seq<State>, rows: seq<CommitRow>, items: seq<string>, j: nat) {
    j + 1 < |ts| && j < |rows| && j < |items| && StepDone(draw, ts[j], ts[j + 1], rows[j], items[j])
  }

  ghost predicate Steps(draw: (nat, nat) -> string, ts: seq<State>, rows: seq<CommitRow>, items: seq<string>, n: nat) {
    && n < |ts| && n <= |rows| && n <= |items|
    && forall j: nat :: j < n ==> StepAt(draw, ts, rows, items, j)
  }

  lemma StepsGrow(draw: (nat, nat) -> string, ts: seq<State>, rows: seq<CommitRow>, items: seq<string>, n: nat,
                  st: State, item: string)
    requires Steps(draw, ts, rows, items, n) && |ts| == n + 1 && |items| == n < |rows|
             && StepDone(draw, ts[n], st, rows[n], item)
    ensures Steps(draw, ts + [st], rows, items + [item], n + 1)
  {
    var ts', items' := ts + [st], items + [item];
    forall j: nat | j < n + 1 ensures StepAt(draw, ts', rows, items', j) {
      if j < n {
        assert StepAt(draw, ts, rows, items, j);
        assert ts'[j] == ts[j] && ts'[j + 1] == ts[j + 1] && items'[j] == items[j];
      }
    }
  }

  /** The loop over the rows after `i` of them, its states and its items. */
  ghost predicate Progress(draw: (nat, nat) -> string, ts: seq<State>, items: seq<string>, rows: seq<CommitRow>, i: nat,
                           counts: Counts, created: seq<NewItem>)
  {
    && i <= |rows| && |ts| == i + 1 && |items| == i && Steps(draw, ts, rows, items, i)
    && counts == Tally(rows, i) && created == NewItems(rows, items, i)
  }

  lemma ProgressGrows(draw: (nat, nat) -> string, ts: seq<State>, items: seq<string>, rows: seq<CommitRow>, i: nat,
                      counts: Counts, created: seq<NewItem>, st: State, item: string)
    requires i < |rows| && Progress(draw, ts, items, rows, i, counts, created)
             && StepDone(draw, ts[i], st, rows[i], item)
    ensures var more := if rows[i].action.DoCreate? then [NewItem(i, item)] else [];
            Progress(draw, ts + [st], items + [item], rows, i + 1, counts.Plus(rows[i].action), created + more)
  {
    StepsGrow(draw, ts, rows, items, i, st, item);
    SameNewItems(rows, items, items + [item], i);
  }

  lemma SameNewItems(rows: seq<CommitRow>, items: seq<string>, items': seq<string>, n: nat)
    requires n <= |rows| && n <= |items| && items <= items'
    ensures NewItems(rows, items, n) == NewItems(rows, items', n)
  {
  }

  /** What the first `n` rows of a commit amount to. */
  ghost predicate Committed(a: State, b: State, rows: seq<CommitRow>, n: nat, created: seq<NewItem>)
    requires n <= |rows|
  {
    BatchDone(a, b, rows, n) && Watermarked(a, b) && CreatedAll(a, b, rows, n, created)
  }

  lemma StepsMakeBatch(draw: (nat, nat) -> string, ts: seq<State>, rows: seq<CommitRow>, items: seq<string>, n: nat)
    requires Steps(draw, ts, rows, items, n)
    ensures Committed(ts[0], ts[n], rows, n, NewItems(rows, items, n))
  {
    NothingYet(ts[0], rows);
    var m, created := 0, [];
    while m < n
      invariant 0 <= m <= n && created == NewItems(rows, items, m) && Committed(ts[0], ts[m], rows, m, created)
    {
      assert StepAt(draw, ts, rows, items, m);
      var m', created' := m + 1, NewItems(rows, items, m + 1);
      OneMoreStep(draw, ts[0], ts[m], ts[m'], rows, m, m', created, created', items[m]);
      m, created := m', created';
    }
  }

  lemma OneMoreStep(draw: (nat, nat) -> string, a: State, b: State, c: State, rows: seq<CommitRow>, m: nat, n: nat,
                    created: seq<NewItem>, created': seq<NewItem>, item: string)
    requires m + 1 == n <= |rows| && Committed(a, b, rows, m, created) && StepDone(draw, b, c, rows[m], item)
    requires created' == created + if rows[m].action.DoCreate? then [NewItem(m, item)] else []
    ensures Committed(a, c, rows, n, created')
  {
    BatchGrows(a, b, c, rows, m, n);
    WatermarkedTrans(a, b, c);
    CreatedGrows(a, b, c, rows, m, n, created, created', item);
  }

  lemma {:induction false} TraceFree(draw: (nat, nat) -> string, ts: seq<State>, rows: seq<CommitRow>,
                                     items: seq<string>, n: nat)
    requires Steps(draw, ts, rows, items, n)
    ensures FreeStays(draw, ts[0], ts[n])
  {
    if n > 0 {
      TraceFree(draw, ts, rows, items, n - 1);
      assert StepAt(draw, ts, rows, items, n - 1);
    }
  }

  /** A commit leaves what foreign keys lead to alone, and each of its rows fits. */
  lemma {:induction false} TraceFits(draw: (nat, nat) -> string, ts: seq<State>, rows: seq<CommitRow>,
                                     items: seq<string>, n: nat)
    requires Steps(draw, ts, rows, items, n)
    ensures ts[n].known == ts[0].known && forall j :: 0 <= j < n ==> Fits(ts[0].known, rows[j])
  {
    if n > 0 {
      TraceFits(draw, ts, rows, items, n - 1);
      assert StepAt(draw, ts, rows, items, n - 1);
    }
  }

  /** A row that fails names an unknown item, does not fit, or its code draws were not free from
      the start. */
  lemma TraceFails(draw: (nat, nat) -> string, ts: seq<State>, rows: seq<CommitRow>, items: seq<string>, n: nat)
    requires Steps(draw, ts, rows, items, n) && n < |rows| && Fails(draw, ts[n], rows[n])
    ensures !CanCommit(draw, ts[0], rows)
  {
    TraceFits(draw, ts, rows, items, n);
    if Fits(ts[n].known, rows[n]) {
      FailsFor(draw, ts[n], rows[n]);
      StepsMakeBatch(draw, ts, rows, items, n);
      TraceFree(draw, ts, rows, items, n);
    }
  }

  lemma UpdateDone(draw: (nat, nat) -> string, a: State, b: State, row: CommitRow, item: string)
    requires row.action.DoUpdate? && row.item in a.items && RowFits(a.known, row.proposed, Members(row.changes))
    requires Written(a, b, row.item, row.proposed, Members(row.changes)) && Watermarked(a, b)
    requires ItemsStep(a.items, b.items, row.item) && b.known == a.known
    ensures StepDone(draw, a, b, row, item)
  {
    UpdateFree(draw, a, b, row.item);
  }

  lemma CreateDone(draw: (nat, nat) -> string, a: State, b: State, row: CommitRow, item: string)
    requires row.action.DoCreate? && RowFits(a.known, row.proposed, ALL_GROUPS)
    requires CreatedItem(a, b, row.proposed, item) && Watermarked(a, b) && b.known == a.known
    requires AddedItem(a.items, b.items, item) && IsDraw(draw, a.counter + 1, b.items[item].code)
    ensures StepDone(draw, a, b, row, item)
  {
    assert a.counter < b.items[item].changeSeq <= b.counter;
    CreateFree(draw, a, b, item);
  }

  lemma NothingDone(draw: (nat, nat) -> string, a: State, row: CommitRow, item: string)
    requires row.action.DoNothing?
    ensures StepDone(draw, a, a, row, item)
  {
  }

  lemma NothingYet(a: State, rows: seq<CommitRow>)
    ensures Watermarked(a, a) && BatchDone(a, a, rows, 0) && CreatedAll(a, a, rows, 0, [])
  {
  }

  lemma KeptTrans(a: State, b: State, c: State, x: string)
    requires AllKept(a, b, x) && AllKept(b, c, x)
    ensures AllKept(a, c, x)
  {
    forall g ensures Kept(a, c, x, g) {
      assert Kept(a, b, x, g) && Kept(b, c, x, g);
    }
  }

  lemma LandedStays(b: State, c: State, row: CommitRow)
    requires Landed(b, row) && AllKept(b, c, row.item)
    ensures Landed(c, row)
  {
    forall g | Rewrites(Members(row.changes), g) ensures Holds(c, row.item, row.proposed, g) {
      assert Holds(b, row.item, row.proposed, g) && Kept(b, c, row.item, g);
    }
  }

  lemma PatchedTrans(a: State, b: State, c: State, row: CommitRow)
    requires (AllKept(a, b, row.item) && RowPatched(b, c, row)) || (RowPatched(a, b, row) && AllKept(b, c, row.item))
    ensures RowPatched(a, c, row)
  {
    var changes := Members(row.changes);
    forall g ensures if Rewrites(changes, g) then Holds(c, row.item, row.proposed, g) else Kept(a, c, row.item, g) {
      if AllKept(a, b, row.item) && RowPatched(b, c, row) {
        assert Kept(a, b, row.item, g);
      } else {
        assert Kept(b, c, row.item, g);
      }
    }
  }

  lemma BatchGrows(a: State, b: State, c: State, rows: seq<CommitRow>, m: nat, n: nat)
    requires m + 1 == n <= |rows| && BatchDone(a, b, rows, m) && RowEffect(b, c, rows[m])
    ensures BatchDone(a, c, rows, n)
  {
    forall x | x in a.items && NotAfter(rows, n, -1, x) ensures AllKept(a, c, x) {
      assert NotAfter(rows, m, -1, x) && !Names(rows[m], x);
      KeptTrans(a, b, c, x);
    }
    forall i | 0 <= i < n && rows[i].action.DoUpdate? && NotAfter(rows, n, i, rows[i].item) ensures Landed(c, rows[i]) {
      if i < m {
        assert NotAfter(rows, m, i, rows[i].item) && !Names(rows[m], rows[i].item);
        LandedStays(b, c, rows[i]);
      }
    }
    forall i | 0 <= i < n && OnlyOne(rows, n, i) && rows[i].item in a.items ensures RowPatched(a, c, rows[i]) {
      if i < m {
        assert OnlyOne(rows, m, i) && !Names(rows[m], rows[i].item);
        assert NotAfter(rows, m, i, rows[i].item);
      } else {
        assert NotAfter(rows, m, -1, rows[i].item);
      }
      PatchedTrans(a, b, c, rows[i]);
    }
  }

  lemma HoldsAllStays(b: State, c: State, x: string, s: Staged)
    requires HoldsAll(b, x, s) && AllKept(b, c, x)
    ensures HoldsAll(c, x, s)
  {
    forall g ensures Holds(c, x, s, g) {
      assert Holds(b, x, s, g) && Kept(b, c, x, g);
    }
  }

  lemma CreatedHolds(a: State, b: State, s: Staged, item: string)
    requires CreatedItem(a, b, s, item)
    ensures HoldsAll(b, item, s)
  {
    forall g ensures Holds(b, item, s, g) {
      assert Rewrites(ALL_GROUPS, g);
    }
  }

  /** One more row of a commit, seen by the list of created items. */
  lemma CreatedGrows(a: State, b: State, c: State, rows: seq<CommitRow>, m: nat, n: nat, created: seq<NewItem>,
                     created': seq<NewItem>, item: string)
    requires m + 1 == n <= |rows| && CreatedAll(a, b, rows, m, created) && RowEffect(b, c, rows[m])
             && forall x :: x in a.items ==> x in b.items
    requires rows[m].action.DoCreate? ==> CreatedItem(b, c, rows[m].proposed, item)
    requires created' == created + if rows[m].action.DoCreate? then [NewItem(m, item)] else []
    ensures CreatedAll(a, c, rows, n, created')
  {
    forall i | 0 <= i < n && rows[i].action.DoCreate? ensures exists k :: k in created' && k.row == i {
      if i < m {
        var k :| k in created && k.row == i;
        assert k in created';
      } else {
        assert NewItem(m, item) in created';
      }
    }
    forall i, j | 0 <= i < j < |created'| ensures created'[i].row < created'[j].row {
      assert created'[i] in created;
    }
    forall k | k in created' && NotAfter(rows, n, k.row, k.item) ensures HoldsAll(c, k.item, rows[k.row].proposed) {
      if k in created {
        assert NotAfter(rows, m, k.row, k.item) && !Names(rows[m], k.item);
        HoldsAllStays(b, c, k.item, rows[k.row].proposed);
      } else {
        CreatedHolds(b, c, rows[m].proposed, item);
      }
    }
  }

  /** A whole commit converges: an item named by one row, with the changes that the diff found,
      does not differ from its proposed row any more when it is read after the commit, provided
      the proposed custom fields are linked to live definitions, as those of a parsed file are;
      and its other groups are as before. */
  lemma CommitConverges(a: State, b: State, rows: seq<CommitRow>, i: nat, live: set<string>, row: Row, row': Row)
    requires BatchDone(a, b, rows, |rows|) && i < |rows| && OnlyOne(rows, |rows|, i)
    requires Reads(a, rows[i].item, row) && Reads(b, rows[i].item, row')
    requires forall g :: g in rows[i].changes <==> Differs(row, rows[i].proposed, live, g)
    ensures (forall g :: !Differs(row', rows[i].proposed, live, g)) <==>
            GFields !in rows[i].changes || LinkedIds(rows[i].proposed.fields) <= live
    ensures forall g :: g != GFields ==> !Differs(row', rows[i].proposed, live, g)
    ensures forall g :: g !in rows[i].changes ==> Kept(a, b, rows[i].item, g)
  {
    assert RowPatched(a, b, rows[i]);
    RowConverges(a, b, rows[i], live, row, row');
  }

  lemma RowConverges(a: State, b: State, r: CommitRow, live: set<string>, row: Row, row': Row)
    requires RowPatched(a, b, r) && Reads(a, r.item, row) && Reads(b, r.item, row')
    requires forall g :: g in r.changes <==> Differs(row, r.proposed, live, g)
    ensures (forall g :: !Differs(row', r.proposed, live, g)) <==>
              GFields !in r.changes || LinkedIds(r.proposed.fields) <= live
    ensures forall g :: g != GFields ==> !Differs(row', r.proposed, live, g)
    ensures forall g :: g !in r.changes ==> Kept(a, b, r.item, g)
  {
    var changes := Members(r.changes);
    assert forall g :: g in changes <==> g in r.changes;
    DiffPatchConverges(a, b, r.item, r.proposed, changes, live, row, row');
    if GFields in r.changes && !(LinkedIds(r.proposed.fields) <= live) {
      assert Differs(row', r.proposed, live, GFields);
    }
  }

  lemma NothingNamed(changes: seq<Group>)
    ensures Members(changes) == {} <==> changes == []
  {
    if changes != [] {
      assert changes[0] in Members(changes);
    }
  }

  lemma NothingWritten(a: State, item: string, s: Staged, changes: set<Group>)
    requires changes == {} && item in a.items
    ensures Written(a, a, item, s, changes) && Watermarked(a, a)
  {
  }

  /** Allocating a number, writing the item's row and then its satellites is one commit. */
  lemma RowCommitted(a: State, m: State, b: State, item: string, s: Staged, changes: set<Group>, stamp: nat)
    requires stamp == a.counter + 1 && m == a.(counter := stamp, items := m.items) && b.items == m.items
    requires CoreWritten(a, m, item, s, TouchesCore(changes))
    requires TouchesCore(changes) ==> item in m.items && m.items[item].changeSeq == stamp
    requires GroupsWritten(m, b, item, s, changes, stamp)
    ensures Written(a, b, item, s, changes) && Watermarked(a, b)
  {
    GroupsAreWatermarked(m, b, item, s, changes, stamp);
    GroupsWrittenFrom(a, m, b, item, s, changes, stamp);
    GroupsAreWritten(a.(counter := m.counter), b, item, s, changes, stamp);
    WrittenFrom(a, b, m.counter, item, s, changes);
  }

  lemma GroupsWrittenFrom(a: State, m: State, b: State, item: string, s: Staged, changes: set<Group>, stamp: nat)
    requires stamp > 0 && m == a.(counter := m.counter, items := m.items)
             && GroupsWritten(m, b, item, s, changes, stamp)
    ensures GroupsWritten(a.(counter := m.counter), b, item, s, changes, stamp)
  {
  }

  lemma WrittenFrom(a: State, b: State, n: nat, item: string, s: Staged, changes: set<Group>)
    requires Written(a.(counter := n), b, item, s, changes)
    ensures Written(a, b, item, s, changes)
  {
    var c := a.(counter := n);
    forall x, g: Group | Kept(c, b, x, g) ensures Kept(a, b, x, g) {
      assert LabelNames(a, x) == LabelNames(c, x);
    }
  }

  lemma SameNames(a: map<string, LabelRow>, b: map<string, LabelRow>, ids: seq<string>)
    requires forall l :: l in ids ==> l in a && l in b && a[l] == b[l]
    ensures NamesOf(a, ids) == NamesOf(b, ids)
  {
  }

  /** One more distinct name resolved, with labels possibly added. */
  lemma OneMoreLabel(labels: map<string, LabelRow>, ids: seq<string>, names: seq<string>, id: string, name: string)
    requires Resolved(labels, ids, names) && name !in Members(names)
    requires id in labels && labels[id].live && labels[id].name == name
    ensures Distinct(ids + [id]) && (forall l :: l in ids + [id] ==> l in labels && labels[l].live)
    ensures NamesOf(labels, ids + [id]) == Members(names) + {name}
  {
    assert forall l :: l in ids ==> labels[l].name in NamesOf(labels, ids);
    assert forall l :: l in ids + [id] <==> l in ids || l == id;
  }

  lemma KeepResolved(a: map<string, LabelRow>, b: map<string, LabelRow>, ids: seq<string>, names: seq<string>)
    requires Resolved(a, ids, names) && Extends(a, b)
    ensures Resolved(b, ids, names)
  {
    SameNames(a, b, ids);
  }
}
