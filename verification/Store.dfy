/** The push commit path as it runs: a store whose tables change row by row inside a
    transaction that is rolled back on error, proved to do what the functions of `Push` say. */
module Store {
  import opened Wire
  import opened Forest
  import opened Database
  import opened Push
  import opened Effects
  import opened Runs
  import opened LocationRuns

  datatype AppliedEntry = AppliedEntry(mutation: string, entityId: string, version: int)
  datatype ConflictEntry = ConflictEntry(mutation: string, entityId: string, field: Field)

  /** A pushed batch's answer. */
  datatype BatchResult = BatchResult(
    applied: seq<AppliedEntry>, skipped: seq<string>, conflicts: seq<ConflictEntry>, watermark: int)

  /** How long the three lists of an answer are. */
  datatype Lengths = Lengths(applied: nat, skipped: nat, conflicts: nat)

  /** What the batch answers for mutation `i`: its lists grow by exactly what became of it when it
      was applied after the mutations before it. */
  ghost predicate ReportedAt(db: Db, ms: seq<Mutation>, i: nat, b: BatchResult, before: Lengths, after: Lengths) {
    && i < |ms| && Apply(ApplyAll(db, ms[..i]), ms[i]).result.Ok?
    && after.applied <= |b.applied| && after.skipped <= |b.skipped| && after.conflicts <= |b.conflicts|
    && var m, o := ms[i], Apply(ApplyAll(db, ms[..i]), ms[i]).result.outcome;
       && after == (if o.skipped then before.(skipped := before.skipped + 1)
                    else Lengths(before.applied + if o.applied then 1 else 0, before.skipped,
                                 before.conflicts + |o.conflicts|))
       && (o.skipped ==> b.skipped[before.skipped] == m.id)
       && (!o.skipped && o.applied ==> b.applied[before.applied] == AppliedEntry(m.id, m.entityId, o.version))
       && (!o.skipped ==> forall j :: 0 <= j < |o.conflicts| ==>
             b.conflicts[before.conflicts + j] == ConflictEntry(m.id, m.entityId, o.conflicts[j]))
  }

  /** The answer to the first `n` mutations, in their order. */
  ghost predicate Reported(db: Db, ms: seq<Mutation>, n: nat, b: BatchResult, lengths: seq<Lengths>) {
    && n <= |ms| && |lengths| == n + 1 && lengths[0] == Lengths(0, 0, 0)
    && lengths[n] == Lengths(|b.applied|, |b.skipped|, |b.conflicts|)
    && forall i: nat :: i < n ==> ReportedAt(db, ms, i, b, lengths[i], lengths[i + 1])
  }

  /** Mutation `i` was not skipped and conflicts in that field. */
  ghost predicate ConflictsIn(db: Db, ms: seq<Mutation>, i: nat, e: ConflictEntry) {
    && i < |ms| && e.mutation == ms[i].id && e.entityId == ms[i].entityId
    && Apply(ApplyAll(db, ms[..i]), ms[i]).result.Ok?
    && var o := Apply(ApplyAll(db, ms[..i]), ms[i]).result.outcome; !o.skipped && e.field in o.conflicts
  }

  /** The conflicts reported are exactly those of the mutations that were not skipped. */
  ghost predicate ConflictsReported(db: Db, ms: seq<Mutation>, n: nat, b: BatchResult) {
    forall e :: e in b.conflicts <==> exists i: nat :: i < n && ConflictsIn(db, ms, i, e)
  }

  lemma {:induction false} KeepKeep(fs: seq<Field>, s: set<Field>, t: set<Field>)
    ensures Keep(Keep(fs, s), t) == Keep(fs, s * t)
  {
    if fs != [] {
      var init, last := fs[..|fs| - 1], fs[|fs| - 1];
      KeepKeep(init, s, t);
      if last in s {
        assert Keep(fs, s) == Keep(init, s) + [last];
        KeepSnoc(Keep(init, s), last, t);
      } else {
        assert Keep(fs, s) == Keep(init, s);
      }
    }
  }

  lemma KeepSnoc(fs: seq<Field>, f: Field, s: set<Field>)
    ensures Keep(fs + [f], s) == Keep(fs, s) + if f in s then [f] else []
  {
    assert (fs + [f])[..|fs|] == fs;
  }

  lemma {:induction false} KeepExt(fs: seq<Field>, s: set<Field>, t: set<Field>)
    requires forall f :: f in fs ==> (f in s <==> f in t)
    ensures Keep(fs, s) == Keep(fs, t)
  {
    if fs != [] {
      KeepExt(fs[..|fs| - 1], s, t);
    }
  }

  function AsSet(fs: seq<Field>): set<Field> { set f | f in fs }

  lemma TakeSnoc(fs: seq<Field>, i: nat)
    requires i < |fs|
    ensures fs[..i + 1] == fs[..i] + [fs[i]]
  {
  }

  lemma RecordedOneMore(fv: map<FieldKey, int>, key: Key, fields: set<Field>, f: Field, version: int)
    ensures Recorded(fv, key, fields + {f}, version) == Recorded(fv, key, fields, version)[FieldKey(key, f) := version]
  {
    var a, b := Recorded(fv, key, fields + {f}, version),
                Recorded(fv, key, fields, version)[FieldKey(key, f) := version];
    forall k ensures k in a <==> k in b {
    }
    forall k | k in a ensures a[k] == b[k] {
    }
  }

  /** A set of names, sorted. */
  method Sorted(k: Kind, s: set<Field>) returns (names: seq<Field>)
    ensures names == Keep(Names(k), s)
  {
    names := [];
    var all := Names(k);
    for i := 0 to |all|
      invariant names == Keep(all[..i], s)
    {
      TakeSnoc(all, i);
      KeepSnoc(all[..i], all[i], s);
      if all[i] in s {
        names := names + [all[i]];
      }
    }
    assert all[..|all|] == all;
  }

  /** Split names by the tracked versions of an entity's fields against a base version. */
  method FieldLevelMergePolicy(tracked: map<FieldKey, int>, key: Key, base: int, names: seq<Field>)
    returns (conflict: seq<Field>, apply: seq<Field>)
    ensures var stale :=
              set f | f in names && (if FieldKey(key, f) in tracked then tracked[FieldKey(key, f)] else 1) > base;
            conflict == Keep(names, stale) && apply == Keep(names, (set f | f in names) - stale)
  {
    ghost var stale :=
      set f | f in names && (if FieldKey(key, f) in tracked then tracked[FieldKey(key, f)] else 1) > base;
    ghost var current := (set f | f in names) - stale;
    conflict, apply := [], [];
    for i := 0 to |names|
      invariant conflict == Keep(names[..i], stale) && apply == Keep(names[..i], current)
    {
      TakeSnoc(names, i);
      KeepSnoc(names[..i], names[i], stale);
      KeepSnoc(names[..i], names[i], current);
      var fv := if FieldKey(key, names[i]) in tracked then tracked[FieldKey(key, names[i])] else 1;
      if fv > base {
        conflict := conflict + [names[i]];
      } else {
        apply := apply + [names[i]];
      }
    }
    assert names[..|names|] == names;
  }

  /** Does a submitted member of the custom-field value union conflict? */
  method UnionConflicts(fields: map<Field, Json>, inConflict: set<Field>) returns (hit: bool)
    ensures hit <==> inConflict * VALUE_UNION * fields.Keys != {}
  {
    var union := [FieldType, TextValue, NumberValue, BoolValue, DateValue];
    assert forall f :: f in union <==> f in VALUE_UNION;
    for i := 0 to |union|
      invariant forall f :: f in union[..i] ==> !(f in fields && f in inConflict)
    {
      if union[i] in fields && union[i] in inConflict {
        assert union[i] in inConflict * VALUE_UNION * fields.Keys;
        return true;
      }
      TakeSnoc(union, i);
    }
    assert union[..|union|] == union;
    return false;
  }

  /** When a submitted member of the value union conflicts, all submitted members do. */
  method ValueUnionRule(fields: map<Field, Json>, conflict: seq<Field>, apply: seq<Field>)
    returns (conflict': seq<Field>, apply': seq<Field>)
    ensures var lost, moved := (set f | f in conflict), VALUE_UNION * fields.Keys;
            if lost * VALUE_UNION * fields.Keys == {} then conflict' == conflict && apply' == apply
            else && conflict' == Keep(Names(CustomField), lost + (set f | f in apply && f in moved))
                 && apply' == Keep(apply, (set f | f in apply) - moved)
  {
    var inConflict := set f | f in conflict;
    var hit := UnionConflicts(fields, inConflict);
    if !hit {
      return conflict, apply;
    }
    ghost var lost, all, moved := inConflict, (set f | f in apply), VALUE_UNION * fields.Keys;
    apply' := [];
    for j := 0 to |apply|
      invariant apply' == Keep(apply[..j], all - moved)
      invariant inConflict == lost + (set f | f in apply[..j] && f in moved)
    {
      TakeSnoc(apply, j);
      KeepSnoc(apply[..j], apply[j], all - moved);
      if apply[j] in VALUE_UNION && apply[j] in fields {
        inConflict := inConflict + {apply[j]};
      } else {
        apply' := apply' + [apply[j]];
      }
    }
    assert apply[..|apply|] == apply;
    conflict' := Sorted(CustomField, inConflict);
  }

  // ----- Column values -----

  /** Applied columns take the decoded pushed value, the others keep the current one. */
  method MergeColumns(m: Mutation, current: map<Field, Val>, allowed: set<Field>) returns (r: Option<map<Field, Val>>)
    ensures r.Some? <==> Decodable(m, current.Keys * allowed)
    ensures r.Some? ==> r.value == MergedVals(m, current, allowed)
  {
    var vals: map<Field, Val> := map[];
    var todo := current.Keys;
    while todo != {}
      invariant todo <= current.Keys && vals.Keys == current.Keys - todo
      invariant Decodable(m, vals.Keys * allowed)
      invariant forall f :: f in vals ==>
        vals[f] == if f in allowed && f in m.fields then Decode(TypeOf(f), m.fields[f]).value else current[f]
    {
      var f :| f in todo;
      var v := current[f];
      if f in allowed && f in m.fields {
        var decoded := Decode(TypeOf(f), m.fields[f]);
        if decoded.None? {
          return None;
        }
        v := decoded.value;
      }
      vals := vals[f := v];
      todo := todo - {f};
    }
    return Some(vals);
  }

  /** The columns of a new row: decoded where submitted, zero elsewhere. */
  method DecodeColumns(m: Mutation, k: Kind) returns (r: Option<map<Field, Val>>)
    ensures r.Some? <==> Decodable(m, Columns(k))
    ensures r.Some? ==> r.value == CreatedVals(m, k)
    ensures r.Some? <==> forall f :: f in m.fields && f in Fields(k) ==> Storable(f, m.fields[f])
    ensures r.Some? ==> forall f :: f in r.value <==> f in Fields(k)
    ensures r.Some? ==> forall f :: f in r.value ==>
              if f in m.fields then Means(f, m.fields[f], r.value[f]) else r.value[f] == Blank(f)
  {
    StorableAll(m, Columns(k));
    var vals: map<Field, Val> := map[];
    var all := Fields(k);
    for i := 0 to |all|
      invariant vals.Keys == AsSet(all[..i]) && Decodable(m, vals.Keys)
      invariant forall f :: f in vals ==>
                  vals[f] == if f in m.fields then Decode(TypeOf(f), m.fields[f]).value else Zero(TypeOf(f))
    {
      TakeSnoc(all, i);
      assert AsSet(all[..i + 1]) == AsSet(all[..i]) + {all[i]};
      var f := all[i];
      assert f in Columns(k);
      var v := Zero(TypeOf(f));
      if f in m.fields {
        var decoded := Decode(TypeOf(f), m.fields[f]);
        if decoded.None? {
          return None;
        }
        v := decoded.value;
      }
      vals := vals[f := v];
    }
    assert all[..|all|] == all;
    CreatedColumns(m, k);
    return Some(vals);
  }

  /** The columns whose values differ. */
  method DiffColumns(k: Kind, before: map<Field, Val>, after: map<Field, Val>) returns (changed: seq<Field>)
    requires before.Keys == Columns(k) && after.Keys == Columns(k)
    ensures AsSet(changed) == ChangedFields(before, after)
  {
    changed := [];
    var all := Fields(k);
    for i := 0 to |all|
      invariant forall f :: f in changed <==> f in all[..i] && before[f] != after[f]
    {
      TakeSnoc(all, i);
      if before[all[i]] != after[all[i]] {
        changed := changed + [all[i]];
      }
    }
    assert all[..|all|] == all;
  }

  class Tables {
    var rows: map<Key, Row>
    var fv: map<FieldKey, int>
    var ledger: map<string, LedgerRow>
    var log: seq<ConflictRow>
    var counter: int
    const defs: set<string>

    function View(): Db
      reads this
    {
      Db(rows, fv, ledger, log, counter, defs)
    }

    ghost predicate Valid()
      reads this
    {
      Sound(View()) && ForestRows(rows)
    }

    constructor (defs: set<string>)
      ensures Valid() && View() == Empty(defs)
    {
      this.defs := defs;
      rows, fv, ledger, log, counter := map[], map[], map[], [], 0;
      new;
      EmptyForest(defs);
    }

    method AllocChangeSeq() returns (n: int)
      modifies this`counter
      ensures n == counter == old(counter) + 1
    {
      counter := counter + 1;
      n := counter;
    }

    method InsertRow(key: Key, owner: string, vals: map<Field, Val>, code: string)
      modifies this`rows, this`counter
      ensures View() == Insert(old(View()), key, owner, vals, code)
    {
      var n := AllocChangeSeq();
      rows := rows[key := Row(owner, 1, true, vals, n, code)];
    }

    method UpdateRow(key: Key, vals: map<Field, Val>, changeSeq: int)
      requires key in rows
      modifies this`rows
      ensures var row := old(rows)[key];
              rows == old(rows)[key := row.(version := row.version + 1, vals := vals, changeSeq := changeSeq)]
    {
      var row := rows[key];
      rows := rows[key := row.(version := row.version + 1, vals := vals, changeSeq := changeSeq)];
    }

    method RecordFieldVersions(key: Key, version: int, changed: seq<Field>)
      modifies this`fv
      ensures fv == Recorded(old(fv), key, AsSet(changed), version)
    {
      for i := 0 to |changed|
        invariant fv == Recorded(old(fv), key, AsSet(changed[..i]), version)
      {
        TakeSnoc(changed, i);
        RecordedOneMore(old(fv), key, AsSet(changed[..i]), changed[i], version);
        assert AsSet(changed[..i + 1]) == AsSet(changed[..i]) + {changed[i]};
        fv := fv[FieldKey(key, changed[i]) := version];
      }
      assert changed[..|changed|] == changed;
    }

    /** Write a row's columns and record the versions of the fields that changed. */
    method UpdateTracked(key: Key, vals: map<Field, Val>)
      requires key in rows && rows[key].vals.Keys == Columns(key.kind) && vals.Keys == Columns(key.kind)
      modifies this`rows, this`counter, this`fv
      ensures View() == Update(old(View()), key, vals)
    {
      var before := rows[key];
      var n := AllocChangeSeq();
      UpdateRow(key, vals, n);
      var changed := DiffColumns(key.kind, before.vals, vals);
      ghost var fields := ChangedFields(before.vals, vals);
      RecordFieldVersions(key, before.version + 1, changed);
      assert fv == Recorded(old(fv), key, fields, before.version + 1);
      assert rows == Update(old(View()), key, vals).rows;
    }

    /** Split a stale mutation's fields; the order of the conflicts is the sorted one. */
    method SplitStale(m: Mutation) returns (conflict: seq<Field>, apply: set<Field>)
      requires m.target.Table? && KnownFields(m, m.target.kind)
      ensures conflict == Keep(Names(m.target.kind), ConflictSet(View(), m))
      ensures apply == m.fields.Keys - ConflictSet(View(), m)
    {
      var k := m.target.kind;
      var names := Sorted(k, m.fields.Keys);
      var c, a := FieldLevelMergePolicy(fv, m.TheKey(), m.base, names);
      PolicySplit(View(), m, names, c, a);
      if k.CustomField? {
        ghost var c0, a0 := c, a;
        c, a := ValueUnionRule(m.fields, c, a);
        UnionSplit(View(), m, c0, a0, c, a);
      }
      conflict, apply := c, set f | f in a;
    }

    /** Look for a live label of that name, other than one. */
    method LabelNamed(name: string, except: string) returns (found: bool)
      ensures found <==> LabelNameTaken(View(), name, except)
    {
      var todo := rows.Keys;
      while todo != {}
        invariant todo <= rows.Keys
        invariant forall key :: key in rows && key !in todo ==>
          !(key.kind.Label? && key.id != except && rows[key].live && Text(rows[key].vals, Name) == name)
      {
        var key :| key in todo;
        if key.kind.Label? && key.id != except && rows[key].live && Text(rows[key].vals, Name) == name {
          return true;
        }
        todo := todo - {key};
      }
      return false;
    }

    /** Look for a live item with that short code. */
    method ItemCoded(code: string) returns (found: bool)
      ensures found <==> CodeTaken(View(), code)
    {
      var todo := rows.Keys;
      while todo != {}
        invariant todo <= rows.Keys
        invariant forall key :: key in rows && key !in todo ==>
                    !(key.kind.Item? && rows[key].live && rows[key].code == code)
      {
        var key :| key in todo;
        if key.kind.Item? && rows[key].live && rows[key].code == code {
          return true;
        }
        todo := todo - {key};
      }
      return false;
    }

    /** The checks made before a row is inserted, as conflict fields. */
    method CheckCreate(k: Kind, owner: string, vals: map<Field, Val>) returns (clash: seq<Field>)
      ensures clash == CreateGuard(View(), k, owner, vals)
    {
      match k
      case Item => return [];
      case Location =>
        var parent := Key(Location, Text(vals, ParentId));
        return if parent.id == "" || (parent in rows && rows[parent].live) then [] else [ParentId];
      case Label =>
        var taken := LabelNamed(Text(vals, Name), "");
        return if taken then [Name] else [];
      case _ =>
        var item := Key(Item, owner);
        return if item in rows && rows[item].live then [] else [ItemId];
    }

    /** The checks `UpdateLocation` and `UpdateLabel` make before writing, as conflict fields. */
    method CheckUpdate(k: Kind, id: string, vals: map<Field, Val>) returns (clash: seq<Field>)
      requires Valid()
      ensures clash == UpdateGuard(View(), k, id, vals)
    {
      if k.Location? && Text(vals, ParentId) != "" {
        if !Live(View(), Key(Location, Text(vals, ParentId))) {
          return [ParentId];
        }
        var parents := ParentsOf(rows);
        var edges := LocationIds(rows);
        EdgeCount(rows);
        var check := MoveCreatesCycle(parents, |edges|, id, Text(vals, ParentId));
        return if check.Cycle? then [ParentId] else [];
      }
      if k.Label? {
        var taken := LabelNamed(Text(vals, Name), id);
        return if taken then [Name] else [];
      }
      return [];
    }

    /** The draw-and-insert loop of an item create. */
    method InsertItem(m: Mutation, vals: map<Field, Val>, code: string) returns (r: Result)
      requires m.target == Table(Item)
      modifies this`rows, this`counter
      ensures Answers(if !ConstraintsHold(old(View()), Item, vals) then Fail(ConstraintViolation)
                      else Done(Insert(old(View()), m.TheKey(), "", vals, code), Accepted(m, 1, [], map[])), View(), r)
    {
      if !ConstraintsHold(View(), Item, vals) {
        return Err(ConstraintViolation);
      }
      InsertRow(m.TheKey(), "", vals, code);
      return Ok(Accepted(m, 1, [], map[]));
    }

    method CreateItemRow(m: Mutation, vals: map<Field, Val>) returns (r: Result)
      requires m.target == Table(Item)
      modifies this`rows, this`counter
      ensures Answers(CreateItem(old(View()), m, vals, 0), View(), r)
    {
      var attempt := 0;
      CreateItemStep(View(), m, vals, attempt);
      while attempt < MAX_CODE_ATTEMPTS
        invariant 0 <= attempt <= MAX_CODE_ATTEMPTS
        invariant View() == old(View()).(counter := old(counter) + attempt)
        invariant CreateItem(View(), m, vals, attempt) == CreateItem(old(View()), m, vals, 0)
      {
        CreateItemStep(View(), m, vals, attempt);
        var code := m.Code(attempt);
        var taken := ItemCoded(code);
        if taken {
          var n := AllocChangeSeq();
        } else {
          r := InsertItem(m, vals, code);
          return;
        }
        attempt := attempt + 1;
      }
      CreateItemStep(View(), m, vals, attempt);
      return Ok(Refused(m, [ShortCode]));
    }

    method CreateEntity(m: Mutation, owner: string) returns (r: Result)
      requires m.target.Table? && !m.target.kind.Stock?
      modifies this`rows, this`counter
      ensures Answers(PushCreate(old(View()), m, owner), View(), r)
    {
      var k := m.target.kind;
      if m.TheKey() in rows {
        return Ok(Refused(m, [Entity]));
      }
      var decoded := DecodeColumns(m, k);
      if decoded.None? {
        return Err(InvalidFieldValue);
      }
      var vals := decoded.value;
      if k.Item? {
        r := CreateItemRow(m, vals);
        return;
      }
      var clash := CheckCreate(k, owner, vals);
      if clash != [] {
        return Ok(Refused(m, clash));
      }
      if !ConstraintsHold(View(), k, vals) {
        return Err(ConstraintViolation);
      }
      InsertRow(m.TheKey(), owner, vals, "");
      return Ok(Accepted(m, 1, [], map[]));
    }

    method UpdateEntity(m: Mutation, owner: string) returns (r: Result)
      requires Valid() && m.target.Table? && !m.target.kind.Stock? && KnownFields(m, m.target.kind)
      modifies this`rows, this`counter, this`fv
      ensures Answers(PushUpdate(old(View()), m, owner), View(), r)
    {
      var k, key := m.target.kind, m.TheKey();
      if !Live(View(), key) || rows[key].owner != owner {
        return Ok(Refused(m, [Entity]));
      }
      var current := rows[key];
      var allowed, conflict := m.fields.Keys, [];
      var snapshots := map[];
      if current.version != m.base {
        conflict, allowed := SplitStale(m);
        snapshots := Snapshots(current.vals, conflict);
        if allowed == {} {
          return Ok(Refused(m, conflict).(snapshots := snapshots));
        }
      }
      assert allowed == ApplySet(View(), m, current.version) && conflict == Conflicts(View(), m, current.version);
      assert snapshots == Snapshots(current.vals, conflict);
      var merged := MergeColumns(m, current.vals, allowed);
      if merged.None? {
        return Err(InvalidFieldValue);
      }
      var vals := merged.value;
      assert SoundAt(View(), key);
      MergedTyped(k, m, current.vals, allowed);
      r := FinishUpdate(m, vals, conflict, snapshots);
    }

    /** The checks, the write and the answer of an update whose columns are merged. */
    method FinishUpdate(m: Mutation, vals: map<Field, Val>, conflict: seq<Field>, snapshots: map<Field, Json>)
      returns (r: Result)
      requires Valid() && m.target.Table? && m.TheKey() in rows && vals.Keys == Columns(m.target.kind)
      modifies this`rows, this`counter, this`fv
      ensures Answers(UpdateAnswer(old(View()), m, vals, conflict, snapshots), View(), r)
    {
      var k, key := m.target.kind, m.TheKey();
      var version := rows[key].version;
      assert SoundAt(View(), key);
      var clash := CheckUpdate(k, m.entityId, vals);
      if clash != [] {
        return Ok(Refused(m, clash + conflict));
      }
      if !ConstraintsHold(View(), k, vals) {
        return Err(ConstraintViolation);
      }
      UpdateTracked(key, vals);
      return Ok(Accepted(m, version + 1, conflict, snapshots));
    }

    method PushRow(m: Mutation) returns (r: Result)
      requires Valid() && m.target.Table? && !m.target.kind.Stock?
      modifies this`rows, this`counter, this`fv
      ensures Answers(PushEntity(old(View()), m), View(), r)
    {
      var k := m.target.kind;
      if !KnownFields(m, k) {
        return Err(UnknownField);
      }
      if Satellite(k) {
        if ItemId !in m.fields {
          return Err(MissingField);
        }
        if Decode(TString, m.fields[ItemId]).None? {
          return Err(InvalidFieldValue);
        }
      }
      if m.base == 0 {
        r := CreateEntity(m, Owner(m));
      } else {
        r := UpdateEntity(m, Owner(m));
      }
    }

    method AdjustItem(id: string, item: string, delta: int, reason: string, note: string)
      requires Valid() && Key(Item, item) in rows && IsInt64(delta)
      modifies this`rows, this`counter, this`fv
      ensures View() == Adjust(old(View()), id, item, delta, reason, note)
    {
      var key := Key(Item, item);
      var before := rows[key];
      var quantity := Add64(Number64(before.vals, Quantity), delta);
      assert SoundAt(View(), key);
      QuantityTyped(before.vals, quantity);
      UpdateTracked(key, before.vals[Quantity := Int(quantity)]);
      rows := rows[Key(Stock, id) := Row(item, 1, true, StockVals(delta, reason, note, quantity), counter, "")];
    }

    method PushAdjustment(m: Mutation) returns (r: Result)
      requires Valid() && m.target == Table(Stock)
      modifies this`rows, this`counter, this`fv
      ensures Answers(PushStock(old(View()), m), View(), r)
    {
      if m.base != 0 {
        return Err(CreationOnly);
      }
      if !KnownFields(m, Stock) {
        return Err(UnknownField);
      }
      if ItemId !in m.fields {
        return Err(MissingField);
      }
      if Decode(TString, m.fields[ItemId]).None? {
        return Err(InvalidFieldValue);
      }
      if m.TheKey() in rows {
        return Ok(Refused(m, [Entity]));
      }
      var decoded := DecodeColumns(m, Stock);
      if decoded.None? {
        return Err(InvalidFieldValue);
      }
      var vals := decoded.value;
      if !Live(View(), Key(Item, Owner(m))) {
        return Ok(Refused(m, [ItemId]));
      }
      AdjustItem(m.entityId, Owner(m), Number64(vals, Delta), Text(vals, Reason), Text(vals, Note));
      return Ok(Accepted(m, 1, [], map[]));
    }

    /** Ledger row and conflict rows of an answered mutation. */
    method RecordAnswer(m: Mutation, o: Outcome)
      requires m.target.Table?
      modifies this`ledger, this`log
      ensures View() == Record(old(View()), m, o)
    {
      ledger := ledger[m.id := LedgerRow(m.target.kind, o.entityId, o.applied)];
      for i := 0 to |o.conflicts|
        invariant ledger == old(ledger)[m.id := LedgerRow(m.target.kind, o.entityId, o.applied)]
        invariant log == old(log) + LogRows(m, o, o.conflicts[..i])
      {
        log := log + [LogRow(m, o, o.conflicts[i])];
        assert LogRows(m, o, o.conflicts[..i + 1]) == LogRows(m, o, o.conflicts[..i]) + [LogRow(m, o, o.conflicts[i])];
      }
      assert o.conflicts[..|o.conflicts|] == o.conflicts;
    }

    method Dispatch(m: Mutation) returns (r: Result)
      requires Valid()
      modifies this`rows, this`counter, this`fv
      ensures Answers(Handle(old(View()), m), View(), r)
    {
      if m.op.Delete? {
        return Err(DeleteNotSupported);
      }
      if m.op.OtherOp? {
        return Err(UnknownOp);
      }
      match m.target {
        case Attachment => return Err(AttachmentRejected);
        case UnknownType => return Err(UnknownEntityType);
        case Table(k) =>
          if k.Stock? {
            r := PushAdjustment(m);
          } else {
            r := PushRow(m);
          }
      }
    }

    /** One mutation in one transaction. */
    method ApplyMutation(m: Mutation) returns (r: Result)
      requires Valid()
      modifies this
      ensures Valid() && Answer(View(), r) == Apply(old(View()), m)
    {
      ghost var after := Apply(View(), m).db;
      PushStaysValid(View(), m);
      r := Transact(m);
      assert View() == after;
    }

    /** On error every table is put back. */
    method Transact(m: Mutation) returns (r: Result)
      requires Valid()
      modifies this
      ensures Answer(View(), r) == Apply(old(View()), m)
    {
      if Invalid(m).Some? {
        return Err(Invalid(m).value);
      }
      var saved := View();
      if m.id in ledger {
        return Ok(Skip(m));
      }
      r := Dispatch(m);
      match r {
        case Err(_) =>
          rows, fv, ledger, log, counter := saved.rows, saved.fv, saved.ledger, saved.log, saved.counter;
        case Ok(o) =>
          RecordAnswer(m, o);
      }
    }

    // ----- The other write paths -----

    /** A create inserts one row at version 1 under the next sequence number and keeps all others;
        it is refused, with nothing changed, exactly when the id is empty or taken, the columns do
        not fit the table, or the table objects. */
    method CreateRow(k: Kind, id: string, owner: string, vals: map<Field, Val>, code: string) returns (ok: bool)
      requires Valid()
      modifies this`rows, this`counter
      ensures Valid() && View() == StepCreate(old(View()), k, id, owner, vals, code)
      ensures ok <==> && id != "" && Key(k, id) !in old(rows) && !k.Stock? && WellTyped(k, vals)
                      && (Satellite(k) || owner == "") && NoObjection(old(rows), defs, k, owner, vals, code)
      ensures ok ==> && counter == old(counter) + 1
                     && rows == old(rows)[Key(k, id) :=
                                          Row(owner, 1, true, vals, counter, if k.Item? then code else "")]
      ensures !ok ==> View() == old(View())
    {
      StaysValid(View(), Create(k, id, owner, vals, code));
      if !k.Stock? {
        ObjectionsExact(View(), k, owner, vals, code);
      }
      var key := Key(k, id);
      if id == "" || k.Stock? || key in rows || !WellTyped(k, vals) || (!Satellite(k) && owner != "") {
        return false;
      }
      if k.Item? {
        var taken := ItemCoded(code);
        if taken {
          return false;
        }
      }
      var clash := CheckCreate(k, owner, vals);
      if clash != [] || !ConstraintsHold(View(), k, vals) {
        return false;
      }
      InsertRow(key, owner, vals, if k.Item? then code else "");
      return true;
    }

    /** Optimistic update: the caller names the version it read.  It is refused, with nothing
        changed, exactly when there is no live row of that owner at that version, the columns do
        not fit the table, or the table objects; else this one row takes the columns at its next
        version and sequence number, the changed ones are tracked, and all else is kept. */
    method EditRow(k: Kind, id: string, owner: string, vals: map<Field, Val>, expected: int) returns (ok: bool)
      requires Valid()
      modifies this`rows, this`counter, this`fv
      ensures Valid() && View() == StepEdit(old(View()), k, id, owner, vals, expected)
      ensures ok <==> EditAccepted(old(View()), k, id, owner, vals, expected)
      ensures if ok then EditedExactly(old(View()), View(), Key(k, id), vals) else View() == old(View())
    {
      ghost var before, after := View(), StepEdit(View(), k, id, owner, vals, expected);
      EditStaysValid(before, k, id, owner, vals, expected);
      ok := MayEdit(k, id, owner, vals, expected);
      if ok {
        EditExact(before, Key(k, id), vals);
        UpdateTracked(Key(k, id), vals);
      }
      assert View() == after;
    }

    method MayEdit(k: Kind, id: string, owner: string, vals: map<Field, Val>, expected: int) returns (ok: bool)
      requires Valid()
      ensures ok <==> EditAccepted(View(), k, id, owner, vals, expected)
      ensures StepEdit(View(), k, id, owner, vals, expected) == if ok then Update(View(), Key(k, id), vals) else View()
      ensures ok ==> rows[Key(k, id)].vals.Keys == Columns(k) && vals.Keys == Columns(k)
    {
      EditObjectionsExact(View(), k, id, vals);
      var key := Key(k, id);
      if k.Stock? || key !in rows || !rows[key].live || rows[key].owner != owner || !WellTyped(k, vals) {
        return false;
      }
      if rows[key].version != expected {
        return false;
      }
      var clash := CheckUpdate(k, id, vals);
      assert SoundAt(View(), key);
      return clash == [] && ConstraintsHold(View(), k, vals);
    }

    /** Tombstone the live rows among `keys` under one sequence number. */
    method TombstoneAll(keys: set<Key>, n: int)
      modifies this`rows
      ensures rows == Tombstone(old(View()).(counter := n - 1), keys).rows
    {
      ghost var before := rows;
      var todo := rows.Keys;
      while todo != {}
        invariant todo <= before.Keys == rows.Keys
        invariant forall x :: x in todo ==> rows[x] == before[x]
        invariant forall x :: x in before && x !in todo ==>
          rows[x] == if x in keys && before[x].live
                     then before[x].(version := before[x].version + 1, live := false, changeSeq := n) else before[x]
      {
        var x :| x in todo;
        var row := rows[x];
        if x in keys && row.live {
          rows := rows[x := row.(version := row.version + 1, live := false, changeSeq := n)];
        }
        todo := todo - {x};
      }
    }

    /** Tombstone a row; an item takes its live identifications and custom fields with it.  All
        rows that die do so under one sequence number, and no other row changes. */
    method DeleteRow(k: Kind, id: string, owner: string) returns (ok: bool)
      requires Valid()
      modifies this`rows, this`counter
      ensures Valid() && View() == StepRemove(old(View()), k, id, owner)
      ensures ok <==> && !k.Stock? && !k.Location? && Key(k, id) in old(rows) && old(rows)[Key(k, id)].live
                      && old(rows)[Key(k, id)].owner == owner
      ensures if ok then RemovedExactly(old(View()), View(), k, id) else View() == old(View())
    {
      ghost var before, after := View(), StepRemove(View(), k, id, owner);
      RemoveStaysValid(before, k, id, owner);
      var key := Key(k, id);
      if k.Stock? || k.Location? || key !in rows || !rows[key].live || rows[key].owner != owner {
        return false;
      }
      BuryWithSatellites(k, id);
      assert View() == after;
      return true;
    }

    method BuryWithSatellites(k: Kind, id: string)
      modifies this`rows, this`counter
      ensures View() == Tombstone(old(View()), {Key(k, id)} + if k.Item? then SatellitesOf(old(View()), id) else {})
      ensures RemovedExactly(old(View()), View(), k, id)
    {
      ghost var before := View();
      var keys := {Key(k, id)} + if k.Item? then SatellitesOf(View(), id) else {};
      var n := AllocChangeSeq();
      TombstoneAll(keys, n);
      RemovalExact(before, k, id, keys);
    }

    /** Tombstone the location and move what it holds, under one sequence number. */
    method RelocateAll(id: string, to: string, n: int)
      modifies this`rows
      ensures rows == map key | key in old(rows) :: Relocated(old(rows)[key], key, id, to, n)
    {
      ghost var before := rows;
      var todo := rows.Keys;
      while todo != {}
        invariant todo <= before.Keys == rows.Keys
        invariant forall x :: x in todo ==> rows[x] == before[x]
        invariant forall x :: x in before && x !in todo ==> rows[x] == Relocated(before[x], x, id, to, n)
      {
        var x :| x in todo;
        rows := rows[x := Relocated(rows[x], x, id, to, n)];
        todo := todo - {x};
      }
    }

    /** Whether a location may be deleted: it is live and holds nothing, or what it holds can move. */
    method MayDelete(id: string, reassign: bool, to: string) returns (ok: bool)
      requires Valid()
      ensures ok <==> RemovalAccepted(View(), id, reassign, to)
    {
      if id == "" || (!reassign && to != "") || !Live(View(), Key(Location, id)) {
        return false;
      }
      if !reassign {
        return Held(View(), id) == {};
      }
      if to == "" {
        return true;
      }
      if !Live(View(), Key(Location, to)) {
        return false;
      }
      EdgeCount(rows);
      var check := MoveCreatesCycle(ParentsOf(rows), |LocationIds(rows)|, id, to);
      return !check.Cycle?;
    }

    /** Delete a location: refuse while it holds anything, or move what it holds first.  The
        location becomes a tombstone, the live items and locations directly in it go to the target
        or the root and are otherwise as before, and no other row changes; a refusal changes
        nothing. */
    method DeleteLocation(id: string, reassign: bool, to: string) returns (ok: bool)
      requires Valid()
      modifies this`rows, this`counter
      ensures Valid() && View() == StepRemoveLocation(old(View()), id, reassign, to)
      ensures ok <==> && id != "" && Key(Location, id) in old(rows) && old(rows)[Key(Location, id)].live
                      && (if !reassign then to == "" && forall x :: x in old(rows) ==> !DirectlyIn(x, old(rows)[x], id)
                          else if to == "" then true
                          else && Key(Location, to) in old(rows) && old(rows)[Key(Location, to)].live
                               && !Reaches(ParentsOf(old(rows)), to, id))
      ensures ok ==> counter == old(counter) + 1 && rows.Keys == old(rows).Keys
      ensures ok ==> forall x :: x in old(rows) ==>
                var row := old(rows)[x];
                if x == Key(Location, id) then
                  rows[x] == row.(version := row.version + 1, live := false, changeSeq := counter)
                else if !DirectlyIn(x, row, id) then rows[x] == row
                else
                  && rows[x] == row.(version := row.version + 1, vals := rows[x].vals, changeSeq := counter)
                  && rows[x].vals == row.vals[(if x.kind.Item? then LocationId else ParentId) := Str(to)]
      ensures !ok ==> View() == old(View())
    {
      ghost var before := View();
      ok := MayDelete(id, reassign, to);
      DirectlyInExact(View(), id);
      if ok {
        var n := AllocChangeSeq();
        RelocateAll(id, to, n);
        assert rows == StepRemoveLocation(before, id, reassign, to).rows;
      }
      assert View() == StepRemoveLocation(before, id, reassign, to);
      RemovalStaysValid(before, id, reassign, to);
    }

    /** One posting with its four columns, the item's new quantity, and nothing else; refused, with
        nothing changed, exactly when the id is empty or taken, the item is not live or the delta is
        no 64-bit integer. */
    method CreateAdjustment(id: string, item: string, delta: int, reason: string, note: string) returns (ok: bool)
      requires Valid()
      modifies this`rows, this`counter, this`fv
      ensures Valid() && View() == StepAdjust(old(View()), id, item, delta, reason, note)
      ensures ok <==> && id != "" && IsInt64(delta) && Key(Stock, id) !in old(rows)
                      && Key(Item, item) in old(rows) && old(rows)[Key(Item, item)].live
      ensures ok ==> Posted(old(View()), View(), id, item, delta, reason, note)
      ensures !ok ==> View() == old(View())
    {
      ghost var before := View();
      ok := id != "" && IsInt64(delta) && Key(Stock, id) !in rows && Live(View(), Key(Item, item));
      if ok {
        AdjustPosts(before, id, item, delta, reason, note);
        AdjustItem(id, item, delta, reason, note);
      }
      AdjustStaysValid(before, id, item, delta, reason, note);
    }

    /** Note one mutation's outcome in the answer. */
    static method NoteOutcome(b: BatchResult, m: Mutation, o: Outcome) returns (r: BatchResult)
      ensures NotedIn(b, m, o, r)
    {
      r := b;
      if o.skipped {
        r := b.(skipped := b.skipped + [m.id]);
        return;
      }
      if o.applied {
        r := r.(applied := r.applied + [AppliedEntry(m.id, o.entityId, o.version)]);
      }
      ghost var noted := r;
      for j := 0 to |o.conflicts|
        invariant r == noted.(conflicts := r.conflicts)
        invariant |r.conflicts| == |b.conflicts| + j && b.conflicts <= r.conflicts
        invariant forall i :: 0 <= i < j ==>
                    r.conflicts[|b.conflicts| + i] == ConflictEntry(m.id, o.entityId, o.conflicts[i])
      {
        r := r.(conflicts := r.conflicts + [ConflictEntry(m.id, o.entityId, o.conflicts[j])]);
      }
    }

    /** Push a batch in order, stopping at the first error.  The answer reports each mutation's
        outcome in order: replays as skipped, the others as applied or not and with all their
        conflicts. */
    method PushBatch(ms: seq<Mutation>)
      returns (failedAt: Option<nat>, result: BatchResult, ghost lengths: seq<Lengths>)
      requires Valid()
      modifies this
      ensures Valid() && View() == ApplyAll(old(View()), ms)
      ensures failedAt.None? <==> Succeeds(old(View()), ms)
      ensures failedAt.Some? ==>
                && failedAt.value < |ms| && Succeeds(old(View()), ms[..failedAt.value])
                && View() == ApplyAll(old(View()), ms[..failedAt.value])
                && Apply(View(), ms[failedAt.value]).result.Err?
      ensures failedAt.None? ==> Reported(old(View()), ms, |ms|, result, lengths) && result.watermark == counter
      ensures failedAt.None? ==> ConflictsReported(old(View()), ms, |ms|, result)
    {
      result := BatchResult([], [], [], 0);
      lengths := [Lengths(0, 0, 0)];
      for i := 0 to |ms|
        invariant Valid()
        invariant Succeeds(old(View()), ms[..i]) && View() == ApplyAll(old(View()), ms[..i])
        invariant Reported(old(View()), ms, i, result, lengths) && ConflictsReported(old(View()), ms, i, result)
      {
        ghost var a := Apply(View(), ms[i]);
        var r := ApplyMutation(ms[i]);
        BatchStep(old(View()), ms, i);
        if r.Err? {
          return Some(i), BatchResult([], [], [], 0), lengths;
        }
        var noted := NoteOutcome(result, ms[i], r.outcome);
        OneMoreReported(old(View()), ms, i, result, lengths, noted);
        result := noted;
        lengths := lengths + [Lengths(|noted.applied|, |noted.skipped|, |noted.conflicts|)];
      }
      assert ms[..|ms|] == ms;
      ghost var b := result;
      result := result.(watermark := counter);
      assert forall i: nat :: i < |ms| ==> ReportedAt(old(View()), ms, i, b, lengths[i], lengths[i + 1]);
      return None, result, lengths;
    }
  }

  /** An outcome names the entity the mutation names. */
  lemma OutcomeNames(db: Db, m: Mutation)
    requires Apply(db, m).result.Ok?
    ensures Apply(db, m).result.outcome.entityId == m.entityId
  {
    if Invalid(m).None? && m.id !in db.ledger && m.op.Upsert? && m.target == Table(Item) && m.base == 0
       && Decodable(m, Columns(Item)) {
      DrawNames(db, m, CreatedVals(m, Item), 0);
    }
  }

  lemma {:induction false} DrawNames(db: Db, m: Mutation, vals: map<Field, Val>, attempt: nat)
    requires m.target == Table(Item)
    ensures var h := CreateItem(db, m, vals, attempt); h.Done? ==> h.outcome.entityId == m.entityId
    decreases MAX_CODE_ATTEMPTS - attempt
  {
    if attempt < MAX_CODE_ATTEMPTS && CodeTaken(db, m.Code(attempt)) {
      DrawNames(db.(counter := db.counter + 1), m, vals, attempt + 1);
    }
  }

  /** One outcome added to the lists of an answer. */
  ghost predicate NotedIn(b: BatchResult, m: Mutation, o: Outcome, r: BatchResult) {
    if o.skipped then r == b.(skipped := b.skipped + [m.id])
    else
      && r.skipped == b.skipped && r.watermark == b.watermark
      && r.applied == b.applied + (if o.applied then [AppliedEntry(m.id, o.entityId, o.version)] else [])
      && |r.conflicts| == |b.conflicts| + |o.conflicts| && b.conflicts <= r.conflicts
      && forall j :: 0 <= j < |o.conflicts| ==>
           r.conflicts[|b.conflicts| + j] == ConflictEntry(m.id, o.entityId, o.conflicts[j])
  }

  /** One more outcome noted. */
  lemma OneMoreReported(db: Db, ms: seq<Mutation>, i: nat, b: BatchResult, lengths: seq<Lengths>, r: BatchResult)
    requires i < |ms| && Reported(db, ms, i, b, lengths) && ConflictsReported(db, ms, i, b)
    requires Apply(ApplyAll(db, ms[..i]), ms[i]).result.Ok?
    requires var m, o := ms[i], Apply(ApplyAll(db, ms[..i]), ms[i]).result.outcome; NotedIn(b, m, o, r)
    ensures Reported(db, ms, i + 1, r, lengths + [Lengths(|r.applied|, |r.skipped|, |r.conflicts|)])
    ensures ConflictsReported(db, ms, i + 1, r)
  {
    OutcomeNames(ApplyAll(db, ms[..i]), ms[i]);
    var lengths' := lengths + [Lengths(|r.applied|, |r.skipped|, |r.conflicts|)];
    forall k: nat | k < i + 1 ensures ReportedAt(db, ms, k, r, lengths'[k], lengths'[k + 1]) {
      if k < i {
        assert ReportedAt(db, ms, k, b, lengths[k], lengths[k + 1]);
        ReportStays(db, ms, k, b, r, lengths[k], lengths[k + 1]);
      }
    }
    MoreConflicts(db, ms, i, b, r);
  }

  /** Lists that grow keep what they report. */
  lemma ReportStays(db: Db, ms: seq<Mutation>, k: nat, b: BatchResult, r: BatchResult, before: Lengths, after: Lengths)
    requires ReportedAt(db, ms, k, b, before, after)
    requires b.applied <= r.applied && b.skipped <= r.skipped && b.conflicts <= r.conflicts
    ensures ReportedAt(db, ms, k, r, before, after)
  {
  }

  lemma MoreConflicts(db: Db, ms: seq<Mutation>, i: nat, b: BatchResult, r: BatchResult)
    requires i < |ms| && ConflictsReported(db, ms, i, b) && Apply(ApplyAll(db, ms[..i]), ms[i]).result.Ok?
    requires NotedIn(b, ms[i], Apply(ApplyAll(db, ms[..i]), ms[i]).result.outcome, r)
    requires Apply(ApplyAll(db, ms[..i]), ms[i]).result.outcome.entityId == ms[i].entityId
    ensures ConflictsReported(db, ms, i + 1, r)
  {
    var o := Apply(ApplyAll(db, ms[..i]), ms[i]).result.outcome;
    forall e ensures e in r.conflicts <==> exists k: nat :: k < i + 1 && ConflictsIn(db, ms, k, e) {
      if e in r.conflicts {
        var x :| 0 <= x < |r.conflicts| && r.conflicts[x] == e;
        if x < |b.conflicts| {
          assert e in b.conflicts;
        } else {
          assert o.conflicts[x - |b.conflicts|] in o.conflicts;
          assert ConflictsIn(db, ms, i, e);
        }
      }
      if ConflictsIn(db, ms, i, e) {
        var j :| 0 <= j < |o.conflicts| && o.conflicts[j] == e.field;
        assert r.conflicts[|b.conflicts| + j] == e;
      }
      if e in b.conflicts {
        var x :| 0 <= x < |b.conflicts| && b.conflicts[x] == e;
        assert r.conflicts[x] == e;
      }
    }
  }

  /** What becomes of an update whose columns are merged. */
  ghost function UpdateAnswer(db: Db, m: Mutation, vals: map<Field, Val>, conflict: seq<Field>,
                              snapshots: map<Field, Json>): Handled
    requires m.target.Table? && m.TheKey() in db.rows
  {
    var k, key := m.target.kind, m.TheKey();
    if UpdateGuard(db, k, m.entityId, vals) != []
    then Done(db, Refused(m, UpdateGuard(db, k, m.entityId, vals) + conflict))
    else if !ConstraintsHold(db, k, vals) then Fail(ConstraintViolation)
    else Done(Update(db, key, vals), Accepted(m, db.rows[key].version + 1, conflict, snapshots))
  }

  /** No event spoils the tables. */
  lemma StaysValid(db: Db, e: Event)
    requires Sound(db) && ForestRows(db.rows)
    ensures Sound(Step(db, e)) && ForestRows(Step(db, e).rows)
  {
    StepAdvances(db, e);
    StepForest(db, e);
  }

  /** There is a live row of that owner at that version, the columns fit the table, and nothing
      in the tables stands against them. */
  ghost predicate EditAccepted(db: Db, k: Kind, id: string, owner: string, vals: map<Field, Val>, expected: int) {
    && !k.Stock? && Key(k, id) in db.rows
    && var row := db.rows[Key(k, id)];
       && row.live && row.owner == owner && row.version == expected
       && WellTyped(k, vals) && NoObjectionToEdit(db.rows, db.defs, k, id, vals)
  }

  /** The row takes the columns at its next version and the next sequence number, the changed ones
      are tracked at that version, and every other row, with its tracked versions, is kept. */
  ghost predicate EditedExactly(db: Db, db': Db, key: Key, vals: map<Field, Val>) {
    && key in db.rows && db'.counter == db.counter + 1
    && db'.rows == db.rows[key := db.rows[key].(version := db.rows[key].version + 1, vals := vals,
                                                changeSeq := db'.counter)]
    && ChangesTracked(db, db', key) && OthersKept(db, db', {key})
    && db'.ledger == db.ledger && db'.log == db.log
  }

  lemma EditExact(db: Db, key: Key, vals: map<Field, Val>)
    requires key in db.rows
    ensures EditedExactly(db, Update(db, key, vals), key, vals)
  {
    UpdateTracks(db, key, vals);
  }

  lemma EditStaysValid(db: Db, k: Kind, id: string, owner: string, vals: map<Field, Val>, expected: int)
    requires Sound(db) && ForestRows(db.rows)
    ensures var db' := StepEdit(db, k, id, owner, vals, expected); Sound(db') && ForestRows(db'.rows)
  {
    StaysValid(db, Edit(k, id, owner, vals, expected));
  }

  lemma RemoveStaysValid(db: Db, k: Kind, id: string, owner: string)
    requires Sound(db) && ForestRows(db.rows)
    ensures var db' := StepRemove(db, k, id, owner); Sound(db') && ForestRows(db'.rows)
  {
    StaysValid(db, Remove(k, id, owner));
  }

  /** The row, and with an item its identifications and custom fields, die as far as they live, at
      their next version and under one sequence number; no other row changes. */
  ghost predicate RemovedExactly(db: Db, db': Db, k: Kind, id: string) {
    && db'.counter == db.counter + 1 && db'.rows.Keys == db.rows.Keys
    && (forall x :: x in db.rows ==>
          var row := db.rows[x];
          db'.rows[x] == if row.live && (x == Key(k, id) || (k.Item? && HangsOff(x, row, id)))
                         then row.(version := row.version + 1, live := false, changeSeq := db'.counter) else row)
    && db'.fv == db.fv && db'.ledger == db.ledger && db'.log == db.log
  }

  lemma RemovalExact(db: Db, k: Kind, id: string, keys: set<Key>)
    requires keys == {Key(k, id)} + if k.Item? then SatellitesOf(db, id) else {}
    ensures RemovedExactly(db, Tombstone(db, keys), k, id)
  {
    forall x | x in db.rows ensures x in keys <==> x == Key(k, id) || (k.Item? && HangsOff(x, db.rows[x], id)) {
    }
  }

  lemma PushStaysValid(db: Db, m: Mutation)
    requires Sound(db) && ForestRows(db.rows)
    ensures Sound(Apply(db, m).db) && ForestRows(Apply(db, m).db.rows)
  {
    ApplyAdvances(db, m, PushOne(m));
    PushForest(db, m);
  }

  lemma AdjustStaysValid(db: Db, id: string, item: string, delta: int, reason: string, note: string)
    requires Sound(db) && ForestRows(db.rows)
    ensures var db' := StepAdjust(db, id, item, delta, reason, note); Sound(db') && ForestRows(db'.rows)
  {
    if id != "" && IsInt64(delta) && Key(Stock, id) !in db.rows && Live(db, Key(Item, item)) {
      AdjustAdvances(db, id, item, delta, reason, note, AdjustStock(id, item, delta, reason, note));
    }
    AdjustStepForest(db, id, item, delta, reason, note);
  }

  lemma RemovalStaysValid(db: Db, id: string, reassign: bool, to: string)
    requires Sound(db) && ForestRows(db.rows)
    ensures var db' := StepRemoveLocation(db, id, reassign, to); Sound(db') && ForestRows(db'.rows)
  {
    RelocateAdvances(db, id, reassign, to);
    RemovalForest(db, id, reassign, to);
  }

  /** Nothing in the tables stands against a new row, table by table. */
  predicate NoObjection(rows: map<Key, Row>, defs: set<string>, k: Kind, owner: string, vals: map<Field, Val>,
                        code: string) {
    match k
    case Item =>
      && (forall x :: x in rows && x.kind.Item? && rows[x].live ==> rows[x].code != code)
      && (Text(vals, LocationId) == "" || Key(Location, Text(vals, LocationId)) in rows)
    case Location =>
      var parent := Key(Location, Text(vals, ParentId));
      parent.id == "" || (parent in rows && rows[parent].live)
    case Label => forall x :: x in rows && x.kind.Label? && rows[x].live ==>
                    Text(rows[x].vals, Name) != Text(vals, Name)
    case Identification =>
      Key(Item, owner) in rows && rows[Key(Item, owner)].live
        && Text(vals, IdKind) in {"serial", "model", "asset_tag", "barcode", "other"}
    case CustomField =>
      && Key(Item, owner) in rows && rows[Key(Item, owner)].live
      && Text(vals, FieldType) in {"text", "number", "boolean", "date"}
      && (Text(vals, FieldDefId) == "" || Text(vals, FieldDefId) in defs)
    case Stock => false
  }

  /** Nothing in the tables stands against new columns of a row, table by table. */
  ghost predicate NoObjectionToEdit(rows: map<Key, Row>, defs: set<string>, k: Kind, id: string, vals: map<Field,
                                    Val>) {
    match k
    case Item => Text(vals, LocationId) == "" || Key(Location, Text(vals, LocationId)) in rows
    case Location =>
      var parent := Text(vals, ParentId);
      parent == "" || (&& Key(Location, parent) in rows && rows[Key(Location, parent)].live
                       && !Reaches(ParentsOf(rows), parent, id))
    case Label => forall x :: x in rows && x.kind.Label? && rows[x].live && x.id != id ==>
                    Text(rows[x].vals, Name) != Text(vals, Name)
    case Identification => Text(vals, IdKind) in {"serial", "model", "asset_tag", "barcode", "other"}
    case CustomField =>
      && Text(vals, FieldType) in {"text", "number", "boolean", "date"}
      && (Text(vals, FieldDefId) == "" || Text(vals, FieldDefId) in defs)
    case Stock => false
  }

  lemma EditObjectionsExact(db: Db, k: Kind, id: string, vals: map<Field, Val>)
    ensures !k.Stock? ==> (NoObjectionToEdit(db.rows, db.defs, k, id, vals) <==>
                           UpdateGuard(db, k, id, vals) == [] && ConstraintsHold(db, k, vals))
  {
  }

  /** The import's write of an item's own columns: if the item is live, the columns fit and its
      location exists, this one row takes them; else nothing changes. */
  lemma ImportCoreExact(db: Db, id: string, vals: map<Field, Val>)
    ensures var key, db' := Key(Item, id), StepImport(db, id, vals);
            if key in db.rows && db.rows[key].live && WellTyped(Item, vals)
               && NoObjectionToEdit(db.rows, db.defs, Item, id, vals)
            then EditedExactly(db, db', key, vals) else db' == db
  {
    if Key(Item, id) in db.rows {
      EditExact(db, Key(Item, id), vals);
    }
  }

  /** An identification or custom field of the item. */
  predicate HangsOff(key: Key, row: Row, item: string) {
    (key.kind.Identification? || key.kind.CustomField?) && row.owner == item
  }

  /** A live item or location directly in a location. */
  predicate DirectlyIn(key: Key, row: Row, location: string) {
    row.live && ((key.kind.Item? && Text(row.vals, LocationId) == location)
                 || (key.kind.Location? && Text(row.vals, ParentId) == location))
  }

  lemma DirectlyInExact(db: Db, id: string)
    ensures forall x :: x in db.rows ==> (DirectlyIn(x, db.rows[x], id) <==> HeldBy(db.rows[x], x.kind, id))
    ensures Held(db, id) == {} <==> forall x :: x in db.rows ==> !DirectlyIn(x, db.rows[x], id)
  {
    if x :| x in db.rows && DirectlyIn(x, db.rows[x], id) {
      assert x in Held(db, id);
    }
  }

  lemma ObjectionsExact(db: Db, k: Kind, owner: string, vals: map<Field, Val>, code: string)
    requires Sound(db) && !k.Stock?
    ensures NoObjection(db.rows, db.defs, k, owner, vals, code) <==>
            !(k.Item? && CodeTaken(db, code)) && CreateGuard(db, k, owner, vals) == [] && ConstraintsHold(db, k, vals)
  {
    forall x | x in db.rows ensures x.id != "" {
      assert SoundAt(db, x);
    }
  }

  /** A handler's answer and the tables it leaves behind match the specification; after an
      error the tables are the transaction's to restore. */
  ghost predicate Answers(h: Handled, db: Db, r: Result) {
    h == match r case Ok(o) => Done(db, o) case Err(e) => Fail(e)
  }

  /** One round of the draw-and-insert loop. */
  lemma CreateItemStep(db: Db, m: Mutation, vals: map<Field, Val>, attempt: nat)
    requires m.target == Table(Item)
    ensures CreateItem(db, m, vals, attempt) ==
            if attempt >= MAX_CODE_ATTEMPTS then Done(db, Refused(m, [ShortCode]))
            else if CodeTaken(db, m.Code(attempt)) then CreateItem(db.(counter := db.counter + 1), m, vals, attempt + 1)
            else if !ConstraintsHold(db, Item, vals) then Fail(ConstraintViolation)
            else Done(Insert(db, m.TheKey(), "", vals, m.Code(attempt)), Accepted(m, 1, [], map[]))
  {
  }

  function StaleFields(db: Db, m: Mutation): set<Field>
    requires m.target.Table?
  {
    set f | f in m.fields && Stale(db, m.TheKey(), m.base, f)
  }

  /** The policy's two lists, in terms of the sorted names. */
  lemma PolicySplit(db: Db, m: Mutation, names: seq<Field>, c: seq<Field>, a: seq<Field>)
    requires m.target.Table? && KnownFields(m, m.target.kind)
    requires names == Keep(Names(m.target.kind), m.fields.Keys)
    requires var stale := set f |
               f in names && (if FieldKey(m.TheKey(), f) in db.fv then db.fv[FieldKey(m.TheKey(), f)] else 1) > m.base;
             c == Keep(names, stale) && a == Keep(names, (set f | f in names) - stale)
    ensures c == Keep(Names(m.target.kind), StaleFields(db, m))
    ensures (set f | f in c) == StaleFields(db, m) && (set f | f in a) == m.fields.Keys - StaleFields(db, m)
  {
    var k, stale := m.target.kind, StaleFields(db, m);
    KeepMembers(Names(k), m.fields.Keys);
    assert (set f | f in names) == m.fields.Keys;
    assert stale == set f |
      f in names && (if FieldKey(m.TheKey(), f) in db.fv then db.fv[FieldKey(m.TheKey(), f)] else 1) > m.base;
    KeepMembers(names, stale);
    KeepMembers(names, m.fields.Keys - stale);
    KeepKeep(Names(k), m.fields.Keys, stale);
    assert m.fields.Keys * stale == stale;
  }

  lemma UnionSplit(db: Db, m: Mutation, c0: seq<Field>, a0: seq<Field>, c: seq<Field>, a: seq<Field>)
    requires m.target == Table(CustomField)
    requires c0 == Keep(Names(CustomField), StaleFields(db, m))
    requires (set f | f in c0) == StaleFields(db, m) && (set f | f in a0) == m.fields.Keys - StaleFields(db, m)
    requires var lost, moved := (set f | f in c0), VALUE_UNION * m.fields.Keys;
             if lost * VALUE_UNION * m.fields.Keys == {} then c == c0 && a == a0
             else && c == Keep(Names(CustomField), lost + (set f | f in a0 && f in moved))
                  && a == Keep(a0, (set f | f in a0) - moved)
    ensures c == Keep(Names(CustomField), ConflictSet(db, m))
    ensures (set f | f in a) == m.fields.Keys - ConflictSet(db, m)
  {
    var stale, moved := StaleFields(db, m), VALUE_UNION * m.fields.Keys;
    assert stale * VALUE_UNION * m.fields.Keys == stale * VALUE_UNION;
    if stale * VALUE_UNION != {} {
      var all := set f | f in a0;
      KeepMembers(a0, all - moved);
      assert all == m.fields.Keys - stale;
      forall f ensures f in a0 <==> f in m.fields && f !in stale {
        assert f in a0 <==> f in all;
      }
      assert stale + (set f | f in a0 && f in moved) == stale + (m.fields.Keys * VALUE_UNION);
      assert (set f | f in a) == all - moved;
    }
  }

  lemma EdgeCount(rows: map<Key, Row>)
    ensures |ParentsOf(rows)| <= |LocationIds(rows)|
  {
    forall id | id in ParentsOf(rows) ensures id in LocationIds(rows) {
      ParentsOfAt(rows, id);
      assert Key(Location, id).id in LocationIds(rows);
    }
    SubsetCard(ParentsOf(rows).Keys, LocationIds(rows));
    assert |ParentsOf(rows).Keys| == |ParentsOf(rows)|;
  }

  /** Pushing a batch one mutation further. */
  lemma {:induction false} BatchStep(db: Db, ms: seq<Mutation>, i: nat)
    requires i < |ms| && Succeeds(db, ms[..i])
    ensures var a := Apply(ApplyAll(db, ms[..i]), ms[i]);
            && (a.result.Ok? ==> Succeeds(db, ms[..i + 1]) && ApplyAll(db, ms[..i + 1]) == a.db)
            && (a.result.Err? ==> !Succeeds(db, ms) && ApplyAll(db, ms) == ApplyAll(db, ms[..i]))
    decreases i
  {
    if i == 0 {
      assert ms[..1][1..] == [] && ms[..0] == [] && ms[..1][0] == ms[0];
      assert Succeeds(Apply(db, ms[0]).db, []);
    } else {
      assert ms[..i][0] == ms[0] && ms[..i][1..] == ms[1..][..i - 1];
      assert ms[..i + 1][0] == ms[0] && ms[..i + 1][1..] == ms[1..][..i];
      BatchStep(Apply(db, ms[0]).db, ms[1..], i - 1);
    }
  }
}
