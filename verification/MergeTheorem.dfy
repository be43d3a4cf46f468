/** Over every run from an empty group: a stale push loses a field exactly when a later write
    changed that field, and a reader's watermark misses no write. */
module MergeTheorem {
  import opened Wire
  import opened Forest
  import opened Database
  import opened Push
  import opened Runs
  import PushLaws

  /** Step `i` of a run changed column `f` of an existing row and left the row at a version
      after `base`. */
  ghost predicate ChangedAt(ts: seq<Db>, i: nat, key: Key, f: Field, base: int)
    requires i + 1 < |ts|
  {
    && key in ts[i].rows && key in ts[i + 1].rows && ts[i + 1].rows[key].version > base
    && Column(ts[i], key, f) != Column(ts[i + 1], key, f)
  }

  /** Some write after version `base` changed the column. */
  ghost predicate ChangedSince(ts: seq<Db>, key: Key, f: Field, base: int) {
    exists i: nat :: i + 1 < |ts| && ChangedAt(ts, i, key, f, base)
  }

  /** Among the first `n` steps, some write after version `base`, other than a location deletion
      moving the row, changed the column. */
  ghost predicate RecordedSince(ts: seq<Db>, es: seq<Event>, n: nat, key: Key, f: Field, base: int)
    requires n <= |es| && |ts| == |es| + 1
  {
    exists i: nat :: i < n && ChangedAt(ts, i, key, f, base) && !Silent(es[i], key, f)
  }

  lemma EmptySound(defs: set<string>)
    ensures Sound(Empty(defs))
  {
  }

  /** What the steps of a run do to one column, seen alone. */
  ghost predicate ColumnTrace(ts: seq<Db>, es: seq<Event>, key: Key, f: Field) {
    && |ts| == |es| + 1 && ts[0].fv == map[]
    && forall i :: 0 <= i < |es| ==> ColumnStep(ts[i], ts[i + 1], es[i], key, f)
  }

  ghost predicate ColumnStep(db: Db, db': Db, e: Event, key: Key, f: Field) {
    RowStep(db, db', key) && FieldStep(db, db', key, f, Silent(e, key, f)) && SoundVersion(db, FieldKey(key, f))
  }

  lemma ColumnTraceOf(ts: seq<Db>, es: seq<Event>, key: Key, f: Field)
    requires Advancing(ts, es) && ts[0].fv == map[]
    ensures ColumnTrace(ts, es, key, f)
  {
    forall i | 0 <= i < |es| ensures ColumnStep(ts[i], ts[i + 1], es[i], key, f) {
      assert Sound(ts[i]) && Advances(ts[i], ts[i + 1], es[i]);
    }
  }

  /** The tracked version of a field exceeds `base` exactly when a recorded write after `base`
      changed the field. */
  lemma {:induction false} TrackedVersionExact(ts: seq<Db>, es: seq<Event>, n: nat, key: Key, f: Field, base: int)
    requires ColumnTrace(ts, es, key, f) && n <= |es| && 1 <= base
    ensures FieldVersion(ts[n], key, f) > base <==> RecordedSince(ts, es, n, key, f, base)
  {
    if n != 0 {
      var db, db' := ts[n - 1], ts[n];
      TrackedVersionExact(ts, es, n - 1, key, f, base);
      assert ColumnStep(db, db', es[n - 1], key, f);
      var changed := ChangedAt(ts, n - 1, key, f, base) && !Silent(es[n - 1], key, f);
      assert RecordedSince(ts, es, n, key, f, base) <==> RecordedSince(ts, es, n - 1, key, f, base) || changed;
    }
  }

  // ----- Where the tracking has a gap -----

  /** The event deletes the location that holds the row and moves the row elsewhere. */
  ghost predicate MovesRow(db: Db, e: Event, key: Key) {
    && e.RemoveLocation? && RemovalAccepted(db, e.id, e.reassign, e.to)
    && key in db.rows && HeldBy(db.rows[key], key.kind, e.id) && key != Key(Location, e.id)
  }

  /** Such a deletion met the row at version `base` or later. */
  ghost predicate MovedSince(ts: seq<Db>, es: seq<Event>, key: Key, base: int)
    requires |ts| == |es| + 1
  {
    exists i: nat :: i < |es| && MovesRow(ts[i], es[i], key) && ts[i].rows[key].version >= base
  }

  /** The column that says where an item or a location is. */
  predicate IsPlace(key: Key, f: Field) { (key.kind.Item? || key.kind.Location?) && f == PlaceField(key.kind) }

  /** A location deletion changes a placement column exactly when it is accepted and the deleted
      location holds the row. */
  lemma SilentChangeGuard(db: Db, e: Event, key: Key, f: Field)
    requires Sound(db) && Silent(e, key, f) && key in db.rows
    ensures Column(Step(db, e), key, f) != Column(db, key, f) <==> MovesRow(db, e, key)
  {
    if RemovalAccepted(db, e.id, e.reassign, e.to) {
      AcceptedMoves(db, e.id, e.reassign, e.to, key);
    }
  }

  /** An accepted deletion changes the placement of what the location holds, and of nothing else. */
  lemma AcceptedMoves(db: Db, id: string, reassign: bool, to: string, key: Key)
    requires Sound(db) && RemovalAccepted(db, id, reassign, to) && key in db.rows
    requires key.kind.Item? || key.kind.Location?
    ensures var moved := Relocated(db.rows[key], key, id, to, db.counter + 1);
            var f := PlaceField(key.kind);
            (f in moved.vals <==> f in db.rows[key].vals) &&
            (f in moved.vals && moved.vals[f] != db.rows[key].vals[f] <==>
              HeldBy(db.rows[key], key.kind, id) && key != Key(Location, id))
  {
    assert SoundAt(db, key);
    ReachesStep(ParentsOf(db.rows), id, id);
  }

  /** Over a run: silent changes after the base version are the moves since then. */
  lemma SilentChanges(ts: seq<Db>, es: seq<Event>, key: Key, f: Field, base: int)
    requires IsRun(ts, es) && Advancing(ts, es)
    ensures (exists i: nat :: i < |es| && ChangedAt(ts, i, key, f, base) && Silent(es[i], key, f))
            <==> IsPlace(key, f) && MovedSince(ts, es, key, base)
  {
    forall i: nat | i < |es|
      ensures ChangedAt(ts, i, key, f, base) && Silent(es[i], key, f)
              <==> IsPlace(key, f) && MovesRow(ts[i], es[i], key) && ts[i].rows[key].version >= base
    {
      assert Sound(ts[i]) && RowStep(ts[i], ts[i + 1], key) by { assert Advances(ts[i], ts[i + 1], es[i]); }
      if Silent(es[i], key, f) && key in ts[i].rows {
        SilentChangeGuard(ts[i], es[i], key, f);
      }
    }
  }

  /** A run's changes are the recorded ones and the silent ones. */
  lemma ChangesSplit(ts: seq<Db>, es: seq<Event>, key: Key, f: Field, base: int)
    requires IsRun(ts, es) && Advancing(ts, es)
    ensures ChangedSince(ts, key, f, base) <==>
            RecordedSince(ts, es, |es|, key, f, base) || (IsPlace(key, f) && MovedSince(ts, es, key, base))
  {
    SilentChanges(ts, es, key, f, base);
    if ChangedSince(ts, key, f, base) {
      var i: nat :| i + 1 < |ts| && ChangedAt(ts, i, key, f, base);
      assert Silent(es[i], key, f) || !Silent(es[i], key, f);
    }
  }

  /** The gap, exactly.  For every run, row, column and base version, the tracked version tells
      whether the column changed since, unless a deletion of its location moved the row since
      the base version and no other change of the column was recorded since. */
  lemma SilentMoveExact(ts: seq<Db>, es: seq<Event>, defs: set<string>, key: Key, f: Field, base: int)
    requires IsRun(ts, es) && ts[0] == Empty(defs) && 1 <= base
    ensures (FieldVersion(ts[|es|], key, f) > base <==> ChangedSince(ts, key, f, base))
            <==> (IsPlace(key, f) && MovedSince(ts, es, key, base) ==> RecordedSince(ts, es, |es|, key, f, base))
  {
    EmptySound(defs);
    RunAdvances(ts, es);
    ChangesSplit(ts, es, key, f, base);
    ColumnTraceOf(ts, es, key, f);
    TrackedVersionExact(ts, es, |es|, key, f, base);
  }

  lemma StaleExact(ts: seq<Db>, es: seq<Event>, key: Key, f: Field, base: int)
    requires IsRun(ts, es) && Advancing(ts, es) && ts[0].fv == map[] && 1 <= base
    requires IsPlace(key, f) ==> !MovedSince(ts, es, key, base)
    ensures Stale(ts[|es|], key, base, f) <==> ChangedSince(ts, key, f, base)
  {
    ChangesSplit(ts, es, key, f, base);
    ColumnTraceOf(ts, es, key, f);
    TrackedVersionExact(ts, es, |es|, key, f, base);
  }

  /** The merge theorem.  For every run and every stale push against its end state, a submitted
      field is in conflict exactly when a write after the push's base version changed that
      field; a member of the custom-field value union is in conflict exactly when such a write
      changed some submitted member of the union.  The one exception is the placement column of
      a row that a deletion of its location moved since the base version (SilentMoveExact). */
  lemma ConflictExactlyWhenChanged(ts: seq<Db>, es: seq<Event>, defs: set<string>, m: Mutation, f: Field)
    requires IsRun(ts, es) && ts[0] == Empty(defs)
    requires m.target.Table? && 1 <= m.base && f in m.fields
    requires IsPlace(m.TheKey(), f) ==> !MovedSince(ts, es, m.TheKey(), m.base)
    ensures f in ConflictSet(ts[|es|], m) <==>
            || ChangedSince(ts, m.TheKey(), f, m.base)
            || (&& m.target.kind.CustomField? && f in VALUE_UNION
                && exists g :: g in VALUE_UNION && g in m.fields && ChangedSince(ts, m.TheKey(), g, m.base))
  {
    EmptySound(defs);
    RunAdvances(ts, es);
    var db, key := ts[|es|], m.TheKey();
    StaleExact(ts, es, key, f, m.base);
    if m.target.kind.CustomField? {
      forall g ensures Stale(db, key, m.base, g) <==> ChangedSince(ts, key, g, m.base) {
        StaleExact(ts, es, key, g, m.base);
      }
      UnionConflict(db, m, f);
    }
  }

  /** The mutation meets its live row, and every field it submits has gone stale. */
  predicate NothingLeft(db: Db, m: Mutation)
    requires m.target.Table?
  {
    && KnownFields(m, m.target.kind) && (Satellite(m.target.kind) ==> ItemId in m.fields)
    && Live(db, m.TheKey()) && db.rows[m.TheKey()].owner == Owner(m)
    && db.rows[m.TheKey()].version != m.base && ApplySet(db, m, db.rows[m.TheKey()].version) == {}
  }

  /** The push of an update is answered by the merge: it is accepted, or nothing of it is left to
      apply. */
  ghost predicate Merges(db: Db, m: Mutation) {
    PushLaws.Updates(db, m) && Apply(db, m).result.Ok? && (Apply(db, m).result.outcome.applied || NothingLeft(db, m))
  }

  lemma AnswerConflicts(db: Db, m: Mutation)
    requires Merges(db, m)
    ensures m.TheKey() in db.rows && KnownFields(m, m.target.kind)
    ensures Apply(db, m).result.outcome.conflicts == Conflicts(db, m, db.rows[m.TheKey()].version)
  {
    if Apply(db, m).result.outcome.applied {
      PushLaws.AcceptedUpdate(db, m);
    } else {
      assert Handle(db, m) == PushUpdate(db, m, Owner(m));
    }
  }

  /** No field has moved beyond the version its row is at. */
  lemma FreshMeetsNone(db: Db, m: Mutation)
    requires Sound(db) && m.target.Table? && m.TheKey() in db.rows && 1 <= m.base
    requires db.rows[m.TheKey()].version == m.base
    ensures ConflictSet(db, m) == {}
  {
    forall f ensures !Stale(db, m.TheKey(), m.base, f) {
      assert SoundVersion(db, FieldKey(m.TheKey(), f));
    }
    var stale := set f | f in m.fields && Stale(db, m.TheKey(), m.base, f);
    assert stale == {} && stale * VALUE_UNION == {};
  }

  /** The merge theorem on the answer.  The conflicts that a push reports, when it is accepted or
      nothing of it is left to apply, are exactly the submitted fields changed since its base. */
  lemma AnswerExact(ts: seq<Db>, es: seq<Event>, defs: set<string>, m: Mutation, f: Field)
    requires IsRun(ts, es) && ts[0] == Empty(defs) && Merges(ts[|es|], m) && f in m.fields
    requires IsPlace(m.TheKey(), f) ==> !MovedSince(ts, es, m.TheKey(), m.base)
    ensures f in Apply(ts[|es|], m).result.outcome.conflicts <==>
            || ChangedSince(ts, m.TheKey(), f, m.base)
            || (&& m.target.kind.CustomField? && f in VALUE_UNION
                && exists g :: g in VALUE_UNION && g in m.fields && ChangedSince(ts, m.TheKey(), g, m.base))
  {
    var db := ts[|es|];
    AnswerConflicts(db, m);
    ConflictExactlyWhenChanged(ts, es, defs, m, f);
    if db.rows[m.TheKey()].version == m.base {
      EmptySound(defs);
      RunAdvances(ts, es);
      FreshMeetsNone(db, m);
    } else {
      KeepMembers(Names(m.target.kind), ConflictSet(db, m));
    }
  }

  /** The conflicts of a custom field push in terms of its stale fields. */
  lemma UnionConflict(db: Db, m: Mutation, f: Field)
    requires m.target == Table(CustomField) && f in m.fields
    ensures f in ConflictSet(db, m) <==>
            Stale(db, m.TheKey(), m.base, f)
            || (f in VALUE_UNION && exists g :: g in VALUE_UNION && g in m.fields && Stale(db, m.TheKey(), m.base, g))
  {
    var stale := set g | g in m.fields && Stale(db, m.TheKey(), m.base, g);
    if g :| g in VALUE_UNION && g in m.fields && Stale(db, m.TheKey(), m.base, g) {
      assert g in stale * VALUE_UNION;
    } else {
      assert stale * VALUE_UNION == {};
    }
  }

  /** A create with nothing to object to. */
  lemma CreateStep(db: Db, k: Kind, id: string, vals: map<Field, Val>, code: string)
    requires id != "" && !k.Stock? && Key(k, id) !in db.rows && WellTyped(k, vals)
    requires k.Item? ==> !CodeTaken(db, code)
    requires CreateGuard(db, k, "", vals) == [] && ConstraintsHold(db, k, vals)
    ensures Step(db, Create(k, id, "", vals, code)) == Insert(db, Key(k, id), "", vals, if k.Item? then code else "")
  {
  }

  /** Deleting a location takes an item it holds to the root, at the next version. */
  lemma RemovalMoves(db: Db, id: string, key: Key)
    requires id != "" && Live(db, Key(Location, id)) && key in db.rows && key.kind.Item?
    requires HeldBy(db.rows[key], Item, id)
    ensures var db' := Step(db, RemoveLocation(id, true, ""));
            && key in db'.rows && db'.rows[key].version == db.rows[key].version + 1
            && Column(db', key, LocationId) == Some(Str("")) && db'.fv == db.fv
  {
    assert RemovalAccepted(db, id, true, "");
  }

  lemma ThreeStepRun(a: Db, b: Db, c: Db, d: Db, x: Event, y: Event, z: Event)
    requires b == Step(a, x) && c == Step(b, y) && d == Step(c, z)
    ensures IsRun([a, b, c, d], [x, y, z])
  {
    var ts, es := [a, b, c, d], [x, y, z];
    forall i | 0 <= i < |es| ensures ts[i + 1] == Step(ts[i], es[i]) {
      if i == 0 { assert ts[i + 1] == b; } else if i == 1 { assert ts[i + 1] == c; } else { assert ts[i + 1] == d; }
    }
  }

  function LampVals(): (vals: map<Field, Val>)
    ensures WellTyped(Item, vals) && Text(vals, LocationId) == "a" && LocationId in vals
  {
    var vals := map[Name := Str("lamp"), Description := Str(""), LocationId := Str("a"), Quantity := Int(1)];
    assert vals.Keys == {Name, Description, LocationId, Quantity};
    vals
  }

  function AtticVals(): (vals: map<Field, Val>)
    ensures WellTyped(Location, vals) && Text(vals, ParentId) == ""
  {
    var vals := map[Name := Str("attic"), ParentId := Str("")];
    assert vals.Keys == {Name, ParentId};
    vals
  }

  /** The failing family is not empty: an item sits in a location, the location is deleted with
      its contents moved to the root, and a push based on version 1 that sets `location_id`
      meets no conflict although version 2 changed it. */
  lemma SilentMoveWitness() returns (ts: seq<Db>, es: seq<Event>, key: Key)
    ensures IsRun(ts, es) && ts[0] == Empty({}) && MovedSince(ts, es, key, 1)
    ensures ChangedSince(ts, key, LocationId, 1)
    ensures FieldVersion(ts[|es|], key, LocationId) == 1
  {
    key := Key(Item, "i");
    var x, y := Create(Location, "a", "", AtticVals(), ""), Create(Item, "i", "", LampVals(), "C1");
    var z := RemoveLocation("a", true, "");
    var db0 := Empty({});
    CreateStep(db0, Location, "a", AtticVals(), "");
    var db1 := Insert(db0, Key(Location, "a"), "", AtticVals(), "");
    CreateStep(db1, Item, "i", LampVals(), "C1");
    var db2 := Insert(db1, key, "", LampVals(), "C1");
    RemovalMoves(db2, "a", key);
    var db3 := Step(db2, z);
    ts, es := [db0, db1, db2, db3], [x, y, z];
    ThreeStepRun(db0, db1, db2, db3, x, y, z);
    assert ChangedAt(ts, 2, key, LocationId, 1);
    assert RemovalAccepted(ts[2], "a", true, "") && MovesRow(ts[2], es[2], key);
  }

  /** Watermark completeness, both ways: of all rows, exactly those written after the counter
      was read as `w` carry a change_seq above `w`. */
  lemma WatermarkComplete(ts: seq<Db>, es: seq<Event>, key: Key)
    requires IsRun(ts, es) && Sound(ts[0]) && key in ts[|es|].rows
    ensures var w, db := ts[0].counter, ts[|es|];
            && db.rows[key].changeSeq <= db.counter
            && (db.rows[key].changeSeq > w <==> key !in ts[0].rows || db.rows[key] != ts[0].rows[key])
  {
    RunAdvances(ts, es);
    WrittenAfter(ts, es, |es|, key);
    assert SoundAt(ts[0], key) && SoundAt(ts[|es|], key);
  }

  lemma {:induction false} WrittenAfter(ts: seq<Db>, es: seq<Event>, n: nat, key: Key)
    requires Advancing(ts, es) && n <= |es|
    ensures ts[0].counter <= ts[n].counter
    ensures key in ts[0].rows ==> key in ts[n].rows
    ensures key in ts[n].rows && !(key in ts[0].rows && ts[n].rows[key] == ts[0].rows[key]) ==>
            ts[0].counter < ts[n].rows[key].changeSeq
  {
    if n != 0 {
      WrittenAfter(ts, es, n - 1, key);
      assert Advances(ts[n - 1], ts[n], es[n - 1]);
      assert RowStep(ts[n - 1], ts[n], key);
    }
  }
}
