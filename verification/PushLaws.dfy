/** Laws of the push protocol: nothing submitted is lost in a merge, mutations take effect
    exactly once, a stopped batch can be resumed, and independent edits commute. */
module PushLaws {
  import opened Wire
  import opened Database
  import opened Push
  import opened Runs

  // ----- Nothing is lost in a merge -----

  /** The mutation reaches the update of an existing row. */
  predicate Updates(db: Db, m: Mutation) {
    && Invalid(m).None? && m.id !in db.ledger && m.op.Upsert?
    && m.target.Table? && !m.target.kind.Stock? && 1 <= m.base
  }

  /** What an accepted update amounts to. */
  lemma AcceptedUpdate(db: Db, m: Mutation)
    requires Updates(db, m) && Apply(db, m).result.Ok? && Apply(db, m).result.outcome.applied
    ensures Live(db, m.TheKey()) && KnownFields(m, m.target.kind)
    ensures var cur := db.rows[m.TheKey()];
            var apply, conflicts := ApplySet(db, m, cur.version), Conflicts(db, m, cur.version);
            var o := Accepted(m, cur.version + 1, conflicts, Snapshots(cur.vals, conflicts));
            && Decodable(m, cur.vals.Keys * apply)
            && Apply(db, m) == Answer(Record(Update(db, m.TheKey(), MergedVals(m, cur.vals, apply)), m, o), Ok(o))
  {
    assert Handle(db, m) == PushUpdate(db, m, Owner(m));
  }

  /** Only stored columns can conflict: `item_id` is never tracked. */
  lemma ConflictIsColumn(db: Db, m: Mutation, f: Field)
    requires Sound(db) && m.target.Table? && 1 <= m.base
    requires m.TheKey() in db.rows && f in ConflictSet(db, m)
    ensures f in db.rows[m.TheKey()].vals && f in m.fields
  {
    assert SoundAt(db, m.TheKey()) && SoundVersion(db, FieldKey(m.TheKey(), f));
  }

  /** The conflict list and the applied fields split the submitted names. */
  lemma ConflictsPartition(db: Db, m: Mutation, version: int)
    requires m.target.Table? && KnownFields(m, m.target.kind) && version != m.base
    ensures forall f :: f in m.fields <==> f in Conflicts(db, m, version) || f in ApplySet(db, m, version)
    ensures forall f :: !(f in Conflicts(db, m, version) && f in ApplySet(db, m, version))
  {
    KeepMembers(Names(m.target.kind), ConflictSet(db, m));
  }

  /** An accepted update against a row that moved on.  The submitted names split into conflicts
      and applied fields; applied columns hold the pushed value, all others the server's; each
      conflict is logged with the pushed value and with a snapshot that decodes to the value
      the server kept. */
  lemma MergeLosesNothing(db: Db, m: Mutation)
    requires Sound(db) && Updates(db, m)
    requires Apply(db, m).result.Ok? && Apply(db, m).result.outcome.applied
    requires m.TheKey() in db.rows ==> db.rows[m.TheKey()].version != m.base
    ensures m.TheKey() in db.rows && m.TheKey() in Apply(db, m).db.rows
    ensures var cur, merged := db.rows[m.TheKey()], Apply(db, m).db.rows[m.TheKey()];
            var o, apply := Apply(db, m).result.outcome, ApplySet(db, m, cur.version);
            && (forall f :: f in m.fields <==> f in o.conflicts || f in apply)
            && (forall f :: !(f in o.conflicts && f in apply))
            && merged.vals.Keys == cur.vals.Keys
            && (forall f :: f in cur.vals ==>
                  merged.vals[f] == if f in apply then Decode(TypeOf(f), m.fields[f]).value else cur.vals[f])
    ensures var o, log := Apply(db, m).result.outcome, Apply(db, m).db.log;
            && |log| == |db.log| + |o.conflicts| && log[..|db.log|] == db.log
            && (forall i :: 0 <= i < |o.conflicts| ==>
                  LoggedWithBothValues(log[|db.log| + i], db.rows[m.TheKey()], m, o.conflicts[i]))
  {
    AcceptedUpdate(db, m);
    var cur := db.rows[m.TheKey()];
    ConflictsPartition(db, m, cur.version);
    var o := Apply(db, m).result.outcome;
    var log := Apply(db, m).db.log;
    forall i | 0 <= i < |o.conflicts| ensures LoggedWithBothValues(log[|db.log| + i], cur, m, o.conflicts[i]) {
      assert log[|db.log| + i] == LogRow(m, o, o.conflicts[i]);
      assert o.conflicts[i] in o.conflicts;
      KeepMembers(Names(m.target.kind), ConflictSet(db, m));
      ConflictLogged(db, m, o, o.conflicts[i]);
    }
  }

  lemma ConflictLogged(db: Db, m: Mutation, o: Outcome, f: Field)
    requires Sound(db) && m.target.Table? && 1 <= m.base && m.TheKey() in db.rows
    requires f in o.conflicts && f in ConflictSet(db, m)
    requires o.snapshots == Snapshots(db.rows[m.TheKey()].vals, o.conflicts) && o.entityId == m.entityId
    ensures LoggedWithBothValues(LogRow(m, o, f), db.rows[m.TheKey()], m, f)
  {
    ConflictIsColumn(db, m, f);
    var vals := db.rows[m.TheKey()].vals;
    assert Typed(TypeOf(f), vals[f]) by { assert SoundAt(db, m.TheKey()); }
    SnapshotDecodes(TypeOf(f), vals[f]);
    assert !f.Entity? by { assert SoundAt(db, m.TheKey()); }
  }

  predicate LoggedWithBothValues(row: ConflictRow, cur: Row, m: Mutation, f: Field) {
    && row.field == f && row.mutation == m.id && row.entityId == m.entityId
    && f in m.fields && row.losing == Some(m.fields[f])
    && f in cur.vals && row.server.Some? && Decode(TypeOf(f), row.server.value) == Some(cur.vals[f])
  }

  // ----- The custom-field value union -----

  /** Submitted members of the value union win or lose together. */
  lemma UnionGoesTogether(db: Db, m: Mutation)
    requires m.target == Table(CustomField)
    ensures VALUE_UNION * m.fields.Keys <= ConflictSet(db, m) || VALUE_UNION !! ConflictSet(db, m)
  {
    var stale := set f | f in m.fields && Stale(db, m.TheKey(), m.base, f);
    if f :| f in stale && f in VALUE_UNION {
      assert f in stale * VALUE_UNION;
      assert ConflictSet(db, m) == stale + (m.fields.Keys * VALUE_UNION);
    } else {
      assert stale * VALUE_UNION == {};
      assert ConflictSet(db, m) == stale;
    }
  }

  /** Exactly one value column is set, the one the type names. */
  predicate OneValue(vals: map<Field, Val>) {
    && FieldType in vals && TextValue in vals && NumberValue in vals && BoolValue in vals && DateValue in vals
    && match Text(vals, FieldType)
       case "text" => SetColumns(vals) == {TextValue}
       case "number" => SetColumns(vals) == {NumberValue}
       case "boolean" => SetColumns(vals) == {BoolValue}
       case "date" => SetColumns(vals) == {DateValue}
       case _ => false
  }

  function SetColumns(vals: map<Field, Val>): set<Field> {
    set f | f in vals && f in {TextValue, NumberValue, BoolValue, DateValue} && IsSet(vals[f])
  }

  predicate IsSet(v: Val) {
    match v
    case NullStr(o) => o.Some?
    case NullReal(o) => o.Some?
    case NullBool(o) => o.Some?
    case _ => true
  }

  /** The merge of a push that carries the whole union with one well-typed value keeps "one
      value column, matching the type", whether the union wins or loses. */
  lemma FullUnionKeepsOneValue(db: Db, m: Mutation, current: map<Field, Val>, version: int)
    requires m.target == Table(CustomField) && VALUE_UNION <= m.fields.Keys
    requires WellTyped(CustomField, current) && OneValue(current)
    requires Decodable(m, Columns(CustomField)) && OneValue(CreatedVals(m, CustomField))
    ensures OneValue(MergedVals(m, current, ApplySet(db, m, version)))
  {
    var apply := ApplySet(db, m, version);
    var merged, pushed := MergedVals(m, current, apply), CreatedVals(m, CustomField);
    UnionGoesTogether(db, m);
    if VALUE_UNION !! ConflictSet(db, m) || version == m.base {
      assert forall f :: f in VALUE_UNION ==> f in current && f in apply && merged[f] == pushed[f];
      SameUnion(merged, pushed);
    } else {
      assert forall f :: f in VALUE_UNION ==> f in current && merged[f] == current[f];
      SameUnion(merged, current);
    }
  }

  lemma SameUnion(a: map<Field, Val>, b: map<Field, Val>)
    requires forall f :: f in VALUE_UNION ==> f in a && f in b && a[f] == b[f]
    ensures OneValue(a) <==> OneValue(b)
  {
    assert FieldType in VALUE_UNION && TextValue in VALUE_UNION && NumberValue in VALUE_UNION
           && BoolValue in VALUE_UNION && DateValue in VALUE_UNION;
    assert SetColumns(a) == SetColumns(b);
  }

  // ----- Exactly once -----

  /** Every answered mutation is on the ledger, so replaying it, in whatever state the group has
      reached since, changes nothing; a failed one leaves no trace. */
  lemma AnsweredIsRecorded(db: Db, m: Mutation)
    ensures Apply(db, m).result.Ok? ==> m.id in Apply(db, m).db.ledger
    ensures Apply(db, m).result.Err? ==> Apply(db, m).db == db
  {
  }

  lemma LedgerGrowsByApply(db: Db, m: Mutation, id: string)
    requires id in db.ledger
    ensures id in Apply(db, m).db.ledger && Apply(db, m).db.ledger[id] == db.ledger[id]
  {
    if Invalid(m).None? && m.id !in db.ledger && m.op.Upsert? && m.target.Table? {
      HandleKeepsLedger(db, m);
    }
  }

  lemma HandleKeepsLedger(db: Db, m: Mutation)
    requires m.op.Upsert? && m.target.Table?
    ensures Handle(db, m).Done? ==> Handle(db, m).db.ledger == db.ledger && Handle(db, m).db.log == db.log
  {
    if !m.target.kind.Stock? && m.base == 0 && m.target.kind.Item? && Decodable(m, Columns(Item)) {
      CreateItemLedger(db, m, CreatedVals(m, Item), 0);
    }
  }

  /** No event takes a ledger row back. */
  lemma LedgerGrows(db: Db, e: Event, id: string)
    requires id in db.ledger
    ensures id in Step(db, e).ledger
  {
    if e.PushOne? {
      LedgerGrowsByApply(db, e.m, id);
    }
  }

  lemma {:induction false} LedgerGrowsOverRun(ts: seq<Db>, es: seq<Event>, n: nat, id: string)
    requires IsRun(ts, es) && n <= |es| && id in ts[0].ledger
    ensures id in ts[n].ledger
  {
    if n != 0 {
      LedgerGrowsOverRun(ts, es, n - 1, id);
      LedgerGrows(ts[n - 1], es[n - 1], id);
    }
  }

  /** Pushing mutations that are all on the ledger already is a no-op. */
  lemma {:induction false} ReplayIsIdle(db: Db, ms: seq<Mutation>, rest: seq<Mutation>)
    requires forall i :: 0 <= i < |ms| ==> Invalid(ms[i]).None? && ms[i].id in db.ledger
    ensures ApplyAll(db, ms + rest) == ApplyAll(db, rest)
    ensures Succeeds(db, ms + rest) <==> Succeeds(db, rest)
  {
    if ms == [] {
      assert ms + rest == rest;
    } else {
      assert (ms + rest)[0] == ms[0] && (ms + rest)[1..] == ms[1..] + rest;
      assert Apply(db, ms[0]) == Answer(db, Ok(Skip(ms[0])));
      ReplayIsIdle(db, ms[1..], rest);
    }
  }

  /** After a batch prefix succeeded, all its mutations are recorded. */
  lemma {:induction false} PrefixRecorded(db: Db, ms: seq<Mutation>, id: string)
    requires Succeeds(db, ms)
    ensures forall i :: 0 <= i < |ms| ==> Invalid(ms[i]).None? && ms[i].id in ApplyAll(db, ms).ledger
    ensures id in db.ledger ==> id in ApplyAll(db, ms).ledger
    decreases |ms|
  {
    if ms != [] {
      var db1 := Apply(db, ms[0]).db;
      AnsweredIsRecorded(db, ms[0]);
      if id in db.ledger {
        LedgerGrowsByApply(db, ms[0], id);
      }
      PrefixRecorded(db1, ms[1..], ms[0].id);
      PrefixRecorded(db1, ms[1..], id);
    }
  }

  /** Resumable push.  A batch that stopped after `i` mutations, pushed again in full after any
      other events in between, does exactly what the missing mutations alone would do. */
  lemma ResumeAfterAnything(db: Db, ms: seq<Mutation>, i: nat, ts: seq<Db>, es: seq<Event>)
    requires i <= |ms| && Succeeds(db, ms[..i])
    requires IsRun(ts, es) && ts[0] == ApplyAll(db, ms[..i])
    ensures ApplyAll(ts[|es|], ms) == ApplyAll(ts[|es|], ms[i..])
    ensures Succeeds(ts[|es|], ms) <==> Succeeds(ts[|es|], ms[i..])
  {
    forall j | 0 <= j < i ensures Invalid(ms[..i][j]).None? && ms[..i][j].id in ts[|es|].ledger {
      PrefixRecorded(db, ms[..i], "");
      LedgerGrowsOverRun(ts, es, |es|, ms[j].id);
    }
    assert ms == ms[..i] + ms[i..];
    ReplayIsIdle(ts[|es|], ms[..i], ms[i..]);
  }

  lemma {:induction false} ApplyAllSplit(db: Db, ms: seq<Mutation>, i: nat)
    requires i <= |ms| && Succeeds(db, ms[..i])
    ensures ApplyAll(db, ms) == ApplyAll(ApplyAll(db, ms[..i]), ms[i..])
    decreases i
  {
    if i != 0 {
      assert ms[..i][0] == ms[0] && ms[..i][1..] == ms[1..][..i - 1] && ms[1..][i - 1..] == ms[i..];
      ApplyAllSplit(Apply(db, ms[0]).db, ms[1..], i - 1);
    } else {
      assert ms[0..] == ms;
    }
  }

  /** In particular, stopping anywhere and pushing the batch again ends where one uninterrupted
      push ends. */
  lemma ResumeEqualsUninterrupted(db: Db, ms: seq<Mutation>, i: nat)
    requires i <= |ms| && Succeeds(db, ms[..i])
    ensures ApplyAll(ApplyAll(db, ms[..i]), ms) == ApplyAll(db, ms)
  {
    ResumeAfterAnything(db, ms, i, [ApplyAll(db, ms[..i])], []);
    ApplyAllSplit(db, ms, i);
  }
}
