/** Edits of one item that touch different fields commute: pushed in any order from the same
    base version, all apply and the item ends with the same contents. */
module Convergence {
  import opened Wire
  import opened Database
  import opened Push
  import opened Runs

  /** A pushed edit of the item `key` whose fields nobody has written since `base`. */
  predicate Fits(db: Db, key: Key, base: int, m: Mutation) {
    && m.target == Table(Item) && m.TheKey() == key && m.base == base && m.op.Upsert?
    && Invalid(m).None? && m.id !in db.ledger
    && m.fields.Keys != {} && KnownFields(m, Item) && Decodable(m, Columns(Item))
    && (forall f :: f in m.fields ==> FieldVersion(db, key, f) <= base)
    && (LocationId in m.fields ==>
          var place := Decode(TString, m.fields[LocationId]).value.s;
          place == "" || Key(Location, place) in db.rows)
  }

  predicate Independent(s: set<Mutation>) {
    forall a, b :: a in s && b in s && a != b ==> a.id != b.id && a.fields.Keys !! b.fields.Keys
  }

  /** The item is live, its row satisfies the foreign key on location_id, and `s` is a set of
      independent edits of it. */
  ghost predicate Ready(db: Db, key: Key, base: int, s: set<Mutation>) {
    && Sound(db) && Live(db, key) && key.kind.Item? && 1 <= base
    && ConstraintsHold(db, Item, db.rows[key].vals)
    && (forall m :: m in s ==> Fits(db, key, base, m))
    && Independent(s)
  }

  /** `ms` lists the members of `s`, each once. */
  ghost predicate Arranges(ms: seq<Mutation>, s: set<Mutation>) {
    && (forall m :: m in s <==> m in ms)
    && (forall i, j :: 0 <= i < j < |ms| ==> ms[i] != ms[j])
  }

  /** The contents all edits of `s` together ask for, with no order among them. */
  ghost function Combined(vals: map<Field, Val>, s: set<Mutation>): map<Field, Val> {
    map f | f in vals ::
      if m :| m in s && f in m.fields && Decode(TypeOf(f), m.fields[f]).Some?
      then Decode(TypeOf(f), m.fields[f]).value
      else vals[f]
  }

  ghost predicate AllApplied(db: Db, ms: seq<Mutation>)
    decreases |ms|
  {
    ms == [] ||
    var a := Apply(db, ms[0]);
    && a.result.Ok? && a.result.outcome.applied && a.result.outcome.conflicts == []
    && AllApplied(a.db, ms[1..])
  }

  /** One edit of the set applies without conflict. */
  lemma EditApplies(db: Db, key: Key, base: int, s: set<Mutation>, m: Mutation)
    requires Ready(db, key, base, s) && m in s
    ensures var a, cur := Apply(db, m), db.rows[key];
            && Decodable(m, cur.vals.Keys * m.fields.Keys)
            && a.result.Ok? && a.result.outcome.applied && a.result.outcome.conflicts == []
            && a.db.rows == Update(db, key, MergedVals(m, cur.vals, m.fields.Keys)).rows
            && a.db.fv == Update(db, key, MergedVals(m, cur.vals, m.fields.Keys)).fv
            && a.db.ledger.Keys == db.ledger.Keys + {m.id}
  {
    var cur := db.rows[key];
    assert Fits(db, key, base, m);
    assert SoundAt(db, key);
    assert ConflictSet(db, m) == {};
    KeepNone(Names(Item));
    assert Conflicts(db, m, cur.version) == [];
    assert ApplySet(db, m, cur.version) == m.fields.Keys;
    var vals := MergedVals(m, cur.vals, m.fields.Keys);
    assert Text(vals, LocationId) ==
           if LocationId in m.fields then Decode(TString, m.fields[LocationId]).value.s else Text(cur.vals, LocationId);
  }

  /** The remaining edits still fit afterwards. */
  lemma RestStaysReady(db: Db, key: Key, base: int, s: set<Mutation>, m: Mutation)
    requires Ready(db, key, base, s) && m in s
    ensures Ready(Apply(db, m).db, key, base, s - {m})
  {
    EditApplies(db, key, base, s, m);
    ApplyAdvances(db, m, PushOne(m));
    assert Fits(db, key, base, m);
    var db1 := Apply(db, m).db;
    assert SoundAt(db, key);
    PlaceStaysValid(db, db1, m, db.rows[key].vals);
    forall m' | m' in s - {m} ensures Fits(db1, key, base, m') {
      assert Fits(db, key, base, m');
      OtherFits(db, db1, key, base, m, m');
    }
  }

  lemma PlaceStaysValid(db: Db, db1: Db, m: Mutation, vals: map<Field, Val>)
    requires WellTyped(Item, vals) && ConstraintsHold(db, Item, vals) && db.rows.Keys <= db1.rows.Keys
    requires Decodable(m, Columns(Item))
    requires LocationId in m.fields ==>
               var place := Decode(TString, m.fields[LocationId]).value.s;
               place == "" || Key(Location, place) in db.rows
    ensures ConstraintsHold(db1, Item, MergedVals(m, vals, m.fields.Keys))
  {
    assert Text(MergedVals(m, vals, m.fields.Keys), LocationId) ==
           if LocationId in m.fields then Decode(TString, m.fields[LocationId]).value.s else Text(vals, LocationId);
  }

  lemma OtherFits(db: Db, db1: Db, key: Key, base: int, m: Mutation, m': Mutation)
    requires Fits(db, key, base, m') && key in db.rows && m.id != m'.id && m.fields.Keys !! m'.fields.Keys
    requires Decodable(m, db.rows[key].vals.Keys * m.fields.Keys)
    requires db1.fv == Update(db, key, MergedVals(m, db.rows[key].vals, m.fields.Keys)).fv
    requires db.rows.Keys <= db1.rows.Keys && db1.ledger.Keys == db.ledger.Keys + {m.id}
    ensures Fits(db1, key, base, m')
  {
    var vals := MergedVals(m, db.rows[key].vals, m.fields.Keys);
    forall f | f in m'.fields ensures FieldVersion(db1, key, f) <= base {
      assert f !in m.fields;
      assert f !in ChangedFields(db.rows[key].vals, vals);
      assert FieldVersion(db1, key, f) == FieldVersion(db, key, f);
    }
  }

  /** Doing one edit first does not change what the set asks for. */
  lemma CombinedStep(vals: map<Field, Val>, s: set<Mutation>, m: Mutation)
    requires m in s && Independent(s) && vals.Keys <= Columns(Item)
    requires forall a :: a in s ==> Decodable(a, Columns(Item))
    ensures Decodable(m, vals.Keys * m.fields.Keys)
    ensures Combined(MergedVals(m, vals, m.fields.Keys), s - {m}) == Combined(vals, s)
  {
    assert Decodable(m, Columns(Item));
    var vals' := MergedVals(m, vals, m.fields.Keys);
    var l, r := Combined(vals', s - {m}), Combined(vals, s);
    forall f | f in vals ensures l[f] == r[f] {
      if f in m.fields {
        assert forall a :: a in s && f in a.fields ==> a == m;
        assert Decode(TypeOf(f), m.fields[f]).Some?;
      } else if a :| a in s && f in a.fields {
        assert Decodable(a, Columns(Item));
        assert forall b :: b in s && f in b.fields ==> b == a;
      }
    }
  }

  /** In whatever order the edits of `s` arrive, all apply without conflict, and the item ends
      with the combined contents, one version per edit later. */
  lemma {:induction false} EditsCombine(db: Db, key: Key, base: int, ms: seq<Mutation>, s: set<Mutation>)
    requires Ready(db, key, base, s) && Arranges(ms, s)
    ensures AllApplied(db, ms) && Succeeds(db, ms)
    ensures key in ApplyAll(db, ms).rows
    ensures ApplyAll(db, ms).rows[key].vals == Combined(db.rows[key].vals, s)
    ensures ApplyAll(db, ms).rows[key].version == db.rows[key].version + |ms|
    decreases |ms|
  {
    if ms == [] {
      assert s == {};
      assert Combined(db.rows[key].vals, s) == db.rows[key].vals;
    } else {
      var m := ms[0];
      assert m in s;
      EditApplies(db, key, base, s, m);
      RestStaysReady(db, key, base, s, m);
      assert SoundAt(db, key);
      forall a | a in s ensures Decodable(a, Columns(Item)) {
        assert Fits(db, key, base, a);
      }
      CombinedStep(db.rows[key].vals, s, m);
      TailArranges(ms, s);
      EditsCombine(Apply(db, m).db, key, base, ms[1..], s - {m});
    }
  }

  lemma TailArranges(ms: seq<Mutation>, s: set<Mutation>)
    requires Arranges(ms, s) && ms != []
    ensures Arranges(ms[1..], s - {ms[0]})
  {
    forall m ensures m in s - {ms[0]} <==> m in ms[1..] {
      if m in s && m != ms[0] {
        var i :| 0 <= i < |ms| && ms[i] == m;
        assert ms[1..][i - 1] == m;
      }
      if m in ms[1..] {
        var i :| 0 <= i < |ms[1..]| && ms[1..][i] == m;
        assert ms[i + 1] == m;
      }
    }
  }

  /** Order-independent convergence: two arrival orders of the same edits. */
  lemma OrderDoesNotMatter(db: Db, key: Key, base: int, s: set<Mutation>, ms: seq<Mutation>, ms': seq<Mutation>)
    requires Ready(db, key, base, s) && Arranges(ms, s) && Arranges(ms', s)
    ensures AllApplied(db, ms) && AllApplied(db, ms')
    ensures key in ApplyAll(db, ms).rows && key in ApplyAll(db, ms').rows
    ensures ApplyAll(db, ms).rows[key].vals == ApplyAll(db, ms').rows[key].vals
  {
    EditsCombine(db, key, base, ms, s);
    EditsCombine(db, key, base, ms', s);
  }
}
