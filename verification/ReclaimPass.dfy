/** One reclaim pass over a group, undisturbed: its loops, and exactly what they remove. */
module ReclaimPass {
  import opened Reclaim

  datatype Report = Report(filesRemoved: nat, rowsTombstoned: nat, thumbnailsCleared: nat)

  /** Files that stay: referenced ones, and young ones. */
  predicate Stays(files: map<Name, int>, referenced: set<Name>, now: int, n: Name) {
    n in files && (n in referenced || now - files[n] < HOUR)
  }

  function Remaining(files: map<Name, int>, referenced: set<Name>, now: int): map<Name, int> {
    map n | n in files && Stays(files, referenced, now, n) :: files[n]
  }

  /** A row after its files were looked at. */
  function Settled(files: map<Name, int>, id: nat, row: RowState): RowState {
    if !row.live then row
    else if Original(id) !in files then row.(live := false)
    else if row.thumb && Thumb(id) !in files then row.(thumb := false)
    else row
  }

  function SettledRows(files: map<Name, int>, rows: map<nat, RowState>): map<nat, RowState> {
    map id | id in rows :: Settled(files, id, rows[id])
  }

  /** The rows that were live and are not any more. */
  function Died(before: map<nat, RowState>, after: map<nat, RowState>): set<nat> {
    set id | id in before && id in after && before[id].live && !after[id].live
  }

  /** The rows that had a thumbnail and have none any more. */
  function Bared(before: map<nat, RowState>, after: map<nat, RowState>): set<nat> {
    set id | id in before && id in after && before[id].thumb && !after[id].thumb
  }

  lemma CountDied(start: map<nat, RowState>, before: map<nat, RowState>, id: nat, row: RowState)
    requires id in start && id in before && before[id] == start[id] && start[id].live
    ensures |Died(start, before[id := row])| == |Died(start, before)| + if row.live then 0 else 1
  {
    if row.live {
      assert Died(start, before[id := row]) == Died(start, before);
    } else {
      assert Died(start, before[id := row]) == Died(start, before) + {id};
    }
  }

  lemma CountBared(start: map<nat, RowState>, before: map<nat, RowState>, id: nat, row: RowState)
    requires id in start && id in before && before[id] == start[id] && (row.thumb ==> start[id].thumb)
    ensures |Bared(start, before[id := row])| == |Bared(start, before)| + if row.thumb == start[id].thumb then 0 else 1
  {
    if row.thumb == start[id].thumb {
      assert Bared(start, before[id := row]) == Bared(start, before);
    } else {
      assert Bared(start, before[id := row]) == Bared(start, before) + {id};
    }
  }

  class Group {
    var files: map<Name, int>
    var rows: map<nat, RowState>

    method ReclaimOrphanedFiles(referenced: set<Name>, now: int) returns (removed: nat)
      modifies this`files
      ensures files == Remaining(old(files), referenced, now)
      ensures forall n :: n in files <==>
                n in old(files) && (n in referenced || now - old(files)[n] < 3_600_000_000_000)
      ensures forall n :: n in files ==> files[n] == old(files)[n]
      ensures removed == |old(files)| - |files|
    {
      removed := 0;
      var entries := files.Keys;
      while entries != {}
        invariant entries <= old(files).Keys
        invariant files ==
                  map n | n in old(files) && (n in entries || Stays(old(files), referenced, now, n)) :: old(files)[n]
        invariant removed == |old(files)| - |files|
      {
        var name :| name in entries;
        entries := entries - {name};
        if name !in referenced && now - files[name] >= HOUR {
          FewerFiles(files, name);
          files := files - {name};
          removed := removed + 1;
        }
      }
    }

    method ReclaimRow(id: nat, report: Report) returns (r: Report)
      requires id in rows && rows[id].live
      modifies this`rows
      ensures rows == old(rows)[id := Settled(files, id, old(rows)[id])]
      ensures r.filesRemoved == report.filesRemoved
      ensures r.rowsTombstoned + r.thumbnailsCleared ==
              report.rowsTombstoned + report.thumbnailsCleared + if rows == old(rows) then 0 else 1
      ensures r.rowsTombstoned == report.rowsTombstoned + if rows[id].live then 0 else 1
      ensures r.thumbnailsCleared == report.thumbnailsCleared + if rows[id].thumb == old(rows)[id].thumb then 0 else 1
    {
      r := report;
      if Original(id) !in files {
        rows := rows[id := rows[id].(live := false)];
        r := r.(rowsTombstoned := r.rowsTombstoned + 1);
      } else if rows[id].thumb && Thumb(id) !in files {
        rows := rows[id := rows[id].(thumb := false)];
        r := r.(thumbnailsCleared := r.thumbnailsCleared + 1);
      } else {
        assert rows == rows[id := rows[id]];
      }
      assert rows != old(rows) <== rows[id] != old(rows)[id];
    }

    /** Look at every live row once. */
    method SettleRows(report: Report) returns (r: Report)
      modifies this`rows
      ensures rows == SettledRows(files, old(rows)) && r.filesRemoved == report.filesRemoved
      ensures r.rowsTombstoned == report.rowsTombstoned + |Died(old(rows), rows)|
      ensures r.thumbnailsCleared == report.thumbnailsCleared + |Bared(old(rows), rows)|
    {
      var live := set id | id in rows && rows[id].live;
      r := report;
      var todo := live;
      assert Died(rows, rows) == {} && Bared(rows, rows) == {};
      while todo != {}
        invariant todo <= live && r.filesRemoved == report.filesRemoved
        invariant rows ==
                  map id | id in old(rows) ::
                    if id in live && id !in todo then Settled(files, id, old(rows)[id]) else old(rows)[id]
        invariant r.rowsTombstoned == report.rowsTombstoned + |Died(old(rows), rows)|
        invariant r.thumbnailsCleared == report.thumbnailsCleared + |Bared(old(rows), rows)|
      {
        var id :| id in todo;
        todo := todo - {id};
        ghost var before := rows;
        r := ReclaimRow(id, r);
        CountDied(old(rows), before, id, rows[id]);
        CountBared(old(rows), before, id, rows[id]);
      }
    }

    /** One pass: of the files only those stay that a live row names or that are younger than an
        hour; a live row whose original is missing dies, one whose thumbnail is missing loses it,
        and all else is as before; and the report counts them. */
    method ReclaimGroup(now: int) returns (report: Report)
      modifies this
      ensures files == Remaining(old(files), Referenced(old(rows)), now)
      ensures rows == SettledRows(old(files), old(rows))
      ensures forall n :: n in files <==>
                n in old(files) && (LiveName(old(rows), n) || now - old(files)[n] < 3_600_000_000_000)
      ensures forall n :: n in files ==> files[n] == old(files)[n]
      ensures rows.Keys == old(rows).Keys
      ensures forall id :: id in rows ==>
                var row := old(rows)[id];
                && (rows[id].live <==> row.live && Original(id) in old(files))
                && (rows[id].thumb <==> row.thumb && (rows[id].live ==> Thumb(id) in old(files)))
      ensures report.filesRemoved == |old(files)| - |files|
      ensures report.rowsTombstoned == |Died(old(rows), rows)| && report.thumbnailsCleared == |Bared(old(rows), rows)|
    {
      var referenced := Referenced(rows);
      ReferencedExact(rows);
      var removed := ReclaimOrphanedFiles(referenced, now);
      report := SettleRows(Report(removed, 0, 0));
      forall id | id in old(rows) ensures rows[id] == Settled(old(files), id, old(rows)[id]) {
        ReferencedStay(old(files), old(rows), now, id);
      }
    }
  }

  lemma ReferencedExact(rows: map<nat, RowState>)
    ensures forall n :: n in Referenced(rows) <==> LiveName(rows, n)
  {
    forall n | LiveName(rows, n) ensures n in Referenced(rows) {
      assert n == Original(n.id) || n == Thumb(n.id);
    }
  }

  lemma FewerFiles(files: map<Name, int>, n: Name)
    requires n in files
    ensures |files - {n}| == |files| - 1
  {
    assert (files - {n}).Keys == files.Keys - {n};
    assert |files.Keys| == |files| && |(files - {n}).Keys| == |files - {n}|;
  }

  /** Removing orphans does not change what a live row finds. */
  lemma ReferencedStay(files: map<Name, int>, rows: map<nat, RowState>, now: int, id: nat)
    requires id in rows
    ensures Settled(Remaining(files, Referenced(rows), now), id, rows[id]) == Settled(files, id, rows[id])
  {
    if rows[id].live {
      assert LiveName(rows, Original(id)) && Original(id) in Referenced(rows);
      assert rows[id].thumb ==> LiveName(rows, Thumb(id)) && Thumb(id) in Referenced(rows);
    }
  }

  /** After a pass every live row's files are there, nothing that is left is both unreferenced
      and old unless its row has just gone, and rows are never revived. */
  lemma PassSettles(files: map<Name, int>, rows: map<nat, RowState>, now: int)
    ensures var files', rows' := Remaining(files, Referenced(rows), now), SettledRows(files, rows);
            && (forall n :: LiveName(rows', n) ==> n in files' && files'[n] == files[n])
            && (forall n :: n in files' && now - files'[n] >= HOUR ==> n in Referenced(rows))
            && (forall id :: id in rows && LiveRow(rows', id) ==> LiveRow(rows, id))
            && SettledRows(files', rows') == rows'
  {
    var files', rows' := Remaining(files, Referenced(rows), now), SettledRows(files, rows);
    forall n | LiveName(rows', n) ensures n in files' {
      assert LiveName(rows, n) && n in files;
      assert n in Referenced(rows);
    }
    forall id | id in rows' ensures Settled(files', id, rows'[id]) == rows'[id] {
      if rows'[id].live {
        assert LiveName(rows', Original(id));
        assert rows'[id].thumb ==> LiveName(rows', Thumb(id));
      }
    }
  }

  // ----- The pass is a run of the protocol -----

  /** From one state the steps lead to the other, each allowed and in time. */
  ghost predicate Leads(s: State, es: seq<Step>, s': State)
    decreases |es|
  {
    if es == [] then s' == s
    else Enabled(s, es[0]) && Timely(s, es[0], 0, 0) && Leads(Apply(s, es[0]), es[1..], s')
  }

  lemma {:induction false} LeadsOn(a: State, es: seq<Step>, b: State, fs: seq<Step>, c: State)
    requires Leads(a, es, b) && Leads(b, fs, c)
    ensures Leads(a, es + fs, c)
    decreases |es|
  {
    if es == [] {
      assert es + fs == fs;
    } else {
      LeadsOn(Apply(a, es[0]), es[1..], b, fs, c);
      assert (es + fs)[0] == es[0] && (es + fs)[1..] == es[1..] + fs;
    }
  }

  lemma TwoSteps(s: State, e: Step, f: Step)
    requires Enabled(s, e) && Timely(s, e, 0, 0) && Enabled(Apply(s, e), f) && Timely(Apply(s, e), f, 0, 0)
    ensures Leads(s, [e, f], Apply(Apply(s, e), f))
  {
    assert [e, f][1..] == [f] && [f][1..] == [];
    assert Leads(Apply(Apply(s, e), f), [], Apply(Apply(s, e), f));
    assert Leads(Apply(s, e), [f], Apply(Apply(s, e), f));
  }

  /** The pass has looked at these rows and references, just now. */
  predicate Looked(s: State, p: nat, referenced: set<Name>, rows: set<nat>, thumbs: set<nat>) {
    && p in s.passes && s.passes[p].snapAt == s.now && s.passes[p].referenced == referenced
    && s.passes[p].rows == rows && s.passes[p].thumbs == thumbs
  }

  lemma UnlinkAll(s: State, p: nat, referenced: set<Name>, rows: set<nat>, thumbs: set<nat>, todo: set<Name>)
    returns (es: seq<Step>, s': State)
    requires Looked(s, p, referenced, rows, thumbs)
    requires forall n :: n in todo ==> n in s.files && n !in referenced && s.now - s.files[n] >= HOUR
    ensures Leads(s, es, s') && Looked(s', p, referenced, rows, thumbs)
    ensures s'.now == s.now && s'.rows == s.rows && s'.files == s.files - todo
    decreases todo
  {
    if todo == {} {
      es, s' := [], s;
      assert s.files - todo == s.files;
    } else {
      var n :| n in todo;
      var t := Apply(Apply(s, Condemn(p, n)), Unlink(p, n));
      TwoSteps(s, Condemn(p, n), Unlink(p, n));
      var fs;
      fs, s' := UnlinkAll(t, p, referenced, rows, thumbs, todo - {n});
      LeadsOn(s, [Condemn(p, n), Unlink(p, n)], t, fs, s');
      es := [Condemn(p, n), Unlink(p, n)] + fs;
      assert s.files - todo == (s.files - {n}) - (todo - {n});
    }
  }

  lemma BuryAll(s: State, p: nat, referenced: set<Name>, rows: set<nat>, thumbs: set<nat>, todo: set<nat>)
    returns (es: seq<Step>, s': State)
    requires Looked(s, p, referenced, rows, thumbs) && todo <= rows
    requires forall id :: id in todo ==> Original(id) !in s.files && LiveRow(s.rows, id)
    ensures Leads(s, es, s') && Looked(s', p, referenced, rows, thumbs)
    ensures s'.now == s.now && s'.files == s.files
    ensures s'.rows == map id | id in s.rows :: if id in todo then s.rows[id].(live := false) else s.rows[id]
    decreases todo
  {
    if todo == {} {
      es, s' := [], s;
    } else {
      var id :| id in todo;
      var t := Apply(Apply(s, Miss(p, id)), Tombstone(p, id));
      TwoSteps(s, Miss(p, id), Tombstone(p, id));
      var fs;
      fs, s' := BuryAll(t, p, referenced, rows, thumbs, todo - {id});
      LeadsOn(s, [Miss(p, id), Tombstone(p, id)], t, fs, s');
      es := [Miss(p, id), Tombstone(p, id)] + fs;
    }
  }

  lemma ClearAll(s: State, p: nat, referenced: set<Name>, rows: set<nat>, thumbs: set<nat>, todo: set<nat>)
    returns (es: seq<Step>, s': State)
    requires Looked(s, p, referenced, rows, thumbs) && todo <= thumbs
    requires forall id :: id in todo ==> Thumb(id) !in s.files && LiveRow(s.rows, id)
    ensures Leads(s, es, s') && s'.now == s.now && s'.files == s.files
    ensures s'.rows == map id | id in s.rows :: if id in todo then s.rows[id].(thumb := false) else s.rows[id]
    decreases todo
  {
    if todo == {} {
      es, s' := [], s;
    } else {
      var id :| id in todo;
      var t := Apply(Apply(s, MissThumb(p, id)), ClearThumb(p, id));
      TwoSteps(s, MissThumb(p, id), ClearThumb(p, id));
      var fs;
      fs, s' := ClearAll(t, p, referenced, rows, thumbs, todo - {id});
      LeadsOn(s, [MissThumb(p, id), ClearThumb(p, id)], t, fs, s');
      es := [MissThumb(p, id), ClearThumb(p, id)] + fs;
    }
  }

  /** The first loop of a pass: look, and unlink what is orphaned. */
  lemma FilesByRun(s: State, p: nat) returns (es: seq<Step>, b: State)
    ensures Leads(s, es, b) && b.now == s.now && b.rows == s.rows
    ensures b.files == Remaining(s.files, Referenced(s.rows), s.now)
    ensures Looked(b, p, Referenced(s.rows), LiveIds(s.rows), BareIds(s.rows))
  {
    var a := Apply(s, Snapshot(p));
    assert Leads(a, [], a) && Leads(s, [Snapshot(p)], a) by { assert [Snapshot(p)][1..] == []; }
    var orphans := set n | n in s.files && !Stays(s.files, Referenced(s.rows), s.now, n);
    var rest;
    rest, b := UnlinkAll(a, p, Referenced(s.rows), LiveIds(s.rows), BareIds(s.rows), orphans);
    LeadsOn(s, [Snapshot(p)], a, rest, b);
    es := [Snapshot(p)] + rest;
  }

  function LiveIds(rows: map<nat, RowState>): set<nat> { set id | id in rows && LiveRow(rows, id) }

  function BareIds(rows: map<nat, RowState>): set<nat> { set id | id in rows && LiveName(rows, Thumb(id)) }

  /** The second loop: settle the rows. */
  lemma RowsByRun(b: State, p: nat, referenced: set<Name>) returns (es: seq<Step>, d: State)
    requires Looked(b, p, referenced, LiveIds(b.rows), BareIds(b.rows))
    ensures Leads(b, es, d) && d.now == b.now && d.files == b.files && d.rows == SettledRows(b.files, b.rows)
  {
    var dead := set id | id in LiveIds(b.rows) && Original(id) !in b.files;
    var e2, c := BuryAll(b, p, referenced, LiveIds(b.rows), BareIds(b.rows), dead);
    var bare := set id | id in BareIds(b.rows) && id !in dead && Thumb(id) !in b.files;
    var e3;
    e3, d := ClearAll(c, p, referenced, LiveIds(b.rows), BareIds(b.rows), bare);
    LeadsOn(b, e2, c, e3, d);
    es := e2 + e3;
  }

  /** What the loops of one undisturbed pass do, steps of the protocol do: so the pass is one of
      the runs that are proved safe. */
  lemma PassIsRun(s: State, p: nat) returns (es: seq<Step>, s': State)
    ensures Leads(s, es, s') && s'.now == s.now
    ensures s'.files == Remaining(s.files, Referenced(s.rows), s.now) && s'.rows == SettledRows(s.files, s.rows)
  {
    var e1, b := FilesByRun(s, p);
    var e2;
    e2, s' := RowsByRun(b, p, Referenced(s.rows));
    LeadsOn(s, e1, b, e2, s');
    es := e1 + e2;
    forall id | id in s.rows ensures Settled(b.files, id, s.rows[id]) == Settled(s.files, id, s.rows[id]) {
      ReferencedStay(s.files, s.rows, s.now, id);
    }
  }
}
