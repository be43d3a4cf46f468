/** Attachment files and rows under concurrent uploads, thumbnails, deletions and reclaim passes,
    as one machine whose steps interleave freely. */
module Reclaim {
  /** A file of one attachment; attachment ids are drawn once and never again. */
  datatype Name = Original(id: nat) | Thumb(id: nat)

  /** The age below which an unreferenced file is left alone, in nanoseconds. */
  const HOUR: int := 3_600_000_000_000

  datatype RowState = RowState(live: bool, thumb: bool)

  /** A reclaim pass under way: its view of the live rows, and what it found since. */
  datatype Pass = Pass(
    snapAt: int, referenced: set<Name>, rows: set<nat>, thumbs: set<nat>,
    condemned: set<Name>, missing: set<nat>, bare: set<nat>)

  /** A file name lives once: written in the staging area, renamed into place, recorded in a row;
      or it is given up on the way. */
  datatype Life = Staged(at: int) | Placed(at: int) | Recorded(at: int, rowAt: int) | GivenUp

  datatype State = State(
    now: int,
    files: map<Name, int>,      // the group's directory: name to time of last write
    lives: map<Name, Life>,
    rows: map<nat, RowState>,
    passes: map<nat, Pass>,
    lost: set<Name>)            // files removed by someone else

  const START := State(0, map[], map[], map[], map[], {})

  datatype Step =
    | Tick(t: int)
    | Stage(n: Name) | Append(n: Name) | Place(n: Name) | Record(n: Name)
    | Abort(n: Name)            // an error: the file goes away
    | Abandon(n: Name)          // a crash: the file stays behind
    | DeleteRow(id: nat) | UnlinkDeleted(n: Name)
    | Lose(n: Name)
    | Snapshot(p: nat)
    | Condemn(p: nat, n: Name) | Unlink(p: nat, n: Name)
    | Miss(p: nat, id: nat) | Tombstone(p: nat, id: nat)
    | MissThumb(p: nat, id: nat) | ClearThumb(p: nat, id: nat)

  predicate LiveRow(rows: map<nat, RowState>, id: nat) { id in rows && rows[id].live }

  predicate LiveName(rows: map<nat, RowState>, n: Name) { LiveRow(rows, n.id) && (n.Original? || rows[n.id].thumb) }

  function Referenced(rows: map<nat, RowState>): set<Name> {
    (set id | id in rows && LiveName(rows, Original(id)) :: Original(id))
      + (set id | id in rows && LiveName(rows, Thumb(id)) :: Thumb(id))
  }

  predicate IsStaged(s: State, n: Name) { n in s.lives && s.lives[n].Staged? }

  predicate IsPlaced(s: State, n: Name) { n in s.lives && s.lives[n].Placed? }

  predicate IsRecorded(s: State, n: Name) { n in s.lives && s.lives[n].Recorded? }

  predicate Enabled(s: State, e: Step) {
    match e
    case Tick(t) => s.now <= t
    case Stage(n) => n !in s.lives && (n.Thumb? ==> n.id in s.rows)
    case Append(n) => IsStaged(s, n)
    case Place(n) => IsStaged(s, n)
    case Record(n) => IsPlaced(s, n) && (n.Thumb? ==> LiveRow(s.rows, n.id))
    case Abort(n) => IsStaged(s, n) || IsPlaced(s, n)
    case Abandon(n) => IsStaged(s, n) || IsPlaced(s, n)
    case DeleteRow(id) => LiveRow(s.rows, id)
    case UnlinkDeleted(n) => n.id in s.rows && !s.rows[n.id].live
    case Lose(n) => n in s.files
    case Snapshot(p) => true
    case Condemn(p, n) => p in s.passes && n in s.files && n !in s.passes[p].referenced && s.now - s.files[n] >= HOUR
    case Unlink(p, n) => p in s.passes && n in s.passes[p].condemned
    case Miss(p, id) => p in s.passes && id in s.passes[p].rows && Original(id) !in s.files
    case Tombstone(p, id) => p in s.passes && id in s.passes[p].missing && LiveRow(s.rows, id)
    case MissThumb(p, id) => p in s.passes && id in s.passes[p].thumbs && Thumb(id) !in s.files
    case ClearThumb(p, id) => p in s.passes && id in s.passes[p].bare && LiveRow(s.rows, id)
  }

  function TakeSnapshot(s: State): Pass {
    Pass(s.now, Referenced(s.rows), set id | id in s.rows && LiveRow(s.rows, id),
         set id | id in s.rows && LiveName(s.rows, Thumb(id)), {}, {}, {})
  }

  function Apply(s: State, e: Step): State
    requires Enabled(s, e)
  {
    match e
    case Tick(t) => s.(now := t)
    case Stage(n) => s.(lives := s.lives[n := Staged(s.now)])
    case Append(n) => s.(lives := s.lives[n := Staged(s.now)])
    case Place(n) => s.(lives := s.lives[n := Placed(s.lives[n].at)], files := s.files[n := s.lives[n].at])
    case Record(n) =>
      s.(lives := s.lives[n := Recorded(s.lives[n].at, s.now)], rows := s.rows[n.id := RowState(true, n.Thumb?)])
    case Abort(n) => s.(lives := s.lives[n := GivenUp], files := s.files - {n})
    case Abandon(n) => s.(lives := s.lives[n := GivenUp])
    case DeleteRow(id) => s.(rows := s.rows[id := s.rows[id].(live := false)])
    case UnlinkDeleted(n) => s.(files := s.files - {n})
    case Lose(n) => s.(files := s.files - {n}, lost := s.lost + {n})
    case Snapshot(p) => s.(passes := s.passes[p := TakeSnapshot(s)])
    case Condemn(p, n) => s.(passes := s.passes[p := s.passes[p].(condemned := s.passes[p].condemned + {n})])
    case Unlink(p, n) => s.(files := s.files - {n})
    case Miss(p, id) => s.(passes := s.passes[p := s.passes[p].(missing := s.passes[p].missing + {id})])
    case Tombstone(p, id) => s.(rows := s.rows[id := s.rows[id].(live := false)])
    case MissThumb(p, id) => s.(passes := s.passes[p := s.passes[p].(bare := s.passes[p].bare + {id})])
    case ClearThumb(p, id) => s.(rows := s.rows[id := s.rows[id].(thumb := false)])
  }

  /** What a step does to the rows: recording makes a row, or gives it a thumbnail; deletion and
      burial kill it, clearing takes the thumbnail; no other row changes. */
  lemma RowsExact(s: State, e: Step, id: nat)
    requires Enabled(s, e)
    ensures var before, after := s.rows, Apply(s, e).rows;
            if e.Record? && e.n.id == id then id in after && after[id] == RowState(true, e.n.Thumb?)
            else if (e.DeleteRow? || e.Tombstone?) && e.id == id then !LiveRow(after, id) && id in after
            else if e.ClearThumb? && e.id == id then LiveRow(after, id) && !after[id].thumb
            else (id in after <==> id in before) && (id in before ==> after[id] == before[id])
  {
  }

  /** What a step does to the files: placing brings one in, with the time of its last write; aborting
      and unlinking take theirs away; no other file changes. */
  lemma FilesExact(s: State, e: Step, n: Name)
    requires Enabled(s, e)
    ensures var before, after := s.files, Apply(s, e).files;
            if e.Place? && e.n == n then n in after && n in s.lives && s.lives[n] == Staged(after[n])
            else if (e.Abort? || e.UnlinkDeleted? || e.Lose? || e.Unlink?) && e.n == n then n !in after
            else (n in after <==> n in before) && (n in before ==> after[n] == before[n])
  {
  }

  /** Delays: at most `d1` from a file's last write to its row, and at most `d2` from a pass's
      view of the rows to its look at a file's age. */
  predicate Timely(s: State, e: Step, d1: int, d2: int) {
    && (e.Record? && IsPlaced(s, e.n) ==> s.now - s.lives[e.n].at <= d1)
    && (e.Condemn? && e.p in s.passes ==> s.now - s.passes[e.p].snapAt <= d2)
  }

  ghost predicate IsRun(ts: seq<State>, es: seq<Step>, d1: int, d2: int) {
    && |ts| == |es| + 1 && ts[0] == START
    && forall i :: 0 <= i < |es| ==>
         Enabled(ts[i], es[i]) && Timely(ts[i], es[i], d1, d2) && ts[i + 1] == Apply(ts[i], es[i])
  }

  // ----- Invariants -----

  /** A file in the directory has its name's life behind it, and rows name recorded files. */
  ghost predicate LifeOf(s: State, n: Name, d1: int) {
    && (n in s.files ==> n in s.lives && !s.lives[n].Staged? && (!s.lives[n].GivenUp? ==> s.files[n] == s.lives[n].at))
    && (IsRecorded(s, n) ==> s.lives[n].rowAt - s.lives[n].at <= d1 && s.lives[n].rowAt <= s.now && n.id in s.rows)
    && (n.Original? && n.id in s.rows ==> IsRecorded(s, n))
    && (n.Thumb? && n.id in s.rows && s.rows[n.id].thumb ==> IsRecorded(s, n))
  }

  predicate TooOld(s: State, n: Name) { IsPlaced(s, n) && s.now - s.lives[n].at >= HOUR }

  /** The file of a live row is there, unless someone else removed it; so is a placed one, unless
      it is too old to be recorded or its row is dead. */
  ghost predicate PresentName(s: State, n: Name) {
    && (LiveName(s.rows, n) ==> n in s.files || n in s.lost)
    && (IsPlaced(s, n) ==> n in s.files || n in s.lost || TooOld(s, n) || (n.id in s.rows && !s.rows[n.id].live))
  }

  /** A pass knows the name if it is live and was recorded before the pass looked. */
  ghost predicate KnownTo(s: State, p: Pass, n: Name) {
    && p.snapAt <= s.now
    && (LiveName(s.rows, n) && n !in p.referenced ==> IsRecorded(s, n) && p.snapAt <= s.lives[n].rowAt)
    && (n.Original? && n.id in p.rows ==> n.id in s.rows) && (n.Thumb? && n.id in p.thumbs ==> IsRecorded(s, n))
  }

  /** No row names what a pass has condemned, or ever will. */
  ghost predicate Harmless(s: State, n: Name) {
    n in s.lives && !IsStaged(s, n) && !LiveName(s.rows, n) && (IsPlaced(s, n) ==> TooOld(s, n))
  }

  /** A recorded file that is gone is gone for good. */
  ghost predicate Gone(s: State, n: Name) { IsRecorded(s, n) && n !in s.files }

  ghost predicate PassInv(s: State, p: Pass) {
    && (forall n :: KnownTo(s, p, n)) && (forall n :: n in p.condemned ==> Harmless(s, n))
    && (forall id :: id in p.missing ==> Gone(s, Original(id))) && (forall id :: id in p.bare ==> Gone(s, Thumb(id)))
  }

  ghost predicate Inv(s: State, d1: int) {
    && (forall n :: LifeOf(s, n, d1)) && (forall n :: PresentName(s, n))
    && (forall p :: p in s.passes ==> PassInv(s, s.passes[p]))
  }

  lemma LifeStep(s: State, e: Step, n: Name, d1: int, d2: int)
    requires LifeOf(s, n, d1) && LifeOf(s, Original(n.id), d1) && Enabled(s, e) && Timely(s, e, d1, d2)
    ensures LifeOf(Apply(s, e), n, d1)
  {
  }

  lemma HarmlessStep(s: State, e: Step, n: Name, d1: int, d2: int)
    requires LifeOf(s, n, d1) && Harmless(s, n) && Enabled(s, e) && Timely(s, e, d1, d2) && d1 < HOUR
    ensures Harmless(Apply(s, e), n)
  {
  }

  lemma GoneStep(s: State, e: Step, n: Name, d1: int)
    requires LifeOf(s, n, d1) && Gone(s, n) && Enabled(s, e)
    ensures Gone(Apply(s, e), n)
  {
  }

  lemma KnownStep(s: State, e: Step, p: Pass, n: Name, d1: int)
    requires LifeOf(s, n, d1) && KnownTo(s, p, n) && Enabled(s, e)
    ensures KnownTo(Apply(s, e), p, n)
  {
  }

  lemma PresentStep(s: State, e: Step, n: Name, d1: int, d2: int)
    requires LifeOf(s, n, d1) && LifeOf(s, Original(n.id), d1) && PresentName(s, n) && Enabled(s, e)
             && Timely(s, e, d1, d2) && d1 < HOUR
    requires e.Unlink? && e.n == n ==> Harmless(s, n)
    ensures PresentName(Apply(s, e), n)
  {
  }

  lemma SnapshotInv(s: State, d1: int)
    requires forall n :: LifeOf(s, n, d1)
    ensures PassInv(s, TakeSnapshot(s))
  {
    forall n ensures KnownTo(s, TakeSnapshot(s), n) {
      assert LifeOf(s, n, d1);
    }
  }

  /** The grace period at work: an old file that the pass does not know is not, and will not be,
      the file of a live row. */
  lemma CondemnHarmless(s: State, p: nat, n: Name, d1: int, d2: int)
    requires LifeOf(s, n, d1) && Enabled(s, Condemn(p, n)) && Timely(s, Condemn(p, n), d1, d2)
    requires KnownTo(s, s.passes[p], n) && d1 + d2 < HOUR
    ensures Harmless(s, n)
  {
  }

  /** An existing pass through a step that is not its own. */
  lemma PassStep(s: State, e: Step, p: Pass, d1: int, d2: int)
    requires (forall n :: LifeOf(s, n, d1)) && PassInv(s, p) && Enabled(s, e) && Timely(s, e, d1, d2) && d1 < HOUR
    ensures PassInv(Apply(s, e), p)
  {
    var s' := Apply(s, e);
    forall n ensures KnownTo(s', p, n) {
      assert LifeOf(s, n, d1) && KnownTo(s, p, n);
      KnownStep(s, e, p, n, d1);
    }
    forall n | n in p.condemned ensures Harmless(s', n) {
      assert LifeOf(s, n, d1);
      HarmlessStep(s, e, n, d1, d2);
    }
    forall id | id in p.missing ensures Gone(s', Original(id)) {
      assert LifeOf(s, Original(id), d1);
      GoneStep(s, e, Original(id), d1);
    }
    forall id | id in p.bare ensures Gone(s', Thumb(id)) {
      assert LifeOf(s, Thumb(id), d1);
      GoneStep(s, e, Thumb(id), d1);
    }
  }

  /** What a pass adds to its findings keeps its invariant. */
  lemma FindingInv(s: State, e: Step, d1: int, d2: int)
    requires Inv(s, d1) && Enabled(s, e) && Timely(s, e, d1, d2) && d1 + d2 < HOUR
    requires e.Condemn? || e.Miss? || e.MissThumb?
    ensures e.p in Apply(s, e).passes && PassInv(s, Apply(s, e).passes[e.p])
  {
    var p := s.passes[e.p];
    assert PassInv(s, p);
    PassFrame(s, p, Apply(s, e).passes[e.p]);
    match e
    case Condemn(_, n) =>
      assert LifeOf(s, n, d1) && KnownTo(s, p, n);
      CondemnHarmless(s, e.p, n, d1, d2);
    case Miss(_, id) =>
      assert LifeOf(s, Original(id), d1) && KnownTo(s, p, Original(id));
    case MissThumb(_, id) =>
      assert LifeOf(s, Thumb(id), d1) && KnownTo(s, p, Thumb(id));
  }

  /** What a pass knows does not depend on its findings. */
  lemma PassFrame(s: State, p: Pass, q: Pass)
    requires (forall n :: KnownTo(s, p, n)) && q == p.(condemned := q.condemned, missing := q.missing, bare := q.bare)
    ensures forall n :: KnownTo(s, q, n)
  {
    forall n ensures KnownTo(s, q, n) {
      assert KnownTo(s, p, n);
    }
  }

  /** Every step of every kind keeps the invariant. */
  lemma StepInv(s: State, e: Step, d1: int, d2: int)
    requires Inv(s, d1) && Enabled(s, e) && Timely(s, e, d1, d2) && d1 + d2 < HOUR && d1 < HOUR
    ensures Inv(Apply(s, e), d1)
  {
    var s' := Apply(s, e);
    forall n ensures LifeOf(s', n, d1) && PresentName(s', n) {
      assert LifeOf(s, n, d1) && LifeOf(s, Original(n.id), d1) && PresentName(s, n);
      LifeStep(s, e, n, d1, d2);
      if e.Unlink? {
        assert PassInv(s, s.passes[e.p]);
      }
      PresentStep(s, e, n, d1, d2);
    }
    forall p | p in s'.passes ensures PassInv(s', s'.passes[p]) {
      if e.Snapshot? && e.p == p {
        SnapshotInv(s, d1);
      } else if (e.Condemn? || e.Miss? || e.MissThumb?) && e.p == p {
        FindingInv(s, e, d1, d2);
      } else {
        assert PassInv(s, s.passes[p]);
      }
      PassStep(s, e, s'.passes[p], d1, d2);
    }
  }

  lemma {:induction false} RunInv(ts: seq<State>, es: seq<Step>, d1: int, d2: int, i: nat)
    requires IsRun(ts, es, d1, d2) && 0 <= d2 && d1 + d2 < HOUR && i < |ts|
    ensures Inv(ts[i], d1)
  {
    if i > 0 {
      RunInv(ts, es, d1, d2, i - 1);
      StepInv(ts[i - 1], es[i - 1], d1, d2);
    }
  }

  // ----- Safety of whole runs -----

  /** No pass unlinks a file that a live row names, tombstones a row whose original is there, or
      clears a thumbnail that is there. */
  ghost predicate SafeStep(s: State, e: Step) {
    && (e.Unlink? ==> !LiveName(s.rows, e.n))
    && (e.Tombstone? ==> Original(e.id) !in s.files)
    && (e.ClearThumb? ==> Thumb(e.id) !in s.files)
  }

  ghost predicate SafeRun(ts: seq<State>, es: seq<Step>)
    requires |ts| == |es| + 1
  {
    && (forall i :: 0 <= i < |es| ==> SafeStep(ts[i], es[i]))
    && (forall i, n :: 0 <= i < |ts| && LiveName(ts[i].rows, n) ==> n in ts[i].files || n in ts[i].lost)
  }

  /** Over every interleaving within the delays, reclaim is safe, and the files of live rows stay
      unless someone else removes them. */
  lemma RunsAreSafe(ts: seq<State>, es: seq<Step>, d1: int, d2: int)
    requires IsRun(ts, es, d1, d2) && 0 <= d2 && d1 + d2 < HOUR
    ensures SafeRun(ts, es)
  {
    forall i | 0 <= i < |es| ensures SafeStep(ts[i], es[i]) {
      RunInv(ts, es, d1, d2, i);
      if es[i].Unlink? || es[i].Tombstone? || es[i].ClearThumb? {
        assert PassInv(ts[i], ts[i].passes[es[i].p]);
      }
    }
    forall i, n | 0 <= i < |ts| && LiveName(ts[i].rows, n) ensures n in ts[i].files || n in ts[i].lost {
      RunInv(ts, es, d1, d2, i);
      assert PresentName(ts[i], n);
    }
  }

  lemma Extend(ts: seq<State>, es: seq<Step>, e: Step, d1: int, d2: int) returns (ts': seq<State>, es': seq<Step>)
    requires IsRun(ts, es, d1, d2) && Enabled(ts[|es|], e) && Timely(ts[|es|], e, d1, d2)
    ensures IsRun(ts', es', d1, d2) && |es'| == |es| + 1 && es'[|es|] == e
    ensures ts'[|es|] == ts[|es|] && ts'[|es| + 1] == Apply(ts[|es|], e)
  {
    ts', es' := ts + [Apply(ts[|es|], e)], es + [e];
    forall i | 0 <= i < |es'|
      ensures Enabled(ts'[i], es'[i]) && Timely(ts'[i], es'[i], d1, d2) && ts'[i + 1] == Apply(ts'[i], es'[i])
    {
      assert i < |es| ==> es'[i] == es[i] && ts'[i] == ts[i] && ts'[i + 1] == ts[i + 1];
    }
  }

  /** A file in place `d1` after it was written, and a pass that has just looked at the rows. */
  lemma PlacedThenSnapshot(d1: int, d2: int) returns (ts: seq<State>, es: seq<Step>)
    requires 0 <= d1
    ensures IsRun(ts, es, d1, d2)
    ensures ts[|es|] == State(d1, map[Original(0) := 0], map[Original(0) := Placed(0)], map[],
                              map[0 := Pass(d1, {}, {}, {}, {}, {}, {})], {})
  {
    var n := Original(0);
    ts, es := [START], [];
    ts, es := Extend(ts, es, Stage(n), d1, d2);
    ts, es := Extend(ts, es, Place(n), d1, d2);
    assert ts[|es|].lives == map[n := Placed(0)];
    ts, es := Extend(ts, es, Tick(d1), d1, d2);
    ts, es := Extend(ts, es, Snapshot(0), d1, d2);
    assert TakeSnapshot(ts[3]) == Pass(d1, {}, {}, {}, {}, {}, {});
  }

  /** An upload that takes `d1` and a pass that takes `d2`, together an hour: the pass looks just
      before the row is recorded, and unlinks the file of a live row. */
  lemma TooSlowWitness(d1: int, d2: int) returns (ts: seq<State>, es: seq<Step>)
    requires 0 <= d1 && 0 <= d2 && d1 + d2 >= HOUR
    ensures IsRun(ts, es, d1, d2) && !SafeRun(ts, es)
  {
    var n := Original(0);
    ts, es := PlacedThenSnapshot(d1, d2);
    ts, es := Extend(ts, es, Record(n), d1, d2);
    ts, es := Extend(ts, es, Tick(d1 + d2), d1, d2);
    ts, es := Extend(ts, es, Condemn(0, n), d1, d2);
    var k := |es|;
    assert LiveName(ts[k].rows, n);
    ts, es := Extend(ts, es, Unlink(0, n), d1, d2);
    assert !SafeStep(ts[k], es[k]);
  }

  /** Reclaim is safe on all runs within two delays exactly when they add up to less than the
      grace hour. */
  lemma GraceExact(d1: int, d2: int)
    requires 0 <= d1 && 0 <= d2
    ensures (forall ts, es :: IsRun(ts, es, d1, d2) ==> SafeRun(ts, es)) <==> d1 + d2 < HOUR
  {
    if d1 + d2 < HOUR {
      forall ts, es | IsRun(ts, es, d1, d2) ensures SafeRun(ts, es) {
        RunsAreSafe(ts, es, d1, d2);
      }
    } else {
      var ts, es := TooSlowWitness(d1, d2);
    }
  }
}
