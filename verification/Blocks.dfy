/** Warranty, sold-to and purchased-from blocks: an item has at most one, pushes find it by item,
    look tracked versions up under the id the client sent and record them under the row's own. */
module Blocks {
  import opened Wire

  /** The columns of a warranty; the other two blocks differ in names only. */
  datatype Column = Holder | Provider | StartsOn | ExpiresOn | IsLifetime | Notes

  datatype Block = Block(id: nat, version: int, vals: map<Column, Val>)

  datatype Tracked = Tracked(id: nat, column: Column)

  /** Live blocks by item, every row id ever used, and tracked column versions. */
  datatype State = State(live: map<nat, Block>, used: set<nat>, tracked: map<Tracked, int>)

  const EMPTY := State(map[], {}, map[])

  datatype Event =
    | Create(item: nat, id: nat, vals: map<Column, Val>)
    | Edit(item: nat, vals: map<Column, Val>)
    | Remove(item: nat)
    | PushUpdate(item: nat, entity: nat, base: int, fields: map<Column, Val>)

  /** An untracked column counts as version 1. */
  function VersionOf(s: State, id: nat, c: Column): int {
    if Tracked(id, c) in s.tracked then s.tracked[Tracked(id, c)] else 1
  }

  /** Write a block's columns; changed ones are recorded at the new version under the row's id. */
  function Write(s: State, item: nat, vals: map<Column, Val>): State
    requires item in s.live
  {
    var cur := s.live[item];
    var changed := map c | c in cur.vals && c in vals && cur.vals[c] != vals[c]
                     :: Tracked(cur.id, c) := cur.version + 1;
    s.(live := s.live[item := Block(cur.id, cur.version + 1, vals)], tracked := s.tracked + changed)
  }

  function Conflicts(s: State, entity: nat, base: int, fields: map<Column, Val>): set<Column> {
    set c | c in fields && VersionOf(s, entity, c) > base
  }

  /** What a push reports: the policy is consulted only when the row has moved on from the base. */
  function Reported(s: State, item: nat, entity: nat, base: int, fields: map<Column, Val>): set<Column>
    requires item in s.live
  {
    if s.live[item].version == base then {} else Conflicts(s, entity, base, fields)
  }

  /** `item_id` is always among the applied names, so there is always a write. */
  function Merged(s: State, item: nat, entity: nat, base: int, fields: map<Column, Val>): map<Column, Val>
    requires item in s.live
  {
    var cur := s.live[item];
    map c | c in cur.vals ::
      if c in fields && c !in Reported(s, item, entity, base, fields) then fields[c] else cur.vals[c]
  }

  function Step(s: State, e: Event): State {
    match e
    case Create(item, id, vals) =>
      if item in s.live || id in s.used then s
      else s.(live := s.live[item := Block(id, 1, vals)], used := s.used + {id})
    case Edit(item, vals) =>
      if item !in s.live || vals.Keys != s.live[item].vals.Keys then s else Write(s, item, vals)
    case Remove(item) => s.(live := s.live - {item})
    case PushUpdate(item, entity, base, fields) =>
      if item !in s.live then s else Write(s, item, Merged(s, item, entity, base, fields))
  }

  /** A block's write: its columns at the next version, exactly the changed ones tracked at that
      version under the block's own id, and nothing else. */
  ghost predicate WritesOnly(s: State, s': State, item: nat, vals: map<Column, Val>)
    requires item in s.live
  {
    var cur := s.live[item];
    && s'.live == s.live[item := Block(cur.id, cur.version + 1, vals)] && s'.used == s.used
    && forall id, c :: var t := Tracked(id, c);
         if id == cur.id && c in cur.vals && c in vals && cur.vals[c] != vals[c]
         then t in s'.tracked && s'.tracked[t] == cur.version + 1
         else (t in s'.tracked <==> t in s.tracked) && (t in s.tracked ==> s'.tracked[t] == s.tracked[t])
  }

  /** The columns after a push: the submitted ones, except those for which a version after the base
      is tracked under the id that was sent, when the block has moved on from the base. */
  ghost predicate PushedVals(s: State, item: nat, entity: nat, base: int, fields: map<Column, Val>, vals: map<Column,
                             Val>)
    requires item in s.live
  {
    var cur := s.live[item];
    && vals.Keys == cur.vals.Keys
    && forall c :: c in vals ==>
         vals[c] == if c in fields
           && (cur.version == base || !(Tracked(entity, c) in s.tracked && s.tracked[Tracked(entity, c)] > base))
                    then fields[c] else cur.vals[c]
  }

  /** What each event does. */
  lemma StepExact(s: State, e: Event)
    ensures match e
            case Create(item, id, vals) =>
              Step(s, e) == if item in s.live || id in s.used then s
                            else State(s.live[item := Block(id, 1, vals)], s.used + {id}, s.tracked)
            case Edit(item, vals) =>
              if item in s.live && vals.Keys == s.live[item].vals.Keys then WritesOnly(s, Step(s, e), item, vals)
              else Step(s, e) == s
            case Remove(item) => Step(s, e) == State(map x | x in s.live && x != item :: s.live[x], s.used, s.tracked)
            case PushUpdate(item, entity, base, fields) =>
              if item in s.live then
                item in Step(s, e).live && var vals := Step(s, e).live[item].vals;
                (1 <= base ==> PushedVals(s, item, entity, base, fields, vals)) && WritesOnly(s, Step(s, e), item, vals)
              else Step(s, e) == s
  {
    match e
    case Edit(item, vals) =>
      if item in s.live && vals.Keys == s.live[item].vals.Keys {
        WriteExact(s, item, vals);
      }
    case PushUpdate(item, entity, base, fields) =>
      if item in s.live {
        WriteExact(s, item, Merged(s, item, entity, base, fields));
      }
    case _ =>
  }

  lemma WriteExact(s: State, item: nat, vals: map<Column, Val>)
    requires item in s.live
    ensures WritesOnly(s, Write(s, item, vals), item, vals)
  {
    forall id, c ensures Tracked(id, c) in Write(s, item, vals).tracked <==>
                         || Tracked(id, c) in s.tracked
                         || (&& id == s.live[item].id && c in s.live[item].vals && c in vals
                             && s.live[item].vals[c] != vals[c]) {
    }
  }

  ghost predicate IsRun(ts: seq<State>, es: seq<Event>) {
    |ts| == |es| + 1 && ts[0] == EMPTY && forall i :: 0 <= i < |es| ==> ts[i + 1] == Step(ts[i], es[i])
  }

  /** A step changed the column of the block with this id, and left it at a version after `base`. */
  ghost predicate Changes(s: State, s': State, id: nat, c: Column, base: int) {
    exists item ::
      && item in s.live && item in s'.live && s.live[item].id == id == s'.live[item].id
      && c in s.live[item].vals && c in s'.live[item].vals && s.live[item].vals[c] != s'.live[item].vals[c]
      && s'.live[item].version > base
  }

  ghost predicate ChangedSince(ts: seq<State>, n: nat, id: nat, c: Column, base: int)
    requires n < |ts|
  {
    exists i :: 0 <= i < n && Changes(ts[i], ts[i + 1], id, c, base)
  }

  /** Row ids are used once, and nothing is tracked beyond a block's version. */
  ghost predicate Sound(s: State) {
    && (forall a, b :: a in s.live && b in s.live && s.live[a].id == s.live[b].id ==> a == b)
    && (forall a :: a in s.live ==> s.live[a].id in s.used && s.live[a].version >= 1)
    && (forall t :: t in s.tracked ==> t.id in s.used && s.tracked[t] >= 1)
    && (forall a, c :: a in s.live ==> VersionOf(s, s.live[a].id, c) <= s.live[a].version)
  }

  lemma WriteVersion(s: State, item: nat, vals: map<Column, Val>, id: nat, c: Column)
    requires item in s.live && vals.Keys == s.live[item].vals.Keys
    ensures var cur := s.live[item];
            VersionOf(Write(s, item, vals), id, c) ==
            if id == cur.id && c in vals && cur.vals[c] != vals[c] then cur.version + 1 else VersionOf(s, id, c)
  {
  }

  lemma WriteSound(s: State, item: nat, vals: map<Column, Val>)
    requires Sound(s) && item in s.live && vals.Keys == s.live[item].vals.Keys
    ensures Sound(Write(s, item, vals))
  {
    var s' := Write(s, item, vals);
    forall a, c | a in s'.live ensures VersionOf(s', s'.live[a].id, c) <= s'.live[a].version {
      assert a in s.live && s'.live[a].id == s.live[a].id;
      assert VersionOf(s, s.live[a].id, c) <= s.live[a].version;
      WriteVersion(s, item, vals, s.live[a].id, c);
    }
  }

  lemma WriteTracks(s: State, item: nat, vals: map<Column, Val>, id: nat, c: Column, base: int)
    requires Sound(s) && item in s.live && vals.Keys == s.live[item].vals.Keys && base >= 1
    ensures VersionOf(Write(s, item, vals), id, c) > base <==>
            VersionOf(s, id, c) > base || Changes(s, Write(s, item, vals), id, c, base)
  {
    var s', cur := Write(s, item, vals), s.live[item];
    assert VersionOf(s, cur.id, c) <= cur.version;
    WriteVersion(s, item, vals, id, c);
    if id == cur.id && c in vals && cur.vals[c] != vals[c] && cur.version + 1 > base {
      assert item in s'.live && s'.live[item].id == id;
    }
  }

  lemma CreateSound(s: State, item: nat, id: nat, vals: map<Column, Val>)
    requires Sound(s) && item !in s.live && id !in s.used
    ensures Sound(Step(s, Create(item, id, vals)))
  {
    var s' := Step(s, Create(item, id, vals));
    forall a, c | a in s'.live ensures VersionOf(s', s'.live[a].id, c) <= s'.live[a].version {
      if a != item {
        assert VersionOf(s, s.live[a].id, c) <= s.live[a].version;
      }
    }
  }

  lemma StepTracks(s: State, e: Event, id: nat, c: Column, base: int)
    requires Sound(s) && base >= 1
    ensures Sound(Step(s, e))
    ensures VersionOf(Step(s, e), id, c) > base <==> VersionOf(s, id, c) > base || Changes(s, Step(s, e), id, c, base)
  {
    match e
    case Create(item, id', vals) =>
      if item !in s.live && id' !in s.used {
        CreateSound(s, item, id', vals);
      }
    case Edit(item, vals) =>
      if item in s.live && vals.Keys == s.live[item].vals.Keys {
        WriteSound(s, item, vals);
        WriteTracks(s, item, vals, id, c, base);
      }
    case Remove(item) =>
      var s' := Step(s, e);
      forall a, x | a in s'.live ensures VersionOf(s', s'.live[a].id, x) <= s'.live[a].version {
        assert VersionOf(s, s.live[a].id, x) <= s.live[a].version;
      }
    case PushUpdate(item, entity, base', fields) =>
      if item in s.live {
        var vals := Merged(s, item, entity, base', fields);
        WriteSound(s, item, vals);
        WriteTracks(s, item, vals, id, c, base);
      }
  }

  /** What is tracked under a row's own id is exact, over every run. */
  lemma {:induction false} TrackedExact(ts: seq<State>, es: seq<Event>, n: nat, id: nat, c: Column, base: int)
    requires IsRun(ts, es) && n <= |es| && base >= 1
    ensures Sound(ts[n]) && (VersionOf(ts[n], id, c) > base <==> ChangedSince(ts, n, id, c, base))
  {
    if n > 0 {
      TrackedExact(ts, es, n - 1, id, c, base);
      StepTracks(ts[n - 1], es[n - 1], id, c, base);
      assert ts[n] == ts[n - 1 + 1] == Step(ts[n - 1], es[n - 1]);
      if ChangedSince(ts, n, id, c, base) {
        var i :| 0 <= i < n && Changes(ts[i], ts[i + 1], id, c, base);
        assert i < n - 1 ==> ChangedSince(ts, n - 1, id, c, base);
      }
      if ChangedSince(ts, n - 1, id, c, base) {
        var i :| 0 <= i < n - 1 && Changes(ts[i], ts[i + 1], id, c, base);
      }
    }
  }

  /** What a push reports are the submitted columns of the item's block that changed since its base. */
  ghost predicate Right(ts: seq<State>, n: nat, item: nat, entity: nat, base: int, fields: map<Column, Val>)
    requires n < |ts| && item in ts[n].live
  {
    forall c :: c in fields ==>
      (c in Reported(ts[n], item, entity, base, fields) <==> ChangedSince(ts, n, ts[n].live[item].id, c, base))
  }

  /** Nothing has changed since the row's own version. */
  lemma UnchangedSinceNow(ts: seq<State>, es: seq<Event>, item: nat, c: Column)
    requires IsRun(ts, es) && item in ts[|es|].live
    ensures ts[|es|].live[item].version >= 1
    ensures !ChangedSince(ts, |es|, ts[|es|].live[item].id, c, ts[|es|].live[item].version)
    ensures VersionOf(ts[|es|], ts[|es|].live[item].id, c) <= ts[|es|].live[item].version
  {
    var cur := ts[|es|].live[item];
    TrackedExact(ts, es, |es|, cur.id, c, 1);
    assert VersionOf(ts[|es|], cur.id, c) <= cur.version;
    TrackedExact(ts, es, |es|, cur.id, c, cur.version);
  }

  /** The merge theorem for blocks: it holds when the client sent the row's own id. */
  lemma OwnIdIsRight(ts: seq<State>, es: seq<Event>, item: nat, base: int, fields: map<Column, Val>)
    requires IsRun(ts, es) && item in ts[|es|].live && base >= 1
    ensures Right(ts, |es|, item, ts[|es|].live[item].id, base, fields)
  {
    forall c | c in fields
      ensures c in Reported(ts[|es|], item, ts[|es|].live[item].id, base, fields) <==>
                ChangedSince(ts, |es|, ts[|es|].live[item].id, c, base)
    {
      UnchangedSinceNow(ts, es, item, c);
      TrackedExact(ts, es, |es|, ts[|es|].live[item].id, c, base);
    }
  }

  /** Under an id that is no block's, nothing ever conflicts; that is right exactly when none of
      the submitted columns changed since the base version. */
  lemma ForeignIdExact(ts: seq<State>, es: seq<Event>, item: nat, entity: nat, base: int, fields: map<Column, Val>)
    requires IsRun(ts, es) && item in ts[|es|].live && base >= 1 && entity !in ts[|es|].used
    ensures Reported(ts[|es|], item, entity, base, fields) == {}
    ensures Right(ts, |es|, item, entity, base, fields) <==>
            forall c :: c in fields ==> !ChangedSince(ts, |es|, ts[|es|].live[item].id, c, base)
  {
    TrackedExact(ts, es, |es|, entity, Holder, base);
    forall c | c in fields ensures VersionOf(ts[|es|], entity, c) == 1 {
    }
  }

  /** With `e` tracked under the client's id, `o` under the row's own and `v` the row's version:
      no base version but the row's own, at which the policy is not consulted, lies between. */
  predicate Indistinguishable(e: int, o: int, v: int) { e == o || (o == v && e == v + 1) }

  /** In general: every push under an id is right, for all base versions and submitted columns,
      if and only if no column's version tracked under that id can be told from the row's. */
  lemma AnyIdExact(ts: seq<State>, es: seq<Event>, item: nat, entity: nat)
    requires IsRun(ts, es) && item in ts[|es|].live
    ensures var s := ts[|es|];
            (forall base, fields :: base >= 1 ==> Right(ts, |es|, item, entity, base, fields)) <==>
            forall c :: Indistinguishable(VersionOf(s, entity, c), VersionOf(s, s.live[item].id, c),
                                          s.live[item].version)
  {
    var s := ts[|es|];
    var own, v := s.live[item].id, s.live[item].version;
    TrackedExact(ts, es, |es|, own, Holder, 1);
    forall c, base | base >= 1 ensures VersionOf(s, own, c) > base <==> ChangedSince(ts, |es|, own, c, base) {
      TrackedExact(ts, es, |es|, own, c, base);
    }
    forall c ensures VersionOf(s, own, c) <= v {
      UnchangedSinceNow(ts, es, item, c);
    }
    if forall base, fields :: base >= 1 ==> Right(ts, |es|, item, entity, base, fields) {
      forall c ensures Indistinguishable(VersionOf(s, entity, c), VersionOf(s, own, c), v) {
        var e, o := VersionOf(s, entity, c), VersionOf(s, own, c);
        if e < o {
          SameSide(ts, |es|, item, entity, c, e);
        } else if o < e {
          SameSide(ts, |es|, item, entity, c, o);
          SameSide(ts, |es|, item, entity, c, e - 1);
        }
      }
    }
  }

  /** Judging one column right at one base version. */
  lemma SameSide(ts: seq<State>, n: nat, item: nat, entity: nat, c: Column, base: int)
    requires n < |ts| && item in ts[n].live && base >= 1
    requires VersionOf(ts[n], ts[n].live[item].id, c) > base <==> ChangedSince(ts, n, ts[n].live[item].id, c, base)
    requires forall fields :: Right(ts, n, item, entity, base, fields)
    ensures base != ts[n].live[item].version ==>
            (VersionOf(ts[n], entity, c) > base <==> VersionOf(ts[n], ts[n].live[item].id, c) > base)
  {
    var fields := map[c := Str("")];
    assert Right(ts, n, item, entity, base, fields);
    assert c in fields;
  }

  /** The second disjunct occurs: another item's block, one version ahead, reports nothing wrong
      for a block that was never changed. */
  lemma NeighbourIsRight(x: Val, y: Val) returns (ts: seq<State>, es: seq<Event>)
    requires x != y
    ensures IsRun(ts, es) && |es| == 3 && 0 in ts[3].live
    ensures VersionOf(ts[3], 2, Holder) == 2 && VersionOf(ts[3], ts[3].live[0].id, Holder) == 1
    ensures forall base, fields :: base >= 1 ==> Right(ts, 3, 0, 2, base, fields)
  {
    var a, b := map[Holder := x], map[Holder := y];
    es := [Create(0, 1, a), Create(1, 2, a), PushUpdate(1, 2, 1, b)];
    var t1 := State(map[0 := Block(1, 1, a)], {1}, map[]);
    var t2 := State(map[0 := Block(1, 1, a), 1 := Block(2, 1, a)], {1, 2}, map[]);
    var t3 := State(map[0 := Block(1, 1, a), 1 := Block(2, 2, b)], {1, 2}, map[Tracked(2, Holder) := 2]);
    assert t1 == Step(EMPTY, es[0]) && t2 == Step(t1, es[1]);
    assert Merged(t2, 1, 2, 1, b) == b;
    assert t3 == Step(t2, es[2]);
    ts := [EMPTY, t1, t2, t3];
    AnyIdExact(ts, es, 0, 2);
  }

  /** A lost update: the second push is stale, its column changed at version 2, and it overwrites
      that change without a conflict because it names the block by an id of its own. */
  lemma ForeignIdWitness(x: Val, y: Val, z: Val) returns (ts: seq<State>, es: seq<Event>)
    requires x != y
    ensures IsRun(ts, es) && |es| == 2
    ensures 0 in ts[2].live && ts[2].live[0] == Block(1, 2, map[Holder := y])
    ensures !Right(ts, 2, 0, 7, 1, map[Holder := z])
    ensures var s := Step(ts[2], PushUpdate(0, 7, 1, map[Holder := z]));
            0 in s.live && s.live[0].vals == map[Holder := z]
  {
    var a, b, c := map[Holder := x], map[Holder := y], map[Holder := z];
    es := [Create(0, 1, a), PushUpdate(0, 1, 1, b)];
    var t1 := State(map[0 := Block(1, 1, a)], {1}, map[]);
    var t2 := SecondState(a, b, t1);
    ts := [EMPTY, t1, t2];
    assert Changes(ts[1], ts[2], 1, Holder, 1);
    assert Holder !in Conflicts(t2, 7, 1, c);
    assert Merged(t2, 0, 7, 1, c) == c;
  }

  lemma SecondState(a: map<Column, Val>, b: map<Column, Val>, t1: State) returns (t2: State)
    requires a.Keys == b.Keys == {Holder} && a[Holder] != b[Holder] && t1 == State(map[0 := Block(1, 1, a)], {1}, map[])
    ensures t2 == Step(t1, PushUpdate(0, 1, 1, b)) == State(map[0 := Block(1, 2, b)], {1}, map[Tracked(1, Holder) := 2])
    ensures Changes(t1, t2, 1, Holder, 1)
  {
    assert Merged(t1, 0, 1, 1, b) == b;
    t2 := Step(t1, PushUpdate(0, 1, 1, b));
    assert t2.live[0].vals[Holder] != t1.live[0].vals[Holder];
  }
}
