/** The rate limiter: a bounded table of keys in order of use, compared with a limiter that never
    forgets. */
module RateLimit {
  import opened Wire
  import opened Sequences
  import opened Backoff

  datatype Config = Config(maxEntries: int, free: int, base: int, max: int) {
    predicate Ok() { maxEntries > 0 && free > 0 && 0 < base <= INT64_MAX && 0 < max <= INT64_MAX }
  }

  const SECOND := 1_000_000_000

  function OrDefault(x: int, default: int): int { if x <= 0 then default else x }

  /** Zero and negative settings stand for the defaults. */
  function Configured(c: Config): Config {
    Config(OrDefault(c.maxEntries, 4096), OrDefault(c.free, 5), OrDefault(c.base, SECOND),
           OrDefault(c.max, 30 * SECOND))
  }

  /** A tracked key.  Times are nanoseconds; an entry that was never blocked has no deadline. */
  datatype Entry = Entry(failures: nat, blockedUntil: Option<int>)

  const NEW_ENTRY := Entry(0, None)

  const CEILING := 0x4000_0000

  function OneMore(failures: nat): nat { if failures < CEILING then failures + 1 else failures }

  function Failed(c: Config, e: Entry, now: int): Entry {
    var f := OneMore(e.failures);
    if f <= c.free then Entry(f, e.blockedUntil)
    else Entry(f, Some(now + Delay(c.base, c.max, f - c.free - 1)))
  }

  predicate Blocked(e: Option<Entry>, now: int) {
    e.Some? && e.value.blockedUntil.Some? && now < e.value.blockedUntil.value
  }

  /** Time until the deadline, saturating as durations do. */
  function RetryAfter(e: Option<Entry>, now: int): int {
    if Blocked(e, now) then Min(e.value.blockedUntil.value - now, INT64_MAX) else 0
  }

  datatype Event<K> = Ask(key: K, now: int) | Fail(key: K, now: int) | Succeed(key: K)

  function Lookup<K(==)>(m: map<K, Entry>, k: K): Option<Entry> { if k in m then Some(m[k]) else None }

  function EntryOr<K(==)>(m: map<K, Entry>, k: K): Entry { if k in m then m[k] else NEW_ENTRY }

  // ----- The reference: nothing is ever forgotten -----

  function RefStep<K(==)>(c: Config, m: map<K, Entry>, e: Event<K>): map<K, Entry> {
    match e
    case Ask(_, _) => m
    case Fail(k, now) => m[k := Failed(c, EntryOr(m, k), now)]
    case Succeed(k) => m - {k}
  }

  // ----- The bounded table -----

  /** Most recently used key first. */
  datatype Lru<K> = Lru(entries: map<K, Entry>, order: seq<K>)

  function Without<K(==)>(order: seq<K>, k: K): seq<K> {
    if order == [] then []
    else if order[0] == k then order[1..]
    else [order[0]] + Without(order[1..], k)
  }

  function ToFront<K(==)>(order: seq<K>, k: K): seq<K> { [k] + Without(order, k) }

  /** Make room for one more key: the least recently used goes. */
  function Evicted<K(==)>(c: Config, st: Lru<K>): Lru<K> {
    if |st.entries| >= c.maxEntries && st.order != [] then
      var n := |st.order| - 1;
      Lru(st.entries - {st.order[n]}, st.order[..n])
    else st
  }

  function Inserted<K(==)>(c: Config, st: Lru<K>, k: K): Lru<K> {
    var roomy := Evicted(c, st);
    Lru(roomy.entries[k := NEW_ENTRY], [k] + roomy.order)
  }

  function LruStep<K(==)>(c: Config, st: Lru<K>, e: Event<K>): Lru<K> {
    match e
    case Ask(k, _) => if k in st.entries then st.(order := ToFront(st.order, k)) else st
    case Fail(k, now) =>
      var at := if k in st.entries then st.(order := ToFront(st.order, k)) else Inserted(c, st, k);
      at.(entries := at.entries[k := Failed(c, at.entries[k], now)])
    case Succeed(k) => if k in st.entries then Lru(st.entries - {k}, Without(st.order, k)) else st
  }

  ghost predicate SameKeys<K>(order: seq<K>, keys: set<K>) {
    (forall k :: k in order ==> k in keys) && (forall k :: k in keys ==> k in order)
  }

  /** List and table hold the same keys, each once, and not too many. */
  ghost predicate Sound<K>(c: Config, st: Lru<K>) {
    && Distinct(st.order) && SameKeys(st.order, st.entries.Keys)
    && |st.entries| == |st.order| <= c.maxEntries
  }

  lemma PrependNew<K>(k: K, s: seq<K>)
    requires Distinct(s) && k !in s
    ensures Distinct([k] + s)
  {
  }

  lemma {:induction false} WithoutExact<K>(order: seq<K>, k: K)
    requires Distinct(order)
    ensures Distinct(Without(order, k))
    ensures forall x :: x in Without(order, k) ==> x in order && x != k
    ensures forall x :: x in order && x != k ==> x in Without(order, k)
    ensures |Without(order, k)| == if k in order then |order| - 1 else |order|
  {
    if order != [] {
      assert order == [order[0]] + order[1..];
      assert order[0] !in order[1..];
      if order[0] != k {
        WithoutExact(order[1..], k);
        PrependNew(order[0], Without(order[1..], k));
      }
    }
  }

  lemma SizeWithout<K>(m: map<K, Entry>, k: K)
    requires k in m
    ensures |m - {k}| == |m| - 1
  {
    assert (m - {k}).Keys == m.Keys - {k};
    assert |m.Keys| == |m| && |(m - {k}).Keys| == |m - {k}|;
  }

  lemma DropLastKeys<K>(order: seq<K>, keys: set<K>)
    requires Distinct(order) && SameKeys(order, keys) && order != []
    ensures var n := |order| - 1; Distinct(order[..n]) && SameKeys(order[..n], keys - {order[n]})
  {
    var n := |order| - 1;
    assert order == order[..n] + [order[n]];
    assert order[n] !in order[..n];
  }

  lemma EvictedSound<K>(c: Config, st: Lru<K>)
    requires c.Ok() && Sound(c, st)
    ensures Sound(c, Evicted(c, st)) && |Evicted(c, st).entries| < c.maxEntries
    ensures forall k :: k in Evicted(c, st).entries ==> k in st.entries && Evicted(c, st).entries[k] == st.entries[k]
  {
    if |st.entries| >= c.maxEntries {
      var last := st.order[|st.order| - 1];
      DropLastKeys(st.order, st.entries.Keys);
      assert last in st.order;
      SizeWithout(st.entries, last);
      assert (st.entries - {last}).Keys == st.entries.Keys - {last};
    }
  }

  lemma WithoutKeys<K>(order: seq<K>, keys: set<K>, k: K)
    requires Distinct(order) && SameKeys(order, keys) && k in keys
    ensures Distinct(Without(order, k)) && SameKeys(Without(order, k), keys - {k}) && |Without(order, k)| == |order| - 1
  {
    WithoutExact(order, k);
    forall x | x in Without(order, k) ensures x in keys - {k} {
      assert x in order && x != k;
    }
    forall x | x in keys - {k} ensures x in Without(order, k) {
      assert x in order && x != k;
    }
  }

  lemma FrontKeys<K>(order: seq<K>, keys: set<K>, k: K)
    requires Distinct(order) && SameKeys(order, keys - {k}) && k in keys && k !in order
    ensures Distinct([k] + order) && SameKeys([k] + order, keys)
  {
    PrependNew(k, order);
    forall x | x in keys ensures x in [k] + order {
      assert x != k ==> x in keys - {k};
    }
  }

  lemma TouchSound<K>(c: Config, st: Lru<K>, k: K)
    requires Sound(c, st) && k in st.entries
    ensures Sound(c, st.(order := ToFront(st.order, k)))
  {
    WithoutKeys(st.order, st.entries.Keys, k);
    FrontKeys(Without(st.order, k), st.entries.Keys, k);
  }

  lemma RemoveSound<K>(c: Config, st: Lru<K>, k: K)
    requires Sound(c, st) && k in st.entries
    ensures Sound(c, Lru(st.entries - {k}, Without(st.order, k)))
  {
    WithoutKeys(st.order, st.entries.Keys, k);
    SizeWithout(st.entries, k);
    assert (st.entries - {k}).Keys == st.entries.Keys - {k};
  }

  lemma InsertSound<K>(c: Config, st: Lru<K>, k: K)
    requires c.Ok() && Sound(c, st) && k !in st.entries
    ensures Sound(c, Inserted(c, st, k))
  {
    EvictedSound(c, st);
    PrependNew(k, Evicted(c, st).order);
  }

  /** Every operation keeps list and table in step. */
  lemma StepSound<K>(c: Config, st: Lru<K>, e: Event<K>)
    requires c.Ok() && Sound(c, st)
    ensures Sound(c, LruStep(c, st, e))
  {
    if e.key in st.entries {
      TouchSound(c, st, e.key);
      RemoveSound(c, st, e.key);
    } else {
      InsertSound(c, st, e.key);
    }
  }

  // ----- Runs -----

  function RefRun<K(==)>(c: Config, es: seq<Event<K>>): map<K, Entry> {
    if es == [] then map[] else RefStep(c, RefRun(c, es[..|es| - 1]), es[|es| - 1])
  }

  function LruRun<K(==)>(c: Config, es: seq<Event<K>>): Lru<K> {
    if es == [] then Lru(map[], []) else LruStep(c, LruRun(c, es[..|es| - 1]), es[|es| - 1])
  }

  /** What an event does to the order of use: a failure always counts as a use, a question only
      if its key is tracked. */
  predicate Uses<K(==)>(st: Lru<K>, e: Event<K>) { e.Fail? || (e.Ask? && e.key in st.entries) }

  /** Other keys used since this one was. */
  function Others<K(==)>(s: set<K>, st: Lru<K>, e: Event<K>, k: K): set<K> {
    if !Uses(st, e) then s else if e.key == k then {} else s + {e.key}
  }

  function Since<K(==)>(c: Config, es: seq<Event<K>>, k: K): set<K> {
    if es == [] then {}
    else Others(Since(c, es[..|es| - 1], k), LruRun(c, es[..|es| - 1]), es[|es| - 1], k)
  }

  /** Ever since the key is tracked, fewer other keys than the table holds were used between two
      uses of it. */
  ghost predicate Intact<K>(c: Config, es: seq<Event<K>>, k: K) {
    k !in RefRun(c, es) || (es != [] && Intact(c, es[..|es| - 1], k) && |Since(c, es, k)| < c.maxEntries)
  }

  /** The key is in the list, and only these keys are ahead of it. */
  ghost predicate AheadWithin<K>(order: seq<K>, k: K, s: set<K>) {
    order != [] && (order[0] == k || (order[0] in s && AheadWithin(order[1..], k, s)))
  }

  lemma {:induction false} AheadWider<K>(order: seq<K>, k: K, s: set<K>, t: set<K>)
    requires AheadWithin(order, k, s) && s <= t
    ensures AheadWithin(order, k, t)
  {
    if order[0] != k {
      AheadWider(order[1..], k, s, t);
    }
  }

  lemma {:induction false} AheadWithout<K>(order: seq<K>, k: K, s: set<K>, x: K)
    requires AheadWithin(order, k, s) && x != k
    ensures AheadWithin(Without(order, x), k, s)
  {
    if order[0] != k && order[0] != x {
      AheadWithout(order[1..], k, s, x);
      assert Without(order, x)[1..] == Without(order[1..], x);
    }
  }

  lemma AheadToFront<K>(order: seq<K>, k: K, s: set<K>, x: K)
    requires AheadWithin(order, k, s) && x != k
    ensures AheadWithin(ToFront(order, x), k, s + {x})
  {
    AheadWithout(order, k, s, x);
    AheadWider(Without(order, x), k, s, s + {x});
    assert ToFront(order, x)[1..] == Without(order, x);
  }

  /** A key at the very end has all the others ahead of it; any other survives the loss of the end. */
  lemma {:induction false} AheadDropLast<K>(order: seq<K>, k: K, s: set<K>)
    requires AheadWithin(order, k, s) && Distinct(order)
    ensures var n := |order| - 1;
            if order[n] == k then forall i :: 0 <= i < n ==> order[i] in s else AheadWithin(order[..n], k, s)
  {
    var n := |order| - 1;
    if order[0] != k {
      AheadDropLast(order[1..], k, s);
      assert order[1..][n - 1] == order[n];
      if order[n] == k {
        forall i | 0 <= i < n ensures order[i] in s {
          assert i > 0 ==> order[1..][i - 1] == order[i];
        }
      } else {
        assert order[1..][..n - 1] == order[..n][1..];
      }
    }
  }

  lemma {:induction false} SetOfDistinct<K>(order: seq<K>, s: set<K>)
    requires Distinct(order) && forall i :: 0 <= i < |order| ==> order[i] in s
    ensures |order| <= |s|
  {
    if order != [] {
      var n := |order| - 1;
      SetOfDistinct(order[..n], s - {order[n]});
    }
  }

  /** The key's entry agrees with the reference, and what is ahead of it was touched since. */
  ghost predicate Agrees<K>(st: Lru<K>, m: map<K, Entry>, k: K, s: set<K>) {
    && (k in st.entries <==> k in m)
    && (k in m ==> st.entries[k] == m[k] && AheadWithin(st.order, k, s))
  }

  /** Inserting another key costs the entry its place only if too many keys were touched. */
  lemma InsertAgrees<K>(c: Config, st: Lru<K>, m: map<K, Entry>, k: K, s: set<K>, x: K)
    requires c.Ok() && Sound(c, st) && Agrees(st, m, k, s) && x != k && x !in st.entries
    requires k in m ==> |s + {x}| < c.maxEntries
    ensures var at := Inserted(c, st, x);
            (k in at.entries <==> k in m) && (k in m ==> at.entries[k] == m[k] && AheadWithin(at.order, k, s + {x}))
  {
    if k in m {
      var at := Inserted(c, st, x);
      AheadDropLast(st.order, k, s);
      if |st.entries| >= c.maxEntries {
        var n := |st.order| - 1;
        if st.order[n] == k {
          var others := st.order[..n] + [x];
          SetOfDistinct(others, s + {x});
          assert false;
        } else {
          AheadWider(st.order[..n], k, s, s + {x});
          assert at.order[1..] == st.order[..n];
        }
      } else {
        AheadWider(st.order, k, s, s + {x});
        assert at.order[1..] == st.order;
      }
    }
  }

  lemma StepAgrees<K>(c: Config, st: Lru<K>, m: map<K, Entry>, k: K, s: set<K>, e: Event<K>)
    requires c.Ok() && Sound(c, st) && Agrees(st, m, k, s)
    requires k in RefStep(c, m, e) ==> |Others(s, st, e, k)| < c.maxEntries
    ensures Agrees(LruStep(c, st, e), RefStep(c, m, e), k, Others(s, st, e, k))
  {
    var x := e.key;
    if x != k {
      if x !in st.entries && e.Fail? {
        InsertAgrees(c, st, m, k, s, x);
      } else if k in m {
        AheadToFront(st.order, k, s, x);
        AheadWithout(st.order, k, s, x);
        AheadWider(st.order, k, s, s + {x});
      }
    }
  }

  lemma {:induction false} RunSound<K>(c: Config, es: seq<Event<K>>)
    requires c.Ok()
    ensures Sound(c, LruRun(c, es))
  {
    if es != [] {
      var n := |es| - 1;
      RunSound(c, es[..n]);
      StepSound(c, LruRun(c, es[..n]), es[n]);
    }
  }

  lemma StepTracked<K>(c: Config, st: Lru<K>, m: map<K, Entry>, e: Event<K>)
    requires c.Ok() && Sound(c, st) && st.entries.Keys <= m.Keys
    ensures LruStep(c, st, e).entries.Keys <= RefStep(c, m, e).Keys
  {
    EvictedSound(c, st);
    assert Evicted(c, st).entries.Keys <= st.entries.Keys;
  }

  /** Nothing is tracked that the reference does not track. */
  lemma {:induction false} TrackedInBoth<K>(c: Config, es: seq<Event<K>>)
    requires c.Ok()
    ensures LruRun(c, es).entries.Keys <= RefRun(c, es).Keys
  {
    if es != [] {
      var n := |es| - 1;
      TrackedInBoth(c, es[..n]);
      RunSound(c, es[..n]);
      StepTracked(c, LruRun(c, es[..n]), RefRun(c, es[..n]), es[n]);
    }
  }

  /** Refinement: an intact key has exactly the reference's entry. */
  lemma {:induction false} LruRefines<K>(c: Config, es: seq<Event<K>>, k: K)
    requires c.Ok() && Intact(c, es, k)
    ensures Lookup(LruRun(c, es).entries, k) == Lookup(RefRun(c, es), k)
    ensures Agrees(LruRun(c, es), RefRun(c, es), k, Since(c, es, k))
  {
    TrackedInBoth(c, es);
    if k in RefRun(c, es) {
      var n := |es| - 1;
      LruRefines(c, es[..n], k);
      RunSound(c, es[..n]);
      StepAgrees(c, LruRun(c, es[..n]), RefRun(c, es[..n]), k, Since(c, es[..n], k), es[n]);
    }
  }

  /** Hence it gets the reference's answers. */
  lemma IntactAnswers<K>(c: Config, es: seq<Event<K>>, k: K, now: int)
    requires c.Ok() && Intact(c, es, k)
    ensures var lru, ref := Lookup(LruRun(c, es).entries, k), Lookup(RefRun(c, es), k);
            Blocked(lru, now) == Blocked(ref, now) && RetryAfter(lru, now) == RetryAfter(ref, now)
  {
    LruRefines(c, es, k);
  }

  // ----- What an entry says, in terms of the events alone -----

  /** Failures of a key since its last success. */
  function Failures<K(==)>(es: seq<Event<K>>, k: K): nat {
    if es == [] then 0
    else
      var n := |es| - 1;
      if es[n].key != k || es[n].Ask? then Failures(es[..n], k)
      else if es[n].Succeed? then 0
      else Failures(es[..n], k) + 1
  }

  /** When the key failed last. */
  function LastFailure<K(==)>(es: seq<Event<K>>, k: K): int {
    if es == [] then 0
    else
      var n := |es| - 1;
      if es[n].key == k && es[n].Fail? then es[n].now else LastFailure(es[..n], k)
  }

  /** The reference tracks exactly the keys that failed since their last success, with their
      number of failures up to the ceiling; past the free attempts the key is blocked until
      min(max, base * 2^(failures - free - 1)) after its last failure. */
  lemma {:induction false} ReferenceExact<K>(c: Config, es: seq<Event<K>>, k: K)
    requires c.Ok() && c.max <= TWO_62 + 1
    ensures var n := Min(Failures(es, k), 0x4000_0000);
            if n == 0 then k !in RefRun(c, es)
            else
              && k in RefRun(c, es)
              && RefRun(c, es)[k] == Entry(n, if n <= c.free then None
                                              else Some(LastFailure(es, k) + Capped(c.base, c.max, n - c.free - 1)))
  {
    if es != [] {
      var n := |es| - 1;
      ReferenceExact(c, es[..n], k);
      var f := Min(Failures(es, k), 0x4000_0000);
      if es[n].key == k && es[n].Fail? && f > c.free {
        ClosedFormFrom(c.base, c.max, f - c.free - 1);
      }
    }
  }

  /** So an intact key is refused exactly when it failed more often than is free and its last
      failure is less than the back-off ago. */
  lemma RefusedExactly<K>(c: Config, es: seq<Event<K>>, k: K, now: int)
    requires c.Ok() && c.max <= TWO_62 + 1 && Intact(c, es, k)
    ensures var n := Min(Failures(es, k), 0x4000_0000);
            Blocked(Lookup(LruRun(c, es).entries, k), now) <==>
            n > c.free && now < LastFailure(es, k) + Capped(c.base, c.max, n - c.free - 1)
  {
    LruRefines(c, es, k);
    ReferenceExact(c, es, k);
  }

  // ----- Forgetting never makes the limiter stricter -----

  /** No more failures and no later deadline than the reference. */
  predicate NoStricter(c: Config, e: Entry, r: Entry) {
    && e.failures <= r.failures && (e.failures <= c.free ==> e.blockedUntil.None?)
    && (e.blockedUntil.Some? ==> r.blockedUntil.Some? && e.blockedUntil.value <= r.blockedUntil.value)
  }

  lemma FailNoStricter(c: Config, e: Entry, r: Entry, now: int)
    requires c.Ok() && c.max <= TWO_62 + 1 && NoStricter(c, e, r)
    ensures NoStricter(c, Failed(c, e, now), Failed(c, r, now))
  {
    var f, g := OneMore(e.failures), OneMore(r.failures);
    if f > c.free && f <= g {
      DelayMonotone(c.base, c.max, f - c.free - 1, g - c.free - 1);
    }
  }

  ghost predicate AllNoStricter<K>(c: Config, entries: map<K, Entry>, m: map<K, Entry>) {
    forall k :: k in entries ==> k in m && NoStricter(c, entries[k], m[k])
  }

  lemma StepNoStricter<K>(c: Config, st: Lru<K>, m: map<K, Entry>, e: Event<K>)
    requires c.Ok() && c.max <= TWO_62 + 1 && Sound(c, st) && AllNoStricter(c, st.entries, m)
    ensures AllNoStricter(c, LruStep(c, st, e).entries, RefStep(c, m, e))
  {
    EvictedSound(c, st);
    if e.Fail? {
      if e.key in st.entries {
        FailNoStricter(c, st.entries[e.key], m[e.key], e.now);
      } else if e.key in m {
        FailNoStricter(c, NEW_ENTRY, m[e.key], e.now);
      } else {
        FailNoStricter(c, NEW_ENTRY, NEW_ENTRY, e.now);
      }
    }
  }

  /** Over every run, what the bounded limiter refuses the reference refuses too, for at least as
      long. */
  lemma {:induction false} NeverStricter<K>(c: Config, es: seq<Event<K>>)
    requires c.Ok() && c.max <= TWO_62 + 1
    ensures AllNoStricter(c, LruRun(c, es).entries, RefRun(c, es))
    ensures forall k, now :: k in LruRun(c, es).entries && Blocked(Lookup(LruRun(c, es).entries, k), now) ==>
              && Blocked(Lookup(RefRun(c, es), k), now)
              && RetryAfter(Lookup(LruRun(c, es).entries, k), now) <= RetryAfter(Lookup(RefRun(c, es), k), now)
  {
    if es != [] {
      var n := |es| - 1;
      NeverStricter(c, es[..n]);
      RunSound(c, es[..n]);
      StepNoStricter(c, LruRun(c, es[..n]), RefRun(c, es[..n]), es[n]);
    }
  }

  // ----- Waiting is enough -----

  /** No deadline is further off than the cap. */
  ghost predicate Bounded<K>(c: Config, entries: map<K, Entry>, now: int) {
    forall k :: k in entries && entries[k].blockedUntil.Some? ==> entries[k].blockedUntil.value <= now + c.max
  }

  /** Readings of the clock do not go back, and none is later than `now`. */
  ghost predicate ClockRuns<K>(es: seq<Event<K>>, now: int) {
    es == [] || (var e := es[|es| - 1];
                  if e.Succeed? then ClockRuns(es[..|es| - 1], now)
                  else e.now <= now && ClockRuns(es[..|es| - 1], e.now))
  }

  lemma StepBounded<K>(c: Config, st: Lru<K>, e: Event<K>, t: int, now: int)
    requires c.Ok() && Sound(c, st) && Bounded(c, st.entries, t) && t <= now && (!e.Succeed? ==> t == e.now)
    ensures Bounded(c, LruStep(c, st, e).entries, now)
  {
    EvictedSound(c, st);
    if e.Fail? {
      var before := if e.key in st.entries then st.entries[e.key] else NEW_ENTRY;
      var f := OneMore(before.failures);
      if f > c.free {
        DelayInRange(c.base, c.max, f - c.free - 1);
      }
    }
  }

  lemma {:induction false} RunBounded<K>(c: Config, es: seq<Event<K>>, now: int)
    requires c.Ok() && ClockRuns(es, now)
    ensures Bounded(c, LruRun(c, es).entries, now)
  {
    if es != [] {
      var n := |es| - 1;
      var t := if es[n].Succeed? then now else es[n].now;
      RunBounded(c, es[..n], t);
      RunSound(c, es[..n]);
      StepBounded(c, LruRun(c, es[..n]), es[n], t, now);
    }
  }

  /** Without a new failure of its own, a key's entry stays or goes. */
  lemma KeepOrLose<K>(c: Config, st: Lru<K>, e: Event<K>, k: K)
    requires c.Ok() && Sound(c, st) && !(e.Fail? && e.key == k)
    ensures var after := Lookup(LruStep(c, st, e).entries, k); after == None || after == Lookup(st.entries, k)
  {
    EvictedSound(c, st);
  }

  lemma {:induction false} KeepOrLoseRun<K>(c: Config, es: seq<Event<K>>, later: seq<Event<K>>, k: K)
    requires c.Ok() && forall i :: 0 <= i < |later| ==> !(later[i].Fail? && later[i].key == k)
    ensures var after := Lookup(LruRun(c, es + later).entries, k);
            after == None || after == Lookup(LruRun(c, es).entries, k)
  {
    if later == [] {
      assert es + later == es;
    } else {
      var n := |later| - 1;
      KeepOrLoseRun(c, es, later[..n], k);
      RunSound(c, es + later[..n]);
      assert (es + later)[..|es + later| - 1] == es + later[..n];
      KeepOrLose(c, LruRun(c, es + later[..n]), later[n], k);
    }
  }

  /** Waiting the time that Allow reports, with no failure of the key in between, is always
      enough, whatever else happens. */
  lemma WaitingSuffices<K>(c: Config, es: seq<Event<K>>, later: seq<Event<K>>, k: K, now: int, retry: int)
    requires c.Ok() && ClockRuns(es, now)
    requires forall i :: 0 <= i < |later| ==> !(later[i].Fail? && later[i].key == k)
    requires retry >= now + RetryAfter(Lookup(LruRun(c, es).entries, k), now)
    ensures !Blocked(Lookup(LruRun(c, es + later).entries, k), retry)
  {
    RunBounded(c, es, now);
    KeepOrLoseRun(c, es, later, k);
  }

  /** A tracked key is refused until its deadline. */
  predicate Refuses<K(==)>(entries: map<K, Entry>, k: K, t: int) {
    k in entries && entries[k].blockedUntil.Some? && t < entries[k].blockedUntil.value
  }

  /** The wait that Allow reports is the least that is enough: with no event in between the key is
      refused at every earlier time and admitted at the end of it; and it never exceeds the cap, so
      durations do not saturate. */
  lemma WaitExact<K>(c: Config, es: seq<Event<K>>, k: K, now: int)
    requires c.Ok() && ClockRuns(es, now)
    ensures var entries := LruRun(c, es).entries;
            var wait := RetryAfter(Lookup(entries, k), now);
            && 0 <= wait <= c.max && (wait == 0 <==> !Refuses(entries, k, now))
            && (forall t :: now <= t < now + wait ==> Refuses(entries, k, t)) && !Refuses(entries, k, now + wait)
  {
    RunBounded(c, es, now);
  }

  /** For an intact key it is what is left of the back-off since its last failure. */
  lemma IntactWait<K>(c: Config, es: seq<Event<K>>, k: K, now: int)
    requires c.Ok() && c.max <= TWO_62 + 1 && ClockRuns(es, now) && Intact(c, es, k)
    ensures var n := Min(Failures(es, k), 0x4000_0000);
            RetryAfter(Lookup(LruRun(c, es).entries, k), now) ==
            if n <= c.free then 0
            else Max(LastFailure(es, k) + Capped(c.base, c.max, n - c.free - 1) - now, 0)
  {
    RunBounded(c, es, now);
    LruRefines(c, es, k);
    ReferenceExact(c, es, k);
  }

  // ----- The limiter itself -----

  class Limiter<K(==)> {
    const config: Config
    var entries: map<K, Entry>
    var order: seq<K>

    ghost function State(): Lru<K>
      reads this
    {
      Lru(entries, order)
    }

    ghost predicate Valid()
      reads this
    {
      config.Ok() && Sound(config, State())
    }

    constructor (settings: Config)
      requires settings.base <= INT64_MAX && settings.max <= INT64_MAX
      ensures Valid() && State() == Lru(map[], [])
      ensures config.maxEntries == if settings.maxEntries <= 0 then 4096 else settings.maxEntries
      ensures config.free == if settings.free <= 0 then 5 else settings.free
      ensures config.base == if settings.base <= 0 then 1_000_000_000 else settings.base
      ensures config.max == if settings.max <= 0 then 30_000_000_000 else settings.max
    {
      config := Configured(settings);
      entries, order := map[], [];
    }

    method Allow(key: K, now: int) returns (ok: bool, retryAfter: int)
      requires Valid()
      modifies this
      ensures Valid() && State() == LruStep(config, old(State()), Ask(key, now))
      ensures retryAfter == RetryAfter(Lookup(old(entries), key), now)
      ensures ok <==> !Refuses(old(entries), key, now)
      ensures ok ==> retryAfter == 0
      ensures !ok ==> 0 < retryAfter <= INT64_MAX && forall t :: now <= t < now + retryAfter ==>
                Refuses(entries, key, t)
      ensures !ok && retryAfter < INT64_MAX ==> !Refuses(entries, key, now + retryAfter)
    {
      if key !in entries {
        return true, 0;
      }
      Touch(key);
      var e := entries[key];
      if e.blockedUntil.Some? && now < e.blockedUntil.value {
        return false, Min(e.blockedUntil.value - now, INT64_MAX);
      }
      return true, 0;
    }

    /** Move a tracked key to the front of the list. */
    method Touch(key: K)
      requires Valid() && key in entries
      modifies this`order
      ensures Valid() && order == ToFront(old(order), key)
    {
      TouchSound(config, State(), key);
      order := ToFront(order, key);
    }

    method InsertLocked(key: K)
      requires Valid() && key !in entries
      modifies this
      ensures State() == Inserted(config, old(State()), key) && Valid()
    {
      InsertSound(config, State(), key);
      if |entries| >= config.maxEntries {
        if order != [] {
          var back := order[|order| - 1];
          order := order[..|order| - 1];
          entries := entries - {back};
        }
      }
      order := [key] + order;
      entries := entries[key := NEW_ENTRY];
    }

    method RecordFailure(key: K, now: int)
      requires Valid()
      modifies this
      ensures Valid() && State() == LruStep(config, old(State()), Fail(key, now))
    {
      StepSound(config, State(), Fail(key, now));
      if key !in entries {
        InsertLocked(key);
      } else {
        Touch(key);
      }
      var e := NextEntry(entries[key], now);
      entries := entries[key := e];
    }

    /** The entry fields after one more failure. */
    method NextEntry(e: Entry, now: int) returns (r: Entry)
      ensures r == Failed(config, e, now)
    {
      var failures, blockedUntil := e.failures, e.blockedUntil;
      if failures < CEILING {
        failures := failures + 1;
      }
      if failures > config.free {
        var delay := ComputeDelay(config.base, config.max, failures - config.free - 1);
        blockedUntil := Some(now + delay);
      }
      r := Entry(failures, blockedUntil);
    }

    method RecordSuccess(key: K)
      requires Valid()
      modifies this
      ensures Valid() && State() == LruStep(config, old(State()), Succeed(key))
    {
      StepSound(config, State(), Succeed(key));
      if key in entries {
        order := Without(order, key);
        entries := entries - {key};
      }
    }
  }
}
