/** Stock conservation: over any run in which only adjustments change an item's quantity, the
    quantity is the initial one plus all posted deltas, in 64-bit arithmetic. */
module StockLaws {
  import opened Wire
  import opened Database
  import opened Push
  import opened Runs

  datatype Posting = Posting(id: string, delta: Int64, resulting: Int64)

  type Int64 = n: int | IsInt64(n)

  /** Equal as 64-bit integers. */
  ghost predicate Same64(x: int, y: int) { exists k: int :: x == y + k * 0x1_0000_0000_0000_0000 }

  /** 64-bit addition agrees with exact addition up to wrap-around. */
  lemma AddSame64(x: int, a: int, d: int)
    requires IsInt64(a) && IsInt64(d) && Same64(a, x)
    ensures Same64(Add64(a, d), x + d)
  {
    var k :| a == x + k * 0x1_0000_0000_0000_0000;
    var j := if a + d > INT64_MAX then k - 1 else if a + d < INT64_MIN then k + 1 else k;
    assert Add64(a, d) == x + d + j * 0x1_0000_0000_0000_0000;
  }

  /** A sum that stays in range is met exactly. */
  lemma InRangeIsExact(x: int, y: int)
    requires Same64(x, y) && IsInt64(x) && IsInt64(y)
    ensures x == y
  {
  }

  /** The id under which an event would post an adjustment; empty for other events. */
  function PostedId(e: Event): string {
    match e
    case AdjustStock(id, _, _, _, _) => id
    case PushOne(m) => if m.target == Table(Stock) then m.entityId else ""
    case _ => ""
  }

  predicate Posts(db: Db, db': Db, e: Event, item: string) {
    var key := Key(Stock, PostedId(e));
    key.id != "" && key !in db.rows && key in db'.rows && db'.rows[key].owner == item
  }

  function QuantityOf(db: Db, item: string): (q: int)
    ensures IsInt64(q)
  {
    if Key(Item, item) in db.rows then Number64(db.rows[Key(Item, item)].vals, Quantity) else 0
  }

  function PostingOf(db: Db, id: string): Posting {
    if Key(Stock, id) in db.rows
    then Posting(id, Number64(db.rows[Key(Stock, id)].vals, Delta),
                 Number64(db.rows[Key(Stock, id)].vals, ResultingQuantity))
    else Posting(id, 0, 0)
  }

  /** Stock rows are append-only: written once, by the event that carries their id. */
  ghost predicate AppendOnly(db: Db, db': Db, e: Event, key: Key) {
    && (key in db.rows ==> key in db'.rows && db'.rows[key] == db.rows[key])
    && (key !in db.rows && key in db'.rows ==> key.id == PostedId(e))
  }

  lemma AdjustPosts(db: Db, id: string, item: string, delta: int, reason: string, note: string)
    requires Sound(db) && Key(Item, item) in db.rows && Key(Stock, id) !in db.rows && IsInt64(delta)
    ensures var db' := Adjust(db, id, item, delta, reason, note);
            && PostingOf(db', id) == Posting(id, delta, Add64(QuantityOf(db, item), delta))
            && QuantityOf(db', item) == Add64(QuantityOf(db, item), delta)
            && forall key: Key :: key.kind.Stock? && key != Key(Stock, id) ==>
                 (key in db'.rows <==> key in db.rows) && (key in db.rows ==> db'.rows[key] == db.rows[key])
  {
  }

  lemma {:induction false} CreateItemStock(db: Db, m: Mutation, vals: map<Field, Val>, attempt: nat, key: Key)
    requires m.target == Table(Item) && key.kind.Stock?
    ensures var h := CreateItem(db, m, vals, attempt);
            h.Done? ==> (key in h.db.rows <==> key in db.rows) && (key in db.rows ==> h.db.rows[key] == db.rows[key])
    decreases MAX_CODE_ATTEMPTS - attempt
  {
    if attempt < MAX_CODE_ATTEMPTS && CodeTaken(db, m.Code(attempt)) {
      CreateItemStock(db.(counter := db.counter + 1), m, vals, attempt + 1, key);
    }
  }

  /** The stock row under `key` is the same in both. */
  predicate SameStock(db: Db, db': Db, key: Key) {
    (key in db'.rows <==> key in db.rows) && (key in db.rows ==> db'.rows[key] == db.rows[key])
  }

  lemma EntityKeepsStock(db: Db, m: Mutation, key: Key)
    requires m.target.Table? && !m.target.kind.Stock? && key.kind.Stock?
    ensures PushEntity(db, m).Done? ==> SameStock(db, PushEntity(db, m).db, key)
  {
    if m.base == 0 && m.target.kind.Item? && m.TheKey() !in db.rows && Decodable(m, Columns(Item)) {
      CreateItemStock(db, m, CreatedVals(m, Item), 0, key);
    }
  }

  lemma PushStockAppends(db: Db, m: Mutation, key: Key)
    requires Sound(db) && m.target == Table(Stock) && key.kind.Stock?
    ensures PushStock(db, m).Done? ==> AppendOnly(db, PushStock(db, m).db, PushOne(m), key)
  {
    if PushStock(db, m).Done? && PushStock(db, m).outcome.applied {
      var vals := CreatedVals(m, Stock);
      AdjustPosts(db, m.entityId, Owner(m), Number64(vals, Delta), Text(vals, Reason), Text(vals, Note));
    }
  }

  lemma PushAppendOnly(db: Db, m: Mutation, key: Key)
    requires Sound(db) && key.kind.Stock?
    ensures AppendOnly(db, Apply(db, m).db, PushOne(m), key)
  {
    if m.op.Upsert? && m.target.Table? {
      if m.target.kind.Stock? {
        PushStockAppends(db, m, key);
      } else {
        EntityKeepsStock(db, m, key);
      }
    }
  }

  lemma StepAppendOnly(db: Db, e: Event, key: Key)
    requires Sound(db) && key.kind.Stock?
    ensures AppendOnly(db, Step(db, e), e, key)
  {
    if e.PushOne? {
      PushAppendOnly(db, e.m, key);
    } else if e.AdjustStock? && Step(db, e) != db {
      AdjustPosts(db, e.id, e.item, e.delta, e.reason, e.note);
    }
  }

  lemma StockOutcome(db: Db, m: Mutation)
    requires m.target == Table(Stock) && PushStock(db, m).Done? && PushStock(db, m).db != db
    ensures Decodable(m, Columns(Stock)) && Key(Item, Owner(m)) in db.rows && m.TheKey() !in db.rows
    ensures var vals := CreatedVals(m, Stock);
            PushStock(db, m).db ==
            Adjust(db, m.entityId, Owner(m), Number64(vals, Delta), Text(vals, Reason), Text(vals, Note))
  {
  }

  lemma PushPosting(db: Db, m: Mutation, item: string)
    requires Sound(db) && m.target == Table(Stock) && m.TheKey() !in db.rows
    requires PushStock(db, m).Done?
    requires var db' := PushStock(db, m).db; m.TheKey() in db'.rows && db'.rows[m.TheKey()].owner == item
    ensures var db' := PushStock(db, m).db;
            var p := PostingOf(db', m.entityId);
            QuantityOf(db', item) == Add64(QuantityOf(db, item), p.delta) == p.resulting
  {
    StockOutcome(db, m);
    var vals := CreatedVals(m, Stock);
    AdjustPosts(db, m.entityId, Owner(m), Number64(vals, Delta), Text(vals, Reason), Text(vals, Note));
  }

  /** A posting event adds its delta to the quantity and stores the result beside it. */
  lemma PostingStep(db: Db, e: Event, item: string)
    requires Sound(db) && Posts(db, Step(db, e), e, item)
    ensures var p, db' := PostingOf(Step(db, e), PostedId(e)), Step(db, e);
            QuantityOf(db', item) == Add64(QuantityOf(db, item), p.delta) == p.resulting
  {
    if e.AdjustStock? {
      AdjustPosts(db, e.id, e.item, e.delta, e.reason, e.note);
    } else {
      var h := PushStock(db, e.m);
      assert h.Done? && Step(db, e).rows == h.db.rows;
      PushPosting(db, e.m, item);
      assert PostingOf(Step(db, e), PostedId(e)) == PostingOf(h.db, PostedId(e));
    }
  }

  // ----- One item's stock on its own -----

  /** An item's quantity and the adjustments posted to it, by id. */
  datatype Books = Books(quantity: Int64, postings: map<string, Posting>)

  function BooksOf(db: Db, item: string): Books {
    Books(QuantityOf(db, item),
          map key | key in db.rows && key.kind.Stock? && db.rows[key].owner == item :: key.id := PostingOf(db, key.id))
  }

  lemma BooksAt(db: Db, item: string, id: string)
    ensures var b := BooksOf(db, item);
            && (id in b.postings <==> Key(Stock, id) in db.rows && db.rows[Key(Stock, id)].owner == item)
            && (id in b.postings ==> b.postings[id] == PostingOf(db, id))
  {
    if Key(Stock, id) in db.rows && db.rows[Key(Stock, id)].owner == item {
      assert Key(Stock, id).id in BooksOf(db, item).postings;
    }
  }

  /** Nothing happens, or one new posting takes the quantity to its resulting quantity. */
  ghost predicate BookStep(b: Books, b': Books) {
    b' == b || exists p: Posting :: PostedTo(b, b', p)
  }

  predicate PostedTo(b: Books, b': Books, p: Posting) {
    && p.id !in b.postings && b'.postings == b.postings[p.id := p]
    && b'.quantity == p.resulting == Add64(b.quantity, p.delta)
  }

  /** One step seen through the books. */
  lemma BooksAdvance(db: Db, db': Db, e: Event, item: string)
    requires forall id :: AppendOnly(db, db', e, Key(Stock, id)) && SoundAt(db', Key(Stock, id))
    requires Posts(db, db', e, item) ==>
               var p := PostingOf(db', PostedId(e));
               QuantityOf(db', item) == Add64(QuantityOf(db, item), p.delta) == p.resulting
    requires !Posts(db, db', e, item) ==> QuantityOf(db, item) == QuantityOf(db', item)
    ensures BookStep(BooksOf(db, item), BooksOf(db', item))
  {
    var b, b', id' := BooksOf(db, item), BooksOf(db', item), PostedId(e);
    forall id ensures id in b.postings ==> id in b'.postings && b'.postings[id] == b.postings[id]
      ensures id in b'.postings && id !in b.postings ==> id == id' && Posts(db, db', e, item)
    {
      BooksAt(db, item, id);
      BooksAt(db', item, id);
      assert AppendOnly(db, db', e, Key(Stock, id)) && SoundAt(db', Key(Stock, id));
    }
    if Posts(db, db', e, item) {
      BooksAt(db, item, id');
      BooksAt(db', item, id');
      assert b'.postings == b.postings[id' := PostingOf(db', id')];
      assert PostedTo(b, b', PostingOf(db', id'));
    } else {
      assert b'.postings == b.postings;
    }
  }

  lemma StepBooks(db: Db, db': Db, e: Event, item: string)
    requires Sound(db) && db' == Step(db, e)
    requires QuantityOf(db, item) == QuantityOf(db', item) || Posts(db, db', e, item)
    ensures BookStep(BooksOf(db, item), BooksOf(db', item))
  {
    StepAdvances(db, e);
    if Posts(db, db', e, item) {
      PostingStep(db, e, item);
    }
    forall id ensures AppendOnly(db, db', e, Key(Stock, id)) && SoundAt(db', Key(Stock, id)) {
      StepAppendOnly(db, e, Key(Stock, id));
    }
    BooksAdvance(db, db', e, item);
  }

  function Total(ps: seq<Posting>): int {
    if ps == [] then 0 else Total(ps[..|ps| - 1]) + ps[|ps| - 1].delta
  }

  lemma TotalAppend(ps: seq<Posting>, p: Posting)
    ensures Total(ps + [p]) == Total(ps) + p.delta
  {
    assert (ps + [p])[..|ps|] == ps;
  }

  /** The quantity and every stored resulting quantity are, as 64-bit integers, the prefix sums
      of the deltas. */
  ghost predicate PrefixSums(q: Int64, q': Int64, ps: seq<Posting>) {
    && Same64(q', q + Total(ps))
    && forall j :: 0 <= j < |ps| ==> Same64(ps[j].resulting, q + Total(ps[..j + 1]))
  }

  /** `ps` lists the postings made between `b` and `b'`: each id once, none missing. */
  ghost predicate Lists(b: map<string, Posting>, b': map<string, Posting>, ps: seq<Posting>) {
    && (forall i, j :: 0 <= i < j < |ps| ==> ps[i].id != ps[j].id)
    && (forall j :: 0 <= j < |ps| ==> ps[j].id !in b && ps[j].id in b' && b'[ps[j].id] == ps[j])
    && (forall id :: id in b' && id !in b ==> exists j :: 0 <= j < |ps| && ps[j].id == id)
    && (forall id :: id in b ==> id in b' && b'[id] == b[id])
  }

  ghost predicate Accounts(b: Books, b': Books, ps: seq<Posting>) {
    PrefixSums(b.quantity, b'.quantity, ps) && Lists(b.postings, b'.postings, ps)
  }

  lemma SumsStep(q: Int64, q1: Int64, ps: seq<Posting>, p: Posting)
    requires PrefixSums(q, q1, ps) && p.resulting == Add64(q1, p.delta)
    ensures PrefixSums(q, p.resulting, ps + [p])
  {
    var ps' := ps + [p];
    TotalAppend(ps, p);
    AddSame64(q + Total(ps), q1, p.delta);
    var sum := q + Total(ps) + p.delta;
    assert sum == q + Total(ps') && Same64(p.resulting, sum);
    forall j | 0 <= j < |ps'| ensures Same64(ps'[j].resulting, q + Total(ps'[..j + 1])) {
      if j < |ps| {
        assert ps'[..j + 1] == ps[..j + 1] && ps'[j] == ps[j];
        assert Same64(ps[j].resulting, q + Total(ps[..j + 1]));
      } else {
        assert ps'[..j + 1] == ps' && ps'[j] == p;
      }
    }
  }

  lemma ListsStep(b: map<string, Posting>, b1: map<string, Posting>, ps: seq<Posting>, p: Posting)
    requires Lists(b, b1, ps) && p.id !in b1
    ensures Lists(b, b1[p.id := p], ps + [p])
  {
    var b2, ps' := b1[p.id := p], ps + [p];
    forall id | id in b2 && id !in b ensures exists j :: 0 <= j < |ps'| && ps'[j].id == id {
      if id == p.id {
        assert ps'[|ps|].id == id;
      } else {
        var j :| 0 <= j < |ps| && ps[j].id == id;
        assert ps'[j].id == id;
      }
    }
  }

  /** Only stock adjustments of this run change the item's quantity. */
  ghost predicate OnlyStockChangesQuantity(ts: seq<Db>, es: seq<Event>, item: string) {
    && |ts| == |es| + 1
    && forall i :: 0 <= i < |es| ==>
         QuantityOf(ts[i], item) == QuantityOf(ts[i + 1], item) || Posts(ts[i], ts[i + 1], es[i], item)
  }

  /** Stock conservation over any run, with replays and reordering: the final quantity is the
      initial one plus the deltas of exactly the adjustment rows the run added. */
  lemma StockConserved(ts: seq<Db>, es: seq<Event>, item: string) returns (ps: seq<Posting>)
    requires IsRun(ts, es) && Sound(ts[0]) && Key(Item, item) in ts[0].rows
    requires OnlyStockChangesQuantity(ts, es, item)
    ensures Accounts(BooksOf(ts[0], item), BooksOf(ts[|es|], item), ps)
  {
    RunAdvances(ts, es);
    assert SoundAt(ts[0], Key(Item, item));
    var bs := seq(|ts|, i requires 0 <= i < |ts| => BooksOf(ts[i], item));
    forall i | 0 <= i < |es| ensures BookStep(bs[i], bs[i + 1]) {
      StepBooks(ts[i], ts[i + 1], es[i], item);
    }
    ps := BooksConserved(bs);
  }

  lemma BooksConserved(bs: seq<Books>) returns (ps: seq<Posting>)
    requires bs != []
    requires forall i :: 0 <= i < |bs| - 1 ==> BookStep(bs[i], bs[i + 1])
    ensures Accounts(bs[0], bs[|bs| - 1], ps)
  {
    ps := [];
    assert Same64(bs[0].quantity, bs[0].quantity) by {
      assert bs[0].quantity == bs[0].quantity + 0 * 0x1_0000_0000_0000_0000;
    }
    var i := 0;
    while i < |bs| - 1
      invariant 0 <= i < |bs|
      invariant Accounts(bs[0], bs[i], ps)
    {
      if bs[i + 1] != bs[i] {
        var p :| PostedTo(bs[i], bs[i + 1], p);
        SumsStep(bs[0].quantity, bs[i].quantity, ps, p);
        ListsStep(bs[0].postings, bs[i].postings, ps, p);
        ps := ps + [p];
      }
      i := i + 1;
    }
  }
}
