/** Whole runs of the money path: batches arriving and being replayed, any number of raters working
    on the same batches at once and dying between their steps, and other users of the ledger. */
module RatingRuns {
  import opened Prelude
  import opened Pricing
  import opened Rating
  import Credits

  // ------------------------------------------------------------------ totals over sets of batches

  ghost function Pick(ids: set<string>): string
    requires ids != {}
  {
    var x :| x in ids;
    x
  }

  ghost function Total(ids: set<string>, amounts: map<string, nat>): nat
    requires ids <= amounts.Keys
  {
    if ids == {} then 0 else amounts[Pick(ids)] + Total(ids - {Pick(ids)}, amounts)
  }

  lemma {:induction false} TotalWithout(ids: set<string>, x: string, amounts: map<string, nat>)
    requires x in ids && ids <= amounts.Keys
    ensures Total(ids, amounts) == amounts[x] + Total(ids - {x}, amounts)
    decreases ids
  {
    var y := Pick(ids);
    if y != x {
      TotalWithout(ids - {y}, x, amounts);
      TotalWithout(ids - {x}, y, amounts);
      assert ids - {y} - {x} == ids - {x} - {y};
    }
  }

  lemma {:induction false} TotalSplit(ids: set<string>, part: set<string>, amounts: map<string, nat>)
    requires ids <= amounts.Keys
    ensures Total(ids, amounts) == Total(ids * part, amounts) + Total(ids - part, amounts)
    decreases ids
  {
    if ids != {} {
      var x := Pick(ids);
      TotalSplit(ids - {x}, part, amounts);
      if x in part {
        TotalWithout(ids * part, x, amounts);
        assert ids * part - {x} == (ids - {x}) * part && ids - part == (ids - {x}) - part;
      } else {
        TotalWithout(ids - part, x, amounts);
        assert ids - part - {x} == (ids - {x}) - part && ids * part == (ids - {x}) * part;
      }
    }
  }

  lemma {:induction false} TotalAgrees(ids: set<string>, a: map<string, nat>, b: map<string, nat>)
    requires ids <= a.Keys && ids <= b.Keys
    requires forall x | x in ids :: a[x] == b[x]
    ensures Total(ids, a) == Total(ids, b)
    decreases ids
  {
    if ids != {} {
      TotalAgrees(ids - {Pick(ids)}, a, b);
    }
  }

  lemma {:induction false} TotalOfNothing(ids: set<string>, amounts: map<string, nat>)
    requires ids <= amounts.Keys
    requires forall x | x in ids :: amounts[x] == 0
    ensures Total(ids, amounts) == 0
    decreases ids
  {
    if ids != {} {
      TotalOfNothing(ids - {Pick(ids)}, amounts);
    }
  }

  function Costs(tariff: Tariff, byId: map<string, Batch>): map<string, nat> {
    map id | id in byId :: CostOf(tariff, byId[id])
  }

  function Charges(rated: map<string, Row>): map<string, nat> {
    map id | id in rated :: rated[id].charged
  }

  /** The sum of credits_charged over all rating rows. */
  ghost function Recorded(rated: map<string, Row>): nat {
    Total(rated.Keys, Charges(rated))
  }

  // ------------------------------------------------------------------ keys of rating debits

  predicate IsRateKey(k: Credits.Key) {
    k.Caller? && "rate-" <= k.text
  }

  function RatedId(k: Credits.Key): (id: string)
    requires IsRateKey(k)
    ensures RateKey(id) == k
  {
    k.text[|"rate-"|..]
  }

  lemma RateKeyRoundTrip(id: string)
    ensures IsRateKey(RateKey(id)) && RatedId(RateKey(id)) == id
  {
  }

  /** The sum of the ledger's debits for usage batches. */
  function RateDebits(entries: seq<Credits.Entry>): int {
    if entries == [] then 0
    else
      var e := entries[|entries| - 1];
      RateDebits(entries[..|entries| - 1]) + if IsRateKey(e.key) then e.amount else 0
  }

  function DebitedIds(entries: seq<Credits.Entry>): set<string> {
    if entries == [] then {}
    else
      var e := entries[|entries| - 1];
      DebitedIds(entries[..|entries| - 1]) + if IsRateKey(e.key) then {RatedId(e.key)} else {}
  }

  // ------------------------------------------------------------------ the interleaving

  /** What a rater does, in steps of one locked section each: it looks whether the batch is rated, it
      prices and debits it, it records what it priced.  The expiry that the credit service runs just
      before the debit is a locked section of its own, like everybody else's use of the ledger (`Other`). */
  datatype Rater = Idle | Checked(batch: Batch) | Debited(batch: Batch, cost: nat)

  datatype World = World(books: Books, raters: map<int, Rater>)

  const START := World(EMPTY_BOOKS, map[])

  /** Every attempt prices the batch anew, by the tariff of the moment. */
  datatype Event =
    | Ingest(tenant: string, key: string, metrics: Usage, newId: string)
    | Begin(c: int, id: string)
    | Charge(c: int, tariff: Tariff, now: real)
    | Record(c: int)
    | Crash(c: int)
    | Other(op: Credits.Op)

  function RaterOf(w: World, c: int): Rater {
    if c in w.raters then w.raters[c] else Idle
  }

  function Step(w: World, e: Event): World {
    match e
    case Ingest(tenant, key, metrics, newId) =>
      if newId in w.books.byId then w else w.(books := AfterIngest(w.books, tenant, key, metrics, newId))
    case Begin(c, id) =>
      if !RaterOf(w, c).Idle? || id !in w.books.byId || id in w.books.rated then w
      else if w.books.byId[id].id == "" || w.books.byId[id].tenant == "" then w
      else w.(raters := w.raters[c := Checked(w.books.byId[id])])
    case Charge(c, tariff, now) =>
      var me := RaterOf(w, c);
      if !me.Checked? then w
      else
        var cost := CostOf(tariff, me.batch);
        if cost <= 0 then World(AfterRecord(w.books, me.batch, 0), w.raters[c := Idle])
        else
          var (l, reply) := AfterDeduct(w.books.ledger, me.batch, cost, now);
          World(w.books.(ledger := l), w.raters[c := if reply.Ok() then Debited(me.batch, cost) else Idle])
    case Record(c) =>
      var me := RaterOf(w, c);
      if !me.Debited? then w
      else World(AfterRecord(w.books, me.batch, me.cost), w.raters[c := Idle])
    case Crash(c) => w.(raters := w.raters[c := Idle])
    case Other(op) => w.(books := w.books.(ledger := Credits.Apply(w.books.ledger, op).0))
  }

  function Exec(w: World, events: seq<Event>): World {
    if events == [] then w
    else Step(Exec(w, events[..|events| - 1]), events[|events| - 1])
  }

  /** A rater that crashed does nothing until it looks at a batch again, and its crash touches no book. */
  lemma CrashedRaterIsSilent(w: World, c: int, tariff: Tariff, now: real)
    ensures var dead := Step(w, Crash(c));
            && dead.books == w.books
            && Step(dead, Charge(c, tariff, now)) == Step(dead, Record(c)) == dead
            && forall other | other != c :: RaterOf(dead, other) == RaterOf(w, other)
  {
  }

  /** Nobody but the rating engine uses the keys it makes for its debits. */
  predicate Foreign(op: Credits.Op) {
    op.ExpireOp? || !IsRateKey(op.key)
  }

  ghost predicate AllForeign(events: seq<Event>) {
    forall e | e in events :: e.Other? ==> Foreign(e.op)
  }

  lemma AllForeignBefore(events: seq<Event>)
    requires AllForeign(events) && events != []
    ensures AllForeign(events[..|events| - 1])
    ensures events[|events| - 1].Other? ==> Foreign(events[|events| - 1].op)
  {
    assert events[|events| - 1] in events;
  }

  // ------------------------------------------------------------------ at most one debit, whoever uses the ledger

  lemma StepIsSound(w: World, e: Event)
    requires Credits.Sound(w.books.ledger)
    ensures Credits.Sound(Step(w, e).books.ledger)
    ensures w.books.ledger.entries <= Step(w, e).books.ledger.entries
  {
    hide Credits.Sound, Credits.Apply, CostOf, AfterIngest, AfterRecord;
    match e
    case Charge(c, tariff, now) =>
      var me := RaterOf(w, c);
      if me.Checked? {
        Credits.ApplyKeepsSound(w.books.ledger, DebitOp(me.batch, CostOf(tariff, me.batch), now));
        DebitIsOp(w.books.ledger, me.batch, CostOf(tariff, me.batch), now);
        RecordSparesLedger(w.books, me.batch, 0);
      }
    case Other(op) => Credits.ApplyKeepsSound(w.books.ledger, op);
    case Ingest(tenant, key, metrics, newId) => IngestSparesLedger(w.books, tenant, key, metrics, newId);
    case Record(c) =>
      if RaterOf(w, c).Debited? { RecordSparesLedger(w.books, RaterOf(w, c).batch, RaterOf(w, c).cost); }
    case _ =>
  }

  function DebitOp(b: Batch, cost: nat, now: real): Credits.Op {
    Credits.DeductOp(b.tenant, cost, "usage_batch", b.id, RateKey(b.id), now)
  }

  lemma DebitIsOp(l: Credits.Ledger, b: Batch, cost: nat, now: real)
    ensures Credits.Apply(l, DebitOp(b, cost, now)) == AfterDeduct(l, b, cost, now)
  {
  }

  lemma IngestSparesLedger(s: Books, tenant: string, key: string, metrics: Usage, newId: string)
    ensures AfterIngest(s, tenant, key, metrics, newId).ledger == s.ledger
  {
  }

  lemma RecordSparesLedger(s: Books, b: Batch, charged: nat)
    ensures AfterRecord(s, b, charged).ledger == s.ledger && AfterRecord(s, b, charged).byId == s.byId
  {
  }

  lemma {:induction false} RunIsSound(events: seq<Event>)
    ensures Credits.Sound(Exec(START, events).books.ledger)
  {
    if events != [] {
      hide Step, Credits.Sound;
      RunIsSound(events[..|events| - 1]);
      StepIsSound(Exec(START, events[..|events| - 1]), events[|events| - 1]);
    }
  }

  /** At most one debit per batch, whatever mixture of repeated ingests, concurrent raters, passes of
      `rate_pending`, crashes, price changes and other uses of the ledger produced the run. */
  lemma EachBatchDebitedAtMostOnce(events: seq<Event>, i: nat, j: nat, id: string)
    requires var es := Exec(START, events).books.ledger.entries;
             i < |es| && j < |es| && es[i].key == RateKey(id) && es[j].key == RateKey(id)
    ensures i == j
  {
    RunIsSound(events);
  }

  // ------------------------------------------------------------------ genuine books

  function DebitEntry(b: Batch, amount: int): Credits.Entry {
    Credits.Entry(b.tenant, "usage_batch", RateKey(b.id), b.id, amount,
                  [Credits.Debit(Credits.WalletOf(b.tenant), amount), Credits.Credit(Credits.Revenue, amount)])
  }

  /** A rating debit in the ledger is the debit of a stored batch. */
  ghost predicate DebitIsGenuine(byId: map<string, Batch>, e: Credits.Entry) {
    IsRateKey(e.key) ==>
      && RatedId(e.key) in byId && e == DebitEntry(byId[RatedId(e.key)], e.amount)
      && Credits.ValidAmount(e.amount) && Credits.ValidKey(e.key) && e.tenant != "" && RatedId(e.key) != ""
  }

  ghost predicate RowIsGenuine(s: Books, id: string)
    requires id in s.rated
  {
    && id in s.byId
    && s.rated[id].batchId == id && s.rated[id].tenant == s.byId[id].tenant
    && (s.rated[id].charged > 0 ==> RateKey(id) in s.ledger.idem)
  }

  ghost predicate BooksInv(s: Books) {
    && Filed(s.byId, s.byKey, s.order)
    && Credits.Sound(s.ledger)
    && (forall i | 0 <= i < |s.ledger.entries| :: DebitIsGenuine(s.byId, s.ledger.entries[i]))
    && (forall id | id in s.rated :: RowIsGenuine(s, id))
  }

  ghost predicate Known(s: Books, b: Batch) {
    b.id in s.byId && b == s.byId[b.id] && b.id != "" && b.tenant != ""
  }

  ghost predicate RaterInv(s: Books, r: Rater) {
    && (!r.Idle? ==> Known(s, r.batch))
    && (r.Debited? ==> RateKey(r.batch.id) in s.ledger.idem)
  }

  ghost predicate Inv(w: World) {
    && BooksInv(w.books)
    && (forall c | c in w.raters :: RaterInv(w.books, w.raters[c]))
  }

  /** s' knows everything s does about batches and used keys. */
  predicate Extends(s: Books, s': Books) {
    && (forall id | id in s.byId :: id in s'.byId && s'.byId[id] == s.byId[id])
    && (forall k | k in s.ledger.idem :: k in s'.ledger.idem)
  }

  lemma RatersSurvive(w: World, s': Books, c: int, me: Rater)
    requires Inv(w) && BooksInv(s') && Extends(w.books, s') && RaterInv(s', me)
    ensures Inv(World(s', w.raters[c := me]))
    ensures Inv(w.(books := s'))
  {
    forall d | d in w.raters ensures RaterInv(s', w.raters[d]) {
      assert RaterInv(w.books, w.raters[d]);
    }
  }

  lemma IngestKeepsBooks(s: Books, tenant: string, key: string, metrics: Usage, newId: string)
    requires BooksInv(s) && newId !in s.byId
    ensures var s' := AfterIngest(s, tenant, key, metrics, newId);
            BooksInv(s') && Extends(s, s')
  {
    hide Credits.Sound, Credits.ValidAmount, Credits.ValidKey;
    var s' := AfterIngest(s, tenant, key, metrics, newId);
    if key !in s.byKey {
      IngestKeepsFiled(s, tenant, key, metrics, newId);
    }
    IngestLeavesRest(s, tenant, key, metrics, newId);
    hide AfterIngest, Filed;
    forall i | 0 <= i < |s'.ledger.entries| ensures DebitIsGenuine(s'.byId, s'.ledger.entries[i]) {
      assert DebitIsGenuine(s.byId, s.ledger.entries[i]);
    }
    forall id | id in s'.rated ensures RowIsGenuine(s', id) {
      assert RowIsGenuine(s, id);
    }
  }

  lemma IngestLeavesRest(s: Books, tenant: string, key: string, metrics: Usage, newId: string)
    requires newId !in s.byId
    ensures var s' := AfterIngest(s, tenant, key, metrics, newId);
            && s'.ledger == s.ledger && s'.rated == s.rated && (key in s.byKey ==> s' == s)
            && forall id | id in s.byId :: id in s'.byId && s'.byId[id] == s.byId[id]
  {
  }

  lemma IngestKeepsFiled(s: Books, tenant: string, key: string, metrics: Usage, newId: string)
    requires Filed(s.byId, s.byKey, s.order) && newId !in s.byId
    ensures var s' := AfterIngest(s, tenant, key, metrics, newId);
            Filed(s'.byId, s'.byKey, s'.order)
  {
    var s' := AfterIngest(s, tenant, key, metrics, newId);
    if key !in s.byKey {
      forall id | id in s'.byId ensures id in s'.order {
        if id == newId {
          assert s'.order[|s.order|] == newId;
        } else {
          assert id in s.order;
        }
      }
    }
  }

  /** A ledger that only gained foreign entries, or the genuine debit of one batch, fits the books. */
  lemma LedgerKeepsBooks(s: Books, l: Credits.Ledger)
    requires BooksInv(s) && Credits.Sound(l)
    requires s.ledger.entries <= l.entries
    requires forall i | |s.ledger.entries| <= i < |l.entries| :: DebitIsGenuine(s.byId, l.entries[i])
    ensures BooksInv(s.(ledger := l)) && Extends(s, s.(ledger := l))
  {
    var s' := s.(ledger := l);
    forall k | k in s.ledger.idem ensures k in l.idem {
      var e := s.ledger.idem[k];
      assert e in s.ledger.entries;
      var i :| 0 <= i < |s.ledger.entries| && s.ledger.entries[i] == e;
      assert l.entries[i] == e;
      assert Credits.EntryFiled(l, l.entries[i]);
    }
    forall i | 0 <= i < |l.entries| ensures DebitIsGenuine(s'.byId, l.entries[i]) {
      if i < |s.ledger.entries| {
        assert DebitIsGenuine(s.byId, s.ledger.entries[i]);
      }
    }
    forall id | id in s'.rated ensures RowIsGenuine(s', id) {
      assert RowIsGenuine(s, id);
    }
  }

  /** Which entries a ledger operation adds: expiries, and under its own key, if that was free, one entry. */
  lemma NewEntriesKnown(l: Credits.Ledger, op: Credits.Op, i: int)
    requires |l.entries| <= i < |Credits.Apply(l, op).0.entries|
    ensures var e := Credits.Apply(l, op).0.entries[i];
            e.key.PromoExpiry? || (!op.ExpireOp? && e.key == op.key && op.key !in l.idem)
  {
  }

  lemma AcceptedDebitUsesKey(l: Credits.Ledger, op: Credits.Op)
    requires op.DeductOp?
    ensures Credits.Apply(l, op).1.Ok() ==> op.key in Credits.Apply(l, op).0.idem
  {
  }

  /** Debiting a batch files its genuine debit, or nothing of its own, and leaves its key used if it
      reports success. */
  lemma DebitKeepsBooks(s: Books, b: Batch, cost: nat, now: real)
    requires BooksInv(s) && Known(s, b)
    ensures var (l, reply) := AfterDeduct(s.ledger, b, cost, now);
            && BooksInv(s.(ledger := l)) && Extends(s, s.(ledger := l))
            && (reply.Ok() ==> RateKey(b.id) in l.idem)
  {
    hide Credits.Sound, Credits.AfterExpiry, DebitIsGenuine;
    var op := DebitOp(b, cost, now);
    DebitIsOp(s.ledger, b, cost, now);
    Credits.ApplyKeepsSound(s.ledger, op);
    AcceptedDebitUsesKey(s.ledger, op);
    NewDebitIsGenuine(s, b, cost, now);
    LedgerKeepsBooks(s, Credits.Apply(s.ledger, op).0);
  }

  lemma NewDebitIsGenuine(s: Books, b: Batch, cost: nat, now: real)
    requires Known(s, b)
    ensures var l := AfterDeduct(s.ledger, b, cost, now).0;
            forall i | |s.ledger.entries| <= i < |l.entries| ::
              && DebitIsGenuine(s.byId, l.entries[i])
              && (IsRateKey(l.entries[i].key) ==> l.entries[i] == DebitEntry(b, cost))
  {
    RateKeyRoundTrip(b.id);
  }

  lemma RecordKeepsBooks(s: Books, b: Batch, charged: nat)
    requires BooksInv(s) && Known(s, b)
    requires charged > 0 ==> RateKey(b.id) in s.ledger.idem
    ensures var s' := AfterRecord(s, b, charged);
            BooksInv(s') && Extends(s, s')
  {
    hide Credits.Sound, Credits.ValidAmount, Credits.ValidKey;
    var s' := AfterRecord(s, b, charged);
    forall i | 0 <= i < |s'.ledger.entries| ensures DebitIsGenuine(s'.byId, s'.ledger.entries[i]) {
      assert DebitIsGenuine(s.byId, s.ledger.entries[i]);
    }
    forall id | id in s'.rated ensures RowIsGenuine(s', id) {
      if id in s.rated {
        assert RowIsGenuine(s, id);
      }
    }
  }

  lemma ForeignKeepsBooks(s: Books, op: Credits.Op)
    requires BooksInv(s) && Foreign(op)
    ensures var s' := s.(ledger := Credits.Apply(s.ledger, op).0);
            BooksInv(s') && Extends(s, s')
  {
    var l := Credits.Apply(s.ledger, op).0;
    Credits.ApplyKeepsSound(s.ledger, op);
    hide Credits.Apply, Credits.Sound;
    forall i | |s.ledger.entries| <= i < |l.entries| ensures DebitIsGenuine(s.byId, l.entries[i]) {
      NewEntriesKnown(s.ledger, op, i);
    }
    LedgerKeepsBooks(s, l);
  }

  lemma ExtendsItself(s: Books)
    ensures Extends(s, s)
  {
  }

  lemma IdsMatch(s: Books, id: string)
    requires BooksInv(s) && id in s.byId
    ensures s.byId[id].id == id
  {
  }

  lemma StepKeepsInv(w: World, e: Event)
    requires Inv(w) && (e.Other? ==> Foreign(e.op))
    ensures Inv(Step(w, e))
    ensures Extends(w.books, Step(w, e).books)
  {
    hide CostOf, AfterDeduct, AfterIngest, AfterRecord, Credits.Apply, BooksInv, Extends, Credits.Sound;
    ExtendsItself(w.books);
    match e
    case Ingest(tenant, key, metrics, newId) =>
      if newId !in w.books.byId {
        IngestKeepsBooks(w.books, tenant, key, metrics, newId);
        RatersSurvive(w, AfterIngest(w.books, tenant, key, metrics, newId), 0, Idle);
      }
    case Begin(c, id) =>
      if id in w.books.byId && w.books.byId[id].id != "" && w.books.byId[id].tenant != "" {
        IdsMatch(w.books, id);
        RatersSurvive(w, w.books, c, Checked(w.books.byId[id]));
      }
    case Charge(c, tariff, now) =>
      var me := RaterOf(w, c);
      if me.Checked? {
        assert RaterInv(w.books, w.raters[c]);
        var cost := CostOf(tariff, me.batch);
        if cost <= 0 {
          RecordKeepsBooks(w.books, me.batch, 0);
          RatersSurvive(w, AfterRecord(w.books, me.batch, 0), c, Idle);
        } else {
          DebitKeepsBooks(w.books, me.batch, cost, now);
          var (l, reply) := AfterDeduct(w.books.ledger, me.batch, cost, now);
          RatersSurvive(w, w.books.(ledger := l), c, if reply.Ok() then Debited(me.batch, cost) else Idle);
        }
      }
    case Record(c) =>
      var me := RaterOf(w, c);
      if me.Debited? {
        assert RaterInv(w.books, w.raters[c]);
        RecordKeepsBooks(w.books, me.batch, me.cost);
        RatersSurvive(w, AfterRecord(w.books, me.batch, me.cost), c, Idle);
      }
    case Crash(c) => RatersSurvive(w, w.books, c, Idle);
    case Other(op) =>
      ForeignKeepsBooks(w.books, op);
      RatersSurvive(w, w.books.(ledger := Credits.Apply(w.books.ledger, op).0), 0, Idle);
  }

  lemma StartIsGood()
    ensures Inv(START)
  {
  }

  lemma {:induction false} RunKeepsInv(events: seq<Event>)
    requires AllForeign(events)
    ensures Inv(Exec(START, events))
  {
    if events == [] {
      StartIsGood();
    } else {
      hide Step, Inv;
      AllForeignBefore(events);
      RunKeepsInv(events[..|events| - 1]);
      StepKeepsInv(Exec(START, events[..|events| - 1]), events[|events| - 1]);
    }
  }

  // ------------------------------------------------------------------ the price of the first success

  /** Event k is the charge that debited batch id: before it the batch's key was free. */
  ghost predicate DebitsFirst(events: seq<Event>, k: nat, id: string, amount: int) {
    && k < |events| && events[k].Charge?
    && var w := Exec(START, events[..k]);
       var me := RaterOf(w, events[k].c);
       && me.Checked? && me.batch.id == id && Known(w.books, me.batch)
       && RateKey(id) !in w.books.ledger.idem
       && amount == CostOf(events[k].tariff, me.batch)
  }

  lemma ChargeDebits(w: World, e: Event, i: nat, id: string)
    requires Inv(w) && (e.Other? ==> Foreign(e.op))
    requires var es := Step(w, e).books.ledger.entries;
             |w.books.ledger.entries| <= i < |es| && es[i].key == RateKey(id)
    ensures e.Charge? && RaterOf(w, e.c).Checked? && RaterOf(w, e.c).batch.id == id
    ensures Known(w.books, RaterOf(w, e.c).batch)
    ensures RateKey(id) !in w.books.ledger.idem
    ensures Step(w, e).books.ledger.entries[i].amount == CostOf(e.tariff, RaterOf(w, e.c).batch)
  {
    hide CostOf, AfterIngest, AfterRecord, Credits.Apply, Credits.Sound, AfterDeduct, BooksInv;
    RateKeyRoundTrip(id);
    match e
    case Ingest(tenant, key, metrics, newId) => IngestSparesLedger(w.books, tenant, key, metrics, newId);
    case Record(c) =>
      if RaterOf(w, c).Debited? { RecordSparesLedger(w.books, RaterOf(w, c).batch, RaterOf(w, c).cost); }
    case Other(op) => NewEntriesKnown(w.books.ledger, op, i);
    case Charge(c, tariff, now) =>
      if RaterOf(w, c).Checked? {
        var b := RaterOf(w, c).batch;
        assert RaterInv(w.books, w.raters[c]);
        RecordSparesLedger(w.books, b, 0);
        DebitIsOp(w.books.ledger, b, CostOf(tariff, b), now);
        if CostOf(tariff, b) > 0 {
          NewEntriesKnown(w.books.ledger, DebitOp(b, CostOf(tariff, b), now), i);
          NewDebitIsGenuine(w.books, b, CostOf(tariff, b), now);
          RateKeyRoundTrip(b.id);
        }
      }
    case _ =>
  }

  /** The debit of a batch is for its tenant, and its amount is the price, at that moment, of the first
      attempt that succeeded; no later attempt, at whatever price, adds to it. */
  lemma {:induction false} FirstSuccessSetsPrice(events: seq<Event>, i: nat, id: string) returns (k: nat)
    requires AllForeign(events)
    requires i < |Exec(START, events).books.ledger.entries|
    requires Exec(START, events).books.ledger.entries[i].key == RateKey(id)
    ensures var s := Exec(START, events).books;
            id in s.byId && s.ledger.entries[i] == DebitEntry(s.byId[id], s.ledger.entries[i].amount)
    ensures DebitsFirst(events, k, id, Exec(START, events).books.ledger.entries[i].amount)
  {
    hide Step, DebitsFirst, CostOf, Inv, Credits.Sound;
    if events == [] {
      NothingAtStart();
    } else {
      var most, e := events[..|events| - 1], events[|events| - 1];
      AllForeignBefore(events);
      RunKeepsInv(most);
      RunKeepsInv(events);
      RunIsSound(most);
      StepIsSound(Exec(START, most), e);
      DebitOfBatch(Exec(START, events).books, i, id, Exec(START, events));
      if i < |Exec(START, most).books.ledger.entries| {
        k := FirstSuccessSetsPrice(most, i, id);
        DebitsFirstLonger(events, k, id, Exec(START, most).books.ledger.entries[i].amount);
      } else {
        k := |most|;
        ChargeDebits(Exec(START, most), e, i, id);
        DebitsFirstNow(events, id, Exec(START, events).books.ledger.entries[i].amount);
      }
    }
  }

  lemma NothingAtStart()
    ensures Exec(START, []).books.ledger.entries == []
  {
  }

  lemma DebitsFirstLonger(events: seq<Event>, k: nat, id: string, amount: int)
    requires events != [] && DebitsFirst(events[..|events| - 1], k, id, amount)
    ensures DebitsFirst(events, k, id, amount)
  {
    hide CostOf, Exec;
    assert events[..|events| - 1][..k] == events[..k];
  }

  lemma DebitsFirstNow(events: seq<Event>, id: string, amount: int)
    requires events != []
    requires var e, w := events[|events| - 1], Exec(START, events[..|events| - 1]);
             && e.Charge? && RaterOf(w, e.c).Checked? && RaterOf(w, e.c).batch.id == id
             && Known(w.books, RaterOf(w, e.c).batch) && RateKey(id) !in w.books.ledger.idem
             && amount == CostOf(e.tariff, RaterOf(w, e.c).batch)
    ensures DebitsFirst(events, |events| - 1, id, amount)
  {
    hide CostOf, Exec;
  }

  lemma DebitOfBatch(s: Books, i: nat, id: string, w: World)
    requires Inv(w) && s == w.books && i < |s.ledger.entries| && s.ledger.entries[i].key == RateKey(id)
    ensures id in s.byId && s.ledger.entries[i] == DebitEntry(s.byId[id], s.ledger.entries[i].amount)
    ensures Credits.ValidAmount(s.ledger.entries[i].amount) && Credits.ValidKey(RateKey(id))
    ensures s.byId[id].id == id && id != "" && s.byId[id].tenant != ""
  {
    RateKeyRoundTrip(id);
    assert DebitIsGenuine(s.byId, s.ledger.entries[i]);
  }

  /** One idempotency key never yields two batches. */
  lemma OneBatchPerKey(events: seq<Event>, a: string, b: string)
    requires AllForeign(events)
    requires var s := Exec(START, events).books;
             a in s.byId && b in s.byId && s.byId[a].key == s.byId[b].key
    ensures a == b
  {
    RunKeepsInv(events);
  }

  // ------------------------------------------------------------------ keys are shared by all tenants

  /** The tenant that first used an idempotency key. */
  function KeyOwner(events: seq<Event>, key: string): Option<string> {
    if events == [] then None
    else
      var before, e := KeyOwner(events[..|events| - 1], key), events[|events| - 1];
      if before.Some? then before
      else if e.Ingest? && e.key == key && e.newId !in Exec(START, events[..|events| - 1]).books.byId
      then Some(e.tenant)
      else None
  }

  lemma StepKeys(w: World, e: Event)
    ensures var s, s' := w.books, Step(w, e).books;
            if e.Ingest? && e.newId !in s.byId && e.key !in s.byKey then
              && s'.byKey == s.byKey[e.key := e.newId]
              && s'.byId == s.byId[e.newId := Batch(e.newId, e.tenant, e.metrics, e.key)]
            else s'.byKey == s.byKey && s'.byId == s.byId
  {
    hide CostOf, AfterDeduct, Credits.Apply;
  }

  /** A key belongs to the tenant that first used it: whoever ingests under it later gets that tenant's
      batch, and it is that tenant who is charged. */
  lemma {:induction false} KeyBelongsToFirstTenant(events: seq<Event>, key: string)
    requires AllForeign(events)
    ensures var s := Exec(START, events).books;
            && (key in s.byKey <==> KeyOwner(events, key).Some?)
            && (key in s.byKey ==> s.byKey[key] in s.byId && KeyOwner(events, key) == Some(s.byId[s.byKey[key]].tenant))
  {
    if events != [] {
      hide Step, Inv;
      var most, e := events[..|events| - 1], events[|events| - 1];
      AllForeignBefore(events);
      KeyBelongsToFirstTenant(most, key);
      KeysLeadToBatches(most, key);
      StepKeys(Exec(START, most), e);
    }
  }

  lemma KeysLeadToBatches(events: seq<Event>, key: string)
    requires AllForeign(events)
    ensures var s := Exec(START, events).books; key in s.byKey ==> s.byKey[key] in s.byId
  {
    RunKeepsInv(events);
    hide Exec;
  }

  /** So an ingest returns a batch of the caller's exactly when no other tenant used the key first. */
  lemma IngestReturnsOwnBatchIff(events: seq<Event>, tenant: string, key: string, metrics: Usage, newId: string)
    requires AllForeign(events) && newId !in Exec(START, events).books.byId
    ensures var s := AfterIngest(Exec(START, events).books, tenant, key, metrics, newId);
            && key in s.byKey && s.byKey[key] in s.byId
            && (s.byId[s.byKey[key]].tenant == tenant <==> KeyOwner(events, key) in {None, Some(tenant)})
  {
    hide Exec;
    KeyBelongsToFirstTenant(events, key);
  }

  // ------------------------------------------------------------------ one call is a run

  lemma FourSteps(w: World, a: Event, b: Event, c: Event, d: Event)
    ensures Exec(w, [a, b, c, d]) == Step(Step(Step(Step(w, a), b), c), d)
    ensures Exec(w, [a, b]) == Step(Step(w, a), b)
  {
    hide Step;
    assert [a, b, c, d][..3] == [a, b, c] && [a, b, c][..2] == [a, b] && [a, b][..1] == [a] && [a][..0] == [];
    assert Exec(w, [a]) == Step(w, a);
    assert Exec(w, [a, b]) == Step(Exec(w, [a]), b);
    assert Exec(w, [a, b, c]) == Step(Exec(w, [a, b]), c);
  }

  predicate Ratable(w: World, c: int, id: string) {
    && RaterOf(w, c).Idle? && id in w.books.byId && id !in w.books.rated
    && w.books.byId[id].id == id && id != "" && w.books.byId[id].tenant != ""
  }

  lemma BeginStep(w: World, c: int, id: string)
    requires Ratable(w, c, id)
    ensures Step(w, Begin(c, id)) == w.(raters := w.raters[c := Checked(w.books.byId[id])])
  {
  }

  lemma ExpireStep(w: World, t: string, now: real)
    ensures Step(w, Other(Credits.ExpireOp(t, now))) ==
            w.(books := w.books.(ledger := Credits.AfterExpiry(w.books.ledger, t, now)))
  {
    hide Credits.AfterExpiry;
  }

  lemma ChargeSteps(tariff: Tariff, w: World, c: int, b: Batch, now: real)
    requires RaterOf(w, c) == Checked(b) && CostOf(tariff, b) > 0
    ensures var (l, reply) := AfterDeduct(w.books.ledger, b, CostOf(tariff, b), now);
            var s := w.books.(ledger := l);
            Step(Step(w, Charge(c, tariff, now)), Record(c)).books ==
            if reply.Ok() then AfterRecord(s, b, CostOf(tariff, b)) else s
  {
    hide CostOf, AfterDeduct, AfterRecord;
  }

  /** An uninterrupted `rate_batch` is one of these runs. */
  lemma RateIsARun(tariff: Tariff, w: World, c: int, id: string, now: real)
    requires Ratable(w, c, id)
    ensures var b := w.books.byId[id];
            var steps := if CostOf(tariff, b) <= 0 then [Begin(c, id), Charge(c, tariff, now)]
                         else [Begin(c, id), Other(Credits.ExpireOp(b.tenant, now)), Charge(c, tariff, now), Record(c)];
            Exec(w, steps).books == AfterRate(tariff, w.books, b, now).0
  {
    var b := w.books.byId[id];
    BeginStep(w, c, id);
    var w1 := Step(w, Begin(c, id));
    if CostOf(tariff, b) <= 0 {
      FourSteps(w, Begin(c, id), Charge(c, tariff, now), Record(c), Record(c));
      assert RaterOf(w1, c) == Checked(b);
      hide CostOf, AfterDeduct, AfterRecord, Exec;
    } else {
      hide Step, CostOf, AfterDeduct, AfterRecord, Exec, Credits.AfterExpiry;
      FourSteps(w, Begin(c, id), Other(Credits.ExpireOp(b.tenant, now)), Charge(c, tariff, now), Record(c));
      ExpireStep(w1, b.tenant, now);
      ChargeSteps(tariff, Step(w1, Other(Credits.ExpireOp(b.tenant, now))), c, b, now);
    }
  }

  // ------------------------------------------------------------------ conservation

  lemma {:induction false} DebitedIdsMeaning(entries: seq<Credits.Entry>, id: string)
    ensures id in DebitedIds(entries) <==> exists i :: 0 <= i < |entries| && entries[i].key == RateKey(id)
  {
    if entries != [] {
      var n := |entries| - 1;
      var most := entries[..n];
      DebitedIdsMeaning(most, id);
      RateKeyRoundTrip(id);
      if id in DebitedIds(most) {
        var i :| 0 <= i < |most| && most[i].key == RateKey(id);
        assert entries[i].key == RateKey(id);
      }
      if i :| 0 <= i < n && entries[i].key == RateKey(id) {
        assert most[i].key == RateKey(id);
      }
      if entries[n].key == RateKey(id) {
        assert id in DebitedIds(entries);
      }
    }
  }

  lemma {:induction false} DebitsAreTotal(amounts: map<string, nat>, entries: seq<Credits.Entry>)
    requires forall i | 0 <= i < |entries| :: AmountKnown(amounts, entries[i])
    requires forall i, j | 0 <= i < j < |entries| :: entries[i].key != entries[j].key
    ensures DebitedIds(entries) <= amounts.Keys
    ensures RateDebits(entries) == Total(DebitedIds(entries), amounts)
    decreases |entries|
  {
    if entries != [] {
      var n := |entries| - 1;
      var most := entries[..n];
      var e := entries[n];
      DebitsAreTotal(amounts, most);
      assert AmountKnown(amounts, e);
      if !IsRateKey(e.key) {
        assert DebitedIds(entries) == DebitedIds(most);
      } else {
        var id := RatedId(e.key);
        DebitedIdsMeaning(most, id);
        TotalWithout(DebitedIds(entries), id, amounts);
        assert DebitedIds(entries) - {id} == DebitedIds(most);
      }
    }
  }

  predicate AmountKnown(amounts: map<string, nat>, e: Credits.Entry) {
    IsRateKey(e.key) ==> RatedId(e.key) in amounts && e.amount == amounts[RatedId(e.key)]
  }

  /** Batches whose debit is in the ledger but whose rating row is missing. */
  function Unrecorded(s: Books): set<string> {
    set id | id in s.byId && RateKey(id) in s.ledger.idem && id !in s.rated
  }

  // ------------------------------------------------------------------ one tariff

  /** Every attempt of the run prices by the same tariff. */
  ghost predicate OneTariff(tariff: Tariff, events: seq<Event>) {
    forall e | e in events :: e.Charge? ==> e.tariff == tariff
  }

  /** Debits, rows and debits about to be recorded all carry the price of their batch. */
  ghost predicate Priced(tariff: Tariff, s: Books) {
    && (forall i | 0 <= i < |s.ledger.entries| :: AmountKnown(Costs(tariff, s.byId), s.ledger.entries[i]))
    && (forall id | id in s.rated :: RowPriced(tariff, s, id))
  }

  ghost predicate RowPriced(tariff: Tariff, s: Books, id: string)
    requires id in s.rated
  {
    id in s.byId && s.rated[id].charged == CostOf(tariff, s.byId[id])
  }

  ghost predicate RaterPriced(tariff: Tariff, r: Rater) {
    r.Debited? ==> r.cost == CostOf(tariff, r.batch)
  }

  ghost predicate AllPriced(tariff: Tariff, w: World) {
    Priced(tariff, w.books) && forall c | c in w.raters :: RaterPriced(tariff, w.raters[c])
  }

  lemma MoreBatchesPriced(tariff: Tariff, s: Books, s': Books)
    requires Priced(tariff, s) && Extends(s, s') && s'.ledger == s.ledger && s'.rated == s.rated
    ensures Priced(tariff, s')
  {
    hide CostOf;
    forall i | 0 <= i < |s'.ledger.entries| ensures AmountKnown(Costs(tariff, s'.byId), s'.ledger.entries[i]) {
      assert AmountKnown(Costs(tariff, s.byId), s.ledger.entries[i]);
    }
    forall id | id in s'.rated ensures RowPriced(tariff, s', id) {
      assert RowPriced(tariff, s, id);
    }
  }

  lemma LedgerPriced(tariff: Tariff, s: Books, l: Credits.Ledger)
    requires Priced(tariff, s) && s.ledger.entries <= l.entries
    requires forall i | |s.ledger.entries| <= i < |l.entries| :: AmountKnown(Costs(tariff, s.byId), l.entries[i])
    ensures Priced(tariff, s.(ledger := l))
  {
    hide CostOf;
    forall i | 0 <= i < |l.entries| ensures AmountKnown(Costs(tariff, s.byId), l.entries[i]) {
      if i < |s.ledger.entries| {
        assert AmountKnown(Costs(tariff, s.byId), s.ledger.entries[i]);
      }
    }
    forall id | id in s.rated ensures RowPriced(tariff, s.(ledger := l), id) {
      assert RowPriced(tariff, s, id);
    }
  }

  lemma RecordPriced(tariff: Tariff, s: Books, b: Batch)
    requires Priced(tariff, s) && Known(s, b)
    ensures Priced(tariff, AfterRecord(s, b, CostOf(tariff, b)))
  {
    hide CostOf;
    var s' := AfterRecord(s, b, CostOf(tariff, b));
    forall i | 0 <= i < |s'.ledger.entries| ensures AmountKnown(Costs(tariff, s'.byId), s'.ledger.entries[i]) {
      assert AmountKnown(Costs(tariff, s.byId), s.ledger.entries[i]);
    }
    forall id | id in s'.rated ensures RowPriced(tariff, s', id) {
      if id in s.rated {
        assert RowPriced(tariff, s, id);
      }
    }
  }

  lemma DebitPriced(tariff: Tariff, s: Books, b: Batch, now: real)
    requires Priced(tariff, s) && Known(s, b) && Credits.Sound(s.ledger)
    ensures Priced(tariff, s.(ledger := AfterDeduct(s.ledger, b, CostOf(tariff, b), now).0))
  {
    hide CostOf, Credits.Sound, Credits.Apply, DebitIsGenuine, Priced;
    var l := AfterDeduct(s.ledger, b, CostOf(tariff, b), now).0;
    DebitIsOp(s.ledger, b, CostOf(tariff, b), now);
    Credits.ApplyKeepsSound(s.ledger, DebitOp(b, CostOf(tariff, b), now));
    NewDebitIsGenuine(s, b, CostOf(tariff, b), now);
    RateKeyRoundTrip(b.id);
    LedgerPriced(tariff, s, l);
  }

  lemma ForeignPriced(tariff: Tariff, s: Books, op: Credits.Op)
    requires Priced(tariff, s) && Foreign(op) && Credits.Sound(s.ledger)
    ensures Priced(tariff, s.(ledger := Credits.Apply(s.ledger, op).0))
  {
    hide CostOf, Credits.Sound, Credits.Apply, Priced;
    var l := Credits.Apply(s.ledger, op).0;
    Credits.ApplyKeepsSound(s.ledger, op);
    forall i | |s.ledger.entries| <= i < |l.entries| ensures AmountKnown(Costs(tariff, s.byId), l.entries[i]) {
      NewEntriesKnown(s.ledger, op, i);
    }
    LedgerPriced(tariff, s, l);
  }

  lemma SoundPart(s: Books)
    requires BooksInv(s)
    ensures Credits.Sound(s.ledger)
  {
  }

  lemma StepKeepsPriced(tariff: Tariff, w: World, e: Event)
    requires Inv(w) && AllPriced(tariff, w) && (e.Other? ==> Foreign(e.op)) && (e.Charge? ==> e.tariff == tariff)
    ensures AllPriced(tariff, Step(w, e))
  {
    hide CostOf, AfterDeduct, AfterIngest, AfterRecord, Credits.Apply, BooksInv, Extends, Credits.Sound, Priced;
    SoundPart(w.books);
    match e
    case Ingest(tenant, key, metrics, newId) =>
      if newId !in w.books.byId {
        IngestKeepsBooks(w.books, tenant, key, metrics, newId);
        IngestSparesLedger(w.books, tenant, key, metrics, newId);
        IngestSparesRows(w.books, tenant, key, metrics, newId);
        MoreBatchesPriced(tariff, w.books, AfterIngest(w.books, tenant, key, metrics, newId));
      }
    case Charge(c, _, now) =>
      var me := RaterOf(w, c);
      if me.Checked? {
        assert RaterInv(w.books, w.raters[c]);
        if CostOf(tariff, me.batch) <= 0 {
          RecordPriced(tariff, w.books, me.batch);
        } else {
          DebitPriced(tariff, w.books, me.batch, now);
        }
      }
    case Record(c) =>
      var me := RaterOf(w, c);
      if me.Debited? {
        assert RaterInv(w.books, w.raters[c]) && RaterPriced(tariff, w.raters[c]);
        RecordPriced(tariff, w.books, me.batch);
      }
    case Other(op) => ForeignPriced(tariff, w.books, op);
    case _ =>
  }

  lemma IngestSparesRows(s: Books, tenant: string, key: string, metrics: Usage, newId: string)
    ensures AfterIngest(s, tenant, key, metrics, newId).rated == s.rated
  {
  }

  lemma {:induction false} RunKeepsPriced(tariff: Tariff, events: seq<Event>)
    requires AllForeign(events) && OneTariff(tariff, events)
    ensures AllPriced(tariff, Exec(START, events))
  {
    if events != [] {
      hide Step, Inv, AllPriced;
      var most, e := events[..|events| - 1], events[|events| - 1];
      assert e in events;
      AllForeignBefore(events);
      RunKeepsPriced(tariff, most);
      RunKeepsInv(most);
      StepKeepsPriced(tariff, Exec(START, most), e);
    }
  }

  lemma RatedAreDebitedOrFree(tariff: Tariff, s: Books, id: string)
    requires BooksInv(s) && Priced(tariff, s) && id in s.rated
    ensures id in s.byId && s.rated[id].charged == CostOf(tariff, s.byId[id])
    ensures CostOf(tariff, s.byId[id]) > 0 ==> id in DebitedIds(s.ledger.entries)
  {
    hide CostOf;
    assert RowPriced(tariff, s, id) && RowIsGenuine(s, id);
    if s.rated[id].charged > 0 {
      KeyInEntries(s.ledger, RateKey(id));
      DebitedIdsMeaning(s.ledger.entries, id);
    }
  }

  lemma DebitedNotRated(s: Books)
    requires BooksInv(s)
    ensures DebitedIds(s.ledger.entries) - s.rated.Keys == Unrecorded(s)
  {
    var debited, rated := DebitedIds(s.ledger.entries), s.rated.Keys;
    forall id ensures id in debited - rated <==> id in Unrecorded(s) {
      DebitedIdsMeaning(s.ledger.entries, id);
      RateKeyRoundTrip(id);
      if id in debited {
        var i :| 0 <= i < |s.ledger.entries| && s.ledger.entries[i].key == RateKey(id);
        assert Credits.EntryFiled(s.ledger, s.ledger.entries[i]);
        assert DebitIsGenuine(s.byId, s.ledger.entries[i]);
      }
      if RateKey(id) in s.ledger.idem {
        KeyInEntries(s.ledger, RateKey(id));
      }
    }
  }

  lemma BooksBalance(tariff: Tariff, s: Books)
    requires BooksInv(s) && Priced(tariff, s)
    ensures Recorded(s.rated) == RateDebits(s.ledger.entries) - Total(Unrecorded(s), Costs(tariff, s.byId))
  {
    hide CostOf, RateDebits, DebitedIds, Recorded, Total;
    var costs := Costs(tariff, s.byId);
    var debited := DebitedIds(s.ledger.entries);
    var rated := s.rated.Keys;
    DebitsAreTotal(costs, s.ledger.entries);
    forall id | id in rated
      ensures id in s.byId && s.rated[id].charged == costs[id] && (id !in debited ==> costs[id] == 0)
    {
      RatedAreDebitedOrFree(tariff, s, id);
    }
    RecordedIsTotal(s.rated);
    TotalAgrees(rated, Charges(s.rated), costs);
    TotalSplit(rated, debited, costs);
    TotalOfNothing(rated - debited, costs);
    TotalSplit(debited, rated, costs);
    assert debited * rated == rated * debited;
    DebitedNotRated(s);
  }

  lemma RecordedIsTotal(rated: map<string, Row>)
    ensures Recorded(rated) == Total(rated.Keys, Charges(rated))
  {
  }

  lemma KeyInEntries(l: Credits.Ledger, k: Credits.Key)
    requires Credits.Sound(l) && k in l.idem
    ensures exists i :: 0 <= i < |l.entries| && l.entries[i].key == k
  {
    assert l.idem[k] in l.entries;
  }

  /** Conservation over every run with one tariff: the credits recorded as charged are the credits
      debited for batches, less those of batches debited but not yet recorded. */
  lemma ChargesMatchDebits(tariff: Tariff, events: seq<Event>)
    requires AllForeign(events) && OneTariff(tariff, events)
    ensures var s := Exec(START, events).books;
            Recorded(s.rated) == RateDebits(s.ledger.entries) - Total(Unrecorded(s), Costs(tariff, s.byId))
  {
    hide Exec, Recorded, RateDebits, Total, Priced, BooksInv;
    RunKeepsInv(events);
    RunKeepsPriced(tariff, events);
    BooksBalance(tariff, Exec(START, events).books);
  }

  lemma UnrecordedHasDebit(s: Books, id: string) returns (i: nat)
    requires BooksInv(s) && id in Unrecorded(s)
    ensures i < |s.ledger.entries| && s.ledger.entries[i] == s.ledger.idem[RateKey(id)]
    ensures s.ledger.entries[i] == DebitEntry(s.byId[id], s.ledger.entries[i].amount)
    ensures Credits.ValidAmount(s.ledger.entries[i].amount) && Credits.ValidKey(RateKey(id))
    ensures s.byId[id].id == id && id != "" && s.byId[id].tenant != ""
  {
    RateKeyRoundTrip(id);
    KeyInEntries(s.ledger, RateKey(id));
    i :| 0 <= i < |s.ledger.entries| && s.ledger.entries[i].key == RateKey(id);
    assert Credits.EntryFiled(s.ledger, s.ledger.entries[i]);
    assert DebitIsGenuine(s.byId, s.ledger.entries[i]);
  }

  /** A batch debited but not recorded, rated again at whatever the price is today: it is never debited
      again.  It is recorded at today's price, unless that price is one no debit could have, when the
      attempt is refused; row and debit agree exactly when the price has not moved since the debit. */
  lemma CrashedBatchIsCompleted(today: Tariff, s: Books, id: string, now: real)
    requires BooksInv(s) && id in Unrecorded(s)
    ensures var (s', r) := AfterRate(today, s, s.byId[id], now);
            var price := CostOf(today, s.byId[id]);
            && RateKey(id) in s.ledger.idem
            && RateDebits(s'.ledger.entries) == RateDebits(s.ledger.entries)
            && (price == 0 ==> r == ZeroCost && id in s'.rated && s'.rated[id].charged == 0)
            && (0 < price <= Credits.MAX_AMOUNT ==>
                  r == Charged(price) && id in s'.rated && s'.rated[id].charged == price)
            && (price > Credits.MAX_AMOUNT ==> r == Refused(Credits.BadAmount) && id !in s'.rated)
            && (id in s'.rated && s'.rated[id].charged == s.ledger.idem[RateKey(id)].amount
                <==> price == s.ledger.idem[RateKey(id)].amount)
  {
    hide CostOf, BooksInv, RateDebits;
    var i := UnrecordedHasDebit(s, id);
    var b := s.byId[id];
    var l0 := Credits.AfterExpiry(s.ledger, b.tenant, now);
    ExpiryAddsNoDebit(s.ledger, b.tenant, now);
    assert RateKey(id) in l0.idem;
  }

  lemma ExpiryAddsNoDebit(l: Credits.Ledger, t: string, now: real)
    ensures RateDebits(Credits.AfterExpiry(l, t, now).entries) == RateDebits(l.entries)
  {
    var es := Credits.AfterExpiry(l, t, now).entries;
    if es != l.entries {
      assert es[..|l.entries|] == l.entries;
    }
  }

  lemma NewRowAdds(rated: map<string, Row>, id: string, row: Row)
    requires id !in rated
    ensures Recorded(rated[id := row]) == Recorded(rated) + row.charged
  {
    var after := rated[id := row];
    TotalWithout(after.Keys, id, Charges(after));
    assert after.Keys - {id} == rated.Keys;
    TotalAgrees(rated.Keys, Charges(rated), Charges(after));
  }

  /** A pass of `rate_pending` that nobody disturbs reports exactly what it added to the rating rows; what
      it reports among other raters is in `RatingReports`. */
  lemma {:induction false} PassReportsWhatItRecords(tariff: Tariff, s: Books, pending: seq<Batch>, now: real, t: Tally)
    ensures var (s', t') := AfterPending(tariff, s, pending, now, t);
            t'.charged - t.charged == Recorded(s'.rated) - Recorded(s.rated)
    decreases |pending|
  {
    if pending != [] {
      var (s1, t1) := PendingStep(tariff, s, pending[0], now, t);
      StepReportsWhatItRecords(tariff, s, pending[0], now, t);
      PassReportsWhatItRecords(tariff, s1, pending[1..], now, t1);
    }
  }

  lemma StepReportsWhatItRecords(tariff: Tariff, s: Books, b: Batch, now: real, t: Tally)
    ensures var (s', t') := PendingStep(tariff, s, b, now, t);
            t'.charged - t.charged == Recorded(s'.rated) - Recorded(s.rated)
  {
    if b.id !in s.rated {
      var (s1, r) := AfterRate(tariff, s, b, now);
      if b.id in s1.rated {
        var charged := s1.rated[b.id].charged;
        assert s1.rated == s.rated[b.id := Row(b.id, b.tenant, charged)];
        NewRowAdds(s.rated, b.id, Row(b.id, b.tenant, charged));
      } else {
        assert s1.rated == s.rated;
      }
    }
  }
}
