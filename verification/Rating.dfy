/** lumen/platform/usage_batches.py and lumen/platform/rating_engine.py: ingesting usage batches by
    idempotency key and charging each of them through the credit ledger. */
module Rating {
  import opened Prelude
  import opened Pricing
  import Credits

  datatype Batch = Batch(id: string, tenant: string, usage: Usage, key: string)

  datatype Row = Row(batchId: string, tenant: string, charged: nat)

  /** The four stores the money path touches. */
  datatype Books = Books(
    byId: map<string, Batch>,
    byKey: map<string, string>,
    order: seq<string>,
    rated: map<string, Row>,
    ledger: Credits.Ledger)

  const EMPTY_BOOKS := Books(map[], map[], [], map[], Credits.EMPTY_LEDGER)

  datatype Ingested = Ingested(batch: Batch, replay: bool)

  datatype Result =
    | InvalidBatch
    | AlreadyRated
    | ZeroCost
    | Charged(credits: nat)
    | Refused(why: Credits.Reply)
  {
    predicate Ok() { AlreadyRated? || ZeroCost? || Charged? }
    predicate Skipped() { AlreadyRated? || ZeroCost? }
  }

  /** The ledger key of a batch's debit. */
  function RateKey(id: string): Credits.Key {
    Credits.Caller("rate-" + id)
  }

  function CostOf(tariff: Tariff, b: Batch): nat {
    Cost(tariff, b.usage).total
  }

  function AfterIngest(s: Books, tenant: string, key: string, usage: Usage, newId: string): Books {
    if key in s.byKey then s
    else s.(byId := s.byId[newId := Batch(newId, tenant, usage, key)], byKey := s.byKey[key := newId],
              order := s.order + [newId])
  }

  function AfterRecord(s: Books, b: Batch, charged: nat): Books {
    if b.id in s.rated then s else s.(rated := s.rated[b.id := Row(b.id, b.tenant, charged)])
  }

  /** The debit of a batch in the ledger. */
  function AfterDeduct(l: Credits.Ledger, b: Batch, amount: int, now: real): (Credits.Ledger, Credits.Reply) {
    Credits.AfterDeduct(l, b.tenant, amount, "usage_batch", b.id, RateKey(b.id), now)
  }

  /** `CreditService.deduct_credits`: expire promotions, then deduct. */
  function AfterDebit(l: Credits.Ledger, b: Batch, amount: int, now: real): (Credits.Ledger, Credits.Reply) {
    AfterDeduct(Credits.AfterExpiry(l, b.tenant, now), b, amount, now)
  }

  /** `rate_batch` run without interruption. */
  function AfterRate(tariff: Tariff, s: Books, b: Batch, now: real): (Books, Result) {
    if b.id == "" || b.tenant == "" then (s, InvalidBatch)
    else if b.id in s.rated then (s, AlreadyRated)
    else
      var cost := CostOf(tariff, b);
      if cost <= 0 then (AfterRecord(s, b, 0), ZeroCost)
      else
        var (l, reply) := AfterDebit(s.ledger, b, cost, now);
        var s1 := s.(ledger := l);
        if !reply.Ok() then (s1, Refused(reply)) else (AfterRecord(s1, b, cost), Charged(cost))
  }

  datatype Tally = Tally(processed: nat, charged: nat, failed: nat, skipped: nat)

  function Counted(t: Tally, r: Result): Tally {
    var t1 := t.(processed := t.processed + 1);
    if r.Charged? && r.credits != 0 then t1.(charged := t.charged + r.credits)
    else if r.Ok() && r.Skipped() then t1.(skipped := t.skipped + 1)
    else if !r.Ok() then t1.(failed := t.failed + 1)
    else t1
  }

  /** One turn of the `rate_pending` loop. */
  function PendingStep(tariff: Tariff, s: Books, b: Batch, now: real, t: Tally): (Books, Tally) {
    if b.id in s.rated then (s, t.(skipped := t.skipped + 1))
    else
      var (s1, r) := AfterRate(tariff, s, b, now);
      (s1, Counted(t, r))
  }

  function AfterPending(tariff: Tariff, s: Books, pending: seq<Batch>, now: real, t: Tally): (Books, Tally)
    decreases |pending|
  {
    if pending == [] then (s, t)
    else
      var (s1, t1) := PendingStep(tariff, s, pending[0], now, t);
      AfterPending(tariff, s1, pending[1..], now, t1)
  }

  /** The oldest `limit` batches, in arrival order. */
  function Oldest(byId: map<string, Batch>, order: seq<string>, limit: nat): seq<Batch>
    requires forall i | 0 <= i < |order| :: order[i] in byId
  {
    seq(Min(limit, |order|), i requires 0 <= i < Min(limit, |order|) => byId[order[i]])
  }

  // ------------------------------------------------------------------ the services

  class MemoryUsageBatchStore {
    var byId: map<string, Batch>
    var byKey: map<string, string>
    var order: seq<string>

    ghost predicate Valid()
      reads this
    {
      Filed(byId, byKey, order)
    }

    constructor ()
      ensures Valid() && byId == map[] && byKey == map[] && order == []
    {
      byId, byKey, order := map[], map[], [];
    }

    /** `newId` is the id drawn for the batch in case it is new. */
    method Ingest(tenant: string, key: string, usage: Usage, newId: string) returns (r: Ingested)
      requires Valid() && newId !in byId
      modifies this
      ensures Valid()
      ensures var s := AfterIngest(Books(old(byId), old(byKey), old(order), map[], Credits.EMPTY_LEDGER),
                                   tenant, key, usage, newId);
              byId == s.byId && byKey == s.byKey && order == s.order
      ensures r.replay <==> key in old(byKey)
      ensures key in byKey && byKey[key] in byId && r.batch == byId[byKey[key]] && r.batch.key == key
    {
      if key in byKey {
        return Ingested(byId[byKey[key]], true);
      }
      var batch := Batch(newId, tenant, usage, key);
      byId := byId[newId := batch];
      byKey := byKey[key := newId];
      order := order + [newId];
      r := Ingested(batch, false);
    }

    /** Every batch keeps status "accepted", so these are simply the oldest ones. */
    method ListUnrated(limit: nat) returns (pending: seq<Batch>)
      requires Valid()
      ensures |pending| == Min(limit, |order|)
      ensures forall i | 0 <= i < |pending| :: order[i] in byId && pending[i] == byId[order[i]]
      ensures pending == Oldest(byId, order, limit)
    {
      pending := [];
      for i := 0 to |order|
        invariant |pending| == Min(limit, i)
        invariant forall j | 0 <= j < |pending| :: order[j] in byId && pending[j] == byId[order[j]]
      {
        if i < limit {
          pending := pending + [byId[order[i]]];
        }
      }
    }
  }

  class MemoryRatingStore {
    var rated: map<string, Row>

    constructor ()
      ensures rated == map[]
    {
      rated := map[];
    }

    method Record(b: Batch, charged: nat) returns (row: Row)
      modifies this
      ensures rated == if b.id in old(rated) then old(rated) else old(rated)[b.id := Row(b.id, b.tenant, charged)]
      ensures b.id in rated && row == rated[b.id]
    {
      if b.id in rated {
        return rated[b.id];
      }
      row := Row(b.id, b.tenant, charged);
      rated := rated[b.id := row];
    }
  }

  class RatingEngine {
    const tariff: Tariff
    const ratings: MemoryRatingStore
    const usage: MemoryUsageBatchStore
    const credits: Credits.MemoryCreditsStore

    constructor (tariff: Tariff, ratings: MemoryRatingStore, usage: MemoryUsageBatchStore,
            credits: Credits.MemoryCreditsStore)
      ensures this.tariff == tariff && this.ratings == ratings && this.usage == usage && this.credits == credits
    {
      this.tariff, this.ratings, this.usage, this.credits := tariff, ratings, usage, credits;
    }

    ghost function State(): Books
      reads ratings, usage, credits
    {
      Books(usage.byId, usage.byKey, usage.order, ratings.rated, credits.State())
    }

    method RateBatch(b: Batch, now: real) returns (r: Result)
      modifies ratings, credits
      ensures (State(), r) == AfterRate(tariff, old(State()), b, now)
    {
      if b.id == "" || b.tenant == "" {
        return InvalidBatch;
      }
      if b.id in ratings.rated {
        return AlreadyRated;
      }
      var breakdown := Cost(tariff, b.usage);
      if breakdown.total <= 0 {
        var _ := ratings.Record(b, 0);
        return ZeroCost;
      }
      credits.ExpirePromotional(b.tenant, now);
      var reply := credits.Deduct(b.tenant, breakdown.total, "usage_batch", b.id, Credits.Caller("rate-" + b.id), now);
      if !reply.Ok() {
        return Refused(reply);
      }
      var _ := ratings.Record(b, breakdown.total);
      r := Charged(breakdown.total);
    }

    method RatePending(limit: nat, now: real) returns (tally: Tally)
      requires usage.Valid()
      modifies ratings, credits
      ensures usage.Valid()
      ensures (State(), tally) ==
        AfterPending(tariff, old(State()), Oldest(usage.byId, usage.order, limit), now, Tally(0, 0, 0, 0))
    {
      var pending := usage.ListUnrated(limit);
      tally := Tally(0, 0, 0, 0);
      for i := 0 to |pending|
        invariant AfterPending(tariff, old(State()), pending, now, Tally(0, 0, 0, 0))
               == AfterPending(tariff, State(), pending[i..], now, tally)
        invariant usage.Valid()
      {
        assert pending[i..][0] == pending[i] && pending[i..][1..] == pending[i + 1..];
        tally := RateNext(pending[i], now, tally);
      }
    }

    method RateNext(batch: Batch, now: real, before: Tally) returns (tally: Tally)
      modifies ratings, credits
      ensures (State(), tally) == PendingStep(tariff, old(State()), batch, now, before)
    {
      tally := before;
      if batch.id in ratings.rated {
        return tally.(skipped := tally.skipped + 1);
      }
      var r := RateBatch(batch, now);
      tally := tally.(processed := tally.processed + 1);
      if r.Ok() && !r.Skipped() && r.credits != 0 {
        tally := tally.(charged := tally.charged + r.credits);
      } else if r.Ok() && r.Skipped() {
        tally := tally.(skipped := tally.skipped + 1);
      } else if !r.Ok() {
        tally := tally.(failed := tally.failed + 1);
      }
    }

    /** `UsageBatchService.ingest` after validation: store the batch and, when it is new and
        synchronous rating is on, charge it at once.  A batch that cannot be paid stays accepted. */
    method IngestAndRate(tenant: string, key: string, metrics: Usage, newId: string, sync: bool, now: real)
      returns (r: Ingested, unpaid: bool)
      requires usage.Valid() && newId !in usage.byId
      modifies usage, ratings, credits
      ensures usage.Valid()
      ensures r.replay <==> key in old(usage.byKey)
      ensures var s := AfterIngest(old(State()), tenant, key, metrics, newId);
              && key in s.byKey && s.byKey[key] in s.byId && r.batch == s.byId[s.byKey[key]]
              && if sync && !r.replay then
                   && State() == AfterRate(tariff, s, r.batch, now).0
                   && (unpaid <==> AfterRate(tariff, s, r.batch, now).1.Refused?
                                   && AfterRate(tariff, s, r.batch, now).1.why.Insufficient?)
                 else State() == s && !unpaid
    {
      unpaid := false;
      r := usage.Ingest(tenant, key, metrics, newId);
      if !r.replay && sync {
        var result := RateBatch(r.batch, now);
        unpaid := result.Refused? && result.why.Insufficient?;
      }
    }
  }

  /** Batches, keys and arrival order describe the same batches. */
  ghost predicate Filed(byId: map<string, Batch>, byKey: map<string, string>, order: seq<string>) {
    && (forall id | id in byId :: byId[id].id == id && byId[id].key in byKey && byKey[byId[id].key] == id)
    && (forall k | k in byKey :: byKey[k] in byId && byId[byKey[k]].key == k)
    && (forall i | 0 <= i < |order| :: order[i] in byId)
    && (forall id | id in byId :: id in order)
    && (forall i, j | 0 <= i < j < |order| :: order[i] != order[j])
  }
}
