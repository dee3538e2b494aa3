/** Which batches lumen/platform/usage_batches.py keeps, in which order, and which of them a pass of
    `rate_pending` with a limit takes up. */
module RatingLaws {
  import opened Prelude
  import opened Pricing
  import opened Rating
  import opened RatingRuns
  import Credits

  // ------------------------------------------------------------------ arrival

  /** The batches a run files, in the order of the ingests that filed them: those under a key not used
      before. */
  function Arrivals(events: seq<Event>): seq<Batch> {
    if events == [] then []
    else
      var most, e := events[..|events| - 1], events[|events| - 1];
      var s := Exec(START, most).books;
      Arrivals(most) + if e.Ingest? && e.newId !in s.byId && e.key !in s.byKey
                       then [Batch(e.newId, e.tenant, e.metrics, e.key)] else []
  }

  /** The store's order is the order of arrival, and what is stored is what was ingested. */
  ghost predicate Keeps(s: Books, arrived: seq<Batch>) {
    && |s.order| == |arrived|
    && (forall i | 0 <= i < |arrived| ::
          s.order[i] == arrived[i].id && s.order[i] in s.byId && s.byId[s.order[i]] == arrived[i])
    && (forall i, j | 0 <= i < j < |arrived| :: arrived[i].id != arrived[j].id)
    && (forall id | id in s.byId :: exists i :: 0 <= i < |arrived| && arrived[i].id == id)
  }

  lemma StepOrder(w: World, e: Event)
    ensures var s, s' := w.books, Step(w, e).books;
            if e.Ingest? && e.newId !in s.byId && e.key !in s.byKey then
              && s'.byId == s.byId[e.newId := Batch(e.newId, e.tenant, e.metrics, e.key)]
              && s'.order == s.order + [e.newId]
            else s'.byId == s.byId && s'.order == s.order
  {
    hide CostOf, AfterDeduct, Credits.Apply;
  }

  lemma OneMoreKept(s: Books, s': Books, arrived: seq<Batch>, b: Batch)
    requires Keeps(s, arrived) && b.id !in s.byId
    requires s'.byId == s.byId[b.id := b] && s'.order == s.order + [b.id]
    ensures Keeps(s', arrived + [b])
  {
    var all := arrived + [b];
    assert forall i | 0 <= i < |arrived| :: arrived[i].id != b.id;
    forall id | id in s'.byId ensures exists i :: 0 <= i < |all| && all[i].id == id {
      if id == b.id {
        assert all[|arrived|].id == id;
      } else {
        var i :| 0 <= i < |arrived| && arrived[i].id == id;
        assert all[i].id == id;
      }
    }
  }

  /** Over every run the store holds exactly what arrived, in that order. */
  lemma {:induction false} OrderIsArrival(events: seq<Event>)
    ensures Keeps(Exec(START, events).books, Arrivals(events))
  {
    if events != [] {
      var most, e := events[..|events| - 1], events[|events| - 1];
      OrderIsArrival(most);
      StepOrder(Exec(START, most), e);
      hide Step;
      var s := Exec(START, most).books;
      if e.Ingest? && e.newId !in s.byId && e.key !in s.byKey {
        OneMoreKept(s, Exec(START, events).books, Arrivals(most), Batch(e.newId, e.tenant, e.metrics, e.key));
      }
    }
  }

  // ------------------------------------------------------------------ what a pass does to the batches it is given

  predicate Distinct(pending: seq<Batch>) {
    forall i, j | 0 <= i < j < |pending| :: pending[i].id != pending[j].id
  }

  predicate Among(pending: seq<Batch>, id: string) {
    exists i :: 0 <= i < |pending| && pending[i].id == id
  }

  /** How many of the batches have no row. */
  function Unrated(rated: map<string, Row>, pending: seq<Batch>): nat {
    if pending == [] then 0 else (if pending[0].id in rated then 0 else 1) + Unrated(rated, pending[1..])
  }

  /** How many of the batches had no row before and have one with a charge now. */
  function NewlyCharged(before: map<string, Row>, after: map<string, Row>, pending: seq<Batch>): nat {
    if pending == [] then 0
    else
      var id := pending[0].id;
      (if id !in before && id in after && after[id].charged > 0 then 1 else 0)
      + NewlyCharged(before, after, pending[1..])
  }

  /** One turn of the loop touches its own batch only, and counts it once. */
  lemma TurnTouchesOne(tariff: Tariff, s: Books, b: Batch, now: real, t: Tally)
    ensures var (s', t') := PendingStep(tariff, s, b, now, t);
            && s'.byId == s.byId && s'.order == s.order && s'.byKey == s.byKey
            && (forall id | id != b.id :: id in s'.rated <==> id in s.rated)
            && (forall id | id in s.rated :: id in s'.rated && s'.rated[id] == s.rated[id])
            && (forall id | id != b.id :: RateKey(id) in s'.ledger.idem ==> RateKey(id) in s.ledger.idem)
            && t'.processed == t.processed + (if b.id in s.rated then 0 else 1)
            && t'.failed == t.failed + (if b.id in s'.rated then 0 else 1)
            && t'.skipped == t.skipped + (if b.id in s.rated || (b.id in s'.rated && s'.rated[b.id].charged == 0)
                                          then 1 else 0)
  {
    hide CostOf, AfterDeduct;
    if b.id !in s.rated && b.id != "" && b.tenant != "" && CostOf(tariff, b) > 0 {
      DebitAddsOneKey(s.ledger, b, CostOf(tariff, b), now);
    }
    hide AfterDebit;
  }

  lemma DebitAddsOneKey(l: Credits.Ledger, b: Batch, amount: int, now: real)
    ensures forall id | id != b.id :: RateKey(id) in AfterDebit(l, b, amount, now).0.idem ==> RateKey(id) in l.idem
  {
    var l1 := Credits.AfterExpiry(l, b.tenant, now);
    assert forall k: Credits.Key | k.Caller? && k in l1.idem :: k in l.idem;
    forall id | id != b.id ensures RateKey(id) != RateKey(b.id) {
      RateKeyRoundTrip(id);
      RateKeyRoundTrip(b.id);
    }
    hide Credits.AfterExpiry;
  }

  lemma {:induction false} RowsOutsideAgree(a: map<string, Row>, b: map<string, Row>, pending: seq<Batch>)
    requires forall i | 0 <= i < |pending| :: pending[i].id in a <==> pending[i].id in b
    ensures Unrated(a, pending) == Unrated(b, pending)
  {
    if pending != [] {
      RowsOutsideAgree(a, b, pending[1..]);
    }
  }

  lemma {:induction false} ChargesOutsideAgree(a: map<string, Row>, b: map<string, Row>, c: map<string, Row>,
          pending: seq<Batch>)
    requires forall i | 0 <= i < |pending| :: pending[i].id in a <==> pending[i].id in b
    ensures NewlyCharged(a, c, pending) == NewlyCharged(b, c, pending)
  {
    if pending != [] {
      ChargesOutsideAgree(a, b, c, pending[1..]);
    }
  }

  /** A pass adds rows and debits for the batches it is given and for no others, and changes no row there
      was. Its counts say what became of them: processed are those without a row at the start, failed those
      without one at the end, and skipped all that are neither failed nor newly charged. */
  lemma {:induction false} PassCountsItsBatches(tariff: Tariff, s: Books, pending: seq<Batch>, now: real, t: Tally)
    requires Distinct(pending)
    ensures var (s', t') := AfterPending(tariff, s, pending, now, t);
            && s'.byId == s.byId && s'.order == s.order && s'.byKey == s.byKey
            && (forall id :: id in s'.rated && id !in s.rated ==> Among(pending, id))
            && (forall id | id in s.rated :: id in s'.rated && s'.rated[id] == s.rated[id])
            && (forall id :: RateKey(id) in s'.ledger.idem && RateKey(id) !in s.ledger.idem ==> Among(pending, id))
            && t'.processed == t.processed + Unrated(s.rated, pending)
            && t'.failed == t.failed + Unrated(s'.rated, pending)
            && t'.skipped + t'.failed + NewlyCharged(s.rated, s'.rated, pending) == t.skipped + t.failed + |pending|
    decreases |pending|
  {
    if pending != [] {
      var b, rest := pending[0], pending[1..];
      var (s1, t1) := PendingStep(tariff, s, b, now, t);
      TurnTouchesOne(tariff, s, b, now, t);
      PassCountsItsBatches(tariff, s1, rest, now, t1);
      var (s', t') := AfterPending(tariff, s, pending, now, t);
      hide PendingStep, AfterPending;
      assert forall i | 0 <= i < |rest| :: rest[i] == pending[i + 1] && rest[i].id != b.id;
      RowsOutsideAgree(s.rated, s1.rated, rest);
      ChargesOutsideAgree(s.rated, s1.rated, s'.rated, rest);
      AmongRest(pending);
      assert !Among(rest, b.id);
      assert b.id in s'.rated <==> b.id in s1.rated;
    }
  }

  lemma AmongRest(pending: seq<Batch>)
    requires pending != []
    ensures forall id :: Among(pending, id) <==> id == pending[0].id || Among(pending[1..], id)
  {
    forall id ensures Among(pending, id) <==> id == pending[0].id || Among(pending[1..], id) {
      if Among(pending[1..], id) {
        var i :| 0 <= i < |pending[1..]| && pending[1..][i].id == id;
        assert pending[i + 1].id == id;
      }
      if Among(pending, id) {
        var i :| 0 <= i < |pending| && pending[i].id == id;
        if i > 0 {
          assert pending[1..][i - 1].id == id;
        }
      }
      assert pending[0].id == id ==> Among(pending, id);
    }
  }

  /** After any run, a pass with a limit takes up the first batches to arrive, as many as the limit allows:
      it rates and debits none but those, and a batch among them is left without a row exactly as often as
      the pass counts a failure. */
  lemma PassTakesFirstArrivals(tariff: Tariff, events: seq<Event>, limit: nat, now: real)
    ensures var s, arrived := Exec(START, events).books, Arrivals(events);
            && (forall i | 0 <= i < |s.order| :: s.order[i] in s.byId)
            && var n := Min(limit, |arrived|);
               var (s', t) := AfterPending(tariff, s, Oldest(s.byId, s.order, limit), now, Tally(0, 0, 0, 0));
               && Oldest(s.byId, s.order, limit) == arrived[..n]
               && (forall id :: id in s'.rated && id !in s.rated ==> Among(arrived[..n], id))
               && (forall id :: RateKey(id) in s'.ledger.idem && RateKey(id) !in s.ledger.idem ==>
                  Among(arrived[..n], id))
               && t.failed == Unrated(s'.rated, arrived[..n])
               && t.processed == Unrated(s.rated, arrived[..n])
               && t.skipped + t.failed + NewlyCharged(s.rated, s'.rated, arrived[..n]) == n
  {
    OrderIsArrival(events);
    var s, arrived := Exec(START, events).books, Arrivals(events);
    hide Exec, Arrivals;
    var n := Min(limit, |arrived|);
    assert Oldest(s.byId, s.order, limit) == arrived[..n];
    assert Distinct(arrived[..n]);
    PassCountsItsBatches(tariff, s, arrived[..n], now, Tally(0, 0, 0, 0));
    hide AfterPending, Among, Unrated, NewlyCharged, Keeps;
  }
}
