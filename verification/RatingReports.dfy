/** What `rate_pending` and the synchronous rating of lumen/platform/rating_engine.py report as charged, in
    runs of any number of raters at once. */
module RatingReports {
  import opened Prelude
  import Credits
  import opened Pricing
  import opened Rating
  import opened RatingRuns

  // ------------------------------------------------------------------ reports and rows

  /** What a step makes a rater among `mine` report as charged: the reply comes with the record. */
  function ReportOf(w: World, e: Event, mine: set<int>): nat {
    if e.Record? && e.c in mine && RaterOf(w, e.c).Debited? then RaterOf(w, e.c).cost else 0
  }

  /** What that step adds to the rating rows. */
  ghost function AdditionOf(w: World, e: Event, mine: set<int>): int {
    if e.Record? && e.c in mine then Recorded(Step(w, e).books.rated) - Recorded(w.books.rated) else 0
  }

  /** The sum of what the raters among `mine` report over a run. */
  function Reported(w: World, events: seq<Event>, mine: set<int>): nat {
    if events == [] then 0
    else
      var most := events[..|events| - 1];
      Reported(w, most, mine) + ReportOf(Exec(w, most), events[|events| - 1], mine)
  }

  /** The sum of what they add to the rating rows over the run. */
  ghost function Added(w: World, events: seq<Event>, mine: set<int>): int {
    if events == [] then 0
    else
      var most := events[..|events| - 1];
      Added(w, most, mine) + AdditionOf(Exec(w, most), events[|events| - 1], mine)
  }

  /** A rater among `mine` reports a batch that has its row already. */
  predicate ReportsTwice(w: World, e: Event, mine: set<int>) {
    && e.Record? && e.c in mine && RaterOf(w, e.c).Debited?
    && RaterOf(w, e.c).batch.id in w.books.rated
  }

  predicate CostsPositive(w: World, mine: set<int>) {
    forall c | c in mine :: RaterOf(w, c).Debited? ==> RaterOf(w, c).cost > 0
  }

  lemma StepKeepsPositive(w: World, e: Event, mine: set<int>)
    requires CostsPositive(w, mine)
    ensures CostsPositive(Step(w, e), mine)
  {
    hide CostOf, AfterDeduct, AfterRecord, AfterIngest, Credits.Apply;
  }

  /** A report is what the step added, unless the batch had its row already: then nothing was added. */
  lemma ReportOrNothing(w: World, e: Event, mine: set<int>)
    ensures AdditionOf(w, e, mine) == if ReportsTwice(w, e, mine) then 0 else ReportOf(w, e, mine)
  {
    hide Recorded;
    if e.Record? && e.c in mine && RaterOf(w, e.c).Debited? && !ReportsTwice(w, e, mine) {
      var b := RaterOf(w, e.c).batch;
      NewRowAdds(w.books.rated, b.id, Row(b.id, b.tenant, RaterOf(w, e.c).cost));
    }
  }

  ghost predicate NoneTwice(w: World, events: seq<Event>, mine: set<int>) {
    forall n | 0 <= n < |events| :: !ReportsTwice(Exec(w, events[..n]), events[n], mine)
  }

  lemma NoneTwiceBefore(w: World, events: seq<Event>, mine: set<int>)
    requires events != []
    ensures var most := events[..|events| - 1];
            NoneTwice(w, events, mine) <==>
            NoneTwice(w, most, mine) && !ReportsTwice(Exec(w, most), events[|events| - 1], mine)
  {
    hide ReportsTwice, Exec;
    var most := events[..|events| - 1];
    forall n | 0 <= n < |most| ensures most[..n] == events[..n] && most[n] == events[n] {}
    if NoneTwice(w, most, mine) && !ReportsTwice(Exec(w, most), events[|events| - 1], mine) {
      forall n | 0 <= n < |events| ensures !ReportsTwice(Exec(w, events[..n]), events[n], mine) {
        if n < |most| {
          assert !ReportsTwice(Exec(w, most[..n]), most[n], mine);
        }
      }
    }
  }

  lemma {:induction false} ReportedAgainstAdded(w: World, events: seq<Event>, mine: set<int>)
    requires CostsPositive(w, mine)
    ensures CostsPositive(Exec(w, events), mine)
    ensures Added(w, events, mine) <= Reported(w, events, mine)
    ensures Added(w, events, mine) == Reported(w, events, mine) <==> NoneTwice(w, events, mine)
  {
    if events != [] {
      var most, e := events[..|events| - 1], events[|events| - 1];
      ReportedAgainstAdded(w, most, mine);
      StepKeepsPositive(Exec(w, most), e, mine);
      ReportOrNothing(Exec(w, most), e, mine);
      NoneTwiceBefore(w, events, mine);
      assert ReportsTwice(Exec(w, most), e, mine) ==> ReportOf(Exec(w, most), e, mine) > 0;
      hide Step, NoneTwice, AdditionOf, ReportsTwice, ReportOf, CostsPositive;
    }
  }

  // ------------------------------------------------------------------ between Begin and Record

  /** The Begin of the rating that rater c has under way after n events. */
  function BegunAt(w: World, events: seq<Event>, n: nat, c: int): (j: Option<nat>)
    requires n <= |events|
    ensures j.Some? ==> j.value < n
  {
    if n == 0 || RaterOf(Exec(w, events[..n]), c).Idle? then None
    else if RaterOf(Exec(w, events[..n - 1]), c).Idle? then Some(n - 1)
    else BegunAt(w, events, n - 1, c)
  }

  /** The event files the row of the batch. */
  predicate FilesRow(w: World, e: Event, id: string) {
    id !in w.books.rated && id in Step(w, e).books.rated
  }

  predicate ByOther(e: Event, c: int) {
    (e.Charge? || e.Record?) && e.c != c
  }

  /** Every batch is stored under its own id. */
  predicate OwnIds(s: Books) {
    forall id | id in s.byId :: s.byId[id].id == id
  }

  lemma ExecStep(w: World, events: seq<Event>, n: nat)
    requires n < |events|
    ensures Exec(w, events[..n + 1]) == Step(Exec(w, events[..n]), events[n])
  {
    hide Step;
    assert events[..n + 1][..n] == events[..n];
  }

  lemma StepKeepsOwnIds(w: World, e: Event)
    requires OwnIds(w.books)
    ensures OwnIds(Step(w, e).books)
  {
    StepKeys(w, e);
    hide Step;
  }

  lemma {:induction false} RunKeepsOwnIds(w: World, events: seq<Event>)
    requires OwnIds(w.books)
    ensures OwnIds(Exec(w, events).books)
  {
    if events != [] {
      RunKeepsOwnIds(w, events[..|events| - 1]);
      StepKeepsOwnIds(Exec(w, events[..|events| - 1]), events[|events| - 1]);
      hide Step;
    }
  }

  /** While a rater is at work on a batch its own steps file no row. */
  lemma RaterMoves(w: World, e: Event, c: int)
    requires OwnIds(w.books) && !RaterOf(Step(w, e), c).Idle?
    ensures var before, after := RaterOf(w, c), RaterOf(Step(w, e), c);
            if before.Idle? then e == Begin(c, after.batch.id) && after.batch.id !in w.books.rated
            else after.batch == before.batch
    ensures forall id | FilesRow(w, e, id) :: ByOther(e, c)
  {
    hide CostOf, AfterDeduct, Credits.Apply;
  }

  lemma RowsStay(w: World, e: Event, id: string)
    ensures id in w.books.rated ==> id in Step(w, e).books.rated
  {
    hide CostOf, AfterDeduct, Credits.Apply;
  }

  /** Somebody other than c files the row of the batch at or after event j and before event n. */
  ghost predicate FiledBetween(w: World, events: seq<Event>, j: nat, n: nat, c: int, id: string)
    requires n <= |events|
  {
    exists k | j <= k < n :: FilesRow(Exec(w, events[..k]), events[k], id) && ByOther(events[k], c)
  }

  /** A rater began with a batch that had no row; it has one by now exactly if somebody else filed it. */
  lemma {:induction false} RatedIffFiledBetween(w: World, events: seq<Event>, n: nat, c: int)
    requires OwnIds(w.books) && RaterOf(w, c).Idle? && n <= |events|
    requires !RaterOf(Exec(w, events[..n]), c).Idle?
    ensures BegunAt(w, events, n, c).Some?
    ensures var id, j := RaterOf(Exec(w, events[..n]), c).batch.id, BegunAt(w, events, n, c).value;
            && j < n && events[j] == Begin(c, id)
            && (id in Exec(w, events[..n]).books.rated <==> FiledBetween(w, events, j, n, c, id))
  {
    if n > 0 {
      var before, e := Exec(w, events[..n - 1]), events[n - 1];
      ExecStep(w, events, n - 1);
      RunKeepsOwnIds(w, events[..n - 1]);
      RaterMoves(before, e, c);
      var id := RaterOf(Exec(w, events[..n]), c).batch.id;
      RowsStay(before, e, id);
      var j := n - 1;
      if !RaterOf(before, c).Idle? {
        RatedIffFiledBetween(w, events, n - 1, c);
        j := BegunAt(w, events, n - 1, c).value;
      }
      assert BegunAt(w, events, n, c) == Some(j);
      assert FilesRow(before, e, id) <==> id !in before.books.rated && id in Exec(w, events[..n]).books.rated;
      hide Step, Exec, FilesRow, OwnIds, BegunAt;
      FiledOneMore(w, events, j, n, c, id);
    }
  }

  lemma FiledOneMore(w: World, events: seq<Event>, j: nat, n: nat, c: int, id: string)
    requires j < n <= |events|
    ensures FiledBetween(w, events, j, n, c, id) <==>
            || FiledBetween(w, events, j, n - 1, c, id)
            || (FilesRow(Exec(w, events[..n - 1]), events[n - 1], id) && ByOther(events[n - 1], c))
  {
    hide FilesRow, ByOther, Exec;
  }

  /** Event n is a report by a rater among `mine` of a batch whose row somebody else filed between the
      rater's Begin and this Record. */
  ghost predicate Overtaken(w: World, events: seq<Event>, n: nat, mine: set<int>)
    requires n < |events|
  {
    && events[n].Record? && events[n].c in mine
    && var c := events[n].c;
       && RaterOf(Exec(w, events[..n]), c).Debited?
       && BegunAt(w, events, n, c).Some?
       && FiledBetween(w, events, BegunAt(w, events, n, c).value, n, c, RaterOf(Exec(w, events[..n]), c).batch.id)
  }

  /** In every run, whoever else rates meanwhile, a set of raters never adds more to the rows than it reports,
      and exactly what it reports if and only if nobody else filed a batch's row between the Begin and the
      Record of one of their reports. */
  lemma ReportsAreTrueIff(w: World, events: seq<Event>, mine: set<int>)
    requires OwnIds(w.books) && forall c | c in mine :: RaterOf(w, c).Idle?
    ensures Added(w, events, mine) <= Reported(w, events, mine)
    ensures Added(w, events, mine) == Reported(w, events, mine) <==>
            forall n | 0 <= n < |events| :: !Overtaken(w, events, n, mine)
  {
    ReportedAgainstAdded(w, events, mine);
    forall n | 0 <= n < |events|
      ensures Overtaken(w, events, n, mine) <==> ReportsTwice(Exec(w, events[..n]), events[n], mine)
    {
      if events[n].Record? && events[n].c in mine && RaterOf(Exec(w, events[..n]), events[n].c).Debited? {
        RatedIffFiledBetween(w, events, n, events[n].c);
      }
      hide Exec, BegunAt, FiledBetween;
    }
    hide Overtaken, ReportsTwice, Added, Reported, Exec;
  }

  /** The sum over all raters is what the rows grew by, so all reports together are true exactly when no
      batch was reported twice. */
  lemma {:induction false} AllAdditionsAreGrowth(w: World, events: seq<Event>, mine: set<int>)
    requires forall e | e in events :: e.Record? ==> e.c in mine
    ensures Added(w, events, mine) == Recorded(Exec(w, events).books.rated) - Recorded(w.books.rated)
  {
    if events != [] {
      var most, e := events[..|events| - 1], events[|events| - 1];
      assert e in events;
      AllAdditionsAreGrowth(w, most, mine);
      OnlyRecordsAdd(Exec(w, most), e);
      hide Step, Recorded;
    }
  }

  lemma OnlyRecordsAdd(w: World, e: Event)
    ensures !e.Record? ==> Recorded(Step(w, e).books.rated) == Recorded(w.books.rated)
  {
    hide CostOf, AfterDeduct, Credits.Apply, Recorded;
    if e.Charge? && RaterOf(w, e.c).Checked? && RaterOf(w, e.c).batch.id !in w.books.rated {
      var b := RaterOf(w, e.c).batch;
      NewRowAdds(w.books.rated, b.id, Row(b.id, b.tenant, 0));
    }
  }

  // ------------------------------------------------------------------ a pass is a run

  lemma {:induction false} ReportsAppend(w: World, a: seq<Event>, b: seq<Event>, mine: set<int>)
    ensures Exec(w, a + b) == Exec(Exec(w, a), b)
    ensures Reported(w, a + b, mine) == Reported(w, a, mine) + Reported(Exec(w, a), b, mine)
  {
    if b == [] {
      assert a + b == a;
    } else {
      assert (a + b)[..|a + b| - 1] == a + b[..|b| - 1];
      ReportsAppend(w, a, b[..|b| - 1], mine);
      hide Step, ReportOf;
    }
  }

  function RateSteps(tariff: Tariff, c: int, b: Batch, now: real): seq<Event> {
    if CostOf(tariff, b) <= 0 then [Begin(c, b.id), Charge(c, tariff, now)]
    else [Begin(c, b.id), Other(Credits.ExpireOp(b.tenant, now)), Charge(c, tariff, now), Record(c)]
  }

  /** The steps of a pass that nobody disturbs. */
  function PassSteps(tariff: Tariff, s: Books, c: int, pending: seq<Batch>, now: real, t: Tally): seq<Event>
    decreases |pending|
  {
    if pending == [] then []
    else
      var b := pending[0];
      var (s1, t1) := PendingStep(tariff, s, b, now, t);
      (if b.id in s.rated || b.id == "" || b.tenant == "" then [] else RateSteps(tariff, c, b, now))
      + PassSteps(tariff, s1, c, pending[1..], now, t1)
  }

  lemma RateReports(tariff: Tariff, w: World, c: int, b: Batch, now: real)
    requires Ratable(w, c, b.id) && w.books.byId[b.id] == b
    ensures var w', r := Exec(w, RateSteps(tariff, c, b, now)), AfterRate(tariff, w.books, b, now);
            && w'.books == r.0 && RaterOf(w', c).Idle? && w'.books.byId == w.books.byId
            && Reported(w, RateSteps(tariff, c, b, now), {c}) == if r.1.Charged? then r.1.credits else 0
  {
    RateIsARun(tariff, w, c, b.id, now);
    var w1 := Step(w, Begin(c, b.id));
    BeginStep(w, c, b.id);
    assert RaterOf(w1, c) == Checked(b) && ReportOf(w, Begin(c, b.id), {c}) == 0;
    var charge := Charge(c, tariff, now);
    if CostOf(tariff, b) <= 0 {
      TwoReports(w, Begin(c, b.id), charge, {c});
      hide CostOf, AfterDeduct, AfterRecord, Credits.Apply, Reported, Exec, RaterOf;
      assert RaterOf(Step(w1, charge), c).Idle? by {
        FreeChargeEnds(tariff, w1, c, b, now);
      }
    } else {
      var expire := Other(Credits.ExpireOp(b.tenant, now));
      FourReports(w, Begin(c, b.id), expire, charge, Record(c), {c});
      ExpireStep(w1, b.tenant, now);
      ChargeReports(tariff, Step(w1, expire), c, b, now);
      hide CostOf, AfterDeduct, AfterRecord, Credits.Apply, Reported, Exec, Step, Credits.AfterExpiry;
    }
  }

  lemma FreeChargeEnds(tariff: Tariff, w: World, c: int, b: Batch, now: real)
    requires RaterOf(w, c) == Checked(b) && CostOf(tariff, b) <= 0
    ensures RaterOf(Step(w, Charge(c, tariff, now)), c).Idle?
  {
  }

  lemma ChargeReports(tariff: Tariff, w: World, c: int, b: Batch, now: real)
    requires RaterOf(w, c) == Checked(b) && CostOf(tariff, b) > 0
    ensures var charged := Step(w, Charge(c, tariff, now));
            && RaterOf(Step(charged, Record(c)), c).Idle?
            && ReportOf(w, Charge(c, tariff, now), {c}) == 0
            && ReportOf(charged, Record(c), {c}) ==
               if AfterDeduct(w.books.ledger, b, CostOf(tariff, b), now).1.Ok() then CostOf(tariff, b) else 0
  {
    hide CostOf, AfterDeduct, AfterRecord;
  }

  lemma TwoReports(w: World, a: Event, b: Event, mine: set<int>)
    ensures Exec(w, [a, b]) == Step(Step(w, a), b)
    ensures Reported(w, [a, b], mine) == ReportOf(w, a, mine) + ReportOf(Step(w, a), b, mine)
  {
    hide Step, ReportOf;
    assert [a, b][..1] == [a] && [a][..0] == [];
    assert Exec(w, [a]) == Step(w, a);
    assert Reported(w, [a], mine) == ReportOf(w, a, mine);
  }

  lemma FourReports(w: World, a: Event, b: Event, c: Event, d: Event, mine: set<int>)
    ensures var w2 := Step(Step(w, a), b);
            && Exec(w, [a, b, c, d]) == Step(Step(w2, c), d)
            && Reported(w, [a, b, c, d], mine) ==
               ReportOf(w, a, mine) + ReportOf(Step(w, a), b, mine)
               + ReportOf(w2, c, mine) + ReportOf(Step(w2, c), d, mine)
  {
    TwoReports(w, a, b, mine);
    TwoReports(Step(Step(w, a), b), c, d, mine);
    ReportsAppend(w, [a, b], [c, d], mine);
    assert [a, b] + [c, d] == [a, b, c, d];
  }

  /** An undisturbed pass of `rate_pending` is one of these runs, and its charged_credits are what its rater
      reports in it. */
  lemma {:induction false} PassIsARun(tariff: Tariff, w: World, c: int, pending: seq<Batch>, now: real, t: Tally)
    requires RaterOf(w, c).Idle?
    requires forall b | b in pending :: b.id in w.books.byId && w.books.byId[b.id] == b
    ensures var events := PassSteps(tariff, w.books, c, pending, now, t);
            var (s', t') := AfterPending(tariff, w.books, pending, now, t);
            && Exec(w, events).books == s' && RaterOf(Exec(w, events), c).Idle?
            && t'.charged - t.charged == Reported(w, events, {c})
    decreases |pending|
  {
    if pending != [] {
      var b := pending[0];
      assert b in pending;
      var (s1, t1) := PendingStep(tariff, w.books, b, now, t);
      var rest := PassSteps(tariff, s1, c, pending[1..], now, t1);
      if b.id in w.books.rated || b.id == "" || b.tenant == "" {
        assert [] + rest == rest;
        PassIsARun(tariff, w, c, pending[1..], now, t1);
      } else {
        var first := RateSteps(tariff, c, b, now);
        RateReports(tariff, w, c, b, now);
        ReportsAppend(w, first, rest, {c});
        PassIsARun(tariff, Exec(w, first), c, pending[1..], now, t1);
        hide RateSteps, AfterRate, Exec, Reported, PassSteps, AfterPending;
      }
    }
  }

  // ------------------------------------------------------------------ two raters of one batch

  /** Two raters that have both seen the batch unrated both report its charge; the second debit is a replay,
      whatever the price is by then, and the second record adds nothing. */
  lemma BothReportOneCharge(w: World, a: int, c: int, b: Batch, first: Tariff, second: Tariff, now: real, later: real)
    requires a != c && RaterOf(w, a) == Checked(b) && RaterOf(w, c) == Checked(b) && b.id !in w.books.rated
    requires AfterDeduct(w.books.ledger, b, CostOf(first, b), now).1.Ok() && CostOf(first, b) > 0
    requires Credits.ValidAmount(CostOf(second, b))
    ensures var events := [Charge(a, first, now), Record(a), Charge(c, second, later), Record(c)];
            && Reported(w, events, {a, c}) == CostOf(first, b) + CostOf(second, b)
            && Recorded(Exec(w, events).books.rated) == Recorded(w.books.rated) + CostOf(first, b)
  {
    var mine := {a, c};
    FourReports(w, Charge(a, first, now), Record(a), Charge(c, second, later), Record(c), mine);
    FirstRater(w, a, c, b, first, now);
    var w2 := Step(Step(w, Charge(a, first, now)), Record(a));
    SecondRater(w2, c, b, second, later);
    NewRowAdds(w.books.rated, b.id, Row(b.id, b.tenant, CostOf(first, b)));
    hide Step, Exec, Reported, Recorded, CostOf, AfterDeduct;
  }

  lemma FirstRater(w: World, a: int, c: int, b: Batch, tariff: Tariff, now: real)
    requires a != c && RaterOf(w, a) == Checked(b) && RaterOf(w, c) == Checked(b) && b.id !in w.books.rated
    requires AfterDeduct(w.books.ledger, b, CostOf(tariff, b), now).1.Ok() && CostOf(tariff, b) > 0
    ensures var w1 := Step(w, Charge(a, tariff, now));
            var w2 := Step(w1, Record(a));
            && ReportOf(w, Charge(a, tariff, now), {a, c}) == 0
            && ReportOf(w1, Record(a), {a, c}) == CostOf(tariff, b)
            && w2.books.rated == w.books.rated[b.id := Row(b.id, b.tenant, CostOf(tariff, b))]
            && RaterOf(w2, c) == Checked(b)
            && RateKey(b.id) in w2.books.ledger.idem && Credits.ValidKey(RateKey(b.id))
  {
    DebitIsOp(w.books.ledger, b, CostOf(tariff, b), now);
    Credits.DoneUsesKey(w.books.ledger, DebitOp(b, CostOf(tariff, b), now));
    hide CostOf, AfterDeduct, Credits.Apply, Credits.ValidKey;
  }

  lemma SecondRater(w: World, c: int, b: Batch, tariff: Tariff, now: real)
    requires RaterOf(w, c) == Checked(b) && b.id in w.books.rated && Credits.ValidAmount(CostOf(tariff, b))
    requires RateKey(b.id) in w.books.ledger.idem && Credits.ValidKey(RateKey(b.id))
    ensures var w1 := Step(w, Charge(c, tariff, now));
            var w2 := Step(w1, Record(c));
            && RaterOf(w1, c) == Debited(b, CostOf(tariff, b))
            && w2.books.rated == w.books.rated
  {
    DebitIsOp(w.books.ledger, b, CostOf(tariff, b), now);
    Credits.ReplayChangesNothing(w.books.ledger, DebitOp(b, CostOf(tariff, b), now));
    assert CostOf(tariff, b) > 0;
    hide CostOf, AfterDeduct, Credits.Apply, Credits.ValidKey;
  }
}
