/** lumen/platform/balance_lifecycle.py: the zero-balance state machine
    active -> warning -> grace -> suspended, stored with optimistic versioned saves.

    The decision each call takes is a function from the stored state and what the call observed
    (wallet, ledger, clock) to the next state.  The store and the service are classes whose methods
    are proved against these functions; `LifecycleRuns` interleaves many clients over one store. */
module Lifecycle {
  import opened Prelude

  datatype Phase = Active | Warning | Grace | Suspended

  /** GRACE_SEC, GRACE_WARN_EVERY_SEC and ALERT_COOLDOWN_SEC, all read from the environment. */
  datatype Config = Config(graceSec: int, warnEverySec: int, cooldownSec: int)

  /** What stopping a tenant's bots reports: when it finished and which bots it found. */
  datatype StopReport = StopReport(at: real, bots: seq<string>)

  datatype Snapshot = Snapshot(report: StopReport, reason: string)

  datatype BalanceState = BalanceState(
    phase: Phase,
    lastAlertPct: int,
    lastAlertAt: real,
    graceStartedAt: real,
    graceUntil: real,
    lastGraceWarnAt: real,
    suspended: bool,
    suspendedAt: real,
    suspendReason: string,
    snapshot: Option<Snapshot>,
    alertsSent: seq<(int, int)>,
    baseline: int,
    version: int)

  const FRESH := BalanceState(Active, 0, 0.0, 0.0, 0.0, 0.0, false, 0.0, "", None, [], 0, 0)

  const THRESHOLDS: seq<int> := [80, 90, 95]

  /** What one evaluation sees: the wallet, the ledger's inflow, the clock, and (should it suspend)
      the report of stopping the bots. */
  datatype View = View(available: int, current: int, inflow: int, now: real, stop: StopReport)

  datatype Action =
    | AlreadySuspended
    | EnterGrace
    | InGrace
    | Suspend
    | Recovered
    | Alert(threshold: int)
    | NoChange
    | StillEmpty
    | Unsuspended
    | BaselineSet
    | Conflict

  /** One call of the service together with everything it reads apart from the stored state. */
  datatype Op =
    | Evaluate(view: View)
    | RatingFailure(why: string, failedAt: real, failStop: StopReport)
    | ForceSuspend(cause: string, forcedAt: real, forceStop: StopReport)
    | ClearOnCredit(wallet: Option<(int, int)>, clearedAt: real)
    | SetBaseline(amount: int, setAt: real)
  {
    /** When the call read its clock. */
    function At(): real {
      match this
      case Evaluate(v) => v.now
      case RatingFailure(_, t, _) => t
      case ForceSuspend(_, t, _) => t
      case ClearOnCredit(_, t) => t
      case SetBaseline(_, t) => t
    }
  }

  /** The state a call wants, the action it reports, and whether it calls `save`. */
  datatype Outcome = Outcome(next: BalanceState, action: Action, stores: bool)

  function Truncate(s: string): string {
    if |s| > 300 then s[..300] else s
  }

  function FundedBaseline(v: View, recorded: int): int {
    var funded := Max(recorded, v.current);
    Max(if v.inflow > funded then v.inflow else funded, 0)
  }

  function PctUsed(baseline: int, available: int): int {
    if baseline > 0 then Min(100, Max(0, baseline - available) * 100 / baseline) else 0
  }

  /** The threshold loop: the first threshold that is reached, not yet announced, and not held back
      by the cooldown test. */
  function FirstDue(cfg: Config, ths: seq<int>, pct: int, st: BalanceState, now: real): Option<int> {
    if ths == [] then None
    else if && pct >= ths[0] && st.lastAlertPct < ths[0]
            && (now - st.lastAlertAt >= cfg.cooldownSec as real || st.lastAlertPct < ths[0])
    then Some(ths[0])
    else FirstDue(cfg, ths[1..], pct, st, now)
  }

  function DoSuspend(st: BalanceState, reason: string, stop: StopReport): (out: Outcome)
    ensures out.stores
  {
    if st.suspended then Outcome(st, AlreadySuspended, true)
    else
      Outcome(
        st.(snapshot := Some(Snapshot(stop, reason)), suspended := true, phase := Suspended,
            suspendedAt := stop.at, suspendReason := Truncate(reason)),
        Suspend, true)
  }

  function GraceOrSuspend(cfg: Config, st: BalanceState, reason: string, now: real, stop: StopReport): (out: Outcome)
    ensures out.stores
  {
    if st.graceUntil <= 0.0 then
      Outcome(st.(phase := Grace, graceStartedAt := now, graceUntil := now + cfg.graceSec as real,
                  lastGraceWarnAt := now),
              EnterGrace, true)
    else if now < st.graceUntil then
      var warned := if now - st.lastGraceWarnAt >= cfg.warnEverySec as real
                    then st.(lastGraceWarnAt := now, lastAlertAt := now) else st;
      Outcome(warned.(phase := Grace), InGrace, true)
    else
      DoSuspend(st, "grace_expired:" + reason, stop)
  }

  function EvaluateView(cfg: Config, st: BalanceState, v: View): Outcome {
    if st.suspended || st.phase == Suspended then
      Outcome(st, AlreadySuspended, false)
    else
      var baseline := FundedBaseline(v, st.baseline);
      var st1 := if baseline > st.baseline then st.(baseline := baseline) else st;
      var pct := PctUsed(baseline, v.available);
      if v.available <= 0 then
        GraceOrSuspend(cfg, st1, "available_zero", v.now, v.stop)
      else if st1.phase == Grace || st1.phase == Warning then
        Outcome(st1.(phase := Active, graceUntil := 0.0, graceStartedAt := 0.0), Recovered, true)
      else
        match FirstDue(cfg, THRESHOLDS, pct, st1, v.now)
        case Some(th) =>
          Outcome(st1.(lastAlertPct := th, lastAlertAt := v.now, phase := Warning,
                       alertsSent := st1.alertsSent + [(th, Trunc(v.now))]),
                  Alert(th), true)
        case None => Outcome(st1, NoChange, true)
  }

  /** The sequential meaning of every call. */
  function Apply(cfg: Config, st: BalanceState, op: Op): Outcome {
    match op
    case Evaluate(v) => EvaluateView(cfg, st, v)
    case RatingFailure(why, now, stop) =>
      if !Contains(why, "insufficient") then Outcome(st, NoChange, false)
      else if st.suspended then Outcome(st, AlreadySuspended, false)
      else GraceOrSuspend(cfg, st, why, now, stop)
    case ForceSuspend(cause, _, stop) => DoSuspend(st, cause, stop)
    case ClearOnCredit(wallet, _) =>
      if wallet.Some? && wallet.value.0 <= 0 && wallet.value.1 <= 0 then
        Outcome(st, StillEmpty, false)
      else
        Outcome(st.(baseline := if wallet.Some? then Max(st.baseline, wallet.value.1) else st.baseline,
                    suspended := false, phase := Active, suspendedAt := 0.0, suspendReason := "",
                    graceUntil := 0.0, graceStartedAt := 0.0, lastAlertPct := 0, lastGraceWarnAt := 0.0),
                Unsuspended, true)
    case SetBaseline(amount, _) =>
      Outcome(st.(baseline := Max(st.baseline, amount)), BaselineSet, true)
  }

  // ------------------------------------------------------------------ one call

  /** The clock is far enough from the epoch for "no timer" (zero) and a timer to be told apart. */
  predicate ClockOk(cfg: Config, now: real) {
    now > 0.0 && now + cfg.graceSec as real > 0.0
  }

  /** The shape of every stored state. */
  predicate Consistent(cfg: Config, st: BalanceState) {
    && (st.suspended <==> st.phase == Suspended)
    && (st.phase == Active || st.phase == Warning ==> st.graceUntil == 0.0 && st.graceStartedAt == 0.0)
    && (st.phase == Grace ==> TimerRuns(cfg, st))
    && (st.phase == Suspended ==> TimerRuns(cfg, st) || (st.graceUntil == 0.0 && st.graceStartedAt == 0.0))
    && st.lastAlertPct in {0, 80, 90, 95}
    && st.baseline >= 0
  }

  predicate TimerRuns(cfg: Config, st: BalanceState) {
    && st.graceStartedAt > 0.0
    && st.graceUntil > 0.0
    && st.graceUntil == st.graceStartedAt + cfg.graceSec as real
  }

  lemma FirstDueMeaning(cfg: Config, ths: seq<int>, pct: int, st: BalanceState, now: real)
    ensures match FirstDue(cfg, ths, pct, st, now)
            case Some(th) => th in ths && pct >= th > st.lastAlertPct
            case None => forall th | th in ths :: !(pct >= th > st.lastAlertPct)
  {
    if ths != [] {
      FirstDueMeaning(cfg, ths[1..], pct, st, now);
      assert forall th :: th in ths <==> th == ths[0] || th in ths[1..];
    }
  }

  lemma GraceOrSuspendKeepsConsistent(cfg: Config, st: BalanceState, reason: string, now: real, stop: StopReport)
    requires Consistent(cfg, st) && !st.suspended && ClockOk(cfg, now)
    ensures var next := GraceOrSuspend(cfg, st, reason, now, stop).next;
            Consistent(cfg, next) && next.version == st.version && next.baseline == st.baseline
  {
  }

  lemma EvaluateKeepsConsistent(cfg: Config, st: BalanceState, v: View)
    requires Consistent(cfg, st) && ClockOk(cfg, v.now)
    ensures var next := EvaluateView(cfg, st, v).next;
            Consistent(cfg, next) && next.version == st.version && next.baseline >= st.baseline
  {
    var baseline := FundedBaseline(v, st.baseline);
    var st1 := if baseline > st.baseline then st.(baseline := baseline) else st;
    FirstDueMeaning(cfg, THRESHOLDS, PctUsed(baseline, v.available), st1, v.now);
    if !st.suspended {
      GraceOrSuspendKeepsConsistent(cfg, st1, "available_zero", v.now, v.stop);
    }
    hide FirstDue, PctUsed, GraceOrSuspend;
  }

  /** The shape survives every call, whatever it observes. */
  lemma ApplyKeepsConsistent(cfg: Config, st: BalanceState, op: Op)
    requires Consistent(cfg, st) && ClockOk(cfg, op.At())
    ensures Consistent(cfg, Apply(cfg, st, op).next)
    ensures Apply(cfg, st, op).next.version == st.version
    ensures Apply(cfg, st, op).next.baseline >= st.baseline
  {
    hide EvaluateView, GraceOrSuspend;
    if op.Evaluate? {
      EvaluateKeepsConsistent(cfg, st, op.view);
    } else if op.RatingFailure? && !st.suspended {
      GraceOrSuspendKeepsConsistent(cfg, st, op.why, op.failedAt, op.failStop);
    }
  }

  /** At most (100 - th) percent of the baseline is left. */
  predicate Crossed(baseline: int, available: int, th: int) {
    100 * available <= (100 - th) * baseline
  }

  /** A whole percentage is reached exactly when the credits left have fallen to the matching share. */
  lemma PctReached(baseline: int, available: int, th: int)
    requires available > 0 && 0 < th <= 100
    ensures PctUsed(baseline, available) >= th <==>
            baseline > 0 && Crossed(baseline, available, th)
  {
    if baseline > 0 {
      var used := Max(0, baseline - available);
      QuotientReaches(used * 100, baseline, th);
      if available <= baseline {
        assert used * 100 >= th * baseline <==> 100 * available <= (100 - th) * baseline by {
          assert (100 - th) * baseline == 100 * baseline - th * baseline;
        }
      } else {
        assert th * baseline > 0;
        assert (100 - th) * baseline < 100 * available by {
          assert (100 - th) * baseline == 100 * baseline - th * baseline;
        }
      }
    }
  }

  /** An alert is raised exactly for the lowest threshold above the last announced one that the
      remaining credits have really crossed; no other call raises one. */
  lemma AlertExactlyWhenCrossed(cfg: Config, st: BalanceState, op: Op, th: int)
    requires Consistent(cfg, st)
    ensures Apply(cfg, st, op).action == Alert(th) <==>
            && op.Evaluate?
            && st.phase == Active
            && op.view.available > 0
            && th in THRESHOLDS && th > st.lastAlertPct
            && Crossed(FundedBaseline(op.view, st.baseline), op.view.available, th)
            && (forall lower | lower in THRESHOLDS && st.lastAlertPct < lower < th ::
                  !Crossed(FundedBaseline(op.view, st.baseline), op.view.available, lower))
    ensures Apply(cfg, st, op).action == Alert(th) ==>
            && Apply(cfg, st, op).next.lastAlertPct == th && Apply(cfg, st, op).next.lastAlertAt == op.At()
            && Apply(cfg, st, op).next.phase == Warning
            && Apply(cfg, st, op).next.alertsSent == st.alertsSent + [(th, Trunc(op.At()))]
  {
    assert forall x :: x in THRESHOLDS <==> x == 80 || x == 90 || x == 95;
    if op.Evaluate? && st.phase == Active && op.view.available > 0 {
      var v := op.view;
      var b := FundedBaseline(v, st.baseline);
      PctReached(b, v.available, 80);
      PctReached(b, v.available, 90);
      PctReached(b, v.available, 95);
      assert b <= 0 ==> forall x | x in THRESHOLDS :: !Crossed(b, v.available, x);
      FirstDueUnrolled(cfg, PctUsed(b, v.available), if b > st.baseline then st.(baseline := b) else st, v.now);
    }
  }

  lemma FirstDueUnrolled(cfg: Config, pct: int, st: BalanceState, now: real)
    ensures FirstDue(cfg, THRESHOLDS, pct, st, now) ==
            if pct >= 80 && st.lastAlertPct < 80 then Some(80)
            else if pct >= 90 && st.lastAlertPct < 90 then Some(90)
            else if pct >= 95 && st.lastAlertPct < 95 then Some(95)
            else None
  {
    assert THRESHOLDS[1..] == [90, 95];
    assert [90, 95][1..] == [95];
    assert FirstDue(cfg, [95], pct, st, now) == if pct >= 95 && st.lastAlertPct < 95 then Some(95) else None;
    assert FirstDue(cfg, [90, 95], pct, st, now) ==
      if pct >= 90 && st.lastAlertPct < 90 then Some(90) else FirstDue(cfg, [95], pct, st, now);
  }

  /** The cooldown test sits behind a condition that already implies it: no cooldown setting ever
      changes an outcome. */
  lemma CooldownHasNoEffect(cfg: Config, cooldown: int, st: BalanceState, op: Op)
    ensures Apply(cfg, st, op) == Apply(cfg.(cooldownSec := cooldown), st, op)
  {
    forall ths: seq<int>, pct, s, now ensures
      FirstDue(cfg, ths, pct, s, now) == FirstDue(cfg.(cooldownSec := cooldown), ths, pct, s, now)
    {
      CooldownSkipsNothing(cfg, cooldown, ths, pct, s, now);
    }
  }

  lemma CooldownSkipsNothing(cfg: Config, cooldown: int, ths: seq<int>, pct: int, st: BalanceState, now: real)
    ensures FirstDue(cfg, ths, pct, st, now) == FirstDue(cfg.(cooldownSec := cooldown), ths, pct, st, now)
  {
  }

  // ------------------------------------------------------------------ when a tenant without credit is suspended

  /** The call finds no credit: an evaluation of an empty wallet, or a charge refused for want of credit. */
  predicate FindsNoCredit(op: Op) {
    || (op.Evaluate? && op.view.available <= 0)
    || (op.RatingFailure? && Contains(op.why, "insufficient"))
  }

  /** Grace opens with the first such call and lasts GRACE_SEC, no less and no more: until then such a call
      leaves the tenant in grace, from then on it suspends. */
  lemma GraceLastsExactly(cfg: Config, st: BalanceState, op: Op)
    requires Consistent(cfg, st) && ClockOk(cfg, op.At()) && FindsNoCredit(op)
    ensures var out := Apply(cfg, st, op);
            match st.phase
            case Grace =>
              && out.action == (if op.At() < st.graceStartedAt + cfg.graceSec as real then InGrace else Suspend)
              && out.next.phase == (if op.At() < st.graceStartedAt + cfg.graceSec as real then Grace else Suspended)
              && out.next.graceStartedAt == st.graceStartedAt && out.next.graceUntil == st.graceUntil
              && out.stores
            case Suspended => out.action == AlreadySuspended && out.next == st && !out.stores
            case _ =>
              && out.action == EnterGrace && out.next.phase == Grace
              && out.next.graceStartedAt == op.At() && out.next.graceUntil == op.At() + cfg.graceSec as real
              && out.next.lastGraceWarnAt == op.At()
              && out.stores
  {
    hide FundedBaseline, PctUsed, FirstDue, Contains;
  }

  /** The reminder of a running grace period is stamped when the last stamp is GRACE_WARN_EVERY_SEC old. */
  lemma GraceWarningsKeepDistance(cfg: Config, st: BalanceState, op: Op)
    requires Consistent(cfg, st) && Apply(cfg, st, op).action == InGrace
    ensures var next := Apply(cfg, st, op).next;
            && next.lastGraceWarnAt ==
               (if op.At() < st.lastGraceWarnAt + cfg.warnEverySec as real then st.lastGraceWarnAt else op.At())
            && next.lastAlertAt == (if op.At() < st.lastGraceWarnAt + cfg.warnEverySec as real then st.lastAlertAt
               else op.At())
  {
    hide FundedBaseline, PctUsed, FirstDue, Contains;
  }

  /** The reason a call suspends for: the expired grace period it met, or the cause it was given. */
  function CauseOf(op: Op): string {
    match op
    case Evaluate(_) => "grace_expired:" + "available_zero"
    case RatingFailure(why, _, _) => "grace_expired:" + why
    case ForceSuspend(cause, _, _) => cause
    case _ => ""
  }

  function StopOf(op: Op): StopReport {
    match op
    case Evaluate(v) => v.stop
    case RatingFailure(_, _, stop) => stop
    case ForceSuspend(_, _, stop) => stop
    case _ => StopReport(0.0, [])
  }

  /** A suspension records when the bots were stopped, which ones, and why, the reason cut to 300 characters;
      `suspend()` suspends any tenant that is not suspended yet. */
  lemma SuspensionRecords(cfg: Config, st: BalanceState, op: Op)
    requires Consistent(cfg, st)
    ensures op.ForceSuspend? ==>
              Apply(cfg, st, op).action == if st.phase == Suspended then AlreadySuspended else Suspend
    ensures Apply(cfg, st, op).action == Suspend ==>
              var next := Apply(cfg, st, op).next;
              && next.suspended && next.phase == Suspended && next.suspendedAt == StopOf(op).at
              && next.snapshot == Some(Snapshot(StopOf(op), CauseOf(op)))
              && next.suspendReason <= CauseOf(op) && |next.suspendReason| == Min(300, |CauseOf(op)|)
  {
    hide FundedBaseline, PctUsed, FirstDue, Contains;
  }

  /** A tenant recovers exactly when an evaluation finds credit in grace or warning; it is unsuspended exactly
      when a credit comes in and its wallet cannot be read or is not empty. Either way it is active, and no
      grace period runs. */
  lemma RecoveryIsComplete(cfg: Config, st: BalanceState, op: Op)
    requires Consistent(cfg, st)
    ensures var out := Apply(cfg, st, op);
            && (out.action == Recovered <==> op.Evaluate? && op.view.available > 0 && st.phase in {Grace, Warning})
            && (out.action == Unsuspended <==>
                  op.ClearOnCredit? && (op.wallet.None? || op.wallet.value.0 > 0 || op.wallet.value.1 > 0))
            && (op.ClearOnCredit? && out.action != Unsuspended ==> out.action == StillEmpty && !out.stores)
            && (out.action in {Recovered, Unsuspended} ==>
                  && out.stores && out.next.phase == Active && !out.next.suspended
                  && out.next.graceStartedAt == 0.0 && out.next.graceUntil == 0.0)
            && (out.action == Unsuspended ==>
                  && out.next.suspendedAt == 0.0 && out.next.suspendReason == ""
                  && out.next.lastAlertPct == 0 && out.next.lastGraceWarnAt == 0.0)
  {
    hide FundedBaseline, PctUsed, FirstDue, Contains;
  }

  /** Which calls save: all but those that find the tenant suspended already (a forced suspension saves even
      then), failures for other reasons than credit, and credits that leave the wallet empty. */
  lemma SavesIff(cfg: Config, st: BalanceState, op: Op)
    requires Consistent(cfg, st)
    ensures Apply(cfg, st, op).stores <==>
            match op
            case Evaluate(_) => st.phase != Suspended
            case RatingFailure(why, _, _) => Contains(why, "insufficient") && st.phase != Suspended
            case ForceSuspend(_, _, _) => true
            case ClearOnCredit(wallet, _) => wallet.None? || wallet.value.0 > 0 || wallet.value.1 > 0
            case SetBaseline(_, _) => true
  {
    hide FundedBaseline, PctUsed, FirstDue, Contains;
  }

  /** The baseline a stored call leaves is the largest amount it knows of, and never negative. */
  lemma BaselineIsLargest(cfg: Config, st: BalanceState, op: Op)
    requires Consistent(cfg, st) && Apply(cfg, st, op).stores
    ensures var after := Apply(cfg, st, op).next.baseline;
            match op
            case Evaluate(v) =>
              after >= 0 && after >= st.baseline && after >= v.current && after >= v.inflow
              && after in {0, st.baseline, v.current, v.inflow}
            case ClearOnCredit(wallet, _) =>
              after >= st.baseline && (wallet.Some? ==> after >= wallet.value.1)
              && (after == st.baseline || (wallet.Some? && after == wallet.value.1))
            case SetBaseline(amount, _) => after >= st.baseline && after >= amount && after in {st.baseline, amount}
            case _ => after == st.baseline
  {
    hide PctUsed, FirstDue, Contains;
  }

  // ------------------------------------------------------------------ store and retry loop

  type States = map<string, BalanceState>

  function Saved(st: BalanceState): BalanceState {
    st.(version := st.version + 1)
  }

  function AfterGet(states: States, tid: string): States {
    if tid in states then states else states[tid := FRESH]
  }

  predicate SaveAccepted(states: States, tid: string, st: BalanceState) {
    tid in states ==> states[tid].version == st.version
  }

  function AfterSave(states: States, tid: string, st: BalanceState): States {
    if SaveAccepted(states, tid, st) then states[tid := Saved(st)] else states
  }

  /** The saves other callers attempt, in order. */
  function AfterRivals(states: States, tid: string, rivals: seq<BalanceState>): (after: States)
    ensures tid in states ==> tid in after
    decreases |rivals|
  {
    if rivals == [] then states
    else AfterRivals(AfterSave(states, tid, rivals[0]), tid, rivals[1..])
  }

  datatype Reply = Reply(states: States, action: Action)

  /** `on_balance_changed`: one attempt for each view left; between the read and the save of an
      attempt the rivals listed for it save first. */
  function Attempts(cfg: Config, states: States, tid: string, views: seq<View>, rivals: seq<seq<BalanceState>>): Reply
    requires |views| == |rivals|
    decreases |views|
  {
    if views == [] then Reply(states, Conflict)
    else
      var s0 := AfterGet(states, tid);
      var out := EvaluateView(cfg, s0[tid], views[0]);
      if !out.stores then Reply(s0, out.action)
      else
        var s1 := AfterRivals(s0, tid, rivals[0]);
        if SaveAccepted(s1, tid, out.next) then Reply(AfterSave(s1, tid, out.next), out.action)
        else if out.action == Suspend then Reply(s1, Suspend)
        else Attempts(cfg, s1, tid, views[1..], rivals[1..])
  }

  /** MemoryLifecycleStore: `get` hands out a copy, `save` compares versions.  Each method is one
      critical section of the store's lock. */
  class MemoryLifecycleStore {
    var states: States

    constructor ()
      ensures states == map[]
    {
      states := map[];
    }

    method Get(tid: string) returns (st: BalanceState)
      modifies this
      ensures states == AfterGet(old(states), tid)
      ensures tid in states && st == states[tid]
      ensures tid !in old(states) ==>
                && st.phase == Active && !st.suspended && st.suspendReason == "" && st.suspendedAt == 0.0
                && st.lastAlertPct == 0 && st.lastAlertAt == 0.0 && st.alertsSent == [] && st.baseline == 0
                && st.graceStartedAt == 0.0 && st.graceUntil == 0.0 && st.lastGraceWarnAt == 0.0
                && st.snapshot == None && st.version == 0
    {
      if tid !in states {
        states := states[tid := FRESH];
      }
      st := states[tid];
    }

    method Save(tid: string, st: BalanceState) returns (ok: bool)
      modifies this
      ensures ok == SaveAccepted(old(states), tid, st)
      ensures states == AfterSave(old(states), tid, st)
    {
      if tid in states && states[tid].version != st.version {
        return false;
      }
      states := states[tid := st.(version := st.version + 1)];
      ok := true;
    }
  }

  class BalanceLifecycle {
    const cfg: Config
    const store: MemoryLifecycleStore

    constructor (cfg: Config, store: MemoryLifecycleStore)
      ensures this.cfg == cfg && this.store == store
    {
      this.cfg := cfg;
      this.store := store;
    }

    method Rivals(tid: string, rivals: seq<BalanceState>)
      modifies store
      ensures store.states == AfterRivals(old(store.states), tid, rivals)
    {
      for i := 0 to |rivals|
        invariant AfterRivals(old(store.states), tid, rivals) == AfterRivals(store.states, tid, rivals[i..])
      {
        var _ := store.Save(tid, rivals[i]);
      }
    }

    /** The threshold loop of `on_balance_changed`. */
    method CrossedThreshold(pct: int, state: BalanceState, now: real) returns (crossed: Option<int>)
      ensures crossed == FirstDue(cfg, THRESHOLDS, pct, state, now)
    {
      crossed := None;
      for i := 0 to |THRESHOLDS|
        invariant crossed.None? ==>
          FirstDue(cfg, THRESHOLDS, pct, state, now) == FirstDue(cfg, THRESHOLDS[i..], pct, state, now)
        invariant crossed.Some? ==> crossed == FirstDue(cfg, THRESHOLDS, pct, state, now)
      {
        var th := THRESHOLDS[i];
        if && crossed == None && pct >= th && state.lastAlertPct < th
           && (now - state.lastAlertAt >= cfg.cooldownSec as real || state.lastAlertPct < th) {
          crossed := Some(th);
        }
      }
    }

    method OnBalanceChanged(tid: string, views: seq<View>, rivals: seq<seq<BalanceState>>) returns (act: Action)
      requires |views| == |rivals| == 3
      modifies store
      ensures Reply(store.states, act) == Attempts(cfg, old(store.states), tid, views, rivals)
    {
      hide FirstDue, PctUsed, FundedBaseline, GraceOrSuspend, AfterRivals;
      for k := 0 to 3
        invariant Attempts(cfg, old(store.states), tid, views, rivals)
               == Attempts(cfg, store.states, tid, views[k..], rivals[k..])
      {
        var v := views[k];
        var state := store.Get(tid);
        if state.suspended || state.phase == Suspended {
          return AlreadySuspended;
        }
        var baseline := FundedBaseline(v, state.baseline);
        if baseline > state.baseline {
          state := state.(baseline := baseline);
        }
        var pct := PctUsed(baseline, v.available);

        if v.available <= 0 {
          var out := GraceOrSuspend(cfg, state, "available_zero", v.now, v.stop);
          Rivals(tid, rivals[k]);
          var ok := store.Save(tid, out.next);
          if ok || out.action == Suspend {
            return out.action;
          }
        } else if state.phase == Grace || state.phase == Warning {
          state := state.(phase := Active, graceUntil := 0.0, graceStartedAt := 0.0);
          Rivals(tid, rivals[k]);
          var ok := store.Save(tid, state);
          if ok {
            return Recovered;
          }
        } else {
          var crossed := CrossedThreshold(pct, state, v.now);
          if crossed.Some? {
            var th := crossed.value;
            state := state.(lastAlertPct := th, lastAlertAt := v.now, phase := Warning,
                            alertsSent := state.alertsSent + [(th, Trunc(v.now))]);
          }
          Rivals(tid, rivals[k]);
          var ok := store.Save(tid, state);
          if ok {
            return if crossed.Some? then Alert(crossed.value) else NoChange;
          }
        }
      }
      act := Conflict;
    }

    /** The remaining calls read once, decide once and save without looking at the outcome. */
    method OnRatingFailure(tid: string, why: string, now: real, stop: StopReport, rivals: seq<BalanceState>)
            returns (act: Action)
      modifies store
      ensures Reply(store.states, act) == Once(cfg, old(store.states), tid, RatingFailure(why, now, stop), rivals)
    {
      if !Contains(why, "insufficient") {
        return NoChange;
      }
      var state := store.Get(tid);
      if state.suspended {
        return AlreadySuspended;
      }
      var out := GraceOrSuspend(cfg, state, why, now, stop);
      Rivals(tid, rivals);
      var _ := store.Save(tid, out.next);
      act := out.action;
    }

    method SuspendNow(tid: string, cause: string, now: real, stop: StopReport, rivals: seq<BalanceState>)
            returns (act: Action)
      modifies store
      ensures Reply(store.states, act) == Once(cfg, old(store.states), tid, ForceSuspend(cause, now, stop), rivals)
    {
      var state := store.Get(tid);
      var out := DoSuspend(state, cause, stop);
      Rivals(tid, rivals);
      var _ := store.Save(tid, out.next);
      act := out.action;
    }

    /** `wallet` is (available, current), or None when the wallet could not be read. */
    method ClearSuspensionOnCredit(tid: string, wallet: Option<(int, int)>, now: real, rivals: seq<BalanceState>)
            returns (act: Action)
      modifies store
      ensures Reply(store.states, act) == Once(cfg, old(store.states), tid, ClearOnCredit(wallet, now), rivals)
    {
      var state := store.Get(tid);
      if wallet.Some? {
        if wallet.value.0 <= 0 && wallet.value.1 <= 0 {
          return StillEmpty;
        }
        state := state.(baseline := Max(state.baseline, wallet.value.1));
      }
      state := state.(suspended := false, phase := Active, suspendedAt := 0.0, suspendReason := "");
      state := state.(graceUntil := 0.0, graceStartedAt := 0.0, lastAlertPct := 0, lastGraceWarnAt := 0.0);
      Rivals(tid, rivals);
      var _ := store.Save(tid, state);
      act := Unsuspended;
    }

    method RaiseBaseline(tid: string, amount: int, now: real, rivals: seq<BalanceState>) returns (act: Action)
      modifies store
      ensures Reply(store.states, act) == Once(cfg, old(store.states), tid, SetBaseline(amount, now), rivals)
    {
      var state := store.Get(tid);
      state := state.(baseline := Max(state.baseline, amount));
      Rivals(tid, rivals);
      var _ := store.Save(tid, state);
      act := BaselineSet;
    }

    /** Saves other callers make for any tenant. */
    method Others(saves: seq<(string, BalanceState)>)
      modifies store
      ensures store.states == AfterOthers(old(store.states), saves)
    {
      for i := 0 to |saves|
        invariant AfterOthers(old(store.states), saves) == AfterOthers(store.states, saves[i..])
      {
        var _ := store.Save(saves[i].0, saves[i].1);
      }
    }

    /** One tenant's turn in a tick. */
    method TakeTurn(t: Turn) returns (acted: seq<(string, Action)>)
      requires |t.views| == |t.rivals| == 3
      modifies store
      ensures store.states == TurnTaken(cfg, old(store.states), t).0
      ensures acted == TurnTaken(cfg, old(store.states), t).1
    {
      hide AfterOthers, AfterRivals, Attempts, NeedsTick;
      Others(t.before);
      var st := store.Get(t.tid);
      if !NeedsTick(st) {
        return [];
      }
      Rivals(t.tid, t.between);
      var act := OnBalanceChanged(t.tid, t.views, t.rivals);
      acted := if act != NoChange && act != AlreadySuspended then [(t.tid, act)] else [];
    }

    /** `tick`: re-evaluates the tenants that are not plainly active. */
    method Tick(turns: seq<Turn>) returns (acted: seq<(string, Action)>)
      requires forall t | t in turns :: |t.views| == |t.rivals| == 3
      modifies store
      ensures store.states == Ticked(cfg, old(store.states), turns).0
      ensures acted == Ticked(cfg, old(store.states), turns).1
    {
      hide TurnTaken;
      acted := [];
      assert turns[0..] == turns;
      for i := 0 to |turns|
        invariant Ticked(cfg, old(store.states), turns).0 == Ticked(cfg, store.states, turns[i..]).0
        invariant Ticked(cfg, old(store.states), turns).1 == acted + Ticked(cfg, store.states, turns[i..]).1
      {
        assert turns[i..][0] == turns[i] && turns[i..][1..] == turns[i + 1..];
        var more := TakeTurn(turns[i]);
        acted := acted + more;
      }
      assert Ticked(cfg, store.states, turns[|turns|..]) == (store.states, []);
      assert acted + [] == acted;
    }
  }

  predicate NeedsTick(st: BalanceState) {
    st.phase != Active || st.graceUntil > 0.0
  }

  function AfterOthers(states: States, saves: seq<(string, BalanceState)>): States
    decreases |saves|
  {
    if saves == [] then states
    else AfterOthers(AfterSave(states, saves[0].0, saves[0].1), saves[1..])
  }

  /** One tenant's turn in a tick: what others save before its state is looked at and between that and
      the evaluation, and what each attempt of the evaluation sees and meets. */
  datatype Turn = Turn(
    tid: string,
    before: seq<(string, BalanceState)>,
    between: seq<BalanceState>,
    views: seq<View>,
    rivals: seq<seq<BalanceState>>)

  /** The store after one turn, and the action it reports if there is one to report. */
  function TurnTaken(cfg: Config, states: States, t: Turn): (States, seq<(string, Action)>)
    requires |t.views| == |t.rivals| == 3
  {
    var s0 := AfterGet(AfterOthers(states, t.before), t.tid);
    if !NeedsTick(s0[t.tid]) then (s0, [])
    else
      var r := Attempts(cfg, AfterRivals(s0, t.tid, t.between), t.tid, t.views, t.rivals);
      (r.states, if r.action != NoChange && r.action != AlreadySuspended then [(t.tid, r.action)] else [])
  }

  /** `tick` as a fold over the tenants. */
  function Ticked(cfg: Config, states: States, turns: seq<Turn>): (States, seq<(string, Action)>)
    requires forall t | t in turns :: |t.views| == |t.rivals| == 3
    decreases |turns|
  {
    if turns == [] then (states, [])
    else
      var (s1, acted) := TurnTaken(cfg, states, turns[0]);
      var rest := Ticked(cfg, s1, turns[1..]);
      (rest.0, acted + rest.1)
  }

  /** A call that reads once and ignores whether its save was accepted. */
  function Once(cfg: Config, states: States, tid: string, op: Op, rivals: seq<BalanceState>): Reply {
    if op.RatingFailure? && !Contains(op.why, "insufficient") then Reply(states, NoChange)
    else
      var s0 := AfterGet(states, tid);
      var out := Apply(cfg, s0[tid], op);
      Reply(if out.stores then AfterSave(AfterRivals(s0, tid, rivals), tid, out.next) else s0, out.action)
  }

  /** Such a call's own update is lost exactly when a rival saves between its read and its save:
      an unsuspension or a baseline can be dropped without a trace in the reply. */
  lemma SingleSaveLostIffRivalSaved(cfg: Config, states: States, tid: string, op: Op, rivals: seq<BalanceState>)
    requires tid in states && !op.Evaluate? && Apply(cfg, states[tid], op).stores
    ensures var r := Once(cfg, states, tid, op, rivals);
            var s1 := AfterRivals(states, tid, rivals);
            && r.action == Apply(cfg, states[tid], op).action
            && (r.states == s1 <==> s1[tid].version != states[tid].version)
            && (r.states != s1 ==> r.states == states[tid := Saved(Apply(cfg, states[tid], op).next)])
  {
    RivalsRaiseVersion(states, tid, rivals);
    var out := Apply(cfg, states[tid], op);
    var s1 := AfterRivals(states, tid, rivals);
    assert out.next.version == states[tid].version;
    assert AfterSave(s1, tid, out.next)[tid].version == out.next.version + 1 || !SaveAccepted(s1, tid, out.next);
  }

  lemma RivalsRaiseVersion(states: States, tid: string, rivals: seq<BalanceState>)
    requires tid in states
    ensures var after := AfterRivals(states, tid, rivals);
            && tid in after
            && after[tid].version >= states[tid].version
            && (after[tid].version == states[tid].version ==> after == states)
    decreases |rivals|
  {
  }

  /** A conflict is reported only when, in each of the attempts, some rival's save went through. */
  lemma {:induction false} ConflictNeedsRivals(cfg: Config, states: States, tid: string, views: seq<View>,
          rivals: seq<seq<BalanceState>>)
    requires |views| == |rivals| && tid in states
    requires Attempts(cfg, states, tid, views, rivals).action == Conflict
    ensures tid in Attempts(cfg, states, tid, views, rivals).states
    ensures Attempts(cfg, states, tid, views, rivals).states[tid].version >= states[tid].version + |views|
    decreases |views|
  {
    if views != [] {
      var out := EvaluateView(cfg, states[tid], views[0]);
      var s1 := AfterRivals(states, tid, rivals[0]);
      EvaluateKeepsVersion(cfg, states[tid], views[0]);
      RivalsRaiseVersion(states, tid, rivals[0]);
      ConflictNeedsRivals(cfg, s1, tid, views[1..], rivals[1..]);
    }
  }

  lemma EvaluateKeepsVersion(cfg: Config, st: BalanceState, v: View)
    ensures EvaluateView(cfg, st, v).next.version == st.version
    ensures EvaluateView(cfg, st, v).action != Conflict
  {
  }

  /** The store just before the save of attempt k, when no attempt before it got through: every attempt
      reads, the rivals listed for it save, and its own save is turned down. */
  function BeforeSave(states: States, tid: string, rivals: seq<seq<BalanceState>>, k: nat): (s: States)
    requires k < |rivals|
    ensures tid in s
    decreases k
  {
    var s1 := AfterRivals(AfterGet(states, tid), tid, rivals[0]);
    if k == 0 then s1 else BeforeSave(s1, tid, rivals[1..], k - 1)
  }

  /** Every reported change other than a suspension is the stored one: some attempt decided by exactly the
      state that was stored when it saved, and what is stored afterwards is that one transition of it. */
  lemma {:induction false} ReportedActionIsStored(cfg: Config, states: States, tid: string, views: seq<View>,
          rivals: seq<seq<BalanceState>>)
    returns (k: nat)
    requires |views| == |rivals|
    requires Attempts(cfg, states, tid, views, rivals).action !in {Conflict, AlreadySuspended, Suspend}
    ensures k < |views|
    ensures var r := Attempts(cfg, states, tid, views, rivals);
            var before := BeforeSave(states, tid, rivals, k);
            var out := EvaluateView(cfg, before[tid], views[k]);
            && out.action == r.action
            && r.states == before[tid := Saved(out.next)]
            && r.states[tid].version == before[tid].version + 1
    decreases |views|
  {
    hide FirstDue, PctUsed, FundedBaseline, GraceOrSuspend, AfterRivals;
    var s0 := AfterGet(states, tid);
    var out := EvaluateView(cfg, s0[tid], views[0]);
    var s1 := AfterRivals(s0, tid, rivals[0]);
    EvaluateKeepsVersion(cfg, s0[tid], views[0]);
    RivalsRaiseVersion(s0, tid, rivals[0]);
    if SaveAccepted(s1, tid, out.next) {
      k := 0;
    } else {
      k := ReportedActionIsStored(cfg, s1, tid, views[1..], rivals[1..]);
      k := k + 1;
    }
  }

  /** A reported suspension can be missing from the store (the bots are stopped all the same): the
      call leaves the store as the rivals left it exactly when one of them saved in between. */
  lemma SuspendUnstoredIffRivalSaved(cfg: Config, states: States, tid: string, v: View, rivals: seq<BalanceState>)
    requires tid in states && EvaluateView(cfg, states[tid], v).action == Suspend
    ensures var r := Attempts(cfg, states, tid, [v], [rivals]);
            var s1 := AfterRivals(states, tid, rivals);
            && r.action == Suspend
            && (r.states == s1 <==> s1[tid].version != states[tid].version)
            && (r.states != s1 ==> r.states == s1[tid := Saved(EvaluateView(cfg, states[tid], v).next)])
  {
    EvaluateKeepsVersion(cfg, states[tid], v);
    RivalsRaiseVersion(states, tid, rivals);
    var out := EvaluateView(cfg, states[tid], v);
    var s1 := AfterRivals(states, tid, rivals);
    assert AfterSave(s1, tid, out.next)[tid].version == out.next.version + 1 || !SaveAccepted(s1, tid, out.next);
  }
}
