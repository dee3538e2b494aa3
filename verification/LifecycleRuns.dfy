/** Whole runs of lumen/platform/balance_lifecycle.py: any number of clients interleaving `get`,
    the decision, and `save` on one store, and what every tenant's stored history then satisfies. */
module LifecycleRuns {
  import opened Prelude
  import opened Lifecycle

  // ------------------------------------------------------------------ stored histories

  /** A tenant's stored states in order, each one sequential transition from the previous, made by
      calls whose clocks never run backwards. */
  ghost predicate Chain(cfg: Config, hist: seq<BalanceState>, log: seq<Op>) {
    && |hist| == |log| + 1
    && hist[0] == FRESH
    && (forall i | 0 <= i < |log| :: Linked(cfg, hist[i], log[i], hist[i + 1]))
    && (forall i | 0 <= i < |log| :: ClockOk(cfg, log[i].At()))
    && (forall i, j | 0 <= i <= j < |log| :: log[i].At() <= log[j].At())
  }

  predicate Linked(cfg: Config, before: BalanceState, op: Op, after: BalanceState) {
    Apply(cfg, before, op).stores && after == Saved(Apply(cfg, before, op).next)
  }

  function Did(cfg: Config, hist: seq<BalanceState>, log: seq<Op>, i: nat): Action
    requires i < |log| && |hist| == |log| + 1
  {
    Apply(cfg, hist[i], log[i]).action
  }

  lemma {:induction false} ChainInvariant(cfg: Config, hist: seq<BalanceState>, log: seq<Op>, i: nat)
    requires Chain(cfg, hist, log) && i < |hist|
    ensures Consistent(cfg, hist[i])
    ensures hist[i].version == i
  {
    if i > 0 {
      hide Apply, Consistent;
      ChainInvariant(cfg, hist, log, i - 1);
      assert Linked(cfg, hist[i - 1], log[i - 1], hist[i]);
      ApplyKeepsConsistent(cfg, hist[i - 1], log[i - 1]);
    }
  }

  lemma ChainStep(cfg: Config, hist: seq<BalanceState>, log: seq<Op>, i: nat)
    requires Chain(cfg, hist, log) && i < |log|
    ensures |hist| == |log| + 1 && Linked(cfg, hist[i], log[i], hist[i + 1]) && Consistent(cfg, hist[i])
    ensures Consistent(cfg, hist[i + 1]) && hist[i].baseline <= hist[i + 1].baseline
  {
    hide Apply, Consistent;
    ChainInvariant(cfg, hist, log, i);
    ChainInvariant(cfg, hist, log, i + 1);
    assert Linked(cfg, hist[i], log[i], hist[i + 1]);
    ApplyKeepsConsistent(cfg, hist[i], log[i]);
  }

  lemma ChainLength(cfg: Config, hist: seq<BalanceState>, log: seq<Op>)
    requires Chain(cfg, hist, log)
    ensures |hist| == |log| + 1 && hist[0] == FRESH
  {
  }

  /** The recorded baseline never decreases. */
  lemma {:induction false} BaselineNeverDecreases(cfg: Config, hist: seq<BalanceState>, log: seq<Op>, i: nat, j: nat)
    requires Chain(cfg, hist, log) && i <= j < |hist|
    ensures hist[i].baseline <= hist[j].baseline
    decreases j
  {
    if i < j {
      hide Apply, Consistent, Chain;
      ChainLength(cfg, hist, log);
      BaselineNeverDecreases(cfg, hist, log, i, j - 1);
      ChainStep(cfg, hist, log, j - 1);
    }
  }

  lemma GraceStep(cfg: Config, before: BalanceState, op: Op, after: BalanceState)
    requires Consistent(cfg, before) && Linked(cfg, before, op, after) && after.phase == Grace
    ensures if Apply(cfg, before, op).action == EnterGrace then after.graceStartedAt == op.At()
            else before.phase == Grace && after.graceStartedAt == before.graceStartedAt
  {
  }

  /** A stored grace state goes back to the call that opened the grace period, with every state in
      between still in that same period. */
  lemma {:induction false} GraceHasStart(cfg: Config, hist: seq<BalanceState>, log: seq<Op>, i: nat)
          returns (start: nat)
    requires Chain(cfg, hist, log) && i < |hist| && hist[i].phase == Grace
    ensures start < i && Did(cfg, hist, log, start) == EnterGrace
    ensures forall k | start < k <= i :: hist[k].phase == Grace && hist[k].graceStartedAt == log[start].At()
  {
    hide Apply, Consistent, Chain;
    ChainLength(cfg, hist, log);
    ChainStep(cfg, hist, log, i - 1);
    GraceStep(cfg, hist[i - 1], log[i - 1], hist[i]);
    if Did(cfg, hist, log, i - 1) == EnterGrace {
      start := i - 1;
    } else {
      start := GraceHasStart(cfg, hist, log, i - 1);
    }
  }

  /** No tenant is suspended by the balance alone before a full grace period has run: every stored
      suspension that `suspend()` did not force follows the opening of a grace period at least
      GRACE_SEC earlier, with nothing but grace stored in between. */
  lemma SuspensionFollowsFullGrace(cfg: Config, hist: seq<BalanceState>, log: seq<Op>, i: nat) returns (start: nat)
    requires Chain(cfg, hist, log) && i < |log|
    requires hist[i].phase != Suspended && hist[i + 1].phase == Suspended
    requires !log[i].ForceSuspend?
    ensures start < i && Did(cfg, hist, log, start) == EnterGrace
    ensures log[i].At() >= log[start].At() + cfg.graceSec as real
    ensures forall k | start < k <= i :: hist[k].phase == Grace && hist[k].graceStartedAt == log[start].At()
  {
    ChainInvariant(cfg, hist, log, i);
    assert Linked(cfg, hist[i], log[i], hist[i + 1]);
    assert hist[i].phase == Grace;
    start := GraceHasStart(cfg, hist, log, i);
  }

  /** And none much later: a stored call that finds no credit in grace suspends exactly when GRACE_SEC have
      passed since the call that opened the grace period, and leaves the tenant in grace until then. */
  lemma GraceEndsOnTime(cfg: Config, hist: seq<BalanceState>, log: seq<Op>, i: nat) returns (start: nat)
    requires Chain(cfg, hist, log) && i < |log| && |hist| == |log| + 1
    requires hist[i].phase == Grace && FindsNoCredit(log[i])
    ensures start < i && Did(cfg, hist, log, start) == EnterGrace
    ensures hist[i + 1].phase == if log[i].At() < log[start].At() + cfg.graceSec as real then Grace else Suspended
  {
    start := GraceHasStart(cfg, hist, log, i);
    ChainInvariant(cfg, hist, log, i);
    assert Linked(cfg, hist[i], log[i], hist[i + 1]) && ClockOk(cfg, log[i].At());
    GraceLastsExactly(cfg, hist[i], log[i]);
    hide Apply, Consistent, Chain, FindsNoCredit;
  }

  /** Whatever a call does, the announced threshold rises with an alert, returns to zero with a
      clear, and stays otherwise. */
  lemma AnnouncedThresholdMoves(cfg: Config, st: BalanceState, op: Op)
    requires Consistent(cfg, st)
    ensures var out := Apply(cfg, st, op);
            match out.action
            case Alert(th) => st.lastAlertPct < out.next.lastAlertPct == th && th in THRESHOLDS
            case Unsuspended => out.next.lastAlertPct == 0
            case _ => out.next.lastAlertPct == st.lastAlertPct
  {
    if Apply(cfg, st, op).action.Alert? {
      AlertExactlyWhenCrossed(cfg, st, op, Apply(cfg, st, op).action.threshold);
    }
  }

  lemma WarningStep(cfg: Config, before: BalanceState, op: Op, after: BalanceState)
    requires Consistent(cfg, before) && Linked(cfg, before, op, after)
    ensures after.phase == Warning <==>
            Apply(cfg, before, op).action.Alert? || (op.SetBaseline? && before.phase == Warning)
  {
    hide FirstDue, PctUsed, FundedBaseline;
  }

  /** The last stored call before position i, baseline recordings aside, raised an alert. */
  predicate JustAlerted(cfg: Config, hist: seq<BalanceState>, log: seq<Op>, i: nat)
    requires |hist| == |log| + 1 && i < |hist|
  {
    i > 0 && if log[i - 1].SetBaseline? then JustAlerted(cfg, hist, log, i - 1) else Did(cfg, hist, log, i - 1).Alert?
  }

  /** A tenant is stored as warned exactly then: the warning ends with the next evaluation, even if the
      threshold is still exceeded. */
  lemma {:induction false} WarningIffJustAlerted(cfg: Config, hist: seq<BalanceState>, log: seq<Op>, i: nat)
    requires Chain(cfg, hist, log) && |hist| == |log| + 1 && i < |hist|
    ensures hist[i].phase == Warning <==> JustAlerted(cfg, hist, log, i)
  {
    if i == 0 {
      ChainLength(cfg, hist, log);
    } else {
      ChainStep(cfg, hist, log, i - 1);
      WarningStep(cfg, hist[i - 1], log[i - 1], hist[i]);
      WarningIffJustAlerted(cfg, hist, log, i - 1);
      assert log[i - 1].SetBaseline? ==> !Did(cfg, hist, log, i - 1).Alert?;
      hide Apply, Consistent, Chain;
    }
  }

  function AlertsIn(cfg: Config, hist: seq<BalanceState>, log: seq<Op>, i: nat, j: nat): nat
    requires i <= j <= |log| && |hist| == |log| + 1
    decreases j
  {
    if i == j then 0
    else AlertsIn(cfg, hist, log, i, j - 1) + if Did(cfg, hist, log, j - 1).Alert? then 1 else 0
  }

  /** How many thresholds an announced percentage has used up. */
  function Rank(pct: int): nat {
    if pct < 80 then 0 else if pct < 90 then 1 else if pct < 95 then 2 else 3
  }

  lemma AlertUsesARank(cfg: Config, st: BalanceState, op: Op)
    requires Consistent(cfg, st) && Apply(cfg, st, op).action != Unsuspended
    ensures var after := Apply(cfg, st, op).next.lastAlertPct;
            var alerts := if Apply(cfg, st, op).action.Alert? then 1 else 0;
            && Rank(st.lastAlertPct) + alerts <= Rank(after) <= 3
            && st.lastAlertPct <= after && (alerts > 0 ==> st.lastAlertPct < after)
  {
    AnnouncedThresholdMoves(cfg, st, op);
    hide Apply;
  }

  lemma StoredAlertUsesARank(cfg: Config, hist: seq<BalanceState>, log: seq<Op>, i: nat)
    requires Chain(cfg, hist, log) && i < |log| && Did(cfg, hist, log, i) != Unsuspended
    ensures var alerts := if Did(cfg, hist, log, i).Alert? then 1 else 0;
            && Rank(hist[i].lastAlertPct) + alerts <= Rank(hist[i + 1].lastAlertPct) <= 3
            && hist[i].lastAlertPct <= hist[i + 1].lastAlertPct
            && (alerts > 0 ==> hist[i].lastAlertPct < hist[i + 1].lastAlertPct)
  {
    hide Apply, Consistent, Chain, Rank;
    ChainStep(cfg, hist, log, i);
    AlertUsesARank(cfg, hist[i], log[i]);
  }

  /** No stored call from i up to j clears the announcements. */
  predicate NoClear(cfg: Config, hist: seq<BalanceState>, log: seq<Op>, i: nat, j: nat)
    requires j <= |log| && |hist| == |log| + 1
  {
    forall k | i <= k < j :: Did(cfg, hist, log, k) != Unsuspended
  }

  lemma NoClearBefore(cfg: Config, hist: seq<BalanceState>, log: seq<Op>, i: nat, j: nat)
    requires i < j <= |log| && |hist| == |log| + 1 && NoClear(cfg, hist, log, i, j)
    ensures NoClear(cfg, hist, log, i, j - 1) && Did(cfg, hist, log, j - 1) != Unsuspended
  {
    hide Did;
  }

  lemma {:induction false} AlertsUseRanks(cfg: Config, hist: seq<BalanceState>, log: seq<Op>, i: nat, j: nat)
    requires Chain(cfg, hist, log) && |hist| == |log| + 1 && i <= j <= |log| && NoClear(cfg, hist, log, i, j)
    ensures AlertsIn(cfg, hist, log, i, j) + Rank(hist[i].lastAlertPct) <= Rank(hist[j].lastAlertPct)
    decreases j
  {
    hide Chain, NoClear, Rank, Did;
    if i < j {
      NoClearBefore(cfg, hist, log, i, j);
      AlertsUseRanks(cfg, hist, log, i, j - 1);
      StoredAlertUsesARank(cfg, hist, log, j - 1);
    }
  }

  /** Between two clears each stored alert uses up a higher threshold, so there are at most three. */
  lemma AlertsBetweenClears(cfg: Config, hist: seq<BalanceState>, log: seq<Op>, i: nat, j: nat)
    requires Chain(cfg, hist, log) && |hist| == |log| + 1 && i <= j <= |log| && NoClear(cfg, hist, log, i, j)
    ensures AlertsIn(cfg, hist, log, i, j) <= Rank(hist[j].lastAlertPct) - Rank(hist[i].lastAlertPct) <= 3
    ensures AlertsIn(cfg, hist, log, i, j) > 0 ==> hist[i].lastAlertPct < hist[j].lastAlertPct
  {
    hide Chain, NoClear, AlertsIn;
    AlertsUseRanks(cfg, hist, log, i, j);
  }

  // ------------------------------------------------------------------ interleaved clients

  datatype Client =
    | Idle
    | Holding(tid: string, read: BalanceState)
    | Ready(tid: string, read: BalanceState, op: Op)

  /** The store and every client between its steps.  `hist` and `log` record, per tenant, what has
      been stored and by which calls. */
  datatype World = World(
    stored: States,
    clients: map<int, Client>,
    clock: real,
    hist: map<string, seq<BalanceState>>,
    log: map<string, seq<Op>>)

  const START := World(map[], map[], 0.0, map[], map[])

  /** Time passes; a client reads; it decides, reading its clock; it saves; it dies.  An event that
      is not possible leaves the world as it is. */
  datatype Event =
    | Pass(d: real)
    | Get(c: int, tid: string)
    | Decide(c: int, op: Op)
    | Save(c: int)
    | Die(c: int)

  function ClientOf(w: World, c: int): Client {
    if c in w.clients then w.clients[c] else Idle
  }

  function WithClient(w: World, c: int, me: Client): World {
    w.(clients := w.clients[c := me])
  }

  function Extended(w: World, tid: string, op: Op, next: BalanceState): World
    requires tid in w.hist && tid in w.log
  {
    w.(stored := w.stored[tid := Saved(next)],
       hist := w.hist[tid := w.hist[tid] + [Saved(next)]],
       log := w.log[tid := w.log[tid] + [op]])
  }

  /** The first read of a tenant creates its state. */
  function Seen(w: World, tid: string): (seen: World)
    ensures tid in seen.stored
  {
    if tid in w.stored && tid in w.hist && tid in w.log then w
    else w.(stored := w.stored[tid := FRESH], hist := w.hist[tid := [FRESH]], log := w.log[tid := []])
  }

  /** The version check and the write of a decided save. */
  function StoreNext(cfg: Config, w: World, me: Client): World
    requires me.Ready?
  {
    var next := Apply(cfg, me.read, me.op).next;
    if SaveAccepted(w.stored, me.tid, next) && me.tid in w.hist && me.tid in w.log
    then Extended(w, me.tid, me.op, next) else w
  }

  function Step(cfg: Config, w: World, e: Event): World {
    match e
    case Pass(d) => if d >= 0.0 then w.(clock := w.clock + d) else w
    case Get(c, tid) =>
      if ClientOf(w, c).Idle? then WithClient(Seen(w, tid), c, Holding(tid, Seen(w, tid).stored[tid])) else w
    case Decide(c, op) =>
      var me := ClientOf(w, c);
      if !(me.Holding? && op.At() == w.clock && ClockOk(cfg, op.At())) then w
      else if Apply(cfg, me.read, op).stores then w.(clients := w.clients[c := Ready(me.tid, me.read, op)])
      else w.(clients := w.clients[c := Idle])
    case Save(c) =>
      var me := ClientOf(w, c);
      if me.Ready? then WithClient(StoreNext(cfg, w, me), c, Idle) else w
    case Die(c) => w.(clients := w.clients[c := Idle])
  }

  function Exec(cfg: Config, w: World, events: seq<Event>): World {
    if events == [] then w
    else Step(cfg, Exec(cfg, w, events[..|events| - 1]), events[|events| - 1])
  }

  /** A client that died does nothing until it reads again, and its death touches nothing that is stored. */
  lemma DeadClientIsSilent(cfg: Config, w: World, c: int, op: Op)
    ensures var dead := Step(cfg, w, Die(c));
            && dead.stored == w.stored && dead.hist == w.hist && dead.log == w.log && dead.clock == w.clock
            && Step(cfg, dead, Decide(c, op)) == Step(cfg, dead, Save(c)) == dead
            && forall other | other != c :: ClientOf(dead, other) == ClientOf(w, other)
  {
  }

  ghost predicate TenantInv(cfg: Config, w: World, t: string)
    requires t in w.stored && t in w.hist && t in w.log
  {
    && Chain(cfg, w.hist[t], w.log[t])
    && w.stored[t] == w.hist[t][|w.hist[t]| - 1]
    && (forall i | 0 <= i < |w.log[t]| :: w.log[t][i].At() <= w.clock)
  }

  /** A client's copy is the state stored under the version it carries, and a decision was made
      after every save up to that version. */
  ghost predicate ClientInv(cfg: Config, w: World, me: Client)
    requires w.stored.Keys == w.hist.Keys == w.log.Keys
  {
    !me.Idle? ==>
      && me.tid in w.stored
      && 0 <= me.read.version < |w.hist[me.tid]|
      && me.read == w.hist[me.tid][me.read.version]
      && (me.Ready? ==>
            && Apply(cfg, me.read, me.op).stores
            && ClockOk(cfg, me.op.At())
            && me.op.At() <= w.clock
            && (forall i | 0 <= i < me.read.version && i < |w.log[me.tid]| :: w.log[me.tid][i].At() <= me.op.At()))
  }

  ghost predicate Inv(cfg: Config, w: World) {
    && w.stored.Keys == w.hist.Keys == w.log.Keys
    && (forall t | t in w.stored :: TenantInv(cfg, w, t))
    && (forall c | c in w.clients :: ClientInv(cfg, w, w.clients[c]))
  }

  /** A save that passes the version check is applied to exactly the state it was computed from. */
  lemma AcceptedSaveIsCurrent(cfg: Config, w: World, c: int)
    requires Inv(cfg, w) && ClientOf(w, c).Ready?
    ensures var me := ClientOf(w, c);
            && me.tid in w.stored
            && (SaveAccepted(w.stored, me.tid, Apply(cfg, me.read, me.op).next) <==> w.stored[me.tid] == me.read)
            && (w.stored[me.tid] == me.read <==> me.read.version == |w.hist[me.tid]| - 1)
  {
    hide Apply;
    var me := w.clients[c];
    assert ClientInv(cfg, w, me);
    assert TenantInv(cfg, w, me.tid);
    var h := w.hist[me.tid];
    ChainInvariant(cfg, h, w.log[me.tid], |h| - 1);
    ChainInvariant(cfg, h, w.log[me.tid], me.read.version);
    ApplyKeepsConsistent(cfg, me.read, me.op);
  }

  /** Time passing and a dying client disturb nothing. */
  lemma PassKeepsInv(cfg: Config, w: World, d: real)
    requires Inv(cfg, w) && d >= 0.0
    ensures Inv(cfg, w.(clock := w.clock + d))
  {
    hide Apply, Chain;
    var w' := w.(clock := w.clock + d);
    forall t | t in w'.stored ensures TenantInv(cfg, w', t) {
      assert TenantInv(cfg, w, t);
    }
    forall c | c in w'.clients ensures ClientInv(cfg, w', w'.clients[c]) {
      assert ClientInv(cfg, w, w.clients[c]);
    }
  }

  /** Replacing one client by one that meets the client invariant keeps the whole invariant. */
  lemma ClientKeepsInv(cfg: Config, w: World, c: int, me: Client)
    requires Inv(cfg, w) && ClientInv(cfg, w, me)
    ensures Inv(cfg, w.(clients := w.clients[c := me]))
  {
    hide Apply, Chain;
    var w' := w.(clients := w.clients[c := me]);
    forall t | t in w'.stored ensures TenantInv(cfg, w', t) {
      assert TenantInv(cfg, w, t);
    }
    forall d | d in w'.clients ensures ClientInv(cfg, w', w'.clients[d]) {
      if d != c {
        assert ClientInv(cfg, w, w.clients[d]);
      }
      assert ClientInv(cfg, w, w'.clients[d]);
    }
  }

  lemma FreshChain(cfg: Config)
    ensures Chain(cfg, [FRESH], [])
  {
  }

  /** A tenant seen for the first time starts a chain of length one. */
  lemma FirstGetKeepsInv(cfg: Config, w: World, tid: string)
    requires Inv(cfg, w) && tid !in w.stored
    ensures Inv(cfg, w.(stored := w.stored[tid := FRESH], hist := w.hist[tid := [FRESH]], log := w.log[tid := []]))
  {
    hide Apply, Chain, ClockOk;
    FreshChain(cfg);
    var w' := w.(stored := w.stored[tid := FRESH], hist := w.hist[tid := [FRESH]], log := w.log[tid := []]);
    forall t | t in w'.stored ensures TenantInv(cfg, w', t) {
      if t != tid {
        assert TenantInv(cfg, w, t);
      }
    }
    forall c | c in w'.clients ensures ClientInv(cfg, w', w'.clients[c]) {
      assert ClientInv(cfg, w, w.clients[c]);
    }
  }

  /** A fresh copy of the stored state meets the client invariant. */
  lemma CopyIsGood(cfg: Config, w: World, tid: string)
    requires Inv(cfg, w) && tid in w.stored
    ensures ClientInv(cfg, w, Holding(tid, w.stored[tid]))
  {
    hide Apply;
    assert TenantInv(cfg, w, tid);
    ChainInvariant(cfg, w.hist[tid], w.log[tid], |w.hist[tid]| - 1);
  }

  lemma StepKeepsInv(cfg: Config, w: World, e: Event)
    requires Inv(cfg, w)
    ensures Inv(cfg, Step(cfg, w, e))
  {
    hide Apply, Chain;
    match e
    case Pass(d) =>
      if d >= 0.0 { PassKeepsInv(cfg, w, d); }
    case Get(c, tid) =>
      if ClientOf(w, c).Idle? {
        if tid in w.stored {
          CopyIsGood(cfg, w, tid);
          ClientKeepsInv(cfg, w, c, Holding(tid, w.stored[tid]));
        } else {
          FirstGetKeepsInv(cfg, w, tid);
          var w0 := w.(stored := w.stored[tid := FRESH], hist := w.hist[tid := [FRESH]], log := w.log[tid := []]);
          CopyIsGood(cfg, w0, tid);
          ClientKeepsInv(cfg, w0, c, Holding(tid, FRESH));
        }
      }
    case Decide(c, op) => DecideKeepsInv(cfg, w, c, op);
    case Save(c) =>
      if ClientOf(w, c).Ready? { SaveKeepsInv(cfg, w, c); }
    case Die(c) => ClientKeepsInv(cfg, w, c, Idle);
  }

  lemma DecideKeepsInv(cfg: Config, w: World, c: int, op: Op)
    requires Inv(cfg, w)
    ensures Inv(cfg, Step(cfg, w, Decide(c, op)))
  {
    hide Apply, Chain;
    var me := ClientOf(w, c);
    if me.Holding? && op.At() == w.clock && ClockOk(cfg, op.At()) {
      assert ClientInv(cfg, w, w.clients[c]);
      assert TenantInv(cfg, w, me.tid);
      if Apply(cfg, me.read, op).stores {
        ClientKeepsInv(cfg, w, c, Ready(me.tid, me.read, op));
      } else {
        ClientKeepsInv(cfg, w, c, Idle);
      }
    }
  }

  lemma SaveKeepsInv(cfg: Config, w: World, c: int)
    requires Inv(cfg, w) && ClientOf(w, c).Ready?
    ensures Inv(cfg, Step(cfg, w, Save(c)))
  {
    hide Apply;
    var me := w.clients[c];
    var next := Apply(cfg, me.read, me.op).next;
    AcceptedSaveIsCurrent(cfg, w, c);
    ClientKeepsInv(cfg, w, c, Idle);
    if SaveAccepted(w.stored, me.tid, next) {
      assert ClientInv(cfg, w, me);
      assert TenantInv(cfg, w, me.tid);
      ExtendHistory(cfg, w.(clients := w.clients[c := Idle]), me.tid, me.op, next);
    }
  }

  lemma ExtendTenant(cfg: Config, w: World, tid: string, op: Op, next: BalanceState)
    requires tid in w.stored && tid in w.hist && tid in w.log && TenantInv(cfg, w, tid)
    requires Apply(cfg, w.stored[tid], op).stores && next == Apply(cfg, w.stored[tid], op).next
    requires ClockOk(cfg, op.At()) && op.At() <= w.clock
    requires forall i | 0 <= i < |w.log[tid]| :: w.log[tid][i].At() <= op.At()
    ensures TenantInv(cfg, Extended(w, tid, op, next), tid)
  {
    hide Apply, ClockOk;
    ExtendChain(cfg, w.hist[tid], w.log[tid], op, Saved(next));
  }

  /** Storing one more transition of the current state keeps the invariant. */
  lemma ExtendHistory(cfg: Config, w: World, tid: string, op: Op, next: BalanceState)
    requires Inv(cfg, w) && tid in w.stored
    requires Apply(cfg, w.stored[tid], op).stores && next == Apply(cfg, w.stored[tid], op).next
    requires ClockOk(cfg, op.At()) && op.At() <= w.clock
    requires forall i | 0 <= i < |w.log[tid]| :: w.log[tid][i].At() <= op.At()
    ensures Inv(cfg, Extended(w, tid, op, next))
  {
    hide Apply, ClockOk, Chain;
    var w' := Extended(w, tid, op, next);
    ExtendTenant(cfg, w, tid, op, next);
    forall t | t in w'.stored ensures TenantInv(cfg, w', t) {
      if t != tid {
        assert TenantInv(cfg, w, t);
      }
    }
    assert |w.hist[tid]| == |w.log[tid]| + 1 by {
      assert TenantInv(cfg, w, tid);
      ChainLength(cfg, w.hist[tid], w.log[tid]);
    }
    hide TenantInv;
    forall d | d in w'.clients ensures ClientInv(cfg, w', w'.clients[d]) {
      LongerHistoryKeepsClient(cfg, w, w', tid, w.clients[d]);
    }
  }

  lemma LongerHistoryKeepsClient(cfg: Config, w: World, w': World, tid: string, me: Client)
    requires w.stored.Keys == w.hist.Keys == w.log.Keys && tid in w.hist
    requires w'.stored.Keys == w'.hist.Keys == w'.log.Keys == w.stored.Keys && w'.clock == w.clock
    requires |w.hist[tid]| == |w.log[tid]| + 1
    requires w.hist[tid] <= w'.hist[tid] && w.log[tid] <= w'.log[tid]
    requires forall t | t in w.hist && t != tid :: w'.hist[t] == w.hist[t] && w'.log[t] == w.log[t]
    requires ClientInv(cfg, w, me)
    ensures ClientInv(cfg, w', me)
  {
    hide Apply, ClockOk;
  }

  lemma ExtendChain(cfg: Config, hist: seq<BalanceState>, log: seq<Op>, op: Op, after: BalanceState)
    requires Chain(cfg, hist, log)
    requires Linked(cfg, hist[|log|], op, after) && ClockOk(cfg, op.At())
    requires forall i | 0 <= i < |log| :: log[i].At() <= op.At()
    ensures Chain(cfg, hist + [after], log + [op])
  {
    var h := hist + [after];
    var l := log + [op];
    forall i | 0 <= i < |l| ensures Linked(cfg, h[i], l[i], h[i + 1]) {
      if i < |log| {
        assert Linked(cfg, hist[i], log[i], hist[i + 1]);
      }
    }
  }

  /** Serialisability: after any interleaving of any number of clients, every tenant's stored states
      form a chain, the version counts the saves, and the current state is the end of the chain. */
  lemma {:induction false} EveryRunIsAChain(cfg: Config, events: seq<Event>)
    ensures Inv(cfg, Exec(cfg, START, events))
    ensures var w := Exec(cfg, START, events);
            forall t | t in w.stored ::
              && t in w.hist && t in w.log
              && Chain(cfg, w.hist[t], w.log[t])
              && w.stored[t] == w.hist[t][|w.hist[t]| - 1]
              && w.stored[t].version == |w.log[t]|
              && Consistent(cfg, w.stored[t])
  {
    hide Apply;
    if events != [] {
      EveryRunIsAChain(cfg, events[..|events| - 1]);
      StepKeepsInv(cfg, Exec(cfg, START, events[..|events| - 1]), events[|events| - 1]);
    }
    var w := Exec(cfg, START, events);
    forall t | t in w.stored
      ensures t in w.hist && t in w.log && Chain(cfg, w.hist[t], w.log[t])
      ensures w.stored[t] == w.hist[t][|w.hist[t]| - 1] && w.stored[t].version == |w.log[t]|
      ensures Consistent(cfg, w.stored[t])
    {
      assert TenantInv(cfg, w, t);
      ChainInvariant(cfg, w.hist[t], w.log[t], |w.hist[t]| - 1);
    }
  }

  // ------------------------------------------------------------------ the calls are runs

  predicate Concerns(e: Event, c: int) {
    !e.Pass? && e.c == c
  }

  predicate Aligned(w: World) {
    w.stored.Keys == w.hist.Keys == w.log.Keys
  }

  lemma {:induction false} ExecAppend(cfg: Config, w: World, a: seq<Event>, b: seq<Event>)
    ensures Exec(cfg, w, a + b) == Exec(cfg, Exec(cfg, w, a), b)
  {
    hide Step;
    if b == [] {
      assert a + b == a;
    } else {
      assert (a + b)[..|a + b| - 1] == a + b[..|b| - 1];
      ExecAppend(cfg, w, a, b[..|b| - 1]);
    }
  }

  lemma ThreeSteps(cfg: Config, w: World, a: Event, b: Event, c: Event)
    ensures Exec(cfg, w, [a, b, c]) == Step(cfg, Step(cfg, Step(cfg, w, a), b), c)
  {
    hide Step;
    assert [a, b, c][..2] == [a, b] && [a, b][..1] == [a] && [a][..0] == [];
    assert Exec(cfg, w, [a]) == Step(cfg, w, a);
    assert Exec(cfg, w, [a, b]) == Step(cfg, Exec(cfg, w, [a]), b);
  }

  lemma OneStep(cfg: Config, w: World, e: Event)
    ensures Exec(cfg, w, [e]) == Step(cfg, w, e)
  {
    hide Step;
    assert [e][..0] == [];
  }

  lemma SwapClients(w: World, c: int, me: Client, d: int, other: Client)
    requires c != d
    ensures WithClient(WithClient(w, c, me), d, other) == WithClient(WithClient(w, d, other), c, me)
    ensures ClientOf(WithClient(w, c, me), d) == ClientOf(w, d)
  {
    assert w.clients[c := me][d := other] == w.clients[d := other][c := me];
  }

  lemma DecideSetsClient(cfg: Config, w: World, c: int, op: Op) returns (me: Client)
    ensures forall v | ClientOf(v, c) == ClientOf(w, c) && v.clock == w.clock ::
              Step(cfg, v, Decide(c, op)) == if ClientOf(w, c).Holding? && op.At() == w.clock && ClockOk(cfg, op.At())
                                             then WithClient(v, c, me) else v
  {
    var read := ClientOf(w, c);
    me := if read.Holding? && Apply(cfg, read.read, op).stores then Ready(read.tid, read.read, op) else Idle;
    hide Apply, ClockOk, Op.At;
  }

  /** What a client holds makes no difference to a step of another one. */
  lemma StepIgnoresClient(cfg: Config, w: World, c: int, me: Client, e: Event)
    requires !Concerns(e, c) && !e.Pass?
    ensures Step(cfg, WithClient(w, c, me), e) == WithClient(Step(cfg, w, e), c, me)
  {
    hide Apply, ClockOk, SaveAccepted, Op.At, Extended, ClientOf;
    SwapClients(w, c, me, e.c, Idle);
    match e
    case Get(d, tid) =>
      assert Seen(WithClient(w, c, me), tid) == WithClient(Seen(w, tid), c, me);
      assert Seen(WithClient(w, c, me), tid).stored == Seen(w, tid).stored;
      SwapClients(Seen(w, tid), c, me, d, Holding(tid, Seen(w, tid).stored[tid]));
      hide WithClient, Seen;
    case Decide(d, op) =>
      var other := DecideSetsClient(cfg, w, d, op);
      SwapClients(w, c, me, d, other);
      assert WithClient(w, c, me).clock == w.clock;
      hide WithClient, Step;
    case Save(d) =>
      if ClientOf(w, d).Ready? {
        StoreIgnoresClient(cfg, w, c, me, ClientOf(w, d));
        SwapClients(StoreNext(cfg, w, ClientOf(w, d)), c, me, d, Idle);
        hide WithClient, StoreNext;
      }
    case Die(d) =>
      hide WithClient;
  }

  lemma StoreIgnoresClient(cfg: Config, w: World, c: int, me: Client, other: Client)
    requires other.Ready?
    ensures StoreNext(cfg, WithClient(w, c, me), other) == WithClient(StoreNext(cfg, w, other), c, me)
  {
    hide Apply;
  }

  lemma StepSparesClient(cfg: Config, w: World, e: Event, c: int)
    requires !Concerns(e, c)
    ensures ClientOf(Step(cfg, w, e), c) == ClientOf(w, c)
  {
    hide Apply, ClockOk, SaveAccepted, Op.At;
  }

  /** Where others act between a read and the decision on it, they may as well act after the decision. */
  lemma DecisionCommutes(cfg: Config, w: World, c: int, op: Op, e: Event)
    requires !Concerns(e, c) && !e.Pass?
    ensures Step(cfg, Step(cfg, w, e), Decide(c, op)) == Step(cfg, Step(cfg, w, Decide(c, op)), e)
  {
    var me := DecideSetsClient(cfg, w, c, op);
    StepIgnoresClient(cfg, w, c, me, e);
    StepSparesClient(cfg, w, e, c);
    assert Step(cfg, w, e).clock == w.clock;
    hide Step, ClockOk, Op.At;
  }

  /** One attempt: the time from the read to the decision, what the decision sees, and what the other
      clients do until the save. */
  datatype Round = Round(wait: real, op: Op, others: seq<Event>)

  function Decided(cfg: Config, w: World, tid: string, op: Op): Outcome {
    Apply(cfg, AfterGet(w.stored, tid)[tid], op)
  }

  function Opening(c: int, tid: string, r: Round): seq<Event> {
    [Get(c, tid), Pass(r.wait), Decide(c, r.op)]
  }

  function RoundEvents(cfg: Config, w: World, c: int, tid: string, r: Round): seq<Event> {
    if Decided(cfg, w, tid, r.op).stores then Opening(c, tid, r) + (r.others + [Save(c)]) else Opening(c, tid, r)
  }

  /** The states the other clients' decided saves try to store for a tenant, in order. */
  function RivalsOf(cfg: Config, w: World, mid: seq<Event>, tid: string): seq<BalanceState> {
    if mid == [] then []
    else
      var e := mid[|mid| - 1];
      var me := if e.Save? then ClientOf(Exec(cfg, w, mid[..|mid| - 1]), e.c) else Idle;
      RivalsOf(cfg, w, mid[..|mid| - 1], tid)
      + if me.Ready? && me.tid == tid then [Apply(cfg, me.read, me.op).next] else []
  }

  function RoundRivals(cfg: Config, w: World, c: int, tid: string, r: Round): seq<BalanceState> {
    if Decided(cfg, w, tid, r.op).stores then RivalsOf(cfg, Exec(cfg, w, Opening(c, tid, r)), r.others, tid) else []
  }

  /** The save of this attempt is turned down, and the loop goes on. */
  predicate GoesOn(cfg: Config, w: World, c: int, tid: string, r: Round) {
    var out := Decided(cfg, w, tid, r.op);
    && out.stores
    && !SaveAccepted(Exec(cfg, Exec(cfg, w, Opening(c, tid, r)), r.others).stored, tid, out.next)
    && out.action != Suspend
  }

  /** The events of a whole call of `on_balance_changed`, the other clients' among them. */
  function CallEvents(cfg: Config, w: World, c: int, tid: string, rounds: seq<Round>): seq<Event>
    decreases |rounds|
  {
    if rounds == [] then []
    else
      var events := RoundEvents(cfg, w, c, tid, rounds[0]);
      if GoesOn(cfg, w, c, tid, rounds[0]) then
        events + CallEvents(cfg, Exec(cfg, w, events), c, tid, rounds[1..])
      else events
  }

  function CallRivals(cfg: Config, w: World, c: int, tid: string, rounds: seq<Round>): (rivals: seq<seq<BalanceState>>)
    ensures |rivals| == |rounds|
    decreases |rounds|
  {
    if rounds == [] then []
    else
      var later: seq<seq<BalanceState>> :=
        if GoesOn(cfg, w, c, tid, rounds[0]) then
          CallRivals(cfg, Exec(cfg, w, RoundEvents(cfg, w, c, tid, rounds[0])), c, tid, rounds[1..])
        else seq(|rounds| - 1, _ => []);
      [RoundRivals(cfg, w, c, tid, rounds[0])] + later
  }

  /** The call's clock agrees with the run's, and the others really are other clients. */
  predicate RoundFits(cfg: Config, w: World, c: int, r: Round) {
    && r.wait >= 0.0 && r.op.At() == w.clock + r.wait && ClockOk(cfg, r.op.At())
    && forall e | e in r.others :: !Concerns(e, c)
  }

  predicate CallFits(cfg: Config, w: World, c: int, tid: string, rounds: seq<Round>)
    decreases |rounds|
  {
    rounds != [] ==>
      && rounds[0].op.Evaluate?
      && RoundFits(cfg, w, c, rounds[0])
      && (GoesOn(cfg, w, c, tid, rounds[0]) ==>
            CallFits(cfg, Exec(cfg, w, RoundEvents(cfg, w, c, tid, rounds[0])), c, tid, rounds[1..]))
  }

  function ViewsOf(rounds: seq<Round>): (views: seq<View>)
    requires forall r | r in rounds :: r.op.Evaluate?
    ensures |views| == |rounds|
  {
    if rounds == [] then [] else [rounds[0].op.view] + ViewsOf(rounds[1..])
  }

  function StateOf(states: States, tid: string): Option<BalanceState> {
    if tid in states then Some(states[tid]) else None
  }

  lemma OpeningRuns(cfg: Config, w: World, c: int, tid: string, r: Round)
    requires Aligned(w) && ClientOf(w, c).Idle? && RoundFits(cfg, w, c, r)
    ensures var w1 := Exec(cfg, w, Opening(c, tid, r));
            && Aligned(w1) && w1.stored == AfterGet(w.stored, tid)
            && ClientOf(w1, c) == if Decided(cfg, w, tid, r.op).stores
                                  then Ready(tid, AfterGet(w.stored, tid)[tid], r.op) else Idle
  {
    ThreeSteps(cfg, w, Get(c, tid), Pass(r.wait), Decide(c, r.op));
    hide Apply, ClockOk, Exec, StoreNext;
    var read := Step(cfg, w, Get(c, tid));
    assert read.stored == AfterGet(w.stored, tid) && ClientOf(read, c) == Holding(tid, read.stored[tid]);
    var later := Step(cfg, read, Pass(r.wait));
    assert later.clock == r.op.At() && ClientOf(later, c) == ClientOf(read, c) && later.stored == read.stored;
  }

  lemma {:induction false} AfterOneMore(states: States, tid: string, rivals: seq<BalanceState>, last: BalanceState)
    ensures AfterRivals(states, tid, rivals + [last]) == AfterSave(AfterRivals(states, tid, rivals), tid, last)
    decreases |rivals|
  {
    if rivals == [] {
      assert [last][1..] == [] && rivals + [last] == [last];
    } else {
      assert (rivals + [last])[1..] == rivals[1..] + [last];
      AfterOneMore(AfterSave(states, tid, rivals[0]), tid, rivals[1..], last);
    }
  }

  lemma StepAtTenant(cfg: Config, w: World, e: Event, tid: string)
    requires Aligned(w) && tid in w.stored
    ensures Aligned(Step(cfg, w, e)) && tid in Step(cfg, w, e).stored
    ensures Step(cfg, w, e).stored[tid] ==
            if e.Save? && ClientOf(w, e.c).Ready? && ClientOf(w, e.c).tid == tid
            then AfterSave(w.stored, tid, Apply(cfg, ClientOf(w, e.c).read, ClientOf(w, e.c).op).next)[tid]
            else w.stored[tid]
  {
    hide Apply;
  }

  /** What other clients do to a tenant is what their saves do, one after the other. */
  lemma {:induction false} OthersAreRivals(cfg: Config, w: World, mid: seq<Event>, tid: string)
    requires Aligned(w) && tid in w.stored
    ensures var w' := Exec(cfg, w, mid);
            && Aligned(w') && tid in w'.stored
            && tid in AfterRivals(w.stored, tid, RivalsOf(cfg, w, mid, tid))
            && w'.stored[tid] == AfterRivals(w.stored, tid, RivalsOf(cfg, w, mid, tid))[tid]
  {
    hide Step, Apply;
    if mid != [] {
      var most, e := mid[..|mid| - 1], mid[|mid| - 1];
      var w1 := Exec(cfg, w, most);
      OthersAreRivals(cfg, w, most, tid);
      StepAtTenant(cfg, w1, e, tid);
      if e.Save? && ClientOf(w1, e.c).Ready? && ClientOf(w1, e.c).tid == tid {
        AfterOneMore(w.stored, tid, RivalsOf(cfg, w, most, tid),
                     Apply(cfg, ClientOf(w1, e.c).read, ClientOf(w1, e.c).op).next);
      } else {
        assert RivalsOf(cfg, w, mid, tid) == RivalsOf(cfg, w, most, tid);
      }
    }
  }

  lemma {:induction false} OthersSpareClient(cfg: Config, w: World, mid: seq<Event>, c: int)
    requires forall e | e in mid :: !Concerns(e, c)
    ensures ClientOf(Exec(cfg, w, mid), c) == ClientOf(w, c)
  {
    hide Step;
    if mid != [] {
      assert mid[|mid| - 1] in mid;
      OthersSpareClient(cfg, w, mid[..|mid| - 1], c);
      StepSparesClient(cfg, Exec(cfg, w, mid[..|mid| - 1]), mid[|mid| - 1], c);
    }
  }

  /** A whole attempt on its own: the tenant's state afterwards, and the client is done. */
  lemma RoundRuns(cfg: Config, w: World, c: int, tid: string, r: Round)
    requires Aligned(w) && ClientOf(w, c).Idle? && RoundFits(cfg, w, c, r)
    ensures var w' := Exec(cfg, w, RoundEvents(cfg, w, c, tid, r));
            var s0, out := AfterGet(w.stored, tid), Decided(cfg, w, tid, r.op);
            var s1 := AfterRivals(s0, tid, RoundRivals(cfg, w, c, tid, r));
            && Aligned(w') && ClientOf(w', c).Idle? && tid in s0 && tid in s1
            && StateOf(w'.stored, tid) == Some(if out.stores then AfterSave(s1, tid, out.next)[tid] else s0[tid])
            && (GoesOn(cfg, w, c, tid, r) <==> out.stores && !SaveAccepted(s1, tid, out.next) && out.action != Suspend)
  {
    OpeningRuns(cfg, w, c, tid, r);
    assert forall e | e in r.others :: !Concerns(e, c);
    hide Apply, Exec, RoundFits;
    if Decided(cfg, w, tid, r.op).stores {
      var w1 := Exec(cfg, w, Opening(c, tid, r));
      var w2 := Exec(cfg, w1, r.others);
      ExecAppend(cfg, w, Opening(c, tid, r), r.others + [Save(c)]);
      ExecAppend(cfg, w1, r.others, [Save(c)]);
      OneStep(cfg, w2, Save(c));
      OthersSpareClient(cfg, w1, r.others, c);
      OthersAreRivals(cfg, w1, r.others, tid);
      StepAtTenant(cfg, w2, Save(c), tid);
      hide Opening, RivalsOf, AfterRivals, Concerns;
    }
  }

  /** An attempt loop looks at its own tenant only. */
  lemma {:induction false} AttemptsAtTenant(cfg: Config, a: States, b: States, tid: string, views: seq<View>,
          rivals: seq<seq<BalanceState>>)
    requires |views| == |rivals| && StateOf(a, tid) == StateOf(b, tid)
    ensures StateOf(Attempts(cfg, a, tid, views, rivals).states, tid) ==
            StateOf(Attempts(cfg, b, tid, views, rivals).states, tid)
    ensures Attempts(cfg, a, tid, views, rivals).action == Attempts(cfg, b, tid, views, rivals).action
    decreases |views|
  {
    if views != [] {
      hide EvaluateView, AfterRivals;
      var a0, b0 := AfterGet(a, tid), AfterGet(b, tid);
      RivalsAtTenant(a0, b0, tid, rivals[0]);
      AttemptsAtTenant(cfg, AfterRivals(a0, tid, rivals[0]), AfterRivals(b0, tid, rivals[0]), tid,
                       views[1..], rivals[1..]);
    }
  }

  lemma {:induction false} RivalsAtTenant(a: States, b: States, tid: string, rivals: seq<BalanceState>)
    requires StateOf(a, tid) == StateOf(b, tid)
    ensures StateOf(AfterRivals(a, tid, rivals), tid) == StateOf(AfterRivals(b, tid, rivals), tid)
    decreases |rivals|
  {
    if rivals != [] {
      RivalsAtTenant(AfterSave(a, tid, rivals[0]), AfterSave(b, tid, rivals[0]), tid, rivals[1..]);
    }
  }

  /** Every call of `on_balance_changed` is one of these runs, whatever the other clients do meanwhile:
      the retry loop with the others' decided saves as its rivals leaves the tenant in the state the run
      of single steps leaves it in. */
  lemma {:induction false} CallIsARun(cfg: Config, w: World, c: int, tid: string, rounds: seq<Round>)
    requires Aligned(w) && ClientOf(w, c).Idle?
    requires (forall r | r in rounds :: r.op.Evaluate?) && CallFits(cfg, w, c, tid, rounds)
    ensures var w' := Exec(cfg, w, CallEvents(cfg, w, c, tid, rounds));
            var reply := Attempts(cfg, w.stored, tid, ViewsOf(rounds), CallRivals(cfg, w, c, tid, rounds));
            StateOf(w'.stored, tid) == StateOf(reply.states, tid) && ClientOf(w', c).Idle?
    decreases |rounds|
  {
    if rounds != [] {
      var r, more := rounds[0], rounds[1..];
      assert r in rounds;
      RoundRuns(cfg, w, c, tid, r);
      AppliedView(cfg, AfterGet(w.stored, tid)[tid], r.op);
      var events := RoundEvents(cfg, w, c, tid, r);
      var rest := CallRivals(cfg, Exec(cfg, w, events), c, tid, more);
      FirstAttempt(cfg, w.stored, tid, ViewsOf(rounds), CallRivals(cfg, w, c, tid, rounds));
      if GoesOn(cfg, w, c, tid, r) {
        var w1 := Exec(cfg, w, events);
        CallIsARun(cfg, w1, c, tid, more);
        ExecAppend(cfg, w, events, CallEvents(cfg, w1, c, tid, more));
        var s1 := AfterRivals(AfterGet(w.stored, tid), tid, RoundRivals(cfg, w, c, tid, r));
        AttemptsAtTenant(cfg, w1.stored, s1, tid, ViewsOf(more), rest);
      }
    }
  }

  lemma FirstAttempt(cfg: Config, states: States, tid: string, views: seq<View>, rivals: seq<seq<BalanceState>>)
    requires |views| == |rivals| && views != []
    ensures var s0 := AfterGet(states, tid);
            var out := EvaluateView(cfg, s0[tid], views[0]);
            var s1 := AfterRivals(s0, tid, rivals[0]);
            Attempts(cfg, states, tid, views, rivals) ==
            if !out.stores then Reply(s0, out.action)
            else if SaveAccepted(s1, tid, out.next) then Reply(AfterSave(s1, tid, out.next), out.action)
            else if out.action == Suspend then Reply(s1, Suspend)
            else Attempts(cfg, s1, tid, views[1..], rivals[1..])
  {
  }

  lemma AppliedView(cfg: Config, st: BalanceState, op: Op)
    ensures op.Evaluate? ==> Apply(cfg, st, op) == EvaluateView(cfg, st, op.view)
  {
  }

  /** So is every call that reads and saves once. */
  lemma SingleSaveIsARun(cfg: Config, w: World, c: int, tid: string, r: Round)
    requires Aligned(w) && ClientOf(w, c).Idle? && RoundFits(cfg, w, c, r)
    requires r.op.RatingFailure? ==> Contains(r.op.why, "insufficient")
    ensures var w' := Exec(cfg, w, RoundEvents(cfg, w, c, tid, r));
            var reply := Once(cfg, w.stored, tid, r.op, RoundRivals(cfg, w, c, tid, r));
            StateOf(w'.stored, tid) == StateOf(reply.states, tid) && ClientOf(w', c).Idle?
  {
    RoundRuns(cfg, w, c, tid, r);
    hide Apply, Exec, RoundFits, Contains, RoundEvents, RoundRivals, AfterRivals;
  }

  /** While a client waits, its copy stays what it was and its tenant's history only grows. */
  lemma {:induction false} WaitingClientKeepsCopy(cfg: Config, w: World, mid: seq<Event>, c: int)
    requires Inv(cfg, w) && ClientOf(w, c).Ready?
    requires forall e | e in mid :: !Concerns(e, c)
    ensures var w' := Exec(cfg, w, mid);
            var tid := ClientOf(w, c).tid;
            && Inv(cfg, w')
            && ClientOf(w', c) == ClientOf(w, c)
            && tid in w.hist && tid in w'.hist && w.hist[tid] <= w'.hist[tid]
  {
    hide Apply, Chain, Step;
    assert ClientInv(cfg, w, w.clients[c]);
    if mid != [] {
      var most := mid[..|mid| - 1];
      var e := mid[|mid| - 1];
      assert e in mid;
      WaitingClientKeepsCopy(cfg, w, most, c);
      StepKeepsInv(cfg, Exec(cfg, w, most), e);
      StepSparesOthers(cfg, Exec(cfg, w, most), e, c, ClientOf(w, c).tid);
    }
  }

  lemma StepSparesOthers(cfg: Config, w: World, e: Event, c: int, tid: string)
    requires w.stored.Keys == w.hist.Keys == w.log.Keys
    requires !Concerns(e, c) && tid in w.hist
    ensures ClientOf(Step(cfg, w, e), c) == ClientOf(w, c)
    ensures tid in Step(cfg, w, e).hist && w.hist[tid] <= Step(cfg, w, e).hist[tid]
  {
    hide Apply;
  }

  /** A decided save that read the latest state takes effect exactly when nobody else's save of that
      tenant took effect while it waited. */
  lemma SaveLandsIffNobodyElseSaved(cfg: Config, w: World, mid: seq<Event>, c: int)
    requires Inv(cfg, w) && ClientOf(w, c).Ready?
    requires forall e | e in mid :: !Concerns(e, c)
    requires ClientOf(w, c).tid in w.stored && ClientOf(w, c).read == w.stored[ClientOf(w, c).tid]
    ensures var w1 := Exec(cfg, w, mid);
            var w2 := Step(cfg, w1, Save(c));
            var tid := ClientOf(w, c).tid;
            && tid in w.hist && tid in w1.hist && tid in w2.hist
            && (|w2.hist[tid]| == |w1.hist[tid]| + 1 <==> w1.hist[tid] == w.hist[tid])
            && (w1.hist[tid] != w.hist[tid] ==> w2.hist == w1.hist && w2.stored == w1.stored)
  {
    hide Apply, Exec, Chain;
    WaitingClientKeepsCopy(cfg, w, mid, c);
    AcceptedSaveIsCurrent(cfg, w, c);
    AcceptedSaveIsCurrent(cfg, Exec(cfg, w, mid), c);
  }
}
