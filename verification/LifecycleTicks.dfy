/** What a `tick` of lumen/platform/balance_lifecycle.py does to the tenants it is given when nobody else
    saves meanwhile. */
module LifecycleTicks {
  import opened Prelude
  import opened Lifecycle

  function StateOf(states: States, tid: string): BalanceState {
    if tid in states then states[tid] else FRESH
  }

  /** Nobody else saves during the turn. */
  predicate Quiet(t: Turn) {
    t.before == [] && t.between == [] && |t.views| == 3 && t.rivals == [[], [], []]
  }

  /** Nobody else saves during the tick, and every tenant is on the list once. */
  ghost predicate QuietTick(turns: seq<Turn>) {
    && (forall i | 0 <= i < |turns| :: Quiet(turns[i]))
    && (forall i, j | 0 <= i < j < |turns| :: turns[i].tid != turns[j].tid)
  }

  ghost predicate AllConsistent(cfg: Config, states: States, turns: seq<Turn>) {
    forall i | 0 <= i < |turns| :: Consistent(cfg, StateOf(states, turns[i].tid))
  }

  lemma OneTurnTaken(cfg: Config, states: States, turns: seq<Turn>)
    requires turns != [] && QuietTick(turns) && AllConsistent(cfg, states, turns)
    ensures var s1 := TurnTaken(cfg, states, turns[0]).0;
            && QuietTick(turns[1..]) && AllConsistent(cfg, s1, turns[1..])
            && forall i | 0 < i < |turns| ::
                 turns[i].tid != turns[0].tid && StateOf(s1, turns[i].tid) == StateOf(states, turns[i].tid)
  {
    QuietTurnTaken(cfg, states, turns[0]);
    hide TurnTaken, Consistent;
    assert forall i | 0 <= i < |turns[1..]| :: turns[1..][i] == turns[i + 1];
  }

  /** A tenant is warned, or its grace period runs. */
  predicate Unsettled(st: BalanceState) {
    st.phase == Warning || st.phase == Grace
  }

  function Evaluated(cfg: Config, st: BalanceState, t: Turn): Outcome
    requires Quiet(t)
  {
    Apply(cfg, st, Evaluate(t.views[0]))
  }

  /** The actions reported of one tenant, in order. */
  function Reports(acted: seq<(string, Action)>, tid: string): seq<Action> {
    if acted == [] then []
    else (if acted[0].0 == tid then [acted[0].1] else []) + Reports(acted[1..], tid)
  }

  lemma ReportsFirst(acted: seq<(string, Action)>, tid: string)
    requires acted != []
    ensures Reports(acted, tid) == (if acted[0].0 == tid then [acted[0].1] else []) + Reports(acted[1..], tid)
  {
  }

  lemma Regroup(a: seq<Action>, b: seq<Action>, c: seq<Action>)
    ensures a + b + c == a + (b + c)
  {
  }

  lemma {:induction false} ReportsConcat(a: seq<(string, Action)>, b: seq<(string, Action)>, tid: string)
    ensures Reports(a + b, tid) == Reports(a, tid) + Reports(b, tid)
  {
    if a == [] {
      assert a + b == b;
    } else {
      hide Reports;
      ReportsFirst(a, tid);
      ReportsFirst(a + b, tid);
      assert (a + b)[1..] == a[1..] + b;
      ReportsConcat(a[1..], b, tid);
      Regroup(if a[0].0 == tid then [a[0].1] else [], Reports(a[1..], tid), Reports(b, tid));
    }
  }

  /** A turn looks at its own tenant only. It evaluates and reports one that is warned or in grace, and
      leaves one that is active or suspended as it is. */
  lemma QuietTurnTaken(cfg: Config, states: States, t: Turn)
    requires Quiet(t) && Consistent(cfg, StateOf(states, t.tid))
    ensures var st, (s', acted) := StateOf(states, t.tid), TurnTaken(cfg, states, t);
            && (forall other | other != t.tid :: StateOf(s', other) == StateOf(states, other))
            && (if Unsettled(st) then
                  && StateOf(s', t.tid) == Saved(Evaluated(cfg, st, t).next)
                  && acted == [(t.tid, Evaluated(cfg, st, t).action)]
                else StateOf(s', t.tid) == st && acted == [])
  {
    var st := StateOf(states, t.tid);
    var s0 := AfterGet(states, t.tid);
    assert s0[t.tid] == st;
    hide PctUsed, FirstDue, FundedBaseline;
    EvaluateKeepsVersion(cfg, st, t.views[0]);
    assert AfterRivals(s0, t.tid, []) == s0;
  }

  lemma {:induction false} OthersUntouched(cfg: Config, states: States, turns: seq<Turn>, tid: string)
    requires QuietTick(turns) && AllConsistent(cfg, states, turns)
    requires forall i | 0 <= i < |turns| :: turns[i].tid != tid
    ensures var (s', acted) := Ticked(cfg, states, turns);
            StateOf(s', tid) == StateOf(states, tid) && Reports(acted, tid) == []
    decreases |turns|
  {
    hide TurnTaken, Consistent;
    if turns != [] {
      var (s1, acted) := TurnTaken(cfg, states, turns[0]);
      QuietTurnTaken(cfg, states, turns[0]);
      OneTurnTaken(cfg, states, turns);
      OthersUntouched(cfg, s1, turns[1..], tid);
      ReportsConcat(acted, Ticked(cfg, s1, turns[1..]).1, tid);
      hide Ticked;
    }
  }

  /** A tick takes every tenant on its list that is warned or in grace through one evaluation, stores what it
      decides and reports it once; an active or a suspended one stays as it is, without a report. */
  lemma {:induction false} TickHandlesEachOnce(cfg: Config, states: States, turns: seq<Turn>, i: nat)
    requires i < |turns| && QuietTick(turns) && AllConsistent(cfg, states, turns)
    ensures var st, (s', acted) := StateOf(states, turns[i].tid), Ticked(cfg, states, turns);
            if Unsettled(st) then
              && StateOf(s', turns[i].tid) == Saved(Evaluated(cfg, st, turns[i]).next)
              && Reports(acted, turns[i].tid) == [Evaluated(cfg, st, turns[i]).action]
            else StateOf(s', turns[i].tid) == st && Reports(acted, turns[i].tid) == []
    decreases |turns|
  {
    hide TurnTaken, Consistent, Evaluated;
    var tid := turns[i].tid;
    var (s1, acted) := TurnTaken(cfg, states, turns[0]);
    QuietTurnTaken(cfg, states, turns[0]);
    OneTurnTaken(cfg, states, turns);
    ReportsConcat(acted, Ticked(cfg, s1, turns[1..]).1, tid);
    if i == 0 {
      OthersUntouched(cfg, s1, turns[1..], tid);
    } else {
      TickHandlesEachOnce(cfg, s1, turns[1..], i - 1);
      assert turns[1..][i - 1] == turns[i];
    }
  }

  /** So a tick ends every grace period on its list that is over: the tenant without credit is suspended, and
      said to be, from the moment GRACE_SEC have passed, and told that grace goes on before. */
  lemma TickEndsGrace(cfg: Config, states: States, turns: seq<Turn>, i: nat)
    requires i < |turns| && QuietTick(turns) && AllConsistent(cfg, states, turns)
    requires StateOf(states, turns[i].tid).phase == Grace && turns[i].views[0].available <= 0
    requires ClockOk(cfg, turns[i].views[0].now)
    ensures var st, (s', acted) := StateOf(states, turns[i].tid), Ticked(cfg, states, turns);
            var over := turns[i].views[0].now >= st.graceStartedAt + cfg.graceSec as real;
            && StateOf(s', turns[i].tid).phase == (if over then Suspended else Grace)
            && Reports(acted, turns[i].tid) == [if over then Suspend else InGrace]
  {
    TickHandlesEachOnce(cfg, states, turns, i);
    GraceLastsExactly(cfg, StateOf(states, turns[i].tid), Evaluate(turns[i].views[0]));
    hide Ticked, Apply, Consistent;
  }
}
