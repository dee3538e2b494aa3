/** lumen/platform/queue_backpressure.py: counters of generations in flight, in one process. A caller
    checks the limits and then takes its slot under two separate acquisitions of the lock. */
module Backpressure {
  import opened Prelude

  /** `str(tenant_id or "anon").strip() or "anon"`. */
  function Tid(tenant: string): string {
    var t := Strip(if tenant == "" then "anon" else tenant);
    if t == "" then "anon" else t
  }

  /** A tenant counts under its name without the blanks around it, and all without a name count as one. */
  lemma BlankNamesCountAsOne(tenant: string)
    ensures Tid(tenant) == if forall c | c in tenant :: IsSpace(c) then "anon" else Strip(tenant)
  {
    var left, right := StripIsMiddle(tenant);
    if Strip(tenant) != "" {
      assert Strip(tenant)[0] in tenant;
    }
  }

  datatype Verdict = Ok | GlobalFull(inflight: int) | TenantFull(inflight: int)

  datatype Limits = Limits(global: int, tenant: int)

  /** `max(1, ...)` in both limits. */
  predicate Sane(l: Limits) {
    l.global >= 1 && l.tenant >= 1
  }

  datatype Counters = Counters(inflight: int, byTenant: map<string, int>)

  const IDLE := Counters(0, map[])

  function Get(m: map<string, int>, t: string): int {
    if t in m then m[t] else 0
  }

  function Check(c: Counters, l: Limits, t: string): Verdict {
    if c.inflight >= l.global then GlobalFull(c.inflight)
    else if Get(c.byTenant, t) >= l.tenant then TenantFull(Get(c.byTenant, t))
    else Ok
  }

  function Counted(c: Counters, t: string): Counters {
    Counters(c.inflight + 1, c.byTenant[t := Get(c.byTenant, t) + 1])
  }

  function Released(c: Counters, t: string): Counters {
    Counters(Max(0, c.inflight - 1), c.byTenant[t := Max(0, Get(c.byTenant, t) - 1)])
  }

  class Backpressure {
    const limits: Limits
    var inflight: int
    var byTenant: map<string, int>

    constructor (maxGlobal: int, maxTenant: int)
      ensures limits == Limits(Max(1, maxGlobal), Max(1, maxTenant)) && Sane(limits)
      ensures State() == IDLE
    {
      limits := Limits(Max(1, maxGlobal), Max(1, maxTenant));
      inflight := 0;
      byTenant := map[];
    }

    ghost function State(): Counters
      reads this
    {
      Counters(inflight, byTenant)
    }

    method CheckEnqueueAllowed(tenant: string) returns (v: Verdict)
      ensures v == Check(State(), limits, Tid(tenant))
    {
      var tid := Tid(tenant);
      if inflight >= limits.global {
        return GlobalFull(inflight);
      }
      var n := if tid in byTenant then byTenant[tid] else 0;
      if n >= limits.tenant {
        return TenantFull(n);
      }
      v := Ok;
    }

    /** The second locked section of `acquire_slot`. */
    method Count(tenant: string)
      modifies this
      ensures State() == Counted(old(State()), Tid(tenant))
    {
      var tid := Tid(tenant);
      inflight := inflight + 1;
      byTenant := byTenant[tid := (if tid in byTenant then byTenant[tid] else 0) + 1];
    }

    method AcquireSlot(tenant: string) returns (v: Verdict)
      modifies this
      ensures v == Check(old(State()), limits, Tid(tenant))
      ensures State() == if v == Ok then Counted(old(State()), Tid(tenant)) else old(State())
    {
      v := CheckEnqueueAllowed(tenant);
      if v == Ok {
        Count(tenant);
      }
    }

    method ReleaseSlot(tenant: string)
      modifies this
      ensures State() == Released(old(State()), Tid(tenant))
    {
      var tid := Tid(tenant);
      inflight := Max(0, inflight - 1);
      byTenant := byTenant[tid := Max(0, (if tid in byTenant then byTenant[tid] else 0) - 1)];
    }

    /** A generation: the slot is given back exactly when it was taken (`_bp_acquired`). */
    method Generate(tenant: string) returns (ran: bool)
      requires inflight >= 0 && (Tid(tenant) in byTenant ==> byTenant[Tid(tenant)] >= 0)
      modifies this
      ensures ran <==> Check(old(State()), limits, Tid(tenant)) == Ok
      ensures inflight == old(inflight)
      ensures forall t :: Get(byTenant, t) == Get(old(byTenant), t)
    {
      var acquired := AcquireSlot(tenant);
      ran := acquired == Ok;
      if ran {
        ReleaseSlot(tenant);
      }
    }
  }

  // ------------------------------------------------------------------ interleaved callers

  /** The counters, the callers that passed the check and have not counted themselves yet, and the
      callers that run in a slot; callers are named by their tenant. */
  datatype World = World(c: Counters, between: multiset<string>, holders: multiset<string>)

  const START := World(IDLE, multiset{}, multiset{})

  datatype Event =
    | Ask(tenant: string)      // the check; a caller that is refused goes away
    | Enter(tenant: string)    // the increment, by a caller that passed the check
    | Leave(tenant: string)    // the release, by a caller that holds a slot
    | Stray(tenant: string)    // a release without a slot

  /** The callers do what the code lets them do. */
  predicate Enabled(w: World, e: Event) {
    match e
    case Ask(_) => true
    case Enter(tenant) => Tid(tenant) in w.between
    case Leave(tenant) => Tid(tenant) in w.holders
    case Stray(_) => true
  }

  function Step(w: World, l: Limits, e: Event): World {
    var t := Tid(e.tenant);
    if !Enabled(w, e) then w
    else
      match e
      case Ask(_) => if Check(w.c, l, t) == Ok then w.(between := w.between + multiset{t}) else w
      case Enter(_) => World(Counted(w.c, t), w.between - multiset{t}, w.holders + multiset{t})
      case Leave(_) => World(Released(w.c, t), w.between, w.holders - multiset{t})
      case Stray(_) => w.(c := Released(w.c, t))
  }

  function Exec(events: seq<Event>, l: Limits): World {
    if events == [] then START else Step(Exec(events[..|events| - 1], l), l, events[|events| - 1])
  }

  /** At most k callers are ever between check and increment. */
  predicate AtMostBetween(events: seq<Event>, l: Limits, k: nat) {
    forall n | 0 <= n <= |events| :: |Exec(events[..n], l).between| <= k
  }

  ghost predicate Fits(w: World, l: Limits, k: nat) {
    && w.c.inflight + |w.between| <= l.global + k - 1
    && (forall t :: Get(w.c.byTenant, t) + w.between[t] <= l.tenant + k - 1)
  }

  lemma StepFits(w: World, l: Limits, e: Event, k: nat)
    requires Sane(l) && Fits(w, l, k) && |Step(w, l, e).between| <= k
    ensures Fits(Step(w, l, e), l, k)
  {
    hide Tid, Strip;
    var w' := Step(w, l, e);
    if e.Ask? {
      forall t ensures Get(w'.c.byTenant, t) + w'.between[t] <= l.tenant + k - 1 {
        MultiplicityFits(w'.between, t);
      }
    }
  }

  lemma MultiplicityFits(m: multiset<string>, t: string)
    ensures m[t] <= |m|
  {
    assert m == m[t := 0] + multiset{}[t := m[t]];
  }

  /** However the callers interleave, the counters exceed the limits by at most one less than the number
      of callers that are ever between check and increment; with one such caller, not at all. */
  lemma {:induction false} InflightBound(events: seq<Event>, l: Limits, k: nat)
    requires Sane(l) && AtMostBetween(events, l, k)
    ensures Fits(Exec(events, l), l, k)
    ensures Exec(events, l).c.inflight <= l.global + k - 1
    ensures forall t :: Get(Exec(events, l).c.byTenant, t) <= l.tenant + k - 1
  {
    hide Step, Tid;
    assert events[..|events|] == events;
    if events != [] {
      var before, e := events[..|events| - 1], events[|events| - 1];
      assert AtMostBetween(before, l, k) by {
        forall n | 0 <= n <= |before| ensures |Exec(before[..n], l).between| <= k {
          assert before[..n] == events[..n];
        }
      }
      InflightBound(before, l, k);
      StepFits(Exec(before, l), l, e, k);
    }
  }

  // ------------------------------------------------------------------ the bound is reached

  function Fill(ts: seq<string>): seq<Event> {
    if ts == [] then [] else Fill(ts[..|ts| - 1]) + [Ask(ts[|ts| - 1])] + [Enter(ts[|ts| - 1])]
  }

  function Asks(ts: seq<string>): seq<Event> {
    seq(|ts|, i requires 0 <= i < |ts| => Ask(ts[i]))
  }

  function Enters(ts: seq<string>): seq<Event> {
    seq(|ts|, i requires 0 <= i < |ts| => Enter(ts[i]))
  }

  /** `ts` run one after the other, `us` checked but not counted. */
  ghost predicate Reached(w: World, ts: seq<string>, us: multiset<string>) {
    && w.c.inflight == |ts| && w.between == us && w.holders == multiset(ts)
    && (forall t :: Get(w.c.byTenant, t) == multiset(ts)[t])
  }

  predicate Plain(ts: seq<string>) {
    forall i | 0 <= i < |ts| :: Tid(ts[i]) == ts[i]
  }

  lemma Split(ts: seq<string>)
    requires ts != []
    ensures multiset(ts) == multiset(ts[..|ts| - 1]) + multiset{ts[|ts| - 1]}
  {
    assert ts == ts[..|ts| - 1] + [ts[|ts| - 1]];
  }

  lemma ExecStep(events: seq<Event>, e: Event, l: Limits)
    ensures Exec(events + [e], l) == Step(Exec(events, l), l, e)
  {
    assert (events + [e])[..|events|] == events;
  }

  lemma AskReaches(w: World, ts: seq<string>, us: multiset<string>, u: string, l: Limits)
    requires Reached(w, ts, us) && Tid(u) == u && |ts| < l.global && multiset(ts)[u] < l.tenant
    ensures Reached(Step(w, l, Ask(u)), ts, us + multiset{u})
  {
    hide Strip;
    assert Get(w.c.byTenant, u) == multiset(ts)[u];
  }

  lemma EnterReaches(w: World, ts: seq<string>, us: multiset<string>, u: string, l: Limits)
    requires Reached(w, ts, us) && Tid(u) == u && u in us
    ensures Reached(Step(w, l, Enter(u)), ts + [u], us - multiset{u})
  {
    hide Strip;
    var w' := Step(w, l, Enter(u));
    assert multiset(ts + [u]) == multiset(ts) + multiset{u};
    forall t ensures Get(w'.c.byTenant, t) == multiset(ts + [u])[t] {
      assert Get(w.c.byTenant, t) == multiset(ts)[t];
    }
  }

  /** One more check, or one more increment, at the end of a run. */
  lemma AskNext(events: seq<Event>, ts: seq<string>, us: multiset<string>, us': multiset<string>, u: string, l: Limits)
    requires Reached(Exec(events, l), ts, us) && Tid(u) == u && |ts| < l.global && multiset(ts)[u] < l.tenant
    requires us' == us + multiset{u}
    ensures Reached(Exec(events + [Ask(u)], l), ts, us')
  {
    AskReaches(Exec(events, l), ts, us, u, l);
    ExecStep(events, Ask(u), l);
  }

  lemma EnterNext(events: seq<Event>, ts: seq<string>, us: multiset<string>, us': multiset<string>, u: string,
          l: Limits)
    requires Reached(Exec(events, l), ts, us) && Tid(u) == u
    requires us == us' + multiset{u}
    ensures Reached(Exec(events + [Enter(u)], l), ts + [u], us')
  {
    EnterReaches(Exec(events, l), ts, us, u, l);
    ExecStep(events, Enter(u), l);
    assert us - multiset{u} == us';
  }

  predicate Room(ts: seq<string>, l: Limits) {
    forall i | 0 <= i < |ts| :: multiset(ts[..i])[ts[i]] < l.tenant
  }

  lemma RoomBefore(ts: seq<string>, l: Limits)
    requires Room(ts, l) && ts != []
    ensures Room(ts[..|ts| - 1], l) && multiset(ts[..|ts| - 1])[ts[|ts| - 1]] < l.tenant
  {
    var before := ts[..|ts| - 1];
    forall i | 0 <= i < |before| ensures multiset(before[..i])[before[i]] < l.tenant {
      assert before[..i] == ts[..i] && before[i] == ts[i];
    }
  }

  lemma {:induction false} FillReaches(ts: seq<string>, l: Limits)
    requires Plain(ts) && |ts| <= l.global && Room(ts, l)
    ensures Reached(Exec(Fill(ts), l), ts, multiset{})
  {
    if ts != [] {
      var before, t := ts[..|ts| - 1], ts[|ts| - 1];
      Snoc(ts);
      RoomBefore(ts, l);
      FillReaches(before, l);
      AskNext(Fill(before), before, multiset{}, multiset{t}, t, l);
      EnterNext(Fill(before) + [Ask(t)], before, multiset{t}, multiset{}, t, l);
    }
  }

  lemma AsksSnoc(events: seq<Event>, us: seq<string>)
    requires us != []
    ensures events + Asks(us) == events + Asks(us[..|us| - 1]) + [Ask(us[|us| - 1])]
  {
  }

  lemma {:induction false} AsksReach(events: seq<Event>, ts: seq<string>, us: seq<string>, l: Limits)
    requires Plain(us) && |ts| < l.global
    requires Reached(Exec(events, l), ts, multiset{})
    requires forall i | 0 <= i < |us| :: multiset(ts)[us[i]] < l.tenant
    ensures Reached(Exec(events + Asks(us), l), ts, multiset(us))
  {
    if us == [] {
      assert events + Asks(us) == events;
    } else {
      var before, u := us[..|us| - 1], us[|us| - 1];
      AsksSnoc(events, us);
      AsksReach(events, ts, before, l);
      Split(us);
      AskNext(events + Asks(before), ts, multiset(before), multiset(us), u, l);
    }
  }

  lemma EntersSnoc(events: seq<Event>, ts: seq<string>, us: seq<string>, n: nat)
    requires 0 < n <= |us|
    ensures events + Enters(us[..n]) == events + Enters(us[..n - 1]) + [Enter(us[n - 1])]
    ensures ts + us[..n] == ts + us[..n - 1] + [us[n - 1]]
    ensures multiset(us[n - 1..]) == multiset(us[n..]) + multiset{us[n - 1]}
  {
    assert us[n - 1..] == [us[n - 1]] + us[n..];
  }

  lemma {:induction false} EntersReach(events: seq<Event>, ts: seq<string>, us: seq<string>, n: nat, l: Limits)
    requires Plain(us) && n <= |us| && Reached(Exec(events, l), ts, multiset(us))
    ensures Reached(Exec(events + Enters(us[..n]), l), ts + us[..n], multiset(us[n..]))
  {
    hide Exec, Tid, Strip;
    if n == 0 {
      assert events + Enters(us[..0]) == events && ts + us[..0] == ts && us[0..] == us;
    } else {
      EntersSnoc(events, ts, us, n);
      EntersReach(events, ts, us, n - 1, l);
      EnterNext(events + Enters(us[..n - 1]), ts + us[..n - 1], multiset(us[n - 1..]), multiset(us[n..]), us[n - 1], l);
    }
  }

  function Burst(ts: seq<string>, us: seq<string>): seq<Event> {
    Fill(ts) + Asks(us) + Enters(us)
  }

  /** The callers `us` all pass the check on the strength of the same counters, and then all enter. */
  lemma BurstReaches(ts: seq<string>, us: seq<string>, l: Limits)
    requires Plain(ts) && Plain(us) && |ts| < l.global && Room(ts, l)
    requires forall i | 0 <= i < |us| :: multiset(ts)[us[i]] < l.tenant
    ensures Reached(Exec(Burst(ts, us), l), ts + us, multiset{})
  {
    hide Exec, Plain, Room;
    FillReaches(ts, l);
    AsksReach(Fill(ts), ts, us, l);
    EntersReach(Fill(ts) + Asks(us), ts, us, |us|, l);
    assert us[..|us|] == us;
  }

  lemma AtMostSnoc(events: seq<Event>, e: Event, l: Limits, k: nat)
    requires AtMostBetween(events, l, k) && |Exec(events + [e], l).between| <= k
    ensures AtMostBetween(events + [e], l, k)
  {
    hide Exec;
    var all := events + [e];
    forall n | 0 <= n <= |all| ensures |Exec(all[..n], l).between| <= k {
      if n <= |events| {
        assert all[..n] == events[..n];
      } else {
        assert all[..n] == all;
      }
    }
  }

  lemma {:induction false} FillAtMost(ts: seq<string>, l: Limits, k: nat)
    requires Plain(ts) && |ts| <= l.global && Room(ts, l) && k >= 1
    ensures AtMostBetween(Fill(ts), l, k)
  {
    if ts != [] {
      hide Exec, Tid;
      var before, t := ts[..|ts| - 1], ts[|ts| - 1];
      Snoc(ts);
      RoomBefore(ts, l);
      FillAtMost(before, l, k);
      FillReaches(before, l);
      AskNext(Fill(before), before, multiset{}, multiset{t}, t, l);
      AtMostSnoc(Fill(before), Ask(t), l, k);
      EnterNext(Fill(before) + [Ask(t)], before, multiset{t}, multiset{}, t, l);
      AtMostSnoc(Fill(before) + [Ask(t)], Enter(t), l, k);
    }
  }

  lemma {:induction false} AsksAtMost(events: seq<Event>, ts: seq<string>, us: seq<string>, l: Limits, k: nat)
    requires Plain(us) && |ts| < l.global && |us| <= k && AtMostBetween(events, l, k)
    requires Reached(Exec(events, l), ts, multiset{})
    requires forall i | 0 <= i < |us| :: multiset(ts)[us[i]] < l.tenant
    ensures AtMostBetween(events + Asks(us), l, k)
  {
    if us == [] {
      assert events + Asks(us) == events;
    } else {
      hide Exec, Tid;
      var before, u := us[..|us| - 1], us[|us| - 1];
      AsksSnoc(events, us);
      AsksAtMost(events, ts, before, l, k);
      AsksReach(events, ts, us, l);
      AtMostSnoc(events + Asks(before), Ask(u), l, k);
    }
  }

  lemma {:induction false} EntersAtMost(events: seq<Event>, ts: seq<string>, us: seq<string>, n: nat, l: Limits, k: nat)
    requires Plain(us) && n <= |us| <= k && Reached(Exec(events, l), ts, multiset(us)) && AtMostBetween(events, l, k)
    ensures AtMostBetween(events + Enters(us[..n]), l, k)
  {
    hide Exec, Tid;
    if n == 0 {
      assert events + Enters(us[..0]) == events;
    } else {
      EntersSnoc(events, ts, us, n);
      EntersAtMost(events, ts, us, n - 1, l, k);
      EntersReach(events, ts, us, n, l);
      AtMostSnoc(events + Enters(us[..n - 1]), Enter(us[n - 1]), l, k);
    }
  }

  /** Never more than the callers `us` are between check and increment. */
  lemma BurstAtMost(ts: seq<string>, us: seq<string>, l: Limits, k: nat)
    requires Plain(ts) && Plain(us) && |ts| < l.global && Room(ts, l) && 1 <= k && |us| <= k
    requires forall i | 0 <= i < |us| :: multiset(ts)[us[i]] < l.tenant
    ensures AtMostBetween(Burst(ts, us), l, k)
  {
    hide Exec, Tid, Room;
    FillReaches(ts, l);
    FillAtMost(ts, l, k);
    AsksReach(Fill(ts), ts, us, l);
    AsksAtMost(Fill(ts), ts, us, l, k);
    EntersAtMost(Fill(ts) + Asks(us), ts, us, |us|, l, k);
    assert us[..|us|] == us;
  }

  function Repeat(n: nat): string {
    if n == 0 then "" else Repeat(n - 1) + "a"
  }

  lemma {:induction false} RepeatPlain(n: nat)
    ensures |Repeat(n)| == n && TrimLeft(Repeat(n)) == Repeat(n) && TrimRight(Repeat(n)) == Repeat(n)
    ensures n > 0 ==> Tid(Repeat(n)) == Repeat(n) && Repeat(n)[0] == 'a'
  {
    if n > 0 {
      RepeatPlain(n - 1);
    }
  }

  function Names(from: nat, n: nat): seq<string> {
    seq(n, i requires 0 <= i < n => Repeat(from + i + 1))
  }

  lemma NamesPlain(from: nat, n: nat)
    ensures Plain(Names(from, n))
  {
    hide Strip;
    forall i | 0 <= i < n ensures Tid(Names(from, n)[i]) == Names(from, n)[i] {
      RepeatPlain(from + i + 1);
    }
  }

  lemma NameIsNew(i: nat)
    ensures Repeat(i + 1) !in Names(0, i)
  {
    hide Tid, Strip;
    RepeatPlain(i + 1);
    forall j | 0 <= j < i ensures Names(0, i)[j] != Repeat(i + 1) {
      RepeatPlain(j + 1);
    }
  }

  lemma NamesHaveRoom(n: nat, l: Limits)
    requires Sane(l)
    ensures Room(Names(0, n), l)
  {
    forall i | 0 <= i < n ensures multiset(Names(0, n)[..i])[Names(0, n)[i]] < l.tenant {
      NameIsNew(i);
      assert Names(0, n)[..i] == Names(0, i);
    }
  }

  lemma LaterNamesAreNew(n: nat, k: nat)
    ensures forall i | 0 <= i < k :: multiset(Names(0, n))[Names(n, k)[i]] == 0
  {
    forall i | 0 <= i < k ensures Names(n, k)[i] !in Names(0, n) {
      NameIsNew(n + i);
      assert Names(0, n) == Names(0, n + i)[..n];
    }
  }

  /** The global bound cannot be improved: for every k there is a run that reaches it. */
  lemma GlobalBoundIsReached(l: Limits, k: nat)
    requires Sane(l)
    ensures var run := Burst(Names(0, l.global - 1), Names(l.global - 1, k));
            && Exec(run, l).c.inflight == l.global + k - 1
            && (k >= 1 ==> AtMostBetween(run, l, k))
  {
    hide Exec, Burst, Plain, Room, AtMostBetween;
    var n := l.global - 1;
    var ts, us := Names(0, n), Names(n, k);
    NamesPlain(0, n);
    NamesPlain(n, k);
    NamesHaveRoom(n, l);
    LaterNamesAreNew(n, k);
    BurstReaches(ts, us, l);
    if k >= 1 {
      BurstAtMost(ts, us, l, k);
    }
  }

  function Same(t: string, n: nat): seq<string> {
    seq(n, i => t)
  }

  lemma {:induction false} SameCount(t: string, n: nat)
    ensures multiset(Same(t, n))[t] == n
  {
    if n > 0 {
      SameCount(t, n - 1);
      Split(Same(t, n));
      assert Same(t, n)[..n - 1] == Same(t, n - 1);
    }
  }

  /** So does the bound of a tenant, where the global limit does not get in the way first. */
  lemma TenantBoundIsReached(l: Limits, t: string, k: nat)
    requires Sane(l) && l.tenant <= l.global && Tid(t) == t
    ensures var run := Burst(Same(t, l.tenant - 1), Same(t, k));
            && Get(Exec(run, l).c.byTenant, t) == l.tenant + k - 1
            && (k >= 1 ==> AtMostBetween(run, l, k))
  {
    hide Exec, Burst, Strip, AtMostBetween;
    var n := l.tenant - 1;
    var ts, us := Same(t, n), Same(t, k);
    SameCount(t, n);
    SameCount(t, k);
    forall i | 0 <= i < |ts| ensures multiset(ts[..i])[ts[i]] < l.tenant {
      SameCount(t, i);
      assert ts[..i] == Same(t, i);
    }
    BurstReaches(ts, us, l);
    if k >= 1 {
      BurstAtMost(ts, us, l, k);
    }
    assert multiset(ts + us)[t] == multiset(ts)[t] + multiset(us)[t];
  }

  // ------------------------------------------------------------------ nothing is lost

  /** The counters say how many slots are held, overall and by each tenant. */
  ghost predicate Synced(w: World) {
    && w.c.inflight == |w.holders|
    && (forall t :: Get(w.c.byTenant, t) == w.holders[t])
  }

  ghost function Sum(m: map<string, int>): int {
    if m == map[] then 0
    else
      var t :| t in m;
      m[t] + Sum(m - {t})
  }

  lemma {:induction false} SumSplit(m: map<string, int>, t: string)
    requires t in m
    ensures Sum(m) == m[t] + Sum(m - {t})
    decreases |m|
  {
    var u :| u in m && Sum(m) == m[u] + Sum(m - {u});
    if u != t {
      SumSplit(m - {u}, t);
      SumSplit(m - {t}, u);
      assert m - {u} - {t} == m - {t} - {u};
    }
  }

  lemma SumUpdate(m: map<string, int>, t: string, v: int)
    ensures Sum(m[t := v]) == Sum(m) - Get(m, t) + v
  {
    SumSplit(m[t := v], t);
    if t in m {
      SumSplit(m, t);
      assert m[t := v] - {t} == m - {t};
    } else {
      assert m[t := v] - {t} == m;
    }
  }

  predicate NoStray(events: seq<Event>) {
    forall e | e in events :: !e.Stray?
  }

  lemma HolderCounts(w: World, t: string)
    requires Synced(w) && t in w.holders
    ensures w.c.inflight >= 1 && Get(w.c.byTenant, t) >= 1
    ensures Released(w.c, t) == Counters(w.c.inflight - 1, w.c.byTenant[t := Get(w.c.byTenant, t) - 1])
  {
    hide Tid;
    MultiplicityFits(w.holders, t);
  }

  lemma StepKeepsSynced(w: World, l: Limits, e: Event)
    requires Synced(w) && !e.Stray?
    ensures Synced(Step(w, l, e))
  {
    hide Tid;
    var w', t := Step(w, l, e), Tid(e.tenant);
    if e.Leave? && t in w.holders {
      HolderCounts(w, t);
      assert |w'.holders| == |w.holders| - 1;
    }
    forall u ensures Get(w'.c.byTenant, u) == w'.holders[u] {
      assert Get(w.c.byTenant, u) == w.holders[u];
    }
  }

  lemma StepKeepsSum(w: World, l: Limits, e: Event)
    requires Synced(w) && !e.Stray? && w.c.inflight == Sum(w.c.byTenant)
    ensures Step(w, l, e).c.inflight == Sum(Step(w, l, e).c.byTenant)
  {
    hide Tid, Sum;
    var t := Tid(e.tenant);
    if e.Enter? {
      SumUpdate(w.c.byTenant, t, Get(w.c.byTenant, t) + 1);
    } else if e.Leave? && t in w.holders {
      HolderCounts(w, t);
      SumUpdate(w.c.byTenant, t, Get(w.c.byTenant, t) - 1);
    }
  }

  /** When every release follows a successful acquire, the counters equal the number of holders, the
      global one is the sum over the tenants, and the floor at zero never fires. */
  lemma {:induction false} PairedReleasesKeepCounts(events: seq<Event>, l: Limits)
    requires NoStray(events)
    ensures Synced(Exec(events, l))
    ensures Exec(events, l).c.inflight == Sum(Exec(events, l).c.byTenant)
    ensures forall t | t in Exec(events, l).holders ::
      var c := Exec(events, l).c;
      Released(c, t) == Counters(c.inflight - 1, c.byTenant[t := Get(c.byTenant, t) - 1])
  {
    if events != [] {
      hide Tid, Step, Sum;
      var before, e := events[..|events| - 1], events[|events| - 1];
      assert e in events;
      PairedReleasesKeepCounts(before, l);
      StepKeepsSynced(Exec(before, l), l, e);
      StepKeepsSum(Exec(before, l), l, e);
    }
    var w := Exec(events, l);
    forall t | t in w.holders
      ensures Released(w.c, t) == Counters(w.c.inflight - 1, w.c.byTenant[t := Get(w.c.byTenant, t) - 1])
    {
      HolderCounts(w, t);
    }
  }

  /** A release without a slot leaves the counters right exactly when nothing is in flight; otherwise
      they fall below the number of holders. */
  lemma StrayReleaseUndercountsIff(w: World, l: Limits, tenant: string)
    requires Synced(w)
    ensures Synced(Step(w, l, Stray(tenant))) <==> w.holders == multiset{}
    ensures w.holders != multiset{} ==> Step(w, l, Stray(tenant)).c.inflight == |w.holders| - 1
  {
  }
}
