/** lumen/bot/singleton.py, the Mongo path: one lease document says which process may poll Telegram.
    A lease lasts a fixed time, is renewed by its owner, is removed by the store after it expires or
    by its owner on exit, and is taken by force by an acquirer that has waited long enough. */
module PollingLease {
  import opened Prelude

  datatype Doc = Doc(owner: string, expiresAt: Option<real>)

  /** The filter of an unforced attempt: missing, expired, without expiry, or already ours. */
  predicate Free(doc: Option<Doc>, owner: string, now: real) {
    doc.Some? ==>
      || doc.value.expiresAt.None?
      || doc.value.expiresAt.value <= now
      || doc.value.owner == owner
  }

  /** One attempt: the document afterwards and whether it names the acquirer.  An attempt that does
      not match meets the existing document as a duplicate key. */
  function AfterAttempt(doc: Option<Doc>, owner: string, now: real, lease: real, forced: bool): (Option<Doc>, bool) {
    if forced || Free(doc, owner, now) then (Some(Doc(owner, Some(now + lease))), true) else (doc, false)
  }

  predicate Owns(doc: Option<Doc>, owner: string) {
    doc.Some? && doc.value.owner == owner
  }

  class LockCollection {
    var doc: Option<Doc>

    constructor ()
      ensures doc == None
    {
      doc := None;
    }

    method FindOneAndUpdate(owner: string, now: real, lease: real, forced: bool) returns (won: bool)
      modifies this
      ensures (doc, won) == AfterAttempt(old(doc), owner, now, lease, forced)
    {
      if !forced && doc.Some? {
        var d := doc.value;
        if !(d.expiresAt.None? || d.expiresAt.value <= now || d.owner == owner) {
          return false;
        }
      }
      doc := Some(Doc(owner, Some(now + lease)));
      won := true;
    }

    /** The renewer's update, filtered on the owner. */
    method Renew(owner: string, now: real, lease: real)
      modifies this
      ensures doc == if Owns(old(doc), owner) then Some(Doc(owner, Some(now + lease))) else old(doc)
    {
      if doc.Some? && doc.value.owner == owner {
        doc := Some(doc.value.(expiresAt := Some(now + lease)));
      }
    }

    method Release(owner: string)
      modifies this
      ensures doc == if Owns(old(doc), owner) then None else old(doc)
    {
      if doc.Some? && doc.value.owner == owner {
        doc := None;
      }
    }
  }

  datatype Verdict = Acquired | GaveUp

  /** The acquire loop.  Before attempt k the rest of the world leaves the document as `others(k)`,
      the wall clock reads `wall(k)`, the attempt takes `lag(k)` seconds and `fault(k)` says whether
      it fails with an error.

      The loop ends within a bounded number of attempts; a live lease of somebody else is overwritten
      only by the one forced attempt, made after the whole wait; and giving up means that even the
      forced attempt met an error. */
  method TryAcquire(coll: LockCollection, owner: string, waitSeconds: real, lease: real,
                    others: nat -> Option<Doc>, wall: nat -> real, lag: nat -> real, fault: nat -> bool)
    returns (verdict: Verdict, attempts: nat, forced: bool, waited: real)
    requires forall k :: lag(k) >= 0.0
    modifies coll
    ensures 1 <= attempts <= MaxReal(5.0, waitSeconds).Floor + 3
    ensures forced ==> waited >= MaxReal(5.0, waitSeconds)
    ensures verdict == Acquired ==>
      && coll.doc == Some(Doc(owner, Some(wall(attempts - 1) + lease)))
      && (!forced ==> Free(others(attempts - 1), owner, wall(attempts - 1)))
    ensures verdict == GaveUp ==> forced && fault(attempts - 1)
    ensures forall k | 0 <= k < attempts - 1 :: fault(k) || !Free(others(k), owner, wall(k))
  {
    var deadline := MaxReal(5.0, waitSeconds);
    waited := 0.0;
    forced := false;
    attempts := 0;
    while true
      invariant !forced ==> attempts as real <= waited
      invariant !forced ==> attempts as real <= deadline + 1.0
      invariant forced ==> waited >= deadline && attempts as real <= deadline + 2.0
      invariant waited >= 0.0
      invariant forall k | 0 <= k < attempts :: fault(k) || !Free(others(k), owner, wall(k))
      decreases if forced then 0 else 1, (deadline - waited).Floor
    {
      var k := attempts;
      coll.doc := others(k);
      attempts := attempts + 1;
      if !fault(k) {
        var won := coll.FindOneAndUpdate(owner, wall(k), lease, forced);
        if won {
          return Acquired, attempts, forced, waited;
        }
      }
      waited := waited + lag(k);
      if waited >= deadline {
        if forced {
          return GaveUp, attempts, forced, waited;
        }
        forced := true;
        continue;
      }
      waited := waited + 1.0;
    }
  }

  // ------------------------------------------------------------------ the protocol

  datatype Process = Waiting(deadline: real, forced: bool) | Polling | Gone

  /** A period for which somebody was told it may poll. */
  datatype Grant = Grant(owner: string, from: real, until: real)

  datatype System = System(doc: Option<Doc>, clock: real, procs: map<string, Process>, grants: seq<Grant>)

  const START := System(None, 0.0, map[], [])

  datatype Event =
    | Pass(d: real)
    | Begin(p: string, waitSeconds: real)
    | Attempt(p: string, fault: bool)
    | Renew(p: string)
    | Release(p: string)
    | Die(p: string)
    | TtlDelete

  /** A release ends its owner's grants at once. */
  function Cut(grants: seq<Grant>, p: string, now: real): seq<Grant> {
    seq(|grants|, i requires 0 <= i < |grants| =>
      if grants[i].owner == p && grants[i].until > now then grants[i].(until := now) else grants[i])
  }

  function Step(lease: real, s: System, e: Event): System {
    match e
    case Pass(d) => if d >= 0.0 then s.(clock := s.clock + d) else s
    case Begin(p, w) =>
      if p in s.procs then s else s.(procs := s.procs[p := Waiting(s.clock + MaxReal(5.0, w), false)])
    case Attempt(p, fault) =>
      if !(p in s.procs && s.procs[p].Waiting?) then s
      else
        var me := s.procs[p];
        var (doc, won) := if fault then (s.doc, false) else AfterAttempt(s.doc, p, s.clock, lease, me.forced);
        if won then
          s.(doc := doc, procs := s.procs[p := Polling], grants := s.grants + [Grant(p, s.clock, s.clock + lease)])
        else if s.clock < me.deadline then s
        else s.(procs := s.procs[p := if me.forced then Gone else me.(forced := true)])
    case Renew(p) =>
      if !(p in s.procs && s.procs[p].Polling?) || !Owns(s.doc, p) then s
      else s.(doc := Some(Doc(p, Some(s.clock + lease))), grants := s.grants + [Grant(p, s.clock, s.clock + lease)])
    case Release(p) =>
      if !(p in s.procs && s.procs[p].Polling?) then s
      else
        s.(doc := if Owns(s.doc, p) then None else s.doc, procs := s.procs[p := Gone],
           grants := Cut(s.grants, p, s.clock))
    case Die(p) => if p in s.procs then s.(procs := s.procs[p := Gone]) else s
    case TtlDelete =>
      if s.doc.Some? && s.doc.value.expiresAt.Some? && s.doc.value.expiresAt.value <= s.clock
      then s.(doc := None) else s
  }

  function Exec(lease: real, s: System, events: seq<Event>): System {
    if events == [] then s
    else Step(lease, Exec(lease, s, events[..|events| - 1]), events[|events| - 1])
  }

  /** A forced attempt that overwrites somebody else's live lease. */
  predicate Steals(s: System, e: Event) {
    && e.Attempt? && !e.fault
    && e.p in s.procs && s.procs[e.p].Waiting? && s.procs[e.p].forced
    && !Free(s.doc, e.p, s.clock)
  }

  /** Grants of different owners do not overlap. */
  ghost predicate Disjoint(grants: seq<Grant>) {
    forall i, j | 0 <= i < j < |grants| && grants[i].owner != grants[j].owner :: grants[i].until <= grants[j].from
  }

  ghost predicate Inv(lease: real, s: System) {
    && Disjoint(s.grants)
    && (forall i | 0 <= i < |s.grants| :: s.grants[i].from <= s.clock && EndsByLease(s, s.grants[i]))
    && (s.doc.Some? ==> s.doc.value.expiresAt.Some? && s.doc.value.expiresAt.value <= s.clock + lease)
    && (s.doc.Some? ==> exists i :: 0 <= i < |s.grants| && BacksDoc(s.doc.value, s.grants[i]))
  }

  /** Only the document's owner may have a grant that is still running, and only up to the expiry. */
  predicate EndsByLease(s: System, g: Grant) {
    if Owns(s.doc, g.owner) && s.doc.value.expiresAt.Some? then g.until <= MaxReal(s.clock, s.doc.value.expiresAt.value)
    else g.until <= s.clock
  }

  predicate BacksDoc(d: Doc, g: Grant) {
    g.owner == d.owner && d.expiresAt == Some(g.until)
  }

  /** Granting p a lease from now keeps the invariant when nobody else holds a live one. */
  lemma GrantKeepsInv(lease: real, s: System, p: string, procs: map<string, Process>)
    requires lease >= 0.0 && Inv(lease, s) && Free(s.doc, p, s.clock)
    ensures Inv(lease, System(Some(Doc(p, Some(s.clock + lease))), s.clock, procs,
                              s.grants + [Grant(p, s.clock, s.clock + lease)]))
  {
    var g := Grant(p, s.clock, s.clock + lease);
    var s' := System(Some(Doc(p, Some(s.clock + lease))), s.clock, procs, s.grants + [g]);
    assert s'.grants[|s.grants|] == g && BacksDoc(s'.doc.value, g);
    forall i | 0 <= i < |s'.grants| ensures s'.grants[i].from <= s'.clock && EndsByLease(s', s'.grants[i]) {
      if i < |s.grants| {
        assert EndsByLease(s, s.grants[i]);
      }
    }
    forall i, j | 0 <= i < j < |s'.grants| && s'.grants[i].owner != s'.grants[j].owner
      ensures s'.grants[i].until <= s'.grants[j].from
    {
      assert EndsByLease(s, s.grants[i]);
    }
  }

  /** The invariant survives the document disappearing once its lease is over. */
  lemma RemovalKeepsInv(lease: real, s: System)
    requires Inv(lease, s) && s.doc.Some? && s.doc.value.expiresAt.Some? && s.doc.value.expiresAt.value <= s.clock
    ensures Inv(lease, s.(doc := None))
  {
    forall i | 0 <= i < |s.grants| ensures EndsByLease(s.(doc := None), s.grants[i]) {
      assert EndsByLease(s, s.grants[i]);
    }
  }

  lemma ReleaseKeepsInv(lease: real, s: System, p: string)
    requires Inv(lease, s)
    ensures Inv(lease, Step(lease, s, Release(p)))
  {
    var s' := Step(lease, s, Release(p));
    forall i | 0 <= i < |s'.grants| ensures s'.grants[i].from <= s'.clock && EndsByLease(s', s'.grants[i]) {
      assert EndsByLease(s, s.grants[i]);
    }
    if s'.doc.Some? {
      var i :| 0 <= i < |s.grants| && BacksDoc(s.doc.value, s.grants[i]);
      assert s'.grants[i] == s.grants[i];
    }
  }

  lemma PassKeepsInv(lease: real, s: System, d: real, procs: map<string, Process>)
    requires Inv(lease, s) && d >= 0.0
    ensures Inv(lease, s.(clock := s.clock + d, procs := procs))
  {
    var s' := s.(clock := s.clock + d, procs := procs);
    forall i | 0 <= i < |s'.grants| ensures s'.grants[i].from <= s'.clock && EndsByLease(s', s'.grants[i]) {
      assert EndsByLease(s, s.grants[i]);
    }
  }

  lemma StepKeepsInv(lease: real, s: System, e: Event)
    requires lease >= 0.0 && Inv(lease, s) && !Steals(s, e)
    ensures Inv(lease, Step(lease, s, e))
  {
    match e
    case Pass(d) =>
      if d >= 0.0 { PassKeepsInv(lease, s, d, s.procs); }
    case Release(p) => ReleaseKeepsInv(lease, s, p);
    case TtlDelete =>
      if Step(lease, s, e) != s { RemovalKeepsInv(lease, s); }
    case Renew(p) =>
      if Step(lease, s, e) != s { GrantKeepsInv(lease, s, p, s.procs); }
    case Attempt(p, fault) =>
      var s' := Step(lease, s, e);
      if |s'.grants| > |s.grants| {
        GrantKeepsInv(lease, s, p, s'.procs);
      } else {
        PassKeepsInv(lease, s, 0.0, s'.procs);
        assert s' == s.(clock := s.clock + 0.0, procs := s'.procs);
      }
    case Begin(_, _) => PassKeepsInv(lease, s, 0.0, Step(lease, s, e).procs);
    case Die(_) => PassKeepsInv(lease, s, 0.0, Step(lease, s, e).procs);
  }

  /** In every run without a theft, the periods granted to different processes, each running from an
      acquisition or renewal for the lease time and cut at release, never overlap. */
  lemma {:induction false} GrantsNeverOverlap(lease: real, events: seq<Event>)
    requires lease >= 0.0
    requires forall i | 0 <= i < |events| :: !Steals(Exec(lease, START, events[..i]), events[i])
    ensures Inv(lease, Exec(lease, START, events))
    ensures Disjoint(Exec(lease, START, events).grants)
  {
    if events != [] {
      var n := |events| - 1;
      forall i | 0 <= i < n ensures !Steals(Exec(lease, START, events[..n][..i]), events[..n][i]) {
        assert events[..n][..i] == events[..i];
      }
      GrantsNeverOverlap(lease, events[..n]);
      StepKeepsInv(lease, Exec(lease, START, events[..n]), events[n]);
    }
  }

  /** So at no instant have two processes been granted the right to poll. */
  lemma OneGrantAtATime(lease: real, events: seq<Event>, i: nat, j: nat, t: real)
    requires lease >= 0.0
    requires forall k | 0 <= k < |events| :: !Steals(Exec(lease, START, events[..k]), events[k])
    requires var gs := Exec(lease, START, events).grants;
             i < |gs| && j < |gs| && gs[i].from <= t < gs[i].until && gs[j].from <= t < gs[j].until
    ensures var gs := Exec(lease, START, events).grants;
            gs[i].owner == gs[j].owner
  {
    GrantsNeverOverlap(lease, events);
    AtMostOneCovers(Exec(lease, START, events).grants, i, j, t);
  }

  lemma AtMostOneCovers(gs: seq<Grant>, i: nat, j: nat, t: real)
    requires Disjoint(gs) && i < |gs| && j < |gs|
    requires gs[i].from <= t < gs[i].until && gs[j].from <= t < gs[j].until
    ensures gs[i].owner == gs[j].owner
  {
    if i < j {
    } else {
    }
  }

  /** A theft is exactly what breaks this: from a good state a step keeps the grants disjoint if and
      only if it is not a forced takeover of a live lease. */
  lemma OverlapIffStolen(lease: real, s: System, e: Event)
    requires lease >= 0.0 && Inv(lease, s)
    ensures Disjoint(Step(lease, s, e).grants) <==> !Steals(s, e)
  {
    if Steals(s, e) {
      var i :| 0 <= i < |s.grants| && BacksDoc(s.doc.value, s.grants[i]);
      var gs := Step(lease, s, e).grants;
      assert gs[i] == s.grants[i] && gs[|s.grants|] == Grant(e.p, s.clock, s.clock + lease);
      assert gs[i].owner != gs[|s.grants|].owner && gs[i].until > gs[|s.grants|].from;
    } else {
      StepKeepsInv(lease, s, e);
    }
  }

  /** A process that lost the lease changes nothing by renewing, and nothing but its own departure by
      releasing. */
  lemma LostLeaseIsHarmless(lease: real, s: System, p: string)
    requires Inv(lease, s) && !Owns(s.doc, p)
    ensures Step(lease, s, Renew(p)) == s
    ensures Step(lease, s, Release(p)).doc == s.doc
    ensures Step(lease, s, Release(p)).grants == s.grants
  {
    forall i | 0 <= i < |s.grants| ensures Cut(s.grants, p, s.clock)[i] == s.grants[i] {
      assert EndsByLease(s, s.grants[i]);
    }
  }

  /** Every acquirer's patience is known to the run. */
  lemma {:induction false} ForcedOnlyAfterDeadline(lease: real, events: seq<Event>, p: string)
    requires p in Exec(lease, START, events).procs && Exec(lease, START, events).procs[p].Waiting?
    ensures Exec(lease, START, events).procs[p].forced ==>
            Exec(lease, START, events).procs[p].deadline <= Exec(lease, START, events).clock
  {
    if events != [] {
      var s := Exec(lease, START, events[..|events| - 1]);
      if p in s.procs && s.procs[p].Waiting? {
        ForcedOnlyAfterDeadline(lease, events[..|events| - 1], p);
      }
    }
  }

  // ------------------------------------------------------------------ how long an acquirer waits

  /** The time that passes in a run. */
  function Elapsed(events: seq<Event>): real {
    if events == [] then 0.0
    else
      var e := events[|events| - 1];
      Elapsed(events[..|events| - 1]) + if e.Pass? && e.d > 0.0 then e.d else 0.0
  }

  lemma {:induction false} ClockIsElapsed(lease: real, events: seq<Event>)
    ensures Exec(lease, START, events).clock == Elapsed(events)
  {
    if events != [] {
      ClockIsElapsed(lease, events[..|events| - 1]);
    }
  }

  /** A process waits since the call that began it, five seconds at least. */
  lemma {:induction false} WaitsSinceBegin(lease: real, events: seq<Event>, p: string) returns (b: nat)
    requires p in Exec(lease, START, events).procs && Exec(lease, START, events).procs[p].Waiting?
    ensures b < |events| && events[b].Begin? && events[b].p == p
    ensures var w := events[b].waitSeconds;
            Exec(lease, START, events).procs[p].deadline == Elapsed(events[..b]) + if w > 5.0 then w else 5.0
  {
    var n := |events| - 1;
    var s := Exec(lease, START, events[..n]);
    if p in s.procs && s.procs[p].Waiting? {
      b := WaitsSinceBegin(lease, events[..n], p);
      assert events[..n][..b] == events[..b];
    } else {
      b := n;
      ClockIsElapsed(lease, events[..n]);
    }
  }

  /** Force is used only after the whole wait: p has waited since its call for as long as it was told to. */
  lemma ForceTakesPatience(lease: real, events: seq<Event>, p: string) returns (b: nat)
    requires p in Exec(lease, START, events).procs && Exec(lease, START, events).procs[p].Waiting?
    ensures b < |events| && events[b].Begin? && events[b].p == p
    ensures Exec(lease, START, events).procs[p].forced ==>
              Elapsed(events) - Elapsed(events[..b]) >= MaxReal(5.0, events[b].waitSeconds)
  {
    hide Exec, Elapsed;
    b := WaitsSinceBegin(lease, events, p);
    ForcedOnlyAfterDeadline(lease, events, p);
    ClockIsElapsed(lease, events);
  }

  predicate Concerns(e: Event, p: string) {
    match e
    case Begin(q, _) => p == q
    case Attempt(q, _) => p == q
    case Renew(q) => p == q
    case Release(q) => p == q
    case Die(q) => p == q
    case _ => false
  }

  lemma {:induction false} OthersLeaveProcess(lease: real, s: System, more: seq<Event>, p: string)
    requires forall e | e in more :: !Concerns(e, p)
    ensures p in s.procs ==> p in Exec(lease, s, more).procs && Exec(lease, s, more).procs[p] == s.procs[p]
  {
    if more != [] {
      OthersLeaveProcess(lease, s, more[..|more| - 1], p);
      assert !Concerns(more[|more| - 1], p);
    }
  }

  /** And then it does get in. Once p has waited its time, its next attempt gets the lease or is the last
      without force; and the next one that reaches the store after that gets it, whatever all others do and
      whoever holds the lease. Only an error in the forced attempt makes it give up. */
  lemma WaiterGetsIn(lease: real, s: System, p: string, fault: bool, more: seq<Event>)
    requires p in s.procs && s.procs[p].Waiting? && s.clock >= s.procs[p].deadline
    requires forall e | e in more :: !Concerns(e, p)
    ensures var s1 := Step(lease, s, Attempt(p, fault));
            if Polls(s1, p) then !fault
            else if s1.procs[p].Gone? then fault && s.procs[p].forced
            else Polls(Step(lease, Exec(lease, s1, more), Attempt(p, false)), p)
  {
    OthersLeaveProcess(lease, Step(lease, s, Attempt(p, fault)), more, p);
  }

  /** From its call on: a newcomer that waits for the time given, five seconds at least, needs two more
      attempts at most, whatever becomes of the first. */
  lemma NewcomerGetsIn(lease: real, s: System, p: string, w: real, before: seq<Event>, fault: bool, more: seq<Event>)
    requires p !in s.procs && forall e | e in before || e in more :: !Concerns(e, p)
    requires var s1 := Exec(lease, Step(lease, s, Begin(p, w)), before);
             s1.clock - s.clock >= w && s1.clock - s.clock >= 5.0
    ensures var s1 := Exec(lease, Step(lease, s, Begin(p, w)), before);
            var s2 := Step(lease, s1, Attempt(p, fault));
            Polls(s2, p) || Polls(Step(lease, Exec(lease, s2, more), Attempt(p, false)), p)
  {
    hide Concerns;
    var s1 := Exec(lease, Step(lease, s, Begin(p, w)), before);
    OthersLeaveProcess(lease, Step(lease, s, Begin(p, w)), before, p);
    WaiterGetsIn(lease, s1, p, fault, more);
  }

  /** Before that time it gets in exactly when it finds no live lease of somebody else, and stays as it is if
      it does not. */
  lemma EarlyAttemptIff(lease: real, s: System, p: string, fault: bool)
    requires p in s.procs && s.procs[p].Waiting? && s.clock < s.procs[p].deadline && !s.procs[p].forced
    ensures var live := s.doc.Some? && s.doc.value.expiresAt.Some? && s.doc.value.expiresAt.value > s.clock;
            var s1 := Step(lease, s, Attempt(p, fault));
            if fault || (live && s.doc.value.owner != p) then s1 == s
            else Polls(s1, p) && s1.doc == Some(Doc(p, Some(s.clock + lease)))
  {
  }

  /** A process that died or released the lease never polls again, and nothing is done in its name. */
  lemma GoneForGood(lease: real, s: System, p: string, more: seq<Event>, e: Event)
    requires p in s.procs && Concerns(e, p)
    ensures var s' := Exec(lease, Step(lease, s, Die(p)), more); !Polls(s', p) && Step(lease, s', e) == s'
    ensures Polls(s, p) ==>
              var s' := Exec(lease, Step(lease, s, Release(p)), more); !Polls(s', p) && Step(lease, s', e) == s'
  {
    GoneStays(lease, Step(lease, s, Die(p)), more, p, e);
    if Polls(s, p) {
      GoneStays(lease, Step(lease, s, Release(p)), more, p, e);
    }
  }

  lemma {:induction false} GoneStays(lease: real, s: System, more: seq<Event>, p: string, e: Event)
    requires p in s.procs && s.procs[p].Gone? && Concerns(e, p)
    ensures var s' := Exec(lease, s, more);
            p in s'.procs && s'.procs[p].Gone? && Step(lease, s', e) == s'
  {
    if more != [] {
      GoneStays(lease, s, more[..|more| - 1], p, e);
    }
  }

  /** The store's own deletion takes an expired document and no other, and nobody's attempt can tell: only
      the renewal of the expired owner comes to nothing. */
  lemma DeletionIsInvisible(lease: real, s: System, p: string, fault: bool)
    requires s.doc.Some? && s.doc.value.expiresAt.Some?
    ensures var s1 := Step(lease, s, TtlDelete);
            && (s1.doc.None? <==> s.clock >= s.doc.value.expiresAt.value) && (s1.doc.Some? ==> s1 == s)
            && s1.procs == s.procs && s1.grants == s.grants && s1.clock == s.clock
            && Step(lease, s1, Attempt(p, fault)).procs == Step(lease, s, Attempt(p, fault)).procs
            && Step(lease, s1, Attempt(p, fault)).grants == Step(lease, s, Attempt(p, fault)).grants
            && (s1 != s && Polls(s, p) && Owns(s.doc, p) ==>
                  && Step(lease, s1, Renew(p)) == s1
                  && Step(lease, s, Renew(p)).doc == Some(Doc(p, Some(s.clock + lease))))
  {
  }

  predicate ForcedAttempt(s: System, e: Event, p: string) {
    e.Attempt? && e.p == p && p in s.procs && s.procs[p].Waiting? && s.procs[p].forced
  }

  function ForcedAttempts(lease: real, events: seq<Event>, p: string): nat {
    if events == [] then 0
    else
      ForcedAttempts(lease, events[..|events| - 1], p) +
      if ForcedAttempt(Exec(lease, START, events[..|events| - 1]), events[|events| - 1], p) then 1 else 0
  }

  /** Force is used at most once per acquirer: the attempt that uses it settles the matter. */
  lemma {:induction false} ForcedAtMostOnce(lease: real, events: seq<Event>, p: string)
    ensures ForcedAttempts(lease, events, p) <= 1
    ensures ForcedAttempts(lease, events, p) == 1 ==>
      p in Exec(lease, START, events).procs && !Exec(lease, START, events).procs[p].Waiting?
  {
    if events != [] {
      var most := events[..|events| - 1];
      ForcedAtMostOnce(lease, most, p);
      var s := Exec(lease, START, most);
      if ForcedAttempt(s, events[|events| - 1], p) {
        ForcedOnlyAfterDeadline(lease, most, p);
      }
    }
  }

  // ------------------------------------------------------------------ who polls

  /** No two processes poll. Nothing stops a process that polls when its lease runs out: the renewer
      neither looks whether its update matched nor passes an error on. */
  ghost predicate SinglePoller(s: System) {
    forall p, q | Polls(s, p) && Polls(s, q) :: p == q
  }

  predicate Polls(s: System, p: string) {
    p in s.procs && s.procs[p].Polling?
  }

  /** Process p has neither acquired nor renewed a lease within the last `lease` seconds. */
  predicate Lapsed(lease: real, s: System, p: string) {
    forall i | 0 <= i < |s.grants| && s.grants[i].owner == p :: s.grants[i].from + lease <= s.clock
  }

  /** An attempt that reaches the store while another process polls, and either uses force or comes after
      that process has let its lease lapse. */
  ghost predicate Overtakes(lease: real, s: System, e: Event) {
    && e.Attempt? && !e.fault && e.p in s.procs && s.procs[e.p].Waiting?
    && exists q :: Polls(s, q) && (s.procs[e.p].forced || Lapsed(lease, s, q))
  }

  /** Some grant of p, the latest one, began `lease` before the document expires. */
  predicate Backed(lease: real, s: System, p: string, i: nat) {
    && i < |s.grants| && s.grants[i].owner == p
    && s.doc == Some(Doc(p, Some(s.grants[i].from + lease)))
  }

  /** While nobody has been overtaken, a process that polls either holds the document, which expires
      `lease` after its last grant, or its lease has lapsed and the document is gone. */
  ghost predicate Held(lease: real, s: System, p: string) {
    && (forall i | 0 <= i < |s.grants| :: s.grants[i].from <= s.clock)
    && (if s.doc.None? then Lapsed(lease, s, p)
        else
          && (exists i: nat :: Backed(lease, s, p, i))
          && (forall i | 0 <= i < |s.grants| && s.grants[i].owner == p ::
                s.grants[i].from + lease <= s.doc.value.expiresAt.value))
  }

  /** What the runs keep: grants lie in the past, leases run for `lease`, and one process polls at most. */
  ghost predicate Orderly(lease: real, s: System) {
    && SinglePoller(s)
    && (forall i | 0 <= i < |s.grants| :: s.grants[i].from <= s.clock)
    && (s.doc.Some? ==> s.doc.value.expiresAt.Some?)
    && (s.doc.Some? ==> s.doc.value.owner in s.procs && !s.procs[s.doc.value.owner].Waiting?)
    && (forall p | Polls(s, p) :: Held(lease, s, p))
  }

  lemma HeldDocument(lease: real, s: System, p: string)
    requires Held(lease, s, p) && s.doc.Some?
    ensures s.doc.value.owner == p && s.doc.value.expiresAt.Some?
    ensures Lapsed(lease, s, p) <==> s.doc.value.expiresAt.value <= s.clock
  {
    var i: nat :| Backed(lease, s, p, i);
  }

  /** In an orderly state an attempt gets the lease while another process polls exactly when it overtakes. */
  lemma WinsOverPollerIff(lease: real, s: System, e: Event, q: string)
    requires Orderly(lease, s) && Polls(s, q)
    requires e.Attempt? && !e.fault && e.p in s.procs && s.procs[e.p].Waiting?
    ensures Polls(Step(lease, s, e), e.p) <==> s.procs[e.p].forced || Lapsed(lease, s, q)
    ensures Polls(Step(lease, s, e), e.p) <==> Overtakes(lease, s, e)
  {
    hide Lapsed;
    if s.doc.Some? {
      HeldDocument(lease, s, q);
    }
  }

  lemma FewerPollers(s: System, s': System)
    requires SinglePoller(s) && forall p | Polls(s', p) :: Polls(s, p)
    ensures SinglePoller(s')
  {
  }

  lemma AttemptKeepsOrderly(lease: real, s: System, e: Event)
    requires lease >= 0.0 && Orderly(lease, s) && e.Attempt? && !Overtakes(lease, s, e)
    ensures Orderly(lease, Step(lease, s, e))
  {
    var s' := Step(lease, s, e);
    if |s'.grants| > |s.grants| {
      forall q ensures !Polls(s, q) {
        if Polls(s, q) {
          WinsOverPollerIff(lease, s, e, q);
        }
      }
      assert Backed(lease, s', e.p, |s.grants|);
      forall p | Polls(s', p) ensures p == e.p && Held(lease, s', p) {
        assert !Polls(s, p);
      }
    } else {
      FewerPollers(s, s');
      forall p | Polls(s', p) ensures Held(lease, s', p) {
        assert Polls(s, p) && Held(lease, s, p);
        if s.doc.Some? {
          var i: nat :| Backed(lease, s, p, i);
          assert Backed(lease, s', p, i);
        }
      }
    }
  }

  lemma RenewKeepsOrderly(lease: real, s: System, p: string)
    requires lease >= 0.0 && Orderly(lease, s)
    ensures Orderly(lease, Step(lease, s, Renew(p)))
  {
    var s' := Step(lease, s, Renew(p));
    if s' != s {
      assert Backed(lease, s', p, |s.grants|);
      forall q | Polls(s', q) ensures Held(lease, s', q) {
        assert Polls(s, q) && Held(lease, s, q);
        HeldDocument(lease, s, q);
      }
    }
  }

  lemma QuietKeepsOrderly(lease: real, s: System, e: Event)
    requires lease >= 0.0 && Orderly(lease, s) && (e.Pass? || e.Begin? || e.Die?)
    ensures Orderly(lease, Step(lease, s, e))
  {
    var s' := Step(lease, s, e);
    FewerPollers(s, s');
    forall p | Polls(s', p) ensures Held(lease, s', p) {
      assert Polls(s, p) && Held(lease, s, p);
      if s.doc.Some? {
        var i: nat :| Backed(lease, s, p, i);
        assert Backed(lease, s', p, i);
      }
    }
  }

  lemma ReleaseKeepsOrderly(lease: real, s: System, p: string)
    requires lease >= 0.0 && Orderly(lease, s)
    ensures Orderly(lease, Step(lease, s, Release(p)))
  {
    var s' := Step(lease, s, Release(p));
    if s' != s {
      FewerPollers(s, s');
      forall q ensures !Polls(s', q) {
        assert Polls(s, q) && Polls(s, p) ==> q == p;
      }
      forall i | 0 <= i < |s'.grants| ensures s'.grants[i].from <= s'.clock {
        assert s'.grants[i].from == s.grants[i].from;
      }
    }
  }

  lemma TtlKeepsOrderly(lease: real, s: System)
    requires lease >= 0.0 && Orderly(lease, s)
    ensures Orderly(lease, Step(lease, s, TtlDelete))
  {
    var s' := Step(lease, s, TtlDelete);
    if s' != s {
      FewerPollers(s, s');
      forall p | Polls(s', p) ensures Held(lease, s', p) {
        assert Polls(s, p) && Held(lease, s, p);
        HeldDocument(lease, s, p);
      }
    }
  }

  lemma StepOrderlyIff(lease: real, s: System, e: Event)
    requires lease >= 0.0 && Orderly(lease, s)
    ensures !Overtakes(lease, s, e) ==> Orderly(lease, Step(lease, s, e))
    ensures Overtakes(lease, s, e) ==> !SinglePoller(Step(lease, s, e))
  {
    if Overtakes(lease, s, e) {
      var q :| Polls(s, q) && (s.procs[e.p].forced || Lapsed(lease, s, q));
      WinsOverPollerIff(lease, s, e, q);
      assert Polls(Step(lease, s, e), e.p) && Polls(Step(lease, s, e), q);
    } else {
      match e
      case Attempt(_, _) => AttemptKeepsOrderly(lease, s, e);
      case Renew(p) => RenewKeepsOrderly(lease, s, p);
      case Release(p) => ReleaseKeepsOrderly(lease, s, p);
      case TtlDelete => TtlKeepsOrderly(lease, s);
      case _ => QuietKeepsOrderly(lease, s, e);
    }
  }

  /** At every moment of the run at most one process polls. */
  ghost predicate AlwaysSingle(lease: real, events: seq<Event>) {
    forall n | 0 <= n <= |events| :: SinglePoller(Exec(lease, START, events[..n]))
  }

  /** Nobody is overtaken: no attempt reaches the store while another process polls whose lease has lapsed,
      or by force while another process polls at all. */
  ghost predicate NobodyOvertaken(lease: real, events: seq<Event>) {
    forall i | 0 <= i < |events| :: !Overtakes(lease, Exec(lease, START, events[..i]), events[i])
  }

  lemma {:induction false} NobodyOvertakenIsOrderly(lease: real, events: seq<Event>)
    requires lease >= 0.0 && NobodyOvertaken(lease, events)
    ensures Orderly(lease, Exec(lease, START, events))
  {
    if events != [] {
      hide Orderly, Overtakes, Step;
      var n := |events| - 1;
      forall i | 0 <= i < n ensures !Overtakes(lease, Exec(lease, START, events[..n][..i]), events[..n][i]) {
        assert events[..n][..i] == events[..i];
      }
      NobodyOvertakenIsOrderly(lease, events[..n]);
      StepOrderlyIff(lease, Exec(lease, START, events[..n]), events[n]);
    }
  }

  /** The first overtaking, if there is one. */
  lemma FirstOvertaking(lease: real, events: seq<Event>) returns (i: nat)
    requires !NobodyOvertaken(lease, events)
    ensures i < |events| && Overtakes(lease, Exec(lease, START, events[..i]), events[i])
    ensures NobodyOvertaken(lease, events[..i])
  {
    hide Overtakes, Exec;
    i := 0;
    while !Overtakes(lease, Exec(lease, START, events[..i]), events[i])
      invariant i < |events|
      invariant forall j | 0 <= j < i :: !Overtakes(lease, Exec(lease, START, events[..j]), events[j])
      decreases |events| - i
    {
      i := i + 1;
    }
    forall j | 0 <= j < i ensures !Overtakes(lease, Exec(lease, START, events[..i][..j]), events[..i][j]) {
      assert events[..i][..j] == events[..j];
    }
  }

  /** One poller at a time, exactly: in a run no two processes ever poll together if and only if no attempt
      reaches the store while another process polls that has not renewed for `lease` seconds, and no forced
      one while another process polls at all. */
  lemma OnePollerIff(lease: real, events: seq<Event>)
    requires lease >= 0.0
    ensures AlwaysSingle(lease, events) <==> NobodyOvertaken(lease, events)
  {
    hide Orderly, Overtakes, Step, Exec;
    if NobodyOvertaken(lease, events) {
      forall n | 0 <= n <= |events| ensures SinglePoller(Exec(lease, START, events[..n])) {
        forall i | 0 <= i < n ensures !Overtakes(lease, Exec(lease, START, events[..n][..i]), events[..n][i]) {
          assert events[..n][..i] == events[..i];
        }
        NobodyOvertakenIsOrderly(lease, events[..n]);
        OrderlyIsSingle(lease, Exec(lease, START, events[..n]));
      }
    } else {
      var i := FirstOvertaking(lease, events);
      NobodyOvertakenIsOrderly(lease, events[..i]);
      StepOrderlyIff(lease, Exec(lease, START, events[..i]), events[i]);
      ExecOneMore(lease, events, i);
      assert !SinglePoller(Exec(lease, START, events[..i + 1]));
    }
  }

  lemma OrderlyIsSingle(lease: real, s: System)
    requires Orderly(lease, s)
    ensures SinglePoller(s)
  {
  }

  lemma ExecOneMore(lease: real, events: seq<Event>, i: nat)
    requires i < |events|
    ensures Exec(lease, START, events[..i + 1]) == Step(lease, Exec(lease, START, events[..i]), events[i])
  {
    assert events[..i + 1][..i] == events[..i];
  }

  /** No force is needed for two processes to poll: from every orderly state, a poller that has not renewed
      for `lease` seconds is joined by the next attempt that reaches the store. */
  lemma LapsedPollerIsJoined(lease: real, s: System, q: string, p: string)
    requires Orderly(lease, s) && Polls(s, q) && Lapsed(lease, s, q)
    requires p in s.procs && s.procs[p].Waiting?
    ensures Polls(Step(lease, s, Attempt(p, false)), p) && Polls(Step(lease, s, Attempt(p, false)), q)
  {
    WinsOverPollerIff(lease, s, Attempt(p, false), q);
  }
}
