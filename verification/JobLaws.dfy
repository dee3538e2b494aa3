/** What the calls of lumen/platform/jobs.py mean for a job and for what is listed: whose job a call may
    touch, which status it leaves, what a run leaves behind, and which jobs are admitted and shown. */
module JobLaws {
  import opened Prelude
  import opened Jobs

  // ------------------------------------------------------------------ control calls

  predicate IsControl(c: Call) {
    c.Cancel? || c.Pause? || c.Resume? || c.Steer?
  }

  /** A call that names a tenant touches no other tenant's jobs, and no call touches a job it does not name. */
  lemma CallsRespectOwners(s: RedisState, c: Call)
    requires !c.Create?
    ensures IsControl(c) && c.id in s.hashes && c.who.Some? && c.who.value != ""
            && c.who.value != s.hashes[c.id].tenant ==>
              RedisApply(s, c) == s
    ensures c.id !in s.hashes ==> RedisApply(s, c) == s
    ensures RedisApply(s, c).hashes.Keys == s.hashes.Keys && RedisApply(s, c).lists == s.lists
    ensures forall id | id in s.hashes && id != c.id :: RedisApply(s, c).hashes[id] == s.hashes[id]
    ensures c.id in s.hashes ==>
              && RedisApply(s, c).hashes[c.id].tenant == s.hashes[c.id].tenant
              && RedisApply(s, c).hashes[c.id].kind == s.hashes[c.id].kind
  {
    hide Prefix, LastTwenty, Strip;
  }

  /** The caller names nobody, or the job's tenant. */
  predicate MayTouch(c: Call, j: Job)
    requires IsControl(c)
  {
    c.who.None? || c.who.value == "" || c.who.value == j.tenant
  }

  /** The status a control call leaves: cancelled and paused from queued or running (cancelled from paused
      too), back to running or, if the job never started, to queued from paused, and otherwise what it was.
      Nothing else of the job changes but its message, which names the user's act, and on a cancel the time
      it finished. */
  lemma ControlLeavesStatus(s: RedisState, c: Call)
    requires (c.Cancel? || c.Pause? || c.Resume?) && c.id in s.hashes
    ensures var j, j' := s.hashes[c.id], RedisApply(s, c).hashes[c.id];
            && j'.status == (match c
                             case Cancel(_, _, _) =>
                               if MayTouch(c, j) && j.status in {Queued, Running, Paused} then Cancelled else j.status
                             case Pause(_, _) =>
                               if MayTouch(c, j) && j.status in {Queued, Running} then Paused else j.status
                             case Resume(_, _) =>
                               if !(MayTouch(c, j) && j.status == Paused) then j.status
                               else if j.startedAt == 0.0 then Queued else Running)
            && j'.result == j.result && j'.error == j.error && j'.progress == j.progress && j'.startedAt == j.startedAt
            && j'.finishedAt == (if c.Cancel? && j'.status != j.status then c.now else j.finishedAt)
            && (j'.status == j.status ==> j' == j)
            && (j'.status != j.status ==>
                  j'.message == if c.Cancel? then "cancelled_by_user" else if c.Pause? then "paused_by_user"
                                else "resumed_by_user")
  {
  }

  /** A pause followed by a resume gives a job that was running back as it was, apart from its message. */
  lemma ResumeUndoesPause(s: RedisState, id: string, who: Option<string>)
    requires id in s.hashes && MayTouch(Pause(id, who), s.hashes[id])
    requires s.hashes[id].status == if s.hashes[id].startedAt != 0.0 then Running else Queued
    ensures var j' := RedisApply(RedisApply(s, Pause(id, who)), Resume(id, who)).hashes[id];
            j' == s.hashes[id].(message := j'.message)
  {
    ControlLeavesStatus(s, Pause(id, who));
    ControlLeavesStatus(RedisApply(s, Pause(id, who)), Resume(id, who));
    CallsRespectOwners(s, Pause(id, who));
    CallsRespectOwners(RedisApply(s, Pause(id, who)), Resume(id, who));
    hide RedisApply;
  }

  // ------------------------------------------------------------------ steering

  /** The texts that a sequence of steers leaves on a job, oldest first: trimmed, without the blank ones, and
      each cut to 2000 characters. */
  function Steered(calls: seq<Call>): seq<Note>
    requires forall c | c in calls :: c.Steer?
  {
    if calls == [] then []
    else
      var c, text := calls[|calls| - 1], Strip(calls[|calls| - 1].text);
      Steered(calls[..|calls| - 1])
      + if text == "" then [] else [Note(c.now, if |text| > 2000 then text[..2000] else text)]
  }

  function LastOf<T>(s: seq<T>, n: nat): seq<T> {
    if |s| > n then s[|s| - n..] else s
  }

  lemma LastOfLast<T>(s: seq<T>, x: T, n: nat)
    requires n > 0
    ensures LastOf(LastOf(s, n) + [x], n) == LastOf(s + [x], n)
  {
    assert LastOf(s, n) + [x] == LastOf(s + [x], n + 1);
  }

  /** A job that is not over carries the last twenty notes it was ever steered with, and its body, status and
      everything else but its message is left alone. */
  lemma {:induction false} SteersKeepLastTwenty(s: RedisState, calls: seq<Call>, id: string)
    requires id in s.hashes && !s.hashes[id].status.Terminal() && |s.hashes[id].result.notes| <= 20
    requires forall c | c in calls :: c.Steer? && c.id == id && MayTouch(c, s.hashes[id])
    ensures var s' := RedisRun(s, calls);
            && id in s'.hashes
            && var j, j' := s.hashes[id], s'.hashes[id];
               && j'.result.notes == LastOf(j.result.notes + Steered(calls), 20)
               && j' == j.(result := j.result.(notes := j'.result.notes), message := j'.message)
  {
    hide Strip, Prefix;
    if calls != [] {
      var most, c := calls[..|calls| - 1], calls[|calls| - 1];
      assert c in calls;
      SteersKeepLastTwenty(s, most, id);
      SteerOnce(RedisRun(s, most), c);
      var notes := s.hashes[id].result.notes + Steered(most);
      if Strip(c.text) != "" {
        var note := Note(c.now, if |Strip(c.text)| > 2000 then Strip(c.text)[..2000] else Strip(c.text));
        LastOfLast(notes, note, 20);
        assert s.hashes[id].result.notes + Steered(calls) == notes + [note];
      } else {
        assert Steered(calls) == Steered(most);
      }
      hide RedisApply, LastOf;
    } else {
      assert s.hashes[id].result.notes + [] == s.hashes[id].result.notes;
    }
  }

  lemma SteerOnce(s: RedisState, c: Call)
    requires c.Steer? && c.id in s.hashes && !s.hashes[c.id].status.Terminal() && MayTouch(c, s.hashes[c.id])
    ensures var j, j', text := s.hashes[c.id], RedisApply(s, c).hashes[c.id], Strip(c.text);
            && j' == j.(result := j.result.(notes := j'.result.notes), message := j'.message)
            && (text == "" ==> j' == j)
            && (text != "" ==>
                  var note := if |text| > 2000 then text[..2000] else text;
                  && j'.result.notes == LastOf(j.result.notes + [Note(c.now, note)], 20)
                  && j'.message == "steer:" + if |text| > 120 then text[..120] else text)
  {
    hide Strip;
  }

  // ------------------------------------------------------------------ what a run leaves behind

  /** Progress reports come from the run itself. */
  predicate FromRun(c: Call, id: string) {
    (c.StartRun? || c.FinishRun? || c.Progress?) && c.id == id
  }

  /** A handled run of a known job leaves its outcome: the handler's result, the error and message it
      reported, when it started and when it finished, and whatever calls come after, no steer among them
      reaches it any more. */
  lemma RunLeavesItsOutcome(s: RedisState, id: string, ending: Ending, startedAt: real, finishedAt: real,
          after: seq<Call>)
    requires id in s.hashes && forall c | c in after :: !FromRun(c, id)
    ensures var ran := RedisApply(RedisApply(s, StartRun(id, true, startedAt)), FinishRun(id, ending, finishedAt));
            var s' := RedisRun(ran, after);
            && id in s'.hashes
            && var j, j' := s.hashes[id], s'.hashes[id];
               && j'.startedAt == startedAt && j'.finishedAt == finishedAt && j'.progress == 1.0
               && match ending
                  case Ok(result) =>
                    j'.status == Succeeded && j'.result == result && j'.error == j.error && j'.message == "done"
                  case ReportedFailure(result, message, error) =>
                    j'.status == Failed && j'.result == result && j'.error == error && j'.message == message
                  case Raised(error) =>
                    && j'.status == Failed && j'.result == Payload([], "job_failed")
                    && j'.error == error && j'.message == "failed"
  {
    var ran := RedisApply(RedisApply(s, StartRun(id, true, startedAt)), FinishRun(id, ending, finishedAt));
    OverIsFrozen(ran, after, id);
    hide RedisRun;
  }

  /** Nothing but its own runs changes a job that is over, in any field. */
  lemma {:induction false} OverIsFrozen(s: RedisState, calls: seq<Call>, id: string)
    requires id in s.hashes && s.hashes[id].status.Terminal() && forall c | c in calls :: !FromRun(c, id)
    ensures id in RedisRun(s, calls).hashes && RedisRun(s, calls).hashes[id] == s.hashes[id]
  {
    hide Strip, Prefix, LastTwenty, Pushed;
    if calls != [] {
      OverIsFrozen(s, calls[..|calls| - 1], id);
      assert calls[|calls| - 1] in calls;
    }
  }

  /** Without a handler the run fails at once and says so; while a run is under way the job is running since
      the moment it started, and progress reports change progress and message only. */
  lemma RunUnderWay(s: RedisState, id: string, now: real, amount: real, message: string)
    requires id in s.hashes
    ensures var j := s.hashes[id];
            && RedisApply(s, StartRun(id, true, now)).hashes[id] ==
               j.(status := Running, startedAt := now, progress := 0.05, message := "running")
            && RedisApply(s, StartRun(id, false, now)).hashes[id] ==
               j.(status := Failed, finishedAt := now, error := "no_handler")
            && RedisApply(s, Progress(id, amount, message)).hashes[id] == j.(progress := amount, message := message)
  {
  }

  // ------------------------------------------------------------------ admission

  predicate OccupiesAt(s: RedisState, ids: seq<string>, i: nat)
    requires i < |ids|
  {
    ids[i] in s.hashes && s.hashes[ids[i]].status in {Queued, Running}
  }

  /** How many of the ids name a job that waits or runs. */
  ghost function WaitingOrRunning(s: RedisState, ids: seq<string>): nat {
    |set i: nat | i < |ids| && OccupiesAt(s, ids, i)|
  }

  lemma {:induction false} BusyCounts(s: RedisState, ids: seq<string>)
    ensures Busy(s.hashes, ids) == WaitingOrRunning(s, ids)
  {
    if ids != [] {
      BusyCounts(s, ids[..|ids| - 1]);
      OneMoreOccupies(s, ids);
    }
  }

  lemma OneMoreOccupies(s: RedisState, ids: seq<string>)
    requires ids != []
    ensures var n := |ids| - 1;
            WaitingOrRunning(s, ids) == WaitingOrRunning(s, ids[..n]) + if OccupiesAt(s, ids, n) then 1 else 0
  {
    var n, most := |ids| - 1, ids[..|ids| - 1];
    var now := set i: nat | i < |ids| && OccupiesAt(s, ids, i);
    var before := set i: nat | i < |most| && OccupiesAt(s, most, i);
    forall i: nat | i < n ensures OccupiesAt(s, ids, i) <==> OccupiesAt(s, most, i) {}
    hide OccupiesAt;
    assert now == before + if OccupiesAt(s, ids, n) then {n} else {};
  }

  /** A job is admitted exactly if its kind is known, its tenant has a name, its input is small enough, and
      neither cap is reached: all jobs that are not over against the one, and against the other the jobs that
      wait or run among the hundred newest listed under the name given. A cap of zero is no cap. */
  lemma AdmittedIff(s: RedisState, caps: Caps, tenant: string, known: bool, size: nat)
    requires Indexed(s)
    ensures var listed := if tenant in s.lists then s.lists[tenant] else [];
            Admit(s, caps, tenant, known, size).Admitted? <==>
            && known && Strip(tenant) != "" && size <= caps.inputBytes
            && (caps.queuedGlobal == 0 || |LiveIds(s.hashes)| < caps.queuedGlobal)
            && (caps.queuedTenant == 0
                || WaitingOrRunning(s, listed[..Min(100, |listed|)]) < caps.queuedTenant)
  {
    var listed := if tenant in s.lists then s.lists[tenant] else [];
    BusyCounts(s, listed[..Min(100, |listed|)]);
    assert |listed| <= 100 ==> listed[..Min(100, |listed|)] == listed;
    StripOfNothing();
    hide Strip, Busy, LiveIds;
  }

  lemma StripOfNothing()
    ensures Strip("") == ""
  {
  }

  // ------------------------------------------------------------------ what is listed

  /** The jobs that a run of calls creates for a tenant, oldest first. */
  function Created(s: RedisState, calls: seq<Call>, tenant: string): seq<string> {
    if calls == [] then []
    else
      var most, c := calls[..|calls| - 1], calls[|calls| - 1];
      Created(s, most, tenant)
      + if c.Create? && c.id !in RedisRun(s, most).hashes && Strip(c.tenant) == tenant then [c.id] else []
  }

  function Newest(ids: seq<string>, n: nat): seq<string> {
    seq(Min(n, |ids|), i requires 0 <= i < Min(n, |ids|) => ids[|ids| - 1 - i])
  }

  lemma NewestPushed(ids: seq<string>, id: string)
    ensures var list := [id] + Newest(ids, 100);
            Newest(ids + [id], 100) == if |list| > 100 then list[..100] else list
  {
  }

  lemma OneCallListed(s: RedisState, c: Call, tenant: string)
    ensures var list := [c.id] + Ids(s.lists, tenant);
            Ids(RedisApply(s, c).lists, tenant) ==
            if !(c.Create? && c.id !in s.hashes && Strip(c.tenant) == tenant) then Ids(s.lists, tenant)
            else if |list| > 100 then list[..100] else list
  {
    hide Strip;
    if c.Create? {
      if c.id !in s.hashes {
        assert RedisApply(s, c).lists == Pushed(s.lists, Strip(c.tenant), c.id);
      }
    } else {
      CallsRespectOwners(s, c);
      hide RedisApply;
    }
  }

  /** A tenant's list is the hundred jobs created last for it, newest first. */
  lemma {:induction false} ListIsNewest(calls: seq<Call>, tenant: string)
    ensures var s := RedisRun(RedisState(map[], {}, map[]), calls);
            Ids(s.lists, tenant) == Newest(Created(RedisState(map[], {}, map[]), calls, tenant), 100)
  {
    if calls != [] {
      hide Strip, Newest, RedisApply, Ids;
      var most, c := calls[..|calls| - 1], calls[|calls| - 1];
      ListIsNewest(most, tenant);
      OneCallListed(RedisRun(RedisState(map[], {}, map[]), most), c, tenant);
      NewestPushed(Created(RedisState(map[], {}, map[]), most, tenant), c.id);
    } else {
      assert Newest([], 100) == [];
    }
  }

  /** Created jobs stay known. */
  lemma {:induction false} CreatedAreKnown(calls: seq<Call>, tenant: string)
    ensures var start := RedisState(map[], {}, map[]);
            forall id | id in Created(start, calls, tenant) :: id in RedisRun(start, calls).hashes
  {
    if calls != [] {
      var most, c := calls[..|calls| - 1], calls[|calls| - 1];
      CreatedAreKnown(most, tenant);
      KnownStayKnown(RedisRun(RedisState(map[], {}, map[]), most), c);
      hide Strip, RedisApply;
    }
  }

  /** A new job is queued, and has not started. */
  lemma KnownStayKnown(s: RedisState, c: Call)
    ensures s.hashes.Keys <= RedisApply(s, c).hashes.Keys
    ensures c.Create? ==> c.id in RedisApply(s, c).hashes
    ensures c.Create? && c.id !in s.hashes ==>
              RedisApply(s, c).hashes == s.hashes[c.id := Job(Strip(c.tenant), c.kind, Queued, 0.0, 0.0, 0.0,
                  c.message, Payload([], ""), "")]
  {
    if !c.Create? {
      CallsRespectOwners(s, c);
      hide RedisApply;
    }
  }

  lemma {:induction false} LookupAll(jobs: map<string, Job>, ids: seq<string>)
    requires forall id | id in ids :: id in jobs
    ensures |Lookup(jobs, ids)| == |ids| && forall i | 0 <= i < |ids| :: Lookup(jobs, ids)[i] == jobs[ids[i]]
  {
    if ids != [] {
      LookupAll(jobs, ids[..|ids| - 1]);
    }
  }

  lemma ListedNewest(s: RedisState, tenant: string, created: seq<string>, limit: int)
    requires limit >= 1 && Ids(s.lists, tenant) == Newest(created, 100) && forall id | id in created :: id in s.hashes
    ensures var shown := RedisList(s, tenant, limit);
            && |shown| == Min(limit, Min(100, |created|))
            && forall i | 0 <= i < |shown| ::
                 created[|created| - 1 - i] in s.hashes && shown[i] == s.hashes[created[|created| - 1 - i]]
  {
    var ids := Newest(created, 100);
    var cut := if limit < |ids| then ids[..limit] else ids;
    assert RedisList(s, tenant, limit) == Lookup(s.hashes, cut);
    hide RedisList, Lookup;
    forall i | 0 <= i < |cut| ensures cut[i] == created[|created| - 1 - i] && cut[i] in s.hashes {
      assert created[|created| - 1 - i] in created;
    }
    LookupAll(s.hashes, cut);
  }

  /** So a listing with a limit of at least one shows the newest jobs of the tenant, newest first, as many as
      the limit and the hundred kept allow. */
  lemma ListingShowsNewest(calls: seq<Call>, tenant: string, limit: int)
    requires limit >= 1
    ensures var start := RedisState(map[], {}, map[]);
            var s, created := RedisRun(start, calls), Created(start, calls, tenant);
            var shown := RedisList(s, tenant, limit);
            && |shown| == Min(limit, Min(100, |created|))
            && forall i | 0 <= i < |shown| ::
                 created[|created| - 1 - i] in s.hashes && shown[i] == s.hashes[created[|created| - 1 - i]]
  {
    var start := RedisState(map[], {}, map[]);
    var s, created := RedisRun(start, calls), Created(start, calls, tenant);
    ListIsNewest(calls, tenant);
    CreatedAreKnown(calls, tenant);
    hide RedisRun, Created;
    ListedNewest(s, tenant, created, limit);
  }
}
