/** lumen/platform/jobs.py: the Redis job store with its `active` index, the in-memory store that
    defines what a job store means, and the runner's control calls over either. */
module Jobs {
  import opened Prelude

  datatype Status = Queued | Running | Paused | Succeeded | Failed | Cancelled {
    predicate Terminal() { Succeeded? || Failed? || Cancelled? }
  }

  datatype Note = Note(at: real, text: string)

  /** A job's `result` field: the steer notes it carries and the rest of its payload. */
  datatype Payload = Payload(notes: seq<Note>, body: string)

  datatype Job = Job(tenant: string, kind: string, status: Status, startedAt: real, finishedAt: real,
                     progress: real, message: string, result: Payload, error: string)

  /** The keyword arguments of one `update` call. */
  datatype Patch = Patch(status: Option<Status>, startedAt: Option<real>, finishedAt: Option<real>,
                         progress: Option<real>, message: Option<string>,
                         result: Option<Payload>, error: Option<string>)

  const NO_CHANGE := Patch(None, None, None, None, None, None, None)

  function Or<T>(o: Option<T>, d: T): T {
    if o.Some? then o.value else d
  }

  function Patched(j: Job, p: Patch): Job {
    Job(j.tenant, j.kind, Or(p.status, j.status), Or(p.startedAt, j.startedAt), Or(p.finishedAt, j.finishedAt),
        Or(p.progress, j.progress), Or(p.message, j.message), Or(p.result, j.result), Or(p.error, j.error))
  }

  const LIST_CAP := 100

  function Pushed(lists: map<string, seq<string>>, tenant: string, id: string): map<string, seq<string>> {
    var ids := [id] + if tenant in lists then lists[tenant] else [];
    lists[tenant := if |ids| > LIST_CAP then ids[..LIST_CAP] else ids]
  }

  function Ids(lists: map<string, seq<string>>, tenant: string): seq<string> {
    if tenant in lists then lists[tenant] else []
  }

  /** The jobs with the given ids that exist. */
  function Lookup(jobs: map<string, Job>, ids: seq<string>): seq<Job> {
    if ids == [] then []
    else
      var id := ids[|ids| - 1];
      Lookup(jobs, ids[..|ids| - 1]) + if id in jobs then [jobs[id]] else []
  }

  // ------------------------------------------------------------------ the two stores

  datatype RedisState = RedisState(hashes: map<string, Job>, active: set<string>, lists: map<string, seq<string>>)

  datatype MemoryState = MemoryState(jobs: map<string, Job>, lists: map<string, seq<string>>)

  function RedisCreate(s: RedisState, id: string, j: Job): RedisState {
    RedisState(s.hashes[id := j], s.active + {id}, Pushed(s.lists, j.tenant, id))
  }

  function RedisUpdate(s: RedisState, id: string, p: Patch): RedisState {
    if id !in s.hashes then s
    else
      RedisState(
        s.hashes[id := Patched(s.hashes[id], p)],
        if p.status.None? then s.active
        else if p.status.value.Terminal() then s.active - {id}
        else if p.status.value.Queued? || p.status.value.Running? then s.active + {id}
        else s.active,
        s.lists)
  }

  function MemoryCreate(s: MemoryState, id: string, j: Job): MemoryState {
    MemoryState(s.jobs[id := j], Pushed(s.lists, j.tenant, id))
  }

  function MemoryUpdate(s: MemoryState, id: string, p: Patch): MemoryState {
    if id !in s.jobs then s else s.(jobs := s.jobs[id := Patched(s.jobs[id], p)])
  }

  /** LRANGE 0 max(0, limit - 1), then one lookup per id. */
  function RedisList(s: RedisState, tenant: string, limit: int): seq<Job> {
    var ids := Ids(s.lists, tenant);
    var n := Max(0, limit - 1) + 1;
    Lookup(s.hashes, if n < |ids| then ids[..n] else ids)
  }

  function MemoryList(s: MemoryState, tenant: string, limit: int): seq<Job> {
    var ids := Ids(s.lists, tenant);
    var n := Max(0, limit);
    Lookup(s.jobs, if n < |ids| then ids[..n] else ids)
  }

  function LiveIds(jobs: map<string, Job>): set<string> {
    set id | id in jobs && !jobs[id].status.Terminal()
  }

  class RedisJobStore {
    var hashes: map<string, Job>
    var active: set<string>
    var lists: map<string, seq<string>>

    ghost function State(): RedisState
      reads this
    {
      RedisState(hashes, active, lists)
    }

    constructor ()
      ensures State() == RedisState(map[], {}, map[])
    {
      hashes, active, lists := map[], {}, map[];
    }

    method Create(id: string, j: Job)
      modifies this
      ensures State() == RedisCreate(old(State()), id, j)
    {
      hashes := hashes[id := j];
      active := active + {id};
      var ids := [id] + if j.tenant in lists then lists[j.tenant] else [];
      lists := lists[j.tenant := if |ids| > LIST_CAP then ids[..LIST_CAP] else ids];
    }

    method Update(id: string, p: Patch)
      modifies this
      ensures State() == RedisUpdate(old(State()), id, p)
    {
      if id !in hashes {
        return;
      }
      hashes := hashes[id := Patched(hashes[id], p)];
      if p.status.Some? && p.status.value.Terminal() {
        active := active - {id};
      } else if p.status == Some(Queued) || p.status == Some(Running) {
        active := active + {id};
      }
    }

    function Get(id: string): Option<Job>
      reads this
    {
      if id in hashes then Some(hashes[id]) else None
    }

    method ListForTenant(tenant: string, limit: int) returns (jobs: seq<Job>)
      ensures jobs == RedisList(State(), tenant, limit)
    {
      var ids := if tenant in lists then lists[tenant] else [];
      var n := Max(0, limit - 1) + 1;
      if n < |ids| {
        ids := ids[..n];
      }
      jobs := [];
      for i := 0 to |ids|
        invariant jobs == Lookup(hashes, ids[..i])
      {
        assert ids[..i + 1][..i] == ids[..i];
        var j := Get(ids[i]);
        if j.Some? {
          jobs := jobs + [j.value];
        }
      }
      assert ids[..|ids|] == ids;
    }

    function CountActive(): nat
      reads this
    {
      |active|
    }
  }

  lemma OneLessToCount(live: set<string>, todo: set<string>, id: string)
    requires id in todo
    ensures |live - (todo - {id})| == |live - todo| + if id in live then 1 else 0
  {
    if id in live {
      assert live - (todo - {id}) == live - todo + {id};
    } else {
      assert live - (todo - {id}) == live - todo;
    }
  }

  class MemoryJobStore {
    var jobs: map<string, Job>
    var lists: map<string, seq<string>>

    ghost function State(): MemoryState
      reads this
    {
      MemoryState(jobs, lists)
    }

    constructor ()
      ensures State() == MemoryState(map[], map[])
    {
      jobs, lists := map[], map[];
    }

    method Create(id: string, j: Job)
      modifies this
      ensures State() == MemoryCreate(old(State()), id, j)
    {
      jobs := jobs[id := j];
      var ids := if j.tenant in lists then lists[j.tenant] else [];
      ids := [id] + ids;
      lists := lists[j.tenant := if |ids| > LIST_CAP then ids[..LIST_CAP] else ids];
    }

    method Update(id: string, p: Patch)
      modifies this
      ensures State() == MemoryUpdate(old(State()), id, p)
    {
      if id in jobs {
        jobs := jobs[id := Patched(jobs[id], p)];
      }
    }

    /** The global `count_active`: a scan over every job. */
    method CountActive() returns (n: nat)
      ensures n == |LiveIds(jobs)|
    {
      n := 0;
      var todo := jobs.Keys;
      while todo != {}
        invariant todo <= jobs.Keys
        invariant n == |LiveIds(jobs) - todo|
        decreases |todo|
      {
        var id :| id in todo;
        OneLessToCount(LiveIds(jobs), todo, id);
        if !jobs[id].status.Terminal() {
          n := n + 1;
        }
        todo := todo - {id};
      }
      assert LiveIds(jobs) - {} == LiveIds(jobs);
    }
  }

  // ------------------------------------------------------------------ what the runner writes

  /** How a handler's run ends. */
  datatype Ending =
    | Ok(result: Payload)
    | ReportedFailure(result: Payload, message: string, error: string)
    | Raised(error: string)

  datatype Call =
    | Create(id: string, tenant: string, kind: string, message: string, input: Payload)
    | Cancel(id: string, who: Option<string>, now: real)
    | Pause(id: string, who: Option<string>)
    | Resume(id: string, who: Option<string>)
    | Steer(id: string, who: Option<string>, text: string, now: real)
    | StartRun(id: string, handled: bool, now: real)
    | Progress(id: string, amount: real, message: string)
    | FinishRun(id: string, ending: Ending, now: real)

  function NewJob(tenant: string, kind: string, message: string): Job {
    Job(Strip(tenant), kind, Queued, 0.0, 0.0, 0.0, message, Payload([], ""), "")
  }

  predicate Refused(j: Job, who: Option<string>) {
    who.Some? && who.value != "" && j.tenant != who.value
  }

  function Prefix(s: string, n: nat): string {
    if |s| > n then s[..n] else s
  }

  function LastTwenty(notes: seq<Note>): seq<Note> {
    if |notes| > 20 then notes[|notes| - 20..] else notes
  }

  /** The update a call makes after reading job j, if it makes one. */
  function Write(c: Call, j: Job): Option<Patch>
    requires !c.Create?
  {
    match c
    case Cancel(_, who, now) =>
      if Refused(j, who) || j.status.Terminal() then None
      else Some(NO_CHANGE.(status := Some(Cancelled), finishedAt := Some(now), message := Some("cancelled_by_user")))
    case Pause(_, who) =>
      if Refused(j, who) || j.status.Terminal() || j.status.Paused? then None
      else Some(NO_CHANGE.(status := Some(Paused), message := Some("paused_by_user")))
    case Resume(_, who) =>
      if Refused(j, who) || !j.status.Paused? then None
      else Some(NO_CHANGE.(status := Some(if j.startedAt != 0.0 then Running else Queued),
                             message := Some("resumed_by_user")))
    case Steer(_, who, text, now) =>
      var note := Prefix(Strip(text), 2000);
      if Strip(text) == "" || Refused(j, who) || j.status.Terminal() then None
      else
        Some(NO_CHANGE.(result := Some(j.result.(notes := LastTwenty(j.result.notes + [Note(now, note)]))),
                        message := Some("steer:" + Prefix(note, 120))))
    case StartRun(_, handled, now) =>
      if !handled then Some(NO_CHANGE.(status := Some(Failed), finishedAt := Some(now), error := Some("no_handler")))
      else Some(NO_CHANGE.(status := Some(Running), startedAt := Some(now), progress := Some(0.05),
                           message := Some("running")))
    case Progress(_, amount, message) => Some(NO_CHANGE.(progress := Some(amount), message := Some(message)))
    case FinishRun(_, ending, now) => Some(Finish(ending, now))
  }

  function Finish(ending: Ending, now: real): Patch {
    match ending
    case Ok(result) =>
      NO_CHANGE.(status := Some(Succeeded), finishedAt := Some(now), progress := Some(1.0),
                  message := Some("done"), result := Some(result))
    case ReportedFailure(result, message, error) =>
      NO_CHANGE.(status := Some(Failed), finishedAt := Some(now), progress := Some(1.0), message := Some(message),
                 error := Some(error), result := Some(result))
    case Raised(error) =>
      NO_CHANGE.(status := Some(Failed), finishedAt := Some(now), progress := Some(1.0), message := Some("failed"),
                 error := Some(error), result := Some(Payload([], "job_failed")))
  }

  function RedisApply(s: RedisState, c: Call): RedisState {
    if c.Create? then (if c.id in s.hashes then s else RedisCreate(s, c.id, NewJob(c.tenant, c.kind, c.message)))
    else if c.id !in s.hashes then s
    else
      var w := Write(c, s.hashes[c.id]);
      if w.Some? then RedisUpdate(s, c.id, w.value) else s
  }

  function MemoryApply(s: MemoryState, c: Call): MemoryState {
    if c.Create? then (if c.id in s.jobs then s else MemoryCreate(s, c.id, NewJob(c.tenant, c.kind, c.message)))
    else if c.id !in s.jobs then s
    else
      var w := Write(c, s.jobs[c.id]);
      if w.Some? then MemoryUpdate(s, c.id, w.value) else s
  }

  // ------------------------------------------------------------------ admission

  datatype Admission = Admitted | UnknownKind | TenantRequired | InputTooLarge | QueueFull | TenantFull

  /** MAX_QUEUED_GLOBAL and MAX_QUEUED_TENANT (zero: no cap), and the largest input. */
  datatype Caps = Caps(queuedGlobal: nat, queuedTenant: nat, inputBytes: nat)

  /** How many of the listed ids are queued or running: paused jobs do not count. */
  function Busy(hashes: map<string, Job>, ids: seq<string>): nat {
    if ids == [] then 0
    else Busy(hashes, ids[..|ids| - 1]) + if RunsOrWaits(hashes, ids[|ids| - 1]) then 1 else 0
  }

  predicate RunsOrWaits(hashes: map<string, Job>, id: string) {
    id in hashes && (hashes[id].status.Queued? || hashes[id].status.Running?)
  }

  /** `count_active(tenant_id)` of the Redis store; an empty tenant counts all. */
  function CountFor(s: RedisState, tenant: string): nat {
    if tenant == "" then |s.active| else Busy(s.hashes, First100(Ids(s.lists, tenant)))
  }

  function First100(ids: seq<string>): seq<string> {
    if |ids| > LIST_CAP then ids[..LIST_CAP] else ids
  }

  /** The checks of `enqueue`, in order. */
  function Admit(s: RedisState, caps: Caps, tenant: string, known: bool, size: nat): Admission {
    if !known then UnknownKind
    else if tenant == "" || Strip(tenant) == "" then TenantRequired
    else if size > caps.inputBytes then InputTooLarge
    else if caps.queuedGlobal > 0 && |s.active| >= caps.queuedGlobal then QueueFull
    else if caps.queuedTenant > 0 && CountFor(s, tenant) >= caps.queuedTenant then TenantFull
    else Admitted
  }

  /** JobRunner over the Redis store. */
  class JobRunner {
    const store: RedisJobStore
    const caps: Caps

    constructor (store: RedisJobStore, caps: Caps)
      ensures this.store == store && this.caps == caps
    {
      this.store := store;
      this.caps := caps;
    }

    method CancelJob(id: string, who: Option<string>, now: real) returns (job: Option<Job>)
      modifies store
      ensures store.State() == RedisApply(old(store.State()), Cancel(id, who, now))
      ensures job.Some? ==> job == store.Get(id)
      ensures job.None? <==> id !in old(store.hashes) || Refused(old(store.hashes)[id], who)
    {
      job := store.Get(id);
      if job.None? || Refused(job.value, who) { return None; }
      if job.value.status.Terminal() { return; }
      store.Update(id, NO_CHANGE.(status := Some(Cancelled), finishedAt := Some(now),
                                     message := Some("cancelled_by_user")));
      job := store.Get(id);
    }

    method PauseJob(id: string, who: Option<string>) returns (job: Option<Job>)
      modifies store
      ensures store.State() == RedisApply(old(store.State()), Pause(id, who))
      ensures job.Some? ==> job == store.Get(id)
      ensures job.None? <==> id !in old(store.hashes) || Refused(old(store.hashes)[id], who)
    {
      job := store.Get(id);
      if job.None? || Refused(job.value, who) { return None; }
      if job.value.status.Terminal() || job.value.status == Paused { return; }
      store.Update(id, NO_CHANGE.(status := Some(Paused), message := Some("paused_by_user")));
      job := store.Get(id);
    }

    method ResumeJob(id: string, who: Option<string>) returns (job: Option<Job>)
      modifies store
      ensures store.State() == RedisApply(old(store.State()), Resume(id, who))
      ensures job.Some? ==> job == store.Get(id)
      ensures job.None? <==> id !in old(store.hashes) || Refused(old(store.hashes)[id], who)
    {
      job := store.Get(id);
      if job.None? || Refused(job.value, who) { return None; }
      if job.value.status != Paused { return; }
      var next := if job.value.startedAt != 0.0 then Running else Queued;
      store.Update(id, NO_CHANGE.(status := Some(next), message := Some("resumed_by_user")));
      job := store.Get(id);
    }

    method SteerJob(id: string, who: Option<string>, message: string, now: real) returns (job: Option<Job>)
      modifies store
      ensures store.State() == RedisApply(old(store.State()), Steer(id, who, message, now))
      ensures job.Some? ==> job == store.Get(id)
    {
      var text := Strip(message);
      if text == "" { return None; }
      if |text| > 2000 {
        text := text[..2000];
      }
      job := store.Get(id);
      if job.None? || Refused(job.value, who) { return None; }
      if job.value.status.Terminal() { return; }
      var notes := job.value.result.notes + [Note(now, text)];
      store.Update(id, NO_CHANGE.(result := Some(job.value.result.(notes := LastTwenty(notes))),
                                  message := Some("steer:" + Prefix(text, 120))));
      job := store.Get(id);
    }

    /** The per-tenant count: a lookup for each of the tenant's last hundred ids. */
    method CountActiveFor(tenant: string) returns (n: nat)
      ensures n == CountFor(store.State(), tenant)
    {
      if tenant == "" {
        return store.CountActive();
      }
      var ids := First100(if tenant in store.lists then store.lists[tenant] else []);
      n := 0;
      for i := 0 to |ids|
        invariant n == Busy(store.hashes, ids[..i])
      {
        assert ids[..i + 1][..i] == ids[..i];
        var j := store.Get(ids[i]);
        if j.Some? && (j.value.status == Queued || j.value.status == Running) {
          n := n + 1;
        }
      }
      assert ids[..|ids|] == ids;
    }

    /** `known` says whether the kind has a handler, `size` how large the input is. */
    method Enqueue(newId: string, tenant: string, kind: string, message: string, known: bool, size: nat)
            returns (a: Admission)
      requires newId !in store.hashes
      modifies store
      ensures a == Admit(old(store.State()), caps, tenant, known, size)
      ensures store.State() == if a.Admitted? then RedisCreate(old(store.State()), newId, NewJob(tenant, kind, message))
                               else old(store.State())
    {
      if !known {
        return UnknownKind;
      }
      if tenant == "" || Strip(tenant) == "" {
        return TenantRequired;
      }
      if size > caps.inputBytes {
        return InputTooLarge;
      }
      if caps.queuedGlobal > 0 && store.CountActive() >= caps.queuedGlobal {
        return QueueFull;
      }
      if caps.queuedTenant > 0 {
        var mine := CountActiveFor(tenant);
        if mine >= caps.queuedTenant {
          return TenantFull;
        }
      }
      store.Create(newId, NewJob(tenant, kind, message));
      a := Admitted;
    }

    /** `_run` with nobody else writing meanwhile. */
    method RunJob(id: string, handled: bool, ending: Ending, startedAt: real, finishedAt: real)
      modifies store
      ensures var s1 := RedisApply(old(store.State()), StartRun(id, handled, startedAt));
              store.State() == if handled then RedisApply(s1, FinishRun(id, ending, finishedAt)) else s1
    {
      var job := store.Get(id);
      if job.None? { return; }
      if !handled {
        store.Update(id, NO_CHANGE.(status := Some(Failed), finishedAt := Some(startedAt),
                                       error := Some("no_handler")));
        return;
      }
      store.Update(id, NO_CHANGE.(status := Some(Running), startedAt := Some(startedAt),
                                     progress := Some(0.05), message := Some("running")));
      store.Update(id, Finish(ending, finishedAt));
    }
  }

  // ------------------------------------------------------------------ what the caps guarantee

  lemma {:induction false} BusyElsewhere(hashes: map<string, Job>, ids: seq<string>, id: string, j: Job)
    requires id !in ids
    ensures Busy(hashes[id := j], ids) == Busy(hashes, ids)
  {
    if ids != [] {
      BusyElsewhere(hashes, ids[..|ids| - 1], id, j);
    }
  }

  lemma {:induction false} BusyFront(hashes: map<string, Job>, first: string, ids: seq<string>)
    ensures Busy(hashes, [first] + ids) == Busy(hashes, ids) + if RunsOrWaits(hashes, first) then 1 else 0
  {
    hide RunsOrWaits;
    if ids == [] {
      assert [first] + ids == [first] && [first][..0] == [];
    } else {
      var all := [first] + ids;
      BusyFront(hashes, first, ids[..|ids| - 1]);
      assert all[..|all| - 1] == [first] + ids[..|ids| - 1];
    }
  }

  lemma {:induction false} BusyPrefix(hashes: map<string, Job>, ids: seq<string>, n: nat)
    requires n <= |ids|
    ensures Busy(hashes, ids[..n]) <= Busy(hashes, ids)
  {
    if n < |ids| {
      BusyPrefix(hashes, ids[..|ids| - 1], n);
      assert ids[..|ids| - 1][..n] == ids[..n];
    } else {
      assert ids[..n] == ids;
    }
  }

  /** An admitted job never takes the tenant, or all tenants together, above its cap: for the tenant, where
      its name is written without surrounding blanks. */
  lemma AdmittedKeepsCaps(s: RedisState, caps: Caps, newId: string, tenant: string, kind: string, message: string,
          known: bool, size: nat)
    requires Admit(s, caps, tenant, known, size).Admitted? && newId !in s.hashes && newId !in Ids(s.lists, tenant)
    ensures var s' := RedisCreate(s, newId, NewJob(tenant, kind, message));
            && (caps.queuedGlobal > 0 ==> |s'.active| <= caps.queuedGlobal)
            && (caps.queuedTenant > 0 && Strip(tenant) == tenant ==> CountFor(s', tenant) <= caps.queuedTenant)
  {
    var s' := RedisCreate(s, newId, NewJob(tenant, kind, message));
    if Strip(tenant) == tenant {
      var ids := Ids(s.lists, tenant);
      PushedIds(s.lists, tenant, newId);
      var shown := First100(ids);
      var kept := if |ids| >= LIST_CAP then ids[..LIST_CAP - 1] else ids;
      assert First100(Ids(s'.lists, tenant)) == [newId] + kept;
      BusyFront(s'.hashes, newId, kept);
      BusyElsewhere(s.hashes, kept, newId, NewJob(tenant, kind, message));
      assert shown[..|kept|] == kept;
      BusyPrefix(s.hashes, shown, |kept|);
    }
  }

  lemma PushedIds(lists: map<string, seq<string>>, tenant: string, id: string)
    ensures var ids := Ids(lists, tenant);
            Ids(Pushed(lists, tenant, id), tenant) == [id] + if |ids| >= LIST_CAP then ids[..LIST_CAP - 1] else ids
  {
    var ids := Ids(lists, tenant);
    assert |ids| >= LIST_CAP ==> ([id] + ids)[..LIST_CAP] == [id] + ids[..LIST_CAP - 1];
  }

  lemma {:induction false} TrimLeftAgain(s: string)
    ensures TrimLeft(TrimLeft(s)) == TrimLeft(s)
    ensures TrimLeft(s) == "" || !IsSpace(TrimLeft(s)[0])
  {
    if s != "" && IsSpace(s[0]) {
      TrimLeftAgain(s[1..]);
    }
  }

  lemma {:induction false} TrimRightKeepsFront(s: string)
    ensures TrimRight(TrimRight(s)) == TrimRight(s)
    ensures TrimRight(s) != "" ==> s != "" && TrimRight(s)[0] == s[0]
  {
    if s != "" && IsSpace(s[|s| - 1]) {
      TrimRightKeepsFront(s[..|s| - 1]);
    }
  }

  lemma StripAgain(s: string)
    ensures Strip(Strip(s)) == Strip(s)
  {
    hide IsSpace;
    TrimLeftAgain(s);
    TrimRightKeepsFront(TrimLeft(s));
  }

  /** Jobs are listed under the stripped name but counted under the one given: for a name with surrounding
      blanks nothing is ever listed, so the tenant cap never refuses it. */
  lemma {:induction false} PaddedTenantHasNoCap(calls: seq<Call>, tenant: string, caps: Caps, known: bool, size: nat)
    requires Strip(tenant) != tenant
    ensures var s := RedisRun(RedisState(map[], {}, map[]), calls);
            tenant !in s.lists && !Admit(s, caps, tenant, known, size).TenantFull?
  {
    if calls != [] {
      hide Strip;
      PaddedTenantHasNoCap(calls[..|calls| - 1], tenant, caps, known, size);
      var s, c := RedisRun(RedisState(map[], {}, map[]), calls[..|calls| - 1]), calls[|calls| - 1];
      if c.Create? {
        StripAgain(c.tenant);
      }
    }
    EmptyStrip();
  }

  lemma EmptyStrip()
    ensures Strip("") == ""
  {
  }

  // ------------------------------------------------------------------ the index

  /** `active` is exactly the set of jobs that are not over. */
  predicate Indexed(s: RedisState) {
    s.active == LiveIds(s.hashes)
  }

  /** One update keeps the index right exactly when it does not write "paused" over a job that is
      already over: that status is neither added to nor removed from the set. */
  lemma UpdateKeepsIndexIff(s: RedisState, id: string, p: Patch)
    requires Indexed(s)
    ensures Indexed(RedisUpdate(s, id, p)) <==>
      !(id in s.hashes && p.status == Some(Paused) && s.hashes[id].status.Terminal())
  {
    var s' := RedisUpdate(s, id, p);
    if id in s.hashes {
      var live := LiveIds(s'.hashes);
      if p.status == Some(Paused) && s.hashes[id].status.Terminal() {
        assert id in live && id !in s'.active;
      } else {
        assert live == s'.active;
      }
    }
  }

  /** The stores show the same jobs and lists. */
  predicate Agree(r: RedisState, m: MemoryState) {
    r.hashes == m.jobs && r.lists == m.lists
  }

  lemma ApplyKeepsAgreement(r: RedisState, m: MemoryState, c: Call)
    requires Agree(r, m) && Indexed(r)
    ensures Agree(RedisApply(r, c), MemoryApply(m, c)) && Indexed(RedisApply(r, c))
  {
    if c.Create? {
      if c.id !in r.hashes {
        var j := NewJob(c.tenant, c.kind, c.message);
        assert LiveIds(r.hashes[c.id := j]) == LiveIds(r.hashes) + {c.id};
      }
    } else if c.id in r.hashes && Write(c, r.hashes[c.id]).Some? {
      UpdateKeepsIndexIff(r, c.id, Write(c, r.hashes[c.id]).value);
    }
  }

  function RedisRun(s: RedisState, calls: seq<Call>): RedisState {
    if calls == [] then s else RedisApply(RedisRun(s, calls[..|calls| - 1]), calls[|calls| - 1])
  }

  function MemoryRun(s: MemoryState, calls: seq<Call>): MemoryState {
    if calls == [] then s else MemoryApply(MemoryRun(s, calls[..|calls| - 1]), calls[|calls| - 1])
  }

  /** Refinement: after any sequence of calls, each atomic, the Redis store and the plain map agree on
      every job, on the number of active jobs, and on every tenant's listing for positive limits. */
  lemma {:induction false} StoresAgree(calls: seq<Call>)
    ensures var r, m := RedisRun(RedisState(map[], {}, map[]), calls), MemoryRun(MemoryState(map[], map[]), calls);
            && Agree(r, m) && Indexed(r)
            && |r.active| == |LiveIds(m.jobs)|
            && forall tenant, limit | limit >= 1 :: RedisList(r, tenant, limit) == MemoryList(m, tenant, limit)
  {
    if calls != [] {
      StoresAgree(calls[..|calls| - 1]);
      ApplyKeepsAgreement(RedisRun(RedisState(map[], {}, map[]), calls[..|calls| - 1]),
                          MemoryRun(MemoryState(map[], map[]), calls[..|calls| - 1]), calls[|calls| - 1]);
    }
  }

  /** A limit below one is answered with one job by Redis and none by the map: the listings agree
      exactly when the limit is positive or the tenant's newest listed id is no longer known. */
  lemma ListingsAgreeIff(r: RedisState, m: MemoryState, tenant: string, limit: int)
    requires Agree(r, m)
    ensures RedisList(r, tenant, limit) == MemoryList(m, tenant, limit) <==>
            limit >= 1 || Ids(r.lists, tenant) == [] || Ids(r.lists, tenant)[0] !in r.hashes
  {
    var ids := Ids(r.lists, tenant);
    if limit < 1 && ids != [] {
      assert ids[..0] == [];
      assert ids[..1] == [ids[0]] && [ids[0]][..0] == [];
      assert |ids| == 1 ==> ids == ids[..1];
    }
  }

  // ------------------------------------------------------------------ final statuses

  predicate Runs(c: Call, id: string) {
    (c.StartRun? || c.FinishRun?) && c.id == id
  }

  /** One call at a time: nothing but a run changes the status of a job that is over. */
  lemma {:induction false} OverStaysOver(s: RedisState, calls: seq<Call>, id: string)
    requires id in s.hashes && s.hashes[id].status.Terminal()
    requires forall c | c in calls :: !Runs(c, id)
    ensures id in RedisRun(s, calls).hashes
    ensures RedisRun(s, calls).hashes[id].status == s.hashes[id].status
  {
    if calls != [] {
      OverStaysOver(s, calls[..|calls| - 1], id);
      assert calls[|calls| - 1] in calls;
    }
  }

  /** One call at a time: once a job's last run completes, its status is that run's outcome for good, even
      if it had been cancelled or paused meanwhile. */
  lemma LastRunDecides(s: RedisState, ending: Ending, now: real, after: seq<Call>, id: string)
    requires id in s.hashes
    requires forall c | c in after :: !Runs(c, id)
    ensures var s' := RedisRun(RedisApply(s, FinishRun(id, ending, now)), after);
            id in s'.hashes && s'.hashes[id].status == if ending.Ok? then Succeeded else Failed
  {
    OverStaysOver(RedisApply(s, FinishRun(id, ending, now)), after, id);
  }

  /** A control call that read the job before its run ended and writes after it overwrites the outcome: a
      stale cancel hides it, a stale pause also leaves the job neither over nor in `active`, and a stale
      resume leaves a finished job in `active`, as running or queued, with nothing left to end it. */
  lemma StaleControlWrites(s: RedisState, c: Call, ending: Ending, now: real)
    requires Indexed(s) && (c.Cancel? || c.Pause? || c.Resume?) && c.id in s.hashes
    requires Write(c, s.hashes[c.id]).Some?
    ensures var done := RedisApply(s, FinishRun(c.id, ending, now));
            var stale := RedisUpdate(done, c.id, Write(c, s.hashes[c.id]).value);
            && done.hashes[c.id].status == (if ending.Ok? then Succeeded else Failed)
            && stale.hashes[c.id].status == (if c.Cancel? then Cancelled else if c.Pause? then Paused
                                             else if s.hashes[c.id].startedAt != 0.0 then Running else Queued)
            && (Indexed(stale) <==> !c.Pause?)
            && (c.id in stale.active <==> c.Resume?)
  {
    var done := RedisApply(s, FinishRun(c.id, ending, now));
    UpdateKeepsIndexIff(s, c.id, Finish(ending, now));
    UpdateKeepsIndexIff(done, c.id, Write(c, s.hashes[c.id]).value);
  }
}
