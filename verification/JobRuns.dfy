/** Whole runs of the Redis job store of lumen/platform/jobs.py with several workers at once. A control call
    first reads the job and decides on an update; a run updates without a look. An update is three commands:
    EXISTS, HSET of the changed fields, and then, by the status it writes, SREM, SADD or nothing on the
    `active` set. A create is one transaction. */
module JobRuns {
  import opened Prelude
  import opened Jobs

  /** An update between its commands. */
  datatype Writer =
    | Idle
    | Decided(id: string, patch: Patch)
    | Checked(id: string, patch: Patch)
    | Hashed(id: string, patch: Patch)

  /** The store, the updates under way, and two records of the run: for each job the status written by the
      update that last moved it in or out of `active`, and the last status other than "paused" in its hash. */
  datatype World = World(redis: RedisState, writers: map<int, Writer>, moved: map<string, Status>,
          decisive: map<string, Status>)

  const START := World(RedisState(map[], {}, map[]), map[], map[], map[])

  datatype Event =
    | Create(id: string, job: Job)
    | Look(c: int, call: Call)                      // a control call reads the job and decides by what it sees
    | Begin(c: int, id: string, patch: Patch)       // a run, or its progress, updates whatever is there
    | Exists(c: int)
    | HSet(c: int)
    | Index(c: int)
    | Crash(c: int)

  predicate Control(call: Call) {
    call.Cancel? || call.Pause? || call.Resume? || call.Steer?
  }

  function WriterOf(w: World, c: int): Writer {
    if c in w.writers then w.writers[c] else Idle
  }

  /** SREM for a terminal status, SADD for queued and running. */
  function Moved(active: set<string>, id: string, status: Status): set<string> {
    if status.Terminal() then active - {id} else if status.Paused? then active else active + {id}
  }

  function Step(w: World, e: Event): World {
    match e
    case Create(id, job) =>
      if id in w.redis.hashes || job.status != Queued then w
      else World(RedisCreate(w.redis, id, job), w.writers, w.moved[id := Queued], w.decisive[id := Queued])
    case Look(c, call) =>
      if !WriterOf(w, c).Idle? || !Control(call) || call.id !in w.redis.hashes then w
      else
        var patch := Write(call, w.redis.hashes[call.id]);
        if patch.None? then w else w.(writers := w.writers[c := Decided(call.id, patch.value)])
    case Begin(c, id, patch) =>
      if !WriterOf(w, c).Idle? then w else w.(writers := w.writers[c := Decided(id, patch)])
    case Exists(c) =>
      var me := WriterOf(w, c);
      if !me.Decided? then w
      else w.(writers := w.writers[c := if me.id in w.redis.hashes then Checked(me.id, me.patch) else Idle])
    case HSet(c) =>
      var me := WriterOf(w, c);
      if !me.Checked? || me.id !in w.redis.hashes then w
      else
        var hashes := w.redis.hashes[me.id := Patched(w.redis.hashes[me.id], me.patch)];
        var status := me.patch.status;
        w.(redis := w.redis.(hashes := hashes),
           writers := w.writers[c := if status.Some? then Hashed(me.id, me.patch) else Idle],
           decisive := if status.Some? && !status.value.Paused? then w.decisive[me.id := status.value] else w.decisive)
    case Index(c) =>
      var me := WriterOf(w, c);
      if !me.Hashed? || me.patch.status.None? then w
      else
        var status := me.patch.status.value;
        w.(redis := w.redis.(active := Moved(w.redis.active, me.id, status)),
           writers := w.writers[c := Idle],
           moved := if status.Paused? then w.moved else w.moved[me.id := status])
    case Crash(c) => w.(writers := w.writers[c := Idle])
  }

  function Exec(events: seq<Event>): World {
    if events == [] then START else Step(Exec(events[..|events| - 1]), events[|events| - 1])
  }

  /** A writer that crashed sends none of its remaining commands, and its crash touches no key. */
  lemma CrashedWriterIsSilent(w: World, c: int)
    ensures var dead := Step(w, Crash(c));
            && dead.redis == w.redis && dead.moved == w.moved && dead.decisive == w.decisive
            && Step(dead, Exists(c)) == Step(dead, HSet(c)) == Step(dead, Index(c)) == dead
            && forall other | other != c :: WriterOf(dead, other) == WriterOf(w, other)
  {
  }

  function UpdateSteps(w: World, c: int): World {
    Step(Step(Step(w, Exists(c)), HSet(c)), Index(c))
  }

  /** An uninterrupted update is one of these runs. */
  lemma UpdateIsARun(w: World, c: int, id: string, patch: Patch)
    requires WriterOf(w, c) == Decided(id, patch)
    ensures UpdateSteps(w, c).redis == RedisUpdate(w.redis, id, patch)
  {
    hide Patched;
  }

  /** So is an uninterrupted call, with its look where it has one. */
  lemma CallIsARun(w: World, c: int, call: Call)
    requires WriterOf(w, c).Idle? && !call.Create? && call.id in w.redis.hashes
    ensures var patch := Write(call, w.redis.hashes[call.id]);
            var decided := if Control(call) then Step(w, Look(c, call))
                           else if patch.Some? then Step(w, Begin(c, call.id, patch.value)) else w;
            (if WriterOf(decided, c).Decided? then UpdateSteps(decided, c) else decided).redis ==
            RedisApply(w.redis, call)
  {
    var patch := Write(call, w.redis.hashes[call.id]);
    if patch.Some? {
      var decided := w.(writers := w.writers[c := Decided(call.id, patch.value)]);
      UpdateIsARun(decided, c, call.id, patch.value);
      hide Write, UpdateSteps;
    } else {
      hide Write, UpdateSteps;
    }
  }

  // ------------------------------------------------------------------ what decides membership

  ghost predicate Tracked(w: World) {
    && w.moved.Keys == w.decisive.Keys == w.redis.hashes.Keys
    && w.redis.active <= w.redis.hashes.Keys
    && (forall id | id in w.moved :: id in w.redis.active <==> !w.moved[id].Terminal())
    && (forall id | id in w.decisive :: !w.decisive[id].Paused?
          && (w.redis.hashes[id].status.Paused? || w.redis.hashes[id].status == w.decisive[id]))
    && (forall c | c in w.writers && (w.writers[c].Checked? || w.writers[c].Hashed?) ::
          w.writers[c].id in w.redis.hashes)
    && (forall c | c in w.writers && w.writers[c].Hashed? :: w.writers[c].patch.status.Some?)
  }

  /** A step that only moves its client on. */
  lemma MoveKeepsTracked(w: World, c: int, me: Writer)
    requires Tracked(w) && !me.Hashed? && (me.Checked? ==> me.id in w.redis.hashes)
    ensures Tracked(w.(writers := w.writers[c := me]))
  {
  }

  lemma HSetKeepsTracked(w: World, c: int)
    requires Tracked(w)
    ensures Tracked(Step(w, HSet(c)))
  {
    if WriterOf(w, c).Checked? {
      PatchedStatus(w.redis.hashes[WriterOf(w, c).id], WriterOf(w, c).patch);
    }
    hide Patched;
  }

  lemma IndexKeepsTracked(w: World, c: int)
    requires Tracked(w)
    ensures Tracked(Step(w, Index(c)))
  {
  }

  lemma StepKeepsTracked(w: World, e: Event)
    requires Tracked(w)
    ensures Tracked(Step(w, e))
  {
    hide Patched, Write, Moved;
    match e
    case HSet(c) => HSetKeepsTracked(w, c);
    case Index(c) => IndexKeepsTracked(w, c);
    case Create(_, _) =>
    case _ =>
      var me := WriterOf(Step(w, e), e.c);
      if Step(w, e) != w {
        assert Step(w, e) == w.(writers := w.writers[e.c := me]);
        hide Step, Tracked;
        MoveKeepsTracked(w, e.c, me);
      }
  }

  lemma PatchedStatus(j: Job, p: Patch)
    ensures Patched(j, p).status == if p.status.Some? then p.status.value else j.status
  {
  }

  lemma {:induction false} RunIsTracked(events: seq<Event>)
    ensures Tracked(Exec(events))
  {
    if events != [] {
      hide Tracked, Step;
      RunIsTracked(events[..|events| - 1]);
      StepKeepsTracked(Exec(events[..|events| - 1]), events[|events| - 1]);
    } else {
      assert Tracked(START);
    }
  }

  /** However updates interleave, crash or overlap, the index is exact if and only if, for every job, the
      update that touched the index last and the one that wrote the status last agree on whether it is over. */
  lemma IndexExactIff(events: seq<Event>)
    ensures var w := Exec(events);
            && w.moved.Keys == w.redis.hashes.Keys
            && (Indexed(w.redis) <==> forall id | id in w.redis.hashes ::
                  w.moved[id].Terminal() == w.redis.hashes[id].status.Terminal())
  {
    RunIsTracked(events);
    var w := Exec(events);
    hide Exec;
    if Indexed(w.redis) {
      forall id | id in w.redis.hashes ensures w.moved[id].Terminal() == w.redis.hashes[id].status.Terminal() {
        assert id in w.redis.active <==> id in LiveIds(w.redis.hashes);
      }
    }
    if forall id | id in w.redis.hashes :: w.moved[id].Terminal() == w.redis.hashes[id].status.Terminal() {
      assert w.redis.active == LiveIds(w.redis.hashes);
    }
  }

  // ------------------------------------------------------------------ updates that do not overlap

  /** A status is about to be written to a job while another update of it has yet to touch the index. */
  predicate Overlaps(w: World, e: Event) {
    && e.HSet? && WriterOf(w, e.c).Checked? && WriterOf(w, e.c).patch.status.Some?
    && exists d | d in w.writers :: w.writers[d].Hashed? && w.writers[d].id == WriterOf(w, e.c).id
  }

  /** An update dies between HSET and the index. */
  predicate Breaks(w: World, e: Event) {
    e.Crash? && WriterOf(w, e.c).Hashed?
  }

  ghost predicate Orderly(events: seq<Event>) {
    forall n | 0 <= n < |events| :: !Overlaps(Exec(events[..n]), events[n]) && !Breaks(Exec(events[..n]), events[n])
  }

  /** The update of the job that has yet to touch the index, if there is one, wrote its status. */
  ghost predicate InStep(w: World, id: string)
    requires id in w.redis.hashes && id in w.moved && id in w.decisive
  {
    && (forall c, d | Waits(w, c, id) && Waits(w, d, id) :: c == d)
    && (forall c | Waits(w, c, id) :: w.writers[c].patch.status.Some?
          && w.redis.hashes[id].status == w.writers[c].patch.status.value)
    && ((forall c :: Waits(w, c, id) ==> w.redis.hashes[id].status.Paused?) ==> w.moved[id] == w.decisive[id])
  }

  predicate Waits(w: World, c: int, id: string) {
    c in w.writers && w.writers[c].Hashed? && w.writers[c].id == id
  }

  ghost predicate AllInStep(w: World) {
    Tracked(w) && forall id | id in w.redis.hashes :: InStep(w, id)
  }

  lemma Keys(w: World)
    requires Tracked(w)
    ensures w.moved.Keys == w.decisive.Keys == w.redis.hashes.Keys
    ensures forall id | id in w.decisive :: !w.decisive[id].Paused?
    ensures forall c | c in w.writers && (w.writers[c].Checked? || w.writers[c].Hashed?) ::
              w.writers[c].id in w.redis.hashes
    ensures forall id | id in w.decisive ::
              w.redis.hashes[id].status.Paused? || w.redis.hashes[id].status == w.decisive[id]
  {
  }

  lemma OtherJobInStep(w: World, w': World, id: string)
    requires id in w.redis.hashes && id in w.moved && id in w.decisive && InStep(w, id)
    requires id in w'.redis.hashes && id in w'.moved && id in w'.decisive
    requires w'.redis.hashes[id].status == w.redis.hashes[id].status
    requires w'.moved[id] == w.moved[id] && w'.decisive[id] == w.decisive[id]
    requires forall c :: Waits(w', c, id) <==> Waits(w, c, id)
    requires forall c | Waits(w, c, id) :: Waits(w', c, id) && w'.writers[c] == w.writers[c]
    ensures InStep(w', id)
  {
  }

  /** The event writes the status of this job, or lets an update of it touch the index. */
  predicate Affects(w: World, e: Event, id: string) {
    match e
    case HSet(c) => WriterOf(w, c).Checked? && WriterOf(w, c).patch.status.Some? && WriterOf(w, c).id == id
    case Index(c) => WriterOf(w, c).Hashed? && WriterOf(w, c).id == id
    case Create(created, _) => created == id
    case _ => false
  }

  lemma StepSparesOtherJob(w: World, e: Event, id: string)
    requires Tracked(w) && id in w.redis.hashes && !Breaks(w, e)
    requires !e.Create? ==> !Affects(w, e, id)
    ensures var w' := Step(w, e);
            && id in w'.redis.hashes && w'.redis.hashes[id].status == w.redis.hashes[id].status
            && id in w.moved && id in w'.moved && w'.moved[id] == w.moved[id]
            && id in w.decisive && id in w'.decisive && w'.decisive[id] == w.decisive[id]
  {
    if e.HSet? && WriterOf(w, e.c).Checked? {
      PatchedStatus(w.redis.hashes[WriterOf(w, e.c).id], WriterOf(w, e.c).patch);
    }
    hide Patched;
  }

  lemma StepSparesOtherWaits(w: World, e: Event, id: string)
    requires !Breaks(w, e) && !Affects(w, e, id)
    ensures forall c :: Waits(Step(w, e), c, id) <==> Waits(w, c, id)
    ensures forall c | Waits(w, c, id) :: Waits(Step(w, e), c, id) && Step(w, e).writers[c] == w.writers[c]
  {
    hide Patched, RedisCreate;
  }

  lemma SparedInStep(w: World, e: Event, id: string)
    requires AllInStep(w) && id in w.redis.hashes && !Breaks(w, e) && !Affects(w, e, id)
    ensures var w' := Step(w, e);
            id in w'.redis.hashes && id in w'.moved && id in w'.decisive && InStep(w', id)
  {
    assert InStep(w, id);
    hide Step, InStep, Breaks, Affects;
    StepSparesOtherJob(w, e, id);
    StepSparesOtherWaits(w, e, id);
    OtherJobInStep(w, Step(w, e), id);
  }

  lemma HSetWaits(w: World, c: int, id: string)
    requires WriterOf(w, c).Checked? && WriterOf(w, c).id == id && WriterOf(w, c).patch.status.Some?
             && id in w.redis.hashes
    requires !Overlaps(w, HSet(c))
    ensures forall d :: !Waits(w, d, id)
    ensures forall d :: Waits(Step(w, HSet(c)), d, id) <==> d == c
    ensures Step(w, HSet(c)).writers[c] == Hashed(id, WriterOf(w, c).patch)
  {
    hide Patched;
    forall d ensures !Waits(w, d, id) {}
  }

  lemma HSetInStep(w: World, c: int, id: string)
    requires AllInStep(w) && WriterOf(w, c).Checked? && WriterOf(w, c).id == id && WriterOf(w, c).patch.status.Some?
    requires !Overlaps(w, HSet(c)) && id in w.redis.hashes
    ensures var w' := Step(w, HSet(c));
            id in w'.redis.hashes && id in w'.moved && id in w'.decisive && InStep(w', id)
  {
    assert InStep(w, id);
    Keys(w);
    HSetWaits(w, c, id);
    PatchedStatus(w.redis.hashes[id], WriterOf(w, c).patch);
    assert Waits(Step(w, HSet(c)), c, id);
    hide Patched, Waits, Overlaps, Tracked;
  }

  lemma IndexWaits(w: World, c: int, id: string)
    requires WriterOf(w, c).Hashed? && WriterOf(w, c).id == id && WriterOf(w, c).patch.status.Some?
    requires forall d, f | Waits(w, d, id) && Waits(w, f, id) :: d == f
    ensures Waits(w, c, id)
    ensures forall d :: !Waits(Step(w, Index(c)), d, id)
  {
    assert Waits(w, c, id);
    forall d ensures !Waits(Step(w, Index(c)), d, id) {
      assert Waits(w, d, id) ==> d == c;
    }
  }

  lemma IndexInStep(w: World, c: int, id: string)
    requires AllInStep(w) && WriterOf(w, c).Hashed? && WriterOf(w, c).id == id && id in w.redis.hashes
    ensures var w' := Step(w, Index(c));
            id in w'.redis.hashes && id in w'.moved && id in w'.decisive && InStep(w', id)
  {
    assert InStep(w, id);
    assert Waits(w, c, id);
    Keys(w);
    IndexWaits(w, c, id);
    hide Tracked, Moved;
  }

  lemma CreateInStep(w: World, id: string, job: Job)
    requires AllInStep(w) && id !in w.redis.hashes && job.status == Queued
    ensures var w' := Step(w, Event.Create(id, job));
            id in w'.redis.hashes && id in w'.moved && id in w'.decisive && InStep(w', id)
  {
    forall c ensures !Waits(Step(w, Event.Create(id, job)), c, id) {}
  }

  lemma StepInStep(w: World, e: Event)
    requires AllInStep(w) && !Overlaps(w, e) && !Breaks(w, e)
    ensures AllInStep(Step(w, e))
  {
    StepKeepsTracked(w, e);
    Keys(w);
    Keys(Step(w, e));
    forall id | id in Step(w, e).redis.hashes ensures InStep(Step(w, e), id) {
      if !Affects(w, e, id) {
        StepSparesKeys(w, e);
        SparedInStep(w, e, id);
      } else {
        match e
        case HSet(c) => HSetInStep(w, c, id);
        case Index(c) => IndexInStep(w, c, id);
        case Create(_, job) => if id !in w.redis.hashes { CreateInStep(w, id, job); }
        case _ =>
      }
    }
  }

  lemma StepSparesKeys(w: World, e: Event)
    ensures Step(w, e).redis.hashes.Keys ==
            w.redis.hashes.Keys + if e.Create? && e.job.status == Queued then {e.id} else {}
  {
    hide Patched;
  }

  lemma {:induction false} OrderlyIsInStep(events: seq<Event>)
    requires Orderly(events)
    ensures AllInStep(Exec(events))
  {
    if events == [] {
      assert AllInStep(START);
    } else {
      hide AllInStep, Overlaps, Breaks, Step;
      var n, e := |events| - 1, events[|events| - 1];
      forall i | 0 <= i < n
        ensures !Overlaps(Exec(events[..n][..i]), events[..n][i]) && !Breaks(Exec(events[..n][..i]), events[..n][i])
      {
        assert events[..n][..i] == events[..i];
      }
      OrderlyIsInStep(events[..n]);
      StepInStep(Exec(events[..n]), e);
    }
  }

  /** Every update under way has done its last command. */
  predicate Settled(w: World) {
    forall c | c in w.writers :: !w.writers[c].Hashed?
  }

  /** When no two updates of a job overlap between HSET and the index and none dies there, the settled index
      is exact if and only if no job that was over is left paused. */
  lemma OrderlyIndexExactIff(events: seq<Event>)
    requires Orderly(events) && Settled(Exec(events))
    ensures var w := Exec(events);
            && w.decisive.Keys == w.redis.hashes.Keys
            && (Indexed(w.redis) <==>
                forall id | id in w.redis.hashes :: !(w.redis.hashes[id].status.Paused? && w.decisive[id].Terminal()))
  {
    OrderlyIsInStep(events);
    IndexExactIff(events);
    var w := Exec(events);
    hide Exec, Indexed;
    forall id | id in w.redis.hashes ensures w.moved[id] == w.decisive[id] {
      assert InStep(w, id);
      forall c ensures !Waits(w, c, id) {}
    }
  }

  // ------------------------------------------------------------------ updates that do

  /** Two updates of one job whose index commands come in the opposite order of their HSETs: the index ends
      up exact if and only if both agree on whether the job is over. So a job cancelled between the two
      commands of a start is left in `active` for good, although nothing wrote "paused". */
  lemma CrossedUpdatesExactIff(w: World, c: int, d: int, id: string, first: Patch, second: Patch)
    requires Indexed(w.redis) && id in w.redis.hashes && c != d && WriterOf(w, c).Idle? && WriterOf(w, d).Idle?
    requires first.status.Some? && second.status.Some? && !first.status.value.Paused? && !second.status.value.Paused?
    ensures Indexed(Crossed(w, c, d, id, first, second).redis) <==>
            first.status.value.Terminal() == second.status.value.Terminal()
  {
    var j := Patched(Patched(w.redis.hashes[id], first), second);
    PatchedStatus(w.redis.hashes[id], first);
    PatchedStatus(Patched(w.redis.hashes[id], first), second);
    CrossedCommands(w, c, d, id, first, second);
    hide Patched, Crossed;
    var s := Crossed(w, c, d, id, first, second).redis;
    var live := LiveIds(s.hashes);
    forall other | other != id ensures other in live <==> other in s.active {
      assert other in live <==> other in LiveIds(w.redis.hashes);
    }
    assert id in live <==> !second.status.value.Terminal();
    if first.status.value.Terminal() == second.status.value.Terminal() {
      assert live == s.active;
    }
  }

  function Crossed(w: World, c: int, d: int, id: string, first: Patch, second: Patch): World {
    var w1 := Step(Step(Step(Step(w, Begin(c, id, first)), Exists(c)), Begin(d, id, second)), Exists(d));
    Step(Step(Step(Step(w1, HSet(c)), HSet(d)), Index(d)), Index(c))
  }

  lemma BothLook(w: World, c: int, d: int, id: string, first: Patch, second: Patch)
    requires id in w.redis.hashes && c != d && WriterOf(w, c).Idle? && WriterOf(w, d).Idle?
    ensures var w1 := Step(Step(Step(Step(w, Begin(c, id, first)), Exists(c)), Begin(d, id, second)), Exists(d));
            WriterOf(w1, c) == Checked(id, first) && WriterOf(w1, d) == Checked(id, second) && w1.redis == w.redis
  {
  }

  lemma BothSet(w1: World, c: int, d: int, id: string, first: Patch, second: Patch)
    requires id in w1.redis.hashes && c != d && first.status.Some? && second.status.Some?
    requires WriterOf(w1, c) == Checked(id, first) && WriterOf(w1, d) == Checked(id, second)
    ensures var w2 := Step(Step(w1, HSet(c)), HSet(d));
            && WriterOf(w2, c) == Hashed(id, first) && WriterOf(w2, d) == Hashed(id, second)
            && w2.redis.active == w1.redis.active
            && w2.redis.hashes == w1.redis.hashes[id := Patched(Patched(w1.redis.hashes[id], first), second)]
  {
    hide Patched;
  }

  lemma BothIndex(w2: World, c: int, d: int, id: string, first: Patch, second: Patch)
    requires c != d && first.status.Some? && second.status.Some?
    requires WriterOf(w2, c) == Hashed(id, first) && WriterOf(w2, d) == Hashed(id, second)
    ensures var s := Step(Step(w2, Index(d)), Index(c)).redis;
            && s.hashes == w2.redis.hashes
            && s.active == Moved(Moved(w2.redis.active, id, second.status.value), id, first.status.value)
  {
    hide Moved;
  }

  lemma CrossedCommands(w: World, c: int, d: int, id: string, first: Patch, second: Patch)
    requires id in w.redis.hashes && c != d && WriterOf(w, c).Idle? && WriterOf(w, d).Idle?
    requires first.status.Some? && second.status.Some?
    ensures var s := Crossed(w, c, d, id, first, second).redis;
            && s.hashes == w.redis.hashes[id := Patched(Patched(w.redis.hashes[id], first), second)]
            && s.active == Moved(Moved(w.redis.active, id, second.status.value), id, first.status.value)
  {
    hide Patched, Moved, Step, WriterOf;
    var w1 := Step(Step(Step(Step(w, Begin(c, id, first)), Exists(c)), Begin(d, id, second)), Exists(d));
    BothLook(w, c, d, id, first, second);
    BothSet(w1, c, d, id, first, second);
    BothIndex(Step(Step(w1, HSet(c)), HSet(d)), c, d, id, first, second);
  }

  // ------------------------------------------------------------------ when the outcome of a run stands

  function At(events: seq<Event>, n: nat): World
    requires n <= |events|
  {
    Exec(events[..n])
  }

  lemma AtStep(events: seq<Event>, n: nat)
    requires n < |events|
    ensures At(events, n + 1) == Step(At(events, n), events[n])
  {
    hide Step;
    assert events[..n + 1][..n] == events[..n];
  }

  /** The event that began the update which client c has under way after n events. */
  function BegunAt(events: seq<Event>, n: nat, c: int): (j: Option<nat>)
    requires n <= |events|
    ensures j.Some? ==> j.value < n
  {
    if n == 0 || WriterOf(At(events, n), c).Idle? then None
    else if WriterOf(At(events, n - 1), c).Idle? then Some(n - 1)
    else BegunAt(events, n - 1, c)
  }

  /** The event decided on this update: a control call by what it saw, a run by itself. */
  predicate Decides(w: World, e: Event, c: int, id: string, patch: Patch) {
    match e
    case Look(d, call) =>
      && d == c && Control(call) && call.id == id && id in w.redis.hashes
      && Write(call, w.redis.hashes[id]) == Some(patch)
    case Begin(d, i, p) => d == c && i == id && p == patch
    case _ => false
  }

  /** A step starts an update of the client, or carries on the one it has. */
  lemma WriterMoves(w: World, e: Event, c: int)
    requires !WriterOf(Step(w, e), c).Idle?
    ensures var before, after := WriterOf(w, c), WriterOf(Step(w, e), c);
            if before.Idle? then Decides(w, e, c, after.id, after.patch)
            else after.id == before.id && after.patch == before.patch
  {
    hide Write, Patched, RedisCreate, Moved;
  }

  lemma {:induction false} UpdateWasDecided(events: seq<Event>, n: nat, c: int)
    requires n <= |events| && !WriterOf(At(events, n), c).Idle?
    ensures BegunAt(events, n, c).Some?
    ensures var j, me := BegunAt(events, n, c).value, WriterOf(At(events, n), c);
            j < n && Decides(At(events, j), events[j], c, me.id, me.patch)
  {
    if n > 0 {
      AtStep(events, n - 1);
      WriterMoves(At(events, n - 1), events[n - 1], c);
      hide At, Step, Decides;
      if !WriterOf(At(events, n - 1), c).Idle? {
        UpdateWasDecided(events, n - 1, c);
      }
    }
  }

  /** Event n writes a status to the job. */
  predicate Lands(events: seq<Event>, n: nat, id: string)
    requires n < |events|
  {
    && events[n].HSet?
    && var me := WriterOf(At(events, n), events[n].c);
       me.Checked? && me.id == id && id in At(events, n).redis.hashes && me.patch.status.Some?
  }

  function Landed(events: seq<Event>, n: nat, id: string): Status
    requires n < |events| && Lands(events, n, id)
  {
    WriterOf(At(events, n), events[n].c).patch.status.value
  }

  /** From moment f on no run of the job writes a status any more: only control calls do. */
  ghost predicate NoRunAfter(events: seq<Event>, f: nat, id: string) {
    forall n | f <= n < |events| :: Lands(events, n, id) ==> ByControl(events, n)
  }

  predicate ByControl(events: seq<Event>, n: nat)
    requires n < |events| && events[n].HSet?
  {
    var j := BegunAt(events, n, events[n].c);
    j.Some? && events[j.value].Look?
  }

  /** At or after moment f, event n writes a status that was decided by a look before f. */
  predicate LandsStale(events: seq<Event>, f: nat, n: nat, id: string)
    requires n < |events|
  {
    && f <= n && Lands(events, n, id)
    && BegunAt(events, n, events[n].c).Some? && BegunAt(events, n, events[n].c).value < f
  }

  /** The status of the job after n events, if there is one. */
  function StatusAt(events: seq<Event>, n: nat, id: string): Option<Status>
    requires n <= |events|
  {
    if id in At(events, n).redis.hashes then Some(At(events, n).redis.hashes[id].status) else None
  }

  lemma StatusMoves(events: seq<Event>, n: nat, id: string)
    requires n < |events| && StatusAt(events, n, id).Some?
    ensures StatusAt(events, n + 1, id) ==
            if Lands(events, n, id) then Some(Landed(events, n, id)) else StatusAt(events, n, id)
  {
    AtStep(events, n);
    var w, e := At(events, n), events[n];
    if e.HSet? && WriterOf(w, e.c).Checked? && WriterOf(w, e.c).id in w.redis.hashes {
      PatchedStatus(w.redis.hashes[WriterOf(w, e.c).id], WriterOf(w, e.c).patch);
    }
    hide At, Patched, Write;
  }

  /** A control call that sees a job that is over writes no status. */
  lemma OverIsLeftAlone(call: Call, j: Job)
    requires Control(call) && j.status.Terminal()
    ensures Write(call, j).Some? ==> Write(call, j).value.status.None?
  {
  }

  /** No control call writes an outcome. */
  lemma ControlWritesNoOutcome(call: Call, j: Job)
    requires Control(call) && Write(call, j).Some? && Write(call, j).value.status.Some?
    ensures Write(call, j).value.status.value in {Cancelled, Paused, Running, Queued}
  {
  }

  /** What a control call lands was decided by a look at the job, while it was not over. */
  lemma LandingWasDecided(events: seq<Event>, n: nat, id: string)
    requires n < |events| && Lands(events, n, id) && ByControl(events, n)
    ensures var j := BegunAt(events, n, events[n].c).value;
            j < n && StatusAt(events, j, id).Some? && !StatusAt(events, j, id).value.Terminal()
    ensures Landed(events, n, id) in {Cancelled, Paused, Running, Queued}
  {
    UpdateWasDecided(events, n, events[n].c);
    var j := BegunAt(events, n, events[n].c).value;
    var job := At(events, j).redis.hashes[id];
    hide At, Write, BegunAt;
    if job.status.Terminal() {
      OverIsLeftAlone(events[j].call, job);
    }
    ControlWritesNoOutcome(events[j].call, job);
  }

  /** Every landing after moment f of a look before f writes the status the job had at f anyway. */
  ghost predicate StaleLandingsAgree(events: seq<Event>, f: nat, id: string)
    requires f <= |events|
  {
    forall n | f <= n < |events| && LandsStale(events, f, n, id) ::
      Some(Landed(events, n, id)) == StatusAt(events, f, id)
  }

  lemma {:induction false} OverUpTo(events: seq<Event>, f: nat, n: nat, id: string)
    requires f <= n <= |events| && StatusAt(events, f, id).Some? && StatusAt(events, f, id).value.Terminal()
    requires NoRunAfter(events, f, id) && StaleLandingsAgree(events, f, id)
    ensures forall m | f <= m <= n :: StatusAt(events, m, id) == StatusAt(events, f, id)
  {
    if f < n {
      hide StatusAt, Lands, BegunAt, Landed, ByControl, At;
      OverUpTo(events, f, n - 1, id);
      StatusMoves(events, n - 1, id);
      assert Lands(events, n - 1, id) ==> ByControl(events, n - 1);
      if Lands(events, n - 1, id) {
        LandingWasDecided(events, n - 1, id);
        assert LandsStale(events, f, n - 1, id);
      }
    }
  }

  /** A job that is over stays as it is, exactly: if no run of it writes a status any more, its status never
      changes if and only if no control call that looked before lands another status. */
  lemma OverStaysIff(events: seq<Event>, f: nat, id: string)
    requires f <= |events| && StatusAt(events, f, id).Some? && StatusAt(events, f, id).value.Terminal()
    requires NoRunAfter(events, f, id)
    ensures (forall n | f <= n <= |events| :: StatusAt(events, n, id) == StatusAt(events, f, id)) <==>
            StaleLandingsAgree(events, f, id)
  {
    hide StatusAt, Lands, Landed, BegunAt;
    if StaleLandingsAgree(events, f, id) {
      OverUpTo(events, f, |events|, id);
    } else {
      var n :| && f <= n < |events| && LandsStale(events, f, n, id)
               && Some(Landed(events, n, id)) != StatusAt(events, f, id);
      if StatusAt(events, n, id) == StatusAt(events, f, id) {
        StatusMoves(events, n, id);
        assert StatusAt(events, n + 1, id) != StatusAt(events, f, id);
      }
    }
  }

  /** Once only control calls write, a status they wrote is never an outcome again. */
  lemma {:induction false} NoOutcomeAgain(events: seq<Event>, f: nat, m: nat, n: nat, id: string)
    requires f <= m < n <= |events| && Lands(events, m, id) && NoRunAfter(events, f, id)
    ensures StatusAt(events, n, id).Some? && StatusAt(events, n, id).value !in {Succeeded, Failed}
    decreases n
  {
    if n == m + 1 {
      StatusMoves(events, m, id);
      hide StatusAt, Lands, BegunAt, Landed, ByControl;
      LandingWasDecided(events, m, id);
    } else {
      hide StatusAt, Lands, BegunAt, Landed, ByControl, At;
      NoOutcomeAgain(events, f, m, n - 1, id);
      StatusMoves(events, n - 1, id);
      assert Lands(events, n - 1, id) ==> ByControl(events, n - 1);
      if Lands(events, n - 1, id) {
        LandingWasDecided(events, n - 1, id);
      }
    }
  }

  /** The outcome that the last run of a job has written is its status in the end if and only if no control
      call that looked before that lands a status after it. */
  lemma OutcomeStandsIff(events: seq<Event>, f: nat, id: string)
    requires f <= |events| && StatusAt(events, f, id) in {Some(Succeeded), Some(Failed)}
    requires NoRunAfter(events, f, id)
    ensures StatusAt(events, |events|, id) == StatusAt(events, f, id) <==>
            forall n | f <= n < |events| :: !LandsStale(events, f, n, id)
  {
    if forall n | f <= n < |events| :: !LandsStale(events, f, n, id) {
      OverUpTo(events, f, |events|, id);
    } else {
      var n :| f <= n < |events| && LandsStale(events, f, n, id);
      NoOutcomeAgain(events, f, n, |events|, id);
    }
  }
}
