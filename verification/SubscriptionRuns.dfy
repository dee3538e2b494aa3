/** Whole runs of lumen/platform/subscription_store.py: any number of processes at once, each call cut into
    its Mongo command and its session commands, with evictions and crashes anywhere in between. */
module SubscriptionRuns {
  import opened Prelude
  import opened Session
  import opened Subscription

  /** A call between its commands.  `v` says which of the user's Mongo states a subscription comes from,
      `change` which of them the call made. */
  datatype Task =
    | Idle
    | Missed(uid: int)
    | Caching(uid: int, record: Fields, v: nat, change: Option<nat>)
    | Deleting(uid: int, v: nat)
    | Clearing(uid: int, remaining: Fields, v: nat)
    | Hydrated(uid: int, fields: Fields, v: nat)
    | Saving(uid: int, payload: Fields, v: nat, change: Option<nat>)
    | Landing(uid: int, merged: Fields, v: nat, change: Option<nat>)

  /** The Mongo states of one user, the first of which is no subscription at all. */
  type History = h: seq<Option<Fields>> | h != [] witness [None]

  /** `hist` holds the Mongo states of each user in order, `tags` says which of them the stored copy is
      from, `done` which changes have been carried over to the session by the call that made them. */
  datatype World = World(
    records: map<int, Fields>,
    sessions: Sessions,
    tasks: map<int, Task>,
    tags: map<int, nat>,
    hist: map<int, History>,
    done: set<(int, nat)>)

  const START := World(map[], map[], map[], map[], map[], {})

  /** One command each; an event that is not possible leaves the world as it is. */
  datatype Event =
    | PutRecord(c: int, uid: int, record: Fields)     // write: the Mongo command
    | UnsetRecord(c: int, uid: int)                   // delete: the Mongo command
    | Look(c: int, uid: int)                          // read: the session, answered if the copy is there
    | Ask(c: int)                                     // read: Mongo, after a miss
    | LoadForCache(c: int)
    | LoadForDelete(c: int)
    | ClearKey(c: int)
    | Hydrate(c: int, uid: int)                       // the bot loads the session, copy included
    | SaveBack(c: int, changes: Fields)               // and saves it with changes
    | SaveOther(c: int, uid: int, payload: Fields)
    | GetForSave(c: int, sealing: bool)
    | SetSession(c: int)
    | DropKey(uid: int)                               // eviction, or the end of the key's lifetime
    | Crash(c: int)

  function TaskOf(w: World, c: int): Task {
    if c in w.tasks then w.tasks[c] else Idle
  }

  function TagOf(w: World, uid: int): nat {
    if uid in w.tags then w.tags[uid] else 0
  }

  function HistOf(w: World, uid: int): History {
    if uid in w.hist then w.hist[uid] else [None]
  }

  function Version(w: World, uid: int): nat {
    |HistOf(w, uid)| - 1
  }

  function WithTask(w: World, c: int, t: Task): World {
    w.(tasks := w.tasks[c := t])
  }

  /** The Mongo command of a write or a delete. */
  function Changed(w: World, uid: int, record: Option<Fields>): World {
    w.(records := if record.Some? then w.records[uid := record.value] else w.records - {uid},
       hist := w.hist[uid := HistOf(w, uid) + [record]])
  }

  function Finished(w: World, uid: int, change: Option<nat>): World {
    if change.Some? then w.(done := w.done + {(uid, change.value)}) else w
  }

  function Landed(w: World, uid: int, merged: Fields, v: nat): World {
    w.(sessions := w.sessions[uid := merged], tags := w.tags[uid := v])
  }

  function Step(w: World, e: Event): World {
    match e
    case PutRecord(c, uid, record) =>
      if !TaskOf(w, c).Idle? || uid <= 0 then w
      else WithTask(Changed(w, uid, Some(record)), c, Caching(uid, record, |HistOf(w, uid)|, Some(|HistOf(w, uid)|)))
    case UnsetRecord(c, uid) =>
      if !TaskOf(w, c).Idle? || uid <= 0 then w
      else WithTask(Changed(w, uid, None), c, Deleting(uid, |HistOf(w, uid)|))
    case Look(c, uid) =>
      if !TaskOf(w, c).Idle? || uid <= 0 || Cached(w.sessions, uid).Some? then w else WithTask(w, c, Missed(uid))
    case Ask(c) =>
      var me := TaskOf(w, c);
      if !me.Missed? then w
      else
        var found := OnRecord(w.records, me.uid);
        WithTask(w, c, if found.Some? then Caching(me.uid, found.value, Version(w, me.uid), None) else Idle)
    case LoadForCache(c) =>
      var me := TaskOf(w, c);
      if !me.Caching? then w
      else WithTask(w, c, Saving(me.uid, Loaded(w.sessions, me.uid)[PRO := Dict(me.record)], me.v, me.change))
    case LoadForDelete(c) =>
      var me := TaskOf(w, c);
      if !me.Deleting? then w
      else if PRO in Loaded(w.sessions, me.uid) then
        WithTask(w, c, Clearing(me.uid, Loaded(w.sessions, me.uid) - {PRO}, me.v))
      else Finished(WithTask(w, c, Idle), me.uid, Some(me.v))
    case ClearKey(c) =>
      var me := TaskOf(w, c);
      if !me.Clearing? then w
      else
        var next := if me.remaining != map[] then Saving(me.uid, me.remaining, 0, None) else Idle;
        Finished(WithTask(w.(sessions := w.sessions - {me.uid}), c, next), me.uid, Some(me.v))
    case Hydrate(c, uid) =>
      if !TaskOf(w, c).Idle? then w else WithTask(w, c, Hydrated(uid, Loaded(w.sessions, uid), TagOf(w, uid)))
    case SaveBack(c, changes) =>
      var me := TaskOf(w, c);
      if !me.Hydrated? then w else WithTask(w, c, Saving(me.uid, me.fields + changes, me.v, None))
    case SaveOther(c, uid, payload) =>
      if !TaskOf(w, c).Idle? then w else WithTask(w, c, Saving(uid, payload, 0, None))
    case GetForSave(c, sealing) =>
      var me := TaskOf(w, c);
      if !me.Saving? then w
      else
        var incoming := FilterDurable(sealing, me.payload);
        var v := if PRO in incoming then me.v else TagOf(w, me.uid);
        WithTask(w, c, Landing(me.uid, Loaded(w.sessions, me.uid) + incoming, v, me.change))
    case SetSession(c) =>
      var me := TaskOf(w, c);
      if !me.Landing? then w
      else
        Finished(WithTask(Landed(w, me.uid, me.merged, me.v), c, Idle), me.uid, me.change)
    case DropKey(uid) => w.(sessions := w.sessions - {uid})
    case Crash(c) => WithTask(w, c, Idle)
  }

  /** Only the payment code puts a subscription into a session object by itself. */
  predicate Ordinary(e: Event) {
    && (e.SaveOther? ==> PRO !in e.payload)
    && (e.SaveBack? ==> PRO !in e.changes)
  }

  predicate AllOrdinary(events: seq<Event>) {
    forall e | e in events :: Ordinary(e)
  }

  function Exec(events: seq<Event>): World {
    if events == [] then START else Step(Exec(events[..|events| - 1]), events[|events| - 1])
  }

  /** A client that crashed sends none of its remaining commands, and its crash touches no record or session. */
  lemma CrashedClientIsSilent(w: World, c: int, sealing: bool, changes: Fields)
    ensures var dead := Step(w, Crash(c));
            && dead.records == w.records && dead.sessions == w.sessions && dead.hist == w.hist && dead.done == w.done
            && Step(dead, Ask(c)) == Step(dead, LoadForCache(c)) == Step(dead, LoadForDelete(c)) == dead
            && Step(dead, ClearKey(c)) == Step(dead, SaveBack(c, changes)) == Step(dead, GetForSave(c, sealing)) == dead
            && Step(dead, SetSession(c)) == dead
            && forall other | other != c :: TaskOf(dead, other) == TaskOf(w, other)
  {
  }

  /** Without a positive user id nothing is written, deleted or looked up. */
  lemma NobodyBelowOne(w: World, c: int, uid: int, record: Fields)
    requires uid <= 0
    ensures Step(w, PutRecord(c, uid, record)) == Step(w, UnsetRecord(c, uid)) == Step(w, Look(c, uid)) == w
  {
  }

  /** What an undisturbed read answers. */
  function ReadNow(w: World, uid: int): Option<Fields> {
    if Cached(w.sessions, uid).Some? then Cached(w.sessions, uid) else OnRecord(w.records, uid)
  }

  // ------------------------------------------------------------------ the calls are runs

  function StoresOf(w: World): Stores {
    Stores(w.records, w.sessions)
  }

  function EvictStep(w: World, uid: int, evict: bool): World {
    if evict then Step(w, DropKey(uid)) else w
  }

  /** The session half of a write or a heal on its own. */
  function CacheSteps(w: World, c: int, uid: int, e1: bool, e2: bool, sealing: bool): World {
    var loaded := Step(EvictStep(w, uid, e1), LoadForCache(c));
    Step(Step(EvictStep(loaded, uid, e2), GetForSave(c, sealing)), SetSession(c))
  }

  lemma CachingIsARun(w: World, c: int, e1: bool, e2: bool, sealing: bool)
    requires TaskOf(w, c).Caching?
    ensures var me := TaskOf(w, c);
            StoresOf(CacheSteps(w, c, me.uid, e1, e2, sealing)) ==
            Stores(w.records, AfterCaching(w.sessions, me.uid, me.record, e1, e2, sealing))
  {
    hide FilterDurable;
  }

  lemma WriteIsARun(w: World, c: int, uid: int, record: Fields, e1: bool, e2: bool, sealing: bool)
    requires TaskOf(w, c).Idle? && uid > 0
    ensures StoresOf(CacheSteps(Step(w, PutRecord(c, uid, record)), c, uid, e1, e2, sealing)) ==
            AfterWrite(StoresOf(w), uid, record, e1, e2, sealing)
  {
    CachingIsARun(Step(w, PutRecord(c, uid, record)), c, e1, e2, sealing);
    hide CacheSteps, AfterCaching;
  }

  lemma ReadIsARun(w: World, c: int, uid: int, e1: bool, e2: bool, sealing: bool)
    requires TaskOf(w, c).Idle? && uid > 0
    ensures var asked := Step(Step(w, Look(c, uid)), Ask(c));
            AfterRead(StoresOf(w), uid, e1, e2, sealing) ==
            (StoresOf(if TaskOf(asked, c).Caching? then CacheSteps(asked, c, uid, e1, e2, sealing) else asked),
             ReadNow(w, uid))
  {
    var asked := Step(Step(w, Look(c, uid)), Ask(c));
    if TaskOf(asked, c).Caching? {
      CachingIsARun(asked, c, e1, e2, sealing);
    }
    hide CacheSteps, AfterCaching;
  }

  lemma SavingIsARun(w: World, c: int, sealing: bool)
    requires TaskOf(w, c).Saving?
    ensures StoresOf(Step(Step(w, GetForSave(c, sealing)), SetSession(c))) ==
            Stores(w.records, AfterSave(w.sessions, TaskOf(w, c).uid, TaskOf(w, c).payload, sealing))
  {
    hide FilterDurable;
  }

  /** A save of the bot's is its two commands, too, whether it saves what it is given or a session that was
      loaded before with changes. */
  lemma BotSaveIsARun(w: World, c: int, uid: int, payload: Fields, sealing: bool)
    ensures TaskOf(w, c).Idle? ==>
              StoresOf(Step(Step(Step(w, SaveOther(c, uid, payload)), GetForSave(c, sealing)), SetSession(c))) ==
              Stores(w.records, AfterSave(w.sessions, uid, payload, sealing))
    ensures TaskOf(w, c).Hydrated? ==>
              StoresOf(Step(Step(Step(w, SaveBack(c, payload)), GetForSave(c, sealing)), SetSession(c))) ==
              Stores(w.records, AfterSave(w.sessions, TaskOf(w, c).uid, TaskOf(w, c).fields + payload, sealing))
  {
    if TaskOf(w, c).Idle? {
      SavingIsARun(Step(w, SaveOther(c, uid, payload)), c, sealing);
    } else if TaskOf(w, c).Hydrated? {
      SavingIsARun(Step(w, SaveBack(c, payload)), c, sealing);
    }
    hide AfterSave;
  }

  /** The session half of a delete on its own. */
  function ForgetSteps(w: World, c: int, sealing: bool): World {
    var cleared := Step(Step(w, LoadForDelete(c)), ClearKey(c));
    Step(Step(cleared, GetForSave(c, sealing)), SetSession(c))
  }

  lemma CopyIsCleared(w: World, c: int)
    requires TaskOf(w, c).Deleting?
    ensures var uid := TaskOf(w, c).uid;
            var existing := Loaded(w.sessions, uid);
            var cleared := Step(Step(w, LoadForDelete(c)), ClearKey(c));
            && StoresOf(cleared) == Stores(w.records, if PRO in existing then w.sessions - {uid} else w.sessions)
            && TaskOf(cleared, c) == if PRO in existing && existing - {PRO} != map[]
                                     then Saving(uid, existing - {PRO}, 0, None) else Idle
  {
  }

  lemma IdleSavesNothing(w: World, c: int, sealing: bool)
    requires TaskOf(w, c).Idle?
    ensures Step(Step(w, GetForSave(c, sealing)), SetSession(c)) == w
  {
  }

  lemma ForgettingIsARun(w: World, c: int, uid: int, sealing: bool)
    requires TaskOf(w, c).Deleting? && TaskOf(w, c).uid == uid > 0 && uid !in w.records
    ensures StoresOf(ForgetSteps(w, c, sealing)) == AfterDelete(StoresOf(w), uid, false, sealing)
  {
    CopyIsCleared(w, c);
    hide Step, AfterSave, TaskOf;
    var cleared := Step(Step(w, LoadForDelete(c)), ClearKey(c));
    assert w.records - {uid} == w.records;
    if TaskOf(cleared, c).Saving? {
      SavingIsARun(cleared, c, sealing);
    } else {
      IdleSavesNothing(cleared, c, sealing);
    }
  }

  lemma DeleteIsARun(w: World, c: int, uid: int, evict: bool, sealing: bool)
    requires TaskOf(w, c).Idle? && uid > 0
    ensures StoresOf(ForgetSteps(EvictStep(Step(w, UnsetRecord(c, uid)), uid, evict), c, sealing)) ==
            AfterDelete(StoresOf(w), uid, evict, sealing)
  {
    var unset := EvictStep(Step(w, UnsetRecord(c, uid)), uid, evict);
    assert TaskOf(unset, c) == Deleting(uid, |HistOf(w, uid)|);
    assert StoresOf(unset) == Stores(w.records - {uid}, EvictIf(w.sessions, uid, evict));
    ForgettingIsARun(unset, c, uid, sealing);
    assert w.records - {uid} - {uid} == w.records - {uid};
    hide ForgetSteps, Step, AfterSave;
  }

  // ------------------------------------------------------------------ where every copy comes from

  /** A subscription in a session object stems from Mongo state v of the user. */
  predicate Tagged(hist: seq<Option<Fields>>, fields: Fields, v: nat) {
    PRO in fields ==>
      && v < |hist| && hist[v].Some?
      && (Storable(Dict(hist[v].value)) ==> fields[PRO] == Dict(hist[v].value))
  }

  predicate TaskOk(w: World, t: Task) {
    match t
    case Caching(uid, record, v, change) =>
      && v < |HistOf(w, uid)| && HistOf(w, uid)[v] == Some(record)
      && (change.Some? ==> change.value < |HistOf(w, uid)|)
    case Deleting(uid, v) => v < |HistOf(w, uid)|
    case Clearing(uid, remaining, v) => PRO !in remaining && v < |HistOf(w, uid)|
    case Hydrated(uid, fields, v) => Tagged(HistOf(w, uid), fields, v)
    case Saving(uid, payload, v, change) =>
      Tagged(HistOf(w, uid), payload, v) && (change.Some? ==> change.value < |HistOf(w, uid)|)
    case Landing(uid, merged, v, change) =>
      Tagged(HistOf(w, uid), merged, v) && (change.Some? ==> change.value < |HistOf(w, uid)|)
    case _ => true
  }

  predicate UserOk(w: World, uid: int) {
    && HistOf(w, uid)[Version(w, uid)] == (if uid in w.records then Some(w.records[uid]) else None)
    && Tagged(HistOf(w, uid), Loaded(w.sessions, uid), TagOf(w, uid))
  }

  ghost predicate Inv(w: World) {
    && (forall uid :: UserOk(w, uid))
    && (forall c :: TaskOk(w, TaskOf(w, c)))
    && (forall d | d in w.done :: d.1 < |HistOf(w, d.0)|)
  }

  /** Histories only grow. */
  ghost predicate Grows(w: World, w': World) {
    forall uid :: HistOf(w, uid) <= HistOf(w', uid)
  }

  lemma GrowthKeepsTag(hist: seq<Option<Fields>>, longer: seq<Option<Fields>>, fields: Fields, v: nat)
    requires hist <= longer && Tagged(hist, fields, v)
    ensures Tagged(longer, fields, v)
  {
  }

  lemma GrowthKeepsTask(w: World, w': World, t: Task)
    requires Grows(w, w') && TaskOk(w, t)
    ensures TaskOk(w', t)
  {
    hide Storable;
    if !t.Idle? {
      assert HistOf(w, t.uid) <= HistOf(w', t.uid);
    }
  }

  /** A step of client c that touches user uid keeps the invariant if it leaves both in order. */
  lemma KeepsInv(w: World, w': World, c: int, uid: int)
    requires Inv(w) && Grows(w, w')
    requires forall d | d != c :: TaskOf(w', d) == TaskOf(w, d)
    requires forall u | u != uid :: HistOf(w', u) == HistOf(w, u) && TagOf(w', u) == TagOf(w, u)
    requires forall u | u != uid :: Loaded(w'.sessions, u) == Loaded(w.sessions, u)
    requires forall u | u != uid ::
               (u in w'.records <==> u in w.records) && (u in w.records ==> w'.records[u] == w.records[u])
    requires UserOk(w', uid) && TaskOk(w', TaskOf(w', c))
    requires forall d | d in w'.done && d !in w.done :: d.1 < |HistOf(w', d.0)|
    ensures Inv(w')
  {
    hide Storable, Tagged;
    forall u ensures UserOk(w', u) {
      assert UserOk(w, u);
    }
    forall d ensures TaskOk(w', TaskOf(w', d)) {
      if d != c {
        GrowthKeepsTask(w, w', TaskOf(w, d));
      }
    }
    forall d | d in w'.done ensures d.1 < |HistOf(w', d.0)| {
      assert HistOf(w, d.0) <= HistOf(w', d.0);
    }
  }

  lemma ChangedUser(w: World, uid: int, record: Option<Fields>)
    requires UserOk(w, uid)
    ensures HistOf(Changed(w, uid, record), uid) == HistOf(w, uid) + [record]
    ensures UserOk(Changed(w, uid, record), uid)
  {
    hide Storable;
    GrowthKeepsTag(HistOf(w, uid), HistOf(w, uid) + [record], Loaded(w.sessions, uid), TagOf(w, uid));
    hide Tagged;
  }

  lemma ChangeKeepsInv(w: World, c: int, uid: int, record: Option<Fields>, t: Task)
    requires Inv(w)
    requires TaskOk(Changed(w, uid, record), t)
    ensures Inv(WithTask(Changed(w, uid, record), c, t))
  {
    assert UserOk(w, uid) && TaskOk(w, TaskOf(w, c));
    hide Storable, Tagged, TaskOk, Inv;
    ChangedUser(w, uid, record);
    var w1 := Changed(w, uid, record);
    GrowthKeepsTask(w, w1, TaskOf(w, c));
    KeepsInv(w, w1, c, uid);
    TaskKeepsInv(w1, c, t);
  }

  /** A step that only moves its own client on. */
  lemma TaskKeepsInv(w: World, c: int, t: Task)
    requires Inv(w) && TaskOk(w, t)
    ensures Inv(WithTask(w, c, t))
  {
    hide Storable, Tagged;
    var w' := WithTask(w, c, t);
    GrowthKeepsTask(w, w', t);
    assert UserOk(w, 0);
    KeepsInv(w, w', c, 0);
  }

  lemma FinishKeepsInv(w: World, uid: int, change: Option<nat>)
    requires Inv(w) && (change.Some? ==> change.value < |HistOf(w, uid)|)
    ensures Inv(Finished(w, uid, change))
  {
    hide Storable, Tagged;
    var w' := Finished(w, uid, change);
    assert TaskOk(w, TaskOf(w, 0)) && UserOk(w, uid);
    GrowthKeepsTask(w, w', TaskOf(w, 0));
    KeepsInv(w, w', 0, uid);
  }

  /** A save keeps the subscription it carries, if that is storable. */
  lemma MergedIsTagged(hist: seq<Option<Fields>>, stored: Fields, tag: nat, payload: Fields, v: nat, sealing: bool)
    requires Tagged(hist, stored, tag) && Tagged(hist, payload, v)
    ensures var incoming := FilterDurable(sealing, payload);
            Tagged(hist, stored + incoming, if PRO in incoming then v else tag)
  {
    hide Storable, Written;
    ProIsPlain();
    var incoming := FilterDurable(sealing, payload);
    if PRO in incoming {
      SaveEffect(map[], 0, payload, sealing);
      assert AfterSave(map[], 0, payload, sealing)[0] == map[] + incoming;
      WrittenAsIsIff(sealing, Dict(hist[v].value));
    }
  }

  lemma GetKeepsInv(w: World, c: int, sealing: bool)
    requires Inv(w)
    ensures Inv(Step(w, GetForSave(c, sealing)))
  {
    hide FilterDurable, Storable;
    var me := TaskOf(w, c);
    if me.Saving? {
      assert TaskOk(w, me) && UserOk(w, me.uid);
      MergedIsTagged(HistOf(w, me.uid), Loaded(w.sessions, me.uid), TagOf(w, me.uid), me.payload, me.v, sealing);
      TaskKeepsInv(w, c, TaskOf(Step(w, GetForSave(c, sealing)), c));
    }
  }

  lemma LandingKeepsInv(w: World, uid: int, merged: Fields, v: nat)
    requires Inv(w) && Tagged(HistOf(w, uid), merged, v)
    ensures Inv(Landed(w, uid, merged, v))
  {
    hide Storable, Tagged;
    var w' := Landed(w, uid, merged, v);
    assert UserOk(w, uid) && TaskOk(w, TaskOf(w, 0));
    GrowthKeepsTask(w, w', TaskOf(w, 0));
    KeepsInv(w, w', 0, uid);
  }

  lemma SetKeepsInv(w: World, c: int)
    requires Inv(w)
    ensures Inv(Step(w, SetSession(c)))
  {
    hide Storable, Tagged;
    var me := TaskOf(w, c);
    if me.Landing? {
      assert TaskOk(w, me);
      var landed := Landed(w, me.uid, me.merged, me.v);
      LandingKeepsInv(w, me.uid, me.merged, me.v);
      TaskKeepsInv(landed, c, Idle);
      FinishKeepsInv(WithTask(landed, c, Idle), me.uid, me.change);
      hide Inv;
    }
  }

  lemma RemovalKeepsInv(w: World, uid: int)
    requires Inv(w)
    ensures Inv(w.(sessions := w.sessions - {uid}))
  {
    hide Storable;
    var w' := w.(sessions := w.sessions - {uid});
    assert UserOk(w, uid) && TaskOk(w, TaskOf(w, 0));
    GrowthKeepsTask(w, w', TaskOf(w, 0));
    KeepsInv(w, w', 0, uid);
  }

  lemma ClearKeepsInv(w: World, c: int)
    requires Inv(w)
    ensures Inv(Step(w, ClearKey(c)))
  {
    hide Storable;
    var me := TaskOf(w, c);
    if me.Clearing? {
      assert TaskOk(w, me);
      RemovalKeepsInv(w, me.uid);
      var w' := w.(sessions := w.sessions - {me.uid});
      var next := if me.remaining != map[] then Saving(me.uid, me.remaining, 0, None) else Idle;
      TaskKeepsInv(w', c, next);
      FinishKeepsInv(WithTask(w', c, next), me.uid, Some(me.v));
    }
  }

  lemma StepKeepsInv(w: World, e: Event)
    requires Inv(w) && Ordinary(e)
    ensures Inv(Step(w, e))
  {
    hide Storable, FilterDurable;
    match e
    case PutRecord(c, uid, record) =>
      ChangeKeepsInv(w, c, uid, Some(record), Caching(uid, record, |HistOf(w, uid)|, Some(|HistOf(w, uid)|)));
    case UnsetRecord(c, uid) =>
      ChangeKeepsInv(w, c, uid, None, Deleting(uid, |HistOf(w, uid)|));
    case GetForSave(c, sealing) => GetKeepsInv(w, c, sealing);
    case SetSession(c) => SetKeepsInv(w, c);
    case ClearKey(c) => ClearKeepsInv(w, c);
    case DropKey(uid) => RemovalKeepsInv(w, uid);
    case LoadForDelete(c) =>
      var me := TaskOf(w, c);
      assert TaskOk(w, me);
      if me.Deleting? {
        TaskKeepsInv(w, c, if PRO in Loaded(w.sessions, me.uid) then TaskOf(Step(w, e), c) else Idle);
        if PRO !in Loaded(w.sessions, me.uid) {
          FinishKeepsInv(WithTask(w, c, Idle), me.uid, Some(me.v));
        }
      }
    case _ => MoveKeepsInv(w, e);
  }

  lemma MoveKeepsInv(w: World, e: Event)
    requires Inv(w) && Ordinary(e)
    requires e.Look? || e.Ask? || e.LoadForCache? || e.Hydrate? || e.SaveBack? || e.SaveOther? || e.Crash?
    ensures Inv(Step(w, e))
  {
    hide Storable, FilterDurable;
    var me, next := TaskOf(w, e.c), TaskOf(Step(w, e), e.c);
    assert TaskOk(w, me);
    assert me.Missed? ==> UserOk(w, me.uid);
    assert e.Hydrate? ==> UserOk(w, e.uid);
    if Step(w, e) != w {
      TaskKeepsInv(w, e.c, next);
    }
  }

  /** In every run, every copy of a subscription in a session stems from a state Mongo really had. */
  lemma {:induction false} EveryCopyHasASource(events: seq<Event>)
    requires AllOrdinary(events)
    ensures Inv(Exec(events))
  {
    if events != [] {
      hide Inv, Step, Ordinary;
      EveryCopyHasASource(events[..|events| - 1]);
      StepKeepsInv(Exec(events[..|events| - 1]), events[|events| - 1]);
    } else {
      hide Storable;
      assert forall uid :: UserOk(START, uid);
    }
  }

  // ------------------------------------------------------------------ when a read is right

  /** Mongo's record is the last one written and not deleted. */
  function LastWritten(events: seq<Event>, uid: int): Option<Fields> {
    if events == [] then None
    else
      var e, before := events[|events| - 1], events[..|events| - 1];
      if (e.PutRecord? || e.UnsetRecord?) && e.uid == uid && TaskOf(Exec(before), e.c).Idle? then
        if e.PutRecord? then Some(e.record) else None
      else LastWritten(before, uid)
  }

  lemma StepHist(w: World, e: Event, uid: int)
    ensures HistOf(Step(w, e), uid) ==
            if (e.PutRecord? || e.UnsetRecord?) && e.uid == uid && uid > 0 && TaskOf(w, e.c).Idle?
            then HistOf(w, uid) + [if e.PutRecord? then Some(e.record) else None]
            else HistOf(w, uid)
  {
    hide FilterDurable, Cached, Loaded;
  }

  lemma {:induction false} HistoryEndsWithLastWritten(events: seq<Event>, uid: int)
    requires uid > 0
    ensures var w := Exec(events); HistOf(w, uid)[Version(w, uid)] == LastWritten(events, uid)
  {
    hide Step;
    if events != [] {
      HistoryEndsWithLastWritten(events[..|events| - 1], uid);
      StepHist(Exec(events[..|events| - 1]), events[|events| - 1], uid);
    }
  }

  /** A session object carries a non-empty subscription that is no longer the one on record. */
  predicate Outdated(w: World, uid: int, fields: Fields, v: nat) {
    var h := HistOf(w, uid);
    PRO in fields && v < |h| && h[v] != Some(map[]) && h[v] != h[|h| - 1]
  }

  /** The event puts such an object into the user's session. */
  predicate LandsStale(w: World, e: Event, uid: int) {
    e.SetSession? && TaskOf(w, e.c).Landing? && TaskOf(w, e.c).uid == uid
    && Outdated(w, uid, TaskOf(w, e.c).merged, TaskOf(w, e.c).v)
  }

  /** The event sets or removes the user's session. */
  predicate Touches(w: World, e: Event, uid: int) {
    match e
    case SetSession(c) => TaskOf(w, c).Landing? && TaskOf(w, c).uid == uid
    case ClearKey(c) => TaskOf(w, c).Clearing? && TaskOf(w, c).uid == uid
    case DropKey(u) => u == uid
    case _ => false
  }

  /** The last of the first n events that set or removed the user's session put an outdated copy there. */
  predicate LeftStale(events: seq<Event>, n: nat, uid: int)
    requires n <= |events|
  {
    && n > 0
    && var w, e := Exec(events[..n - 1]), events[n - 1];
       if Touches(w, e, uid) then LandsStale(w, e, uid) else LeftStale(events, n - 1, uid)
  }

  /** The call that made the user's latest Mongo change has also done its part on the session. */
  predicate Settled(w: World, uid: int) {
    Version(w, uid) > 0 ==> (uid, Version(w, uid)) in w.done
  }

  /** Carrying out change v of the user's record. */
  predicate CarriesOut(t: Task, uid: int, v: nat) {
    match t
    case Caching(u, _, _, change) => u == uid && change == Some(v)
    case Saving(u, _, _, change) => u == uid && change == Some(v)
    case Landing(u, _, _, change) => u == uid && change == Some(v)
    case Deleting(u, n) => u == uid && n == v
    case Clearing(u, _, n) => u == uid && n == v
    case _ => false
  }

  /** The Mongo command of a write or a delete makes the next version, which its caller then carries out. */
  lemma ChangeBegins(w: World, c: int, uid: int, record: Fields)
    requires TaskOf(w, c).Idle? && uid > 0
    ensures var written, unset := Step(w, PutRecord(c, uid, record)), Step(w, UnsetRecord(c, uid));
            && HistOf(written, uid) == HistOf(w, uid) + [Some(record)] && HistOf(unset, uid) == HistOf(w, uid) + [None]
            && CarriesOut(TaskOf(written, c), uid, Version(w, uid) + 1)
            && CarriesOut(TaskOf(unset, c), uid, Version(w, uid) + 1)
  {
  }

  /** A change is done exactly when its caller is through with it without having crashed. */
  lemma ChangeEndsDoneOrCrashed(w: World, e: Event, c: int, uid: int, v: nat)
    requires CarriesOut(TaskOf(w, c), uid, v) && (uid, v) !in w.done
    requires forall other | other != c :: !CarriesOut(TaskOf(w, other), uid, v)
    ensures var w' := Step(w, e);
            if CarriesOut(TaskOf(w', c), uid, v) then (uid, v) !in w'.done
            else ((uid, v) in w'.done <==> e != Crash(c))
  {
    hide FilterDurable, Cached;
  }

  predicate StoredOutdated(w: World, uid: int) {
    Outdated(w, uid, Loaded(w.sessions, uid), TagOf(w, uid))
  }

  lemma TouchSets(w: World, e: Event, uid: int)
    requires Touches(w, e, uid)
    ensures StoredOutdated(Step(w, e), uid) <==> LandsStale(w, e, uid)
    ensures LandsStale(w, e, uid) ==> PRO in Loaded(Step(w, e).sessions, uid)
  {
  }

  lemma NoTouchKeeps(w: World, e: Event, uid: int)
    requires !Touches(w, e, uid)
    ensures Loaded(Step(w, e).sessions, uid) == Loaded(w.sessions, uid) && TagOf(Step(w, e), uid) == TagOf(w, uid)
  {
    hide FilterDurable, Cached;
  }

  lemma StepDone(w: World, e: Event, uid: int)
    requires !Touches(w, e, uid) && PRO in Loaded(w.sessions, uid)
    ensures forall v | (uid, v) in Step(w, e).done :: (uid, v) in w.done
  {
    hide FilterDurable, Cached;
  }

  /** Short of touching the session, only a delete that finds no copy there settles a user. */
  lemma NoTouchSettles(w: World, e: Event, uid: int)
    requires Inv(w) && !Touches(w, e, uid) && Settled(Step(w, e), uid)
    ensures HistOf(Step(w, e), uid) == HistOf(w, uid)
    ensures Settled(w, uid) || PRO !in Loaded(w.sessions, uid)
  {
    StepHist(w, e, uid);
    assert UserOk(w, uid);
    if PRO in Loaded(w.sessions, uid) {
      StepDone(w, e, uid);
    }
    hide Step, Touches;
  }

  lemma ExecOneMore(events: seq<Event>, n: nat)
    requires n < |events|
    ensures Exec(events[..n + 1]) == Step(Exec(events[..n]), events[n])
  {
    hide Step;
    assert events[..n + 1][..n] == events[..n];
  }

  lemma OutdatedStep(w: World, e: Event, uid: int, left: bool)
    requires Inv(w)
    requires left ==> PRO in Loaded(w.sessions, uid)
    requires Settled(w, uid) ==> (StoredOutdated(w, uid) <==> left)
    ensures var w' := Step(w, e);
            var left' := if Touches(w, e, uid) then LandsStale(w, e, uid) else left;
            && (left' ==> PRO in Loaded(w'.sessions, uid))
            && (Settled(w', uid) ==> (StoredOutdated(w', uid) <==> left'))
  {
    hide Inv, Touches, LandsStale, Step, Settled;
    if Touches(w, e, uid) {
      TouchSets(w, e, uid);
    } else {
      NoTouchKeeps(w, e, uid);
      if Settled(Step(w, e), uid) {
        NoTouchSettles(w, e, uid);
      }
    }
  }

  lemma {:induction false} SettledOutdatedIff(events: seq<Event>, n: nat, uid: int)
    requires n <= |events| && AllOrdinary(events)
    ensures LeftStale(events, n, uid) ==> PRO in Loaded(Exec(events[..n]).sessions, uid)
    ensures Settled(Exec(events[..n]), uid) ==> (StoredOutdated(Exec(events[..n]), uid) <==> LeftStale(events, n, uid))
  {
    if n > 0 {
      SettledOutdatedIff(events, n - 1, uid);
      ExecOneMore(events, n - 1);
      EveryCopyHasASource(events[..n - 1]);
      hide Inv, Touches, LandsStale, Ordinary, Exec, Step, Settled, StoredOutdated;
      OutdatedStep(Exec(events[..n - 1]), events[n - 1], uid, LeftStale(events, n - 1, uid));
    }
  }

  predicate AllStorable(events: seq<Event>, uid: int) {
    forall e | e in events :: e.PutRecord? && e.uid == uid ==> Storable(Dict(e.record))
  }

  lemma {:induction false} HistoryStorable(events: seq<Event>, uid: int, v: nat)
    requires AllStorable(events, uid) && v < |HistOf(Exec(events), uid)| && HistOf(Exec(events), uid)[v].Some?
    ensures Storable(Dict(HistOf(Exec(events), uid)[v].value))
  {
    if events != [] {
      var before, e := events[..|events| - 1], events[|events| - 1];
      assert e in events;
      hide Step, Storable;
      StepHist(Exec(before), e, uid);
      if v < |HistOf(Exec(before), uid)| {
        HistoryStorable(before, uid, v);
      }
    }
  }

  /** Reading what is stored gives the record exactly when the stored copy is not outdated. */
  lemma ReadIsRightIff(w: World, uid: int)
    requires Inv(w)
    requires forall v: nat | v < |HistOf(w, uid)| && HistOf(w, uid)[v].Some? ::
               Storable(Dict(HistOf(w, uid)[v].value))
    ensures ReadNow(w, uid) == OnRecord(w.records, uid) <==> !StoredOutdated(w, uid)
  {
    hide Storable;
    assert UserOk(w, uid);
  }

  /** The exact condition, for every run of any number of processes: once the call that made the latest
      change has finished, a read returns the last record written (nothing after a delete) if and only
      if the last command that set or removed the session was not the landing of a copy that a write or
      a delete had meanwhile overtaken. */
  lemma ReadReturnsLastWrittenIff(events: seq<Event>, uid: int)
    requires uid > 0 && AllOrdinary(events) && AllStorable(events, uid) && Settled(Exec(events), uid)
    ensures var answer := if LastWritten(events, uid) == Some(map[]) then None else LastWritten(events, uid);
            ReadNow(Exec(events), uid) == answer <==> !LeftStale(events, |events|, uid)
  {
    assert events[..|events|] == events;
    EveryCopyHasASource(events);
    HistoryEndsWithLastWritten(events, uid);
    SettledOutdatedIff(events, |events|, uid);
    var w := Exec(events);
    assert UserOk(w, uid);
    hide Exec, Inv, LeftStale, Storable;
    forall v: nat | v < |HistOf(w, uid)| && HistOf(w, uid)[v].Some?
      ensures Storable(Dict(HistOf(w, uid)[v].value))
    {
      HistoryStorable(events, uid, v);
    }
    ReadIsRightIff(w, uid);
  }

  // ------------------------------------------------------------------ which landings are stale

  /** The call carries Mongo state v of the user, which is `record`, to the session. */
  predicate Carries(t: Task, uid: int, record: Fields, v: nat) {
    match t
    case Caching(u, r, tag, _) => u == uid && r == record && tag == v
    case Saving(u, payload, tag, _) => u == uid && tag == v && PRO in payload && payload[PRO] == Dict(record)
    case Landing(u, merged, tag, _) => u == uid && tag == v && PRO in merged
    case _ => false
  }

  lemma TaskSpared(w: World, e: Event, c: int)
    requires e.DropKey? || e.c != c
    ensures TaskOf(Step(w, e), c) == TaskOf(w, c)
  {
    hide Cached, FilterDurable, Loaded;
  }

  lemma CopyIsSaved(payload: Fields, sealing: bool)
    requires PRO in payload && payload[PRO].Dict?
    ensures PRO in FilterDurable(sealing, payload)
  {
    SaveEffect(map[], 0, payload, sealing);
    hide FilterDurable, Written;
    assert PRO in map[] + FilterDurable(sealing, payload);
  }

  /** The save of a payload with a subscription lands a merged object with one. */
  lemma SavedWithCopy(w: World, c: int, sealing: bool)
    requires TaskOf(w, c).Saving? && PRO in TaskOf(w, c).payload && TaskOf(w, c).payload[PRO].Dict?
    ensures var before, after := TaskOf(w, c), TaskOf(Step(w, GetForSave(c, sealing)), c);
            after.Landing? && after.uid == before.uid && after.v == before.v && PRO in after.merged
  {
    hide FilterDurable;
    CopyIsSaved(TaskOf(w, c).payload, sealing);
  }

  lemma CarriedOn(w: World, e: Event, c: int, uid: int, record: Fields, v: nat)
    requires Carries(TaskOf(w, c), uid, record, v)
    requires e != SetSession(c) && e != Crash(c)
    ensures Carries(TaskOf(Step(w, e), c), uid, record, v)
  {
    hide FilterDurable, Cached;
    if e.DropKey? || e.c != c {
      TaskSpared(w, e, c);
      hide Step;
    } else if e.GetForSave? && TaskOf(w, c).Saving? {
      SavedWithCopy(w, c, e.sealing);
      hide Step;
    }
  }

  /** What a write put on record, or a heal found there, at event m is carried on by its own commands,
      however many of the other processes' commands come in between. */
  lemma {:induction false} StillCarried(events: seq<Event>, m: nat, n: nat, c: int, uid: int, record: Fields, v: nat)
    requires m <= n <= |events| && Carries(TaskOf(Exec(events[..m]), c), uid, record, v)
    requires forall i | m <= i < n :: events[i] != SetSession(c) && events[i] != Crash(c)
    ensures Carries(TaskOf(Exec(events[..n]), c), uid, record, v)
  {
    if m < n {
      StillCarried(events, m, n - 1, c, uid, record, v);
      ExecOneMore(events, n - 1);
      hide Carries, Step, Exec;
      CarriedOn(Exec(events[..n - 1]), events[n - 1], c, uid, record, v);
    }
  }

  lemma StepGrows(w: World, e: Event, uid: int)
    ensures HistOf(w, uid) <= HistOf(Step(w, e), uid)
  {
    StepHist(w, e, uid);
    hide Step;
  }

  lemma {:induction false} HistoryGrows(events: seq<Event>, m: nat, n: nat, uid: int)
    requires m <= n <= |events|
    ensures HistOf(Exec(events[..m]), uid) <= HistOf(Exec(events[..n]), uid)
  {
    if m == n {
      hide Exec, HistOf;
    } else {
      HistoryGrows(events, m, n - 1, uid);
      ExecOneMore(events, n - 1);
      hide Step, Exec, HistOf;
      StepGrows(Exec(events[..n - 1]), events[n - 1], uid);
      PrefixesCompose(HistOf(Exec(events[..m]), uid), HistOf(Exec(events[..n - 1]), uid),
                      HistOf(Exec(events[..n]), uid));
    }
  }

  lemma PrefixesCompose<T>(a: seq<T>, b: seq<T>, c: seq<T>)
    requires a <= b <= c
    ensures a <= c
  {
    assert forall i | 0 <= i < |a| :: a[i] == b[i] == c[i];
  }

  /** A record that a write put down or a heal found at m lands stale at n exactly when the record in
      Mongo has become another one in between: by then a write or a delete has overtaken it. */
  lemma CachingLandsStaleIff(events: seq<Event>, m: nat, n: nat, c: int, uid: int)
    requires m < n < |events| && uid > 0 && events[n] == SetSession(c)
    requires var t := TaskOf(Exec(events[..m]), c);
             t.Caching? && t.uid == uid && t.record != map[] && t.v == Version(Exec(events[..m]), uid)
    requires Inv(Exec(events[..m])) && TaskOf(Exec(events[..n]), c).Landing?
    requires forall i | m <= i < n :: events[i] != SetSession(c) && events[i] != Crash(c)
    ensures LandsStale(Exec(events[..n]), events[n], uid) <==>
            LastWritten(events[..n], uid) != LastWritten(events[..m], uid)
  {
    var w, w' := Exec(events[..m]), Exec(events[..n]);
    var t := TaskOf(w, c);
    StillCarried(events, m, n, c, uid, t.record, t.v);
    HistoryGrows(events, m, n, uid);
    HistoryEndsWithLastWritten(events[..n], uid);
    HistoryEndsWithLastWritten(events[..m], uid);
    assert TaskOk(w, t);
    hide Exec, LastWritten, Inv;
    CarriedLandsStaleIff(w', events[n], c, uid, t.record, t.v);
    hide Carries, LandsStale, TaskOk;
    assert HistOf(w', uid)[t.v] == HistOf(w, uid)[t.v];
  }

  lemma CarriedLandsStaleIff(w: World, e: Event, c: int, uid: int, record: Fields, v: nat)
    requires e == SetSession(c) && TaskOf(w, c).Landing? && Carries(TaskOf(w, c), uid, record, v)
    requires record != map[] && v < |HistOf(w, uid)| && HistOf(w, uid)[v] == Some(record)
    ensures LandsStale(w, e, uid) <==> HistOf(w, uid)[Version(w, uid)] != Some(record)
  {
  }

  /** Such a landing is what the next read answers, whatever Mongo holds by then: an older record comes
      back after a newer one, and a refunded subscription comes back after its delete. */
  lemma OvertakenRecordIsServed(w: World, c: int, sealing: bool)
    requires TaskOf(w, c).Caching? && TaskOf(w, c).record != map[] && Storable(Dict(TaskOf(w, c).record))
    ensures var t := TaskOf(w, c);
            ReadNow(CacheSteps(w, c, t.uid, false, false, sealing), t.uid) == Some(t.record)
  {
    var t := TaskOf(w, c);
    CachingIsARun(w, c, false, false, sealing);
    CachingStores(w.sessions, t.uid, t.record, false, false, sealing);
    WrittenAsIsIff(sealing, Dict(t.record));
    hide CacheSteps, AfterCaching, Storable, Written;
  }

  /** The same goes for a session that the bot loaded before: `later` is any world in which it still holds
      what it loaded, whatever was written, deleted or saved meanwhile. Its save brings the old copy back. */
  lemma LoadedSessionBringsItBack(w: World, c: int, uid: int, later: World, changes: Fields, sealing: bool)
    requires TaskOf(w, c).Idle? && TaskOf(later, c) == TaskOf(Step(w, Hydrate(c, uid)), c)
    requires Cached(w.sessions, uid).Some? && Storable(Dict(Cached(w.sessions, uid).value)) && PRO !in changes
    ensures var saved := Step(Step(Step(later, SaveBack(c, changes)), GetForSave(c, sealing)), SetSession(c));
            ReadNow(saved, uid) == Cached(w.sessions, uid)
  {
    var payload := Loaded(w.sessions, uid) + changes;
    LoadedWithCopy(w, c, uid);
    BotSaveIsARun(later, c, uid, changes, sealing);
    CarriedCopyIsStored(later.sessions, uid, payload, sealing);
    hide Storable, AfterSave, Step;
  }

  lemma LoadedWithCopy(w: World, c: int, uid: int)
    requires TaskOf(w, c).Idle? && Cached(w.sessions, uid).Some?
    ensures var t := TaskOf(Step(w, Hydrate(c, uid)), c);
            && t.Hydrated? && t.uid == uid && t.fields == Loaded(w.sessions, uid)
            && PRO in t.fields && t.fields[PRO] == Dict(Cached(w.sessions, uid).value)
            && Cached(w.sessions, uid).value != map[]
  {
  }

  /** A process that dies between its Mongo command and its session commands leaves the old copy in
      service, and its user unsettled: the new record is not seen, nor is a refund. */
  lemma CrashedChangeIsNotSeen(w: World, c: int, uid: int, record: Option<Fields>)
    requires Inv(w) && TaskOf(w, c).Idle? && uid > 0 && Cached(w.sessions, uid).Some?
    ensures var e := if record.Some? then PutRecord(c, uid, record.value) else UnsetRecord(c, uid);
            var w' := Step(Step(w, e), Crash(c));
            && ReadNow(w', uid) == Cached(w.sessions, uid)
            && HistOf(w', uid)[Version(w', uid)] == record
            && !Settled(w', uid)
  {
    hide Cached, Storable;
    assert UserOk(w, uid);
  }
}
