/** Whole runs of lumen/bot/session_store.py: several processes saving at once. A save is two Redis
    commands, GET and then SET of the merged object, under a lock that only its own process shares. */
module SessionRuns {
  import opened Prelude
  import opened Session

  function Lookup(fields: Fields, k: string): Option<Json> {
    if k in fields then Some(fields[k]) else None
  }

  /** A save between its two commands: what it loaded, and the durable, redacted part of its payload. */
  datatype Saver = Idle | Pending(uid: int, copy: Fields, incoming: Fields)

  datatype World = World(store: Sessions, savers: map<int, Saver>)

  const START := World(map[], map[])

  datatype Event =
    | Load(c: int, uid: int, payload: Fields, sealing: bool)
    | Land(c: int)
    | Remove(uid: int)    // `clear`, an eviction, or the end of the key's lifetime
    | Crash(c: int)

  function SaverOf(w: World, c: int): Saver {
    if c in w.savers then w.savers[c] else Idle
  }

  function Step(w: World, e: Event): World {
    match e
    case Load(c, uid, payload, sealing) =>
      if !SaverOf(w, c).Idle? then w
      else w.(savers := w.savers[c := Pending(uid, Loaded(w.store, uid), FilterDurable(sealing, payload))])
    case Land(c) =>
      var me := SaverOf(w, c);
      if me.Idle? then w else World(w.store[me.uid := me.copy + me.incoming], w.savers[c := Idle])
    case Remove(uid) => w.(store := w.store - {uid})
    case Crash(c) => w.(savers := w.savers[c := Idle])
  }

  function Exec(events: seq<Event>): World {
    if events == [] then START else Step(Exec(events[..|events| - 1]), events[|events| - 1])
  }

  /** A save that crashed between its commands lands nothing, and its crash touches no session. */
  lemma CrashedSaveLandsNothing(w: World, c: int)
    ensures var dead := Step(w, Crash(c));
            && dead.store == w.store && Step(dead, Land(c)) == dead
            && forall other | other != c :: SaverOf(dead, other) == SaverOf(w, other)
  {
  }

  /** After a clear or an eviction nothing of the session is left, and everybody else's is. */
  lemma RemovedIsGone(w: World, uid: int, other: int)
    ensures var s := Step(w, Remove(uid));
            && Loaded(s.store, uid) == map[] && s.savers == w.savers
            && (other != uid ==> Loaded(s.store, other) == Loaded(w.store, other))
  {
  }

  function At(events: seq<Event>, n: nat): World
    requires n <= |events|
  {
    Exec(events[..n])
  }

  lemma AtStep(events: seq<Event>, n: nat)
    requires n < |events|
    ensures At(events, n + 1) == Step(At(events, n), events[n])
  {
    assert events[..n + 1][..n] == events[..n];
  }

  /** An uninterrupted save is one of these runs. */
  lemma SaveIsARun(w: World, c: int, uid: int, payload: Fields, sealing: bool)
    requires SaverOf(w, c).Idle?
    ensures Step(Step(w, Load(c, uid, payload, sealing)), Land(c)).store == AfterSave(w.store, uid, payload, sealing)
  {
    hide FilterDurable;
  }

  // ------------------------------------------------------------------ the shape of what is stored

  ghost predicate AllShaped(w: World) {
    && (forall uid | uid in w.store :: Shaped(w.store[uid]))
    && (forall c | c in w.savers && w.savers[c].Pending? :: Shaped(w.savers[c].copy) && Shaped(w.savers[c].incoming))
  }

  lemma StepKeepsShape(w: World, e: Event)
    requires AllShaped(w)
    ensures AllShaped(Step(w, e))
  {
    hide FilterDurable;
    if e.Load? {
      FilterIsShaped(e.sealing, e.payload);
    }
  }

  /** However saves interleave, every stored object holds durable keys only, and no nulls. */
  lemma {:induction false} StoreStaysShaped(events: seq<Event>)
    ensures AllShaped(Exec(events))
  {
    if events != [] {
      hide AllShaped, Step;
      StoreStaysShaped(events[..|events| - 1]);
      StepKeepsShape(Exec(events[..|events| - 1]), events[|events| - 1]);
    } else {
      assert AllShaped(START);
    }
  }

  // ------------------------------------------------------------------ what a landing does to a key

  lemma LandingWrites(w: World, c: int, k: string)
    requires SaverOf(w, c).Pending?
    ensures var me := SaverOf(w, c);
            Lookup(Loaded(Step(w, Land(c)).store, me.uid), k) ==
            if k in me.incoming then Some(me.incoming[k]) else Lookup(me.copy, k)
  {
  }

  /** What the pending save of client c loaded differs from what is stored now in a key it does not mention. */
  ghost predicate Stale(w: World, c: int) {
    && SaverOf(w, c).Pending?
    && var me := SaverOf(w, c);
       exists k :: k !in me.incoming && Lookup(me.copy, k) != Lookup(Loaded(w.store, me.uid), k)
  }

  /** The value that event n of the run stores under a key of a user, if it stores one. */
  function Stored(events: seq<Event>, n: nat, uid: int, k: string): Option<Json>
    requires n < |events|
  {
    var e := events[n];
    if !e.Land? then None
    else
      var me := SaverOf(At(events, n), e.c);
      if me.Pending? && me.uid == uid && k in me.incoming then Some(me.incoming[k]) else None
  }

  /** The last value saved under the key by one of the first n events. */
  function LastSaved(events: seq<Event>, n: nat, uid: int, k: string): Option<Json>
    requires n <= |events|
  {
    if n == 0 then None
    else if Stored(events, n - 1, uid, k).Some? then Stored(events, n - 1, uid, k)
    else LastSaved(events, n - 1, uid, k)
  }

  /** What is saved is the redacted and dumped form of the field, if that is not null. */
  lemma SavedIsRedacted(sealing: bool, payload: Fields, k: string)
    ensures var incoming := FilterDurable(sealing, payload);
            && (k in incoming <==>
                  && k in DURABLE_KEYS && k in payload && FieldForm(sealing, k, payload[k]).Some?
                  && FieldForm(sealing, k, payload[k]) != Some(Null))
            && (k in incoming ==> FieldForm(sealing, k, payload[k]) == Some(incoming[k]))
  {
    FilterForm(sealing, payload, k);
    hide FilterDurable, FieldForm;
  }

  /** At every moment the store gives, for every key of the user, the last value saved under it. */
  ghost predicate YieldsLastSaved(events: seq<Event>, uid: int) {
    forall n, k | 0 <= n <= |events| :: Lookup(Loaded(At(events, n).store, uid), k) == LastSaved(events, n, uid, k)
  }

  /** Event n lands a save of the user whose copy is stale. */
  ghost predicate StaleLanding(events: seq<Event>, n: nat, uid: int)
    requires n < |events|
  {
    events[n].Land? && Stale(At(events, n), events[n].c) && SaverOf(At(events, n), events[n].c).uid == uid
  }

  ghost predicate NoStaleLanding(events: seq<Event>, uid: int) {
    forall n: nat | n < |events| :: !StaleLanding(events, n, uid)
  }

  predicate NoRemoval(events: seq<Event>, uid: int) {
    forall e | e in events :: e.Remove? ==> e.uid != uid
  }

  /** One step changes a key of the user to what it saves; only a stale landing can change another. */
  lemma StepStores(events: seq<Event>, n: nat, uid: int, k: string)
    requires n < |events| && NoRemoval(events, uid)
    ensures var before := Lookup(Loaded(At(events, n).store, uid), k);
            var after := Lookup(Loaded(At(events, n + 1).store, uid), k);
            && (Stored(events, n, uid, k).Some? ==> after == Stored(events, n, uid, k))
            && (Stored(events, n, uid, k).None? && !StaleLanding(events, n, uid) ==> after == before)
  {
    hide FilterDurable;
    AtStep(events, n);
    assert events[n] in events;
    var w, e := At(events, n), events[n];
    hide At;
    if e.Land? && SaverOf(w, e.c).Pending? {
      LandingWrites(w, e.c, k);
    }
  }

  lemma {:induction false} YieldsUpTo(events: seq<Event>, uid: int, n: nat, k: string)
    requires n <= |events| && NoRemoval(events, uid) && NoStaleLanding(events, uid)
    ensures Lookup(Loaded(At(events, n).store, uid), k) == LastSaved(events, n, uid, k)
  {
    if n > 0 {
      hide At, StaleLanding, Stored, Lookup, Loaded;
      YieldsUpTo(events, uid, n - 1, k);
      StepStores(events, n - 1, uid, k);
    }
  }

  lemma StaleLandingLoses(events: seq<Event>, uid: int, n: nat)
    requires n < |events| && StaleLanding(events, n, uid) && NoRemoval(events, uid)
    ensures !YieldsLastSaved(events, uid)
  {
    hide FilterDurable;
    AtStep(events, n);
    var w, c := At(events, n), events[n].c;
    var me := SaverOf(w, c);
    var k :| k !in me.incoming && Lookup(me.copy, k) != Lookup(Loaded(w.store, uid), k);
    LandingWrites(w, c, k);
    assert Stored(events, n, uid, k).None?;
    hide At, Stored;
    assert Lookup(Loaded(At(events, n + 1).store, uid), k) != Lookup(Loaded(At(events, n).store, uid), k);
    assert LastSaved(events, n + 1, uid, k) == LastSaved(events, n, uid, k);
  }

  /** With nothing removed, every key always holds its last saved value if and only if no save lands on a
      copy that is stale in a key it does not mention. */
  lemma YieldsLastSavedIff(events: seq<Event>, uid: int)
    requires NoRemoval(events, uid)
    ensures YieldsLastSaved(events, uid) <==> NoStaleLanding(events, uid)
  {
    hide StaleLanding, At;
    if NoStaleLanding(events, uid) {
      forall n, k | 0 <= n <= |events|
        ensures Lookup(Loaded(At(events, n).store, uid), k) == LastSaved(events, n, uid, k)
      {
        YieldsUpTo(events, uid, n, k);
      }
    } else {
      var n: nat :| n < |events| && StaleLanding(events, n, uid);
      StaleLandingLoses(events, uid, n);
    }
  }

  // ------------------------------------------------------------------ when copies are not stale

  /** The event at which the save that client c has pending after n events did its load. */
  function LoadedAt(events: seq<Event>, n: nat, c: int): Option<nat>
    requires n <= |events|
  {
    if n == 0 then None
    else
      var e := events[n - 1];
      if e.Load? && e.c == c && SaverOf(At(events, n - 1), c).Idle? then Some(n - 1)
      else if (e.Land? || e.Crash?) && e.c == c then None
      else LoadedAt(events, n - 1, c)
  }

  lemma {:induction false} PendingWasLoaded(events: seq<Event>, n: nat, c: int)
    requires n <= |events|
    ensures match LoadedAt(events, n, c)
            case None => SaverOf(At(events, n), c).Idle?
            case Some(j) =>
              && j < n && events[j].Load? && events[j].c == c
              && SaverOf(At(events, n), c) ==
                 Pending(events[j].uid, Loaded(At(events, j).store, events[j].uid),
                         FilterDurable(events[j].sealing, events[j].payload))
  {
    hide FilterDurable;
    if n > 0 {
      AtStep(events, n - 1);
      PendingWasLoaded(events, n - 1, c);
      hide At;
    }
  }

  /** Event n lands a save of the user, or removes the user's key. */
  predicate Disturbs(events: seq<Event>, n: nat, uid: int)
    requires n < |events|
  {
    match events[n]
    case Land(c) => SaverOf(At(events, n), c).Pending? && SaverOf(At(events, n), c).uid == uid
    case Remove(u) => u == uid
    case _ => false
  }

  lemma {:induction false} UndisturbedStays(events: seq<Event>, j: nat, n: nat, uid: int)
    requires j <= n <= |events| && forall i: nat | j <= i < n :: !Disturbs(events, i, uid)
    ensures Loaded(At(events, n).store, uid) == Loaded(At(events, j).store, uid)
  {
    if j < n {
      UndisturbedStays(events, j, n - 1, uid);
      AtStep(events, n - 1);
      assert !Disturbs(events, n - 1, uid);
      hide At, FilterDurable;
    }
  }

  /** Saves of the user do not overlap: between the load and the landing of each no other one lands. */
  ghost predicate Apart(events: seq<Event>, uid: int) {
    forall n: nat, i: nat | i < n < |events| :: !Overlaps(events, i, n, uid)
  }

  /** Event i disturbs the save of the user that event n lands, after its load. */
  predicate Overlaps(events: seq<Event>, i: nat, n: nat, uid: int)
    requires i < n < |events|
  {
    && events[n].Land? && Disturbs(events, n, uid) && Disturbs(events, i, uid)
    && LoadedAt(events, n, events[n].c).Some? && LoadedAt(events, n, events[n].c).value < i
  }

  /** So saves that do not overlap never lose a key: a save can only be stale when another save of the user
      landed between its load and its own landing. */
  lemma ApartNeverStale(events: seq<Event>, uid: int)
    requires Apart(events, uid) && NoRemoval(events, uid)
    ensures NoStaleLanding(events, uid) && YieldsLastSaved(events, uid)
  {
    forall n: nat | n < |events| ensures !StaleLanding(events, n, uid) {
      if events[n].Land? && Disturbs(events, n, uid) {
        ApartCopyIsCurrent(events, n, uid);
      }
    }
    YieldsLastSavedIff(events, uid);
  }

  lemma ApartCopyIsCurrent(events: seq<Event>, n: nat, uid: int)
    requires Apart(events, uid) && n < |events| && events[n].Land? && Disturbs(events, n, uid)
    ensures SaverOf(At(events, n), events[n].c).copy == Loaded(At(events, n).store, uid)
  {
    hide FilterDurable;
    PendingWasLoaded(events, n, events[n].c);
    var j := LoadedAt(events, n, events[n].c).value;
    forall i: nat | j <= i < n ensures !Disturbs(events, i, uid) {
      assert i > j ==> !Overlaps(events, i, n, uid);
    }
    UndisturbedStays(events, j, n, uid);
  }

  /** And a save that lands between another's load and landing is undone in every key that it changed and
      the other does not mention. */
  lemma OverlapUndoes(events: seq<Event>, n: nat, k: string)
    requires n < |events| && events[n].Land? && LoadedAt(events, n, events[n].c).Some?
    requires var j := LoadedAt(events, n, events[n].c).value;
             j < n && events[j].Load? && k !in FilterDurable(events[j].sealing, events[j].payload)
    ensures var j := LoadedAt(events, n, events[n].c).value;
            var uid := events[j].uid;
            Lookup(Loaded(At(events, n + 1).store, uid), k) == Lookup(Loaded(At(events, j).store, uid), k)
  {
    hide FilterDurable;
    PendingWasLoaded(events, n, events[n].c);
    AtStep(events, n);
    LandingWrites(At(events, n), events[n].c, k);
  }

  // ------------------------------------------------------------------ nothing secret is stored

  /** No stored object holds anything secret in the clear. */
  ghost predicate StoreProper(w: World) {
    forall uid | uid in w.store :: Proper(w.store[uid])
  }

  ghost predicate CopiesProper(w: World) {
    StoreProper(w) && forall c | c in w.savers && w.savers[c].Pending? :: Proper(w.savers[c].copy)
  }

  /** The event lands a save that brings something secret in the clear. */
  ghost predicate LandsSecret(w: World, e: Event) {
    e.Land? && SaverOf(w, e.c).Pending? && !Proper(SaverOf(w, e.c).incoming)
  }

  lemma EmptyIsProper()
    ensures Proper(map[])
  {
  }

  lemma StepStaysProperIff(w: World, e: Event)
    requires CopiesProper(w) && AllShaped(w)
    ensures StoreProper(Step(w, e)) <==> !LandsSecret(w, e)
    ensures !LandsSecret(w, e) ==> CopiesProper(Step(w, e))
  {
    hide Proper, Shaped, FilterDurable;
    if e.Land? && SaverOf(w, e.c).Pending? {
      var me := w.savers[e.c];
      MergedIsProperIff(me.copy, me.incoming);
      assert Step(w, e).store[me.uid] == me.copy + me.incoming;
    }
    EmptyIsProper();
  }

  lemma {:induction false} CopiesProperUpTo(events: seq<Event>, n: nat)
    requires n <= |events| && forall m: nat | m < n :: !LandsSecret(At(events, m), events[m])
    ensures CopiesProper(At(events, n))
  {
    if n == 0 {
      assert At(events, 0) == START;
    } else {
      CopiesProperUpTo(events, n - 1);
      StoreStaysShaped(events[..n - 1]);
      AtStep(events, n - 1);
      StepStaysProperIff(At(events, n - 1), events[n - 1]);
      hide Step, LandsSecret, CopiesProper, AllShaped;
    }
  }

  /** Event n lands a save whose payload had a tuple with something secret in a field to be stored. */
  ghost predicate LandsUntidy(events: seq<Event>, n: nat)
    requires n < |events|
  {
    && events[n].Land? && LoadedAt(events, n, events[n].c).Some?
    && var j := LoadedAt(events, n, events[n].c).value;
       j < n && events[j].Load? && !TidyPayload(events[j].payload)
  }

  lemma LandsSecretIffUntidy(events: seq<Event>, n: nat)
    requires n < |events|
    ensures LandsSecret(At(events, n), events[n]) <==> LandsUntidy(events, n)
  {
    if events[n].Land? {
      PendingWasLoaded(events, n, events[n].c);
      if LoadedAt(events, n, events[n].c).Some? {
        var j := LoadedAt(events, n, events[n].c).value;
        FilterIsProperIff(events[j].sealing, events[j].payload);
      }
    }
    hide At, Proper, TidyPayload, FilterDurable, LoadedAt;
  }

  /** At no moment of a run, however saves interleave, is anything secret stored in the clear at any depth, if
      and only if no save lands a payload with a tuple that holds some: redaction does not look into tuples,
      and they are stored as lists. */
  lemma StoreStaysProperIff(events: seq<Event>)
    ensures (forall n: nat | n <= |events| :: StoreProper(At(events, n))) <==>
            forall n: nat | n < |events| :: !LandsUntidy(events, n)
  {
    forall n: nat | n < |events| ensures LandsSecret(At(events, n), events[n]) <==> LandsUntidy(events, n) {
      LandsSecretIffUntidy(events, n);
    }
    hide At, LandsUntidy, LandsSecret, AllShaped, Step;
    if forall n: nat | n < |events| :: !LandsUntidy(events, n) {
      forall n: nat | n <= |events| ensures StoreProper(At(events, n)) {
        CopiesProperUpTo(events, n);
      }
    } else {
      var n := FirstSecret(events);
      CopiesProperUpTo(events, n);
      StoreShapedAt(events, n);
      AtStep(events, n);
      StepStaysProperIff(At(events, n), events[n]);
      assert !StoreProper(At(events, n + 1));
    }
  }

  lemma StoreShapedAt(events: seq<Event>, n: nat)
    requires n <= |events|
    ensures AllShaped(At(events, n))
  {
    StoreStaysShaped(events[..n]);
  }

  lemma FirstSecret(events: seq<Event>) returns (n: nat)
    requires exists m: nat :: m < |events| && LandsSecret(At(events, m), events[m])
    ensures n < |events| && LandsSecret(At(events, n), events[n])
    ensures forall m: nat | m < n :: !LandsSecret(At(events, m), events[m])
  {
    hide LandsSecret, At;
    n := 0;
    while !LandsSecret(At(events, n), events[n])
      invariant n < |events|
      invariant forall m: nat | m < n :: !LandsSecret(At(events, m), events[m])
      decreases |events| - n
    {
      n := n + 1;
    }
  }

  // ------------------------------------------------------------------ hydration

  lemma DurableWhilePending(events: seq<Event>, n: nat, c: int, k: string)
    requires n <= |events| && SaverOf(At(events, n), c).Pending? && k in SaverOf(At(events, n), c).incoming
    ensures k in DURABLE_KEYS
  {
    StoreStaysShaped(events[..n]);
    assert Shaped(At(events, n).savers[c].incoming);
    hide At;
  }

  lemma {:induction false} OnlyDurableSaved(events: seq<Event>, n: nat, uid: int, k: string)
    requires n <= |events|
    ensures LastSaved(events, n, uid, k).Some? ==> k in DURABLE_KEYS
  {
    if n > 0 {
      hide At, AllShaped, Shaped;
      OnlyDurableSaved(events, n - 1, uid, k);
      if Stored(events, n - 1, uid, k).Some? {
        DurableWhilePending(events, n - 1, events[n - 1].c, k);
      }
    }
  }

  /** Hydration then yields for each durable key its last saved value, and leaves every other key alone. */
  lemma HydrateYieldsLastSaved(events: seq<Event>, uid: int, k: string, userData: Fields)
    requires YieldsLastSaved(events, uid)
    ensures var after := Hydrated(Exec(events).store, uid, userData);
            match LastSaved(events, |events|, uid, k)
            case Some(v) => k in after && after[k] == v
            case None => (k in after <==> k in userData) && (k in userData ==> after[k] == userData[k])
  {
    assert events[..|events|] == events;
    assert Lookup(Loaded(At(events, |events|).store, uid), k) == LastSaved(events, |events|, uid, k);
    OnlyDurableSaved(events, |events|, uid, k);
    hide Exec, LastSaved;
  }

  // ------------------------------------------------------------------ one cycle of a session

  /** Hydrate into fresh user data, and save that. */
  function Cycled(s: Sessions, uid: int): Sessions {
    AfterSave(s, uid, Hydrated(s, uid, map[]), true)
  }

  function Cycles(n: nat, s: Sessions, uid: int): Sessions {
    if n == 0 then s else Cycled(Cycles(n - 1, s, uid), uid)
  }

  lemma CycleKeepsField(s: Sessions, uid: int, k: string)
    requires uid in s && k in s[uid] && k in DURABLE_KEYS && !IsSecret(k) && s[uid][k].Dict?
    ensures uid in Cycled(s, uid) && k in Cycled(s, uid)[uid] && Cycled(s, uid)[uid][k] == Written(true, s[uid][k])
  {
    hide IsSecret;
    var userData := Hydrated(s, uid, map[]);
    assert k in userData && userData[k] == s[uid][k];
    SavedIsRedacted(true, userData, k);
    assert Written(true, s[uid][k]) != Null by {
      WrittenField(true, s[uid][k].fields, "");
    }
    hide Hydrated, FilterDurable, Written;
  }

  /** The user's stored session holds the sealed secret t at the end of `path` inside field k. */
  predicate Holds(s: Sessions, uid: int, k: string, path: seq<string>, t: Text) {
    uid in s && k in s[uid] && Reaches(s[uid][k], path, t) && t.Sealed?
  }

  lemma CycleAddsALayer(s: Sessions, uid: int, k: string, path: seq<string>, t: Text)
    requires k in DURABLE_KEYS && !IsSecret(k) && Holds(s, uid, k, path, t)
    ensures Holds(Cycled(s, uid), uid, k, path, Sealed(t))
  {
    assert s[uid][k].Dict?;
    hide IsSecret, Cycled, Reaches, Written;
    CycleKeepsField(s, uid, k);
    WrittenAddsALayer(s[uid][k], path, t);
  }

  /** Loading a session and saving it again seals what is already sealed: a secret at any depth of a stored
      field is wrapped in one more layer by every cycle. */
  lemma {:induction false} EachCycleAddsALayer(n: nat, s: Sessions, uid: int, k: string, path: seq<string>, t: Text)
    requires k in DURABLE_KEYS && !IsSecret(k) && Holds(s, uid, k, path, t)
    ensures Holds(Cycles(n, s, uid), uid, k, path, Layers(n, t))
  {
    hide IsSecret, Cycled, Holds;
    if n > 0 {
      EachCycleAddsALayer(n - 1, s, uid, k, path, t);
      CycleAddsALayer(Cycles(n - 1, s, uid), uid, k, path, Layers(n - 1, t));
    }
  }
}
