/** lumen/platform/subscription_store.py: the paid subscription, kept in Mongo and copied into the
    user's Redis session, where the copy may disappear at any moment. */
module Subscription {
  import opened Prelude
  import opened Session

  const PRO := "pro_plan"

  /** The Mongo records and the Redis sessions. */
  datatype Stores = Stores(records: map<int, Fields>, sessions: Sessions)

  const EMPTY_STORES := Stores(map[], map[])

  function EvictIf(s: Sessions, uid: int, evict: bool): Sessions {
    if evict then s - {uid} else s
  }

  /** Load the session, put the record in, save: with evictions before the load and before the save. */
  function AfterCaching(s: Sessions, uid: int, record: Fields, e1: bool, e2: bool, sealing: bool): Sessions {
    var s1 := EvictIf(s, uid, e1);
    var existing := Loaded(s1, uid);
    AfterSave(EvictIf(s1, uid, e2), uid, existing[PRO := Dict(record)], sealing)
  }

  function AfterWrite(st: Stores, uid: int, record: Fields, e1: bool, e2: bool, sealing: bool): Stores {
    if uid <= 0 then st
    else Stores(st.records[uid := record], AfterCaching(st.sessions, uid, record, e1, e2, sealing))
  }

  /** The copy in the session, if it is a non-empty object. */
  function Cached(s: Sessions, uid: int): Option<Fields> {
    var fields := Loaded(s, uid);
    if PRO in fields && fields[PRO].Dict? && fields[PRO].fields != map[] then Some(fields[PRO].fields) else None
  }

  function OnRecord(records: map<int, Fields>, uid: int): Option<Fields> {
    if uid in records && records[uid] != map[] then Some(records[uid]) else None
  }

  function AfterRead(st: Stores, uid: int, e1: bool, e2: bool, sealing: bool): (Stores, Option<Fields>) {
    if uid <= 0 then (st, None)
    else if Cached(st.sessions, uid).Some? then (st, Cached(st.sessions, uid))
    else
      match OnRecord(st.records, uid)
      case None => (st, None)
      case Some(record) =>
        (st.(sessions := AfterCaching(st.sessions, uid, record, e1, e2, sealing)), Some(record))
  }

  function AfterDelete(st: Stores, uid: int, evict: bool, sealing: bool): Stores {
    if uid <= 0 then st
    else
      var s := EvictIf(st.sessions, uid, evict);
      var existing := Loaded(s, uid);
      if PRO !in existing then Stores(st.records - {uid}, s)
      else
        var remaining := existing - {PRO};
        var cleared := s - {uid};
        Stores(st.records - {uid}, if remaining != map[] then AfterSave(cleared, uid, remaining, sealing) else cleared)
  }

  /** The `metadata.pro_subscription` field of the users collection. */
  class MongoUsers {
    var records: map<int, Fields>

    constructor ()
      ensures records == map[]
    {
      records := map[];
    }
  }

  class SubscriptionStore {
    const mongo: MongoUsers
    const session: SessionStore

    constructor (mongo: MongoUsers, session: SessionStore)
      ensures this.mongo == mongo && this.session == session
    {
      this.mongo := mongo;
      this.session := session;
    }

    ghost function State(): Stores
      reads mongo, session
    {
      Stores(mongo.records, session.data)
    }

    /** Redis drops the user's key, or does not. */
    method Environment(uid: int, evict: bool)
      modifies session
      ensures session.data == EvictIf(old(session.data), uid, evict)
    {
      if evict {
        session.Clear(uid);
      }
    }

    method Cache(uid: int, record: Fields, e1: bool, e2: bool, sealing: bool)
      modifies session
      ensures session.data == AfterCaching(old(session.data), uid, record, e1, e2, sealing)
    {
      Environment(uid, e1);
      var existing := session.Load(uid);
      existing := existing[PRO := Dict(record)];
      Environment(uid, e2);
      session.Save(uid, existing, sealing);
    }

    method WriteSubscription(uid: int, record: Fields, e1: bool, e2: bool, sealing: bool) returns (ok: bool)
      modifies mongo, session
      ensures State() == AfterWrite(old(State()), uid, record, e1, e2, sealing)
      ensures ok <==> uid > 0
    {
      if uid <= 0 {
        return false;
      }
      mongo.records := mongo.records[uid := record];
      Cache(uid, record, e1, e2, sealing);
      ok := true;
    }

    method ReadSubscription(uid: int, e1: bool, e2: bool, sealing: bool) returns (record: Option<Fields>)
      modifies session
      ensures State() == AfterRead(old(State()), uid, e1, e2, sealing).0
      ensures record == AfterRead(old(State()), uid, e1, e2, sealing).1
    {
      if uid <= 0 {
        return None;
      }
      var saved := session.Load(uid);
      if PRO in saved && saved[PRO].Dict? && saved[PRO].fields != map[] {
        return Some(saved[PRO].fields);
      }
      if uid !in mongo.records || mongo.records[uid] == map[] {
        return None;
      }
      record := Some(mongo.records[uid]);
      Cache(uid, record.value, e1, e2, sealing);
    }

    method DeleteSubscription(uid: int, evict: bool, sealing: bool) returns (ok: bool)
      modifies mongo, session
      ensures State() == AfterDelete(old(State()), uid, evict, sealing)
      ensures ok <==> uid > 0
    {
      if uid <= 0 {
        return false;
      }
      mongo.records := mongo.records - {uid};
      Environment(uid, evict);
      var existing := session.Load(uid);
      if PRO in existing {
        var remaining := existing - {PRO};
        session.Clear(uid);
        if remaining != map[] {
          session.Save(uid, remaining, sealing);
        }
      }
      ok := true;
    }
  }

  // ------------------------------------------------------------------ the copy follows the record

  lemma ProIsPlain()
    ensures !IsSecret(PRO) && PRO in DURABLE_KEYS
  {
    assert PRO == ['p', 'r', 'o', '_', 'p', 'l', 'a', 'n'];
    forall i | 0 <= i < |PRO| ensures LowerChar(PRO[i]) == PRO[i] {}
    assert Lower(PRO) == PRO;
  }

  /** The copy is absent or is the redacted form of the record. */
  predicate CopyOk(st: Stores, uid: int) {
    PRO in Loaded(st.sessions, uid) ==>
      && uid in st.records
      && exists sealing: bool :: Loaded(st.sessions, uid)[PRO] == Written(sealing, Dict(st.records[uid]))
  }

  ghost predicate Inv(st: Stores) {
    && (forall uid | uid in st.sessions :: Shaped(st.sessions[uid]))
    && (forall uid :: CopyOk(st, uid))
  }

  /** What a save does to the record's copy, to the other users, and to the shape of the store. */
  lemma SaveEffect(s: Sessions, uid: int, payload: Fields, sealing: bool)
    ensures var s' := AfterSave(s, uid, payload, sealing);
            && s'.Keys == s.Keys + {uid}
            && (forall u | u in s && u != uid :: s'[u] == s[u])
            && (PRO !in payload ==> (PRO in s'[uid] <==> PRO in Loaded(s, uid)))
            && (PRO !in payload && PRO in s'[uid] ==> s'[uid][PRO] == Loaded(s, uid)[PRO])
            && (PRO in payload && payload[PRO].Dict? ==>
                  PRO in s'[uid] && s'[uid][PRO] == Written(sealing, payload[PRO]))
  {
    ProIsPlain();
    var kept := FilterDurable(sealing, payload);
    if PRO in payload && payload[PRO].Dict? {
      assert Written(sealing, payload[PRO]) != Null;
      assert PRO in kept;
    } else if PRO !in payload {
      assert PRO !in kept;
    }
  }

  lemma CachingStores(s: Sessions, uid: int, record: Fields, e1: bool, e2: bool, sealing: bool)
    ensures var s' := AfterCaching(s, uid, record, e1, e2, sealing);
            && uid in s' && PRO in s'[uid] && s'[uid][PRO] == Written(sealing, Dict(record))
            && (forall other | other != uid :: Loaded(s', other) == Loaded(s, other))
  {
    hide AfterSave, FilterDurable, Written;
    var s1 := EvictIf(s, uid, e1);
    SaveEffect(EvictIf(s1, uid, e2), uid, Loaded(s1, uid)[PRO := Dict(record)], sealing);
  }

  /** A durable field that is storable is saved as it is. */
  lemma SaveKeepsField(s: Sessions, uid: int, payload: Fields, sealing: bool, k: string)
    requires k in payload && k in DURABLE_KEYS && !IsSecret(k) && payload[k] != Null && Storable(payload[k])
    ensures var s' := AfterSave(s, uid, payload, sealing); uid in s' && k in s'[uid] && s'[uid][k] == payload[k]
  {
    hide Storable, IsSecret;
    WrittenAsIsIff(sealing, payload[k]);
    assert k in FilterDurable(sealing, payload);
  }

  /** A field that is not in the payload stays what it was. */
  lemma SaveSparesField(s: Sessions, uid: int, payload: Fields, sealing: bool, k: string)
    requires k !in payload
    ensures var s' := AfterSave(s, uid, payload, sealing);
            uid in s' && (k in s'[uid] <==> k in Loaded(s, uid)) && (k in s'[uid] ==> s'[uid][k] == Loaded(s, uid)[k])
  {
    hide IsSecret;
  }

  /** Caching keeps every other field that is storable, unless the key was evicted on the way. */
  lemma CachingKeeps(s: Sessions, uid: int, record: Fields, e1: bool, e2: bool, sealing: bool, k: string)
    requires k != PRO && (uid in s ==> Shaped(s[uid]))
    requires k in Loaded(s, uid) && Storable(Loaded(s, uid)[k]) && !IsSecret(k)
    ensures var after := Loaded(AfterCaching(s, uid, record, e1, e2, sealing), uid);
            && (k in after ==> after[k] == Loaded(s, uid)[k])
            && (!e1 ==> k in after)
  {
    hide AfterSave, Storable, IsSecret;
    var s1 := EvictIf(s, uid, e1);
    var payload := Loaded(s1, uid)[PRO := Dict(record)];
    if e1 {
      SaveSparesField(EvictIf(s1, uid, e2), uid, payload, sealing, k);
    } else {
      SaveKeepsField(EvictIf(s1, uid, e2), uid, payload, sealing, k);
    }
  }

  lemma CachingIsShaped(s: Sessions, uid: int, record: Fields, e1: bool, e2: bool, sealing: bool)
    requires forall u | u in s :: Shaped(s[u])
    ensures forall u | u in AfterCaching(s, uid, record, e1, e2, sealing) ::
              Shaped(AfterCaching(s, uid, record, e1, e2, sealing)[u])
  {
    hide AfterSave, FilterDurable, Written, Shaped;
    var s1 := EvictIf(s, uid, e1);
    SaveIsShaped(EvictIf(s1, uid, e2), uid, Loaded(s1, uid)[PRO := Dict(record)], sealing);
  }

  datatype Event =
    | Write(uid: int, record: Fields, e1: bool, e2: bool, sealing: bool)
    | Read(uid: int, e1: bool, e2: bool, sealing: bool)
    | Delete(uid: int, evict: bool, sealing: bool)
    | OtherSave(uid: int, payload: Fields, sealing: bool)
    | Evict(uid: int)

  function Step(st: Stores, e: Event): Stores {
    match e
    case Write(uid, record, e1, e2, sealing) => AfterWrite(st, uid, record, e1, e2, sealing)
    case Read(uid, e1, e2, sealing) => AfterRead(st, uid, e1, e2, sealing).0
    case Delete(uid, evict, sealing) => AfterDelete(st, uid, evict, sealing)
    case OtherSave(uid, payload, sealing) =>
      st.(sessions := AfterSave(st.sessions, uid, payload, sealing))
    case Evict(uid) => st.(sessions := st.sessions - {uid})
  }

  /** Session saves made for other reasons do not carry the subscription. */
  predicate Ordinary(e: Event) {
    e.OtherSave? ==> PRO !in e.payload
  }

  predicate AllOrdinary(events: seq<Event>) {
    forall e | e in events :: Ordinary(e)
  }

  function Exec(events: seq<Event>): Stores {
    if events == [] then EMPTY_STORES else Step(Exec(events[..|events| - 1]), events[|events| - 1])
  }

  /** Putting the user's own record into the session keeps the invariant. */
  lemma CachingKeepsInv(st: Stores, uid: int, record: Fields, e1: bool, e2: bool, sealing: bool)
    requires Inv(st)
    ensures Inv(Stores(st.records[uid := record], AfterCaching(st.sessions, uid, record, e1, e2, sealing)))
  {
    hide AfterCaching, Written, Shaped;
    var s' := AfterCaching(st.sessions, uid, record, e1, e2, sealing);
    var st' := Stores(st.records[uid := record], s');
    CachingIsShaped(st.sessions, uid, record, e1, e2, sealing);
    CachingStores(st.sessions, uid, record, e1, e2, sealing);
    CopiesFollow(st, st', uid);
  }

  lemma CopiesFollow(st: Stores, st': Stores, uid: int)
    requires forall u :: CopyOk(st, u)
    requires CopyOk(st', uid)
    requires forall u | u != uid :: Loaded(st'.sessions, u) == Loaded(st.sessions, u)
    requires forall u | u != uid && u in st.records :: u in st'.records && st'.records[u] == st.records[u]
    ensures forall u :: CopyOk(st', u)
  {
    hide Written;
    forall u ensures CopyOk(st', u) {
      assert CopyOk(st, u);
    }
  }

  lemma WriteKeepsInv(st: Stores, e: Event)
    requires Inv(st) && e.Write?
    ensures Inv(Step(st, e))
  {
    hide AfterCaching, Written, Shaped;
    if e.uid > 0 {
      CachingKeepsInv(st, e.uid, e.record, e.e1, e.e2, e.sealing);
    }
  }

  lemma ReadKeepsInv(st: Stores, e: Event)
    requires Inv(st) && e.Read?
    ensures Inv(Step(st, e))
  {
    hide AfterCaching, Written, Shaped;
    if Step(st, e) != st {
      var record := OnRecord(st.records, e.uid).value;
      CachingKeepsInv(st, e.uid, record, e.e1, e.e2, e.sealing);
      assert st.records[e.uid := record] == st.records;
    }
  }

  lemma DeleteKeepsInv(st: Stores, e: Event)
    requires Inv(st) && e.Delete?
    ensures Inv(Step(st, e))
    ensures e.uid > 0 ==> PRO !in Loaded(Step(st, e).sessions, e.uid)
  {
    hide AfterSave, FilterDurable, Written, Shaped;
    if e.uid > 0 {
      var s := EvictIf(st.sessions, e.uid, e.evict);
      var remaining := Loaded(s, e.uid) - {PRO};
      SaveEffect(s - {e.uid}, e.uid, remaining, e.sealing);
      SaveIsShaped(s - {e.uid}, e.uid, remaining, e.sealing);
      DeleteCopies(st, e);
    }
  }

  lemma DeleteCopies(st: Stores, e: Event)
    requires Inv(st) && e.Delete? && e.uid > 0
    ensures forall u :: CopyOk(Step(st, e), u)
    ensures PRO !in Loaded(Step(st, e).sessions, e.uid)
  {
    hide AfterSave, FilterDurable, Written, Shaped;
    var st' := Step(st, e);
    var s := EvictIf(st.sessions, e.uid, e.evict);
    SaveEffect(s - {e.uid}, e.uid, Loaded(s, e.uid) - {PRO}, e.sealing);
    assert PRO !in Loaded(st'.sessions, e.uid);
    forall u | u != e.uid ensures Loaded(st'.sessions, u) == Loaded(st.sessions, u) {
      assert u in s - {e.uid} <==> u in st.sessions;
    }
    CopiesFollow(st, st', e.uid);
  }

  lemma OtherKeepsInv(st: Stores, e: Event)
    requires Inv(st) && (e.OtherSave? || e.Evict?) && Ordinary(e)
    ensures Inv(Step(st, e))
  {
    hide AfterSave, FilterDurable, Written, Shaped;
    var st' := Step(st, e);
    if e.OtherSave? {
      SaveEffect(st.sessions, e.uid, e.payload, e.sealing);
      SaveIsShaped(st.sessions, e.uid, e.payload, e.sealing);
    }
    forall u ensures CopyOk(st', u) {
      assert CopyOk(st, u);
    }
  }

  lemma {:induction false} RunKeepsInv(events: seq<Event>)
    requires AllOrdinary(events)
    ensures Inv(Exec(events))
  {
    hide Step;
    if events != [] {
      RunKeepsInv(events[..|events| - 1]);
      var st, e := Exec(events[..|events| - 1]), events[|events| - 1];
      match e
      case Write(_, _, _, _, _) => WriteKeepsInv(st, e);
      case Read(_, _, _, _) => ReadKeepsInv(st, e);
      case Delete(_, _, _) => DeleteKeepsInv(st, e);
      case _ => OtherKeepsInv(st, e);
    }
  }

  /** The last record written for a user and not deleted since. */
  function LastWritten(events: seq<Event>, uid: int): Option<Fields> {
    if events == [] then None
    else
      var e := events[|events| - 1];
      if e.Write? && e.uid == uid then Some(e.record)
      else if e.Delete? && e.uid == uid then None
      else LastWritten(events[..|events| - 1], uid)
  }

  lemma StepRecords(st: Stores, e: Event)
    ensures Step(st, e).records ==
      if e.Write? && e.uid > 0 then st.records[e.uid := e.record]
      else if e.Delete? && e.uid > 0 then st.records - {e.uid}
      else st.records
  {
    hide AfterCaching, AfterSave, Cached;
  }

  lemma {:induction false} RecordIsLastWritten(events: seq<Event>, uid: int)
    requires uid > 0
    ensures uid in Exec(events).records <==> LastWritten(events, uid).Some?
    ensures uid in Exec(events).records ==> Exec(events).records[uid] == LastWritten(events, uid).value
  {
    hide Step;
    if events != [] {
      var before, e := events[..|events| - 1], events[|events| - 1];
      RecordIsLastWritten(before, uid);
      StepRecords(Exec(before), e);
      assert Exec(events).records == Step(Exec(before), e).records;
    }
  }

  /** Without a positive user id nothing is written, read or deleted. */
  lemma NobodyBelowOne(st: Stores, uid: int, record: Fields, e1: bool, e2: bool, sealing: bool)
    requires uid <= 0
    ensures AfterWrite(st, uid, record, e1, e2, sealing) == AfterDelete(st, uid, e1, sealing) == st
    ensures AfterRead(st, uid, e1, e2, sealing) == (st, None)
  {
  }

  /** A delete leaves no session behind that held nothing else. */
  lemma DeleteLeavesNoEmptySession(st: Stores, uid: int, sealing: bool)
    requires uid > 0 && PRO in Loaded(st.sessions, uid)
    ensures var after := AfterDelete(st, uid, false, sealing);
            uid in after.sessions <==> exists k :: k in Loaded(st.sessions, uid) && k != PRO
  {
    var remaining := Loaded(st.sessions, uid) - {PRO};
    if k :| k in Loaded(st.sessions, uid) && k != PRO {
      assert k in remaining;
      SaveEffect(st.sessions - {uid}, uid, remaining, sealing);
    }
    hide AfterSave;
  }

  /** A read heals: once it has found a record without secrets or tuples, the session answers alone, whether
      or not Mongo still has anything. */
  lemma ReadHeals(st: Stores, uid: int, e1: bool, e2: bool, sealing: bool, records: map<int, Fields>)
    requires var record := AfterRead(st, uid, e1, e2, sealing).1;
             record.Some? && Storable(Dict(record.value))
    ensures var (st', record) := AfterRead(st, uid, e1, e2, sealing);
            && Cached(st'.sessions, uid) == record
            && AfterRead(Stores(records, st'.sessions), uid, e1, e2, sealing).1 == record
  {
    if Cached(st.sessions, uid).None? {
      var record := OnRecord(st.records, uid).value;
      CachingStores(st.sessions, uid, record, e1, e2, sealing);
      WrittenAsIsIff(sealing, Dict(record));
    }
    hide AfterCaching, Written, Storable;
  }

  /** One call at a time: whatever was evicted when, a read returns exactly the last record written
      (nothing after a delete), for records that carry no secret-named field and no tuple. */
  lemma ReadReturnsLastWritten(events: seq<Event>, uid: int, e1: bool, e2: bool, sealing: bool)
    requires uid > 0 && AllOrdinary(events)
    requires LastWritten(events, uid).Some? ==> Storable(Dict(LastWritten(events, uid).value))
    ensures AfterRead(Exec(events), uid, e1, e2, sealing).1 ==
      match LastWritten(events, uid)
      case Some(record) => if record == map[] then None else Some(record)
      case None => None
  {
    var st := Exec(events);
    RunKeepsInv(events);
    RecordIsLastWritten(events, uid);
    assert CopyOk(st, uid);
    if PRO in Loaded(st.sessions, uid) {
      var s: bool :| Loaded(st.sessions, uid)[PRO] == Written(s, Dict(st.records[uid]));
      WrittenAsIsIff(s, Dict(st.records[uid]));
    }
  }

  /** The condition is exact for a copy in place: it is served unchanged exactly when the record has
      no secret-named field and no tuple at any depth, or has nothing but such fields at its top. */
  lemma CopyServesRecordIff(st: Stores, uid: int, s: bool, e1: bool, e2: bool, sealing: bool)
    requires uid > 0 && OnRecord(st.records, uid).Some?
    requires PRO in Loaded(st.sessions, uid) && Loaded(st.sessions, uid)[PRO] == Written(s, Dict(st.records[uid]))
    ensures AfterRead(st, uid, e1, e2, sealing).1 == Some(st.records[uid]) <==>
            || Storable(Dict(st.records[uid]))
            || (forall k | k in st.records[uid] :: !Survives(s, k, st.records[uid][k]))
  {
    var record := st.records[uid];
    WrittenAsIsIff(s, Dict(record));
    var copy := Written(s, Dict(record)).fields;
    if forall k | k in record :: !Survives(s, k, record[k]) {
      assert copy == map[];
    } else {
      var k :| k in record && Survives(s, k, record[k]);
      assert k in copy;
    }
  }

  lemma DeleteKeeps(st: Stores, e: Event, k: string)
    requires e.Delete? && (e.uid in st.sessions ==> Shaped(st.sessions[e.uid]))
    requires k != PRO && k in Loaded(st.sessions, e.uid) && Storable(Loaded(st.sessions, e.uid)[k]) && !IsSecret(k)
    ensures var before, after := Loaded(st.sessions, e.uid), Loaded(Step(st, e).sessions, e.uid);
            && (k in after ==> after[k] == before[k])
            && (!e.evict ==> k in after)
  {
    hide AfterSave, Storable, IsSecret;
    if !e.evict && e.uid > 0 {
      SaveKeepsField(st.sessions - {e.uid}, e.uid, Loaded(st.sessions, e.uid) - {PRO}, e.sealing, k);
    }
  }

  /** Writing, healing and deleting keep every other session field that is storable, except
      what an eviction dropped. */
  lemma OtherFieldsKept(events: seq<Event>, e: Event, k: string)
    requires AllOrdinary(events)
    requires e.Write? || e.Read? || e.Delete?
    requires k != PRO && k in Loaded(Exec(events).sessions, e.uid) && !IsSecret(k)
    requires Storable(Loaded(Exec(events).sessions, e.uid)[k])
    ensures var before, after := Loaded(Exec(events).sessions, e.uid), Loaded(Step(Exec(events), e).sessions, e.uid);
            && (k in after ==> after[k] == before[k])
            && (!(if e.Delete? then e.evict else e.e1) ==> k in after)
  {
    hide AfterCaching, Shaped, Storable, IsSecret, FilterDurable;
    var st := Exec(events);
    RunKeepsInv(events);
    if e.Write? {
      CachingKeeps(st.sessions, e.uid, e.record, e.e1, e.e2, e.sealing, k);
    } else if e.Read? {
      if Step(st, e) != st {
        CachingKeeps(st.sessions, e.uid, OnRecord(st.records, e.uid).value, e.e1, e.e2, e.sealing, k);
      }
    } else {
      DeleteKeeps(st, e, k);
    }
  }

  lemma CopyIsServed(st: Stores, uid: int, copy: Fields, e1: bool, e2: bool, sealing: bool)
    requires uid > 0 && copy != map[]
    requires PRO in Loaded(st.sessions, uid) && Loaded(st.sessions, uid)[PRO] == Dict(copy)
    ensures AfterRead(st, uid, e1, e2, sealing) == (st, Some(copy))
  {
    hide AfterCaching;
    assert Cached(st.sessions, uid) == Some(copy);
  }

  lemma CarriedCopyIsStored(s: Sessions, uid: int, payload: Fields, sealing: bool)
    requires PRO in payload && payload[PRO].Dict? && Storable(payload[PRO])
    ensures var s' := AfterSave(s, uid, payload, sealing);
            PRO in Loaded(s', uid) && Loaded(s', uid)[PRO] == payload[PRO]
  {
    hide AfterSave, FilterDurable, Written, Storable;
    SaveEffect(s, uid, payload, sealing);
    WrittenAsIsIff(sealing, payload[PRO]);
  }

  /** A session save that does carry a (non-empty, storable) subscription decides what is read next,
      whatever the record says. */
  lemma CarriedCopyIsServed(st: Stores, after: Stores, uid: int, payload: Fields, sealing: bool, e1: bool, e2: bool)
    requires uid > 0 && PRO in payload && payload[PRO].Dict? && payload[PRO].fields != map[] && Storable(payload[PRO])
    requires after == Step(st, OtherSave(uid, payload, sealing))
    ensures AfterRead(after, uid, e1, e2, sealing) == (after, Some(payload[PRO].fields))
  {
    hide AfterSave, AfterCaching, Storable;
    assert PRO in Loaded(after.sessions, uid) && Loaded(after.sessions, uid)[PRO] == payload[PRO] by {
      assert after.sessions == AfterSave(st.sessions, uid, payload, sealing);
      CarriedCopyIsStored(st.sessions, uid, payload, sealing);
    }
    CopyIsServed(after, uid, payload[PRO].fields, e1, e2, sealing);
  }
}
