/** lumen/platform/secret_inbox.py: secrets handed over by the Mini App wait, encrypted, in one locked
    file until the bot consumes them or they expire. */
module SecretInbox {
  import opened Prelude

  datatype Key = Key(uid: int, kind: string)

  /** AES-GCM with the key as associated data: it opens only under the data it was sealed with. */
  datatype Cipher = Cipher(plain: string, bound: Key)

  function Encrypt(plain: string, aad: Key): Cipher {
    Cipher(plain, aad)
  }

  function Decrypt(c: Cipher, aad: Key): Option<string> {
    if c.bound == aad then Some(c.plain) else None
  }

  datatype Row = Row(key: Key, cipher: Cipher, createdAt: real, expiresAt: real, purpose: string)

  const MIN_TTL := 60
  const MAX_SECRET := 512

  /** `(kind or "").strip().lower()`, with "pat" read as "github". */
  function Normalised(kind: string): string {
    var k := Lower(Strip(kind));
    if k == "pat" then "github" else k
  }

  datatype Request = Request(uid: int, kind: string, plaintext: string, purpose: string, ttl: int, stamped: real,
          encrypts: bool)

  /** What `put_secret` takes; `encrypts` says whether encryption works in this process. */
  predicate Accepted(q: Request) {
    && q.uid > 0
    && Normalised(q.kind) in {"bot", "github"}
    && 0 < |Strip(q.plaintext)| <= MAX_SECRET
    && q.encrypts
  }

  function RowOf(q: Request): Row {
    var key := Key(q.uid, Normalised(q.kind));
    Row(key, Encrypt(Strip(q.plaintext), key), q.stamped, q.stamped + Max(MIN_TTL, q.ttl) as real,
        q.purpose[..Min(40, |q.purpose|)])
  }

  function Live(rows: seq<Row>, now: real): seq<Row> {
    if rows == [] then []
    else if rows[0].expiresAt > now then [rows[0]] + Live(rows[1..], now)
    else Live(rows[1..], now)
  }

  function Without(rows: seq<Row>, key: Key): seq<Row> {
    if rows == [] then []
    else if rows[0].key == key then Without(rows[1..], key)
    else [rows[0]] + Without(rows[1..], key)
  }

  function Find(rows: seq<Row>, key: Key): Option<Row> {
    if rows == [] then None
    else if rows[0].key == key then Some(rows[0])
    else Find(rows[1..], key)
  }

  /** All rows but the first one under the key. */
  function Rest(rows: seq<Row>, key: Key): seq<Row> {
    if rows == [] then []
    else if rows[0].key == key then rows[1..]
    else [rows[0]] + Rest(rows[1..], key)
  }

  function AfterPut(rows: seq<Row>, q: Request, now: real): seq<Row> {
    if Accepted(q) then Without(Live(rows, now), RowOf(q).key) + [RowOf(q)] else rows
  }

  function AfterConsume(rows: seq<Row>, uid: int, kind: string, now: real): (seq<Row>, Option<string>) {
    var key := Key(uid, Normalised(kind));
    match Find(Live(rows, now), key)
    case None => (rows, None)
    case Some(r) => (Rest(Live(rows, now), key), Decrypt(r.cipher, key))
  }

  lemma {:induction false} RestStep(rows: seq<Row>, n: nat, key: Key)
    requires n < |rows|
    ensures Find(rows[..n + 1], key) == if Find(rows[..n], key).Some? then Find(rows[..n], key)
                                        else if rows[n].key == key then Some(rows[n]) else None
    ensures Rest(rows[..n + 1], key) == if Find(rows[..n], key).None? && rows[n].key == key then Rest(rows[..n], key)
                                        else Rest(rows[..n], key) + [rows[n]]
  {
    if n == 0 {
      assert rows[..1] == [rows[0]];
    } else {
      assert rows[..n + 1][1..] == rows[1..][..n] && rows[..n][1..] == rows[1..][..n - 1];
      RestStep(rows[1..], n - 1, key);
      if rows[0].key == key {
        assert rows[1..][..n] == rows[1..][..n - 1] + [rows[n]];
      }
    }
  }

  /** The file, read and written under its lock; each method body is one locked section. */
  class Inbox {
    var rows: seq<Row>

    constructor ()
      ensures rows == []
    {
      rows := [];
    }

    method PutSecret(q: Request, now: real) returns (ok: bool)
      modifies this
      ensures rows == AfterPut(old(rows), q, now)
      ensures ok <==> Accepted(q)
    {
      if q.uid <= 0 {
        return false;
      }
      var k := Lower(Strip(q.kind));
      if k !in {"bot", "github", "pat"} {
        return false;
      }
      if k == "pat" {
        k := "github";
      }
      var secret := Strip(q.plaintext);
      if secret == "" || |secret| > MAX_SECRET || !q.encrypts {
        return false;
      }
      var key := Key(q.uid, k);
      var item := Row(key, Encrypt(secret, key), q.stamped, q.stamped + Max(60, q.ttl) as real,
                      q.purpose[..Min(40, |q.purpose|)]);
      rows := Without(Live(rows, now), key) + [item];
      ok := true;
    }

    method ConsumeSecret(uid: int, kind: string, now: real) returns (plain: Option<string>)
      modifies this
      ensures rows == AfterConsume(old(rows), uid, kind, now).0
      ensures plain == AfterConsume(old(rows), uid, kind, now).1
    {
      var k := Lower(Strip(kind));
      if k == "pat" {
        k := "github";
      }
      var key := Key(uid, k);
      var live := Live(rows, now);
      var found: Option<Row> := None;
      var kept: seq<Row> := [];
      for i := 0 to |live|
        invariant rows == old(rows) && found == Find(live[..i], key)
        invariant kept == Rest(live[..i], key)
      {
        RestStep(live, i, key);
        if live[i].key == key && found.None? {
          found := Some(live[i]);
        } else {
          kept := kept + [live[i]];
        }
      }
      assert live[..|live|] == live;
      if found.None? {
        return None;
      }
      rows := kept;
      plain := Decrypt(found.value.cipher, key);
    }
  }

  // ------------------------------------------------------------------ rows under filters

  /** No key occurs twice. */
  predicate Unique(rows: seq<Row>) {
    rows == [] || (Find(rows[1..], rows[0].key).None? && Unique(rows[1..]))
  }

  lemma {:induction false} FindNone(rows: seq<Row>, key: Key)
    ensures Find(rows, key).None? <==> forall r | r in rows :: r.key != key
    ensures Find(rows, key).Some? ==> Find(rows, key).value in rows && Find(rows, key).value.key == key
  {
    if rows != [] {
      FindNone(rows[1..], key);
      assert rows == [rows[0]] + rows[1..];
    }
  }

  lemma {:induction false} UniqueMeaning(rows: seq<Row>)
    ensures Unique(rows) <==> forall i, j | 0 <= i < j < |rows| :: rows[i].key != rows[j].key
  {
    if rows != [] {
      var tail := rows[1..];
      UniqueMeaning(tail);
      FindNone(tail, rows[0].key);
      if Unique(rows) {
        forall i, j | 0 <= i < j < |rows| ensures rows[i].key != rows[j].key {
          assert rows[j] == tail[j - 1] && rows[j] in tail;
          if i > 0 { assert rows[i] == tail[i - 1]; }
        }
      } else if Find(tail, rows[0].key).Some? {
        var j :| 0 <= j < |tail| && tail[j] == Find(tail, rows[0].key).value;
        assert rows[0].key == rows[j + 1].key;
      } else {
        var i, j :| 0 <= i < j < |tail| && tail[i].key == tail[j].key;
        assert rows[i + 1].key == rows[j + 1].key;
      }
    }
  }

  lemma {:induction false} LiveKeeps(rows: seq<Row>, now: real, key: Key)
    requires Unique(rows)
    ensures Unique(Live(rows, now))
    ensures Find(Live(rows, now), key) ==
      if Find(rows, key).Some? && Find(rows, key).value.expiresAt > now then Find(rows, key) else None
  {
    if rows != [] {
      LiveKeeps(rows[1..], now, key);
      LiveKeeps(rows[1..], now, rows[0].key);
      assert rows[0].expiresAt > now ==> Live(rows, now)[1..] == Live(rows[1..], now);
    }
  }

  lemma {:induction false} WithoutKeeps(rows: seq<Row>, gone: Key, key: Key)
    requires Unique(rows)
    ensures Unique(Without(rows, gone))
    ensures Find(Without(rows, gone), key) == if key == gone then None else Find(rows, key)
  {
    if rows != [] {
      WithoutKeeps(rows[1..], gone, key);
      WithoutKeeps(rows[1..], gone, rows[0].key);
      assert rows[0].key != gone ==> Without(rows, gone)[1..] == Without(rows[1..], gone);
    }
  }

  /** With unique keys, leaving out the first row under a key leaves out all of them. */
  lemma {:induction false} RestIsWithout(rows: seq<Row>, key: Key)
    requires Unique(rows)
    ensures Rest(rows, key) == Without(rows, key)
  {
    if rows != [] {
      RestIsWithout(rows[1..], key);
      if rows[0].key == key {
        NothingWithout(rows[1..], key);
      }
    }
  }

  lemma {:induction false} NothingWithout(rows: seq<Row>, key: Key)
    requires Find(rows, key).None?
    ensures Without(rows, key) == rows
  {
    if rows != [] {
      NothingWithout(rows[1..], key);
    }
  }

  lemma {:induction false} AppendKeeps(rows: seq<Row>, r: Row, key: Key)
    requires Unique(rows) && Find(rows, r.key).None?
    ensures Unique(rows + [r])
    ensures Find(rows + [r], key) == if key == r.key then Some(r) else Find(rows, key)
  {
    if rows == [] {
      assert rows + [r] == [r];
    } else {
      AppendKeeps(rows[1..], r, key);
      AppendKeeps(rows[1..], r, rows[0].key);
      assert (rows + [r])[1..] == rows[1..] + [r];
    }
  }

  // ------------------------------------------------------------------ runs

  datatype Event =
    | Put(q: Request, now: real)
    | Consume(uid: int, kind: string, now: real)

  function Rows(events: seq<Event>): seq<Row> {
    if events == [] then []
    else
      match events[|events| - 1]
      case Put(q, now) => AfterPut(Rows(events[..|events| - 1]), q, now)
      case Consume(uid, kind, now) => AfterConsume(Rows(events[..|events| - 1]), uid, kind, now).0
  }

  predicate Clocked(events: seq<Event>) {
    forall i, j | 0 <= i < j < |events| :: events[i].now <= events[j].now
  }

  predicate Puts(e: Event, key: Key) {
    e.Put? && Accepted(e.q) && RowOf(e.q).key == key
  }

  predicate Asks(e: Event, key: Key) {
    e.Consume? && Key(e.uid, Normalised(e.kind)) == key
  }

  /** The plaintext that event i hands out, if it is a consume that succeeds. */
  function Taken(events: seq<Event>, i: nat): Option<string>
    requires i < |events|
  {
    var e := events[i];
    if e.Consume? then AfterConsume(Rows(events[..i]), e.uid, e.kind, e.now).1 else None
  }

  /** The one-shot map: what waits under a key after the run, whether expired by now or not. */
  function Waiting(events: seq<Event>, key: Key): Option<Row> {
    if events == [] then None
    else
      var e, before := events[|events| - 1], Waiting(events[..|events| - 1], key);
      if Puts(e, key) then Some(RowOf(e.q))
      else if Asks(e, key) && before.Some? && before.value.expiresAt > e.now then None
      else before
  }

  function Unexpired(r: Option<Row>, now: real): Option<Row> {
    if r.Some? && r.value.expiresAt > now then r else None
  }

  /** The file agrees with the one-shot map on everything that has not expired by `now`. */
  predicate Agrees(rows: seq<Row>, events: seq<Event>, key: Key, now: real) {
    Unexpired(Find(rows, key), now) == Unexpired(Waiting(events, key), now)
  }

  lemma StepAgrees(rows: seq<Row>, before: seq<Event>, e: Event, key: Key, now: real)
    requires Unique(rows) && e.now <= now
    requires Agrees(rows, before, key, e.now) && Agrees(rows, before, key, now)
    ensures var rows' := if e.Put? then AfterPut(rows, e.q, e.now) else AfterConsume(rows, e.uid, e.kind, e.now).0;
            Unique(rows') && Agrees(rows', before + [e], key, now)
  {
    assert (before + [e])[..|before|] == before;
    var live := Live(rows, e.now);
    LiveKeeps(rows, e.now, key);
    if e.Put? && Accepted(e.q) {
      var r := RowOf(e.q);
      LiveKeeps(rows, e.now, r.key);
      WithoutKeeps(live, r.key, key);
      WithoutKeeps(live, r.key, r.key);
      AppendKeeps(Without(live, r.key), r, key);
    } else if e.Consume? {
      var asked := Key(e.uid, Normalised(e.kind));
      LiveKeeps(rows, e.now, asked);
      RestIsWithout(live, asked);
      WithoutKeeps(live, asked, key);
    }
  }

  /** Every run under the lock, with a clock that does not go back, refines the one-shot map; the file
      never holds two rows under one key. */
  lemma {:induction false} RunRefinesOneShotMap(events: seq<Event>, key: Key, now: real)
    requires Clocked(events) && (events != [] ==> events[|events| - 1].now <= now)
    ensures Unique(Rows(events)) && Agrees(Rows(events), events, key, now)
  {
    if events != [] {
      hide Agrees, AfterPut, AfterConsume, Unique;
      var before, e := events[..|events| - 1], events[|events| - 1];
      RunRefinesOneShotMap(before, key, e.now);
      RunRefinesOneShotMap(before, key, now);
      StepAgrees(Rows(before), before, e, key, now);
      assert before + [e] == events;
    }
  }

  lemma {:induction false} WaitingIsBound(events: seq<Event>, key: Key)
    ensures Waiting(events, key).Some? ==>
              Waiting(events, key).value.key == key && Waiting(events, key).value.cipher.bound == key
  {
    if events != [] {
      WaitingIsBound(events[..|events| - 1], key);
    }
  }

  /** A consume hands out exactly what waits unexpired under its key. */
  lemma ConsumeTakesWhatWaits(events: seq<Event>, i: nat)
    requires Clocked(events) && i < |events| && events[i].Consume?
    ensures var e := events[i];
            var waiting := Unexpired(Waiting(events[..i], Key(e.uid, Normalised(e.kind))), e.now);
            Taken(events, i) == if waiting.Some? then Some(waiting.value.cipher.plain) else None
  {
    hide Normalised, Rows, Live;
    var e := events[i];
    var key := Key(e.uid, Normalised(e.kind));
    var before := events[..i];
    RunRefinesOneShotMap(before, key, e.now);
    LiveKeeps(Rows(before), e.now, key);
    WaitingIsBound(before, key);
  }

  /** Put p is the one that consume i finds: same key, not expired, not replaced by a later put, and
      not taken by an earlier consume. */
  predicate Armed(events: seq<Event>, p: nat, i: nat) {
    && p < i < |events| && events[i].Consume?
    && var key := Key(events[i].uid, Normalised(events[i].kind));
       && Puts(events[p], key)
       && RowOf(events[p].q).expiresAt > events[i].now
       && (forall q | p < q < i :: !Puts(events[q], key) && (Asks(events[q], key) ==> Taken(events, q).None?))
  }

  /** Put p still waits at the end of the prefix of length n. */
  predicate Stands(events: seq<Event>, key: Key, p: nat, n: nat) {
    && p < n <= |events| && Puts(events[p], key)
    && (forall q | p < q < n :: !Puts(events[q], key) && (Asks(events[q], key) ==> Taken(events, q).None?))
  }

  /** What waits was left there by a put that still stands. */
  lemma {:induction false} WaitingStands(events: seq<Event>, key: Key, n: nat) returns (p: nat)
    requires Clocked(events) && n <= |events| && Waiting(events[..n], key).Some?
    ensures Stands(events, key, p, n) && Waiting(events[..n], key).value == RowOf(events[p].q)
    decreases n
  {
    hide Accepted, Normalised, RowOf, AfterConsume, Rows;
    var e := events[n - 1];
    assert events[..n][..n - 1] == events[..n - 1];
    if Puts(e, key) {
      p := n - 1;
    } else {
      p := WaitingStands(events, key, n - 1);
      if Asks(e, key) {
        ConsumeTakesWhatWaits(events, n - 1);
      }
    }
  }

  /** A put that still stands and has not expired is what waits. */
  lemma {:induction false} StandingWaits(events: seq<Event>, key: Key, p: nat, n: nat)
    requires Clocked(events) && Stands(events, key, p, n)
    ensures Waiting(events[..n], key) == Some(RowOf(events[p].q))
    decreases n
  {
    hide Accepted, Normalised, RowOf, AfterConsume, Rows;
    var e := events[n - 1];
    assert events[..n][..n - 1] == events[..n - 1];
    if p < n - 1 {
      StandingWaits(events, key, p, n - 1);
      if Asks(e, key) {
        ConsumeTakesWhatWaits(events, n - 1);
      }
    }
  }

  /** A consume succeeds exactly when some earlier put is armed for it, and it hands out that put's
      secret: the latest one, unexpired, and never one handed out before. */
  lemma ConsumeSucceedsIffArmed(events: seq<Event>, i: nat)
    requires Clocked(events) && i < |events| && events[i].Consume?
    ensures Taken(events, i).Some? <==> exists p: nat :: Armed(events, p, i)
    ensures forall p: nat :: Armed(events, p, i) ==> Taken(events, i) == Some(Strip(events[p].q.plaintext))
  {
    hide Normalised, AfterConsume, Rows, Strip;
    var key := Key(events[i].uid, Normalised(events[i].kind));
    ConsumeTakesWhatWaits(events, i);
    forall p: nat | Armed(events, p, i)
      ensures Taken(events, i) == Some(Strip(events[p].q.plaintext))
    {
      StandingWaits(events, key, p, i);
    }
    if Taken(events, i).Some? {
      var p := WaitingStands(events, key, i);
      assert Armed(events, p, i);
    }
  }

  /** No put is handed out twice. */
  lemma EachPutConsumedAtMostOnce(events: seq<Event>, p: nat, i: nat, j: nat)
    requires Clocked(events) && i < |events| && j < |events|
    requires Armed(events, p, i) && Armed(events, p, j)
    ensures i == j
  {
    ConsumeSucceedsIffArmed(events, i);
    ConsumeSucceedsIffArmed(events, j);
  }

  // ------------------------------------------------------------------ what a caller can rely on

  predicate NamesBot(kind: string) {
    Lower(Strip(kind)) == "bot"
  }

  predicate NamesGithub(kind: string) {
    Lower(Strip(kind)) == "github" || Lower(Strip(kind)) == "pat"
  }

  predicate SameKind(a: string, b: string) {
    (NamesBot(a) && NamesBot(b)) || (NamesGithub(a) && NamesGithub(b))
  }

  /** A user's bot or GitHub secret of at most 512 characters, blanks around it aside, where encryption works. */
  predicate TakesPut(q: Request) {
    q.uid > 0 && (NamesBot(q.kind) || NamesGithub(q.kind)) && 1 <= |Strip(q.plaintext)| <= 512 && q.encrypts
  }

  lemma TakesPutIff(q: Request)
    ensures Accepted(q) <==> TakesPut(q)
  {
    hide Strip, Lower;
  }

  lemma SameSlotIff(uid: int, kind: string, q: Request)
    requires TakesPut(q)
    ensures Key(uid, Normalised(kind)) == RowOf(q).key <==> uid == q.uid && SameKind(kind, q.kind)
  {
    hide Strip, Lower;
  }

  /** Between the two events nobody puts a secret of that user and kind, and nobody takes one. */
  ghost predicate Untouched(events: seq<Event>, p: nat, i: nat, uid: int, kind: string)
    requires i <= |events|
  {
    forall k | p < k < i ::
      match events[k]
      case Put(q, _) => !(TakesPut(q) && q.uid == uid && SameKind(q.kind, kind))
      case Consume(u, other, _) => u == uid && SameKind(other, kind) ==> Taken(events, k).None?
  }

  /** Such events leave the put standing. */
  lemma UntouchedStands(events: seq<Event>, p: nat, i: nat, uid: int, kind: string)
    requires p < i <= |events| && events[p].Put? && TakesPut(events[p].q)
    requires uid == events[p].q.uid && SameKind(kind, events[p].q.kind)
    requires Untouched(events, p, i, events[p].q.uid, events[p].q.kind)
    ensures Key(uid, Normalised(kind)) == RowOf(events[p].q).key
    ensures Stands(events, Key(uid, Normalised(kind)), p, i)
  {
    var q := events[p].q;
    TakesPutIff(q);
    SameSlotIff(uid, kind, q);
    var key := RowOf(q).key;
    hide Accepted, TakesPut, SameKind, Normalised, RowOf, Taken;
    forall k | p < k < i ensures !Puts(events[k], key) && (Asks(events[k], key) ==> Taken(events, k).None?) {
      match events[k]
      case Put(r, _) =>
        TakesPutIff(r);
        if Accepted(r) {
          OtherSlot(r, q);
        }
      case Consume(u, other, _) => SameSlotIff(u, other, q);
    }
  }

  lemma OtherSlot(r: Request, q: Request)
    requires TakesPut(r) && TakesPut(q)
    ensures RowOf(r).key == RowOf(q).key <==> r.uid == q.uid && SameKind(r.kind, q.kind)
  {
    SameSlotIff(r.uid, r.kind, q);
    hide Normalised;
  }

  /** A put that stands is what a consume of its key gets, if it has not expired. */
  lemma StandingDecides(events: seq<Event>, p: nat, i: nat)
    requires Clocked(events) && i < |events| && events[i].Consume?
    requires Stands(events, Key(events[i].uid, Normalised(events[i].kind)), p, i)
    ensures Taken(events, i) == if RowOf(events[p].q).expiresAt > events[i].now
                                then Some(Strip(events[p].q.plaintext)) else None
  {
    hide Accepted, Normalised, RowOf, Taken, Clocked, Strip;
    ConsumeSucceedsIffArmed(events, i);
    if RowOf(events[p].q).expiresAt > events[i].now {
      assert Armed(events, p, i);
    } else {
      forall r: nat ensures !Armed(events, r, i) {
        assert r < p ==> Puts(events[p], Key(events[i].uid, Normalised(events[i].kind)));
      }
    }
  }

  /** A secret lives for the time asked for, and for a minute at least: a consume of the user's secret of that
      kind hands it out, with the blanks around it removed, before either has passed since it was stamped,
      and gives nothing from then on. */
  lemma SecretLivesAsAsked(events: seq<Event>, p: nat, i: nat)
    requires Clocked(events) && p < i < |events| && events[p].Put? && events[i].Consume?
    requires var q := events[p].q; TakesPut(q) && events[i].uid == q.uid && SameKind(events[i].kind, q.kind)
    requires Untouched(events, p, i, events[p].q.uid, events[p].q.kind)
    ensures var q, now := events[p].q, events[i].now;
            Taken(events, i) == if now < q.stamped + 60.0 || now < q.stamped + q.ttl as real
                                then Some(Strip(q.plaintext)) else None
  {
    var q, now := events[p].q, events[i].now;
    UntouchedStands(events, p, i, events[i].uid, events[i].kind);
    StandingDecides(events, p, i);
    LifeInSeconds(q, now);
    hide *;
  }

  lemma LifeInSeconds(q: Request, now: real)
    ensures RowOf(q).expiresAt > now <==> now < q.stamped + 60.0 || now < q.stamped + q.ttl as real
  {
    hide Strip, Normalised;
  }

  lemma {:induction false} LiveIff(rows: seq<Row>, now: real, r: Row)
    ensures r in Live(rows, now) <==> r in rows && r.expiresAt > now
  {
    if rows != [] {
      LiveIff(rows[1..], now, r);
    }
  }

  lemma {:induction false} WithoutIff(rows: seq<Row>, key: Key, r: Row)
    ensures r in Without(rows, key) <==> r in rows && r.key != key
  {
    if rows != [] {
      WithoutIff(rows[1..], key, r);
    }
  }

  /** An accepted put leaves one row for its user and kind, the last one, with at most 40 characters of its
      purpose, and of the others exactly those that have not expired. */
  lemma FilesOneRow(rows: seq<Row>, q: Request, now: real, r: Row)
    requires TakesPut(q)
    ensures var after := AfterPut(rows, q, now);
            && after != []
            && var filed := after[|after| - 1];
               && filed.key.uid == q.uid && Decrypt(filed.cipher, filed.key) == Some(Strip(q.plaintext))
               && filed.createdAt == q.stamped
               && filed.purpose == (if |q.purpose| > 40 then q.purpose[..40] else q.purpose)
               && (r in after[..|after| - 1] <==> r in rows && r.expiresAt > now && r.key != filed.key)
  {
    TakesPutIff(q);
    hide TakesPut, Accepted, Strip;
    LiveIff(rows, now, r);
    WithoutIff(Live(rows, now), RowOf(q).key, r);
    var kept := Without(Live(rows, now), RowOf(q).key);
    assert AfterPut(rows, q, now)[..|kept|] == kept;
  }

  /** A secret opens for the user and kind it was put for and for no other: a row that was relabelled in the
      file is taken by a consume of its new label, and yields nothing. */
  lemma RelabelledRowDoesNotOpen(rows: seq<Row>, r: Row, plain: string, owner: Key, uid: int, kind: string, now: real)
    requires Find(Live(rows, now), Key(uid, Normalised(kind))) == Some(r) && r.cipher == Encrypt(plain, owner)
    ensures AfterConsume(rows, uid, kind, now).1 ==
            if owner == Key(uid, Normalised(kind)) then Some(plain) else None
    ensures |AfterConsume(rows, uid, kind, now).0| < |Live(rows, now)|
  {
    FoundRowIsTaken(Live(rows, now), Key(uid, Normalised(kind)));
    hide Normalised, Live, Find, Rest;
  }

  lemma {:induction false} FoundRowIsTaken(rows: seq<Row>, key: Key)
    requires Find(rows, key).Some?
    ensures |Rest(rows, key)| == |rows| - 1
  {
    if rows[0].key != key {
      FoundRowIsTaken(rows[1..], key);
    }
  }

  // ------------------------------------------------------------------ whatever the clock does

  /** Event n rewrites the file, and drops what has expired by then: an accepted put or a successful consume. */
  predicate Rewrites(events: seq<Event>, n: nat)
    requires n < |events|
  {
    if events[n].Put? then Accepted(events[n].q) else Taken(events, n).Some?
  }

  /** The put whose row is in the file after n events. */
  function Holder(events: seq<Event>, n: nat, key: Key): (p: Option<nat>)
    requires n <= |events|
    ensures p.Some? ==> p.value < n && Puts(events[p.value], key)
  {
    if n == 0 then None
    else if Puts(events[n - 1], key) then Some(n - 1)
    else
      var before := Holder(events, n - 1, key);
      if && before.Some? && Rewrites(events, n - 1)
         && (Asks(events[n - 1], key) || RowOf(events[before.value].q).expiresAt <= events[n - 1].now)
      then None else before
  }

  /** What one event does to the row under a key, in terms of whether it rewrites the file. */
  lemma RowAfter(rows: seq<Row>, e: Event, key: Key)
    requires Unique(rows)
    ensures var rows' := if e.Put? then AfterPut(rows, e.q, e.now) else AfterConsume(rows, e.uid, e.kind, e.now).0;
            var rewrites := if e.Put? then Accepted(e.q)
                            else Find(Live(rows, e.now), Key(e.uid, Normalised(e.kind))).Some?;
            && Unique(rows')
            && Find(rows', key) ==
               if Puts(e, key) then Some(RowOf(e.q))
               else if rewrites && Asks(e, key) then None
               else if rewrites then Unexpired(Find(rows, key), e.now)
               else Find(rows, key)
  {
    hide Normalised, Accepted;
    var live := Live(rows, e.now);
    LiveKeeps(rows, e.now, key);
    if e.Put? && Accepted(e.q) {
      var r := RowOf(e.q);
      WithoutKeeps(live, r.key, key);
      WithoutKeeps(live, r.key, r.key);
      AppendKeeps(Without(live, r.key), r, key);
    } else if e.Consume? {
      var asked := Key(e.uid, Normalised(e.kind));
      RestIsWithout(live, asked);
      WithoutKeeps(live, asked, key);
    }
  }

  lemma RowsStep(events: seq<Event>, n: nat)
    requires n < |events|
    ensures var e, rows := events[n], Rows(events[..n]);
            Rows(events[..n + 1]) == if e.Put? then AfterPut(rows, e.q, e.now)
                                     else AfterConsume(rows, e.uid, e.kind, e.now).0
  {
    assert events[..n + 1][..n] == events[..n];
  }

  /** Every row is bound to its own key, so what is found also opens. */
  lemma TakenIffLive(events: seq<Event>, n: nat, p: Option<nat>)
    requires n < |events| && events[n].Consume?
    requires Unique(Rows(events[..n]))
    requires var key := Key(events[n].uid, Normalised(events[n].kind));
             && (p.Some? ==> p.value < n && Puts(events[p.value], key))
             && Find(Rows(events[..n]), key) == (if p.Some? then Some(RowOf(events[p.value].q)) else None)
    ensures var rows, key := Rows(events[..n]), Key(events[n].uid, Normalised(events[n].kind));
            && Find(Live(rows, events[n].now), key) == Unexpired(Find(rows, key), events[n].now)
            && (Taken(events, n).Some? <==> Find(Live(rows, events[n].now), key).Some?)
            && (Taken(events, n).Some? ==> p.Some? && Taken(events, n).value == Strip(events[p.value].q.plaintext))
  {
    hide Normalised, Accepted, Strip, Rows, Live;
    LiveKeeps(Rows(events[..n]), events[n].now, Key(events[n].uid, Normalised(events[n].kind)));
  }

  function RowHeld(events: seq<Event>, n: nat, key: Key): Option<Row>
    requires n <= |events|
  {
    var p := Holder(events, n, key);
    if p.Some? then Some(RowOf(events[p.value].q)) else None
  }

  lemma HeldStep(events: seq<Event>, n: nat, key: Key)
    requires n < |events|
    ensures RowHeld(events, n + 1, key) ==
            if Puts(events[n], key) then Some(RowOf(events[n].q))
            else if Rewrites(events, n) && Asks(events[n], key) then None
            else if Rewrites(events, n) then Unexpired(RowHeld(events, n, key), events[n].now)
            else RowHeld(events, n, key)
  {
    hide RowOf, Accepted, Taken, Normalised;
  }

  lemma {:induction false} FileHoldsHolder(events: seq<Event>, n: nat, key: Key)
    requires n <= |events|
    ensures Unique(Rows(events[..n])) && Find(Rows(events[..n]), key) == RowHeld(events, n, key)
  {
    if n > 0 {
      var e := events[n - 1];
      FileHoldsHolder(events, n - 1, key);
      RowsStep(events, n - 1);
      HeldStep(events, n - 1, key);
      RowAfter(Rows(events[..n - 1]), e, key);
      if e.Consume? {
        var asked := Key(e.uid, Normalised(e.kind));
        FileHoldsHolder(events, n - 1, asked);
        TakenIffLive(events, n - 1, Holder(events, n - 1, asked));
      }
      hide Rows, AfterPut, AfterConsume, Accepted, Normalised, RowOf, Taken, Find, Live, Unique, Holder, Asks, Puts;
    }
  }

  /** Put p is the one in the file after n events: not replaced, not taken, and not dropped by a rewrite
      at or after its expiry. */
  predicate Kept(events: seq<Event>, key: Key, p: nat, n: nat) {
    && p < n <= |events| && Puts(events[p], key)
    && forall q | p < q < n ::
         && !Puts(events[q], key)
         && (Rewrites(events, q) ==> !Asks(events[q], key) && events[q].now < RowOf(events[p].q).expiresAt)
  }

  lemma {:induction false} HolderIffKept(events: seq<Event>, n: nat, key: Key, p: nat)
    requires n <= |events|
    ensures Holder(events, n, key) == Some(p) <==> Kept(events, key, p, n)
  {
    hide Puts, Asks, Rewrites, RowOf;
    if n > 0 {
      HolderIffKept(events, n - 1, key, p);
    }
  }

  /** For every run at all, under any clock: a consume succeeds exactly when some put under its key is still
      kept and has not expired by the clock of the consume, and it hands out that put's secret. */
  lemma ConsumeSucceedsIffKept(events: seq<Event>, i: nat)
    requires i < |events| && events[i].Consume?
    ensures var key, now := Key(events[i].uid, Normalised(events[i].kind)), events[i].now;
            && (Taken(events, i).Some? <==> exists p: nat ::
                  Kept(events, key, p, i) && RowOf(events[p].q).expiresAt > now)
            && (forall p: nat | Kept(events, key, p, i) && RowOf(events[p].q).expiresAt > now ::
                  Taken(events, i) == Some(Strip(events[p].q.plaintext)))
  {
    var key := Key(events[i].uid, Normalised(events[i].kind));
    var h := Holder(events, i, key);
    FileHoldsHolder(events, i, key);
    TakenIffLive(events, i, h);
    forall p: nat ensures Kept(events, key, p, i) <==> h == Some(p) {
      HolderIffKept(events, i, key, p);
    }
    hide Kept, Holder, Rows, Taken, Normalised, RowOf, Strip, Live, Unique;
    if h.Some? {
      assert Kept(events, key, h.value, i);
    }
  }

  /** So a secret that a consume has reported as expired is handed out after all once the clock goes back:
      the failed consume does not rewrite the file. */
  lemma ClockGoingBackRevives(q: Request, now: real, later: real, earlier: real)
    requires Accepted(q) && earlier < RowOf(q).expiresAt <= later
    ensures var events := [Put(q, now), Consume(q.uid, q.kind, later), Consume(q.uid, q.kind, earlier)];
            Taken(events, 1) == None && Taken(events, 2) == Some(Strip(q.plaintext))
  {
    var events := [Put(q, now), Consume(q.uid, q.kind, later), Consume(q.uid, q.kind, earlier)];
    ConsumeSucceedsIffKept(events, 1);
    ConsumeSucceedsIffKept(events, 2);
    var key := Key(q.uid, Normalised(q.kind));
    assert RowOf(q).key == key;
    assert forall p: nat | Kept(events, key, p, 1) :: p == 0;
    assert Kept(events, key, 0, 2) by {
      hide Taken;
      assert !Rewrites(events, 1);
    }
  }
}
