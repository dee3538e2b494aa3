/** lumen/platform/credits/memory_store.py: the double-entry credit ledger with idempotent writes,
    reservations, and promotional credits that expire. */
module Credits {
  import opened Prelude

  datatype Wallet = Wallet(current: int, reserved: int, promo: int, promoExpiresAt: real) {
    function Available(): int {
      Max(0, current - reserved)
    }
  }

  const EMPTY_WALLET := Wallet(0, 0, 0, 0.0)

  datatype Account = WalletOf(tenant: string) | HoldOf(holder: string) | Treasury | Revenue | Holds

  datatype Leg = Debit(from: Account, debited: int) | Credit(into: Account, credited: int)

  /** Idempotency keys: chosen by a caller, or made by the store when a promotion expires. */
  datatype Key = Caller(text: string) | PromoExpiry(tenant: string, second: int)

  datatype Entry = Entry(tenant: string, kind: string, key: Key, reference: string, amount: int, legs: seq<Leg>)

  datatype Ledger = Ledger(wallets: map<string, Wallet>, entries: seq<Entry>, idem: map<Key, Entry>)

  const EMPTY_LEDGER := Ledger(map[], [], map[])

  datatype Reply =
    | Done
    | Replayed
    | BadAmount
    | BadKey
    | Insufficient(left: int)
    | NothingReserved
  {
    predicate Ok() { Done? || Replayed? }
  }

  const MAX_AMOUNT := 1_000_000_000_000

  predicate ValidAmount(amount: int) {
    0 < amount <= MAX_AMOUNT
  }

  predicate ValidKey(key: Key) {
    key.Caller? && 8 <= |Strip(key.text)| <= 200
  }

  function WalletAt(l: Ledger, t: string): Wallet {
    if t in l.wallets then l.wallets[t] else EMPTY_WALLET
  }

  /** `_commit` after the wallet has been updated. */
  function Commit(l: Ledger, t: string, w: Wallet, e: Entry): Ledger {
    Ledger(l.wallets[t := w], l.entries + [e], l.idem[e.key := e])
  }

  // ------------------------------------------------------------------ operations

  predicate PromoDue(w: Wallet, now: real) {
    w.promo > 0 && w.promoExpiresAt > 0.0 && now >= w.promoExpiresAt
  }

  /** How much an expiry takes out of the wallet. */
  function Burnt(w: Wallet, now: real): int {
    if PromoDue(w, now) then Max(0, Min(w.promo, w.current)) else 0
  }

  function ExpiryKey(t: string, w: Wallet): Key {
    PromoExpiry(t, Trunc(w.promoExpiresAt))
  }

  function AfterExpiry(l: Ledger, t: string, now: real): Ledger {
    var w := WalletAt(l, t);
    if !PromoDue(w, now) then l.(wallets := l.wallets[t := w])
    else
      var amount := Burnt(w, now);
      var spent := w.(current := w.current - amount, promo := 0, promoExpiresAt := 0.0);
      var key := ExpiryKey(t, w);
      if amount <= 0 || key in l.idem then l.(wallets := l.wallets[t := spent])
      else
        Commit(l, t, spent,
          Entry(t, "promo_expired", key, "promo_expire:" + t, amount,
                [Debit(WalletOf(t), amount), Credit(Revenue, amount)]))
  }

  function Spent(w: Wallet, amount: int): Wallet {
    w.(current := w.current - amount, promo := w.promo - Min(w.promo, amount))
  }

  function AfterCredit(l: Ledger, t: string, amount: int, kind: string, reference: string, key: Key,
                       promotional: bool, expiresAt: real): (Ledger, Reply)
  {
    if !ValidAmount(amount) then (l, BadAmount)
    else if !ValidKey(key) then (l, BadKey)
    else if key in l.idem then (l, Replayed)
    else
      var w := WalletAt(l, t);
      var w1 := w.(current := w.current + amount);
      var w2 := if promotional then w1.(promo := w1.promo + amount) else w1;
      var w3 := if && promotional && expiresAt > 0.0
                   && (w2.promoExpiresAt == 0.0 || expiresAt < w2.promoExpiresAt)
                then w2.(promoExpiresAt := expiresAt) else w2;
      (Commit(l, t, w3, Entry(t, kind, key, reference, amount,
          [Debit(Treasury, amount), Credit(WalletOf(t), amount)])), Done)
  }

  function AfterDeduct(l: Ledger, t: string, amount: int, kind: string, reference: string, key: Key,
          now: real): (Ledger, Reply) {
    if !ValidAmount(amount) then (l, BadAmount)
    else if !ValidKey(key) then (l, BadKey)
    else if key in l.idem then (l, Replayed)
    else
      var l1 := AfterExpiry(l, t, now);
      var w := WalletAt(l1, t);
      if w.Available() < amount then (l1, Insufficient(w.Available()))
      else
        (Commit(l1, t, Spent(w, amount),
           Entry(t, kind, key, reference, amount, [Debit(WalletOf(t), amount), Credit(Revenue, amount)])), Done)
  }

  function AfterReserve(l: Ledger, t: string, amount: int, reference: string, key: Key, now: real): (Ledger, Reply) {
    if !ValidAmount(amount) then (l, BadAmount)
    else if !ValidKey(key) then (l, BadKey)
    else if key in l.idem then (l, Replayed)
    else
      var l1 := AfterExpiry(l, t, now);
      var w := WalletAt(l1, t);
      if w.Available() < amount then (l1, Insufficient(w.Available()))
      else
        (Commit(l1, t, w.(reserved := w.reserved + amount),
           Entry(t, "reserve", key, reference, amount, [Debit(HoldOf(t), amount), Credit(Holds, amount)])), Done)
  }

  function AfterRelease(l: Ledger, t: string, amount: int, reference: string, key: Key): (Ledger, Reply) {
    if !ValidAmount(amount) then (l, BadAmount)
    else if !ValidKey(key) then (l, BadKey)
    else if key in l.idem then (l, Replayed)
    else
      var w := WalletAt(l, t);
      var freed := Min(amount, w.reserved);
      if freed <= 0 then (l.(wallets := l.wallets[t := w]), NothingReserved)
      else
        (Commit(l, t, w.(reserved := w.reserved - freed),
           Entry(t, "release_reservation", key, reference, freed,
                 [Debit(Holds, freed), Credit(HoldOf(t), freed)])), Done)
  }

  function AfterCapture(l: Ledger, t: string, amount: int, kind: string, reference: string, key: Key,
          now: real): (Ledger, Reply) {
    if !ValidAmount(amount) then (l, BadAmount)
    else if !ValidKey(key) then (l, BadKey)
    else if key in l.idem then (l, Replayed)
    else
      var l1 := AfterExpiry(l, t, now);
      var w := WalletAt(l1, t);
      if w.reserved < amount then (l1, Insufficient(w.reserved))
      else if w.current < amount then (l1, Insufficient(w.current))
      else
        (Commit(l1, t, Spent(w, amount).(reserved := w.reserved - amount),
           Entry(t, kind, key, reference, amount,
                 [Debit(Holds, amount), Credit(HoldOf(t), amount),
                  Debit(WalletOf(t), amount), Credit(Revenue, amount)])), Done)
  }

  datatype Op =
    | CreditOp(t: string, amount: int, kind: string, reference: string, key: Key, promotional: bool, expiresAt: real)
    | DeductOp(t: string, amount: int, kind: string, reference: string, key: Key, now: real)
    | ReserveOp(t: string, amount: int, reference: string, key: Key, now: real)
    | ReleaseOp(t: string, amount: int, reference: string, key: Key)
    | CaptureOp(t: string, amount: int, kind: string, reference: string, key: Key, now: real)
    | ExpireOp(t: string, now: real)

  function Apply(l: Ledger, op: Op): (Ledger, Reply) {
    match op
    case CreditOp(t, amount, kind, ref, key, promotional, expiresAt) =>
      AfterCredit(l, t, amount, kind, ref, key, promotional, expiresAt)
    case DeductOp(t, amount, kind, ref, key, now) => AfterDeduct(l, t, amount, kind, ref, key, now)
    case ReserveOp(t, amount, ref, key, now) => AfterReserve(l, t, amount, ref, key, now)
    case ReleaseOp(t, amount, ref, key) => AfterRelease(l, t, amount, ref, key)
    case CaptureOp(t, amount, kind, ref, key, now) => AfterCapture(l, t, amount, kind, ref, key, now)
    case ExpireOp(t, now) => (AfterExpiry(l, t, now), Done)
  }

  /** MemoryCreditsStore: every method is one critical section of its lock. */
  class MemoryCreditsStore {
    var wallets: map<string, Wallet>
    var entries: seq<Entry>
    var idem: map<Key, Entry>

    ghost function State(): Ledger
      reads this
    {
      Ledger(wallets, entries, idem)
    }

    constructor ()
      ensures State() == EMPTY_LEDGER
    {
      wallets, entries, idem := map[], [], map[];
    }

    method EnsureWallet(t: string) returns (w: Wallet)
      modifies this`wallets
      ensures wallets == old(wallets)[t := w] && w == WalletAt(old(State()), t)
    {
      if t !in wallets {
        wallets := wallets[t := EMPTY_WALLET];
      }
      w := wallets[t];
      assert wallets == old(wallets)[t := w];
    }

    method Record(e: Entry)
      modifies this`entries, this`idem
      ensures entries == old(entries) + [e] && idem == old(idem)[e.key := e]
    {
      entries := entries + [e];
      idem := idem[e.key := e];
    }

    method ExpirePromotional(t: string, now: real)
      modifies this
      ensures State() == AfterExpiry(old(State()), t, now)
    {
      var w := EnsureWallet(t);
      if w.promo <= 0 || w.promoExpiresAt <= 0.0 || now < w.promoExpiresAt {
        return;
      }
      var key := PromoExpiry(t, Trunc(w.promoExpiresAt));
      var amount := w.promo;
      if amount > w.current {
        amount := w.current;
      }
      if amount <= 0 {
        wallets := wallets[t := w.(promo := 0, promoExpiresAt := 0.0)];
        return;
      }
      wallets := wallets[t := w.(current := w.current - amount, promo := 0, promoExpiresAt := 0.0)];
      if key !in idem {
        Record(Entry(t, "promo_expired", key, "promo_expire:" + t, amount,
                     [Debit(WalletOf(t), amount), Credit(Revenue, amount)]));
      }
    }

    method AddCredit(t: string, amount: int, kind: string, reference: string, key: Key, promotional: bool,
            expiresAt: real)
      returns (r: Reply)
      modifies this
      ensures (State(), r) == AfterCredit(old(State()), t, amount, kind, reference, key, promotional, expiresAt)
    {
      if !ValidAmount(amount) { return BadAmount; }
      if !ValidKey(key) { return BadKey; }
      if key in idem { return Replayed; }
      var w := EnsureWallet(t);
      w := w.(current := w.current + amount);
      if promotional {
        w := w.(promo := w.promo + amount);
        if expiresAt > 0.0 && (w.promoExpiresAt == 0.0 || expiresAt < w.promoExpiresAt) {
          w := w.(promoExpiresAt := expiresAt);
        }
      }
      wallets := wallets[t := w];
      assert wallets == AfterCredit(old(State()), t, amount, kind, reference, key, promotional, expiresAt).0.wallets;
      Record(Entry(t, kind, key, reference, amount, [Debit(Treasury, amount), Credit(WalletOf(t), amount)]));
      r := Done;
    }

    method Deduct(t: string, amount: int, kind: string, reference: string, key: Key, now: real) returns (r: Reply)
      modifies this
      ensures (State(), r) == AfterDeduct(old(State()), t, amount, kind, reference, key, now)
    {
      if !ValidAmount(amount) { return BadAmount; }
      if !ValidKey(key) { return BadKey; }
      if key in idem { return Replayed; }
      ExpirePromotional(t, now);
      var w := EnsureWallet(t);
      assert wallets == AfterExpiry(old(State()), t, now).wallets;
      if w.Available() < amount {
        return Insufficient(w.Available());
      }
      w := w.(current := w.current - amount);
      w := w.(promo := w.promo - Min(w.promo, amount));
      wallets := wallets[t := w];
      Record(Entry(t, kind, key, reference, amount, [Debit(WalletOf(t), amount), Credit(Revenue, amount)]));
      r := Done;
    }

    method Reserve(t: string, amount: int, reference: string, key: Key, now: real) returns (r: Reply)
      modifies this
      ensures (State(), r) == AfterReserve(old(State()), t, amount, reference, key, now)
    {
      if !ValidAmount(amount) { return BadAmount; }
      if !ValidKey(key) { return BadKey; }
      if key in idem { return Replayed; }
      ExpirePromotional(t, now);
      var w := EnsureWallet(t);
      assert wallets == AfterExpiry(old(State()), t, now).wallets;
      if w.Available() < amount {
        return Insufficient(w.Available());
      }
      wallets := wallets[t := w.(reserved := w.reserved + amount)];
      Record(Entry(t, "reserve", key, reference, amount, [Debit(HoldOf(t), amount), Credit(Holds, amount)]));
      r := Done;
    }

    method ReleaseReservation(t: string, amount: int, reference: string, key: Key) returns (r: Reply)
      modifies this
      ensures (State(), r) == AfterRelease(old(State()), t, amount, reference, key)
    {
      if !ValidAmount(amount) { return BadAmount; }
      if !ValidKey(key) { return BadKey; }
      if key in idem { return Replayed; }
      var w := EnsureWallet(t);
      var freed := Min(amount, w.reserved);
      if freed <= 0 {
        return NothingReserved;
      }
      wallets := wallets[t := w.(reserved := w.reserved - freed)];
      assert wallets == AfterRelease(old(State()), t, amount, reference, key).0.wallets;
      Record(Entry(t, "release_reservation", key, reference, freed, [Debit(Holds, freed), Credit(HoldOf(t), freed)]));
      r := Done;
    }

    method CaptureReservation(t: string, amount: int, kind: string, reference: string, key: Key, now: real)
            returns (r: Reply)
      modifies this
      ensures (State(), r) == AfterCapture(old(State()), t, amount, kind, reference, key, now)
    {
      if !ValidAmount(amount) { return BadAmount; }
      if !ValidKey(key) { return BadKey; }
      if key in idem { return Replayed; }
      ExpirePromotional(t, now);
      var w := EnsureWallet(t);
      assert wallets == AfterExpiry(old(State()), t, now).wallets;
      if w.reserved < amount {
        return Insufficient(w.reserved);
      }
      if w.current < amount {
        return Insufficient(w.current);
      }
      w := w.(reserved := w.reserved - amount, current := w.current - amount, promo := w.promo - Min(w.promo, amount));
      wallets := wallets[t := w];
      Record(Entry(t, kind, key, reference, amount,
                   [Debit(Holds, amount), Credit(HoldOf(t), amount),
                    Debit(WalletOf(t), amount), Credit(Revenue, amount)]));
      r := Done;
    }

    /** `reconcile`: the recorded balance against the sum of the wallet's ledger legs. */
    method Reconcile(t: string) returns (drift: int)
      modifies this`wallets
      ensures drift == Drift(old(State()), t)
      ensures wallets == old(wallets)[t := WalletAt(old(State()), t)]
    {
      var w := EnsureWallet(t);
      var net := 0;
      for i := 0 to |entries|
        invariant net == WalletNet(entries[..i], t)
      {
        assert entries[..i + 1][..i] == entries[..i];
        if entries[i].tenant == t {
          for j := 0 to |entries[i].legs|
            invariant net == WalletNet(entries[..i], t) + LegsNet(entries[i].legs[..j], t)
          {
            var leg := entries[i].legs[j];
            assert entries[i].legs[..j + 1][..j] == entries[i].legs[..j];
            match leg {
              case Debit(a, n) => if a == WalletOf(t) { net := net - n; }
              case Credit(a, n) => if a == WalletOf(t) { net := net + n; }
            }
          }
          assert entries[i].legs[..|entries[i].legs|] == entries[i].legs;
        }
      }
      assert entries[..|entries|] == entries;
      drift := w.current - net;
    }
  }

  // ------------------------------------------------------------------ conservation

  /** The effect of some legs on tenant t's wallet account. */
  function LegsNet(legs: seq<Leg>, t: string): int {
    if legs == [] then 0
    else
      LegsNet(legs[..|legs| - 1], t) +
      match legs[|legs| - 1]
      case Debit(a, n) => if a == WalletOf(t) then -n else 0
      case Credit(a, n) => if a == WalletOf(t) then n else 0
  }

  function WalletNet(entries: seq<Entry>, t: string): int {
    if entries == [] then 0
    else
      var e := entries[|entries| - 1];
      WalletNet(entries[..|entries| - 1], t) + if e.tenant == t then LegsNet(e.legs, t) else 0
  }

  /** What `reconcile` reports as drift. */
  function Drift(l: Ledger, t: string): int {
    WalletAt(l, t).current - WalletNet(l.entries, t)
  }

  /** Debits equal credits. */
  function Imbalance(legs: seq<Leg>): int {
    if legs == [] then 0
    else
      Imbalance(legs[..|legs| - 1]) +
      match legs[|legs| - 1]
      case Debit(_, n) => -n
      case Credit(_, n) => n
  }

  /** Keys name entries uniquely, entries balance, and wallets make sense. */
  ghost predicate Sound(l: Ledger) {
    && (forall i | 0 <= i < |l.entries| :: EntryFiled(l, l.entries[i]))
    && (forall i, j | 0 <= i < j < |l.entries| :: l.entries[i].key != l.entries[j].key)
    && (forall k | k in l.idem :: l.idem[k].key == k && l.idem[k] in l.entries)
    && (forall t | t in l.wallets :: WalletSane(l.wallets[t]))
  }

  predicate EntryFiled(l: Ledger, e: Entry) {
    e.key in l.idem && l.idem[e.key] == e && WellFormed(e)
  }

  /** Amount and legs are positive, and the legs balance. */
  predicate WellFormed(e: Entry) {
    e.amount > 0 && Imbalance(e.legs) == 0 && forall leg | leg in e.legs :: LegAmount(leg) > 0
  }

  function LegAmount(leg: Leg): int {
    match leg
    case Debit(_, n) => n
    case Credit(_, n) => n
  }

  predicate WalletSane(w: Wallet) {
    0 <= w.promo <= w.current && 0 <= w.reserved && 0.0 <= w.promoExpiresAt
  }

  /** Both legs lists the store writes, evaluated. */
  lemma LegsEvaluated(a: Leg, b: Leg, c: Leg, d: Leg, t: string)
    ensures LegsNet([a, b], t) == LegsNet([a], t) + LegsNet([b], t)
    ensures LegsNet([a, b, c, d], t) == LegsNet([a], t) + LegsNet([b], t) + LegsNet([c], t) + LegsNet([d], t)
    ensures Imbalance([a, b]) == Imbalance([a]) + Imbalance([b])
    ensures Imbalance([a, b, c, d]) == Imbalance([a]) + Imbalance([b]) + Imbalance([c]) + Imbalance([d])
  {
    assert [a, b][..1] == [a];
    assert [a, b, c][..2] == [a, b];
    assert [a, b, c, d][..3] == [a, b, c];
    forall x: Leg
      ensures LegsNet([x], t) ==
              LegsNet([], t) + match x case Debit(y, n) => (if y == WalletOf(t) then -n else 0)
                                       case Credit(y, n) => (if y == WalletOf(t) then n else 0)
      ensures Imbalance([x]) == match x case Debit(_, n) => -n case Credit(_, n) => n
    {
      assert [x][..0] == [];
    }
    assert LegsNet([a, b, c], t) == LegsNet([a, b], t) + LegsNet([c], t);
    assert Imbalance([a, b, c]) == Imbalance([a, b]) + Imbalance([c]);
  }

  /** Filing one balanced entry under a new key together with a matching wallet keeps the books. */
  lemma CommitKeepsSound(l: Ledger, t: string, w: Wallet, e: Entry)
    requires Sound(l) && WalletSane(w) && e.key !in l.idem && WellFormed(e)
    ensures Sound(Commit(l, t, w, e))
  {
    var l' := Commit(l, t, w, e);
    forall i | 0 <= i < |l'.entries| ensures EntryFiled(l', l'.entries[i]) {
      if i < |l.entries| {
        assert EntryFiled(l, l.entries[i]);
      }
    }
    forall i, j | 0 <= i < j < |l'.entries| ensures l'.entries[i].key != l'.entries[j].key {
      assert EntryFiled(l, l.entries[i]);
    }
    forall k | k in l'.idem ensures l'.idem[k].key == k && l'.idem[k] in l'.entries {
      assert k != e.key ==> l.idem[k] in l.entries;
    }
  }

  lemma WalletKeepsSound(l: Ledger, t: string, w: Wallet)
    requires Sound(l) && WalletSane(w)
    ensures Sound(l.(wallets := l.wallets[t := w]))
  {
    var l' := l.(wallets := l.wallets[t := w]);
    forall i | 0 <= i < |l'.entries| ensures EntryFiled(l', l'.entries[i]) {
      assert EntryFiled(l, l.entries[i]);
    }
  }

  lemma CommitDrift(l: Ledger, t: string, w: Wallet, e: Entry, t': string)
    requires e.tenant == t
    ensures Drift(Commit(l, t, w, e), t') ==
      if t' == t then Drift(l, t) + w.current - WalletAt(l, t).current - LegsNet(e.legs, t) else Drift(l, t')
  {
    assert (l.entries + [e])[..|l.entries|] == l.entries;
  }

  lemma ExpiryKeepsSound(l: Ledger, t: string, now: real)
    requires Sound(l)
    ensures Sound(AfterExpiry(l, t, now))
    ensures l.entries <= AfterExpiry(l, t, now).entries
  {
    var w := WalletAt(l, t);
    var amount := Burnt(w, now);
    LegsEvaluated(Debit(WalletOf(t), amount), Credit(Revenue, amount), Debit(Holds, 0), Credit(Holds, 0), t);
    var spent := w.(current := w.current - amount, promo := 0, promoExpiresAt := 0.0);
    WalletKeepsSound(l, t, w);
    if PromoDue(w, now) {
      if amount <= 0 || ExpiryKey(t, w) in l.idem {
        WalletKeepsSound(l, t, spent);
      } else {
        CommitKeepsSound(l, t, spent,
          Entry(t, "promo_expired", ExpiryKey(t, w), "promo_expire:" + t, amount,
                [Debit(WalletOf(t), amount), Credit(Revenue, amount)]));
      }
    }
  }

  /** An expiry drifts by what it burns when its key is already taken, and not otherwise. */
  predicate ExpiryCollides(l: Ledger, t: string, now: real) {
    PromoDue(WalletAt(l, t), now) && ExpiryKey(t, WalletAt(l, t)) in l.idem
  }

  lemma SaneAt(l: Ledger, t: string)
    requires Sound(l)
    ensures WalletSane(WalletAt(l, t))
  {
  }

  lemma ExpiryDrift(l: Ledger, t: string, now: real, t': string)
    requires Sound(l)
    ensures Drift(AfterExpiry(l, t, now), t') ==
      Drift(l, t') - if t' == t && ExpiryCollides(l, t, now) then Burnt(WalletAt(l, t), now) else 0
    ensures ExpiryCollides(l, t, now) ==> Burnt(WalletAt(l, t), now) > 0
  {
    var w := WalletAt(l, t);
    var amount := Burnt(w, now);
    SaneAt(l, t);
    TwoLegs(Debit(WalletOf(t), amount), Credit(Revenue, amount), t);
    hide Sound, LegsNet, Imbalance, Trunc;
    if PromoDue(w, now) && ExpiryKey(t, w) !in l.idem && amount > 0 {
      CommitDrift(l, t, w.(current := w.current - amount, promo := 0, promoExpiresAt := 0.0),
        Entry(t, "promo_expired", ExpiryKey(t, w), "promo_expire:" + t, amount,
              [Debit(WalletOf(t), amount), Credit(Revenue, amount)]), t');
    }
  }

  /** Whether an operation runs an expiry whose key is taken. */
  predicate Collides(l: Ledger, op: Op) {
    match op
    case CreditOp(_, _, _, _, _, _, _) => false
    case ReleaseOp(_, _, _, _) => false
    case ExpireOp(t, now) => ExpiryCollides(l, t, now)
    case _ => ValidAmount(op.amount) && ValidKey(op.key) && op.key !in l.idem && ExpiryCollides(l, op.t, op.now)
  }

  /** The ledger an operation starts from once a due promotion has expired. */
  function Fresh(l: Ledger, op: Op): Ledger {
    if op.CreditOp? || op.ReleaseOp? then l else AfterExpiry(l, op.t, op.now)
  }

  /** l' is l with one balanced entry filed whose wallet legs match the change of the wallet. */
  ghost predicate Files(l: Ledger, l': Ledger, t: string, key: Key) {
    && |l'.entries| == |l.entries| + 1
    && var e := l'.entries[|l.entries|];
    && l' == Commit(l, t, WalletAt(l', t), e)
    && WalletSane(WalletAt(l', t))
    && e.tenant == t && e.key == key && WellFormed(e)
    && LegsNet(e.legs, t) == WalletAt(l', t).current - WalletAt(l, t).current
  }

  lemma TwoLegs(a: Leg, b: Leg, t: string)
    ensures LegsNet([a, b], t) == LegsNet([a], t) + LegsNet([b], t)
    ensures Imbalance([a, b]) == Imbalance([a]) + Imbalance([b])
    ensures LegsNet([a], t) == LegNet(a, t) && LegsNet([b], t) == LegNet(b, t)
  {
    LegsEvaluated(a, b, a, b, t);
    assert [a][..0] == [] && [b][..0] == [];
  }

  function LegNet(leg: Leg, t: string): int {
    match leg
    case Debit(a, n) => if a == WalletOf(t) then -n else 0
    case Credit(a, n) => if a == WalletOf(t) then n else 0
  }

  lemma CreditFiles(l: Ledger, op: Op)
    requires Sound(l) && op.CreditOp? && ValidAmount(op.amount) && ValidKey(op.key) && op.key !in l.idem
    ensures Files(l, Apply(l, op).0, op.t, op.key)
  {
    TwoLegs(Debit(Treasury, op.amount), Credit(WalletOf(op.t), op.amount), op.t);
  }

  lemma DeductFiles(l: Ledger, op: Op)
    requires Sound(l) && op.DeductOp? && ValidAmount(op.amount) && ValidKey(op.key) && op.key !in l.idem
    ensures if Apply(l, op).1.Done? then Files(Fresh(l, op), Apply(l, op).0, op.t, op.key)
            else Apply(l, op).0 == Fresh(l, op)
  {
    ExpiryKeepsSound(l, op.t, op.now);
    TwoLegs(Debit(WalletOf(op.t), op.amount), Credit(Revenue, op.amount), op.t);
  }

  lemma ReserveFiles(l: Ledger, op: Op)
    requires Sound(l) && op.ReserveOp? && ValidAmount(op.amount) && ValidKey(op.key) && op.key !in l.idem
    ensures if Apply(l, op).1.Done? then Files(Fresh(l, op), Apply(l, op).0, op.t, op.key)
            else Apply(l, op).0 == Fresh(l, op)
  {
    ExpiryKeepsSound(l, op.t, op.now);
    TwoLegs(Debit(HoldOf(op.t), op.amount), Credit(Holds, op.amount), op.t);
  }

  lemma ReleaseFiles(l: Ledger, op: Op)
    requires Sound(l) && op.ReleaseOp? && ValidAmount(op.amount) && ValidKey(op.key) && op.key !in l.idem
    ensures if Apply(l, op).1.Done? then Files(l, Apply(l, op).0, op.t, op.key)
            else Apply(l, op).0 == l.(wallets := l.wallets[op.t := WalletAt(l, op.t)])
  {
    var freed := Min(op.amount, WalletAt(l, op.t).reserved);
    TwoLegs(Debit(Holds, freed), Credit(HoldOf(op.t), freed), op.t);
  }

  lemma CaptureFiles(l: Ledger, op: Op)
    requires Sound(l) && op.CaptureOp? && ValidAmount(op.amount) && ValidKey(op.key) && op.key !in l.idem
    ensures if Apply(l, op).1.Done? then Files(Fresh(l, op), Apply(l, op).0, op.t, op.key)
            else Apply(l, op).0 == Fresh(l, op)
  {
    ExpiryKeepsSound(l, op.t, op.now);
    var t, a := op.t, op.amount;
    LegsEvaluated(Debit(Holds, a), Credit(HoldOf(t), a), Debit(WalletOf(t), a), Credit(Revenue, a), t);
    TwoLegs(Debit(Holds, a), Credit(HoldOf(t), a), t);
    TwoLegs(Debit(WalletOf(t), a), Credit(Revenue, a), t);
  }

  /** An accepted operation with a fresh key files one entry; a refused one files none. */
  lemma FilesOne(l: Ledger, op: Op)
    requires Sound(l) && !op.ExpireOp? && ValidAmount(op.amount) && ValidKey(op.key) && op.key !in l.idem
    ensures Apply(l, op).1.Done? ==> Files(Fresh(l, op), Apply(l, op).0, op.t, op.key)
    ensures !Apply(l, op).1.Done? ==>
      Apply(l, op).0 == if op.ReleaseOp? then l.(wallets := l.wallets[op.t := WalletAt(l, op.t)]) else Fresh(l, op)
  {
    match op
    case CreditOp(_, _, _, _, _, _, _) => CreditFiles(l, op);
    case DeductOp(_, _, _, _, _, _) => DeductFiles(l, op);
    case ReserveOp(_, _, _, _, _) => ReserveFiles(l, op);
    case ReleaseOp(_, _, _, _) => ReleaseFiles(l, op);
    case CaptureOp(_, _, _, _, _, _) => CaptureFiles(l, op);
  }

  /** The books stay sound under every operation: one entry per key, balanced legs, no negative
      balance, promotional credit inside the balance. */
  lemma ApplyKeepsSound(l: Ledger, op: Op)
    requires Sound(l)
    ensures Sound(Apply(l, op).0)
    ensures l.entries <= Apply(l, op).0.entries
  {
    if op.ExpireOp? {
      ExpiryKeepsSound(l, op.t, op.now);
    } else if ValidAmount(op.amount) && ValidKey(op.key) && op.key !in l.idem {
      var l1 := Fresh(l, op);
      if !op.CreditOp? && !op.ReleaseOp? {
        ExpiryKeepsSound(l, op.t, op.now);
      }
      FilesOne(l, op);
      var l' := Apply(l, op).0;
      if Apply(l, op).1.Done? {
        CommitKeepsSound(l1, op.t, WalletAt(l', op.t), l'.entries[|l1.entries|]);
      } else if op.ReleaseOp? {
        WalletKeepsSound(l, op.t, WalletAt(l, op.t));
      }
    }
  }

  /** Conservation, with its exact condition: an operation leaves every wallet's drift as it was
      unless it expires a promotion whose expiry key (tenant and whole second) is already taken. */
  lemma DriftUnchangedIffNoCollision(l: Ledger, op: Op)
    requires Sound(l)
    ensures (forall t :: Drift(Apply(l, op).0, t) == Drift(l, t)) <==> !Collides(l, op)
  {
    forall t
      ensures Drift(Apply(l, op).0, t) ==
              Drift(l, t) - if t == op.t && Collides(l, op) then Burnt(WalletAt(l, t), op.now) else 0
    {
      OpDrift(l, op, t);
    }
    OpDrift(l, op, op.t);
  }

  lemma FiledDrift(l: Ledger, l': Ledger, owner: string, key: Key, t: string)
    requires Files(l, l', owner, key)
    ensures Drift(l', t) == Drift(l, t)
  {
    CommitDrift(l, owner, WalletAt(l', owner), l'.entries[|l.entries|], t);
    hide LegsNet, WellFormed;
  }

  lemma OpDrift(l: Ledger, op: Op, t: string)
    requires Sound(l)
    ensures Drift(Apply(l, op).0, t) ==
      Drift(l, t) - if t == op.t && Collides(l, op) then Burnt(WalletAt(l, t), op.now) else 0
    ensures Collides(l, op) ==> Burnt(WalletAt(l, op.t), op.now) > 0
  {
    if op.ExpireOp? {
      ExpiryDrift(l, op.t, op.now, t);
    } else if ValidAmount(op.amount) && ValidKey(op.key) && op.key !in l.idem {
      var l1 := Fresh(l, op);
      if !op.CreditOp? && !op.ReleaseOp? {
        ExpiryDrift(l, op.t, op.now, t);
      }
      FilesOne(l, op);
      hide Sound, Files, Burnt, ExpiryCollides, Apply;
      if Apply(l, op).1.Done? {
        FiledDrift(l1, Apply(l, op).0, op.t, op.key, t);
        hide Drift;
      }
    }
  }

  function Run(l: Ledger, ops: seq<Op>): Ledger {
    if ops == [] then l else Apply(Run(l, ops[..|ops| - 1]), ops[|ops| - 1]).0
  }

  predicate NoCollision(ops: seq<Op>) {
    forall i | 0 <= i < |ops| :: !Collides(Run(EMPTY_LEDGER, ops[..i]), ops[i])
  }

  ghost predicate Reconciled(l: Ledger) {
    forall t :: Drift(l, t) == 0
  }

  lemma NoCollisionBefore(ops: seq<Op>)
    requires ops != []
    ensures NoCollision(ops) <==>
      NoCollision(ops[..|ops| - 1]) && !Collides(Run(EMPTY_LEDGER, ops[..|ops| - 1]), ops[|ops| - 1])
  {
    hide Run, Collides;
    var most := ops[..|ops| - 1];
    forall i | 0 <= i < |most| ensures most[..i] == ops[..i] && most[i] == ops[i] {}
    if NoCollision(most) && !Collides(Run(EMPTY_LEDGER, most), ops[|ops| - 1]) {
      forall i | 0 <= i < |ops| ensures !Collides(Run(EMPTY_LEDGER, ops[..i]), ops[i]) {
        if i < |most| {
          assert !Collides(Run(EMPTY_LEDGER, most[..i]), most[i]);
        }
      }
    }
  }

  /** Over any run from an empty ledger the books are sound. */
  lemma {:induction false} RunIsSound(ops: seq<Op>)
    ensures Sound(Run(EMPTY_LEDGER, ops))
  {
    if ops != [] {
      hide Apply;
      RunIsSound(ops[..|ops| - 1]);
      ApplyKeepsSound(Run(EMPTY_LEDGER, ops[..|ops| - 1]), ops[|ops| - 1]);
    }
  }

  lemma StepDrift(l: Ledger, op: Op)
    requires Sound(l) && forall t :: Drift(l, t) <= 0
    ensures forall t :: Drift(Apply(l, op).0, t) <= 0
    ensures Reconciled(Apply(l, op).0) <==> Reconciled(l) && !Collides(l, op)
  {
    hide Apply, Collides, Drift, Burnt, Sound, WalletAt;
    var l' := Apply(l, op).0;
    forall t ensures if t == op.t && Collides(l, op) then Drift(l', t) < Drift(l, t) else Drift(l', t) == Drift(l, t) {
      OpDrift(l, op, t);
    }
    if Collides(l, op) {
      assert Drift(l', op.t) < Drift(l, op.t) <= 0;
    } else if !Reconciled(l) {
      var t :| Drift(l, t) != 0;
      assert Drift(l', t) == Drift(l, t);
    }
  }

  /** No wallet ever holds more than its ledger accounts for, and all of them reconcile exactly when no
      expiry ever met a taken key. */
  lemma {:induction false} RunsReconcile(ops: seq<Op>)
    ensures forall t :: Drift(Run(EMPTY_LEDGER, ops), t) <= 0
    ensures Reconciled(Run(EMPTY_LEDGER, ops)) <==> NoCollision(ops)
  {
    if ops == [] {
      assert forall t :: Drift(EMPTY_LEDGER, t) == 0;
    } else {
      hide Apply, Collides, Drift, NoCollision, Sound, Reconciled;
      var most := ops[..|ops| - 1];
      RunsReconcile(most);
      RunIsSound(most);
      NoCollisionBefore(ops);
      StepDrift(Run(EMPTY_LEDGER, most), ops[|ops| - 1]);
    }
  }

  lemma GrantEffect(l: Ledger, t: string, a: int, e: real, k: Key)
    requires ValidAmount(a) && ValidKey(k) && k !in l.idem && e > 0.0 && WalletAt(l, t) == EMPTY_WALLET
    ensures var l' := Apply(l, CreditOp(t, a, "promo_grant", "", k, true, e)).0;
            WalletAt(l', t) == Wallet(a, 0, a, e) && l'.idem.Keys == l.idem.Keys + {k}
    ensures !Collides(l, CreditOp(t, a, "promo_grant", "", k, true, e))
  {
  }

  lemma GrantDrift(l: Ledger, t: string, a: int, e: real, k: Key)
    requires Sound(l) && ValidAmount(a) && ValidKey(k) && k !in l.idem && e > 0.0 && WalletAt(l, t) == EMPTY_WALLET
    ensures var l' := Apply(l, CreditOp(t, a, "promo_grant", "", k, true, e)).0;
            Sound(l') && Drift(l', t) == Drift(l, t)
  {
    hide *;
    var op := CreditOp(t, a, "promo_grant", "", k, true, e);
    GrantEffect(l, t, a, e, k);
    ApplyKeepsSound(l, op);
    OpDrift(l, op, t);
  }

  lemma ExpiryEffect(l: Ledger, t: string, a: int, e: real, now: real)
    requires ValidAmount(a) && 0.0 < e <= now && WalletAt(l, t) == Wallet(a, 0, a, e)
    ensures var l' := Apply(l, ExpireOp(t, now)).0;
            WalletAt(l', t) == EMPTY_WALLET && l'.idem.Keys == l.idem.Keys + {PromoExpiry(t, Trunc(e))}
    ensures Burnt(WalletAt(l, t), now) == a
    ensures Collides(l, ExpireOp(t, now)) <==> PromoExpiry(t, Trunc(e)) in l.idem
  {
  }

  lemma ExpiryAfterGrantDrift(l: Ledger, t: string, a: int, e: real, now: real)
    requires Sound(l) && ValidAmount(a) && 0.0 < e <= now && WalletAt(l, t) == Wallet(a, 0, a, e)
    ensures var l' := Apply(l, ExpireOp(t, now)).0;
            Sound(l') && Drift(l', t) == Drift(l, t) - if PromoExpiry(t, Trunc(e)) in l.idem then a else 0
  {
    hide *;
    ExpiryEffect(l, t, a, e, now);
    ApplyKeepsSound(l, ExpireOp(t, now));
    OpDrift(l, ExpireOp(t, now), t);
  }

  /** The collision is reachable: two grants to a tenant whose expiries fall in the same second, the
      first expired before the second is made, leave the second one's amount unaccounted for. */
  lemma SameSecondGrantsDrift(t: string, a1: int, a2: int, e1: real, e2: real, k1: Key, k2: Key, now1: real, now2: real)
    requires ValidAmount(a1) && ValidAmount(a2) && ValidKey(k1) && ValidKey(k2) && k1 != k2
    requires 0.0 < e1 <= now1 && 0.0 < e2 <= now2 && Trunc(e1) == Trunc(e2)
    ensures var ops := [CreditOp(t, a1, "promo_grant", "", k1, true, e1), ExpireOp(t, now1),
                        CreditOp(t, a2, "promo_grant", "", k2, true, e2), ExpireOp(t, now2)];
            Drift(Run(EMPTY_LEDGER, ops), t) == -a2
  {
    var a := CreditOp(t, a1, "promo_grant", "", k1, true, e1);
    var b := ExpireOp(t, now1);
    var c := CreditOp(t, a2, "promo_grant", "", k2, true, e2);
    var d := ExpireOp(t, now2);
    hide *;
    EmptyLedgerIsClean(t);
    UnrollRun(EMPTY_LEDGER, a, b, c, d);
    var l1 := Apply(EMPTY_LEDGER, a).0;
    GrantEffect(EMPTY_LEDGER, t, a1, e1, k1);
    GrantDrift(EMPTY_LEDGER, t, a1, e1, k1);
    var l2 := Apply(l1, b).0;
    ExpiryEffect(l1, t, a1, e1, now1);
    ExpiryAfterGrantDrift(l1, t, a1, e1, now1);
    var l3 := Apply(l2, c).0;
    CallerKeysDiffer(k1, k2, t, Trunc(e1));
    GrantEffect(l2, t, a2, e2, k2);
    GrantDrift(l2, t, a2, e2, k2);
    ExpiryAfterGrantDrift(l3, t, a2, e2, now2);
  }

  lemma CallerKeysDiffer(k1: Key, k2: Key, t: string, second: int)
    requires ValidKey(k1) && ValidKey(k2)
    ensures PromoExpiry(t, second) !in {k1, k2}
  {
  }

  lemma EmptyLedgerIsClean(t: string)
    ensures Drift(EMPTY_LEDGER, t) == 0 && Sound(EMPTY_LEDGER) && WalletAt(EMPTY_LEDGER, t) == EMPTY_WALLET
    ensures EMPTY_LEDGER.idem.Keys == {}
  {
  }

  lemma UnrollRun(l: Ledger, a: Op, b: Op, c: Op, d: Op)
    ensures Run(l, [a, b, c, d]) == Apply(Apply(Apply(Apply(l, a).0, b).0, c).0, d).0
  {
    hide Apply;
    assert [a, b, c, d][..3] == [a, b, c] && [a, b, c][..2] == [a, b] && [a, b][..1] == [a] && [a][..0] == [];
    assert Run(l, [a]) == Apply(l, a).0;
    assert Run(l, [a, b]) == Apply(Run(l, [a]), b).0;
    assert Run(l, [a, b, c]) == Apply(Run(l, [a, b]), c).0;
  }

  /** Reserved credit stays covered by the balance through every operation except an expiry that
      burns more than the unreserved part; the schema's constraint then fails. */
  lemma ReservedCoveredIffExpiryFits(l: Ledger, t: string, now: real)
    requires Sound(l) && WalletAt(l, t).reserved <= WalletAt(l, t).current
    ensures var w := WalletAt(AfterExpiry(l, t, now), t);
            w.reserved <= w.current <==> Burnt(WalletAt(l, t), now) <= WalletAt(l, t).Available()
  {
  }

  lemma ReservedCoveredByOthers(l: Ledger, op: Op)
    requires Sound(l) && !op.ExpireOp?
    requires WalletAt(Fresh(l, op), op.t).reserved <= WalletAt(Fresh(l, op), op.t).current
    requires ValidAmount(op.amount) && ValidKey(op.key) && op.key !in l.idem
    ensures WalletAt(Apply(l, op).0, op.t).reserved <= WalletAt(Apply(l, op).0, op.t).current
  {
  }

  // ------------------------------------------------------------------ when a promotion lapses

  /** A wallet has one expiry for all its promotional credit.  A grant moves it to the earlier of the one
      on file and its own; what is on file may belong to a promotion that is spent. */
  lemma GrantMovesExpiryForward(l: Ledger, op: Op)
    requires op.CreditOp? && Apply(l, op).1.Done?
    ensures var before, after := WalletAt(l, op.t), WalletAt(Apply(l, op).0, op.t);
            && (!op.promotional || op.expiresAt <= 0.0 ==> after.promoExpiresAt == before.promoExpiresAt)
            && (op.promotional && op.expiresAt > 0.0 ==>
                  && after.promoExpiresAt in {before.promoExpiresAt, op.expiresAt}
                  && after.promoExpiresAt <= op.expiresAt
                  && (before.promoExpiresAt > 0.0 ==> 0.0 < after.promoExpiresAt <= before.promoExpiresAt)
                  && (before.promoExpiresAt == 0.0 ==> after.promoExpiresAt == op.expiresAt))
            && after.promo == before.promo + (if op.promotional then op.amount else 0)
            && after.reserved == before.reserved
  {
  }

  predicate IsGrant(op: Op) {
    op.CreditOp? && op.promotional && op.expiresAt > 0.0
  }

  /** At no moment before its own expiry would an expiry burn anything of what the wallet holds. */
  ghost predicate SafeUntil(w: Wallet, e: real) {
    forall now | now < e :: Burnt(w, now) == 0
  }

  /** A grant is safe until its own expiry exactly when the wallet had no expiry on file, or none earlier. */
  lemma GrantSurvivesIff(l: Ledger, op: Op)
    requires Sound(l) && IsGrant(op) && Apply(l, op).1.Done?
    ensures SafeUntil(WalletAt(Apply(l, op).0, op.t), op.expiresAt) <==>
            !(0.0 < WalletAt(l, op.t).promoExpiresAt < op.expiresAt)
  {
    var before, after := WalletAt(l, op.t), WalletAt(Apply(l, op).0, op.t);
    assert WalletSane(before);
    GrantMovesExpiryForward(l, op);
    ApplyKeepsSound(l, op);
    assert WalletSane(after) && after.promo > 0;
    hide Apply, Sound;
    if 0.0 < before.promoExpiresAt < op.expiresAt {
      assert Burnt(after, before.promoExpiresAt) > 0;
    }
  }

  /** Later operations that make no further grant to the tenant and take place before e. */
  ghost predicate NoGrantUntil(ops: seq<Op>, t: string, e: real) {
    forall op | op in ops :: !(IsGrant(op) && op.t == t) && (!op.CreditOp? && !op.ReleaseOp? ==> op.now < e)
  }

  lemma QuietStepKeepsExpiry(l: Ledger, op: Op, t: string, e: real)
    requires WalletAt(l, t).promoExpiresAt == e
    requires !(IsGrant(op) && op.t == t) && (!op.CreditOp? && !op.ReleaseOp? ==> op.now < e)
    ensures WalletAt(Apply(l, op).0, t).promoExpiresAt == e
  {
  }

  /** Then nothing of it lapses early, whatever is spent, reserved or released meanwhile. */
  lemma {:induction false} GrantSurvivesRun(l: Ledger, op: Op, ops: seq<Op>)
    requires Sound(l) && IsGrant(op) && Apply(l, op).1.Done?
    requires !(0.0 < WalletAt(l, op.t).promoExpiresAt < op.expiresAt)
    requires NoGrantUntil(ops, op.t, op.expiresAt)
    ensures WalletAt(Run(Apply(l, op).0, ops), op.t).promoExpiresAt == op.expiresAt
    ensures SafeUntil(WalletAt(Run(Apply(l, op).0, ops), op.t), op.expiresAt)
  {
    hide Apply, Sound;
    if ops == [] {
      GrantExpiry(l, op);
    } else {
      var most := ops[..|ops| - 1];
      assert ops[|ops| - 1] in ops;
      GrantSurvivesRun(l, op, most);
      QuietStepKeepsExpiry(Run(Apply(l, op).0, most), ops[|ops| - 1], op.t, op.expiresAt);
    }
  }

  lemma GrantExpiry(l: Ledger, op: Op)
    requires Sound(l) && IsGrant(op) && Apply(l, op).1.Done?
    requires !(0.0 < WalletAt(l, op.t).promoExpiresAt < op.expiresAt)
    ensures WalletAt(Apply(l, op).0, op.t).promoExpiresAt == op.expiresAt
  {
    assert WalletSane(WalletAt(l, op.t));
    GrantMovesExpiryForward(l, op);
    hide Apply;
  }

  lemma SpendingEffect(l: Ledger, t: string, a: int, e: real, k: Key, now: real)
    requires ValidAmount(a) && ValidKey(k) && k !in l.idem && now < e && WalletAt(l, t) == Wallet(a, 0, a, e)
    ensures var l' := Apply(l, DeductOp(t, a, "generation_cost", "", k, now)).0;
            WalletAt(l', t) == Wallet(0, 0, 0, e) && l'.idem.Keys == l.idem.Keys + {k}
  {
  }

  lemma NextGrantEffect(l: Ledger, t: string, a: int, e: real, prior: real, k: Key)
    requires ValidAmount(a) && ValidKey(k) && k !in l.idem && 0.0 < prior < e
             && WalletAt(l, t) == Wallet(0, 0, 0, prior)
    ensures WalletAt(Apply(l, CreditOp(t, a, "promo_grant", "", k, true, e)).0, t) == Wallet(a, 0, a, prior)
  {
  }

  lemma BurnEffect(l: Ledger, t: string, a: int, e: real, now: real)
    requires a > 0 && 0.0 < e <= now && WalletAt(l, t) == Wallet(a, 0, a, e)
    ensures WalletAt(Apply(l, ExpireOp(t, now)).0, t) == EMPTY_WALLET
  {
  }

  /** The condition is not met by itself: a promotion that is spent leaves its expiry on file, and the next
      grant, however long it should last, is burnt in full at that moment. */
  lemma SpentPromotionBurnsNextGrant(t: string, a1: int, a2: int, e1: real, e2: real, k1: Key, k2: Key, k3: Key,
          spent: real, now: real)
    requires ValidAmount(a1) && ValidAmount(a2) && ValidKey(k1) && ValidKey(k2) && ValidKey(k3)
    requires k1 != k2 && k1 != k3 && k2 != k3
    requires spent < e1 && 0.0 < e1 <= now < e2
    ensures var ops := [CreditOp(t, a1, "promo_grant", "", k1, true, e1),
                        DeductOp(t, a1, "generation_cost", "", k2, spent),
                        CreditOp(t, a2, "promo_grant", "", k3, true, e2), ExpireOp(t, now)];
            WalletAt(Run(EMPTY_LEDGER, ops), t) == EMPTY_WALLET
  {
    var a := CreditOp(t, a1, "promo_grant", "", k1, true, e1);
    var b := DeductOp(t, a1, "generation_cost", "", k2, spent);
    var c := CreditOp(t, a2, "promo_grant", "", k3, true, e2);
    PositiveAmount(a2);
    hide *;
    EmptyLedgerIsClean(t);
    UnrollRun(EMPTY_LEDGER, a, b, c, ExpireOp(t, now));
    GrantEffect(EMPTY_LEDGER, t, a1, e1, k1);
    var l1 := Apply(EMPTY_LEDGER, a).0;
    SpendingEffect(l1, t, a1, e1, k2, spent);
    var l2 := Apply(l1, b).0;
    NextGrantEffect(l2, t, a2, e2, e1, k3);
    BurnEffect(Apply(l2, c).0, t, a2, e1, now);
  }

  lemma PositiveAmount(a: int)
    requires ValidAmount(a)
    ensures a > 0
  {
  }

  // ------------------------------------------------------------------ retries

  lemma KeysStay(l: Ledger, op: Op, k: Key)
    requires k in l.idem
    ensures k in Apply(l, op).0.idem
  {
  }

  lemma {:induction false} KeysStayOverRuns(l: Ledger, ops: seq<Op>, k: Key)
    requires k in l.idem
    ensures k in Run(l, ops).idem
  {
    if ops != [] {
      hide Apply;
      KeysStayOverRuns(l, ops[..|ops| - 1], k);
      KeysStay(Run(l, ops[..|ops| - 1]), ops[|ops| - 1], k);
    }
  }

  lemma DoneUsesKey(l: Ledger, op: Op)
    requires !op.ExpireOp? && Apply(l, op).1.Ok()
    ensures op.key in Apply(l, op).0.idem && ValidAmount(op.amount) && ValidKey(op.key)
  {
  }

  /** Once an operation has succeeded it can be retried at any time, after whatever else, and changes
      nothing; the retry reports success. */
  lemma RetryIsHarmless(l: Ledger, op: Op, between: seq<Op>)
    requires !op.ExpireOp? && Apply(l, op).1.Ok()
    ensures var l' := Run(Apply(l, op).0, between); Apply(l', op) == (l', Replayed)
  {
    var l1 := Apply(l, op).0;
    DoneUsesKey(l, op);
    KeysStayOverRuns(l1, between, op.key);
    ReplayChangesNothing(Run(l1, between), op);
    hide Apply, Run;
  }

  /** A key that has been used never changes anything again. */
  lemma ReplayChangesNothing(l: Ledger, op: Op)
    requires !op.ExpireOp? && ValidAmount(op.amount) && ValidKey(op.key) && op.key in l.idem
    ensures Apply(l, op) == (l, Replayed)
  {
  }
}
