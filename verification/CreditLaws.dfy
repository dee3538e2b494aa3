/** What the operations of lumen/platform/credits/memory_store.py mean for a wallet: when each of them goes
    through, what it takes from where, and what the ledger then says about holds. */
module CreditLaws {
  import opened Prelude
  import opened Credits

  /** Credit that was bought, as against granted. */
  function Purchased(w: Wallet): int {
    w.current - w.promo
  }

  // ------------------------------------------------------------------ when an operation goes through

  /** Before any operation that spends or holds, what is left of a promotion goes exactly when its time has
      come; purchased credit and holds stay as they are. */
  lemma ExpiryTakesPromotionOnly(l: Ledger, t: string, now: real)
    requires Sound(l)
    ensures var before, after := WalletAt(l, t), WalletAt(Apply(l, ExpireOp(t, now)).0, t);
            && Purchased(after) == Purchased(before) && after.reserved == before.reserved
            && (before.promo > 0 && 0.0 < before.promoExpiresAt <= now ==>
                  after.promo == 0 && after.promoExpiresAt == 0.0)
            && (!(before.promo > 0 && 0.0 < before.promoExpiresAt <= now) ==> after == before)
    ensures forall u | u != t :: WalletAt(Apply(l, ExpireOp(t, now)).0, u) == WalletAt(l, u)
  {
    SaneAt(l, t);
    ExpiryWallets(l, t, now);
    ExpiryIsApplied(l, t, now);
    ExpiredWallet(WalletAt(l, t), now);
    hide Sound, AfterExpiry, Apply, PromoDue, Burnt;
  }

  lemma ExpiryIsApplied(l: Ledger, t: string, now: real)
    ensures Apply(l, ExpireOp(t, now)).0 == AfterExpiry(l, t, now)
  {
  }

  lemma ExpiredWallet(w: Wallet, now: real)
    requires WalletSane(w)
    ensures PromoDue(w, now) <==> w.promo > 0 && 0.0 < w.promoExpiresAt <= now
    ensures PromoDue(w, now) ==> Burnt(w, now) == w.promo
  {
  }

  lemma ExpiryWallets(l: Ledger, t: string, now: real)
    ensures var w := WalletAt(l, t);
            AfterExpiry(l, t, now).wallets ==
            l.wallets[t := if PromoDue(w, now)
                           then w.(current := w.current - Burnt(w, now), promo := 0, promoExpiresAt := 0.0)
                           else w]
  {
    hide PromoDue, ExpiryKey;
  }

  /** The ledger an operation works on, once the expiry before it is done. */
  function Basis(l: Ledger, op: Op): Ledger {
    if op.CreditOp? || op.ReleaseOp? || op.ExpireOp? then l else AfterExpiry(l, op.t, op.now)
  }

  /** The wallet an operation finds: after the expiry that every spending or holding operation runs first. */
  function Found(l: Ledger, op: Op): Wallet {
    WalletAt(Basis(l, op), op.t)
  }

  /** An operation with a fresh key and a valid amount goes through exactly if the wallet allows it: spending
      and holding need credit that is neither spent nor held, a release something held, a capture the full
      amount both held and owned. A refusal names what there was. */
  lemma GoesThroughIff(l: Ledger, op: Op)
    requires !op.ExpireOp? && 0 < op.amount <= 1_000_000_000_000 && op.key !in l.idem
    requires op.key.Caller? && 8 <= |Strip(op.key.text)| <= 200
    ensures var w, reply := Found(l, op), Apply(l, op).1;
            match op
            case CreditOp(_, _, _, _, _, _, _) => reply == Done
            case DeductOp(_, amount, _, _, _, _) =>
              reply == if amount <= w.current - w.reserved then Done else Insufficient(Max(0, w.current - w.reserved))
            case ReserveOp(_, amount, _, _, _) =>
              reply == if amount <= w.current - w.reserved then Done else Insufficient(Max(0, w.current - w.reserved))
            case ReleaseOp(_, _, _, _) => reply == if w.reserved > 0 then Done else NothingReserved
            case CaptureOp(_, amount, _, _, _, _) =>
              reply == if w.reserved < amount then Insufficient(w.reserved)
                       else if w.current < amount then Insufficient(w.current) else Done
  {
    hide AfterExpiry, Strip;
  }

  /** Amounts below one or above a million million, and keys shorter than 8 or longer than 200 characters,
      are refused and change nothing. */
  lemma BadInputIsRefused(l: Ledger, op: Op)
    requires !op.ExpireOp? && op.key.Caller?
    ensures !(0 < op.amount <= 1_000_000_000_000) ==> Apply(l, op) == (l, BadAmount)
    ensures 0 < op.amount <= 1_000_000_000_000 && !(8 <= |Strip(op.key.text)| <= 200) ==> Apply(l, op) == (l, BadKey)
  {
    hide Strip, AfterExpiry;
  }

  // ------------------------------------------------------------------ what it takes from where

  /** What an operation that goes through makes of the wallet. Credit comes in whole, as a promotion where it
      is one. Spending and capturing take the amount from the balance, and promotional credit goes first:
      purchased credit is touched only when no promotional credit is left. Holding and releasing move
      nothing but the hold. */
  predicate Takes(op: Op, before: Wallet, after: Wallet)
    requires !op.ExpireOp?
  {
    && after.current - before.current ==
       (if op.CreditOp? then op.amount else if op.DeductOp? || op.CaptureOp? then -op.amount else 0)
    && after.reserved - before.reserved ==
       (match op
        case ReserveOp(_, amount, _, _, _) => amount
        case ReleaseOp(_, amount, _, _) => -Min(amount, before.reserved)
        case CaptureOp(_, amount, _, _, _, _) => -amount
        case _ => 0)
    && (op.CreditOp? ==> after.promo - before.promo == if op.promotional then op.amount else 0)
    && (op.DeductOp? || op.CaptureOp? ==>
          && Purchased(after) <= Purchased(before) && after.promo <= before.promo
          && (Purchased(after) < Purchased(before) ==> after.promo == 0))
    && (op.ReserveOp? || op.ReleaseOp? ==> after.promo == before.promo)
    && (!op.CreditOp? ==> after.promoExpiresAt == before.promoExpiresAt)
  }

  /** It makes that of its own wallet, and changes no other. */
  lemma TakesFromWallet(l: Ledger, op: Op)
    requires Sound(l) && !op.ExpireOp? && Apply(l, op).1.Done?
    ensures Takes(op, Found(l, op), WalletAt(Apply(l, op).0, op.t))
    ensures forall u | u != op.t :: WalletAt(Apply(l, op).0, u) == WalletAt(l, u)
  {
    ExpirySpares(l, op);
    SparesOthers(l, op);
    if op.DeductOp? || op.CaptureOp? {
      SpendingTakes(l, op);
    } else {
      OthersTake(l, op);
    }
    hide Apply, Takes, Found, WalletAt, Sound;
  }

  lemma SpendingTakes(l: Ledger, op: Op)
    requires (op.DeductOp? || op.CaptureOp?) && Apply(l, op).1.Done? && WalletSane(Found(l, op))
    ensures Takes(op, Found(l, op), WalletAt(Apply(l, op).0, op.t))
  {
    hide AfterExpiry, ValidKey;
  }

  lemma OthersTake(l: Ledger, op: Op)
    requires (op.CreditOp? || op.ReserveOp? || op.ReleaseOp?) && Apply(l, op).1.Done? && WalletSane(Found(l, op))
    ensures Takes(op, Found(l, op), WalletAt(Apply(l, op).0, op.t))
  {
    hide AfterExpiry, ValidKey;
  }

  lemma SparesOthers(l: Ledger, op: Op)
    requires Sound(l) && !op.ExpireOp? && Apply(l, op).1.Done?
    ensures forall u | u != op.t :: WalletAt(Apply(l, op).0, u) == WalletAt(l, u)
  {
    ExpirySpares(l, op);
    hide AfterExpiry, Sound, WalletSane, ValidKey, Spent;
  }

  lemma ExpirySpares(l: Ledger, op: Op)
    requires Sound(l) && !op.ExpireOp?
    ensures WalletSane(Found(l, op))
    ensures !op.CreditOp? && !op.ReleaseOp? ==>
              forall u | u != op.t :: WalletAt(AfterExpiry(l, op.t, op.now), u) == WalletAt(l, u)
  {
    if !op.CreditOp? && !op.ReleaseOp? {
      ExpiryKeepsSound(l, op.t, op.now);
      SaneAt(AfterExpiry(l, op.t, op.now), op.t);
    } else {
      SaneAt(l, op.t);
    }
    hide Sound;
  }

  /** The entry that is filed carries the operation's amount, kind, reference and key. */
  lemma EntrySaysWhatHappened(l: Ledger, op: Op)
    requires !op.ExpireOp? && Apply(l, op).1.Done?
    ensures var l' := Apply(l, op).0;
            && l'.entries != []
            && var e := l'.entries[|l'.entries| - 1];
               && e.tenant == op.t && e.key == op.key && e.reference == op.reference
               && e.amount == (if op.ReleaseOp? then Min(op.amount, WalletAt(l, op.t).reserved) else op.amount)
               && e.kind == (match op
                             case CreditOp(_, _, kind, _, _, _, _) => kind
                             case DeductOp(_, _, kind, _, _, _) => kind
                             case ReserveOp(_, _, _, _, _) => "reserve"
                             case ReleaseOp(_, _, _, _) => "release_reservation"
                             case CaptureOp(_, _, kind, _, _, _) => kind)
  {
    hide AfterExpiry, ValidKey;
  }

  // ------------------------------------------------------------------ holds

  function HoldNet(legs: seq<Leg>, t: string): int {
    if legs == [] then 0
    else
      HoldNet(legs[..|legs| - 1], t) +
      match legs[|legs| - 1]
      case Debit(a, n) => if a == HoldOf(t) then n else 0
      case Credit(a, n) => if a == HoldOf(t) then -n else 0
  }

  /** Debits less credits of the tenant's hold account, over the tenant's entries. */
  function HeldBy(entries: seq<Entry>, t: string): int {
    if entries == [] then 0
    else
      var e := entries[|entries| - 1];
      HeldBy(entries[..|entries| - 1], t) + if e.tenant == t then HoldNet(e.legs, t) else 0
  }

  lemma TwoHoldLegs(a: Leg, b: Leg, t: string)
    ensures HoldNet([a, b], t) == HoldNet([a], t) + HoldNet([b], t)
  {
    assert [a, b][..1] == [a] && [b][..0] == [] && HoldNet([], t) == 0;
  }

  lemma FourHoldLegs(a: Leg, b: Leg, c: Leg, d: Leg, t: string)
    ensures HoldNet([a, b, c, d], t) == HoldNet([a], t) + HoldNet([b], t) + HoldNet([c], t) + HoldNet([d], t)
  {
    TwoHoldLegs(a, b, t);
    assert [a, b, c, d][..3] == [a, b, c] && [a, b, c][..2] == [a, b];
    assert [c][..0] == [] && [d][..0] == [] && HoldNet([], t) == 0;
  }

  lemma OneHoldLeg(a: Leg, t: string)
    ensures HoldNet([a], t) == match a
                               case Debit(x, n) => if x == HoldOf(t) then n else 0
                               case Credit(x, n) => if x == HoldOf(t) then -n else 0
  {
    assert [a][..0] == [];
  }

  /** The wallet agrees with its hold account. */
  predicate Holding(l: Ledger, t: string) {
    WalletAt(l, t).reserved == HeldBy(l.entries, t)
  }

  lemma CommitKeepsHold(l: Ledger, t: string, w: Wallet, e: Entry, u: string)
    requires e.tenant == t && (u == t ==> w.reserved - WalletAt(l, t).reserved == HoldNet(e.legs, t))
    requires Holding(l, u)
    ensures Holding(Commit(l, t, w, e), u)
  {
    assert (l.entries + [e])[..|l.entries|] == l.entries;
  }

  lemma ExpiryKeepsHold(l: Ledger, t: string, now: real, u: string)
    requires Holding(l, u)
    ensures Holding(AfterExpiry(l, t, now), u)
  {
    var w := WalletAt(l, t);
    var a := Burnt(w, now);
    TwoHoldLegs(Debit(WalletOf(t), a), Credit(Revenue, a), t);
    OneHoldLeg(Debit(WalletOf(t), a), t);
    OneHoldLeg(Credit(Revenue, a), t);
    hide HoldNet, HeldBy, Trunc;
    if PromoDue(w, now) && ExpiryKey(t, w) !in l.idem && a > 0 {
      CommitKeepsHold(l, t, w.(current := w.current - a, promo := 0, promoExpiresAt := 0.0),
                      Entry(t, "promo_expired", ExpiryKey(t, w), "promo_expire:" + t, a,
                            [Debit(WalletOf(t), a), Credit(Revenue, a)]), u);
    }
  }

  lemma FiledHold(l: Ledger, op: Op)
    requires !op.ExpireOp? && Apply(l, op).1.Done?
    ensures var l1, l' := Basis(l, op), Apply(l, op).0;
            && |l'.entries| == |l1.entries| + 1
            && var e := l'.entries[|l1.entries|];
               && l' == Commit(l1, op.t, WalletAt(l', op.t), e) && e.tenant == op.t
               && WalletAt(l', op.t).reserved - WalletAt(l1, op.t).reserved == HoldNet(e.legs, op.t)
  {
    LegsOfHolds(op, if op.ReleaseOp? then Min(op.amount, WalletAt(l, op.t).reserved) else op.amount);
    hide HoldNet, HeldBy, AfterExpiry, ValidKey;
  }

  lemma RefusedMovesNothing(l: Ledger, op: Op, u: string)
    requires !op.ExpireOp? && !Apply(l, op).1.Done?
    ensures || Apply(l, op).0 == Basis(l, op)
            || (Apply(l, op).0.entries == l.entries && WalletAt(Apply(l, op).0, u) == WalletAt(l, u))
  {
    hide AfterExpiry, ValidKey;
  }

  lemma StepKeepsHold(l: Ledger, op: Op, u: string)
    requires Holding(l, u)
    ensures Holding(Apply(l, op).0, u)
  {
    if !op.CreditOp? && !op.ReleaseOp? {
      ExpiryKeepsHold(l, op.t, op.now, u);
    }
    assert op.ExpireOp? ==> Apply(l, op).0 == AfterExpiry(l, op.t, op.now);
    hide HeldBy, AfterExpiry, Apply, HoldNet;
    if !op.ExpireOp? {
      if Apply(l, op).1.Done? {
        var l1, l' := Basis(l, op), Apply(l, op).0;
        FiledHold(l, op);
        CommitKeepsHold(l1, op.t, WalletAt(l', op.t), l'.entries[|l1.entries|], u);
      } else {
        RefusedMovesNothing(l, op, u);
      }
    }
  }

  lemma LegsOfHolds(op: Op, a: int)
    ensures var t := op.t;
            && HoldNet([Debit(Treasury, a), Credit(WalletOf(t), a)], t) == 0
            && HoldNet([Debit(WalletOf(t), a), Credit(Revenue, a)], t) == 0
            && HoldNet([Debit(HoldOf(t), a), Credit(Holds, a)], t) == a
            && HoldNet([Debit(Holds, a), Credit(HoldOf(t), a)], t) == -a
            && HoldNet([Debit(Holds, a), Credit(HoldOf(t), a), Debit(WalletOf(t), a), Credit(Revenue, a)], t) == -a
  {
    var t := op.t;
    forall x: Leg ensures HoldNet([x], t) == match x
                                             case Debit(y, n) => (if y == HoldOf(t) then n else 0)
                                             case Credit(y, n) => (if y == HoldOf(t) then -n else 0) {
      OneHoldLeg(x, t);
    }
    TwoHoldLegs(Debit(Treasury, a), Credit(WalletOf(t), a), t);
    TwoHoldLegs(Debit(WalletOf(t), a), Credit(Revenue, a), t);
    TwoHoldLegs(Debit(HoldOf(t), a), Credit(Holds, a), t);
    TwoHoldLegs(Debit(Holds, a), Credit(HoldOf(t), a), t);
    FourHoldLegs(Debit(Holds, a), Credit(HoldOf(t), a), Debit(WalletOf(t), a), Credit(Revenue, a), t);
    hide HoldNet;
  }

  /** Over every run, what a wallet holds back is what the ledger's hold account of its tenant says. */
  lemma {:induction false} HoldsAreInTheLedger(ops: seq<Op>, t: string)
    ensures WalletAt(Run(EMPTY_LEDGER, ops), t).reserved == HeldBy(Run(EMPTY_LEDGER, ops).entries, t)
  {
    if ops != [] {
      HoldsAreInTheLedger(ops[..|ops| - 1], t);
      StepKeepsHold(Run(EMPTY_LEDGER, ops[..|ops| - 1]), ops[|ops| - 1], t);
      hide Apply, HeldBy;
    }
  }
}
