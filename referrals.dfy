/**
 * The referral routes (src/app/api/refferals/route.ts): redeeming a referral code, which sets
 * `User.referredBy` once; the referral statistics of the signed-in user; and the older bonus
 * helper `awardReferralBonus`, a wallet upsert plus a CREDIT transaction.
 *
 * The session is an input (the signed-in user's email, when there is one). Which store call
 * throws, if any, is an input; a thrown error rolls its transaction back.
 */
module Referrals {
  import opened Wrappers
  import opened Text
  import opened Seqs
  import opened Store
  import RazorpayWebhook

  const BonusAmount: int := 50
  const BonusText: string := "Referral bonus"

  /** User ids are generated and never empty. */
  predicate IdsNonEmpty(users: seq<User>)
  {
    forall k :: 0 <= k < |users| ==> users[k].id != ""
  }

  // ---------------------------------------------------------------------------------
  // POST: redeem a referral code

  datatype RedeemReply = Applied | Rejected(code: int, error: string)

  /** The store call of a redemption that throws, if any: the lookup of the signed-in user, the
      lookup of the code's owner, or the update. */
  datatype RedeemFault = RedeemNoFault | UserReadThrows | CodeReadThrows | UpdateThrows

  const ApplyError: string := "Error applying referral"

  /** `user.findUnique({ where: { email } })`. */
  function UserByEmail(users: seq<User>, email: string): Option<nat>
  {
    FindFirst(users, (u: User) => u.email == email)
  }

  /** `user.findFirst({ where: { referralCode } })`. */
  function UserByCode(users: seq<User>, code: string): Option<nat>
  {
    FindFirst(users, (u: User) => u.referralCode == code)
  }

  /** `POST`: the answer and the User table afterwards. Every store error is caught and
      answered 500 "Error applying referral". */
  function Redeem(users: seq<User>, sessionEmail: Option<string>, referralCode: Option<string>, fault: RedeemFault)
    : (r: (RedeemReply, seq<User>))
    ensures r.0.Rejected? ==> r.1 == users
    ensures |r.1| == |users|
    ensures r.0 == Applied ==> fault.RedeemNoFault? && Truthy(sessionEmail) && Truthy(referralCode)
  {
    if !Truthy(sessionEmail) then (Rejected(401, "Unauthorized"), users)
    else if !Truthy(referralCode) then (Rejected(400, "Missing referral code"), users)
    else if fault == UserReadThrows then (Rejected(500, ApplyError), users)
    else
      match UserByEmail(users, sessionEmail.value)
      case None => (Rejected(404, "User not found"), users)
      case Some(c) =>
        if Truthy(users[c].referredBy) then (Rejected(400, "User already has a referrer"), users)
        else if fault == CodeReadThrows then (Rejected(500, ApplyError), users)
        else
          match UserByCode(users, referralCode.value)
          case None => (Rejected(404, "Invalid referral code"), users)
          case Some(r) =>
            if users[r].id == users[c].id then (Rejected(400, "Cannot refer yourself"), users)
            else if fault == UpdateThrows then (Rejected(500, ApplyError), users)
            else (Applied, users[c := users[c].(referredBy := Some(users[r].id))])
  }

  /** `POST` over the database. */
  method RedeemCode(db: Db, sessionEmail: Option<string>, referralCode: Option<string>, fault: RedeemFault)
    returns (reply: RedeemReply)
    modifies db
    ensures (reply, db.users) == Redeem(old(db.users), sessionEmail, referralCode, fault)
    ensures db.State() == old(db.State()).(users := db.users)
  {
    if !Truthy(sessionEmail) {
      return Rejected(401, "Unauthorized");
    }
    if !Truthy(referralCode) {
      return Rejected(400, "Missing referral code");
    }
    if fault == UserReadThrows {
      return Rejected(500, ApplyError);
    }
    var current := UserByEmail(db.users, sessionEmail.value);
    if current.None? {
      return Rejected(404, "User not found");
    }
    var c := current.value;
    if Truthy(db.users[c].referredBy) {
      return Rejected(400, "User already has a referrer");
    }
    if fault == CodeReadThrows {
      return Rejected(500, ApplyError);
    }
    var referrer := UserByCode(db.users, referralCode.value);
    if referrer.None? {
      return Rejected(404, "Invalid referral code");
    }
    var r := referrer.value;
    if db.users[r].id == db.users[c].id {
      return Rejected(400, "Cannot refer yourself");
    }
    if fault == UpdateThrows {
      return Rejected(500, ApplyError);
    }
    db.users := db.users[c := db.users[c].(referredBy := Some(db.users[r].id))];
    reply := Applied;
  }

  /** The rejections come in this order: no session (401), no code (400), a failing user lookup
      (500), no such user (404), a referrer already set (400), a failing code lookup (500), an
      unknown code (404), the user's own code (400), a failing update (500). */
  lemma RedeemChecksInOrder(users: seq<User>, email: Option<string>, code: Option<string>, fault: RedeemFault)
    ensures var reply := Redeem(users, email, code, fault).0;
      && (!Truthy(email) ==> reply == Rejected(401, "Unauthorized"))
      && (Truthy(email) && !Truthy(code) ==> reply == Rejected(400, "Missing referral code"))
      && (Truthy(email) && Truthy(code) && fault == UserReadThrows ==> reply == Rejected(500, ApplyError))
      && (Truthy(email) && Truthy(code) && fault != UserReadThrows ==>
            var current := UserByEmail(users, email.value);
            var referrer := UserByCode(users, code.value);
            && (current.None? ==> reply == Rejected(404, "User not found"))
            && (current.Some? && Truthy(users[current.value].referredBy) ==>
                  reply == Rejected(400, "User already has a referrer"))
            && (current.Some? && !Truthy(users[current.value].referredBy) && fault == CodeReadThrows ==>
                  reply == Rejected(500, ApplyError))
            && (current.Some? && !Truthy(users[current.value].referredBy) && fault != CodeReadThrows ==>
                  && (referrer.None? ==> reply == Rejected(404, "Invalid referral code"))
                  && (referrer.Some? && users[referrer.value].id == users[current.value].id ==>
                        reply == Rejected(400, "Cannot refer yourself"))
                  && (referrer.Some? && users[referrer.value].id != users[current.value].id ==>
                        reply == (if fault == UpdateThrows then Rejected(500, ApplyError) else Applied))))
  {
  }

  /** Every rejection leaves the users as they were. A redemption succeeds only for a signed-in user
      without a referrer and a code that belongs to another user, and it then changes exactly one
      thing: that user's `referredBy` becomes the code owner's id. */
  lemma RedeemEffect(users: seq<User>, email: Option<string>, code: Option<string>, fault: RedeemFault)
    ensures var (reply, after) := Redeem(users, email, code, fault);
      && (reply.Rejected? ==> after == users)
      && (reply == Applied ==>
            && Truthy(email) && Truthy(code) && fault.RedeemNoFault?
            && UserByEmail(users, email.value).Some? && UserByCode(users, code.value).Some?
            && var c := UserByEmail(users, email.value).value;
               var r := UserByCode(users, code.value).value;
               && users[c].email == email.value && !Truthy(users[c].referredBy)
               && users[r].referralCode == code.value && users[r].id != users[c].id
               && |after| == |users|
               && after[c] == users[c].(referredBy := Some(users[r].id))
               && (forall j :: 0 <= j < |users| && j != c ==> after[j] == users[j]))
  {
  }

  /** `referredBy` is write-once through this route: a user whose referrer is set cannot redeem
      again, whatever the code, and nothing changes. */
  lemma ReferrerWriteOnce(users: seq<User>, email: Option<string>, code: Option<string>, fault: RedeemFault)
    requires Truthy(email) && UserByEmail(users, email.value).Some?
    requires Truthy(users[UserByEmail(users, email.value).value].referredBy)
    ensures Redeem(users, email, code, fault).1 == users
    ensures Redeem(users, email, code, fault).0.Rejected?
    ensures Truthy(code) && fault != UserReadThrows ==>
      Redeem(users, email, code, fault).0 == Rejected(400, "User already has a referrer")
  {
  }

  /** After a successful redemption, every later redemption by the same user is rejected and
      changes nothing. */
  lemma SecondRedemptionRejected(users: seq<User>, email: Option<string>, code: Option<string>, fault: RedeemFault,
                                 laterCode: Option<string>, laterFault: RedeemFault)
    requires IdsNonEmpty(users)
    requires Redeem(users, email, code, fault).0 == Applied
    ensures var after := Redeem(users, email, code, fault).1;
      && Redeem(after, email, laterCode, laterFault).1 == after
      && Redeem(after, email, laterCode, laterFault).0.Rejected?
  {
    RedeemEffect(users, email, code, fault);
    var after := Redeem(users, email, code, fault).1;
    FindFirstAgrees(users, after, (u: User) => u.email == email.value);
    var c := UserByEmail(users, email.value).value;
    ReferrerWriteOnce(after, email, laterCode, laterFault);
  }

  // ---------------------------------------------------------------------------------
  // GET: referral statistics

  /** `user.count({ where: { referredBy: id } })`. */
  function ReferredUsers(users: seq<User>, id: UserId): nat
  {
    Count(users, (u: User) => u.referredBy == Some(id))
  }

  /** The transactions the statistics count as referral earnings of `id`. */
  predicate IsReferralCredit(tx: Transaction, id: UserId)
  {
    tx.userId == id && tx.kind == Credit && tx.description == BonusText
  }

  function SumOfAmounts(txs: seq<Transaction>): int
    decreases |txs|
  {
    if |txs| == 0 then 0 else txs[0].amount + SumOfAmounts(txs[1..])
  }

  /** `_sum.amount || 0`: the sum is null over no rows, which the route turns into 0. */
  function TotalEarnings(txs: seq<Transaction>, id: UserId): int
  {
    SumOfAmounts(Filter(txs, (tx: Transaction) => IsReferralCredit(tx, id)))
  }

  datatype InfoReply =
    | Info(referralCode: string, referredBy: Option<UserId>, referredUsers: nat, totalEarnings: int)
    | InfoRejected(code: int, error: string)

  /** `GET`: read only. `fails` says whether a store read throws, which the route answers with 500. */
  function ReferralInfo(t: Tables, sessionEmail: Option<string>, fails: bool): (r: InfoReply)
    ensures r.Info? ==> Truthy(sessionEmail) && !fails && UserByEmail(t.users, sessionEmail.value).Some?
    ensures r.Info? ==> r.referredUsers <= |t.users|
    ensures r.InfoRejected? ==> r.code in {401, 404, 500}
  {
    if !Truthy(sessionEmail) then InfoRejected(401, "Unauthorized")
    else if fails then InfoRejected(500, "Error fetching referral info")
    else
      match UserByEmail(t.users, sessionEmail.value)
      case None => InfoRejected(404, "User not found")
      case Some(u) =>
        var user := t.users[u];
        FilterKeeps(t.users, (x: User) => x.referredBy == Some(user.id));
        Info(user.referralCode, user.referredBy, ReferredUsers(t.users, user.id), TotalEarnings(t.transactions, user.id))
  }

  /** Without a session the answer is 401, for an unknown email 404, and a failing read 500;
      otherwise the caller's code and referrer with the number of users they referred and the
      sum of their "Referral bonus" credits. */
  lemma ReferralInfoAnswers(t: Tables, sessionEmail: Option<string>, fails: bool)
    ensures var r := ReferralInfo(t, sessionEmail, fails);
      && (!Truthy(sessionEmail) ==> r == InfoRejected(401, "Unauthorized"))
      && (Truthy(sessionEmail) && fails ==> r == InfoRejected(500, "Error fetching referral info"))
      && (Truthy(sessionEmail) && !fails && UserByEmail(t.users, sessionEmail.value).None? ==>
            r == InfoRejected(404, "User not found"))
      && (r.Info? ==>
            && UserByEmail(t.users, sessionEmail.value).Some?
            && var user := t.users[UserByEmail(t.users, sessionEmail.value).value];
               && user.email == sessionEmail.value
               && r.referralCode == user.referralCode && r.referredBy == user.referredBy
               && r.referredUsers == Count(t.users, (u: User) => u.referredBy == Some(user.id))
               && r.totalEarnings == SumOfAmounts(Filter(t.transactions, (tx: Transaction) => IsReferralCredit(tx, user.id))))
  {
  }

  /** `|| 0`: with no "Referral bonus" credit of the caller the earnings are 0. */
  lemma {:induction false} NoCreditsNoEarnings(txs: seq<Transaction>, id: UserId)
    requires forall k :: 0 <= k < |txs| ==> !IsReferralCredit(txs[k], id)
    ensures TotalEarnings(txs, id) == 0
    decreases |txs|
  {
    var p := (tx: Transaction) => IsReferralCredit(tx, id);
    if |txs| > 0 {
      NoCreditsNoEarnings(txs[1..], id);
      assert Filter(txs, p) == Filter(txs[1..], p);
    }
  }

  lemma {:induction false} SumAppend(a: seq<Transaction>, b: seq<Transaction>)
    ensures SumOfAmounts(a + b) == SumOfAmounts(a) + SumOfAmounts(b)
    decreases |a|
  {
    if |a| > 0 {
      assert (a + b)[1..] == a[1..] + b;
      SumAppend(a[1..], b);
    } else {
      assert a + b == b;
    }
  }

  /** Appending a transaction adds its amount to the earnings of `id` iff it is a referral credit of `id`. */
  lemma TotalEarningsAppend(txs: seq<Transaction>, tx: Transaction, id: UserId)
    ensures TotalEarnings(txs + [tx], id)
      == TotalEarnings(txs, id) + (if IsReferralCredit(tx, id) then tx.amount else 0)
  {
    var p := (t: Transaction) => IsReferralCredit(t, id);
    FilterAppend(txs, [tx], p);
    SumAppend(Filter(txs, p), Filter([tx], p));
  }

  /** A successful redemption adds one to the code owner's `referredUsers` and leaves the count of
      every other user as it was. */
  lemma RedemptionCountsOnce(users: seq<User>, email: Option<string>, code: Option<string>, fault: RedeemFault, id: UserId)
    requires IdsNonEmpty(users) && id != ""
    requires Redeem(users, email, code, fault).0 == Applied
    ensures var after := Redeem(users, email, code, fault).1;
      var owner := users[UserByCode(users, code.value).value].id;
      ReferredUsers(after, id) == ReferredUsers(users, id) + (if id == owner then 1 else 0)
  {
    RedeemEffect(users, email, code, fault);
    var c := UserByEmail(users, email.value).value;
    var r := UserByCode(users, code.value).value;
    var after := Redeem(users, email, code, fault).1;
    assert after == users[c := users[c].(referredBy := Some(users[r].id))];
    CountUpdate(users, c, users[c].(referredBy := Some(users[r].id)), (u: User) => u.referredBy == Some(id));
  }

  /** The webhook's bonus is a REFERRAL_BONUS transaction, so it never shows in `totalEarnings`,
      which counts only CREDIT transactions described exactly "Referral bonus". */
  lemma WebhookBonusNotInEarnings(t: Tables, orderId: OrderId, f: RazorpayWebhook.Faults, id: UserId)
    ensures TotalEarnings(RazorpayWebhook.ReferralBonusOutcome(t, orderId, f).1.transactions, id)
      == TotalEarnings(t.transactions, id)
  {
    RazorpayWebhook.AwardIff(t, orderId, f);
    var (award, after) := RazorpayWebhook.ReferralBonusOutcome(t, orderId, f);
    if award.Some? {
      RazorpayWebhook.AwardCreditsReferrer(t, orderId, f);
      TotalEarningsAppend(t.transactions, award.value.transaction, id);
    }
  }

  // ---------------------------------------------------------------------------------
  // awardReferralBonus

  /** The purchaser exists and has a (truthy) `referredBy`. */
  predicate Referred(t: Tables, userId: UserId)
  {
    UserById(t.users, userId).Some? && Truthy(t.users[UserById(t.users, userId).value].referredBy)
  }

  function ReferrerOfPurchaser(t: Tables, userId: UserId): UserId
    requires Referred(t, userId)
  {
    t.users[UserById(t.users, userId).value].referredBy.value
  }

  /** The store call of `awardReferralBonus` that throws, if any: the purchaser lookup, or the
      transaction (wallet upsert and transaction insert). */
  datatype AwardFault = AwardNoFault | PurchaserReadThrows | TransactionThrows

  /** `awardReferralBonus(userId)`: the store afterwards, or None when a store call throws (the
      error is rethrown and the transaction rolled back). A wallet created by the upsert gets the
      id `newWalletId`. */
  function AwardOutcome(t: Tables, userId: UserId, newWalletId: WalletId, fault: AwardFault): (r: Option<Tables>)
    ensures r.None? <==> fault.PurchaserReadThrows? || (fault.TransactionThrows? && Referred(t, userId))
    ensures r.Some? ==> r.value.users == t.users && r.value.orders == t.orders && r.value.partnerRequests == t.partnerRequests
    ensures r.Some? && !Referred(t, userId) ==> r.value == t
    ensures r.Some? && Referred(t, userId) ==>
      && |r.value.transactions| == |t.transactions| + 1
      && r.value.transactions[..|t.transactions|] == t.transactions
      && r.value.transactions[|t.transactions|].userId == ReferrerOfPurchaser(t, userId)
  {
    if fault.PurchaserReadThrows? then None
    else if !Referred(t, userId) then Some(t)
    else if fault.TransactionThrows? then None
    else
      var referrerId := ReferrerOfPurchaser(t, userId);
      match WalletOf(t.wallets, referrerId)
      case Some(w) =>
        var wallet := t.wallets[w].(balance := t.wallets[w].balance + BonusAmount);
        Some(t.(wallets := t.wallets[w := wallet],
                transactions := t.transactions + [Transaction(BonusAmount, Credit, BonusText, wallet.id, referrerId)]))
      case None =>
        var wallet := Wallet(newWalletId, referrerId, BonusAmount);
        Some(t.(wallets := t.wallets + [wallet],
                transactions := t.transactions + [Transaction(BonusAmount, Credit, BonusText, wallet.id, referrerId)]))
  }

  /** `awardReferralBonus` over the database; `threw` says whether it rethrew. */
  method AwardReferralBonus(db: Db, userId: UserId, newWalletId: WalletId, fault: AwardFault) returns (threw: bool)
    modifies db
    ensures threw == AwardOutcome(old(db.State()), userId, newWalletId, fault).None?
    ensures !threw ==> db.State() == AwardOutcome(old(db.State()), userId, newWalletId, fault).value
    ensures threw ==> db.State() == old(db.State())
  {
    if fault.PurchaserReadThrows? {
      return true;
    }
    var purchaser := UserById(db.users, userId);
    if purchaser.None? || !Truthy(db.users[purchaser.value].referredBy) {
      return false;
    }
    if fault.TransactionThrows? {
      return true;
    }
    var referrerId := db.users[purchaser.value].referredBy.value;
    var existing := WalletOf(db.wallets, referrerId);
    var wallet: Wallet;
    if existing.Some? {
      var w := existing.value;
      wallet := db.wallets[w].(balance := db.wallets[w].balance + BonusAmount);
      db.wallets := db.wallets[w := wallet];
    } else {
      wallet := Wallet(newWalletId, referrerId, BonusAmount);
      db.wallets := db.wallets + [wallet];
    }
    db.transactions := db.transactions + [Transaction(BonusAmount, Credit, BonusText, wallet.id, referrerId)];
    threw := false;
  }

  /** Without a purchaser that has a referrer nothing happens, unless the purchaser lookup itself
      throws, which is rethrown. */
  lemma AwardWithoutReferrer(t: Tables, userId: UserId, newWalletId: WalletId, fault: AwardFault)
    requires !Referred(t, userId)
    ensures AwardOutcome(t, userId, newWalletId, fault) == if fault.PurchaserReadThrows? then None else Some(t)
  {
  }

  /** An award adds exactly 50 to the referrer's balance (a new wallet starts at 50), appends one
      CREDIT "Referral bonus" transaction of 50 on that wallet owned by the referrer, raises the
      referrer's `totalEarnings` by 50, and changes no user, no order and no other wallet. */
  lemma AwardCredits(t: Tables, userId: UserId, newWalletId: WalletId)
    requires Referred(t, userId)
    ensures AwardOutcome(t, userId, newWalletId, AwardNoFault).Some?
    ensures var after := AwardOutcome(t, userId, newWalletId, AwardNoFault).value;
      var r := ReferrerOfPurchaser(t, userId);
      && after.users == t.users && after.orders == t.orders && after.partnerRequests == t.partnerRequests
      && BalanceOf(after.wallets, r) == BalanceOf(t.wallets, r) + BonusAmount
      && WalletOf(after.wallets, r).Some?
      && after.transactions
           == t.transactions + [Transaction(BonusAmount, Credit, BonusText, after.wallets[WalletOf(after.wallets, r).value].id, r)]
      && (WalletOf(t.wallets, r).None? ==> after.wallets == t.wallets + [Wallet(newWalletId, r, BonusAmount)])
      && (WalletOf(t.wallets, r).Some? ==>
            var w := WalletOf(t.wallets, r).value;
            after.wallets == t.wallets[w := t.wallets[w].(balance := t.wallets[w].balance + BonusAmount)])
      && |after.wallets| >= |t.wallets|
      && (forall j :: 0 <= j < |t.wallets| && t.wallets[j].userId != r ==> after.wallets[j] == t.wallets[j])
      && TotalEarnings(after.transactions, r) == TotalEarnings(t.transactions, r) + BonusAmount
  {
    var r := ReferrerOfPurchaser(t, userId);
    var after := AwardOutcome(t, userId, newWalletId, AwardNoFault).value;
    var bonus := after.transactions[|t.transactions|];
    if WalletOf(t.wallets, r).Some? {
      FindFirstAgrees(t.wallets, after.wallets, (x: Wallet) => x.userId == r);
    } else {
      assert after.wallets[|t.wallets|].userId == r;
    }
    assert after.transactions == t.transactions + [bonus];
    TotalEarningsAppend(t.transactions, bonus, r);
  }

  /** `awardReferralBonus` called once per element of `newWalletIds`, none of them failing. */
  function AwardTimes(t: Tables, userId: UserId, newWalletIds: seq<WalletId>): Option<Tables>
    decreases |newWalletIds|
  {
    if |newWalletIds| == 0 then Some(t)
    else
      match AwardOutcome(t, userId, newWalletIds[0], AwardNoFault)
      case None => None
      case Some(next) => AwardTimes(next, userId, newWalletIds[1..])
  }

  /** The helper is not idempotent: n calls for a referred purchaser add 50·n to the referrer's
      balance and to their `totalEarnings`, and append n transactions. */
  lemma {:induction false} AwardNotIdempotent(t: Tables, userId: UserId, newWalletIds: seq<WalletId>)
    requires Referred(t, userId)
    ensures AwardTimes(t, userId, newWalletIds).Some?
    ensures var after := AwardTimes(t, userId, newWalletIds).value;
      var r := ReferrerOfPurchaser(t, userId);
      && after.users == t.users
      && BalanceOf(after.wallets, r) == BalanceOf(t.wallets, r) + BonusAmount * |newWalletIds|
      && |after.transactions| == |t.transactions| + |newWalletIds|
      && TotalEarnings(after.transactions, r) == TotalEarnings(t.transactions, r) + BonusAmount * |newWalletIds|
    decreases |newWalletIds|
  {
    if |newWalletIds| > 0 {
      AwardCredits(t, userId, newWalletIds[0]);
      var next := AwardOutcome(t, userId, newWalletIds[0], AwardNoFault).value;
      AwardNotIdempotent(next, userId, newWalletIds[1..]);
    }
  }
}
