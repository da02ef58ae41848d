/**
 * The Razorpay payment webhook (src/app/api/webhook/razorpay/route.ts): signature gate,
 * event dispatch, completion of the paid order, and the referral bonus paid to the
 * referrer of a user whose first order completes.
 *
 * Store reads that the handler wraps in `withRetry` can fail transiently; `Faults` says how
 * often each of them fails in a row before the store answers, and whether each write that
 * is not retried throws. The HMAC is a parameter (`Config.hmacSha256Hex`).
 */
module RazorpayWebhook {
  import opened Wrappers
  import opened Text
  import opened Seqs
  import opened Store

  const ReferralBonusAmount: int := 50
  const MaxRetries: nat := 3
  const PaymentCaptured: string := "payment.captured"

  /** The error text of a store read that could not reach the database. */
  const StoreUnavailable: string := "Can't reach database server"

  /** The error text of reading `payload.payment.entity` from an event that lacks it. */
  const MissingPaymentEntity: string := "Cannot read properties of undefined"

  // ---------------------------------------------------------------------------------
  // withRetry

  /** What one invocation of a store operation does: it returns a value or it throws. */
  datatype Attempt<T> = Succeeded(value: T) | Threw(error: string)

  /** The outcome of `withRetry` and how many times it invoked the operation in total. */
  datatype Retried<T> = Retried(outcome: Attempt<T>, calls: nat)

  /**
   * `withRetry(operation, retries)`, where `operation(i)` is what the i-th invocation of the
   * operation does and `attempt` invocations happened before this call. The delay between
   * attempts is not modelled.
   */
  function WithRetry<T>(operation: nat -> Attempt<T>, retries: nat, attempt: nat): (r: Retried<T>)
    ensures attempt < r.calls <= attempt + retries + 1
    ensures r.outcome == operation(r.calls - 1)
    ensures forall i :: attempt <= i < r.calls - 1 ==> operation(i).Threw?
    ensures r.outcome.Threw? ==> r.calls == attempt + retries + 1
    decreases retries
  {
    match operation(attempt)
    case Succeeded(v) => Retried(Succeeded(v), attempt + 1)
    case Threw(e) =>
      if retries > 0 then WithRetry(operation, retries - 1, attempt + 1)
      else Retried(Threw(e), attempt + 1)
  }

  /** A store read that throws on its first `failures` invocations and then returns `answer`.
      Since `withRetry` stops at the first success, the length of that first run of failures
      is all that decides the outcome. */
  function Flaky<T>(failures: nat, answer: T): nat -> Attempt<T>
  {
    (i: nat) => if i < failures then Threw(StoreUnavailable) else Succeeded(answer)
  }

  /** A store read wrapped in `withRetry` with the default `MAX_RETRIES`. */
  function RetriedRead<T>(failures: nat, answer: T): Attempt<T>
  {
    WithRetry(Flaky(failures, answer), MaxRetries, 0).outcome
  }

  /** A retried read returns the store's answer iff fewer than `MAX_RETRIES + 1` attempts fail. */
  lemma RetriedReadOutcome<T>(failures: nat, answer: T)
    ensures RetriedRead(failures, answer)
      == if failures <= MaxRetries then Succeeded(answer) else Threw(StoreUnavailable)
  {
  }

  /** How the store misbehaves during one webhook delivery. */
  datatype Faults = Faults(
    orderLookupFailures: nat,          // the order lookup by gateway order id
    chainLookupFailures: nat,          // the order lookup with user, referrer and wallet
    countFailures: nat,                // the count of the user's other completed orders
    bonusLookupFailures: nat,          // the search for an earlier bonus
    bonusWriteFails: bool,             // the wallet increment and bonus insert throw (rolled back)
    orderUpdateError: Option<string>)  // the order update throws with this message

  /** A delivery during which the store never fails. */
  const NoFaults: Faults := Faults(0, 0, 0, 0, false, None)

  /** The store failures that can keep the referral step from reaching its decision. */
  predicate ReferralUnhindered(f: Faults)
  {
    && f.chainLookupFailures <= MaxRetries
    && f.countFailures <= MaxRetries
    && f.bonusLookupFailures <= MaxRetries
    && !f.bonusWriteFails
  }

  // ---------------------------------------------------------------------------------
  // processReferralBonus

  /** The referred user, the referrer, and the row of the referrer's wallet. */
  datatype Chain = Chain(userId: UserId, referrerId: UserId, walletIndex: nat)

  /** The user who placed an order (`order.user`), when the order exists. */
  function OrderUser(orders: seq<Order>, orderId: OrderId): Option<UserId>
  {
    match OrderById(orders, orderId)
    case None => None
    case Some(o) => Some(orders[o].userId)
  }

  /** `user.referrer`: the user whose code `userId` redeemed, when both users exist. */
  function ReferrerOf(users: seq<User>, userId: UserId): Option<UserId>
  {
    match UserById(users, userId)
    case None => None
    case Some(u) =>
      match users[u].referredBy
      case None => None
      case Some(referrerId) => if UserById(users, referrerId).Some? then Some(referrerId) else None
  }

  /** `orderWithDetails?.user?.referrer?.wallet`, `...referrer?.id` and `orderWithDetails?.userId`:
      None unless the order, its user, the user's referrer and the referrer's wallet all exist and
      both ids are truthy (non-empty). */
  function ReferralChain(t: Tables, orderId: OrderId): (c: Option<Chain>)
    ensures c.Some? ==> c.value.walletIndex < |t.wallets|
    ensures c.Some? ==> t.wallets[c.value.walletIndex].userId == c.value.referrerId
    ensures c.Some? ==> c.value.userId != "" && c.value.referrerId != ""
  {
    match OrderUser(t.orders, orderId)
    case None => None
    case Some(userId) =>
      match ReferrerOf(t.users, userId)
      case None => None
      case Some(referrerId) =>
        match WalletOf(t.wallets, referrerId)
        case None => None
        case Some(w) => if referrerId == "" || userId == "" then None else Some(Chain(userId, referrerId, w))
  }

  /** The chain exists exactly when the order exists, its user exists and was referred by a user
      who exists and has a wallet, and neither id is empty; it names that user, that referrer and
      the referrer's first wallet row. */
  lemma ReferralChainIff(t: Tables, orderId: OrderId)
    ensures var c := ReferralChain(t, orderId);
      var o := OrderById(t.orders, orderId);
      var u := if o.Some? then UserById(t.users, t.orders[o.value].userId) else None;
      var r := if u.Some? then t.users[u.value].referredBy else None;
      && (c.Some? <==>
            && o.Some? && t.orders[o.value].userId != ""
            && u.Some? && r.Some? && r.value != ""
            && UserById(t.users, r.value).Some?
            && WalletOf(t.wallets, r.value).Some?)
      && (c.Some? ==>
            && c.value.userId == t.orders[o.value].userId
            && c.value.referrerId == r.value
            && Some(c.value.walletIndex) == WalletOf(t.wallets, r.value))
  {
  }

  /** How many of the user's orders other than `orderId` are already COMPLETED. */
  function OtherCompletedOrders(orders: seq<Order>, userId: UserId, orderId: OrderId): nat
  {
    Count(orders, (o: Order) => o.userId == userId && o.status == Completed && o.id != orderId)
  }

  /** The text the duplicate check searches for. */
  function BonusKey(userId: UserId): string
  {
    "Referral bonus for user " + userId
  }

  /** The description written on an awarded bonus. */
  function BonusDescription(userId: UserId, orderId: OrderId): string
  {
    BonusKey(userId) + "'s first order #" + orderId
  }

  /** A transaction the duplicate check takes for an earlier bonus paid for `userId`. */
  predicate IsBonusFor(tx: Transaction, referrerId: UserId, userId: UserId)
  {
    tx.userId == referrerId && tx.kind == ReferralBonus && Contains(tx.description, BonusKey(userId))
  }

  function EarlierBonus(transactions: seq<Transaction>, referrerId: UserId, userId: UserId): Option<nat>
  {
    FindFirst(transactions, (tx: Transaction) => IsBonusFor(tx, referrerId, userId))
  }

  /** The `referralBonus` part of the webhook's answer. */
  datatype Award = Award(wallet: Wallet, transaction: Transaction)

  /** The one atomic write of an award: +50 on the referrer's wallet and one bonus transaction. */
  function CreditBonus(t: Tables, c: Chain, orderId: OrderId): (Option<Award>, Tables)
    requires c.walletIndex < |t.wallets|
  {
    var wallet := t.wallets[c.walletIndex];
    var credited := wallet.(balance := wallet.balance + ReferralBonusAmount);
    var bonus := Transaction(
      ReferralBonusAmount, ReferralBonus, BonusDescription(c.userId, orderId), wallet.id, c.referrerId);
    (Some(Award(credited, bonus)),
     t.(wallets := t.wallets[c.walletIndex := credited], transactions := t.transactions + [bonus]))
  }

  /** `processReferralBonus(orderId)`: the award it returns (None for `null`) and the store after it.
      Every exception inside is caught and turns into `null`. */
  function ReferralBonusOutcome(t: Tables, orderId: OrderId, f: Faults): (r: (Option<Award>, Tables))
    ensures r.1.orders == t.orders && r.1.users == t.users && r.1.partnerRequests == t.partnerRequests
    ensures r.0.None? ==> r.1 == t
    ensures r.0.Some? ==>
      && |r.1.wallets| == |t.wallets|
      && r.1.transactions == t.transactions + [r.0.value.transaction]
      && r.0.value.transaction.amount == ReferralBonusAmount
      && r.0.value.transaction.kind == ReferralBonus
  {
    match RetriedRead(f.chainLookupFailures, ReferralChain(t, orderId))
    case Threw(_) => (None, t)
    case Succeeded(chain) =>
      if chain.None? then (None, t)
      else
        var c := chain.value;
        match RetriedRead(f.countFailures, OtherCompletedOrders(t.orders, c.userId, orderId))
        case Threw(_) => (None, t)
        case Succeeded(previous) =>
          if previous > 0 then (None, t)
          else
            match RetriedRead(f.bonusLookupFailures, EarlierBonus(t.transactions, c.referrerId, c.userId))
            case Threw(_) => (None, t)
            case Succeeded(existing) =>
              if existing.Some? || f.bonusWriteFails then (None, t)
              else CreditBonus(t, c, orderId)
  }

  /** `processReferralBonus` over the database. */
  method ProcessReferralBonus(db: Db, orderId: OrderId, f: Faults) returns (r: Option<Award>)
    modifies db
    ensures (r, db.State()) == ReferralBonusOutcome(old(db.State()), orderId, f)
  {
    var details := RetriedRead(f.chainLookupFailures, ReferralChain(db.State(), orderId));
    if details.Threw? || details.value.None? {
      return None;
    }
    var chain := details.value.value;
    var previous := RetriedRead(f.countFailures, OtherCompletedOrders(db.orders, chain.userId, orderId));
    if previous.Threw? || previous.value > 0 {
      return None;
    }
    var existing := RetriedRead(f.bonusLookupFailures, EarlierBonus(db.transactions, chain.referrerId, chain.userId));
    if existing.Threw? || existing.value.Some? {
      return None;
    }
    if f.bonusWriteFails {
      return None;
    }
    var wallet := db.wallets[chain.walletIndex];
    var credited := wallet.(balance := wallet.balance + ReferralBonusAmount);
    var bonus := Transaction(
      ReferralBonusAmount, ReferralBonus, BonusDescription(chain.userId, orderId), wallet.id, chain.referrerId);
    db.wallets := db.wallets[chain.walletIndex := credited];
    db.transactions := db.transactions + [bonus];
    r := Some(Award(credited, bonus));
  }

  // ---------------------------------------------------------------------------------
  // POST

  /** `payload.payment.entity`: the payment id and the gateway's order id. */
  datatype Payment = Payment(id: string, orderId: string)

  /** A parsed event; `payment` is None when `payload.payment.entity` is missing. */
  datatype Event = Event(name: string, payment: Option<Payment>)

  /** The outcome of `JSON.parse(body)`. */
  datatype Body = Json(event: Event) | NotJson(message: string)

  datatype Request = Request(rawBody: string, body: Body, signature: Option<string>)

  /** `NODE_ENV === 'development'`, the shared secret, and HMAC-SHA-256 in hex of (key, message). */
  datatype Config = Config(developmentMode: bool, keySecret: string, hmacSha256Hex: (string, string) -> string)

  datatype BonusSummary = BonusSummary(amount: int, transaction: Transaction)

  datatype Reply =
    | PaymentProcessed(orderId: OrderId, status: OrderStatus, amount: int, paymentId: string,
                       referralBonus: Option<BonusSummary>)
    | EventIgnored(event: string)
    | Failed(code: int, error: string)

  /** The signature check lets the request through. */
  predicate SignatureAccepted(req: Request, cfg: Config)
  {
    cfg.developmentMode || (Truthy(req.signature) && req.signature.value == cfg.hmacSha256Hex(cfg.keySecret, req.rawBody))
  }

  /** `prisma.order.findUnique({ where: { razorpayOrderId } })`. */
  function OrderByGatewayId(orders: seq<Order>, razorpayOrderId: string): Option<nat>
  {
    FindFirst(orders, (o: Order) => o.razorpayOrderId == Some(razorpayOrderId))
  }

  /** The order update: status, payment id, `paidAt` and `updatedAt`; nothing else changes. */
  function MarkPaid(o: Order, paymentId: string, now: Time): Order
  {
    o.(status := Completed, razorpayPaymentId := Some(paymentId), paidAt := Some(now), updatedAt := now)
  }

  /** `POST(req)`: the answer and the store afterwards, for a delivery at time `now`. */
  function Handle(t: Tables, req: Request, cfg: Config, f: Faults, now: Time): (r: (Reply, Tables))
    ensures !r.0.PaymentProcessed? ==> r.1 == t
    ensures r.1.users == t.users && r.1.partnerRequests == t.partnerRequests
    ensures |r.1.orders| == |t.orders|
    ensures r.0.PaymentProcessed? ==> r.0.status == Completed
  {
    if !cfg.developmentMode && !Truthy(req.signature) then (Failed(400, "No signature provided"), t)
    else if !cfg.developmentMode && req.signature.value != cfg.hmacSha256Hex(cfg.keySecret, req.rawBody) then
      (Failed(400, "Invalid signature"), t)
    else
      match req.body
      case NotJson(message) => (Failed(500, message), t)
      case Json(event) =>
        if event.name != PaymentCaptured then (EventIgnored(event.name), t)
        else
          match event.payment
          case None => (Failed(500, MissingPaymentEntity), t)
          case Some(p) =>
            match RetriedRead(f.orderLookupFailures, OrderByGatewayId(t.orders, p.orderId))
            case Threw(e) => (Failed(500, e), t)
            case Succeeded(found) =>
              if found.None? then (Failed(404, "Order not found"), t)
              else if f.orderUpdateError.Some? then (Failed(500, f.orderUpdateError.value), t)
              else
                var order := t.orders[found.value];
                var paid := t.(orders := t.orders[found.value := MarkPaid(order, p.id, now)]);
                var (award, after) := ReferralBonusOutcome(paid, order.id, f);
                var summary := if award.Some? then Some(BonusSummary(ReferralBonusAmount, award.value.transaction)) else None;
                (PaymentProcessed(order.id, Completed, order.remainingAmount, p.id, summary), after)
  }

  /** `POST(req)` over the database. */
  method Post(db: Db, req: Request, cfg: Config, f: Faults, now: Time) returns (reply: Reply)
    modifies db
    ensures (reply, db.State()) == Handle(old(db.State()), req, cfg, f, now)
  {
    if !cfg.developmentMode {
      if !Truthy(req.signature) {
        return Failed(400, "No signature provided");
      }
      var expected := cfg.hmacSha256Hex(cfg.keySecret, req.rawBody);
      if req.signature.value != expected {
        return Failed(400, "Invalid signature");
      }
    }
    if req.body.NotJson? {
      return Failed(500, req.body.message);
    }
    var event := req.body.event;
    if event.name != PaymentCaptured {
      return EventIgnored(event.name);
    }
    if event.payment.None? {
      return Failed(500, MissingPaymentEntity);
    }
    var p := event.payment.value;
    var lookup := RetriedRead(f.orderLookupFailures, OrderByGatewayId(db.orders, p.orderId));
    if lookup.Threw? {
      return Failed(500, lookup.error);
    }
    if lookup.value.None? {
      return Failed(404, "Order not found");
    }
    if f.orderUpdateError.Some? {
      return Failed(500, f.orderUpdateError.value);
    }
    var i := lookup.value.value;
    var order := db.orders[i];
    db.orders := db.orders[i := MarkPaid(order, p.id, now)];
    var award := ProcessReferralBonus(db, order.id, f);
    var summary := if award.Some? then Some(BonusSummary(ReferralBonusAmount, award.value.transaction)) else None;
    reply := PaymentProcessed(order.id, Completed, order.remainingAmount, p.id, summary);
  }

  // ---------------------------------------------------------------------------------
  // Properties of the referral step

  /** What the referral step awards on when the store answers every read. */
  predicate Eligible(t: Tables, orderId: OrderId)
  {
    var chain := ReferralChain(t, orderId);
    && chain.Some?
    && OtherCompletedOrders(t.orders, chain.value.userId, orderId) == 0
    && EarlierBonus(t.transactions, chain.value.referrerId, chain.value.userId).None?
  }

  /** A bonus is awarded iff the order belongs to a referred user whose referrer has a wallet,
      none of that user's other orders is completed, no earlier bonus for the user is found, and
      no read runs out of retries and the write does not fail. A step that awards nothing
      writes nothing. */
  lemma AwardIff(t: Tables, orderId: OrderId, f: Faults)
    ensures var (award, after) := ReferralBonusOutcome(t, orderId, f);
      && (award.Some? <==> Eligible(t, orderId) && ReferralUnhindered(f))
      && (award.None? ==> after == t)
  {
    var chain := ReferralChain(t, orderId);
    RetriedReadOutcome(f.chainLookupFailures, chain);
    if chain.Some? {
      var c := chain.value;
      RetriedReadOutcome(f.countFailures, OtherCompletedOrders(t.orders, c.userId, orderId));
      RetriedReadOutcome(f.bonusLookupFailures, EarlierBonus(t.transactions, c.referrerId, c.userId));
    }
  }

  /** The duplicate check searches descriptions for the key of `userId`, and the description of a
      bonus for any user whose id starts with `userId` contains that key. */
  lemma {:induction false} KeyMatchesExtendedIds(userId: UserId, otherId: UserId, orderId: OrderId)
    requires IsPrefix(userId, otherId)
    ensures Contains(BonusDescription(otherId, orderId), BonusKey(userId))
  {
    var key := BonusKey(userId);
    var d := BonusDescription(otherId, orderId);
    assert d[..|key|] == key by {
      assert d == BonusKey(otherId) + ("'s first order #" + orderId);
      assert BonusKey(otherId)[..|key|] == key;
    }
    PrefixIsContained(key, d);
  }

  /** An award credits exactly `REFERRAL_BONUS_AMOUNT` to the referrer's wallet, appends exactly one
      REFERRAL_BONUS transaction owned by the referrer on that wallet, records it so that the
      duplicate check finds it, and changes nothing else. */
  lemma AwardCreditsReferrer(t: Tables, orderId: OrderId, f: Faults)
    requires ReferralBonusOutcome(t, orderId, f).0.Some?
    ensures ReferralChain(t, orderId).Some?
    ensures var (award, after) := ReferralBonusOutcome(t, orderId, f);
      var c := ReferralChain(t, orderId).value;
      var w := c.walletIndex;
      var bonus := award.value.transaction;
      && after.orders == t.orders && after.users == t.users && after.partnerRequests == t.partnerRequests
      && |after.wallets| == |t.wallets|
      && (forall j :: 0 <= j < |t.wallets| && j != w ==> after.wallets[j] == t.wallets[j])
      && after.wallets[w] == t.wallets[w].(balance := t.wallets[w].balance + ReferralBonusAmount)
      && award.value.wallet == after.wallets[w]
      && BalanceOf(after.wallets, c.referrerId) == BalanceOf(t.wallets, c.referrerId) + ReferralBonusAmount
      && after.transactions == t.transactions + [bonus]
      && bonus.amount == ReferralBonusAmount && bonus.kind == ReferralBonus
      && bonus.userId == c.referrerId && bonus.walletId == t.wallets[w].id
      && bonus.description == BonusDescription(c.userId, orderId)
      && IsBonusFor(bonus, c.referrerId, c.userId)
  {
    AwardIff(t, orderId, f);
    var c := ReferralChain(t, orderId).value;
    var after := ReferralBonusOutcome(t, orderId, f).1;
    FindFirstAgrees(t.wallets, after.wallets, (x: Wallet) => x.userId == c.referrerId);
    KeyMatchesExtendedIds(c.userId, c.userId, orderId);
  }

  /** Once the ledger holds a bonus of the referrer for the user, no referral step for any order of
      that user awards again. */
  lemma RecordedBonusBlocksAward(t: Tables, orderId: OrderId, f: Faults, k: nat)
    requires ReferralChain(t, orderId).Some?
    requires k < |t.transactions|
    requires IsBonusFor(t.transactions[k], ReferralChain(t, orderId).value.referrerId, ReferralChain(t, orderId).value.userId)
    ensures ReferralBonusOutcome(t, orderId, f).0.None?
  {
    AwardIff(t, orderId, f);
  }

  /** Right after an award, a referral step for any order of the same user awards nothing. */
  lemma AwardAtMostOnce(t: Tables, orderId: OrderId, f: Faults, laterOrderId: OrderId, g: Faults)
    requires ReferralBonusOutcome(t, orderId, f).0.Some?
    requires OrderUser(t.orders, laterOrderId) == OrderUser(t.orders, orderId)
    ensures ReferralBonusOutcome(ReferralBonusOutcome(t, orderId, f).1, laterOrderId, g).0.None?
  {
    AwardCreditsReferrer(t, orderId, f);
    var after := ReferralBonusOutcome(t, orderId, f).1;
    AwardIff(after, laterOrderId, g);
    if ReferralChain(after, laterOrderId).Some? {
      RecordedBonusBlocksAward(after, laterOrderId, g, |t.transactions|);
    }
  }

  /** The duplicate check matches on a prefix of the user id: when the ledger holds the bonus the
      referrer earned for user "u12", the first completed order of user "u1", referred by the same
      referrer, earns nothing, though without that entry it would. */
  lemma PrefixIdsCollide()
    ensures var t := Tables(
        [Order("o1", "u1", "s1", None, Pending, Some("rzp_1"), None, 500, 500, None, 0, 0)],
        [User("u1", "a@example.org", "CODEA", Some("r")), User("r", "b@example.org", "CODEB", None)],
        [Wallet("w", "r", 50)],
        [Transaction(ReferralBonusAmount, ReferralBonus, BonusDescription("u12", "o0"), "w", "r")],
        []);
      && ReferralBonusOutcome(t.(transactions := []), "o1", NoFaults).0.Some?
      && ReferralBonusOutcome(t, "o1", NoFaults).0.None?
  {
    var t := Tables(
        [Order("o1", "u1", "s1", None, Pending, Some("rzp_1"), None, 500, 500, None, 0, 0)],
        [User("u1", "a@example.org", "CODEA", Some("r")), User("r", "b@example.org", "CODEB", None)],
        [Wallet("w", "r", 50)],
        [Transaction(ReferralBonusAmount, ReferralBonus, BonusDescription("u12", "o0"), "w", "r")],
        []);
    assert IsPrefix("u1", "u12");
    KeyMatchesExtendedIds("u1", "u12", "o0");
    AwardIff(t.(transactions := []), "o1", NoFaults);
    RecordedBonusBlocksAward(t, "o1", NoFaults, 0);
  }

  /** The referral step reads only ids, owners, referrers and wallet owners: a store that agrees on
      those has the same chain. */
  lemma ReferralChainStable(t: Tables, t': Tables, orderId: OrderId)
    requires t'.users == t.users
    requires |t'.orders| == |t.orders|
    requires forall j :: 0 <= j < |t.orders| ==> t'.orders[j].id == t.orders[j].id && t'.orders[j].userId == t.orders[j].userId
    requires |t'.wallets| == |t.wallets|
    requires forall j :: 0 <= j < |t.wallets| ==> t'.wallets[j].userId == t.wallets[j].userId
    ensures ReferralChain(t', orderId) == ReferralChain(t, orderId)
  {
    FindFirstAgrees(t.orders, t'.orders, (o: Order) => o.id == orderId);
    var u := OrderUser(t.orders, orderId);
    if u.Some? {
      var r := ReferrerOf(t.users, u.value);
      if r.Some? {
        FindFirstAgrees(t.wallets, t'.wallets, (x: Wallet) => x.userId == r.value);
      }
    }
  }

  /** The handler runs the referral step inside the transaction that completes the order, but
      through the global client, so the step reads the store as committed, without the order
      update. Reading it with the update gives the same answers: the only row that differs is the
      paid order, which the count of other completed orders leaves out. So the step decides and
      writes alike either way. */
  lemma ReferralStepIgnoresOrderUpdate(t: Tables, i: nat, paymentId: string, now: Time, f: Faults)
    requires i < |t.orders|
    ensures var paid := t.(orders := t.orders[i := MarkPaid(t.orders[i], paymentId, now)]);
      var committed := ReferralBonusOutcome(t, t.orders[i].id, f);
      var updated := ReferralBonusOutcome(paid, t.orders[i].id, f);
      && updated.0 == committed.0
      && updated.1 == committed.1.(orders := paid.orders)
  {
    var orderId := t.orders[i].id;
    var paid := t.(orders := t.orders[i := MarkPaid(t.orders[i], paymentId, now)]);
    ReferralChainStable(t, paid, orderId);
    var chain := ReferralChain(t, orderId);
    if chain.Some? {
      var c := chain.value;
      CountAgrees(t.orders, paid.orders,
        (o: Order) => o.userId == c.userId && o.status == Completed && o.id != orderId);
    }
  }

  // ---------------------------------------------------------------------------------
  // Properties of POST

  /** Outside development mode a delivery whose signature is missing or is not the HMAC of the
      body is answered 400 and changes nothing. */
  lemma UnsignedDeliveriesRejected(t: Tables, req: Request, cfg: Config, f: Faults, now: Time)
    requires !SignatureAccepted(req, cfg)
    ensures Handle(t, req, cfg, f, now)
      == (Failed(400, if Truthy(req.signature) then "Invalid signature" else "No signature provided"), t)
  {
  }

  /** A signed event other than `payment.captured` is acknowledged and changes nothing. */
  lemma OtherEventsIgnored(t: Tables, req: Request, cfg: Config, f: Faults, now: Time)
    requires SignatureAccepted(req, cfg) && req.body.Json? && req.body.event.name != PaymentCaptured
    ensures Handle(t, req, cfg, f, now) == (EventIgnored(req.body.event.name), t)
  {
  }

  /** A captured payment for an order the store does not hold is answered 404 and changes nothing. */
  lemma UnknownOrderNotFound(t: Tables, req: Request, cfg: Config, f: Faults, now: Time, p: Payment)
    requires SignatureAccepted(req, cfg) && req.body == Json(Event(PaymentCaptured, Some(p)))
    requires f.orderLookupFailures <= MaxRetries
    requires OrderByGatewayId(t.orders, p.orderId).None?
    ensures Handle(t, req, cfg, f, now) == (Failed(404, "Order not found"), t)
  {
    RetriedReadOutcome(f.orderLookupFailures, OrderByGatewayId(t.orders, p.orderId));
  }

  /** Only a signed `payment.captured` delivery for an order the store holds, whose lookup does not
      run out of retries and whose update does not fail, is processed; no other delivery changes
      the store. */
  lemma OnlyCapturedPaymentsProcessed(t: Tables, req: Request, cfg: Config, f: Faults, now: Time)
    ensures var (reply, after) := Handle(t, req, cfg, f, now);
      (reply.PaymentProcessed? || after != t) ==>
        && SignatureAccepted(req, cfg)
        && req.body.Json? && req.body.event.name == PaymentCaptured && req.body.event.payment.Some?
        && f.orderLookupFailures <= MaxRetries
        && OrderByGatewayId(t.orders, req.body.event.payment.value.orderId).Some?
        && f.orderUpdateError.None?
  {
    if req.body.Json? && req.body.event.payment.Some? {
      RetriedReadOutcome(f.orderLookupFailures, OrderByGatewayId(t.orders, req.body.event.payment.value.orderId));
    }
  }

  /** A signed captured payment for a known order completes that order (status, payment id,
      `paidAt`, `updatedAt`) and no other, and is answered with the order's remaining amount
      whatever happens in the referral step: the bonus appears in the answer iff the referral
      step awards one, and otherwise wallets and ledger are untouched. */
  lemma CapturedPaymentCompletesOrder(t: Tables, req: Request, cfg: Config, f: Faults, now: Time, p: Payment, i: nat)
    requires SignatureAccepted(req, cfg) && req.body == Json(Event(PaymentCaptured, Some(p)))
    requires f.orderLookupFailures <= MaxRetries && f.orderUpdateError.None?
    requires OrderByGatewayId(t.orders, p.orderId) == Some(i)
    ensures i < |t.orders|
    ensures var (reply, after) := Handle(t, req, cfg, f, now);
      && reply == PaymentProcessed(t.orders[i].id, Completed, t.orders[i].remainingAmount, p.id, reply.referralBonus)
      && |after.orders| == |t.orders|
      && after.orders[i] == MarkPaid(t.orders[i], p.id, now)
      && (forall j :: 0 <= j < |t.orders| && j != i ==> after.orders[j] == t.orders[j])
      && after.users == t.users && after.partnerRequests == t.partnerRequests
      && (reply.referralBonus.Some? <==> ReferralBonusOutcome(t.(orders := after.orders), t.orders[i].id, f).0.Some?)
      && after == ReferralBonusOutcome(t.(orders := after.orders), t.orders[i].id, f).1
      && (reply.referralBonus.None? ==> after.wallets == t.wallets && after.transactions == t.transactions)
      && (reply.referralBonus.Some? ==>
            && reply.referralBonus.value.amount == ReferralBonusAmount
            && after.transactions == t.transactions + [reply.referralBonus.value.transaction])
  {
    RetriedReadOutcome(f.orderLookupFailures, OrderByGatewayId(t.orders, p.orderId));
    var paid := t.(orders := t.orders[i := MarkPaid(t.orders[i], p.id, now)]);
    AwardIff(paid, t.orders[i].id, f);
    if ReferralBonusOutcome(paid, t.orders[i].id, f).0.Some? {
      AwardCreditsReferrer(paid, t.orders[i].id, f);
    }
  }

  /** A referral step that reached its decision leaves the store so that a second step for the
      same order awards nothing, even after that order's row is rewritten, as long as the ids,
      owners and the other orders' statuses stay as they were. */
  lemma SecondReferralStepAwardsNothing(t: Tables, orderId: OrderId, f: Faults, t': Tables, g: Faults)
    requires ReferralUnhindered(f)
    requires var after := ReferralBonusOutcome(t, orderId, f).1;
      && t'.users == after.users && t'.wallets == after.wallets && t'.transactions == after.transactions
    requires |t'.orders| == |t.orders|
    requires forall j :: 0 <= j < |t.orders| ==>
      && t'.orders[j].id == t.orders[j].id && t'.orders[j].userId == t.orders[j].userId
      && (t.orders[j].id != orderId ==> t'.orders[j].status == t.orders[j].status)
    ensures ReferralBonusOutcome(t', orderId, g) == (None, t')
  {
    AwardIff(t, orderId, f);
    var award := ReferralBonusOutcome(t, orderId, f).0;
    if award.Some? {
      AwardCreditsReferrer(t, orderId, f);
    }
    ReferralChainStable(t, t', orderId);
    var chain := ReferralChain(t, orderId);
    if chain.Some? {
      var c := chain.value;
      CountAgrees(t.orders, t'.orders,
        (o: Order) => o.userId == c.userId && o.status == Completed && o.id != orderId);
      if award.Some? {
        RecordedBonusBlocksAward(t', orderId, g, |t.transactions|);
      }
    }
    AwardIff(t', orderId, g);
  }

  /** A delivery of a captured payment for an order whose referral step has already reached its
      decision writes no wallet and no ledger entry and pays no bonus. */
  lemma DeliveryAfterDecision(paid: Tables, orderId: OrderId, f1: Faults,
                              req: Request, cfg: Config, p: Payment, i: nat, f2: Faults, now: Time)
    requires ReferralUnhindered(f1)
    requires SignatureAccepted(req, cfg) && req.body == Json(Event(PaymentCaptured, Some(p)))
    requires OrderByGatewayId(paid.orders, p.orderId) == Some(i)
    requires i < |paid.orders| && paid.orders[i].id == orderId
    ensures var first := ReferralBonusOutcome(paid, orderId, f1).1;
      var (reply, second) := Handle(first, req, cfg, f2, now);
      && second.wallets == first.wallets && second.transactions == first.transactions
      && second.users == first.users
      && (reply.PaymentProcessed? ==>
            reply.referralBonus.None? && second.orders == first.orders[i := MarkPaid(first.orders[i], p.id, now)])
  {
    var first := ReferralBonusOutcome(paid, orderId, f1).1;
    OnlyCapturedPaymentsProcessed(first, req, cfg, f2, now);
    if f2.orderLookupFailures <= MaxRetries && f2.orderUpdateError.None? {
      CapturedPaymentCompletesOrder(first, req, cfg, f2, now, p, i);
      var second := Handle(first, req, cfg, f2, now).1;
      if ReferralBonusOutcome(paid, orderId, f1).0.Some? {
        AwardCreditsReferrer(paid, orderId, f1);
      } else {
        AwardIff(paid, orderId, f1);
      }
      SecondReferralStepAwardsNothing(paid, orderId, f1, first.(orders := second.orders), f2);
    }
  }

  /** A second delivery of the same captured payment pays no second bonus and leaves wallets and
      ledger as the first left them, provided the first delivery's referral step was not cut short
      by the store; it does overwrite the payment id, `paidAt` and `updatedAt` of the order. */
  lemma RedeliveryPaysNoSecondBonus(t: Tables, req: Request, cfg: Config, p: Payment, i: nat,
                                    f1: Faults, now1: Time, f2: Faults, now2: Time)
    requires SignatureAccepted(req, cfg) && req.body == Json(Event(PaymentCaptured, Some(p)))
    requires OrderByGatewayId(t.orders, p.orderId) == Some(i)
    requires f1.orderLookupFailures <= MaxRetries && f1.orderUpdateError.None? && ReferralUnhindered(f1)
    ensures var first := Handle(t, req, cfg, f1, now1).1;
      var (reply, second) := Handle(first, req, cfg, f2, now2);
      && second.wallets == first.wallets && second.transactions == first.transactions
      && second.users == first.users
      && i < |first.orders|
      && (reply.PaymentProcessed? ==>
            reply.referralBonus.None? && second.orders == first.orders[i := MarkPaid(first.orders[i], p.id, now2)])
  {
    CapturedPaymentCompletesOrder(t, req, cfg, f1, now1, p, i);
    var first := Handle(t, req, cfg, f1, now1).1;
    var paid := t.(orders := first.orders);
    if ReferralBonusOutcome(paid, t.orders[i].id, f1).0.Some? {
      AwardCreditsReferrer(paid, t.orders[i].id, f1);
    } else {
      AwardIff(paid, t.orders[i].id, f1);
    }
    FindFirstAgrees(t.orders, first.orders, (o: Order) => o.razorpayOrderId == Some(p.orderId));
    DeliveryAfterDecision(paid, t.orders[i].id, f1, req, cfg, p, i, f2, now2);
  }
}
