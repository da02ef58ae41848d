/**
 * The relational store behind the payment and referral code: the rows of the Order,
 * User, Wallet, Transaction and PartnerRequestedService tables, and the database as one
 * object whose tables the route handlers read and rewrite. A table is the sequence of its
 * rows; `findFirst` and `findUnique` pick the first row that matches (Seqs.FindFirst).
 */
module Store {
  import opened Wrappers
  import opened Seqs

  type OrderId = string
  type UserId = string
  type WalletId = string
  type ServiceId = string
  type PartnerId = string

  /** Timestamps are opaque; only their order matters (`orderBy: { createdAt: 'desc' }`). */
  type Time = int

  datatype OrderStatus =
    | Pending
    | Accepted
    | InProgress
    | ServiceCompleted
    | PaymentRequested
    | PaymentCompleted
    | Completed
    | Cancelled

  datatype TransactionType = Credit | Debit | ReferralBonus | SignupBonus

  datatype Order = Order(
    id: OrderId,
    userId: UserId,
    serviceId: ServiceId,
    partnerId: Option<PartnerId>,
    status: OrderStatus,
    razorpayOrderId: Option<string>,
    razorpayPaymentId: Option<string>,
    amount: int,
    remainingAmount: int,
    paidAt: Option<Time>,
    createdAt: Time,
    updatedAt: Time)

  /** `referredBy` is the id of the user whose referral code this user redeemed. */
  datatype User = User(id: UserId, email: string, referralCode: string, referredBy: Option<UserId>)

  /** At most one wallet per user (`userId` is unique in the schema). */
  datatype Wallet = Wallet(id: WalletId, userId: UserId, balance: int)

  datatype Transaction = Transaction(
    amount: int,
    kind: TransactionType,
    description: string,
    walletId: WalletId,
    userId: UserId)

  /** A service a partner asked the admin to add; `details` stands for the columns this core never reads. */
  datatype PartnerRequest = PartnerRequest(id: string, status: string, details: string)

  datatype Tables = Tables(
    orders: seq<Order>,
    users: seq<User>,
    wallets: seq<Wallet>,
    transactions: seq<Transaction>,
    partnerRequests: seq<PartnerRequest>)

  /** The database. Each route handler that writes is a method that rewrites these fields. */
  class Db {
    var orders: seq<Order>
    var users: seq<User>
    var wallets: seq<Wallet>
    var transactions: seq<Transaction>
    var partnerRequests: seq<PartnerRequest>

    constructor (t: Tables)
      ensures State() == t
    {
      orders, users, wallets := t.orders, t.users, t.wallets;
      transactions, partnerRequests := t.transactions, t.partnerRequests;
    }

    /** The contents of every table. */
    function State(): Tables
      reads this
    {
      Tables(orders, users, wallets, transactions, partnerRequests)
    }
  }

  /** `findUnique({ where: { id } })` on the Order table. */
  function OrderById(orders: seq<Order>, id: OrderId): Option<nat>
  {
    FindFirst(orders, (o: Order) => o.id == id)
  }

  /** `findUnique({ where: { id } })` on the User table. */
  function UserById(users: seq<User>, id: UserId): Option<nat>
  {
    FindFirst(users, (u: User) => u.id == id)
  }

  /** The wallet of a user, through the one-to-one `User.wallet` relation. */
  function WalletOf(wallets: seq<Wallet>, userId: UserId): Option<nat>
  {
    FindFirst(wallets, (w: Wallet) => w.userId == userId)
  }

  /** A user's balance, counting a missing wallet as zero. */
  function BalanceOf(wallets: seq<Wallet>, userId: UserId): int
  {
    match WalletOf(wallets, userId)
    case Some(i) => wallets[i].balance
    case None => 0
  }
}
