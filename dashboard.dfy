/**
 * The rules of the customer dashboard (src/app/user/dashboard/page.tsx): how an order's status
 * is shown, when the "pay" button appears, the order counters, and which wallet transactions
 * are listed and with which sign.
 *
 * The page works on JSON from the API, so statuses and transaction types are strings here; an
 * unknown status is shown as it is.
 */
module Dashboard {
  import opened Wrappers
  import opened Text
  import opened Seqs

  /** The fields of an order the rules read. */
  datatype ShownOrder = ShownOrder(status: string, razorpayPaymentId: Option<string>, amount: int, remainingAmount: int)

  /** The colour of the status badge (`bg-<tone>-100 text-<tone>-800`). */
  datatype Tone = Green | Yellow | Blue | Red | Gray

  datatype Icon = CheckCircle | Clock | XCircle | NoIcon

  datatype StatusDisplay = StatusDisplay(text: string, tone: Tone, icon: Icon)

  /** The statuses `getStatusDisplay` names. */
  const NamedStatuses: seq<string> :=
    ["COMPLETED", "PAYMENT_COMPLETED", "SERVICE_COMPLETED", "PAYMENT_REQUESTED", "IN_PROGRESS", "ACCEPTED", "PENDING", "CANCELLED"]

  /** `getStatusDisplay(order)`: a named status gets a fixed text, tone and icon (for ACCEPTED,
      decided by the payment id); any other status is shown as it is, in gray, without an icon.
      The icon is a clock exactly on the yellow and blue badges. */
  function GetStatusDisplay(o: ShownOrder): (d: StatusDisplay)
    ensures d.tone == Gray <==> o.status !in NamedStatuses
    ensures d.tone == Gray ==> d == StatusDisplay(o.status, Gray, NoIcon)
    ensures d.icon == Clock <==> d.tone == Yellow || d.tone == Blue
    ensures d.icon == CheckCircle <==> d.tone == Green
    ensures d.icon == XCircle <==> o.status == "CANCELLED"
  {
    match o.status
    case "COMPLETED" => StatusDisplay("Completed", Green, CheckCircle)
    case "PAYMENT_COMPLETED" => StatusDisplay("Payment Completed", Green, CheckCircle)
    case "SERVICE_COMPLETED" => StatusDisplay("Service Completed - Payment Pending", Yellow, Clock)
    case "PAYMENT_REQUESTED" => StatusDisplay("Payment Pending", Yellow, Clock)
    case "IN_PROGRESS" => StatusDisplay("In Progress", Blue, Clock)
    case "ACCEPTED" =>
      if Truthy(o.razorpayPaymentId) then StatusDisplay("Payment Completed", Green, CheckCircle)
      else StatusDisplay("Payment Pending", Yellow, Clock)
    case "PENDING" => StatusDisplay("Pending", Yellow, Clock)
    case "CANCELLED" => StatusDisplay("Cancelled", Red, XCircle)
    case _ => StatusDisplay(o.status, Gray, NoIcon)
  }

  /** `shouldShowPaymentButton(order)`: only for an order that is not paid, still owes something,
      and has reached a status where payment is asked for. */
  function ShouldShowPaymentButton(o: ShownOrder): (show: bool)
    ensures show ==> !Truthy(o.razorpayPaymentId) && o.status in NamedStatuses
    ensures show ==> o.status != "COMPLETED" && o.status != "PAYMENT_COMPLETED" && o.status != "PENDING"
  {
    && (o.status == "ACCEPTED" || o.status == "SERVICE_COMPLETED" || o.status == "PAYMENT_REQUESTED")
    && !Truthy(o.razorpayPaymentId)
    && (o.remainingAmount > 0 || o.amount > 0)
  }

  /** An ACCEPTED order reads "Payment Completed" iff it has a payment id, and "Payment Pending" otherwise. */
  lemma AcceptedShowsPayment(o: ShownOrder)
    requires o.status == "ACCEPTED"
    ensures GetStatusDisplay(o).text == "Payment Completed" <==> Truthy(o.razorpayPaymentId)
    ensures GetStatusDisplay(o).text == "Payment Pending" <==> !Truthy(o.razorpayPaymentId)
  {
  }

  /** Every named status other than ACCEPTED is shown the same way whatever the rest of the order,
      and a status that is not named is shown as its own text, in gray, without an icon. */
  lemma StatusTextsFixed(o: ShownOrder, other: ShownOrder)
    requires o.status == other.status
    ensures o.status != "ACCEPTED" ==> GetStatusDisplay(o) == GetStatusDisplay(other)
    ensures o.status !in NamedStatuses ==> GetStatusDisplay(o) == StatusDisplay(o.status, Gray, NoIcon)
  {
  }

  /** The badge is green exactly for COMPLETED, PAYMENT_COMPLETED and an ACCEPTED order with a
      payment id, and a green order never gets a payment button. */
  lemma GreenNeverPays(o: ShownOrder)
    ensures GetStatusDisplay(o).tone == Green <==>
      o.status == "COMPLETED" || o.status == "PAYMENT_COMPLETED" || (o.status == "ACCEPTED" && Truthy(o.razorpayPaymentId))
    ensures GetStatusDisplay(o).tone == Green ==> !ShouldShowPaymentButton(o)
  {
  }

  /** Whenever the payment button shows, the badge is yellow with a clock and says a payment is pending. */
  lemma ButtonMeansPaymentPending(o: ShownOrder)
    requires ShouldShowPaymentButton(o)
    ensures GetStatusDisplay(o).tone == Yellow && GetStatusDisplay(o).icon == Clock
    ensures GetStatusDisplay(o).text == "Payment Pending"
         || GetStatusDisplay(o).text == "Service Completed - Payment Pending"
  {
  }

  // ---------------------------------------------------------------------------------
  // Order counters

  datatype Stats = Stats(totalOrders: int, completedOrders: nat, pendingOrders: nat)

  predicate CompletedFirstPass(o: ShownOrder)
  {
    o.status == "COMPLETED" || o.status == "PAYMENT_COMPLETED"
  }

  predicate PendingFirstPass(o: ShownOrder)
  {
    o.status == "PENDING" || o.status == "ACCEPTED" || o.status == "IN_PROGRESS"
  }

  /** The counters set right after the orders arrive; `total` is `pagination.total`. */
  function FirstPassStats(orders: seq<ShownOrder>, total: int): Stats
  {
    Stats(total, Count(orders, CompletedFirstPass), Count(orders, PendingFirstPass))
  }

  /** The counters set again once the wallet has arrived, which count only COMPLETED and only PENDING. */
  function FinalStats(orders: seq<ShownOrder>, total: int): Stats
  {
    Stats(total, Count(orders, (o: ShownOrder) => o.status == "COMPLETED"),
                 Count(orders, (o: ShownOrder) => o.status == "PENDING"))
  }

  /** The counters the page ends up showing: a failed wallet request throws before the second pass. */
  function ShownStats(orders: seq<ShownOrder>, total: int, walletOk: bool): (s: Stats)
    ensures s.totalOrders == total
    ensures s.completedOrders + s.pendingOrders <= |orders|
  {
    if walletOk then
      CountDisjoint(orders, (o: ShownOrder) => o.status == "COMPLETED", (o: ShownOrder) => o.status == "PENDING");
      FinalStats(orders, total)
    else
      CountDisjoint(orders, CompletedFirstPass, PendingFirstPass);
      FirstPassStats(orders, total)
  }

  /** The first pass counts no order twice, so its two counters add up to at most the orders listed. */
  lemma FirstPassDisjoint(orders: seq<ShownOrder>, total: int)
    ensures forall o :: !(CompletedFirstPass(o) && PendingFirstPass(o))
    ensures FirstPassStats(orders, total).completedOrders + FirstPassStats(orders, total).pendingOrders <= |orders|
  {
    CountDisjoint(orders, CompletedFirstPass, PendingFirstPass);
  }

  /** The second pass overwrites the first with counters that are never larger; both take the
      total from the pagination, not from the number of orders listed. */
  lemma FinalStatsNarrower(orders: seq<ShownOrder>, total: int)
    ensures FinalStats(orders, total).completedOrders <= FirstPassStats(orders, total).completedOrders
    ensures FinalStats(orders, total).pendingOrders <= FirstPassStats(orders, total).pendingOrders
    ensures forall walletOk :: ShownStats(orders, total, walletOk).totalOrders == total
  {
    CountMonotone(orders, CompletedFirstPass, (o: ShownOrder) => o.status == "COMPLETED");
    CountMonotone(orders, PendingFirstPass, (o: ShownOrder) => o.status == "PENDING");
  }

  // ---------------------------------------------------------------------------------
  // Wallet transactions

  datatype ShownTransaction = ShownTransaction(amount: int, kind: string, status: string, description: string)

  /** The types listed as money in: `["CREDIT", "SIGNUP_BONUS", "REFERRAL_BONUS"].includes(type)`. */
  predicate IsCreditKind(kind: string)
  {
    kind in ["CREDIT", "SIGNUP_BONUS", "REFERRAL_BONUS"]
  }

  /** The filter applied when the wallet arrives. */
  predicate KeptOnFetch(tx: ShownTransaction)
  {
    if tx.kind == "DEBIT" then tx.status == "COMPLETED" else IsCreditKind(tx.kind)
  }

  /** The filter applied when the list is rendered. */
  predicate KeptOnRender(tx: ShownTransaction)
  {
    || tx.kind == "CREDIT" || tx.kind == "REFERRAL_BONUS" || tx.kind == "SIGNUP_BONUS"
    || (tx.kind == "DEBIT" && tx.status == "COMPLETED")
  }

  /** The transactions listed: the first five that pass the render filter. */
  function DisplayedTransactions(transactions: seq<ShownTransaction>): seq<ShownTransaction>
  {
    Take(Filter(transactions, KeptOnRender), 5)
  }

  /** The two filters keep the same transactions, so whether the page holds the filtered list or
      the unfiltered list that overwrites it, the same transactions are listed. */
  lemma FiltersAgree(transactions: seq<ShownTransaction>)
    ensures forall tx :: KeptOnFetch(tx) <==> KeptOnRender(tx)
    ensures DisplayedTransactions(Filter(transactions, KeptOnFetch)) == DisplayedTransactions(transactions)
  {
    FilterAfterWeakerFilter(transactions, KeptOnFetch, KeptOnRender);
  }

  /** At most five transactions are listed, each a credit type or a completed debit, and they are
      the first of the kept ones in their original order: none is skipped. */
  lemma DisplayedAreFirstKept(transactions: seq<ShownTransaction>)
    ensures var shown := DisplayedTransactions(transactions);
      && |shown| <= 5
      && (forall k :: 0 <= k < |shown| ==> KeptOnRender(shown[k]) && shown[k] in transactions)
      && shown == Filter(transactions, KeptOnRender)[..|shown|]
      && (|shown| < 5 ==> shown == Filter(transactions, KeptOnRender))
      && (Filter(transactions, KeptOnRender) == transactions <==> forall tx :: tx in transactions ==> KeptOnRender(tx))
  {
    FilterKeeps(transactions, KeptOnRender);
    FilterAll(transactions, KeptOnRender);
    var shown := DisplayedTransactions(transactions);
    forall k | 0 <= k < |shown| ensures KeptOnRender(shown[k]) && shown[k] in transactions {
      assert shown[k] in Filter(transactions, KeptOnRender);
    }
  }

  datatype AmountText = AmountText(sign: string, magnitude: int)

  /** The amount as listed: "+" exactly for the credit types, "-" for everything else, then the
      absolute amount. */
  function AmountLabel(tx: ShownTransaction): (text: AmountText)
    ensures text.sign == "+" <==> IsCreditKind(tx.kind)
    ensures text.sign == "+" || text.sign == "-"
    ensures text.magnitude >= 0 && (text.magnitude == tx.amount || text.magnitude == -tx.amount)
  {
    AmountText(if IsCreditKind(tx.kind) then "+" else "-", if tx.amount < 0 then -tx.amount else tx.amount)
  }

  /** A listed transaction carries "-" iff it is a completed debit. */
  lemma ListedSign(tx: ShownTransaction)
    requires KeptOnRender(tx)
    ensures AmountLabel(tx).sign == "-" <==> tx.kind == "DEBIT"
  {
  }
}
