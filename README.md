# helperbuddy payment bookkeeping, in Dafny

This project models the part of helperbuddy (a Next.js home-services marketplace backed by
Prisma) that moves money and referral state, plus the small decision and filter rules around it:

- the Razorpay webhook (`razorpay_webhook.dfy`): signature gate, event dispatch, order lookup
  through `withRetry`, order completion, and the referral bonus of 50 paid to the referrer on a
  referred user's first completed order;
- the referral routes (`referrals.dfy`): redeeming a referral code (a write-once change of
  `User.referredBy` behind an ordered list of rejections), the referral statistics, and the older
  helper `awardReferralBonus`;
- the customer dashboard rules (`dashboard.dfy`): status badge, payment button, order counters,
  the transaction list and its signs;
- a partner's pending orders (`pending_orders.dfy`), the admin list and status update of
  partner-requested services (`partner_requested_services.dfy`), blog pagination (`blogs.dfy`),
  the partner registration form (`partner_register.dfy`) and the service search
  (`services_search.dfy`).

The store is a value of type `Store.Tables` with one sequence per table (orders, users, wallets,
transactions, partner requests). Row ids are primary keys: a lookup by id, by email or by
gateway order id returns the first matching row, and an update writes that row. The class
`Store.Db` holds the tables as mutable fields. The routes that write (`POST` of the webhook,
`processReferralBonus`, code redemption, `awardReferralBonus`, the admin `PATCH`) are methods on
`Db`. Each is proved equal to a function over `Tables`, and the properties are lemmas about
those functions. The routes that only read are functions.

Everything outside the program is an input:
- the signed-in email;
- the development-mode flag, the key secret and HMAC-SHA-256 (a function value in
  `RazorpayWebhook.Config`);
- the delivery time;
- which store calls throw, and how often (`RazorpayWebhook.Faults` and a fault input per route).

`withRetry` is modelled exactly. The i-th call of a read either throws or answers. A retried read
therefore answers when at most `MAX_RETRIES` = 3 calls in a row throw, and throws after 4
failures.

The model keeps these behaviours of the code as written:
- The duplicate check for the webhook bonus is a substring test. A recorded bonus for user
  `u12` blocks the first bonus for `u1` (`RazorpayWebhook.PrefixIdsCollide`).
- A redelivered `payment.captured` event rewrites the payment id, `paidAt` and `updatedAt` of an
  order that is already COMPLETED. It pays no second bonus.
- The webhook bonus is a REFERRAL_BONUS transaction. The referral statistics count only CREDIT
  transactions described exactly "Referral bonus", so the webhook bonus never shows in
  `totalEarnings`.
- The dashboard's second pass over the counters counts only COMPLETED and only PENDING orders,
  and it overwrites the first pass.
- `processReferralBonus` runs inside the callback of the interactive transaction that completes
  the order, but through the global client, not the transaction's. Its reads therefore see the
  committed tables, without the uncommitted order update, and its wallet credit and bonus
  transaction commit on their own, before the order update does. The model evaluates the step on
  the tables with the order update applied. `RazorpayWebhook.ReferralStepIgnoresOrderUpdate`
  proves that this gives the same award and the same writes: only the paid order's row differs,
  and the count of other completed orders leaves that order out.

## Model

| member | source | states |
|---|---|---|
| RazorpayWebhook.WithRetry | src/app/api/webhook/razorpay/route.ts:42-55 | between 1 and retries+1 calls; the outcome is the last call's; every earlier call threw; a thrown outcome means every allowed call was made |
| RazorpayWebhook.ReferralChain | src/app/api/webhook/razorpay/route.ts:59-83 | a chain found holds a wallet row that belongs to the referrer, and neither the user id nor the referrer id is empty |
| RazorpayWebhook.ReferralChainIff | src/app/api/webhook/razorpay/route.ts:59-83 | a chain exists iff the order exists, its user id is non-empty, that user exists and was referred by a non-empty id of an existing user who has a wallet; the chain names that user, that referrer and the referrer's wallet row |
| RazorpayWebhook.ReferralBonusOutcome | src/app/api/webhook/razorpay/route.ts:57-152 | the step never changes orders, users or requests; without an award it changes nothing; with one it appends exactly one REFERRAL_BONUS transaction of 50 and keeps the number of wallets |
| RazorpayWebhook.Handle | src/app/api/webhook/razorpay/route.ts:154-271 | any reply other than a processed payment leaves the store unchanged; users and requests are never changed and no order is added or removed; a processed payment reports COMPLETED |
| RazorpayWebhook.ReferralStepIgnoresOrderUpdate | src/app/api/webhook/razorpay/route.ts:215-228 | the referral step awards and writes the same whether it reads the store with or without the uncommitted order update |
| RazorpayWebhook.ProcessReferralBonus | src/app/api/webhook/razorpay/route.ts:57-152 | the award returned and the store afterwards are those of the reference function `ReferralBonusOutcome` |
| RazorpayWebhook.Post | src/app/api/webhook/razorpay/route.ts:154-271 | the reply and the store afterwards are those of the reference function `Handle` |
| RazorpayWebhook.AwardIff | src/app/api/webhook/razorpay/route.ts:76-117 | a bonus is awarded iff there is a chain, no other completed order of the user and no matching earlier bonus, and no read fails more than 3 times in a row and the write does not fail; without an award nothing is written |
| RazorpayWebhook.KeyMatchesExtendedIds | src/app/api/webhook/razorpay/route.ts:108 | the description of a bonus for any user id that extends `userId` contains `userId`'s duplicate-check key |
| RazorpayWebhook.AwardCreditsReferrer | src/app/api/webhook/razorpay/route.ts:119-138 | an award raises the referrer's wallet by exactly 50, leaves every other wallet, order, user and request alone, and appends exactly one REFERRAL_BONUS transaction of 50 owned by the referrer on that wallet, whose description contains the duplicate-check key |
| RazorpayWebhook.RecordedBonusBlocksAward | src/app/api/webhook/razorpay/route.ts:102-117 | a recorded bonus that the substring check matches prevents any award |
| RazorpayWebhook.AwardAtMostOnce | src/app/api/webhook/razorpay/route.ts:102-138 | after an award, no later referral step for any order of the same user awards again |
| RazorpayWebhook.PrefixIdsCollide | src/app/api/webhook/razorpay/route.ts:108 | in a concrete store, user u1's first order earns a bonus, unless a bonus for u12 is already recorded |
| RazorpayWebhook.ReferralChainStable | src/app/api/webhook/razorpay/route.ts:59-83 | the chain depends only on users, order ids and owners, and wallet owners, so neither an order update nor a credit changes it |
| RazorpayWebhook.UnsignedDeliveriesRejected | src/app/api/webhook/razorpay/route.ts:158-184 | outside development mode, a missing signature gives 400 "No signature provided", a wrong one 400 "Invalid signature", and neither touches the store |
| RazorpayWebhook.OtherEventsIgnored | src/app/api/webhook/razorpay/route.ts:193-261 | an accepted event other than payment.captured is acknowledged and writes nothing |
| RazorpayWebhook.UnknownOrderNotFound | src/app/api/webhook/razorpay/route.ts:196-213 | a captured payment whose gateway order matches no order gives 404 "Order not found" and writes nothing |
| RazorpayWebhook.OnlyCapturedPaymentsProcessed | src/app/api/webhook/razorpay/route.ts:158-232 | a processed reply or any write requires an accepted signature, a captured payment event, a successful lookup that found the order, and a successful update |
| RazorpayWebhook.CapturedPaymentCompletesOrder | src/app/api/webhook/razorpay/route.ts:215-253 | the found order alone becomes COMPLETED with the payment id and paidAt; the reply names the order, the payment and its remaining amount; a bonus summary appears iff the referral step awarded, and then it is the one appended transaction of 50 |
| RazorpayWebhook.SecondReferralStepAwardsNothing | src/app/api/webhook/razorpay/route.ts:86-117 | once the referral step has decided for an order, running it again on the resulting store awards nothing and writes nothing |
| RazorpayWebhook.DeliveryAfterDecision | src/app/api/webhook/razorpay/route.ts:196-253 | a delivery after the referral step has decided rewrites only the order's payment fields and pays no bonus |
| RazorpayWebhook.RedeliveryPaysNoSecondBonus | src/app/api/webhook/razorpay/route.ts:215-253 | a second delivery of a processed payment changes no wallet, transaction or user, pays no bonus, and overwrites the order's payment id and paidAt |
| Referrals.Redeem | src/app/api/refferals/route.ts:8-64 | a rejection changes nothing, no user is added or removed, and a success needs a session, a code and no failing store call |
| Referrals.RedeemCode | src/app/api/refferals/route.ts:8-64 | the reply and the users afterwards are those of the reference function `Redeem`; no other table changes |
| Referrals.RedeemChecksInOrder | src/app/api/refferals/route.ts:10-63 | the rejections come in the order 401 no session, 400 missing code, 500 failing user lookup, 404 no such user, 400 already referred, 500 failing code lookup, 404 unknown code, 400 own code, 500 failing update |
| Referrals.RedeemEffect | src/app/api/refferals/route.ts:11-57 | every rejection leaves the users unchanged; a success sets only the caller's referredBy, to the id of a different user who owns the code |
| Referrals.ReferrerWriteOnce | src/app/api/refferals/route.ts:22-33 | a user whose referrer is set cannot redeem again and nothing changes; unless the user lookup fails, the answer is 400 "User already has a referrer" |
| Referrals.SecondRedemptionRejected | src/app/api/refferals/route.ts:31-53 | after a successful redemption every later redemption by the same user is rejected and writes nothing |
| Referrals.ReferralInfo | src/app/api/refferals/route.ts:67-122 | statistics are answered only with a session, reads that succeed and a known email, and the number of referred users is at most the number of users; any rejection is 401, 404 or 500 |
| Referrals.ReferralInfoAnswers | src/app/api/refferals/route.ts:67-122 | 401 without session, 500 on a failing read, 404 for an unknown email; otherwise the caller's code, referrer, number of referred users and sum of their "Referral bonus" credits |
| Referrals.NoCreditsNoEarnings | src/app/api/refferals/route.ts:113 | with no matching credit, totalEarnings is 0 |
| Referrals.TotalEarningsAppend | src/app/api/refferals/route.ts:94-103 | appending a transaction raises totalEarnings by its amount iff it is a CREDIT of the caller described exactly "Referral bonus" |
| Referrals.RedemptionCountsOnce | src/app/api/refferals/route.ts:50-92 | a successful redemption raises the code owner's referredUsers by one and no one else's |
| Referrals.WebhookBonusNotInEarnings | src/app/api/refferals/route.ts:94-103 | the webhook's referral step never changes anyone's totalEarnings |
| Referrals.AwardOutcome | src/app/api/refferals/route.ts:125-166 | the helper throws iff the purchaser lookup throws or the transaction throws for a referred purchaser; otherwise users, orders and requests are unchanged, nothing changes without a referrer, and a referred purchaser gets exactly one transaction appended, owned by the referrer |
| Referrals.AwardReferralBonus | src/app/api/refferals/route.ts:125-166 | the store afterwards is that of the reference function `AwardOutcome`, and a thrown error leaves the store as it was |
| Referrals.AwardWithoutReferrer | src/app/api/refferals/route.ts:126-135 | a purchaser that is missing or has no referrer causes no change, unless the purchaser lookup throws, which is rethrown |
| Referrals.AwardCredits | src/app/api/refferals/route.ts:138-160 | the referrer's balance rises by exactly 50 (a new wallet starts at 50, an existing one is the only row rewritten), every other wallet stays as it was, one CREDIT "Referral bonus" transaction of 50 on that wallet is appended, and totalEarnings rises by 50 |
| Referrals.AwardNotIdempotent | src/app/api/refferals/route.ts:125-166 | n calls add 50·n to the referrer's balance and earnings and append n transactions |
| Dashboard.GetStatusDisplay | src/app/user/dashboard/page.tsx:262-327 | the badge is gray exactly for a status outside the eight named ones, and is then the status itself without an icon; a clock shows exactly on yellow and blue badges, a check exactly on green ones, a cross exactly for CANCELLED |
| Dashboard.ShouldShowPaymentButton | src/app/user/dashboard/page.tsx:329-337 | the button shows only for an order without a payment id, in a named status that is not COMPLETED, PAYMENT_COMPLETED or PENDING |
| Dashboard.AcceptedShowsPayment | src/app/user/dashboard/page.tsx:294-307 | an ACCEPTED order reads "Payment Completed" iff it has a payment id, "Payment Pending" otherwise |
| Dashboard.StatusTextsFixed | src/app/user/dashboard/page.tsx:262-327 | every named status but ACCEPTED is shown independently of the rest of the order; an unknown status is shown as its own text in gray |
| Dashboard.GreenNeverPays | src/app/user/dashboard/page.tsx:262-337 | the badge is green exactly for COMPLETED, PAYMENT_COMPLETED and a paid ACCEPTED order, and a green order gets no payment button |
| Dashboard.ButtonMeansPaymentPending | src/app/user/dashboard/page.tsx:262-337 | whenever the payment button shows, the badge is yellow with a clock and says a payment is pending |
| Dashboard.FirstPassDisjoint | src/app/user/dashboard/page.tsx:157-168 | no order is counted both completed and pending in the first pass, so the two counts add up to at most the orders listed |
| Dashboard.FinalStatsNarrower | src/app/user/dashboard/page.tsx:175-243 | the final counters are never above the first ones, and totalOrders is always the pagination total |
| Dashboard.ShownStats | src/app/user/dashboard/page.tsx:175-243 | the counters shown take totalOrders from the pagination total, and completed plus pending never exceeds the orders listed |
| Dashboard.FiltersAgree | src/app/user/dashboard/page.tsx:191-445 | the fetch filter and the render filter keep the same transactions, so both paths list the same ones |
| Dashboard.DisplayedAreFirstKept | src/app/user/dashboard/page.tsx:436-446 | at most five transactions are listed, each a credit type or a completed debit, and they are the first of the kept ones in order |
| Dashboard.AmountLabel | src/app/user/dashboard/page.tsx:492-497 | the sign is "+" exactly for CREDIT, SIGNUP_BONUS and REFERRAL_BONUS and "-" otherwise; the magnitude is the absolute amount |
| Dashboard.ListedSign | src/app/user/dashboard/page.tsx:436-497 | a listed transaction carries "-" iff it is a debit |
| PendingOrders.Get | src/app/api/partner/pending-orders/route.ts:6-99 | orders are answered only with a session and no failing read; every order listed is stored, PENDING and without a partner, and the list is newest first |
| PendingOrders.GetRejections | src/app/api/partner/pending-orders/route.ts:10-98 | no session email gives 401; then a failing partner lookup 500, an email of no partner 404, and a failing later read 500 |
| PendingOrders.GetListsPartnersOrders | src/app/api/partner/pending-orders/route.ts:20-67 | for a signed-in partner whose reads succeed, the answer is the claimable orders of the partner's services |
| PendingOrders.ServiceIdsOfPartner | src/app/api/partner/pending-orders/route.ts:33-40 | a service id is used iff one of the partner's ServiceProvider rows names it |
| PendingOrders.PendingForExactly | src/app/api/partner/pending-orders/route.ts:43-67 | the list holds exactly the PENDING orders without a partner for the partner's services, each as often as stored, newest first |
| PendingOrders.NoServicesNoOrders | src/app/api/partner/pending-orders/route.ts:38-48 | a partner without services gets an empty list |
| PartnerRequestedServices.Get | src/app/api/admin/services/partner-requested-services/route.ts:4-15 | GET answers a list iff the query does not fail, otherwise 500 "Failed to fetch services"; every row listed is stored and PENDING, and there are no more rows than stored |
| PartnerRequestedServices.Patch | src/app/api/admin/services/partner-requested-services/route.ts:17-44 | no request is added or removed, a rejection changes nothing, and a success answers a stored row with a valid status |
| PartnerRequestedServices.GetListsPending | src/app/api/admin/services/partner-requested-services/route.ts:4-15 | GET lists exactly the PENDING requests, each as often as stored, highest id first |
| PartnerRequestedServices.PatchStatus | src/app/api/admin/services/partner-requested-services/route.ts:17-44 | the reply and the request table afterwards are those of the reference function `Patch`; no other table changes |
| PartnerRequestedServices.PatchRejections | src/app/api/admin/services/partner-requested-services/route.ts:21-43 | a missing field gives 400, a status outside PENDING/CANCELLED/COMPLETED 400, an unknown id or a failing update 500, and none writes |
| PartnerRequestedServices.PatchChangesOnlyStatus | src/app/api/admin/services/partner-requested-services/route.ts:30-38 | a successful PATCH changes only the status of the request with that id, to a valid status, and returns the updated row |
| PartnerRequestedServices.PatchThenGet | src/app/api/admin/services/partner-requested-services/route.ts:8-33 | after a PATCH the request is listed by GET iff its new status is PENDING |
| Blogs.PageOf | src/app/api/blogs/route.ts:8 | the page is the parameter's number unless absent, 0 or not a number, in which case 1; never 0 |
| Blogs.TotalPagesLeast | src/app/api/blogs/route.ts:25 | totalPages is the least n with 9·n ≥ total, and 0 exactly when there are no active blogs |
| Blogs.HasNextPageIff | src/app/api/blogs/route.ts:24-25 | for page ≥ 1, hasNextPage holds iff page < totalPages |
| Blogs.Get | src/app/api/blogs/route.ts:6-28 | a page served holds at most 9 blogs, each stored and active, no store call failed, and totalPages pages of 9 hold the page |
| Blogs.GetFailsIff | src/app/api/blogs/route.ts:8-19 | the request fails exactly when a store call fails or the page number is negative, whose skip is negative |
| Blogs.PageContents | src/app/api/blogs/route.ts:9-25 | a page holds at most 9 active blogs, newest first, the slice of the active blogs from skip = (page−1)·9; totalPages counts active blogs only |
| Blogs.EveryActiveBlogOnItsPage | src/app/api/blogs/route.ts:9-17 | the i-th active blog is entry i mod 9 of page i div 9 + 1, so no blog is skipped |
| PartnerRegister.ToggleService | src/app/register/page.tsx:49-57 | toggling flips whether the name is chosen and leaves every other name's membership as it was |
| PartnerRegister.ToggleFlips | src/app/register/page.tsx:49-57 | exactly the toggled name's membership flips; a present name is removed everywhere, an absent one appended at the end |
| PartnerRegister.ToggleTwiceRestores | src/app/register/page.tsx:49-57 | toggling an absent name twice gives back the list |
| PartnerRegister.FilteredServices | src/app/register/page.tsx:92-94 | the search keeps exactly the services whose name contains the term ignoring case, and no more than there are |
| PartnerRegister.FilteredServicesExactly | src/app/register/page.tsx:92-94 | the search keeps exactly the services whose lower-cased name contains the lower-cased term; an empty term keeps all |
| PartnerRegister.ServiceTypes | src/app/register/page.tsx:65-69 | serviceTypes holds no category twice |
| PartnerRegister.FormattedData | src/app/register/page.tsx:62-71 | the record keeps the form's name, email, password and the chosen names, and holds one pincode per comma-separated piece, none longer than its piece |
| PartnerRegister.ServiceTypesExactly | src/app/register/page.tsx:65-69 | serviceTypes has no duplicates and holds exactly the categories of listed services whose names are chosen |
| PartnerRegister.FormattedDataFields | src/app/register/page.tsx:62-71 | services is the chosen list; one pincode per comma-separated piece, commas plus one, each the trimmed piece without comma or outer whitespace |
| ServicesSearch.ToNumber | src/app/services/page.tsx:38 | the number is the decimal's value |
| ServicesSearch.RankedExactly | src/app/services/page.tsx:26-33 | the ranking holds exactly the matching rows, most orders first |
| ServicesSearch.SearchServices | src/app/services/page.tsx:24-44 | a search that answers had no store failure, lists no more services than stored, and every service listed is active and of the requested category when one narrows the search |
| ServicesSearch.SearchThrowsIff | src/app/services/page.tsx:24-44 | the search throws exactly when the store fails or the category narrows the search and is no Category value |
| ServicesSearch.FiltersApplyOnlyWhenGiven | src/app/services/page.tsx:27-30 | an empty query applies no name filter, "all" and "" apply no category filter, and only active services match |
| ServicesSearch.SearchExactly | src/app/services/page.tsx:24-39 | the result lists every matching service converted, and nothing else, all active, most orders first |
| ServicesSearch.ListedKeepsFields | src/app/services/page.tsx:36-39 | conversion keeps every field and turns threshold into its value |
| ServicesSearch.GenerateStaticParams | src/app/services/page.tsx:84-88 | one entry per category value, each as long as the value and holding no upper-case ASCII letter |
| ServicesSearch.StaticParamsPerCategory | src/app/services/page.tsx:84-88 | one entry per category value in order, each lower-cased |
| Text.Split | src/app/register/page.tsx:70 | `split(",")` gives one piece more than there are commas, none holding a comma |
| Text.Trim | src/app/register/page.tsx:70 | `trim` returns no more characters than it was given and nothing that starts or ends with whitespace |
| Text.JoinSplit | src/app/register/page.tsx:70 | joining the pieces with commas gives back the input |
| Text.TrimKeepsMiddle | src/app/register/page.tsx:70 | `trim` keeps the middle of the string and removes only whitespace at both ends |
| Text.LexTotal | src/app/api/admin/services/partner-requested-services/route.ts:8 | any two ids are ordered one way or the other |
| Text.LexTransitive | src/app/api/admin/services/partner-requested-services/route.ts:8 | the id order is transitive |

## Left out

- HMAC-SHA-256 itself is a function value in the configuration; only the comparison of its hex
  output with the header is modelled.
- The delay between retries is not modelled; only the number of calls is.
- Concurrent deliveries and Prisma transaction isolation are not modelled. Each transaction is
  one atomic step, and `processReferralBonus` runs as a separate step after the order update.
- A failing commit of the order-update transaction after the referral step has awarded is not
  modelled (for example an interactive transaction that times out because of the retry delays).
  The source then keeps the bonus, leaves the order uncompleted and answers 500; the model's
  order update either throws before the referral step or commits.
- Store failures are inputs of the operations that model the handlers:
  - the webhook: how many times each retried read throws in a row, whether the bonus write
    throws, and the error message of a failing order update;
  - code redemption: which of the user lookup, the code lookup and the update throws;
  - the referral statistics: whether a read throws;
  - `awardReferralBonus`: whether the purchaser lookup or the transaction throws;
  - the pending orders: whether the partner lookup or a later read throws;
  - the admin routes: whether the list query or the status update throws;
  - the blog list and the service search: whether a query throws.
  The order update and the bonus write either throw with their whole transaction rolled back or
  succeed.
- A request body that is not JSON, in code redemption and the admin `PATCH`, is not modelled;
  the source answers it 500 through its catch.
- The Razorpay client object, currency, `NextResponse` and JSON encoding, logging, and the
  service name in the webhook's success response are not modelled. A body that is not JSON
  gives 500 with the parser's message; a captured event without a payment entity gives 500.
- The session layer is not modelled; the signed-in email is an input.
- Timestamps are integers; `toISOString` is not modelled.
- Amounts are integers. `Decimal`, float rounding, `toFixed` and `averageRating` are not
  modelled. `ServicesSearch.ToNumber` is the exact value, without the rounding to a double.
- Blogs.PageOf: a page string that is not a whole number (`"1.5"`) is not modelled; the
  parameter is absent, not a number, or an integer.
- Referential integrity is not modelled. A foreign-key violation is one more way for a write
  to throw.
- Row order: a query without an ordering returns the first matching row by table position.
  Rows with equal sort keys come out in an order the model fixes; the store leaves it open.
- The `$transaction` of the referral statistics is two reads of one state.
- Text: case-insensitive matching and `toLowerCase` cover ASCII letters only. SQL ordering
  by id compares code points, not the database collation.
- The Category enum values are a parameter (`categories`) of the search and of
  `generateStaticParams`.
- All rendering and UI state are not modelled: JSX, `useState`/`useEffect`, `fetch`, `alert`.
  The dashboard's `fetch` effect is modelled only by the counters and transaction filters it
  computes.
- The `example.com` URL in `ServicesPage`, `ServiceModal.tsx`, `signup/page.tsx`,
  `src/app/page.tsx`, and the edgestore, auth options and users routes are not part of this
  model.
- The raw SQL of the admin `GET` is modelled by its filter and order only.
