# Operator back end: a verified model

The operator back end of the commerce platform (`bff/admin-bff`) locks rows, checks guards and rewrites several
tables together. This project models the parts where those tables have to agree, and proves that they do.

| files | what they model |
|---|---|
| `Rounding`, `DecimalText`, `CreditRateDerivation` | from a decimal price text, through three roundings, to a credit rate at a target margin |
| `CatalogOrder` | moving a product in the catalogue, seen through any filtered screen |
| `PlanCatalog`, `PlanInvariant`, `PlanTheorems`, `PlanOutcomes`, `PlanDesk` | plans, versions, prices and bundled components from creation to deletion |
| `Billing`, `BillingBooks`, `BillingPrices`, `BillingRetries`, `BillingOutcomes`, `BillingDesk` | one bill with its order, items, payment legs and ledger, written by three routers |
| `Subscriptions`, `SubscriptionHistory`, `SubscriptionOutcomes`, `SubscriptionDesk` | operator actions, suspension episodes and the append-only history |
| `VoucherIssuance` | issuing vouchers, also as concurrent transactions statement by statement |
| `RateWindows` | effective-dated rates that are closed but never rewritten |
| `OperatorExchange` | the bounded token cache under interleaved calls |
| `Common`, `Sums` | optional values, results, filtered sequences, sums |

Each handler is a function from the tables before it to the tables after it or a refusal. The `…Desk` classes (and
`ProductTable`, `VoucherTables`, `RateTable`, `TokenCache`) hold the tables as fields and change them statement by
statement, as the handlers do; their methods are proved to end as the function says, or to leave the tables as they
were. What the platform promises is proved about the functions, step by step and over whole runs; the `…Outcomes`
modules say exactly which requests are accepted and what each writes.

Amounts are integer cents and micro-units, instants are integers. A handler is one atomic step that commits or leaves
everything as it was (`bff/admin-bff/src/db/tx.ts:15-31`), except in `VoucherIssuance`, where statements interleave under
the lock on the batch row. Row ids are issued by a counter that never reissues, in place of random uuids.

Outside steps are modelled after the services that take them: a declaration (`OrderService.declarePayment`), the second
stage of a confirm, a renewal at price zero, cancelling and reopening an order, deleting a product, the settlement of
suspensions, their deadline in its two transactions, the expiry sweeps, the marks `expiring` and `overdue`, a cancel by
the customer and the renewal switch. A job's scan and its update of one row are one step. Others carry an
assumption of their own: customers subscribe to and order published versions only, an order never changes its version,
payment attempts open legs of a positive amount, a revoked voucher stays revoked, and only the assign handler adds vouchers.

## Where the code departs from its own account

Each item names the exact condition and an input that shows it.

- The header of `credit-rate-derivation.ts` says the total margin is the target whatever the usage mix, and lets rounding
  blur it. `MixMarginBound` says by how much; `MixOnTargetExact` and `MixIndependenceExact` say exactly when the total is
  on target, and when the margin is the same, on every mix; `MarginMovesWithMix` is an input where it is not.
- A cancel writes an end date on every subscription, and the row constraint forbids one on a perpetual subscription
  (`deploy/database/ddl/50_metering.sql:59`), so it can never be cancelled here (`CancelAcceptedExactly`,
  `PerpetualCannotBeCancelled`).
- The expiry sweep takes suspended subscriptions too, and the customer may cancel one; neither closes the episode. The
  row is then out of step for good (`StepInStepExactly`, `RunInStepExactly`, `StrandedForever`): a renewal brings it
  back without its renewal choice, no suspension is accepted, and an edit of the estimate breaks the history
  (`SweepStrands`, `ServiceCancelStrands`, `EstimateChainsExactly`).
- The deadline job moves the status and closes the episode in two transactions. In between no suspension is accepted
  (`SuspendAcceptedExactly`) and an edit of the estimate breaks the history (`GapBreaksHistory`). The history chains
  exactly when estimates are only edited while suspended (`HistoryChainsExactly`).
- A renewal choice made while suspended is lost when it ends (`ChoiceWhileSuspendedIsLost`).
- A confirm adds the declared voucher amount even without a credit voucher, and then loses it (`ConfirmBooksExactly`,
  `UnbackedCredentialLosesMoney`). The order service never writes such a credential (`DeclareKeepsBooks`).
- Reopening an order revives every discount row ever withdrawn but not the prices (`RestorePricesExactly`,
  `RestoredOrderIsNotPriced`).
- A discount may take payable below what was paid or invoiced, and below zero, by its one-cent tolerance
  (`DiscountKeepsFloorExactly`, `FloorKeptExactly`, `DiscountedBelowZero`), again and again (`OneCentDiscountsNeverStop`).
- Publishing the draft of a deprecated plan can be refused because its slot was sold again (`PublishRefusedExactly`,
  `PublishCanClash`).
- Rates applied out of order leave two windows open (`TilingKeptExactly`, `OutOfOrderLeavesTwoOpen`).
- An audience with a newline can collide with another audience in the token cache (`KeysCollideExactly`, `NewlinesCollide`).

## Model

| member | source | states |
|---|---|---|
| Rounding.DivRoundHalfUpExact | bff/admin-bff/src/lib/credit-rate-derivation.ts:22-25 | The division rounds to nearest with halves up if and only if num + den/2 is not a negative non-multiple of den (it truncates there); it is defined exactly for den > 0 |
| Rounding.HalfUpMonotone | bff/admin-bff/src/lib/credit-rate-derivation.ts:22-25 | A half-up quotient never falls when the fraction rises, across different denominators |
| DecimalText.MatchesExactlyNumerals | bff/admin-bff/src/lib/credit-rate-derivation.ts:32-35 | The pattern accepts a text with these digit groups exactly when the text is that numeral |
| DecimalText.PriceTextExact | bff/admin-bff/src/lib/credit-rate-derivation.ts:31-41 | Any padded numeral, of any length, becomes the nearest micro-CNY with halves up |
| DecimalText.PriceTextRejects | bff/admin-bff/src/lib/credit-rate-derivation.ts:32-35 | Nothing but a white-space padded numeral is accepted |
| DecimalText.MicroOfExact | bff/admin-bff/src/lib/credit-rate-derivation.ts:36-41 | Padding to seven digits and rounding on the seventh rounds the whole numeral |
| CreditRateDerivation.CostIsHalfUp | bff/admin-bff/src/lib/credit-rate-derivation.ts:48-57 | Cost per 1K tokens is the half-up share of the unit price; defined exactly for a positive unit and a numeral price |
| CreditRateDerivation.RateIsHalfUp | bff/admin-bff/src/lib/credit-rate-derivation.ts:67-79 | The rate is the half-up quotient of cost*10^10 by anchor*(10000-bps); defined exactly for a valid configuration |
| CreditRateDerivation.RateDefined | bff/admin-bff/src/lib/credit-rate-derivation.ts:48-79 | A numeral price has a rate exactly when the token unit and the configuration are valid |
| CreditRateDerivation.RateErrorBound | bff/admin-bff/src/lib/credit-rate-derivation.ts:31-79 | From price text to rate the three roundings together err by at most 1/2 + (1/2 + 500/u)*10^10/(anchor*(10000-bps)) |
| CreditRateDerivation.RateMonotone | bff/admin-bff/src/lib/credit-rate-derivation.ts:67-79 | The rate is monotone in price and target margin and antitone in the anchor |
| CreditRateDerivation.CacheFallbackNeverCheaper | bff/admin-bff/src/lib/credit-rate-derivation.ts:104-121 | An undeclared cache price falls back to input, and never prices the cache below a declaration up to input; the other dimensions are untouched |
| CreditRateDerivation.FourDimExactly | bff/admin-bff/src/lib/credit-rate-derivation.ts:104-121 | For any four prices each rate is that of its own price, within three roundings of it, a cache price not declared counting as the input price; defined if and only if token unit and configuration are valid |
| CreditRateDerivation.FourDimDefined | bff/admin-bff/src/lib/credit-rate-derivation.ts:104-121 | Whatever the texts, there are rates if and only if input, output and each declared cache price are numerals and unit and configuration are valid |
| CreditRateDerivation.MixMarginBound | bff/admin-bff/src/lib/credit-rate-derivation.ts:6-12 | For every mix of models, dimensions and amounts the total is within half a micro-credit per 1K tokens of the target margin |
| CreditRateDerivation.MixOnTargetExact | bff/admin-bff/src/lib/credit-rate-derivation.ts:6-12 | The total margin is the target on every mix of a set of costs if and only if every cost*10^10 is a multiple of anchor*(10000-bps) |
| CreditRateDerivation.MixIndependenceExact | bff/admin-bff/src/lib/credit-rate-derivation.ts:6-12 | Any two mixes of a set of costs have the same margin if and only if the rounded rates are in the proportion of the costs: rate(c)*d = rate(d)*c for each two of them |
| CreditRateDerivation.MarginMovesWithMix | bff/admin-bff/src/lib/credit-rate-derivation.ts:6-12 | A valid configuration at which a cost of 3 keeps exactly the target and a cost of 1 does not, and the two have different margins |
| CatalogOrder.ListingUnique | bff/admin-bff/src/routers/products.router.ts:166-174 | Sorting by (sort, code) leaves one possible order |
| CatalogOrder.CodeLessExactly | bff/admin-bff/src/routers/products.router.ts:166-174 | Of two codes the first is the one that ends, or has the smaller character, where they part |
| CatalogOrder.ListedInOrder | bff/admin-bff/src/routers/products.router.ts:166-174 | The listing has every product once, by sort and then by code |
| CatalogOrder.PlacedUnique | bff/admin-bff/src/routers/products.router.ts:181-202 | At most one order puts the target where asked and keeps the others as they were |
| CatalogOrder.PlacedIsPermutation | bff/admin-bff/src/routers/products.router.ts:181-202 | A move is a permutation |
| CatalogOrder.RepeatedMoveIsNoMove | bff/admin-bff/src/routers/products.router.ts:199-200 | Asking for the same move again changes nothing |
| CatalogOrder.ViewMovesAlike | bff/admin-bff/src/routers/products.router.ts:109-120 | On every filtered screen that keeps target and anchor the move is the same move, so top and bottom are first and last on every such screen |
| CatalogOrder.HiddenMoveUnseen | bff/admin-bff/src/routers/products.router.ts:109-120 | A screen that hides the target does not change |
| CatalogOrder.NeighbourSwaps | bff/admin-bff/src/routers/products.router.ts:113-118 | When the anchor is the visible neighbour, up and down swap exactly those two on the screen |
| CatalogOrder.MoveAcceptedExactly | bff/admin-bff/src/routers/products.router.ts:131-197 | A move is accepted if and only if to an end, or beside another product that is there, of a product that is there; when it is a missing product instead of a malformed request |
| CatalogOrder.EndsReached | bff/admin-bff/src/routers/products.router.ts:185-202 | Top and bottom need no anchor: they are accepted and put the product before or after all others |
| CatalogOrder.MoveExists | bff/admin-bff/src/routers/products.router.ts:181-202 | Every request that is not refused has a placed order, with the same products |
| CatalogOrder.BottomMovesReachAnyOrder | bff/admin-bff/src/routers/products.router.ts:181-202 | Any order of n products is reached from any other by n bottom moves, which exist, and every way to carry them out ends there |
| CatalogOrder.RenumberedReadsBack | bff/admin-bff/src/routers/products.router.ts:205-213 | After renumbering 1..n the catalogue reads back in exactly the computed order |
| CatalogOrder.ProductTable.SelectOrdered | bff/admin-bff/src/routers/products.router.ts:166-174 | Returns the rows in display order |
| CatalogOrder.ProductTable.Destination | bff/admin-bff/src/routers/products.router.ts:185-197 | The insertion point relative to the anchor, or none when the anchor is missing |
| CatalogOrder.ProductTable.MoveProduct | bff/admin-bff/src/routers/products.router.ts:131-223 | Refuses exactly as specified and then changes nothing; otherwise the new order is the placed one, `moved` is true exactly when the order changed, and sort is 1..n |
| CatalogOrder.ProductTable.Renumber | bff/admin-bff/src/routers/products.router.ts:205-213 | Writes 1..n along the order and touches no other row |
| PlanInvariant.CreatePlanKeeps | bff/admin-bff/src/routers/products.router.ts:1759-1842 | Creating a plan keeps the joint invariant: the tier-occupancy query covers every live plan on the slot |
| PlanInvariant.LivePlanOccupies | bff/admin-bff/src/routers/products.router.ts:4375-4389 | A live plan on a slot is seen by the occupancy query whichever of its versions stands for it |
| PlanInvariant.CreateDraftKeeps | bff/admin-bff/src/routers/products.router.ts:1858-1974 | Opening a draft keeps the joint invariant: the clone has the highest number, no lower major number and the same slot |
| PlanInvariant.UpdateDraftKeeps | bff/admin-bff/src/routers/products.router.ts:889-992 | Editing a draft keeps the joint invariant |
| PlanInvariant.ResolvedInOrder | bff/admin-bff/src/routers/products.router.ts:2492-2553 | Accepted bundled items become components one for one, all of live L2 products, below the primary in priority and never the primary itself |
| PlanInvariant.ResolvedExactly | bff/admin-bff/src/routers/products.router.ts:2492-2553 | The items are accepted if and only if each is a live L2 product, not the primary, with a lower priority |
| PlanInvariant.ReplacedBundles | bff/admin-bff/src/routers/products.router.ts:1655-1720 | What is sent is what remains: the bundled rows are the items one for one, and nothing else of the version changes |
| PlanInvariant.ReplaceBundledKeeps | bff/admin-bff/src/routers/products.router.ts:1655-1720 | Replacing the bundled components keeps the joint invariant |
| PlanInvariant.PublishKeeps | bff/admin-bff/src/routers/products.router.ts:1078-1087 | Publishing keeps the joint invariant: current stays the published version with the highest number |
| PlanInvariant.DeleteVersionKeeps | bff/admin-bff/src/routers/products.router.ts:1143-1202 | Deleting a draft keeps the joint invariant: no plan is left without a version and nothing dangles |
| PlanInvariant.DeletePlanKeeps | bff/admin-bff/src/routers/products.router.ts:1264-1321 | Deleting a plan keeps the joint invariant: no subscription, order or binding dangles |
| PlanInvariant.DropProductKeeps | bff/opera-bff/src/routers/product-catalog.router.ts:1298-1381 | Deleting a product with the plans that sell it keeps the joint invariant |
| PlanInvariant.StepKeepsInv | bff/admin-bff/src/routers/products.router.ts:889-1974 | Every request and every outside step keeps the joint invariant |
| PlanInvariant.RunKeepsInv | bff/admin-bff/src/routers/products.router.ts:889-1974 | Every run keeps the joint invariant: versions for every plan, distinct numbers, one draft and it is the newest, current newest published, majors in order, one slot a plan, no slot twice on sale, pins on published versions |
| PlanTheorems.EveryRunIsSound | bff/admin-bff/src/routers/products.router.ts:1759-1842 | All of it holds in every catalogue reachable from an empty one |
| PlanTheorems.AtMostOneDraft | bff/admin-bff/src/routers/products.router.ts:1892-1907 | A plan has at most one draft, and it has the highest number |
| PlanTheorems.CurrentIsNewestPublished | bff/admin-bff/src/routers/products.router.ts:1083-1087 | A published version is current if and only if no published sibling has a higher number |
| PlanTheorems.OccupiedExactly | bff/admin-bff/src/routers/products.router.ts:4375-4389 | The occupancy query finds a plan if and only if some version of a plan on sale sells the slot |
| PlanTheorems.DraftOpenedExactly | bff/admin-bff/src/routers/products.router.ts:1858-1938 | A draft is opened if and only if the plan exists and has none, and the major number asked for is at least that of every version |
| PlanTheorems.VersionDeletedExactly | bff/admin-bff/src/routers/products.router.ts:1143-1202 | A version is deleted if and only if it is a draft with a sibling; a draft is never current |
| PlanTheorems.PublishedIsFrozen | bff/admin-bff/src/routers/products.router.ts:906-910 | Once published, a version is the same row in every later state that still has it, and its id is never taken again |
| PlanTheorems.PinnedStays | bff/admin-bff/src/routers/products.router.ts:2078-2113 | No request deletes or alters a version that a subscription or an order holds |
| PlanTheorems.OrderedVersionSurvives | bff/admin-bff/src/routers/products.router.ts:1293-1311 | The version of an order is there, unchanged, after every run |
| PlanTheorems.PlanKeepsSlot | bff/admin-bff/src/routers/products.router.ts:1949-1956 | Over any run every version a plan ever has sells the product and tier of its first |
| PlanTheorems.PublishRefusedExactly | bff/admin-bff/src/routers/products.router.ts:1031-1060 | Publishing a draft is refused for a tier clash if and only if its plan is off sale and its slot was taken; a plan on sale is never refused |
| PlanTheorems.PublishCanClash | bff/admin-bff/src/routers/products.router.ts:1047-1060 | Five requests from the empty catalogue after which publishing the draft of a deprecated plan is refused |
| PlanTheorems.UnchangedUpsert | bff/admin-bff/src/routers/products.router.ts:929-945 | Prices the gate finds unchanged are written back as they were |
| PlanTheorems.NoRightNoPriceChange | bff/admin-bff/src/routers/products.router.ts:913-945 | Over any run without the price right no stored price changes, a new version of a plan has a price list that plan already had, and a version of a new plan has none |
| PlanTheorems.UpsertExact | bff/admin-bff/src/routers/products.router.ts:946-975 | A list is accepted exactly when each entry is; then each cycle holds its last submitted price to the cent and all else is as it was |
| PlanOutcomes.PlanCreatedExactly | bff/admin-bff/src/routers/products.router.ts:1759-1842 | A plan is created if and only if the product is live and standalone, the code unused and no plan on sale sells the slot |
| PlanOutcomes.CreatedPlan | bff/admin-bff/src/routers/products.router.ts:1759-1842 | It adds one plan row and one unpublished first version that sells the slot, with no price and nothing bundled |
| PlanOutcomes.DraftCarriesOver | bff/admin-bff/src/routers/products.router.ts:1940-1974 | An accepted draft adds one row: components, bundles, prices and trial of the current or else newest version, the next number, and the major asked for |
| PlanOutcomes.NextDraftReproduces | bff/admin-bff/src/routers/products.router.ts:1078-1974 | Publishing a draft and opening the next is accepted and reproduces it |
| PlanOutcomes.AcceptableExactly | bff/admin-bff/src/routers/products.router.ts:946-975 | An entry may be stored if and only if it is monthly or yearly and a whole number of cents, not negative |
| PlanOutcomes.DraftEditedExactly | bff/admin-bff/src/routers/products.router.ts:889-992 | An edit is accepted if and only if the version is editable, each price may be stored and, without the price right, is stored already, and the share is absent or between 0 and 1 |
| PlanOutcomes.EditedDraft | bff/admin-bff/src/routers/products.router.ts:889-992 | It leaves that one version with, per cycle, the price submitted last, and the quota on its components; all else is as it was |
| PlanOutcomes.BundlesReplacedExactly | bff/admin-bff/src/routers/products.router.ts:1655-1720 | A list is accepted if and only if at most 64 distinct live L2 products other than the primary, each burning before it, replace the bundles of an editable version |
| PlanOutcomes.ReplacedByItems | bff/admin-bff/src/routers/products.router.ts:1655-1720 | The bundled rows are then those items with their features, quota and priority, 50 by default |
| PlanOutcomes.PublishedExactly | bff/admin-bff/src/routers/products.router.ts:1078-1087 | Publishing locks that version and makes it current; no other row changes |
| PlanOutcomes.DeletedVersion | bff/admin-bff/src/routers/products.router.ts:1143-1202 | Deleting a version removes that row alone |
| PlanOutcomes.PlanDeletedExactly | bff/admin-bff/src/routers/products.router.ts:1264-1321 | A plan is deleted if and only if confirmed and held by no subscription, order or solution through any version; it goes with its versions, and nothing else does |
| PlanOutcomes.ShelfActionsExactly | bff/admin-bff/src/routers/products.router.ts:734-860 | When binding, unbinding and deprecating are accepted, and the one row each changes |
| PlanOutcomes.ProductDroppedExactly | bff/opera-bff/src/routers/product-catalog.router.ts:1298-1381 | A product is dropped if and only if no plan that sells it is held and no other plan bundles it |
| PlanOutcomes.DroppedProduct | bff/opera-bff/src/routers/product-catalog.router.ts:1298-1381 | The plans that sell it go with it, with their versions, and no others |
| PlanDesk.MethodsAreSteps | bff/admin-bff/src/db/tx.ts:15-31 | A method that ends as specified is one step of the specification, rolled back on refusal, and keeps the joint invariant |
| PlanDesk.PlanTables.CreatePlan | bff/admin-bff/src/routers/products.router.ts:1759-1842 | The tables end as specified, or the refusal leaves them as they were |
| PlanDesk.PlanTables.SelectSource | bff/admin-bff/src/routers/products.router.ts:1904-1926 | Finds the one version a draft is cloned from and the one with the highest number |
| PlanDesk.PlanTables.CreateDraftVersion | bff/admin-bff/src/routers/products.router.ts:1858-1974 | The tables end as specified, or the refusal leaves them as they were |
| PlanDesk.PlanTables.UpdateDraftVersion | bff/admin-bff/src/routers/products.router.ts:889-992 | The loop of upserts ends as specified, or a refusal in its middle leaves the tables as they were |
| PlanDesk.PlanTables.ReplaceBundledComponents | bff/admin-bff/src/routers/products.router.ts:1655-1720 | The delete and the loop of inserts end as specified, or the refusal leaves the tables as they were |
| PlanDesk.PlanTables.PublishPlanVersion | bff/admin-bff/src/routers/products.router.ts:996-1116 | The tables end as specified, or the refusal leaves them as they were |
| PlanDesk.PlanTables.DeletePlanVersion | bff/admin-bff/src/routers/products.router.ts:1143-1202 | The tables end as specified, or the refusal leaves them as they were |
| Billing.DeclaredLeg | bff/admin-bff/src/routers/orders.router.ts:245-253 | The newest leg still declared, if any |
| BillingBooks.ConfirmBooksExactly | bff/admin-bff/src/routers/orders.router.ts:240-302 | A confirm keeps paid = sum of paid legs and ledger = paid less voucher legs if and only if it settles no declared leg or one whose positive voucher amount has a credit voucher |
| BillingBooks.UnbackedCredentialLosesMoney | bff/admin-bff/src/routers/orders.router.ts:336-357 | A credential without a credit voucher settles a bill with money that is in no leg |
| BillingBooks.DeclareKeepsBooks | services/commerce/subscription/src/service/order.service.ts:516-698 | A customer declaration or voucher settlement keeps the books, and every credential it writes is backed |
| BillingBooks.LegOpsKeepBooks | bff/admin-bff/src/routers/payments.router.ts:141-199 | Order reject, ledger verify and ledger reject keep the books |
| BillingBooks.RunKeepsBooks | bff/admin-bff/src/routers/orders.router.ts:278-449 | In every run mixing all endpoints and the order service, a renewal at price zero included, paid = sum of paid legs and ledger = paid less voucher legs |
| BillingBooks.NewBillsAreBooked | bff/admin-bff/src/routers/billing.router.ts:1228-1239 | New orders and exception bills start with balanced books |
| BillingPrices.QuoteAddsUp | services/commerce/promotion/src/money/settlement-math.ts:78-111 | Discount, voucher and cash of a quote cover exactly the list price beyond what was paid |
| BillingPrices.UndeclaredConfirmSettlesInFull | bff/admin-bff/src/routers/orders.router.ts:229-269 | A confirm without a declared leg settles the bill exactly in full |
| BillingPrices.ConfirmSettlesInFull | bff/admin-bff/src/routers/orders.router.ts:438-460 | In every reachable state a confirm settles exactly in full, a declared leg and its voucher included |
| BillingPrices.RejectRestoresListPrice | bff/admin-bff/src/routers/orders.router.ts:603-644 | After a reject payable is the sum of the non-discount items, discount is 0, the bill is priced by its items, and no money moved |
| BillingPrices.RestorePricesExactly | services/commerce/subscription/src/repository/pg-order.repository.ts:1673-1737 | Reopening an order leaves its bill priced by its items if and only if the discounts ever withdrawn sum to 0 |
| BillingPrices.RestoredOrderIsNotPriced | services/commerce/subscription/src/repository/pg-order.repository.ts:1673-1737 | A new order declared with a discount, rejected, cancelled and restored asks the full price while its items come to less |
| BillingPrices.RunKeepsPrices | bff/admin-bff/src/routers/orders.router.ts:220-460 | Every run keeps the invariant of the order bill: total = payable = non-discount items less discount while open, one declared leg exactly while pending verification and covering what is outstanding, settled in full once paid |
| BillingPrices.OpenOrdersArePriced | bff/admin-bff/src/routers/billing.router.ts:733-752 | Through every endpoint but restore, while an order is open (or closed unpaid) total = payable = sum of live items and discount = what live discounts take off |
| BillingPrices.OrdersStaySound | services/commerce/subscription/src/repository/pg-order.repository.ts:313-462 | From a new order on, every run keeps the books and the bill invariant, and without a restore the open bill is priced by its items |
| BillingPrices.NewOrderIsPriced | services/commerce/subscription/src/repository/pg-order.repository.ts:313-462 | A new order starts priced by its items |
| BillingRetries.RetriesOnlyFulfil | bff/admin-bff/src/routers/orders.router.ts:220-227 | Once the money is in, further confirms change nothing but the order becoming fulfilled |
| BillingRetries.ConfirmsSettleOnce | bff/admin-bff/src/routers/orders.router.ts:220-493 | Any number of confirms, broken off anywhere between the stages, leave the bill, legs and ledger of the one first accepted; the order is fulfilled exactly when a second stage came through |
| BillingRetries.ExceptionBillsBalance | bff/admin-bff/src/routers/billing.router.ts:1198-1205 | Adjustment and supplement bills keep total = payable + discount in every run |
| BillingRetries.ExceptionBillStartsBalanced | bff/admin-bff/src/routers/billing.router.ts:245-312 | An exception bill is created exactly for a positive amount, balanced and priced by its one item |
| BillingRetries.DiscountKeepsFloorExactly | bff/admin-bff/src/routers/billing.router.ts:351-362 | An accepted discount leaves max(0, paid, invoiced) payable if and only if the bill had that much and the amount is within the stated maximum |
| BillingRetries.FloorKeptExactly | bff/admin-bff/src/routers/billing.router.ts:351-362 | Over any run of discounts payable never goes below that if and only if no accepted discount uses the one-cent tolerance |
| BillingRetries.DiscountedBelowZero | bff/admin-bff/src/routers/billing.router.ts:354-360 | A new bill discounted in full and then by one cent: both are accepted and payable is -1 |
| BillingRetries.DiscountsStayNearFloor | bff/admin-bff/src/routers/billing.router.ts:351-362 | n accepted discounts in a row take payable below max(0, paid, invoiced) by at most n cents |
| BillingRetries.RunsStayNearPaid | bff/admin-bff/src/routers/billing.router.ts:351-362 | Over any run on a bill without an order, ledger verifies, payment attempts and receipts included, n accepted discounts take payable below max(0, what was paid before) by at most n cents, and paid never falls |
| BillingRetries.OneCentDiscountsNeverStop | bff/admin-bff/src/routers/billing.router.ts:354-360 | The bound is met: below that maximum one-cent discounts are accepted without end |
| BillingOutcomes.ConfirmAcceptedExactly | bff/admin-bff/src/routers/orders.router.ts:186-302 | A confirm is accepted if and only if the order is open or paid and its bill not void, and the money is in already, or a complete request brings exactly what is outstanding, or what the newest declaration announced with vouchers that can be redeemed |
| BillingOutcomes.ConfirmedExactly | bff/admin-bff/src/routers/orders.router.ts:304-460 | It pays the newest declared leg or adds an offline one, adds a voucher leg where a credit voucher takes something off, books the cash, moves bill and order on when covered, and changes nothing else |
| BillingOutcomes.NewOrderIsPaid | bff/admin-bff/src/routers/orders.router.ts:174-493 | A new order confirmed offline for its price is accepted, settled, paid in full and then fulfilled |
| BillingOutcomes.DeclareAcceptedExactly | services/commerce/subscription/src/service/order.service.ts:516-698 | A declaration is taken if and only if order and bill are open and its discount does not go below what was paid; repeats are answered without effect |
| BillingOutcomes.DeclaredExactly | services/commerce/subscription/src/service/order.service.ts:516-698 | It charges the list price less the discount, covers what it can by voucher, and announces the rest as cash; with nothing left the order is paid |
| BillingOutcomes.DeclaredOrderIsPaid | bff/admin-bff/src/routers/orders.router.ts:304-493 | A new order declared with any discount and voucher and confirmed for the cash announced: each step is accepted, and it is paid at its discounted price, then fulfilled |
| BillingOutcomes.RejectedExactly | bff/admin-bff/src/routers/orders.router.ts:509-669 | A declaration is rejected if and only if it waits for verification with no voucher redeemed; its leg fails, its credential is released, and no money moves |
| BillingOutcomes.OrderStepsExactly | services/commerce/subscription/src/repository/pg-order.repository.ts:1595-1737 | When an order is cancelled, reopened, settled at price zero or fulfilled, and all each writes |
| BillingOutcomes.CancelThenRestore | services/commerce/subscription/src/repository/pg-order.repository.ts:1595-1737 | An unpaid order with no withdrawn discount that is cancelled and reopened is what it was |
| BillingOutcomes.LegActionsExactly | bff/admin-bff/src/routers/payments.router.ts:78-260 | Ledger verify and reject act if and only if the leg waits and no order is open; the whole amount comes in, or nothing |
| BillingOutcomes.BillActionsExactly | bff/admin-bff/src/routers/billing.router.ts:187-362 | When a bill is cancelled, marked overdue or discounted, by amounts, and the one thing each changes |
| BillingOutcomes.NewBillsAskFor | services/commerce/subscription/src/repository/pg-order.repository.ts:313-462 | A new order asks for its price less credit, an exception bill for its amount |
| BillingDesk.BillRows.ConfirmOfflinePayment | bff/admin-bff/src/routers/orders.router.ts:157-501 | Both stages: state and reply as specified, the first stage kept when the second fails |
| BillingDesk.BillRows.ConfirmStageOne | bff/admin-bff/src/routers/orders.router.ts:174-482 | The first stage ends as specified, or is rolled back |
| BillingDesk.BillRows.ConfirmDeclaredLeg | bff/admin-bff/src/routers/orders.router.ts:304-400 | Flipping the declared leg, writing the voucher leg and finalizing end as specified, or are rolled back |
| BillingDesk.BillRows.RejectPaymentDeclaration | bff/admin-bff/src/routers/orders.router.ts:509-669 | The rows end as specified, or the refusal leaves them as they were |
| BillingDesk.BillRows.CreateExceptionBill | bff/admin-bff/src/routers/billing.router.ts:245-312 | A new bill of its own, exactly for a positive amount |
| Subscriptions.OpenEpisode | bff/admin-bff/src/routers/subscriptions.router.ts:1353-1358 | The episode in progress, if any |
| SubscriptionHistory.StepInStepExactly | bff/admin-bff/src/routers/subscriptions.router.ts:279-359 | From a row in step (one episode open if and only if suspended or between the two transactions of the deadline job, remembering the renewal choice, which any other row in service carries) each step leads to a row in step if and only if it is not a sweep or a service cancel accepted on a suspended row |
| SubscriptionHistory.RunInStepExactly | services/commerce/subscription/src/service/subscription.service.ts:268-540 | So for every run: in step at its end, with the latest renewal choice made outside suspension, if and only if no such step was in it |
| SubscriptionHistory.StrandedForever | services/commerce/subscription/src/repository/pg-subscription.repository.ts:1432-1434 | A row left with an open episode outside suspension stays so in every run: the episode is never closed and every suspension is refused |
| SubscriptionHistory.FreshInStepExactly | bff/admin-bff/src/routers/subscriptions.router.ts:605-648 | All of it from the start; then, deadlines apart, suspended if and only if one episode is open, the latest renewal choice in force whenever neither suspended nor cancelled, and a history chaining from the first status to the present one |
| SubscriptionHistory.HistoryOnlyGrows | bff/admin-bff/src/routers/subscriptions.router.ts:1279-1291 | No run rewrites the history |
| SubscriptionHistory.HistoryChainsExactly | bff/admin-bff/src/routers/subscriptions.router.ts:1279-1291 | After any run the history chains from the first status to the present one if and only if no estimate edit was taken outside suspension |
| SubscriptionHistory.EstimateChainsExactly | bff/admin-bff/src/routers/subscriptions.router.ts:474-496 | An accepted estimate edit keeps the chain if and only if the row is suspended |
| SubscriptionHistory.GapBreaksHistory | services/commerce/subscription/src/service/subscription.service.ts:700-717 | A run from the start with an edit in the gap of the deadline job: the history of a cancelled subscription ends as if it were suspended |
| SubscriptionHistory.SweepStrands | services/commerce/subscription/src/repository/pg-subscription.repository.ts:561-603 | Every subscription paused for a violation, swept at its end and then renewed is active with its episode open and renewal off: suspensions are refused, and an estimate edit breaks the history |
| SubscriptionHistory.ServiceCancelStrands | services/commerce/subscription/src/service/subscription.service.ts:268-300 | Every subscription paused and then cancelled by its customer is cancelled with its episode open |
| SubscriptionHistory.ChoiceWhileSuspendedIsLost | services/commerce/subscription/src/service/subscription.service.ts:309-345 | A renewal choice set while suspended is accepted, and the resume puts back the one before |
| SubscriptionHistory.CancelledIsTerminal | bff/admin-bff/src/routers/subscriptions.router.ts:605-648 | After a cancel no run changes the status or the renewal, nor the history if and only if no estimate edit is taken, and none is once the episode is closed |
| SubscriptionHistory.RunKeepsEpisodes | bff/admin-bff/src/routers/subscriptions.router.ts:1336-1340 | Closed episodes never change but for being granted their days once |
| SubscriptionHistory.ResumeAcceptedExactly | bff/admin-bff/src/routers/subscriptions.router.ts:630-641 | A resume is accepted if and only if suspended and, for a pause given back, the term had not ended when it began; otherwise, has not ended now |
| SubscriptionHistory.LapsedExactly | services/commerce/subscription/src/repository/pg-subscription.repository.ts:561-603 | The sweep takes a row if and only if it is no trial, in service or suspended, outside its grace period, and past its end; while an open episode gives time back, if and only if it was past its end when that began |
| SubscriptionHistory.ExpiredOrOverdue | services/commerce/subscription/src/repository/pg-subscription.repository.ts:605-634 | Past its end an active or expiring subscription is expired or marked overdue, never both, and without an open episode one of them |
| SubscriptionHistory.SuspendAcceptedExactly | bff/admin-bff/src/routers/subscriptions.router.ts:620-629 | A suspension is accepted if and only if it has a reason, the status allows it, the slot is free and no episode is open; it opens one episode with the renewal in force, switches renewal off and moves no end date |
| SubscriptionHistory.CancelAcceptedExactly | bff/admin-bff/src/routers/subscriptions.router.ts:1262-1264 | A cancel is accepted if and only if not cancelled and not perpetual: its end date breaks the row constraint of a perpetual subscription |
| SubscriptionHistory.PerpetualCannotBeCancelled | deploy/database/ddl/50_metering.sql:59 | A perpetual subscription, just begun, whose cancel is refused |
| SubscriptionHistory.RenewExtends | bff/admin-bff/src/routers/subscriptions.router.ts:1250-1275 | A renewal is refused only when cancelled or the slot is taken; it moves the end strictly past the old end and now, turns a trial paid, restores the renewal choice of a row in step, and outside suspension leaves renewal as it is |
| SubscriptionHistory.GrantCovers | services/commerce/subscription/src/repository/pg-subscription.repository.ts:1086-1092 | A pause is given back in whole days, covering it by less than a day more; a violation gives nothing |
| SubscriptionHistory.PausesGivenBack | services/commerce/subscription/src/repository/pg-subscription.repository.ts:1065-1143 | From the start, over any run without a renewal or cancel, sweeps of suspended rows included, the settled end date is the first one plus exactly what every pause that was ended grants; settling again changes nothing |
| SubscriptionOutcomes.PauseEndsNow | bff/admin-bff/src/routers/subscriptions.router.ts:1336-1376 | Whatever leaves suspension ends the open episode at that instant and touches no other; only a suspension adds one |
| SubscriptionOutcomes.ActedExactly | bff/admin-bff/src/routers/subscriptions.router.ts:1250-1275 | Status, kind, end date and term after each accepted action, a renewal from the later of end and now |
| SubscriptionOutcomes.ActIsRecorded | bff/admin-bff/src/routers/subscriptions.router.ts:1279-1291 | One history row with the action and both statuses |
| SubscriptionOutcomes.ResumeRestoresChoice | bff/admin-bff/src/routers/subscriptions.router.ts:1353-1376 | A resume puts back the renewal choice its episode remembers |
| SubscriptionOutcomes.EstimateEditedExactly | bff/admin-bff/src/routers/subscriptions.router.ts:460-506 | An estimate is edited if and only if an episode is open, and only there |
| SubscriptionOutcomes.DeadlineExactly | services/commerce/subscription/src/service/subscription.service.ts:664-717 | The deadline resumes a pause that is given back with its renewal choice and cancels a violation, in one update that leaves the episode |
| SubscriptionOutcomes.DeadlineClosesNow | services/commerce/subscription/src/repository/pg-subscription.repository.ts:1233-1240 | Its second transaction ends the pause at its own instant |
| SubscriptionOutcomes.ServiceStepsExactly | services/commerce/subscription/src/service/subscription.service.ts:268-540 | When the service expires, cancels, marks and switches renewal, and all each writes |
| SubscriptionOutcomes.PauseMovesTheEnd | services/commerce/subscription/src/repository/pg-subscription.repository.ts:1065-1143 | Suspended at t0, resumed at t1 and settled, the end moves by whole days that cover t1 - t0 by less than a day more, and not at all after a violation |
| SubscriptionOutcomes.TenDaysGivenBack | services/commerce/subscription/src/repository/pg-subscription.repository.ts:1065-1143 | Ten days in the middle of a term of a hundred make it a hundred and ten |
| SubscriptionDesk.SubscriptionRows.UpdateRow | bff/admin-bff/src/routers/subscriptions.router.ts:1250-1275 | The row update and its history row, or a constraint breach that leaves both |
| SubscriptionDesk.SubscriptionRows.RunSubscriptionAction | bff/admin-bff/src/routers/subscriptions.router.ts:226-446 | Row, episodes and history end as specified, or the refusal leaves them as they were |
| SubscriptionDesk.SubscriptionRows.UpdateSuspensionEstimate | bff/admin-bff/src/routers/subscriptions.router.ts:460-506 | Only the estimate of the open episode and one history row change; refused without an open episode |
| VoucherIssuance.AssignKeepsStore | bff/admin-bff/src/routers/commercial.router.ts:197-304 | An assignment keeps rows = issued <= total, every user within the limit, and no ownerless voucher where the batch needs an owner |
| VoucherIssuance.AssignExactly | bff/admin-bff/src/routers/commercial.router.ts:197-304 | A request is granted if and only if well formed, for an active batch, with an owner where one is needed, and within what the user may hold and the batch has left; it adds exactly the vouchers asked for |
| VoucherIssuance.RevokeKeepsStore | bff/admin-bff/src/routers/commercial.router.ts:256-268 | Revoking keeps all of that, and its user holds one less |
| VoucherIssuance.NewBatchOk | bff/admin-bff/src/routers/commercial.router.ts:111-146 | A batch is created if and only if its total and limit are in range, the limit 1 by default, and starts so |
| VoucherIssuance.CommitIsOneAssign | bff/admin-bff/src/routers/commercial.router.ts:217-295 | A committing transaction amounts to one run of the handler on the tables as they are at that moment |
| VoucherIssuance.OnlyCommitShows | bff/admin-bff/src/routers/commercial.router.ts:217-295 | No other statement of a transaction shows in the tables |
| VoucherIssuance.InterleavingsKeepPromises | bff/admin-bff/src/routers/commercial.router.ts:217-303 | Under any interleaving of concurrent calls, aborts, revocations and status changes all of that holds |
| VoucherIssuance.BatchKeepsPromises | bff/admin-bff/src/routers/commercial.router.ts:111-146 | All of that from the creation of a batch on |
| VoucherIssuance.BeginsExactly | bff/admin-bff/src/routers/commercial.router.ts:197-216 | A call starts if and only if it asks for 1 to 200 vouchers for at most one kind of owner |
| VoucherIssuance.PermittedAdvances | bff/admin-bff/src/routers/commercial.router.ts:217-295 | At its turn a permitted transaction moves on by one statement, and the last commits what was asked |
| VoucherIssuance.OthersLeaveAlone | bff/admin-bff/src/routers/commercial.router.ts:217-295 | No other step but its own abort touches a transaction |
| VoucherIssuance.PermittedCommitsExactly | bff/admin-bff/src/routers/commercial.router.ts:217-303 | In any interleaving a transaction that stays permitted commits if and only if it gets as many turns as it has statements left |
| VoucherIssuance.VoucherTables.AssignVouchers | bff/admin-bff/src/routers/commercial.router.ts:197-304 | The counter and the loop of inserts end as specified, or the refusal leaves the tables as they were |
| RateWindows.ApplyKeepsHistory | bff/admin-bff/src/routers/credit-pricing.router.ts:345-374 | Applying a rate at e changes no price, scope or start, no closed window, and nothing in force before e |
| RateWindows.RunKeepsHistory | bff/admin-bff/src/routers/credit-pricing.router.ts:14-16 | So for any run of changes effective from some instant on |
| RateWindows.OneOpenEnd | bff/admin-bff/src/routers/credit-pricing.router.ts:210-212 | A tiled scope has exactly one open window, and the others end before it starts |
| RateWindows.RepriceExactly | bff/admin-bff/src/routers/credit-pricing.router.ts:345-374 | A change is refused if and only if its scope has a row from that instant; else one row with what was asked is added, and those open earlier in its scope end there |
| RateWindows.ScopeExactly | bff/admin-bff/src/routers/credit-pricing.router.ts:345-352 | A row is in the scope of a change if and only if provider and model agree, none being the empty text |
| RateWindows.FirstWindow | bff/admin-bff/src/routers/credit-pricing.router.ts:354-374 | The first rate of a scope is accepted and tiles it from its start |
| RateWindows.TilingKeptExactly | bff/admin-bff/src/routers/credit-pricing.router.ts:345-352 | An accepted change leaves its scope tiled if and only if it starts after the open window does |
| RateWindows.OtherScopesKept | bff/admin-bff/src/routers/credit-pricing.router.ts:346-349 | Other scopes keep their windows |
| RateWindows.OrderedChangesTile | bff/admin-bff/src/routers/credit-pricing.router.ts:345-374 | Applied in increasing order per scope no change is refused and every scope has disjoint windows, no gaps and one open end |
| RateWindows.OrderedFromScratch | bff/admin-bff/src/routers/credit-pricing.router.ts:345-374 | All of that from the empty table on |
| RateWindows.PriceInForceExactly | bff/admin-bff/src/routers/credit-pricing.router.ts:345-374 | After changes in order, the price in force at any instant is that of the latest change of the scope that has begun, and no other |
| RateWindows.OutOfOrderLeavesTwoOpen | bff/admin-bff/src/routers/credit-pricing.router.ts:345-352 | Two changes in the wrong order are both accepted, and the scope has two open windows and is not tiled |
| RateWindows.RateTable.ApplyRate | bff/admin-bff/src/routers/credit-pricing.router.ts:297-395 | The close loop and the insert end as specified, or the conflict leaves the rows as they were |
| RateWindows.RateTable.ListRates | bff/admin-bff/src/routers/credit-pricing.router.ts:203-219 | All rows, or exactly those in force, the most specific scope and the latest start first |
| RateWindows.ListedBySpecificity | bff/admin-bff/src/routers/credit-pricing.router.ts:203-219 | A rate for a model is listed first, then one for a provider, then the later start |
| OperatorExchange.KeysCollideExactly | bff/admin-bff/src/auth/operator-exchange.service.ts:48 | Two calls share a cache key if and only if they are the same, or a newline in an audience shifts text into the subject |
| OperatorExchange.PlainAudiencesNeverCollide | bff/admin-bff/src/auth/operator-exchange.service.ts:48 | Audiences without a newline never collide |
| OperatorExchange.NewlinesCollide | bff/admin-bff/src/auth/operator-exchange.service.ts:48 | A collision with a newline in the audience |
| OperatorExchange.RoomExactly | bff/admin-bff/src/auth/operator-exchange.service.ts:93-103 | Making room removes an entry if and only if the cache is full and the entry is expired, or nothing is and it is first |
| OperatorExchange.StoreExactly | bff/admin-bff/src/auth/operator-exchange.service.ts:93-108 | After a store the cache holds the new entry and of the others exactly those not evicted, unchanged, at most 256 with distinct keys |
| OperatorExchange.CacheStaysSound | bff/admin-bff/src/auth/operator-exchange.service.ts:93-108 | In whatever order in-flight calls complete: at most 256 entries, one a key, each the last one stored under it |
| OperatorExchange.HitIsLatest | bff/admin-bff/src/auth/operator-exchange.service.ts:48-52 | With audiences free of newlines, a hit is the token stored last for exactly that audience and subject, less than 240 s ago |
| OperatorExchange.LatestHeldExactly | bff/admin-bff/src/auth/operator-exchange.service.ts:93-108 | The last entry stored under a key is held if and only if no later store has evicted it |
| OperatorExchange.HitExactly | bff/admin-bff/src/auth/operator-exchange.service.ts:48-52 | A lookup hits if and only if the last token for that call is less than 240 s old and was never evicted, and the hit is that token |
| OperatorExchange.FewCallsAlwaysHit | bff/admin-bff/src/auth/operator-exchange.service.ts:48-108 | Until 256 tokens have been stored every call repeated within 240 s is a hit |
| OperatorExchange.TokenCache.CachedToken | bff/admin-bff/src/auth/operator-exchange.service.ts:48-52 | The cached token if there is an unexpired one |
| OperatorExchange.TokenCache.Remember | bff/admin-bff/src/auth/operator-exchange.service.ts:93-109 | The cache ends as specified |
| OperatorExchange.TokenCache.DropExpired | bff/admin-bff/src/auth/operator-exchange.service.ts:96-98 | Deleting while iterating leaves exactly the unexpired entries, in order |

## Left out

- HTTP, dependency injection, capability and step-up guards, audit rows, notifications and read-only projections; only the price gate, which decides what is stored, is modelled.
- Floating point: amounts are exact, so the tests for two decimals are on exact amounts, and a price that is no finite number is one value.
- The collation of the database: product codes are compared character by character.
- Concurrency of the plan handlers: publishing locks only the version row, so the claims across plans are for one handler at a time.
- PlanDesk.PlanTables.CreatePlan: the text checks of code and name are not modelled, because they decide only which requests reach the tables.
- Foreign keys of the plan tables: modelled only where a product is deleted, because the handlers' own guards are shown to suffice.
- Plan visibility, trial terms beyond copying them, solution contents and product edits other than their existence, layer and standalone flag.
- Orders with several bills: an order has one bill here, the one the handlers lock.
- BillingRetries.DiscountsStayNearFloor: a run of discounts only, because receipts set the invoiced amount anew; against what was paid RunsStayNearPaid covers every run.
- Refunds, invoice receipts beyond the amount invoiced, prepaid balances and the text fields of payments.
- Voucher reservation and redemption rows: the promotion service accepts or refuses, as a parameter.
- Percent discounts are given as the amount they come to, which the quote then caps at the list price.
- SubscriptionHistory.PausesGivenBack: runs without a renewal or cancel, because those set a new end date of their own.
- Calendar arithmetic: a cycle is any function from an instant to the end of its period; only RenewExtends asks it to advance.
- Product-wide maintenance windows, which suspend and resume in two transactions each; new terms, end dates and plan versions by order fulfilment, which leaves suspended rows alone; quota anchors.
- The end date of a trial and the length of the longest pause: the trial sweep and the deadline job may come at any time.
- VoucherIssuance.InterleavingsKeepPromises: one batch, because a voucher code clash between batches only aborts a transaction.
- Random voucher codes, transaction numbers and the effect of a voucher.
- The rate configuration row: a positive anchor is a condition of the pricing claims, because the text "00" passes the test for zero.
- Failed token exchanges and the request itself: they change nothing in the cache.
- Network proxies, dashboards, tenants, accounts, announcements and the solution status machine.
