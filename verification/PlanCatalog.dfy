/**
 * The plan and version tables and what each handler of the products router does to them.
 * A handler either answers with the next tables or refuses and leaves them as they were.
 */
module PlanCatalog {
  import opened Common

  type PlanId = nat
  type VersionId = nat

  datatype Tier = Free | Starter | Pro | Business | Enterprise

  /** `quota._pricing.consumable_share` as the JSON body may hold it. */
  datatype Share = Absent | PricingNotObject | NotANumber | Alpha(alpha: real)

  datatype Quota = Quota(share: Share, limits: map<string, int>)

  /** The component a version sells, and the components bundled into it: the rows of one table told
      apart by `component_role`. A check constraint gives primaries a tier and bundled rows none. */
  datatype Primary = Primary(product: string, tier: Tier, priority: int, features: seq<string>, quota: Quota)

  datatype Bundle = Bundle(product: string, priority: int, features: seq<string>, quota: Quota)

  datatype PriceKey = PriceKey(unit: string, count: nat, currency: string)

  datatype Version = Version(
    plan: PlanId, no: int, major: int, published: bool, locked: bool,
    primaries: seq<Primary>, bundles: seq<Bundle>, prices: map<PriceKey, int>, trial: Option<(string, nat)>)

  datatype Plan = Plan(code: string, current: Option<VersionId>, deprecated: bool, deleted: bool) {
    predicate Live() { !deprecated && !deleted }
  }

  datatype Product = Product(live: bool, standalone: bool, layer: Option<string>)

  /** Row ids are issued by `gen_random_uuid()`; a counter that never reissues stands for it. */
  datatype Catalog = Catalog(
    products: map<string, Product>,
    plans: map<PlanId, Plan>,
    versions: map<VersionId, Version>,
    subscriptions: map<nat, VersionId>,
    orders: map<nat, VersionId>,
    solutions: set<string>,
    bindings: map<(string, Tier), PlanId>,
    nextId: nat)

  const EMPTY := Catalog(map[], map[], map[], map[], map[], {}, map[], 0)

  predicate Has(c: Catalog, p: PlanId, v: VersionId) { v in c.versions && c.versions[v].plan == p }

  // ----- create plan -----

  predicate SellsProduct(v: Version, product: string) {
    exists i :: 0 <= i < |v.primaries| && v.primaries[i].product == product
  }

  predicate SellsSlot(v: Version, product: string, tier: Tier) {
    exists i :: 0 <= i < |v.primaries| && v.primaries[i].product == product && v.primaries[i].tier == tier
  }

  /** The version that stands for a plan on one product: the current one, else the newest. */
  predicate IsAxisVersion(c: Catalog, p: PlanId, product: string, v: VersionId) {
    && p in c.plans && Has(c, p, v) && SellsProduct(c.versions[v], product)
    && forall w :: w in c.versions && c.versions[w].plan == p && SellsProduct(c.versions[w], product) ==>
         w == v || c.plans[p].current == Some(v)
         || (c.plans[p].current != Some(w) && c.versions[w].no <= c.versions[v].no)
  }

  predicate TierOccupied(c: Catalog, product: string, tier: Tier) {
    exists p, v :: p in c.plans && v in c.versions
      && IsAxisVersion(c, p, product, v) && c.plans[p].Live() && SellsSlot(c.versions[v], product, tier)
  }

  function CreatePlan(c: Catalog, code: string, product: string, tier: Tier): Result<Catalog> {
    if product !in c.products || !c.products[product].live then Err(NotFound)
    else if !c.products[product].standalone then Err(BadRequest)
    else if TierOccupied(c, product, tier) then Err(Conflict)
    else if exists p :: p in c.plans && c.plans[p].code == code then Err(Conflict)
    else Ok(c.(plans := c.plans[c.nextId := Plan(code, None, false, false)],
               versions := c.versions[c.nextId + 1 := FirstVersion(c.nextId, product, tier)],
               nextId := c.nextId + 2))
  }

  function FirstVersion(p: PlanId, product: string, tier: Tier): Version {
    Version(p, 1, 1, false, false,
            [Primary(product, tier, 100, [], Quota(Absent, map[]))], [], map[], None)
  }

  // ----- open a draft -----

  predicate IsDraft(v: Version) { !v.published && !v.locked }

  /** The version a new draft is cloned from: the current one, else the newest. */
  predicate IsSource(c: Catalog, p: PlanId, v: VersionId) {
    && p in c.plans && Has(c, p, v)
    && forall w :: w in c.versions && c.versions[w].plan == p ==>
         w == v || c.plans[p].current == Some(v)
         || (c.plans[p].current != Some(w) && c.versions[w].no <= c.versions[v].no)
  }

  /** `SELECT max(version_no)` */
  predicate HasMaxNo(c: Catalog, p: PlanId, v: VersionId) {
    Has(c, p, v) && forall w :: w in c.versions && c.versions[w].plan == p ==> c.versions[w].no <= c.versions[v].no
  }

  predicate HasDraft(c: Catalog, p: PlanId) {
    exists v :: v in c.versions && c.versions[v].plan == p && IsDraft(c.versions[v])
  }

  ghost function CreateDraft(c: Catalog, p: PlanId, requestedMajor: Option<int>): Result<Catalog> {
    if requestedMajor.Some? && requestedMajor.value < 1 then Err(BadRequest)
    else if p !in c.plans || c.plans[p].deleted then Err(NotFound)
    else if HasDraft(c, p) then Err(Conflict)
    else if !(exists v, m :: IsSource(c, p, v) && HasMaxNo(c, p, m)) then Err(Conflict)
    else
      var v, m :| IsSource(c, p, v) && HasMaxNo(c, p, m);
      CloneFrom(c, v, c.versions[m].no + 1, requestedMajor)
  }

  function CloneFrom(c: Catalog, v: VersionId, no: int, requestedMajor: Option<int>): Result<Catalog>
    requires v in c.versions
  {
    var source := c.versions[v];
    if requestedMajor.Some? && requestedMajor.value < source.major then Err(BadRequest)
    else Ok(c.(versions := c.versions[c.nextId := Clone(source, no, requestedMajor)], nextId := c.nextId + 1))
  }

  function Clone(source: Version, no: int, requestedMajor: Option<int>): Version {
    source.(no := no, major := if requestedMajor.Some? then requestedMajor.value else source.major,
            published := false, locked := false)
  }

  // ----- edit a draft -----

  /** A price as submitted: a JavaScript number, or something `Number()` does not make finite. */
  datatype Submitted = NotFinite | Amount(yuan: real)

  datatype PriceEntry = PriceEntry(unit: string, price: Submitted)

  /** `Math.round(yuan * 100)` */
  function RoundCents(yuan: real): int { (yuan * 100.0 + 0.5).Floor }

  function PerCycle(unit: string): PriceKey { PriceKey(unit, 1, "CNY") }

  predicate SamePrice(stored: map<PriceKey, int>, e: PriceEntry) {
    PerCycle(e.unit) in stored && e.price.Amount? && stored[PerCycle(e.unit)] == RoundCents(e.price.yuan)
  }

  predicate ChangesPrice(stored: map<PriceKey, int>, entries: seq<PriceEntry>) {
    exists i :: 0 <= i < |entries| && !SamePrice(stored, entries[i])
  }

  predicate Acceptable(e: PriceEntry) {
    && (e.unit == "month" || e.unit == "year")
    && e.price.Amount? && e.price.yuan >= 0.0
    && RoundCents(e.price.yuan) as real == e.price.yuan * 100.0
  }

  function UpsertPrices(stored: map<PriceKey, int>, entries: seq<PriceEntry>): Result<map<PriceKey, int>>
    decreases entries
  {
    if entries == [] then Ok(stored)
    else if !Acceptable(entries[0]) then Err(BadRequest)
    else UpsertPrices(stored[PerCycle(entries[0].unit) := RoundCents(entries[0].price.yuan)], entries[1..])
  }

  predicate ShareAllowed(q: Quota) {
    q.share.Absent? || (q.share.Alpha? && 0.0 <= q.share.alpha <= 1.0)
  }

  function WithQuota(ps: seq<Primary>, q: Quota): seq<Primary> {
    seq(|ps|, i requires 0 <= i < |ps| => ps[i].(quota := q))
  }

  function UpdateDraft(c: Catalog, v: VersionId, mayPrice: bool,
                       prices: Option<seq<PriceEntry>>, quota: Option<Quota>): Result<Catalog> {
    if v !in c.versions then Err(NotFound)
    else if c.versions[v].published || c.versions[v].locked then Err(BadRequest)
    else
      var draft := c.versions[v];
      if prices.Some? && ChangesPrice(draft.prices, prices.value) && !mayPrice then Err(Forbidden)
      else
        var upserted := if prices.Some? then UpsertPrices(draft.prices, prices.value) else Ok(draft.prices);
        if upserted.Err? then Err(upserted.error)
        else if quota.Some? && !ShareAllowed(quota.value) then Err(BadRequest)
        else
          var primaries := if quota.Some? then WithQuota(draft.primaries, quota.value) else draft.primaries;
          Ok(c.(versions := c.versions[v := draft.(prices := upserted.value, primaries := primaries)]))
  }

  // ----- replace the bundled components of a draft -----

  datatype BundledItem = BundledItem(product: string, quota: Quota, features: seq<string>, priority: Option<int>)

  const MAX_BUNDLED := 64
  const DEFAULT_BUNDLED_PRIORITY := 50

  predicate ItemsWellFormed(items: seq<BundledItem>) {
    && |items| <= MAX_BUNDLED
    && (forall i :: 0 <= i < |items| ==> items[i].product != "")
    && (forall i :: 0 <= i < |items| ==> (items[i].priority.Some? ==> items[i].priority.value >= 0))
    && (forall i, j :: 0 <= i < j < |items| ==> items[i].product != items[j].product)
  }

  function ResolvedPriority(item: BundledItem): int {
    if item.priority.Some? then item.priority.value else DEFAULT_BUNDLED_PRIORITY
  }

  function BundleOf(item: BundledItem): Bundle {
    Bundle(item.product, ResolvedPriority(item), item.features, item.quota)
  }

  function ResolveItem(products: map<string, Product>, item: BundledItem, primary: Option<Primary>): Result<Bundle> {
    if primary.Some? && item.product == primary.value.product then Err(BadRequest)
    else if item.product !in products || !products[item.product].live then Err(NotFound)
    else if products[item.product].layer != Some("L2") then Err(BadRequest)
    else if primary.Some? && ResolvedPriority(item) >= primary.value.priority then Err(BadRequest)
    else Ok(BundleOf(item))
  }

  /** Items are resolved in order; the first refusal wins. */
  function ResolveItems(products: map<string, Product>, items: seq<BundledItem>,
       primary: Option<Primary>): Result<seq<Bundle>> {
    if items == [] then Ok([])
    else
      match ResolveItem(products, items[0], primary)
      case Err(e) => Err(e)
      case Ok(k) =>
        match ResolveItems(products, items[1..], primary)
        case Err(e) => Err(e)
        case Ok(ks) => Ok([k] + ks)
  }

  function PrimaryOf(v: Version): Option<Primary> {
    if v.primaries == [] then None else Some(v.primaries[0])
  }

  function ReplaceBundled(c: Catalog, v: VersionId, items: seq<BundledItem>): Result<Catalog> {
    if !ItemsWellFormed(items) then Err(BadRequest)
    else if v !in c.versions then Err(NotFound)
    else if c.versions[v].published || c.versions[v].locked then Err(Conflict)
    else
      match ResolveItems(c.products, items, PrimaryOf(c.versions[v]))
      case Err(e) => Err(e)
      case Ok(ks) =>
        Ok(c.(versions := c.versions[v := c.versions[v].(bundles := ks)]))
  }

  // ----- publish, delete, deprecate -----

  /** Another live plan's current published version already sells this slot. */
  predicate TierClash(c: Catalog, v: VersionId)
    requires v in c.versions
  {
    var primary := PrimaryOf(c.versions[v]);
    primary.Some? &&
    exists q :: q in c.plans && q != c.versions[v].plan && c.plans[q].Live()
      && c.plans[q].current.Some? && c.plans[q].current.value in c.versions
      && c.versions[c.plans[q].current.value].published
      && SellsSlot(c.versions[c.plans[q].current.value], primary.value.product, primary.value.tier)
  }

  function Publish(c: Catalog, v: VersionId): Result<Catalog> {
    if v !in c.versions || c.versions[v].plan !in c.plans then Err(NotFound)
    else if c.versions[v].published then Err(BadRequest)
    else if TierClash(c, v) then Err(Conflict)
    else
      var p := c.versions[v].plan;
      Ok(c.(versions := c.versions[v := c.versions[v].(published := true, locked := true)],
            plans := c.plans[p := c.plans[p].(current := Some(v))]))
  }

  function DeleteVersion(c: Catalog, v: VersionId): Result<Catalog> {
    if v !in c.versions || c.versions[v].plan !in c.plans then Err(NotFound)
    else if c.versions[v].published || c.versions[v].locked then Err(Conflict)
    else if c.plans[c.versions[v].plan].current == Some(v) then Err(Conflict)
    else if forall w :: w in c.versions && c.versions[w].plan == c.versions[v].plan ==> w == v then Err(Conflict)
    else Ok(c.(versions := c.versions - {v}))
  }

  /** `readPlanDeletionImpact`: every version counts, not just the current one. */
  predicate Deletable(c: Catalog, p: PlanId) {
    && (forall s :: s in c.subscriptions ==> !Has(c, p, c.subscriptions[s]))
    && (forall o :: o in c.orders ==> !Has(c, p, c.orders[o]))
    && (forall slot :: slot in c.bindings ==> c.bindings[slot] != p)
  }

  function VersionsExcept(versions: map<VersionId, Version>, p: PlanId): map<VersionId, Version> {
    map v | v in versions && versions[v].plan != p :: versions[v]
  }

  function DeletePlan(c: Catalog, p: PlanId, confirm: bool): Result<Catalog> {
    if !confirm then Err(BadRequest)
    else if p !in c.plans || c.plans[p].deleted then Err(NotFound)
    else if !Deletable(c, p) then Err(Conflict)
    else Ok(c.(plans := c.plans - {p}, versions := VersionsExcept(c.versions, p)))
  }

  function Deprecate(c: Catalog, p: PlanId): Result<Catalog> {
    if p !in c.plans || c.plans[p].deleted then Err(NotFound)
    else if c.plans[p].deprecated then Err(BadRequest)
    else Ok(c.(plans := c.plans[p := c.plans[p].(deprecated := true)]))
  }

  // ----- bind a plan to a solution tier -----

  function Bind(c: Catalog, solution: string, tier: Tier, p: PlanId): Result<Catalog> {
    if solution !in c.solutions then Err(NotFound)
    else if p !in c.plans || c.plans[p].deleted then Err(NotFound)
    else if exists slot :: slot in c.bindings && c.bindings[slot] == p && slot != (solution, tier) then Err(Conflict)
    else Ok(c.(bindings := c.bindings[(solution, tier) := p]))
  }

  function Unbind(c: Catalog, solution: string, tier: Tier): Result<Catalog> {
    if solution !in c.solutions then Err(NotFound)
    else if (solution, tier) !in c.bindings then Err(NotFound)
    else Ok(c.(bindings := c.bindings - {(solution, tier)}))
  }

  // ----- delete a product -----

  predicate BelongsTo(c: Catalog, p: PlanId, product: string) {
    exists v :: v in c.versions && c.versions[v].plan == p && SellsProduct(c.versions[v], product)
  }

  predicate Bundles(v: Version, product: string) {
    exists i :: 0 <= i < |v.bundles| && v.bundles[i].product == product
  }

  /** The product catalogue deletes a product with the plans that sell it. Foreign keys stop it where a
      subscription, an order or a binding holds one of them, or another plan bundles the product. */
  function DropProduct(c: Catalog, product: string): Result<Catalog> {
    if product !in c.products then Err(NotFound)
    else if exists p :: p in c.plans && BelongsTo(c, p, product) && !Deletable(c, p) then Err(Conflict)
    else if exists v :: v in c.versions && !BelongsTo(c, c.versions[v].plan, product) && Bundles(c.versions[v], product)
    then Err(Conflict)
    else Ok(c.(products := c.products - {product},
               plans := map p | p in c.plans && !BelongsTo(c, p, product) :: c.plans[p],
               versions := map v | v in c.versions && !BelongsTo(c, c.versions[v].plan, product) :: c.versions[v]))
  }

  // ----- runs -----

  /** One request to the router, or one step of a part of the platform that is not modelled here:
      products are registered, changed or deleted with their plans, solutions come and go, a plan carries a
      soft-delete mark,
      and customers order a published version, or a subscription starts on or moves to one. */
  datatype Op =
    | OpCreatePlan(code: string, product: string, tier: Tier)
    | OpCreateDraft(plan: PlanId, major: Option<int>)
    | OpUpdateDraft(version: VersionId, mayPrice: bool, prices: Option<seq<PriceEntry>>, quota: Option<Quota>)
    | OpReplaceBundled(version: VersionId, items: seq<BundledItem>)
    | OpPublish(version: VersionId)
    | OpDeleteVersion(version: VersionId)
    | OpDeletePlan(plan: PlanId, confirm: bool)
    | OpDeprecate(plan: PlanId)
    | OpBind(solution: string, slot: Tier, plan: PlanId)
    | OpUnbind(solution: string, slot: Tier)
    | EnvProduct(code: string, row: Product)
    | EnvDropProduct(product: string)
    | EnvSolution(solution: string)
    | EnvDropSolution(solution: string)
    | EnvSoftDelete(plan: PlanId)
    | EnvSubscribe(subscription: nat, version: VersionId)
    | EnvOrder(order: nat, version: VersionId)

  ghost function Attempt(c: Catalog, op: Op): Result<Catalog> {
    match op
    case OpCreatePlan(code, product, tier) => CreatePlan(c, code, product, tier)
    case OpCreateDraft(p, major) => CreateDraft(c, p, major)
    case OpUpdateDraft(v, mayPrice, prices, quota) => UpdateDraft(c, v, mayPrice, prices, quota)
    case OpReplaceBundled(v, items) => ReplaceBundled(c, v, items)
    case OpPublish(v) => Publish(c, v)
    case OpDeleteVersion(v) => DeleteVersion(c, v)
    case OpDeletePlan(p, confirm) => DeletePlan(c, p, confirm)
    case OpDeprecate(p) => Deprecate(c, p)
    case OpBind(solution, tier, p) => Bind(c, solution, tier, p)
    case OpUnbind(solution, tier) => Unbind(c, solution, tier)
    case EnvProduct(code, row) => Ok(c.(products := c.products[code := row]))
    case EnvDropProduct(product) => DropProduct(c, product)
    case EnvSolution(s) => Ok(c.(solutions := c.solutions + {s}))
    case EnvDropSolution(s) =>
      Ok(c.(solutions := c.solutions - {s},
            bindings := map slot | slot in c.bindings && slot.0 != s :: c.bindings[slot]))
    case EnvSoftDelete(p) =>
      if p in c.plans then Ok(c.(plans := c.plans[p := c.plans[p].(deleted := true)])) else Err(NotFound)
    case EnvSubscribe(s, v) =>
      if v in c.versions && c.versions[v].published then Ok(c.(subscriptions := c.subscriptions[s := v]))
      else Err(Conflict)
    case EnvOrder(o, v) =>
      if o !in c.orders && v in c.versions && c.versions[v].published then Ok(c.(orders := c.orders[o := v]))
      else Err(Conflict)
  }

  /** A refused request is rolled back. */
  ghost function Apply(c: Catalog, op: Op): Catalog {
    match Attempt(c, op)
    case Ok(next) => next
    case Err(_) => c
  }

  ghost function Run(c: Catalog, ops: seq<Op>): Catalog
    decreases ops
  {
    if ops == [] then c else Run(Apply(c, ops[0]), ops[1..])
  }
}
