/** Which requests the plan handlers accept, and the rows an accepted one leaves, read off the tables. */
module PlanOutcomes {
  import opened Common
  import opened PlanCatalog
  import opened PlanInvariant
  import opened PlanTheorems

  /** Only this version's row is another one. */
  ghost predicate OnlyVersion(c: Catalog, n: Catalog, v: VersionId) {
    && v in c.versions && v in n.versions && n == c.(versions := n.versions)
    && n.versions == c.versions[v := n.versions[v]]
  }

  predicate Editable(c: Catalog, v: VersionId) {
    v in c.versions && !c.versions[v].published && !c.versions[v].locked
  }

  // ----- create a plan -----

  /** A plan is created exactly for a live standalone product, a code nobody has, and a tier no plan on sale sells. */
  lemma PlanCreatedExactly(c: Catalog, code: string, product: string, tier: Tier)
    requires Inv(c)
    ensures CreatePlan(c, code, product, tier).Ok? <==>
      && product in c.products && c.products[product].live && c.products[product].standalone
      && (forall p :: p in c.plans ==> c.plans[p].code != code)
      && (forall w :: OnSale(c.plans, c.versions, w) ==> Slot(c.versions[w]) != Some((product, tier)))
  {
    OccupiedExactly(c, product, tier);
    hide Inv, TierOccupied, Slot, OnSale;
  }

  /** It adds one plan row and one version: an unpublished 1 of major 1 that sells the product at that tier with
      priority 100, and nothing else. */
  lemma CreatedPlan(c: Catalog, code: string, product: string, tier: Tier)
    requires Inv(c) && CreatePlan(c, code, product, tier).Ok?
    ensures
      var n, p, v := CreatePlan(c, code, product, tier).value, c.nextId, c.nextId + 1;
      && p !in c.plans && v !in c.versions
      && n == c.(plans := c.plans[p := Plan(code, None, false, false)], versions := n.versions, nextId := v + 1)
      && n.versions == c.versions[v := Version(p, 1, 1, false, false,
                                             [Primary(product, tier, 100, [], Quota(Absent, map[]))],
                                             [], map[], None)]
  {
    FreshIds(c);
    hide Inv, TierOccupied, FirstVersion;
    FirstRow(c.nextId, product, tier);
  }

  lemma FirstRow(p: PlanId, product: string, tier: Tier)
    ensures
      FirstVersion(p, product, tier)
        == Version(p, 1, 1, false, false, [Primary(product, tier, 100, [], Quota(Absent, map[]))], [], map[], None)
  {
  }

  // ----- open a draft -----

  /** The draft carries over all its source has, under the next number. */
  ghost predicate DraftOf(c: Catalog, n: Catalog, p: PlanId, source: VersionId, newest: VersionId,
                          major: Option<int>) {
    && source in c.versions && newest in c.versions && c.nextId !in c.versions && c.nextId in n.versions
    && n == c.(versions := n.versions, nextId := c.nextId + 1)
    && n.versions == c.versions[c.nextId := n.versions[c.nextId]]
    && (var draft, from := n.versions[c.nextId], c.versions[source];
        && draft.plan == p && !draft.published && !draft.locked && draft.no == c.versions[newest].no + 1
        && draft.major == (if major.Some? then major.value else from.major)
        && draft.primaries == from.primaries && draft.bundles == from.bundles
        && draft.prices == from.prices && draft.trial == from.trial)
  }

  /** An accepted request adds one row: components, prices and trial of the current version, or else of the newest. */
  lemma DraftCarriesOver(c: Catalog, p: PlanId, major: Option<int>)
    returns (source: VersionId, newest: VersionId)
    requires Inv(c) && CreateDraft(c, p, major).Ok?
    ensures IsSource(c, p, source) && HasMaxNo(c, p, newest)
    ensures DraftOf(c, CreateDraft(c, p, major).value, p, source, newest, major)
  {
    hide CreateDraft, CloneFrom, DraftOf, IsSource, HasMaxNo;
    FreshIds(c);
    hide Inv;
    source, newest := ChosenSource(c, p, major);
    SourceOf(c, p, source, newest);
    CloneCarriesOver(c, p, source, newest, major);
  }

  lemma ChosenSource(c: Catalog, p: PlanId, major: Option<int>) returns (source: VersionId, newest: VersionId)
    requires CreateDraft(c, p, major).Ok?
    ensures IsSource(c, p, source) && HasMaxNo(c, p, newest) && source in c.versions && newest in c.versions
    ensures CreateDraft(c, p, major) == CloneFrom(c, source, c.versions[newest].no + 1, major)
  {
    hide HasDraft, CloneFrom;
    source, newest :| IsSource(c, p, source) && HasMaxNo(c, p, newest)
      && CreateDraft(c, p, major) == CloneFrom(c, source, c.versions[newest].no + 1, major);
  }

  lemma SourceOf(c: Catalog, p: PlanId, source: VersionId, newest: VersionId)
    requires IsSource(c, p, source) && HasMaxNo(c, p, newest)
    ensures Has(c, p, source) && Has(c, p, newest)
  {
  }

  lemma CloneCarriesOver(c: Catalog, p: PlanId, source: VersionId, newest: VersionId, major: Option<int>)
    requires Has(c, p, source) && newest in c.versions && c.nextId !in c.versions
    requires CloneFrom(c, source, c.versions[newest].no + 1, major).Ok?
    ensures DraftOf(c, CloneFrom(c, source, c.versions[newest].no + 1, major).value, p, source, newest, major)
  {
  }

  /** Publishing a draft and opening the next reproduces it: same components, prices and trial, the next number. */
  lemma NextDraftReproduces(c: Catalog, v: VersionId)
    requires Inv(c) && v in c.versions && Publish(c, v).Ok? && !c.plans[c.versions[v].plan].deleted
    ensures
      var p, m := c.versions[v].plan, Publish(c, v).value;
      && CreateDraft(m, p, None).Ok?
      && DraftOf(m, CreateDraft(m, p, None).value, p, v, v, None)
      && m.versions[v] == c.versions[v].(published := true, locked := true)
  {
    var p, m := c.versions[v].plan, Publish(c, v).value;
    PublishedExactly(c, v);
    PublishKeeps(c, v);
    NoDraftAfterPublish(c, v);
    hide Inv, Publish;
    DraftOpenedExactly(m, p, None);
    var source, newest := DraftCarriesOver(m, p, None);
    CurrentIsMaximal(m, p, v);
    NumbersOf(m);
    OnlySource(m, p, source, v);
    OnlySource(m, p, newest, v);
    hide CreateDraft, IsSource, HasMaxNo, HasDraft, NumbersOk;
  }

  lemma NumbersOf(c: Catalog)
    requires Inv(c)
    ensures NumbersOk(c.versions)
  {
  }

  lemma NoDraftAfterPublish(c: Catalog, v: VersionId)
    requires Inv(c) && Publish(c, v).Ok?
    ensures !HasDraft(Publish(c, v).value, c.versions[v].plan)
  {
    var m := Publish(c, v).value;
    forall w | w in m.versions && m.versions[w].plan == c.versions[v].plan ensures !IsDraft(m.versions[w]) {
      assert w != v ==> SiblingsOk(c.versions[v], c.versions[w]);
    }
  }

  lemma CurrentIsMaximal(c: Catalog, p: PlanId, v: VersionId)
    requires Inv(c) && p in c.plans && c.plans[p].current == Some(v) && !HasDraft(c, p)
    ensures IsSource(c, p, v) && HasMaxNo(c, p, v)
  {
    forall w | w in c.versions && c.versions[w].plan == p ensures c.versions[w].no <= c.versions[v].no {
      assert VersionOk(c.versions[w]) && !IsDraft(c.versions[w]);
      assert NotAhead(c.plans, c.versions, w);
    }
    assert Has(c, p, v);
  }

  // ----- edit a draft -----

  predicate InUnitRange(q: Quota) { q.share == Absent || (q.share.Alpha? && 0.0 <= q.share.alpha <= 1.0) }

  /** A monthly or yearly price of a whole number of cents, zero included. */
  predicate InCents(e: PriceEntry) {
    && (e.unit == "month" || e.unit == "year") && e.price.Amount?
    && e.price.yuan >= 0.0 && (e.price.yuan * 100.0).Floor as real == e.price.yuan * 100.0
  }

  lemma AcceptableExactly(e: PriceEntry)
    ensures Acceptable(e) <==> InCents(e)
  {
    if e.price.Amount? { WholeRounds(e.price.yuan * 100.0); }
  }

  lemma WholeRounds(x: real)
    ensures (x + 0.5).Floor as real == x <==> x.Floor as real == x
  {
    var near, below := (x + 0.5).Floor, x.Floor;
    if near as real == x {
      assert below as real <= near as real < (below + 1) as real;
      assert near == below;
    }
    if below as real == x {
      assert near as real <= below as real + 0.5 < (near + 1) as real;
      assert near == below;
    }
  }

  /** The price submitted is, to the cent, the one stored. */
  predicate AsStored(stored: map<PriceKey, int>, e: PriceEntry) {
    var key := PriceKey(e.unit, 1, "CNY");
    key in stored && e.price.Amount? && stored[key] as real == e.price.yuan * 100.0
  }

  /** An edit is accepted exactly on an editable version, with a price list every entry of which may be stored and,
      without the price right, is stored already, and a share that is absent or between 0 and 1. */
  lemma DraftEditedExactly(c: Catalog, v: VersionId, mayPrice: bool, prices: Option<seq<PriceEntry>>,
                           quota: Option<Quota>)
    ensures UpdateDraft(c, v, mayPrice, prices, quota).Ok? <==>
      && Editable(c, v)
      && (prices.Some? ==> forall i :: 0 <= i < |prices.value| ==>
            InCents(prices.value[i]) && (mayPrice || AsStored(c.versions[v].prices, prices.value[i])))
      && (quota.Some? ==> InUnitRange(quota.value))
  {
    if v in c.versions && prices.Some? {
      UpsertExact(c.versions[v].prices, prices.value);
      forall i | 0 <= i < |prices.value|
        ensures Acceptable(prices.value[i]) <==> InCents(prices.value[i])
        ensures InCents(prices.value[i]) ==>
          (SamePrice(c.versions[v].prices, prices.value[i]) <==> AsStored(c.versions[v].prices, prices.value[i]))
      {
        AcceptableExactly(prices.value[i]);
      }
    }
    hide Acceptable, UpsertPrices, RoundCents, WithQuota, InCents, SamePrice, AsStored;
  }

  /** Per cycle the price submitted last, to the cent; the other prices as they were. */
  ghost predicate PricesStored(before: map<PriceKey, int>, entries: seq<PriceEntry>, after: map<PriceKey, int>) {
    && (forall i, unit :: 0 <= i && IsLastFor(entries, i, unit) ==>
          PriceKey(unit, 1, "CNY") in after && entries[i].price.Amount?
          && after[PriceKey(unit, 1, "CNY")] as real == entries[i].price.yuan * 100.0)
    && (forall k :: (forall i :: 0 <= i < |entries| ==> PriceKey(entries[i].unit, 1, "CNY") != k) ==>
          (k in after <==> k in before) && (k in before ==> after[k] == before[k]))
  }

  /** What an accepted edit leaves: that one version, with the prices submitted and the quota on its components. */
  lemma EditedDraft(c: Catalog, v: VersionId, mayPrice: bool, prices: Option<seq<PriceEntry>>, quota: Option<Quota>)
    requires UpdateDraft(c, v, mayPrice, prices, quota).Ok?
    ensures
      var n := UpdateDraft(c, v, mayPrice, prices, quota).value;
      && OnlyVersion(c, n, v)
      && (var before, after := c.versions[v], n.versions[v];
          && after == before.(prices := after.prices, primaries := after.primaries)
          && (if prices.Some? then PricesStored(before.prices, prices.value, after.prices)
              else after.prices == before.prices)
          && |after.primaries| == |before.primaries|
          && (forall k :: 0 <= k < |before.primaries| ==>
                after.primaries[k] == if quota.Some? then before.primaries[k].(quota := quota.value)
                                      else before.primaries[k]))
  {
    EditShape(c, v, mayPrice, prices, quota);
    if prices.Some? { UpsertedPrices(c.versions[v].prices, prices.value); }
    hide UpdateDraft, PricesStored, OnlyVersion, UpsertPrices;
  }

  lemma EditShape(c: Catalog, v: VersionId, mayPrice: bool, prices: Option<seq<PriceEntry>>, quota: Option<Quota>)
    requires UpdateDraft(c, v, mayPrice, prices, quota).Ok?
    ensures
      var n := UpdateDraft(c, v, mayPrice, prices, quota).value;
      && OnlyVersion(c, n, v)
      && n.versions[v] == c.versions[v].(prices := n.versions[v].prices, primaries := n.versions[v].primaries)
      && (if prices.Some? then UpsertPrices(c.versions[v].prices, prices.value) == Ok(n.versions[v].prices)
          else n.versions[v].prices == c.versions[v].prices)
      && n.versions[v].primaries == if quota.Some? then WithQuota(c.versions[v].primaries, quota.value)
                                    else c.versions[v].primaries
  {
    hide UpsertPrices, ChangesPrice, ShareAllowed, WithQuota;
  }

  lemma UpsertedPrices(before: map<PriceKey, int>, entries: seq<PriceEntry>)
    requires UpsertPrices(before, entries).Ok?
    ensures PricesStored(before, entries, UpsertPrices(before, entries).value)
  {
    UpsertExact(before, entries);
    hide UpsertPrices, RoundCents;
  }

  // ----- bundled components -----

  function PriorityOf(item: BundledItem): int { if item.priority.Some? then item.priority.value else 50 }

  /** The list is accepted exactly on an editable version, with at most 64 distinct named products, each a live L2
      product that is not the primary and burns before it, 50 where no priority is given. */
  lemma BundlesReplacedExactly(c: Catalog, v: VersionId, items: seq<BundledItem>)
    requires Inv(c)
    ensures ReplaceBundled(c, v, items).Ok? <==>
      && Editable(c, v) && |items| <= 64
      && (forall i, j :: 0 <= i < j < |items| ==> items[i].product != items[j].product)
      && (forall i :: 0 <= i < |items| ==> BurnsFirst(c, c.versions[v], items[i]))
  {
    hide ReplaceBundled, ResolveItems, Bundleable, BurnsFirst, ItemsWellFormed, Inv;
    ReplacedUnless(c, v, items);
    if v in c.versions {
      OnePrimary(c, v);
      ResolvedExactly(c.products, items, PrimaryOf(c.versions[v]));
      ItemsTogether(c, c.versions[v], items);
    }
  }

  lemma ReplacedUnless(c: Catalog, v: VersionId, items: seq<BundledItem>)
    ensures ReplaceBundled(c, v, items).Ok? <==>
      ItemsWellFormed(items) && Editable(c, v) && ResolveItems(c.products, items, PrimaryOf(c.versions[v])).Ok?
  {
    hide ItemsWellFormed, ResolveItems;
  }

  predicate AllBundleable(c: Catalog, v: Version, items: seq<BundledItem>) {
    forall i :: 0 <= i < |items| ==> Bundleable(c.products, items[i], PrimaryOf(v))
  }

  lemma ItemsTogether(c: Catalog, v: Version, items: seq<BundledItem>)
    requires |v.primaries| == 1
    ensures ItemsWellFormed(items) && AllBundleable(c, v, items) <==>
      && |items| <= 64 && (forall i, j :: 0 <= i < j < |items| ==> items[i].product != items[j].product)
      && (forall i :: 0 <= i < |items| ==> BurnsFirst(c, v, items[i]))
  {
    forall i | 0 <= i < |items| ensures BurnsFirst(c, v, items[i]) <==>
        && items[i].product != "" && (items[i].priority.Some? ==> items[i].priority.value >= 0)
        && Bundleable(c.products, items[i], PrimaryOf(v))
    {
    }
    hide Bundleable, BurnsFirst;
  }

  /** A live L2 product, not the one the version sells, with a priority below its. */
  predicate BurnsFirst(c: Catalog, v: Version, item: BundledItem) {
    && v.primaries != [] && item.product != "" && item.product != v.primaries[0].product
    && 0 <= PriorityOf(item) < v.primaries[0].priority
    && item.product in c.products && c.products[item.product].live && c.products[item.product].layer == Some("L2")
  }

  lemma OnePrimary(c: Catalog, v: VersionId)
    requires Inv(c) && v in c.versions
    ensures |c.versions[v].primaries| == 1
  {
    assert VersionOk(c.versions[v]);
  }

  /** Then the bundled rows are those items in their order, and nothing else is changed. */
  lemma ReplacedByItems(c: Catalog, v: VersionId, items: seq<BundledItem>)
    requires Inv(c) && ReplaceBundled(c, v, items).Ok?
    ensures
      var n := ReplaceBundled(c, v, items).value;
      && OnlyVersion(c, n, v)
      && n.versions[v] == c.versions[v].(bundles := n.versions[v].bundles) && |n.versions[v].bundles| == |items|
      && forall i :: 0 <= i < |items| ==>
           n.versions[v].bundles[i] == Bundle(items[i].product, PriorityOf(items[i]), items[i].features, items[i].quota)
  {
    assert VersionOk(c.versions[v]);
    ReplacedBundles(c, v, items);
    hide Inv, ReplaceBundled, VersionOk;
  }

  // ----- publish, deprecate, delete -----

  /** Publishing locks the version and makes it the current one of its plan; no other row is touched. */
  lemma PublishedExactly(c: Catalog, v: VersionId)
    requires Publish(c, v).Ok?
    ensures
      var n, p := Publish(c, v).value, c.versions[v].plan;
      && OnlyVersion(c.(plans := n.plans), n, v) && p in c.plans
      && n.versions[v] == c.versions[v].(published := true, locked := true)
      && n.plans == c.plans[p := c.plans[p].(current := Some(v))]
  {
    hide TierClash;
  }

  /** A version row goes alone. */
  lemma DeletedVersion(c: Catalog, v: VersionId)
    requires DeleteVersion(c, v).Ok?
    ensures
      var n := DeleteVersion(c, v).value;
      && n == c.(versions := n.versions) && n.versions.Keys == c.versions.Keys - {v}
      && forall w :: w in n.versions ==> n.versions[w] == c.versions[w]
  {
  }

  /** A plan is deleted exactly when confirmed, there, and held by no subscription, order or solution through any of
      its versions; it goes with its versions and nothing else does. */
  lemma PlanDeletedExactly(c: Catalog, p: PlanId, confirm: bool)
    ensures DeletePlan(c, p, confirm).Ok? <==>
      && confirm && p in c.plans && !c.plans[p].deleted
      && (forall s :: s in c.subscriptions && c.subscriptions[s] in c.versions ==>
            c.versions[c.subscriptions[s]].plan != p)
      && (forall o :: o in c.orders && c.orders[o] in c.versions ==> c.versions[c.orders[o]].plan != p)
      && (forall slot :: slot in c.bindings ==> c.bindings[slot] != p)
    ensures DeletePlan(c, p, confirm).Ok? ==>
      var n := DeletePlan(c, p, confirm).value;
      && n == c.(plans := n.plans, versions := n.versions)
      && n.plans == c.plans - {p}
      && (forall v :: v in n.versions <==> v in c.versions && c.versions[v].plan != p)
      && (forall v :: v in n.versions ==> n.versions[v] == c.versions[v])
  {
  }

  /** Deprecating, binding to a solution tier, and unbinding. */
  lemma ShelfActionsExactly(c: Catalog, p: PlanId, solution: string, tier: Tier)
    ensures Deprecate(c, p).Ok? <==> p in c.plans && c.plans[p].Live()
    ensures Deprecate(c, p).Ok? ==>
      Deprecate(c, p).value == c.(plans := c.plans[p := c.plans[p].(deprecated := true)])
    ensures Bind(c, solution, tier, p).Ok? <==>
      && solution in c.solutions && p in c.plans && !c.plans[p].deleted
      && (forall slot :: slot in c.bindings && c.bindings[slot] == p ==> slot == (solution, tier))
    ensures Bind(c, solution, tier, p).Ok? ==>
      Bind(c, solution, tier, p).value == c.(bindings := c.bindings[(solution, tier) := p])
    ensures Unbind(c, solution, tier).Ok? <==> solution in c.solutions && (solution, tier) in c.bindings
    ensures Unbind(c, solution, tier).Ok? ==>
      var n := Unbind(c, solution, tier).value;
      n == c.(bindings := n.bindings) && n.bindings.Keys == c.bindings.Keys - {(solution, tier)}
      && forall slot :: slot in n.bindings ==> n.bindings[slot] == c.bindings[slot]
  {
  }

  /** A product goes exactly when it is there, no plan that sells it is held, and no other plan bundles it. */
  lemma ProductDroppedExactly(c: Catalog, product: string)
    requires Inv(c)
    ensures DropProduct(c, product).Ok? <==>
      product in c.products && SellersAreFree(c, product) && OnlySellersBundle(c, product)
  {
    RowsHavePlans(c);
    hide Inv;
    FreeSellers(c, product);
    DroppedUnless(c, product);
    hide DropProduct, SellersAreFree, OnlySellersBundle, Deletable, BelongsTo, Bundles;
  }

  lemma DroppedUnless(c: Catalog, product: string)
    ensures DropProduct(c, product).Ok? <==>
      && product in c.products
      && (forall p :: p in c.plans && BelongsTo(c, p, product) ==> Deletable(c, p))
      && OnlySellersBundle(c, product)
  {
    hide Deletable, Bundles, BelongsTo;
  }

  /** No subscription, order or binding holds a plan with a version that sells the product. */
  predicate SellersAreFree(c: Catalog, product: string) {
    forall v :: v in c.versions && SellsProduct(c.versions[v], product) ==> Deletable(c, c.versions[v].plan)
  }

  /** A version that bundles the product is of a plan with a version that sells it. */
  predicate OnlySellersBundle(c: Catalog, product: string) {
    forall v :: v in c.versions && Bundles(c.versions[v], product) ==> BelongsTo(c, c.versions[v].plan, product)
  }

  lemma FreeSellers(c: Catalog, product: string)
    requires forall v :: v in c.versions ==> c.versions[v].plan in c.plans
    ensures SellersAreFree(c, product) <==> forall p :: p in c.plans && BelongsTo(c, p, product) ==> Deletable(c, p)
  {
    hide Deletable, SellsProduct;
    if SellersAreFree(c, product) {
      forall p | p in c.plans && BelongsTo(c, p, product) ensures Deletable(c, p) {
        var v :| v in c.versions && c.versions[v].plan == p && SellsProduct(c.versions[v], product);
      }
    } else {
      var v :| v in c.versions && SellsProduct(c.versions[v], product) && !Deletable(c, c.versions[v].plan);
      assert BelongsTo(c, c.versions[v].plan, product);
    }
  }

  /** The plans that sell it, and their versions, go with it, and no others. */
  lemma DroppedProduct(c: Catalog, product: string)
    requires DropProduct(c, product).Ok?
    ensures
      var n := DropProduct(c, product).value;
      && n == c.(products := n.products, plans := n.plans, versions := n.versions)
      && n.products == c.products - {product}
      && (forall p :: p in n.plans <==> p in c.plans && !BelongsTo(c, p, product))
      && (forall p :: p in n.plans ==> n.plans[p] == c.plans[p])
      && (forall v :: v in n.versions <==> v in c.versions && !BelongsTo(c, c.versions[v].plan, product))
      && (forall v :: v in n.versions ==> n.versions[v] == c.versions[v])
  {
    hide Deletable, Bundles, BelongsTo;
  }
}
