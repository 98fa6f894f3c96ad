/** What the joint invariant buys: promises about whole runs of the plan handlers. */
module PlanTheorems {
  import opened Common
  import opened PlanCatalog
  import opened PlanInvariant

  /** Everything reachable from an empty catalogue is sound. */
  lemma EveryRunIsSound(ops: seq<Op>)
    ensures Inv(Run(EMPTY, ops))
  {
    EmptyCatalogOk();
    RunKeepsInv(EMPTY, ops);
  }

  lemma AtMostOneDraft(c: Catalog, v: VersionId, w: VersionId)
    requires Inv(c) && v in c.versions && w in c.versions && c.versions[v].plan == c.versions[w].plan
    requires IsDraft(c.versions[v])
    ensures IsDraft(c.versions[w]) ==> v == w
    ensures w != v ==> c.versions[w].published && c.versions[w].no < c.versions[v].no
  {
    assert VersionOk(c.versions[v]) && VersionOk(c.versions[w]);
    assert v != w ==> SiblingsOk(c.versions[v], c.versions[w]);
  }

  lemma CurrentIsNewestPublished(c: Catalog, p: PlanId, v: VersionId)
    requires Inv(c) && p in c.plans && v in c.versions && c.versions[v].plan == p && c.versions[v].published
    ensures c.plans[p].current == Some(v) <==>
      forall w :: w in c.versions && c.versions[w].plan == p && c.versions[w].published ==>
        c.versions[w].no <= c.versions[v].no
  {
    assert NotAhead(c.plans, c.versions, v);
    var cur := c.plans[p].current.value;
    assert cur != v ==> SiblingsOk(c.versions[cur], c.versions[v]);
    forall w | w in c.versions && c.versions[w].plan == p
      && c.versions[w].published ensures c.versions[w].no <= c.versions[cur].no {
      assert NotAhead(c.plans, c.versions, w);
    }
  }

  // ----- when requests are accepted -----

  /** A slot is free exactly when no version of a plan on sale sells it. */
  lemma OccupiedExactly(c: Catalog, product: string, tier: Tier)
    requires Inv(c)
    ensures TierOccupied(c, product, tier) <==>
      exists w :: OnSale(c.plans, c.versions, w) && Slot(c.versions[w]) == Some((product, tier))
  {
    if TierOccupied(c, product, tier) {
      var p, v :| p in c.plans && v in c.versions
        && IsAxisVersion(c, p, product, v) && c.plans[p].Live() && SellsSlot(c.versions[v], product, tier);
      assert VersionOk(c.versions[v]);
      SellsItsSlot(c.versions[v], product, tier);
      assert OnSale(c.plans, c.versions, v);
    }
    if exists w :: OnSale(c.plans, c.versions, w) && Slot(c.versions[w]) == Some((product, tier)) {
      var w :| OnSale(c.plans, c.versions, w) && Slot(c.versions[w]) == Some((product, tier));
      LivePlanOccupies(c, w, product, tier);
    }
    hide BelongsTo, Bundles, TierOccupied, Inv;
  }

  /** A draft is opened exactly for a plan that exists, has none, and is not asked to go back a major number. */
  lemma DraftOpenedExactly(c: Catalog, p: PlanId, major: Option<int>)
    requires Inv(c)
    ensures CreateDraft(c, p, major).Ok? <==>
      && p in c.plans && !c.plans[p].deleted && !HasDraft(c, p)
      && (major.Some? ==> major.value >= 1)
      && (major.Some? ==> forall w :: w in c.versions && c.versions[w].plan == p ==> c.versions[w].major <= major.value)
  {
    hide Inv, HasDraft, IsSource, HasMaxNo, CloneFrom;
    if p in c.plans && !c.plans[p].deleted && !HasDraft(c, p) && (major.Some? ==> major.value >= 1) {
      var s := FavouredVersion(c, p);
      var m := NewestVersion(c, p);
      SourcesAreRows(c, p);
      assert exists v, n :: IsSource(c, p, v) && HasMaxNo(c, p, n);
      var v, n :| IsSource(c, p, v) && HasMaxNo(c, p, n)
        && CreateDraft(c, p, major) == CloneFrom(c, v, c.versions[n].no + 1, major);
      SourceHasHighestMajor(c, p, v);
      ClonedUnlessBack(c, v, c.versions[n].no + 1, major);
      hide CreateDraft;
    }
  }

  lemma SourcesAreRows(c: Catalog, p: PlanId)
    ensures forall v :: IsSource(c, p, v) ==> v in c.versions
    ensures forall v :: HasMaxNo(c, p, v) ==> v in c.versions
  {
  }

  lemma ClonedUnlessBack(c: Catalog, v: VersionId, no: int, major: Option<int>)
    requires v in c.versions
    ensures CloneFrom(c, v, no, major).Ok? <==> (major.Some? ==> major.value >= c.versions[v].major)
  {
  }

  lemma SourceHasHighestMajor(c: Catalog, p: PlanId, v: VersionId)
    requires Inv(c) && IsSource(c, p, v) && !HasDraft(c, p)
    ensures v in c.versions && c.versions[v].plan == p
    ensures forall w :: w in c.versions && c.versions[w].plan == p ==> c.versions[w].major <= c.versions[v].major
  {
    forall w | w in c.versions && c.versions[w].plan == p ensures c.versions[w].major <= c.versions[v].major {
      assert VersionOk(c.versions[w]);
      assert NotAhead(c.plans, c.versions, w);
      assert w != v ==> SiblingsOk(c.versions[w], c.versions[v]);
    }
  }

  /** A version is deleted exactly when it is a draft with a sibling; a draft is never current. */
  lemma VersionDeletedExactly(c: Catalog, v: VersionId)
    requires Inv(c)
    ensures DeleteVersion(c, v).Ok? <==>
      && v in c.versions && IsDraft(c.versions[v])
      && exists w :: w in c.versions && c.versions[w].plan == c.versions[v].plan && w != v
  {
    RowsHavePlans(c);
    hide VersionOk, SiblingsOk, Slot;
    if v in c.versions && IsDraft(c.versions[v]) {
      assert c.plans[c.versions[v].plan].current != Some(v);
    }
  }

  // ----- publication freezes -----

  /** The row is as it was before, or it is gone. */
  predicate SameOrGone(c: Catalog, n: Catalog, v: VersionId) {
    v in n.versions ==> v in c.versions && n.versions[v] == c.versions[v]
  }

  /** The id of a published version, or of one that is no more. */
  predicate Settled(c: Catalog, v: VersionId) {
    v < c.nextId && (v in c.versions ==> c.versions[v].published)
  }

  /** What opening a draft does, without the choice of the source. */
  lemma ClonedFrom(c: Catalog, p: PlanId, major: Option<int>) returns (s: VersionId, no: int)
    requires CreateDraft(c, p, major).Ok?
    ensures s in c.versions && c.versions[s].plan == p
    ensures CreateDraft(c, p, major).value
         == c.(versions := c.versions[c.nextId := Clone(c.versions[s], no, major)], nextId := c.nextId + 1)
  {
    hide HasDraft, Clone;
    var v, m :| IsSource(c, p, v) && HasMaxNo(c, p, m)
      && CreateDraft(c, p, major) == CloneFrom(c, v, c.versions[m].no + 1, major);
    s, no := v, c.versions[m].no + 1;
    assert CloneFrom(c, s, no, major).Ok?;
  }

  lemma StepFreezes(c: Catalog, op: Op, v: VersionId)
    requires Settled(c, v)
    ensures Settled(Apply(c, op), v) && SameOrGone(c, Apply(c, op), v)
  {
    hide BelongsTo, Bundles, TierOccupied, FirstVersion, HasDraft, Clone, ChangesPrice, UpsertPrices, WithQuota,
         ResolveItems, ItemsWellFormed, TierClash, Deletable;
    if op.OpCreateDraft? && CreateDraft(c, op.plan, op.major).Ok? {
      var s, no := ClonedFrom(c, op.plan, op.major);
    }
  }

  /** Once published, a version's components, prices and number are the same in every later state
      that still has it, and no later version takes its identity. */
  lemma {:induction false} PublishedIsFrozen(c: Catalog, ops: seq<Op>, v: VersionId)
    requires Settled(c, v)
    ensures Settled(Run(c, ops), v) && SameOrGone(c, Run(c, ops), v)
    decreases ops
  {
    if ops != [] {
      StepFreezes(c, ops[0], v);
      PublishedIsFrozen(Apply(c, ops[0]), ops[1..], v);
    }
  }

  // ----- pinned versions stay -----

  ghost predicate Pinned(c: Catalog, v: VersionId) {
    (exists s :: s in c.subscriptions && c.subscriptions[s] == v) || (exists o :: o in c.orders && c.orders[o] == v)
  }

  /** The part of the invariant that this takes: pins are on published versions, and every id was issued. */
  ghost predicate PinsSound(c: Catalog) {
    PinsOk(c.subscriptions, c.versions) && PinsOk(c.orders, c.versions) && IdsIssued(c)
  }

  ghost predicate IdsIssued(c: Catalog) {
    && (forall p :: p in c.plans ==> p < c.nextId)
    && (forall v :: v in c.versions ==> v < c.nextId && c.versions[v].plan in c.plans)
  }

  lemma SoundPins(c: Catalog)
    requires Inv(c)
    ensures PinsSound(c)
  {
  }

  /** No step deletes or alters a version that a subscription or an order holds. */
  lemma PinnedStays(c: Catalog, op: Op, v: VersionId)
    requires PinsSound(c) && Pinned(c, v)
    ensures v in c.versions && v in Apply(c, op).versions && Apply(c, op).versions[v] == c.versions[v]
  {
    PinsArePublished(c, v);
    StepFreezes(c, op, v);
    if op.OpDeletePlan? {
      PlanDeletionSparesPinned(c, op.plan, op.confirm, v);
    } else if op.EnvDropProduct? {
      ProductDeletionSparesPinned(c, op.product, v);
    } else {
      OnlyPlanDeletionRemoves(c, op, v);
    }
    hide PinsSound, Pinned, Apply;
  }

  lemma PlanDeletionSparesPinned(c: Catalog, p: PlanId, confirm: bool, v: VersionId)
    requires Pinned(c, v) && v in c.versions
    ensures v in Apply(c, OpDeletePlan(p, confirm)).versions
  {
    assert Deletable(c, p) ==> c.versions[v].plan != p;
  }

  lemma ProductDeletionSparesPinned(c: Catalog, product: string, v: VersionId)
    requires Pinned(c, v) && v in c.versions && c.versions[v].plan in c.plans
    ensures v in Apply(c, EnvDropProduct(product)).versions
  {
    hide BelongsTo, Bundles;
    var p := c.versions[v].plan;
    assert DropProduct(c, product).Ok? && BelongsTo(c, p, product) ==> Deletable(c, p);
    assert Has(c, p, v);
  }

  lemma OnlyPlanDeletionRemoves(c: Catalog, op: Op, v: VersionId)
    requires v in c.versions && c.versions[v].published && !op.OpDeletePlan? && !op.EnvDropProduct?
    ensures v in Apply(c, op).versions
  {
    hide BelongsTo, Bundles, TierOccupied, FirstVersion, HasDraft, Clone, ChangesPrice, UpsertPrices, WithQuota,
         ResolveItems, ItemsWellFormed, TierClash;
    if op.OpCreateDraft? && CreateDraft(c, op.plan, op.major).Ok? {
      var s, no := ClonedFrom(c, op.plan, op.major);
    }
  }

  lemma PinsArePublished(c: Catalog, v: VersionId)
    requires PinsSound(c) && Pinned(c, v)
    ensures v in c.versions && Settled(c, v)
  {
    assert Pinnable(c.versions, v);
  }

  /** An order's version outlives every run, unchanged. */
  lemma {:induction false} OrderedVersionSurvives(c: Catalog, ops: seq<Op>, o: nat)
    requires Inv(c) && o in c.orders
    ensures o in Run(c, ops).orders && Run(c, ops).orders[o] == c.orders[o]
    ensures c.orders[o] in c.versions && c.orders[o] in Run(c, ops).versions
    ensures Run(c, ops).versions[c.orders[o]] == c.versions[c.orders[o]]
    decreases ops
  {
    var v := c.orders[o];
    assert Pinned(c, v);
    SoundPins(c);
    hide Inv;
    PinsArePublished(c, v);
    if ops != [] {
      PinnedStays(c, ops[0], v);
      StepKeepsInv(c, ops[0]);
      StepKeepsOrder(c, ops[0], o);
      OrderedVersionSurvives(Apply(c, ops[0]), ops[1..], o);
    }
  }

  lemma StepKeepsOrder(c: Catalog, op: Op, o: nat)
    requires o in c.orders
    ensures o in Apply(c, op).orders && Apply(c, op).orders[o] == c.orders[o]
  {
    hide BelongsTo, Bundles, TierOccupied, FirstVersion, HasDraft, Clone, ChangesPrice, UpsertPrices, WithQuota,
         ResolveItems, ItemsWellFormed, TierClash, Deletable;
    if op.OpCreateDraft? && CreateDraft(c, op.plan, op.major).Ok? {
      var s, no := ClonedFrom(c, op.plan, op.major);
    }
  }

  // ----- a plan keeps its slot -----

  /** One request: versions of one plan, before and after, sell one slot. */
  lemma StepKeepsSlot(c: Catalog, op: Op, v: VersionId, w: VersionId)
    requires NumbersOk(c.versions) && IdsIssued(c) && v in c.versions && w in Apply(c, op).versions
    requires Apply(c, op).versions[w].plan == c.versions[v].plan
    ensures Slot(Apply(c, op).versions[w]) == Slot(c.versions[v])
  {
    if w in c.versions && c.versions[w].plan == c.versions[v].plan {
      assert w != v ==> SiblingsOk(c.versions[w], c.versions[v]);
    }
    SlotAfter(c, op, w);
    if op.OpCreateDraft? && CreateDraft(c, op.plan, op.major).Ok? {
      var s, no := ClonedFrom(c, op.plan, op.major);
      assert s != v && c.versions[s].plan == c.versions[v].plan ==> SiblingsOk(c.versions[s], c.versions[v]);
      hide CreateDraft, Slot;
    }
  }

  /** Versions already there keep their plan and slot; only two requests add one. */
  lemma SlotAfter(c: Catalog, op: Op, w: VersionId)
    requires w in Apply(c, op).versions
    ensures w in c.versions && w < c.nextId ==>
      Slot(Apply(c, op).versions[w]) == Slot(c.versions[w]) && Apply(c, op).versions[w].plan == c.versions[w].plan
    ensures w !in c.versions ==>
      (op.OpCreatePlan? && Apply(c, op).versions[w].plan == c.nextId) || op.OpCreateDraft?
  {
    hide BelongsTo, Bundles, TierOccupied, HasDraft, Deletable, CreateDraft, UpdateDraft, ReplaceBundled,
         Publish;
    if op.OpCreateDraft? && CreateDraft(c, op.plan, op.major).Ok? {
      var s, no := ClonedFrom(c, op.plan, op.major);
      hide Slot;
    } else if op.OpUpdateDraft? || op.OpReplaceBundled? || op.OpPublish? {
      SlotAfterEdit(c, op, w);
    } else {
      hide Slot;
    }
  }

  lemma SlotAfterEdit(c: Catalog, op: Op, w: VersionId)
    requires op.OpUpdateDraft? || op.OpReplaceBundled? || op.OpPublish?
    requires w in Apply(c, op).versions
    ensures w in c.versions
    ensures Slot(Apply(c, op).versions[w]) == Slot(c.versions[w]) && Apply(c, op).versions[w].plan == c.versions[w].plan
  {
    hide ReplaceBundled, Publish, ChangesPrice, UpsertPrices, ShareAllowed;
    match op
    case OpUpdateDraft(_, _, _, _) =>
    case OpReplaceBundled(v, items) => BundlesChangeNoPrice(c, v, items);
    case OpPublish(v) => PublishChangesNoPrice(c, v);
  }

  lemma StepKeepsPlanIds(c: Catalog, op: Op, p: PlanId)
    requires p < c.nextId && p in Apply(c, op).plans
    ensures p in c.plans && c.nextId <= Apply(c, op).nextId
  {
    hide BelongsTo, Bundles, TierOccupied, HasDraft, FirstVersion, ChangesPrice, UpsertPrices, ResolveItems,
         ItemsWellFormed, TierClash, Deletable, ShareAllowed;
    if op.OpCreateDraft? && CreateDraft(c, op.plan, op.major).Ok? {
      var s, no := ClonedFrom(c, op.plan, op.major);
      hide CreateDraft;
    }
  }

  lemma NextIdGrows(c: Catalog, op: Op)
    ensures c.nextId <= Apply(c, op).nextId
  {
    hide BelongsTo, Bundles, TierOccupied, HasDraft, FirstVersion, ChangesPrice, UpsertPrices, ResolveItems,
         ItemsWellFormed, TierClash, Deletable, ShareAllowed;
    if op.OpCreateDraft? && CreateDraft(c, op.plan, op.major).Ok? {
      var s, no := ClonedFrom(c, op.plan, op.major);
      hide CreateDraft;
    }
  }

  /** A plan id that is gone stays gone. */
  lemma {:induction false} RunKeepsPlanIds(c: Catalog, ops: seq<Op>, p: PlanId)
    requires p < c.nextId && p in Run(c, ops).plans
    ensures p in c.plans
    decreases ops
  {
    if ops != [] {
      NextIdGrows(c, ops[0]);
      RunKeepsPlanIds(Apply(c, ops[0]), ops[1..], p);
      StepKeepsPlanIds(c, ops[0], p);
    }
  }

  /** Whatever is drafted, edited, published and deleted, every version a plan ever has sells the product
      and tier of its first. */
  lemma {:induction false} PlanKeepsSlot(c: Catalog, ops: seq<Op>, v: VersionId, w: VersionId)
    requires Inv(c) && v in c.versions && w in Run(c, ops).versions
    requires Run(c, ops).versions[w].plan == c.versions[v].plan
    ensures Slot(Run(c, ops).versions[w]) == Slot(c.versions[v])
    decreases ops
  {
    var p := c.versions[v].plan;
    RowsHavePlans(c);
    SoundPins(c);
    if ops == [] {
      assert w != v ==> SiblingsOk(c.versions[w], c.versions[v]);
    } else {
      var mid := Apply(c, ops[0]);
      RunKeepsInv(c, ops);
      StepKeepsInv(c, ops[0]);
      RowsHavePlans(Run(c, ops));
      NextIdGrows(c, ops[0]);
      RunKeepsPlanIds(mid, ops[1..], p);
      assert HasVersion(mid.versions, p);
      hide Inv, Apply, Slot;
      var u :| u in mid.versions && mid.versions[u].plan == p;
      StepKeepsSlot(c, ops[0], v, u);
      PlanKeepsSlot(mid, ops[1..], u, w);
    }
  }

  // ----- the publish gate -----

  /** Another plan on sale already shows this version's slot to customers. */
  ghost predicate SlotTaken(c: Catalog, v: VersionId)
    requires v in c.versions
  {
    exists q :: q in c.plans && q != c.versions[v].plan && c.plans[q].Live() && c.plans[q].current.Some?
      && c.plans[q].current.value in c.versions && Slot(c.versions[c.plans[q].current.value]) == Slot(c.versions[v])
  }

  lemma ClashIsSlotTaken(c: Catalog, v: VersionId)
    requires Inv(c) && v in c.versions
    ensures TierClash(c, v) <==> SlotTaken(c, v)
  {
    assert VersionOk(c.versions[v]);
    var primary := c.versions[v].primaries[0];
    forall q | q in c.plans && c.plans[q].current.Some?
      ensures c.plans[q].current.value in c.versions && c.versions[c.plans[q].current.value].published
      ensures SellsSlot(c.versions[c.plans[q].current.value], primary.product, primary.tier)
        <==> Slot(c.versions[c.plans[q].current.value]) == Slot(c.versions[v])
    {
      assert VersionOk(c.versions[c.plans[q].current.value]);
      SellsItsSlot(c.versions[c.plans[q].current.value], primary.product, primary.tier);
    }
  }

  /** Publishing a draft is refused for a clash exactly when its plan is off sale and the slot has
      been taken meanwhile; a plan on sale is never refused. */
  lemma PublishRefusedExactly(c: Catalog, v: VersionId)
    requires Inv(c) && v in c.versions && !c.versions[v].published
    ensures Publish(c, v) == Err(Conflict) <==> !c.plans[c.versions[v].plan].Live() && SlotTaken(c, v)
    ensures c.plans[c.versions[v].plan].Live() ==> Publish(c, v).Ok?
  {
    RowsHavePlans(c);
    ClashIsSlotTaken(c, v);
    if SlotTaken(c, v) {
      var q :| q in c.plans && q != c.versions[v].plan && c.plans[q].Live() && c.plans[q].current.Some?
        && c.plans[q].current.value in c.versions && Slot(c.versions[c.plans[q].current.value]) == Slot(c.versions[v]);
      assert c.versions[c.plans[q].current.value].plan == q;
      assert OnSale(c.plans, c.versions, c.plans[q].current.value);
      assert !OnSale(c.plans, c.versions, v);
    }
  }

  lemma RunSplit(c: Catalog, op: Op, rest: seq<Op>)
    ensures Run(c, [op] + rest) == Run(Apply(c, op), rest)
  {
    assert ([op] + rest)[1..] == rest;
  }

  /** Plan "a" is deprecated with its draft unpublished, and plan "b" is sold in its slot. */
  function Resale(): seq<Op> {
    [EnvProduct("p", ResoldProduct()), OpCreatePlan("a", "p", Free), OpDeprecate(0),
     OpCreatePlan("b", "p", Free), OpPublish(3)]
  }

  function ResoldProduct(): Product { Product(true, true, Some("L3")) }

  /** The catalogue after the deprecation. */
  function OffSale(): Catalog {
    EMPTY.(products := map["p" := ResoldProduct()], plans := map[0 := Plan("a", None, true, false)],
           versions := map[1 := FirstVersion(0, "p", Free)], nextId := 2)
  }

  function Resold(): Catalog {
    OffSale().(plans := map[0 := Plan("a", None, true, false), 2 := Plan("b", Some(3), false, false)],
               versions := map[1 := FirstVersion(0, "p", Free),
                               3 := FirstVersion(2, "p", Free).(published := true, locked := true)],
               nextId := 4)
  }

  lemma TakenOffSale()
    ensures Apply(Apply(Apply(EMPTY, Resale()[0]), Resale()[1]), Resale()[2]) == OffSale()
  {
    hide FirstVersion;
    var c := Apply(EMPTY, Resale()[0]);
    assert !TierOccupied(c, "p", Free);
    assert CreatePlan(c, "a", "p", Free).Ok?;
    assert Apply(c, Resale()[1]).plans == map[0 := Plan("a", None, false, false)];
  }

  lemma SoldAgain()
    ensures Apply(Apply(OffSale(), Resale()[3]), Resale()[4]) == Resold()
  {
    hide FirstVersion, SellsSlot, SellsProduct;
    var c := OffSale();
    assert !TierOccupied(c, "p", Free);
    assert c.plans[0].code == "a" && "a"[0] != "b"[0];
    assert CreatePlan(c, "b", "p", Free).Ok?;
    var d := Apply(c, Resale()[3]);
    assert d.versions == map[1 := FirstVersion(0, "p", Free), 3 := FirstVersion(2, "p", Free)];
    SkeletonRow(2, "p", Free);
    assert !TierClash(d, 3);
    assert Publish(d, 3).Ok?;
  }

  lemma SkeletonRow(p: PlanId, product: string, tier: Tier)
    ensures FirstVersion(p, product, tier).plan == p && !FirstVersion(p, product, tier).published
  {
  }

  /** So a refusal does happen, in a catalogue reached from the empty one. */
  lemma PublishCanClash()
    ensures Run(EMPTY, Resale()) == Resold() && Publish(Run(EMPTY, Resale()), 1) == Err(Conflict)
  {
    var ops := Resale();
    assert ops == [ops[0]] + ops[1..] && ops[1..] == [ops[1]] + ops[2..] && ops[2..] == [ops[2]] + ops[3..];
    assert ops[3..] == [ops[3]] + ops[4..] && ops[4..] == [ops[4]] + [];
    TakenOffSale();
    SoldAgain();
    ResoldClashes();
    hide Apply, Resale, Resold, OffSale, Publish;
    var c1 := Apply(EMPTY, ops[0]);
    var c2 := Apply(c1, ops[1]);
    RunSplit(EMPTY, ops[0], ops[1..]);
    RunSplit(c1, ops[1], ops[2..]);
    RunSplit(c2, ops[2], ops[3..]);
    RunSplit(OffSale(), ops[3], ops[4..]);
    RunSplit(Apply(OffSale(), ops[3]), ops[4], []);
  }

  lemma ResoldClashes()
    ensures Publish(Resold(), 1) == Err(Conflict)
  {
    var c := Resold();
    assert c.versions[3].primaries[0].product == "p";
    assert SellsSlot(c.versions[3], "p", Free);
    assert c.plans[2].Live() && c.plans[2].current.value == 3 && c.versions[1].plan == 0;
    assert TierClash(c, 1);
  }

  // ----- the price gate -----

  /** Prices already stored are written back as they were. */
  lemma {:induction false} UnchangedUpsert(stored: map<PriceKey, int>, entries: seq<PriceEntry>)
    requires !ChangesPrice(stored, entries) && UpsertPrices(stored, entries).Ok?
    ensures UpsertPrices(stored, entries) == Ok(stored)
    decreases entries
  {
    if entries != [] {
      assert SamePrice(stored, entries[0]);
      assert stored[PerCycle(entries[0].unit) := RoundCents(entries[0].price.yuan)] == stored;
      forall i | 0 <= i < |entries[1..]| ensures SamePrice(stored, entries[1..][i]) {
        assert entries[1..][i] == entries[i + 1];
      }
      UnchangedUpsert(stored, entries[1..]);
    }
  }

  predicate WithoutPriceRight(ops: seq<Op>) {
    forall i :: 0 <= i < |ops| && ops[i].OpUpdateDraft? ==> !ops[i].mayPrice
  }

  ghost predicate HadPrices(c: Catalog, p: PlanId, prices: map<PriceKey, int>) {
    exists w :: w in c.versions && c.versions[w].plan == p && c.versions[w].prices == prices
  }

  /** A version keeps its price list, a new version of a plan that was there has one some version of that plan had,
      and a version of a new plan has none. */
  ghost predicate NoPriceChanged(c: Catalog, n: Catalog) {
    && (forall v :: v in c.versions && v in n.versions ==>
          n.versions[v].prices == c.versions[v].prices && n.versions[v].plan == c.versions[v].plan)
    && (forall v :: v in n.versions && v !in c.versions ==>
          v >= c.nextId
          && if n.versions[v].plan in c.plans then HadPrices(c, n.versions[v].plan, n.versions[v].prices)
             else n.versions[v].prices == map[])
    && (forall p :: p in n.plans && p !in c.plans ==> p >= c.nextId)
    && c.nextId <= n.nextId
  }

  lemma StepChangesNoPrice(c: Catalog, op: Op)
    requires op.OpUpdateDraft? ==> !op.mayPrice
    requires IdsIssued(c)
    ensures NoPriceChanged(c, Apply(c, op))
  {
    hide BelongsTo, Bundles, TierOccupied, HasDraft, Deletable, CreateDraft, UpdateDraft, ReplaceBundled,
         Publish, FirstVersion;
    if Attempt(c, op).Ok? {
      if op.OpCreateDraft? {
        DraftChangesNoPrice(c, op.plan, op.major);
      } else if op.OpUpdateDraft? {
        DraftEditChangesNoPrice(c, op.version, op.prices, op.quota);
      } else if op.OpCreatePlan? {
        FirstHasNoPrices(c.nextId, op.product, op.tier);
      } else if op.OpReplaceBundled? || op.OpPublish? {
        OtherEditsChangeNoPrice(c, op);
      }
    }
  }

  lemma DraftChangesNoPrice(c: Catalog, p: PlanId, major: Option<int>)
    requires IdsIssued(c) && CreateDraft(c, p, major).Ok?
    ensures NoPriceChanged(c, CreateDraft(c, p, major).value)
  {
    var s, no := ClonedFrom(c, p, major);
    hide CreateDraft;
    assert Clone(c.versions[s], no, major).prices == c.versions[s].prices;
    assert Clone(c.versions[s], no, major).plan == c.versions[s].plan;
    hide Clone;
    assert HadPrices(c, c.versions[s].plan, c.versions[s].prices);
  }

  lemma OtherEditsChangeNoPrice(c: Catalog, op: Op)
    requires op.OpReplaceBundled? || op.OpPublish?
    ensures NoPriceChanged(c, Apply(c, op))
  {
    hide HadPrices, ReplaceBundled, Publish;
    if op.OpReplaceBundled? {
      BundlesChangeNoPrice(c, op.version, op.items);
    } else {
      PublishChangesNoPrice(c, op.version);
    }
  }

  lemma PublishChangesNoPrice(c: Catalog, v: VersionId)
    ensures Publish(c, v).Ok? ==>
      var n := Publish(c, v).value;
      && v in c.versions && v in n.versions && n == c.(plans := n.plans, versions := c.versions[v := n.versions[v]])
      && n.versions[v] == c.versions[v].(published := true, locked := true) && n.plans.Keys == c.plans.Keys
  {
    hide TierClash;
  }

  lemma BundlesChangeNoPrice(c: Catalog, v: VersionId, items: seq<BundledItem>)
    ensures ReplaceBundled(c, v, items).Ok? ==>
      var n := ReplaceBundled(c, v, items).value;
      && v in c.versions && v in n.versions && n == c.(versions := c.versions[v := n.versions[v]])
      && n.versions[v] == c.versions[v].(bundles := n.versions[v].bundles)
  {
    hide ResolveItems, ItemsWellFormed;
  }

  lemma FirstHasNoPrices(p: PlanId, product: string, tier: Tier)
    ensures FirstVersion(p, product, tier).prices == map[] && FirstVersion(p, product, tier).plan == p
  {
  }

  lemma DraftEditChangesNoPrice(c: Catalog, v: VersionId, prices: Option<seq<PriceEntry>>, quota: Option<Quota>)
    requires UpdateDraft(c, v, false, prices, quota).Ok?
    ensures
      var n := UpdateDraft(c, v, false, prices, quota).value;
      && v in c.versions && n == c.(versions := c.versions[v := n.versions[v]])
      && n.versions[v].prices == c.versions[v].prices && n.versions[v].plan == c.versions[v].plan
  {
    hide ChangesPrice, UpsertPrices, WithQuota, ShareAllowed;
    if prices.Some? {
      UnchangedUpsert(c.versions[v].prices, prices.value);
    }
  }

  lemma NoPriceChangedTwice(a: Catalog, b: Catalog, c: Catalog)
    requires NoPriceChanged(a, b) && NoPriceChanged(b, c)
    requires IdsIssued(a) && IdsIssued(b) && IdsIssued(c)
    ensures NoPriceChanged(a, c)
  {
    forall v | v in a.versions && v in c.versions
      ensures c.versions[v].prices == a.versions[v].prices && c.versions[v].plan == a.versions[v].plan
    {
      assert v < b.nextId;
    }
    forall v | v in c.versions && v !in a.versions
      ensures v >= a.nextId
      ensures if c.versions[v].plan in a.plans then HadPrices(a, c.versions[v].plan, c.versions[v].prices)
              else c.versions[v].prices == map[]
    {
      NewVersionTwice(a, b, c, v);
    }
    hide HadPrices;
  }

  lemma NewVersionTwice(a: Catalog, b: Catalog, c: Catalog, v: VersionId)
    requires NoPriceChanged(a, b) && NoPriceChanged(b, c)
    requires IdsIssued(a) && IdsIssued(b) && IdsIssued(c) && v in c.versions && v !in a.versions
    ensures v >= a.nextId
    ensures if c.versions[v].plan in a.plans then HadPrices(a, c.versions[v].plan, c.versions[v].prices)
            else c.versions[v].prices == map[]
  {
    var p, prices := c.versions[v].plan, c.versions[v].prices;
    if v !in b.versions {
      if p in b.plans {
        var w :| w in b.versions && b.versions[w].plan == p && b.versions[w].prices == prices;
        if w in a.versions {
          assert a.versions[w].plan == p && a.versions[w].prices == prices;
        }
      } else {
        assert p >= b.nextId;
      }
    }
  }

  /** Whatever forms are submitted, runs without the price right leave every price list alone. */
  lemma {:induction false} NoRightNoPriceChange(c: Catalog, ops: seq<Op>)
    requires Inv(c) && WithoutPriceRight(ops)
    ensures NoPriceChanged(c, Run(c, ops))
    decreases ops
  {
    if ops != [] {
      var b := Apply(c, ops[0]);
      SoundPins(c);
      StepChangesNoPrice(c, ops[0]);
      StepKeepsInv(c, ops[0]);
      assert WithoutPriceRight(ops[1..]) by {
        forall i | 0 <= i < |ops[1..]| && ops[1..][i].OpUpdateDraft? ensures !ops[1..][i].mayPrice {
          assert ops[1..][i] == ops[i + 1];
        }
      }
      NoRightNoPriceChange(b, ops[1..]);
      SoundPins(b);
      RunKeepsInv(b, ops[1..]);
      SoundPins(Run(b, ops[1..]));
      hide Inv, Apply, Run, NoPriceChanged, IdsIssued;
      NoPriceChangedTwice(c, b, Run(b, ops[1..]));
    }
  }

  /** The entry that decides a cycle's price: the last one submitted for it. */
  predicate IsLastFor(entries: seq<PriceEntry>, i: nat, unit: string) {
    i < |entries| && entries[i].unit == unit && forall j :: i < j < |entries| ==> entries[j].unit != unit
  }

  /** An accepted list is stored to the cent: per cycle the last submitted price, all else as it was;
      it is accepted exactly when each entry is. */
  lemma {:induction false} UpsertExact(stored: map<PriceKey, int>, entries: seq<PriceEntry>)
    ensures UpsertPrices(stored, entries).Ok? <==> forall i :: 0 <= i < |entries| ==> Acceptable(entries[i])
    ensures UpsertPrices(stored, entries).Ok? ==>
      var after := UpsertPrices(stored, entries).value;
      && (forall i, unit :: 0 <= i && IsLastFor(entries, i, unit) ==>
            PerCycle(unit) in after && after[PerCycle(unit)] as real == entries[i].price.yuan * 100.0)
      && (forall k :: (forall i :: 0 <= i < |entries| ==> PerCycle(entries[i].unit) != k) ==>
            (k in after <==> k in stored) && (k in stored ==> after[k] == stored[k]))
    decreases entries
  {
    hide RoundCents;
    if entries != [] {
      var rest := entries[1..];
      assert forall i :: 0 <= i < |rest| ==> rest[i] == entries[i + 1];
      if Acceptable(entries[0]) {
        var first := stored[PerCycle(entries[0].unit) := RoundCents(entries[0].price.yuan)];
        UpsertExact(first, rest);
        if UpsertPrices(stored, entries).Ok? {
          var after := UpsertPrices(stored, entries).value;
          forall i, unit | 0 <= i && IsLastFor(entries, i, unit)
            ensures PerCycle(unit) in after && after[PerCycle(unit)] as real == entries[i].price.yuan * 100.0
          {
            if i > 0 {
              assert IsLastFor(rest, i - 1, unit);
            } else {
              assert forall j :: 0 <= j < |rest| ==> PerCycle(rest[j].unit) != PerCycle(unit);
            }
          }
        }
      }
    }
  }
}
