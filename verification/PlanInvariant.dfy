/** The joint invariant of the plan tables: no handler guarantees any part of it alone. */
module PlanInvariant {
  import opened Common
  import opened PlanCatalog

  type Plans = map<PlanId, Plan>
  type Versions = map<VersionId, Version>

  // ----- the invariant -----

  /** The shelf position a version sells: product and commercial tier. */
  function Slot(v: Version): Option<(string, Tier)> {
    if v.primaries == [] then None else Some((v.primaries[0].product, v.primaries[0].tier))
  }

  /** Locked exactly when published; one primary component with its share in [0, 1]; bundled pools
      burn first, and a version never bundles the product it sells nor one product twice. */
  predicate VersionOk(v: Version) {
    && v.published == v.locked
    && |v.primaries| == 1 && ShareAllowed(v.primaries[0].quota) && BundlesOk(v.primaries[0], v.bundles)
  }

  predicate BundlesOk(primary: Primary, ks: seq<Bundle>) {
    && (forall i :: 0 <= i < |ks| ==> ks[i].priority < primary.priority && ks[i].product != primary.product)
    && (forall i, j :: 0 <= i < j < |ks| ==> ks[i].product != ks[j].product)
  }

  ghost predicate RowsOk(plans: Plans, versions: Versions, nextId: nat) {
    && (forall p :: p in plans ==> p < nextId)
    && (forall v :: v in versions ==> v < nextId && versions[v].plan in plans && VersionOk(versions[v]))
  }

  ghost predicate HasVersion(versions: Versions, p: PlanId) {
    exists v :: v in versions && versions[v].plan == p
  }

  ghost predicate NoShells(plans: Plans, versions: Versions) {
    forall p :: p in plans ==> HasVersion(versions, p)
  }

  /** Numbers are distinct; an unpublished version has the highest, so there is at most one;
      major numbers follow version numbers; all versions of a plan sell one slot. */
  predicate SiblingsOk(a: Version, b: Version) {
    && a.no != b.no
    && (!a.published ==> b.no < a.no)
    && (!b.published ==> a.no < b.no)
    && (a.no < b.no ==> a.major <= b.major)
    && (b.no < a.no ==> b.major <= a.major)
    && Slot(a) == Slot(b)
  }

  ghost predicate NumbersOk(versions: Versions) {
    forall v, w :: v in versions && w in versions && v != w && versions[v].plan == versions[w].plan ==>
      SiblingsOk(versions[v], versions[w])
  }

  /** `current` is the published version with the highest number, and is set once there is one. */
  ghost predicate CurrentIsPublished(plans: Plans, versions: Versions) {
    forall p :: p in plans && plans[p].current.Some? ==>
      var v := plans[p].current.value;
      v in versions && versions[v].plan == p && versions[v].published
  }

  predicate NotAhead(plans: Plans, versions: Versions, v: VersionId)
    requires v in versions && versions[v].plan in plans
  {
    var current := plans[versions[v].plan].current;
    current.Some? && current.value in versions && versions[v].no <= versions[current.value].no
  }

  ghost predicate CurrentIsNewest(plans: Plans, versions: Versions) {
    forall v :: v in versions && versions[v].published && versions[v].plan in plans ==> NotAhead(plans, versions, v)
  }

  predicate OnSale(plans: Plans, versions: Versions, v: VersionId) {
    v in versions && versions[v].plan in plans && plans[versions[v].plan].Live()
  }

  /** Two plans still on sale never share a slot. */
  ghost predicate SlotsOk(plans: Plans, versions: Versions) {
    forall v, w :: OnSale(plans, versions, v) && OnSale(plans, versions, w) && versions[v].plan != versions[w].plan ==>
      Slot(versions[v]) != Slot(versions[w])
  }

  ghost predicate CodesOk(plans: Plans) {
    forall p, q :: p in plans && q in plans && p != q ==> plans[p].code != plans[q].code
  }

  predicate Pinnable(versions: Versions, v: VersionId) { v in versions && versions[v].published }

  /** Subscriptions and orders hold published versions. */
  ghost predicate PinsOk(pins: map<nat, VersionId>, versions: Versions) {
    forall s :: s in pins ==> Pinnable(versions, pins[s])
  }

  /** Bindings hold plans, each plan at most once. */
  ghost predicate BindingsOk(bindings: map<(string, Tier), PlanId>, plans: Plans) {
    && (forall b :: b in bindings ==> bindings[b] in plans)
    && (forall b, d :: b in bindings && d in bindings && b != d ==> bindings[b] != bindings[d])
  }

  ghost predicate ShelfOk(plans: Plans, versions: Versions, nextId: nat) {
    && RowsOk(plans, versions, nextId) && NoShells(plans, versions) && NumbersOk(versions)
    && CurrentIsPublished(plans, versions) && CurrentIsNewest(plans, versions)
    && SlotsOk(plans, versions) && CodesOk(plans)
  }

  ghost predicate Inv(c: Catalog) {
    && ShelfOk(c.plans, c.versions, c.nextId)
    && PinsOk(c.subscriptions, c.versions) && PinsOk(c.orders, c.versions) && BindingsOk(c.bindings, c.plans)
  }

  // ----- changing one version in place -----

  /** What an edit of a draft may not touch. */
  predicate SameStanding(a: Version, b: Version) {
    && a.plan == b.plan && a.no == b.no && a.major == b.major && a.published == b.published
    && a.locked == b.locked && Slot(a) == Slot(b)
  }

  lemma EditKeepsShelf(plans: Plans, versions: Versions, nextId: nat, v: VersionId, edited: Version)
    requires ShelfOk(plans, versions, nextId) && v in versions
    requires SameStanding(versions[v], edited) && VersionOk(edited)
    ensures ShelfOk(plans, versions[v := edited], nextId)
  {
    hide NumbersOk, CurrentIsPublished, CurrentIsNewest, SlotsOk, CodesOk, VersionOk;
    var after := versions[v := edited];
    assert RowsOk(plans, after, nextId);
    forall w | w in versions ensures HasVersion(after, versions[w].plan) {
      assert after[w].plan == versions[w].plan;
    }
    SurvivorsLeaveNoShells(plans, versions, after);
    EditKeepsNumbers(versions, v, edited);
    EditKeepsCurrent(plans, versions, v, edited);
    EditKeepsSlots(plans, versions, v, edited);
  }

  /** A plan keeps a version when every version that goes leaves a sibling behind. */
  lemma SurvivorsLeaveNoShells(plans: Plans, versions: Versions, after: Versions)
    requires NoShells(plans, versions)
    requires forall w :: w in versions ==> HasVersion(after, versions[w].plan)
    ensures NoShells(plans, after)
  {
    forall p | p in plans ensures HasVersion(after, p) {
      assert HasVersion(versions, p);
    }
  }

  lemma EditKeepsNumbers(versions: Versions, v: VersionId, edited: Version)
    requires NumbersOk(versions) && v in versions && SameStanding(versions[v], edited)
    ensures NumbersOk(versions[v := edited])
  {
    var after := versions[v := edited];
    forall a, b | a in after && b in after && a != b && after[a].plan == after[b].plan
      ensures SiblingsOk(after[a], after[b])
    {
      assert SiblingsOk(versions[a], versions[b]);
    }
  }

  lemma EditKeepsCurrent(plans: Plans, versions: Versions, v: VersionId, edited: Version)
    requires CurrentIsPublished(plans, versions) && CurrentIsNewest(plans, versions)
    requires v in versions && SameStanding(versions[v], edited)
    ensures CurrentIsPublished(plans, versions[v := edited]) && CurrentIsNewest(plans, versions[v := edited])
  {
    var after := versions[v := edited];
    forall w | w in after && after[w].published && after[w].plan in plans ensures NotAhead(plans, after, w) {
      assert NotAhead(plans, versions, w);
    }
  }

  lemma EditKeepsSlots(plans: Plans, versions: Versions, v: VersionId, edited: Version)
    requires SlotsOk(plans, versions) && v in versions && SameStanding(versions[v], edited)
    ensures SlotsOk(plans, versions[v := edited])
  {
    var after := versions[v := edited];
    forall a, b | OnSale(plans, after, a) && OnSale(plans, after, b) && after[a].plan != after[b].plan
      ensures Slot(after[a]) != Slot(after[b])
    {
      assert OnSale(plans, versions, a) && OnSale(plans, versions, b);
    }
  }

  lemma EditKeepsPins(pins: map<nat, VersionId>, versions: Versions, v: VersionId, edited: Version)
    requires PinsOk(pins, versions) && v in versions && (versions[v].published ==> edited.published)
    ensures PinsOk(pins, versions[v := edited])
  {
  }

  // ----- adding one version -----

  lemma AddKeepsNumbers(versions: Versions, i: VersionId, added: Version)
    requires NumbersOk(versions) && i !in versions
    requires forall w :: w in versions && versions[w].plan == added.plan ==> SiblingsOk(added, versions[w])
    ensures NumbersOk(versions[i := added])
  {
    var after := versions[i := added];
    forall a, b | a in after && b in after && a != b && after[a].plan == after[b].plan
      ensures SiblingsOk(after[a], after[b])
    {
      assert a != i && b != i ==> SiblingsOk(versions[a], versions[b]);
    }
  }

  lemma AddKeepsCurrent(plans: Plans, versions: Versions, i: VersionId, added: Version)
    requires CurrentIsPublished(plans, versions) && CurrentIsNewest(plans, versions)
    requires i !in versions && !added.published
    ensures CurrentIsPublished(plans, versions[i := added]) && CurrentIsNewest(plans, versions[i := added])
  {
    var after := versions[i := added];
    forall w | w in after && after[w].published && after[w].plan in plans ensures NotAhead(plans, after, w) {
      assert NotAhead(plans, versions, w);
    }
  }

  lemma AddKeepsSlots(plans: Plans, versions: Versions, i: VersionId, added: Version)
    requires SlotsOk(plans, versions) && i !in versions
    requires added.plan in plans
    requires forall w :: plans[added.plan].Live() && OnSale(plans, versions, w) && versions[w].plan != added.plan ==>
      Slot(versions[w]) != Slot(added)
    ensures SlotsOk(plans, versions[i := added])
  {
    var after := versions[i := added];
    forall a, b | OnSale(plans, after, a) && OnSale(plans, after, b) && after[a].plan != after[b].plan
      ensures Slot(after[a]) != Slot(after[b])
    {
      assert a != i ==> OnSale(plans, versions, a);
      assert b != i ==> OnSale(plans, versions, b);
    }
  }

  lemma AddKeepsShelf(plans: Plans, versions: Versions, nextId: nat, i: VersionId, added: Version, later: nat)
    requires ShelfOk(plans, versions, nextId) && nextId <= i < later
    requires added.plan in plans && VersionOk(added) && !added.published
    requires forall w :: w in versions && versions[w].plan == added.plan ==> SiblingsOk(added, versions[w])
    requires HasVersion(versions, added.plan)
    ensures ShelfOk(plans, versions[i := added], later)
  {
    hide NumbersOk, CurrentIsPublished, CurrentIsNewest, SlotsOk, CodesOk, VersionOk;
    AddKeepsRows(plans, versions, nextId, i, added, later);
    AddKeepsNumbers(versions, i, added);
    AddKeepsCurrent(plans, versions, i, added);
    var s :| s in versions && versions[s].plan == added.plan;
    assert SiblingsOk(added, versions[s]);
    SameSlotElsewhere(plans, versions, s, added);
    AddKeepsSlots(plans, versions, i, added);
  }

  lemma AddKeepsRows(plans: Plans, versions: Versions, nextId: nat, i: VersionId, added: Version, later: nat)
    requires RowsOk(plans, versions, nextId) && NoShells(plans, versions) && nextId <= i < later
    requires added.plan in plans && VersionOk(added)
    ensures i !in versions && RowsOk(plans, versions[i := added], later) && NoShells(plans, versions[i := added])
  {
    hide VersionOk;
    var after := versions[i := added];
    forall w | w in versions ensures HasVersion(after, versions[w].plan) {
      assert after[w] == versions[w];
    }
    SurvivorsLeaveNoShells(plans, versions, after);
  }

  /** What holds for the slot of one sibling holds for the other's. */
  lemma SameSlotElsewhere(plans: Plans, versions: Versions, s: VersionId, added: Version)
    requires SlotsOk(plans, versions) && s in versions && versions[s].plan == added.plan && added.plan in plans
    requires Slot(added) == Slot(versions[s])
    ensures forall w :: plans[added.plan].Live() && OnSale(plans, versions, w) && versions[w].plan != added.plan ==>
      Slot(versions[w]) != Slot(added)
  {
    assert plans[added.plan].Live() ==> OnSale(plans, versions, s);
  }

  // ----- create a plan -----

  /** Registering a plan row nobody refers to yet. */
  lemma NewPlanRow(plans: Plans, versions: Versions, nextId: nat, p: PlanId, row: Plan)
    requires RowsOk(plans, versions, nextId) && CurrentIsPublished(plans, versions)
    requires CurrentIsNewest(plans, versions) && SlotsOk(plans, versions)
    requires p !in plans && row.current == None
    ensures CurrentIsPublished(plans[p := row], versions) && CurrentIsNewest(plans[p := row], versions)
    ensures SlotsOk(plans[p := row], versions)
  {
    var after := plans[p := row];
    forall w | w in versions && versions[w].published && versions[w].plan in after
      ensures NotAhead(after, versions, w) {
      assert NotAhead(plans, versions, w);
    }
    forall a, b | OnSale(after, versions, a) && OnSale(after, versions, b) && versions[a].plan != versions[b].plan
      ensures Slot(versions[a]) != Slot(versions[b])
    {
      assert OnSale(plans, versions, a) && OnSale(plans, versions, b);
    }
  }

  lemma SellsItsSlot(v: Version, product: string, tier: Tier)
    requires VersionOk(v)
    ensures Slot(v) == Some((product, tier)) ==> SellsProduct(v, product) && SellsSlot(v, product, tier)
    ensures SellsProduct(v, product) ==> Slot(v).Some? && Slot(v).value.0 == product
    ensures SellsSlot(v, product, tier) ==> Slot(v) == Some((product, tier))
  {
    var k := v.primaries[0];
    if Slot(v) == Some((product, tier)) {
      assert 0 <= 0 < |v.primaries| && v.primaries[0].product == product && v.primaries[0].tier == tier;
    }
  }

  /** The current version if set, else the one with the highest number. */
  lemma FavouredVersion(c: Catalog, p: PlanId) returns (a: VersionId)
    requires Inv(c) && p in c.plans
    ensures a in c.versions && IsSource(c, p, a)
  {
    if c.plans[p].current.Some? {
      a := c.plans[p].current.value;
    } else {
      a := NewestVersion(c, p);
    }
  }

  lemma NewestVersion(c: Catalog, p: PlanId) returns (a: VersionId)
    requires Inv(c) && p in c.plans
    ensures a in c.versions && HasMaxNo(c, p, a)
  {
    assert HasVersion(c.versions, p);
    a := NewestOf(c, p);
    hide Inv;
  }

  lemma NewestOf(c: Catalog, p: PlanId) returns (a: VersionId)
    requires HasVersion(c.versions, p)
    ensures a in c.versions && HasMaxNo(c, p, a)
  {
    var ids := set v | v in c.versions && c.versions[v].plan == p;
    var v :| v in c.versions && c.versions[v].plan == p;
    assert v in ids;
    a := Newest(c.versions, ids);
    assert forall w :: w in c.versions && c.versions[w].plan == p ==> w in ids;
  }

  lemma {:induction false} Newest(versions: Versions, ids: set<VersionId>) returns (a: VersionId)
    requires ids != {} && ids <= versions.Keys
    ensures a in ids && forall v :: v in ids ==> versions[v].no <= versions[a].no
    decreases |ids|
  {
    a :| a in ids;
    if ids != {a} {
      var b := Newest(versions, ids - {a});
      assert forall v :: v in ids ==> v == a || v in ids - {a};
      if versions[a].no < versions[b].no { a := b; }
    }
  }

  lemma OnlySource(c: Catalog, p: PlanId, a: VersionId, b: VersionId)
    requires NumbersOk(c.versions)
    requires (IsSource(c, p, a) && IsSource(c, p, b)) || (HasMaxNo(c, p, a) && HasMaxNo(c, p, b))
    ensures a == b
  {
    assert a != b ==> SiblingsOk(c.versions[a], c.versions[b]);
  }

  /** A slot with a live plan is seen as occupied, whichever of its versions is looked at. */
  lemma LivePlanOccupies(c: Catalog, v: VersionId, product: string, tier: Tier)
    requires Inv(c) && OnSale(c.plans, c.versions, v) && Slot(c.versions[v]) == Some((product, tier))
    ensures TierOccupied(c, product, tier)
  {
    var p := c.versions[v].plan;
    var a := FavouredVersion(c, p);
    assert a != v ==> SiblingsOk(c.versions[a], c.versions[v]);
    assert VersionOk(c.versions[a]);
    SellsItsSlot(c.versions[a], product, tier);
    assert IsAxisVersion(c, p, product, a);
  }

  lemma CreatePlanKeeps(c: Catalog, code: string, product: string, tier: Tier)
    requires Inv(c) && CreatePlan(c, code, product, tier).Ok?
    ensures Inv(CreatePlan(c, code, product, tier).value)
  {
    hide ShelfOk, PinsOk, BindingsOk, TierOccupied, FirstVersion, Slot;
    forall w | OnSale(c.plans, c.versions, w) ensures Slot(c.versions[w]) != Some((product, tier)) {
      if Slot(c.versions[w]) == Some((product, tier)) { LivePlanOccupies(c, w, product, tier); }
    }
    NewShelf(c.plans, c.versions, c.nextId, code, product, tier);
    FreshIds(c);
    NewVersionKeepsPins(c.subscriptions, c.versions, c.nextId + 1, FirstVersion(c.nextId, product, tier));
    NewVersionKeepsPins(c.orders, c.versions, c.nextId + 1, FirstVersion(c.nextId, product, tier));
    BindingsOutlive(c.bindings, c.plans, c.plans[c.nextId := Plan(code, None, false, false)]);
  }

  lemma FreshIds(c: Catalog)
    requires Inv(c)
    ensures forall i :: i >= c.nextId ==> i !in c.plans && i !in c.versions
  {
  }

  lemma BindingsOutlive(bindings: map<(string, Tier), PlanId>, plans: Plans, after: Plans)
    requires BindingsOk(bindings, plans)
    requires forall b :: b in bindings && bindings[b] in plans ==> bindings[b] in after
    ensures BindingsOk(bindings, after)
  {
  }

  lemma NewVersionKeepsPins(pins: map<nat, VersionId>, versions: Versions, i: VersionId, added: Version)
    requires PinsOk(pins, versions) && i !in versions
    ensures PinsOk(pins, versions[i := added])
  {
  }

  lemma NewShelf(plans: Plans, versions: Versions, nextId: nat, code: string, product: string, tier: Tier)
    requires ShelfOk(plans, versions, nextId)
    requires forall w :: OnSale(plans, versions, w) ==> Slot(versions[w]) != Some((product, tier))
    requires forall q :: q in plans ==> plans[q].code != code
    ensures ShelfOk(plans[nextId := Plan(code, None, false, false)],
                    versions[nextId + 1 := FirstVersion(nextId, product, tier)], nextId + 2)
  {
    hide NoShells, NumbersOk, CurrentIsPublished, CurrentIsNewest, SlotsOk, CodesOk, VersionOk, SiblingsOk;
    var row := Plan(code, None, false, false);
    var first := FirstVersion(nextId, product, tier);
    var plans' := plans[nextId := row];
    assert nextId !in plans && nextId + 1 !in versions && forall w :: w in versions ==> versions[w].plan != nextId;
    hide RowsOk;
    SkeletonOk(nextId, product, tier);
    NewCode(plans, nextId, row);
    NewRows(plans, versions, nextId, row, first);
    NewPlanRow(plans, versions, nextId, nextId, row);
    AddKeepsNumbers(versions, nextId + 1, first);
    AddKeepsCurrent(plans', versions, nextId + 1, first);
    forall w | OnSale(plans', versions, w) ensures Slot(versions[w]) != Slot(first) {
      assert OnSale(plans, versions, w);
    }
    AddKeepsSlots(plans', versions, nextId + 1, first);
  }

  lemma SkeletonOk(p: PlanId, product: string, tier: Tier)
    ensures VersionOk(FirstVersion(p, product, tier)) && Slot(FirstVersion(p, product, tier)) == Some((product, tier))
  {
  }

  lemma NewCode(plans: Plans, p: PlanId, row: Plan)
    requires CodesOk(plans) && forall q :: q in plans && q != p ==> plans[q].code != row.code
    ensures CodesOk(plans[p := row])
  {
  }

  lemma NewRows(plans: Plans, versions: Versions, nextId: nat, row: Plan, first: Version)
    requires RowsOk(plans, versions, nextId) && NoShells(plans, versions)
    requires first.plan == nextId && VersionOk(first)
    ensures RowsOk(plans[nextId := row], versions[nextId + 1 := first], nextId + 2)
    ensures NoShells(plans[nextId := row], versions[nextId + 1 := first])
  {
    var plans', after := plans[nextId := row], versions[nextId + 1 := first];
    forall p | p in plans' ensures HasVersion(after, p) {
      if p == nextId {
        assert after[nextId + 1].plan == p;
      } else {
        assert HasVersion(versions, p);
        var w :| w in versions && versions[w].plan == p;
        assert after[w].plan == p;
      }
    }
  }

  // ----- open, edit and bundle a draft -----

  lemma CreateDraftKeeps(c: Catalog, p: PlanId, major: Option<int>)
    requires Inv(c) && CreateDraft(c, p, major).Ok?
    ensures Inv(CreateDraft(c, p, major).value)
  {
    hide Inv, HasDraft;
    var v, m :| IsSource(c, p, v) && HasMaxNo(c, p, m)
      && CreateDraft(c, p, major) == CloneFrom(c, v, c.versions[m].no + 1, major);
    CloneKeeps(c, p, v, m, major);
  }

  lemma CloneKeeps(c: Catalog, p: PlanId, v: VersionId, m: VersionId, major: Option<int>)
    requires Inv(c) && IsSource(c, p, v) && HasMaxNo(c, p, m) && !HasDraft(c, p)
    requires CloneFrom(c, v, c.versions[m].no + 1, major).Ok?
    ensures Inv(CloneFrom(c, v, c.versions[m].no + 1, major).value)
  {
    hide ShelfOk, PinsOk, BindingsOk, HasDraft, HasVersion, SiblingsOk, VersionOk;
    var added := Clone(c.versions[v], c.versions[m].no + 1, major);
    forall w | w in c.versions && c.versions[w].plan == p ensures SiblingsOk(added, c.versions[w]) {
      CloneFitsIn(c, p, v, m, major, w);
    }
    SourceIsSound(c, p, v);
    CloneIsOk(c.versions[v], c.versions[m].no + 1, major);
    FreshIds(c);
    AddKeepsShelf(c.plans, c.versions, c.nextId, c.nextId, added, c.nextId + 1);
    NewVersionKeepsPins(c.subscriptions, c.versions, c.nextId, added);
    NewVersionKeepsPins(c.orders, c.versions, c.nextId, added);
  }

  lemma CloneIsOk(source: Version, no: int, major: Option<int>)
    requires VersionOk(source)
    ensures VersionOk(Clone(source, no, major))
  {
  }

  lemma SourceIsSound(c: Catalog, p: PlanId, v: VersionId)
    requires Inv(c) && IsSource(c, p, v)
    ensures HasVersion(c.versions, p) && p in c.plans && v in c.versions && c.versions[v].plan == p
      && VersionOk(c.versions[v])
  {
  }

  /** With no draft in flight every version is published, so the source is the newest of all. */
  lemma CloneFitsIn(c: Catalog, p: PlanId, v: VersionId, m: VersionId, major: Option<int>, w: VersionId)
    requires Inv(c) && IsSource(c, p, v) && HasMaxNo(c, p, m) && !HasDraft(c, p)
    requires CloneFrom(c, v, c.versions[m].no + 1, major).Ok?
    requires w in c.versions && c.versions[w].plan == p
    ensures SiblingsOk(Clone(c.versions[v], c.versions[m].no + 1, major), c.versions[w])
  {
    assert VersionOk(c.versions[w]) && c.versions[w].published;
    assert NotAhead(c.plans, c.versions, w);
    assert c.plans[p].current == Some(v);
    if w != v {
      assert SiblingsOk(c.versions[w], c.versions[v]);
    }
  }

  lemma EditKeeps(c: Catalog, v: VersionId, edited: Version)
    requires Inv(c) && v in c.versions && SameStanding(c.versions[v], edited) && VersionOk(edited)
    requires c.versions[v].published == edited.published
    ensures Inv(c.(versions := c.versions[v := edited]))
  {
    hide ShelfOk, PinsOk, BindingsOk, SameStanding, VersionOk;
    EditKeepsShelf(c.plans, c.versions, c.nextId, v, edited);
    EditKeepsPins(c.subscriptions, c.versions, v, edited);
    EditKeepsPins(c.orders, c.versions, v, edited);
  }

  /** All an edit can do to a draft. */
  lemma UpdatedDraft(c: Catalog, v: VersionId, mayPrice: bool, prices: Option<seq<PriceEntry>>, quota: Option<Quota>)
    requires UpdateDraft(c, v, mayPrice, prices, quota).Ok? && VersionOk(c.versions[v])
    ensures
      var edited := UpdateDraft(c, v, mayPrice, prices, quota).value.versions[v];
      && UpdateDraft(c, v, mayPrice, prices, quota).value == c.(versions := c.versions[v := edited])
      && SameStanding(c.versions[v], edited) && VersionOk(edited)
  {
    hide ChangesPrice, UpsertPrices;
  }

  lemma UpdateDraftKeeps(c: Catalog, v: VersionId, mayPrice: bool,
                         prices: Option<seq<PriceEntry>>, quota: Option<Quota>)
    requires Inv(c) && UpdateDraft(c, v, mayPrice, prices, quota).Ok?
    ensures Inv(UpdateDraft(c, v, mayPrice, prices, quota).value)
  {
    assert VersionOk(c.versions[v]);
    UpdatedDraft(c, v, mayPrice, prices, quota);
    hide Inv, UpdateDraft, VersionOk;
    EditKeeps(c, v, UpdateDraft(c, v, mayPrice, prices, quota).value.versions[v]);
  }

  lemma {:induction false} ResolvedInOrder(products: map<string, Product>, items: seq<BundledItem>,
                                         primary: Option<Primary>)
    requires ResolveItems(products, items, primary).Ok?
    ensures
      var ks := ResolveItems(products, items, primary).value;
      && |ks| == |items|
      && forall i :: 0 <= i < |ks| ==>
           && ks[i] == BundleOf(items[i])
           && (primary.Some? ==> ks[i].priority < primary.value.priority && ks[i].product != primary.value.product)
           && items[i].product in products && products[items[i].product].live
             && products[items[i].product].layer == Some("L2")
  {
    if items != [] {
      ResolvedInOrder(products, items[1..], primary);
    }
  }

  /** What is sent is what remains: the bundled rows are the items, one for one, and nothing else changes. */
  lemma ReplacedBundles(c: Catalog, v: VersionId, items: seq<BundledItem>)
    requires ReplaceBundled(c, v, items).Ok? && VersionOk(c.versions[v])
    ensures
      var edited := ReplaceBundled(c, v, items).value.versions[v];
      && ReplaceBundled(c, v, items).value == c.(versions := c.versions[v := edited])
      && edited == c.versions[v].(bundles := edited.bundles) && |edited.bundles| == |items|
      && (forall i :: 0 <= i < |items| ==> edited.bundles[i] == BundleOf(items[i]))
      && SameStanding(c.versions[v], edited) && VersionOk(edited)
  {
    ResolvedInOrder(c.products, items, PrimaryOf(c.versions[v]));
  }

  /** An item that may be bundled: a live L2 product, not the primary, and burning before it. */
  predicate Bundleable(products: map<string, Product>, item: BundledItem, primary: Option<Primary>) {
    && item.product in products && products[item.product].live && products[item.product].layer == Some("L2")
    && (primary.Some? ==> item.product != primary.value.product && ResolvedPriority(item) < primary.value.priority)
  }

  lemma {:induction false} ResolvedExactly(products: map<string, Product>, items: seq<BundledItem>,
                                         primary: Option<Primary>)
    ensures ResolveItems(products, items, primary).Ok? <==>
      forall i :: 0 <= i < |items| ==> Bundleable(products, items[i], primary)
  {
    if items != [] {
      ResolvedExactly(products, items[1..], primary);
      assert forall i :: 0 < i < |items| ==> items[i] == items[1..][i - 1];
    }
  }

  lemma ReplaceBundledKeeps(c: Catalog, v: VersionId, items: seq<BundledItem>)
    requires Inv(c) && ReplaceBundled(c, v, items).Ok?
    ensures Inv(ReplaceBundled(c, v, items).value)
  {
    assert VersionOk(c.versions[v]);
    hide Inv;
    ReplacedBundles(c, v, items);
    hide VersionOk, ReplaceBundled;
    EditKeeps(c, v, ReplaceBundled(c, v, items).value.versions[v]);
  }

  // ----- publish -----

  lemma PublishKeeps(c: Catalog, v: VersionId)
    requires Inv(c) && Publish(c, v).Ok?
    ensures Inv(Publish(c, v).value)
  {
    hide ShelfOk, PinsOk, BindingsOk, TierClash;
    PublishKeepsShelf(c.plans, c.versions, c.nextId, v);
    EditKeepsPins(c.subscriptions, c.versions, v, c.versions[v].(published := true, locked := true));
    EditKeepsPins(c.orders, c.versions, v, c.versions[v].(published := true, locked := true));
    var p := c.versions[v].plan;
    BindingsOutlive(c.bindings, c.plans, c.plans[p := c.plans[p].(current := Some(v))]);
  }

  lemma PublishKeepsShelf(plans: Plans, versions: Versions, nextId: nat, v: VersionId)
    requires ShelfOk(plans, versions, nextId) && v in versions && !versions[v].published && versions[v].plan in plans
    ensures ShelfOk(plans[versions[v].plan := plans[versions[v].plan].(current := Some(v))],
                    versions[v := versions[v].(published := true, locked := true)], nextId)
  {
    PublishKeepsRows(plans, versions, nextId, v);
    PublishKeepsCurrent(plans, versions, v);
    PublishKeepsSlots(plans, versions, v);
    hide RowsOk, NoShells, NumbersOk, CurrentIsPublished, CurrentIsNewest, SlotsOk, CodesOk;
  }

  lemma PublishKeepsRows(plans: Plans, versions: Versions, nextId: nat, v: VersionId)
    requires RowsOk(plans, versions, nextId) && NoShells(plans, versions) && CodesOk(plans)
    requires v in versions && !versions[v].published && versions[v].plan in plans
    ensures
      var plans' := plans[versions[v].plan := plans[versions[v].plan].(current := Some(v))];
      var after := versions[v := versions[v].(published := true, locked := true)];
      RowsOk(plans', after, nextId) && NoShells(plans', after) && CodesOk(plans')
  {
    hide VersionOk;
    var plans' := plans[versions[v].plan := plans[versions[v].plan].(current := Some(v))];
    var after := versions[v := versions[v].(published := true, locked := true)];
    FreezingIsOk(versions[v]);
    forall w | w in versions ensures HasVersion(after, versions[w].plan) {
      assert after[w].plan == versions[w].plan;
    }
    SurvivorsLeaveNoShells(plans, versions, after);
  }

  lemma FreezingIsOk(v: Version)
    requires VersionOk(v)
    ensures VersionOk(v.(published := true, locked := true))
  {
  }

  lemma PublishKeepsSlots(plans: Plans, versions: Versions, v: VersionId)
    requires NumbersOk(versions) && SlotsOk(plans, versions)
    requires v in versions && !versions[v].published && versions[v].plan in plans
    ensures
      var plans' := plans[versions[v].plan := plans[versions[v].plan].(current := Some(v))];
      var after := versions[v := versions[v].(published := true, locked := true)];
      NumbersOk(after) && SlotsOk(plans', after)
  {
    var plans' := plans[versions[v].plan := plans[versions[v].plan].(current := Some(v))];
    var after := versions[v := versions[v].(published := true, locked := true)];
    forall a, b | a in after && b in after && a != b && after[a].plan == after[b].plan
      ensures SiblingsOk(after[a], after[b])
    {
      assert SiblingsOk(versions[a], versions[b]);
    }
    forall a, b | OnSale(plans', after, a) && OnSale(plans', after, b) && after[a].plan != after[b].plan
      ensures Slot(after[a]) != Slot(after[b])
    {
      assert OnSale(plans, versions, a) && OnSale(plans, versions, b);
    }
  }

  lemma PublishKeepsCurrent(plans: Plans, versions: Versions, v: VersionId)
    requires NumbersOk(versions) && CurrentIsPublished(plans, versions) && CurrentIsNewest(plans, versions)
    requires v in versions && !versions[v].published && versions[v].plan in plans
    ensures
      var plans' := plans[versions[v].plan := plans[versions[v].plan].(current := Some(v))];
      var after := versions[v := versions[v].(published := true, locked := true)];
      CurrentIsPublished(plans', after) && CurrentIsNewest(plans', after)
  {
    var plans' := plans[versions[v].plan := plans[versions[v].plan].(current := Some(v))];
    var after := versions[v := versions[v].(published := true, locked := true)];
    forall w | w in after && after[w].published && after[w].plan in plans' ensures NotAhead(plans', after, w) {
      if w != v && versions[w].plan == versions[v].plan {
        assert SiblingsOk(versions[v], versions[w]);
      } else if w != v {
        assert NotAhead(plans, versions, w);
        assert plans[versions[w].plan].current.value != v;
      }
    }
  }

  // ----- delete -----

  lemma DeleteVersionKeeps(c: Catalog, v: VersionId)
    requires Inv(c) && DeleteVersion(c, v).Ok?
    ensures Inv(DeleteVersion(c, v).value)
  {
    hide BindingsOk, NumbersOk, CurrentIsPublished, CurrentIsNewest, SlotsOk, CodesOk, RowsOk;
    assert !(forall w :: w in c.versions && c.versions[w].plan == c.versions[v].plan ==> w == v);
    assert c.versions[v].plan in c.plans by { RowsHavePlans(c); }
    var s :| s in c.versions && c.versions[s].plan == c.versions[v].plan && s != v;
    SiblingRemains(c.plans, c.versions, v, s);
    RowsHavePlans(c);
    RemovalKeeps(c.plans, c.versions, c.plans, c.versions - {v}, c.nextId);
  }

  lemma RowsHavePlans(c: Catalog)
    requires Inv(c)
    ensures forall v :: v in c.versions ==> c.versions[v].plan in c.plans
  {
  }

  lemma SiblingRemains(plans: Plans, versions: Versions, v: VersionId, s: VersionId)
    requires NoShells(plans, versions) && v in versions && s in versions
      && versions[s].plan == versions[v].plan && s != v
    ensures NoShells(plans, versions - {v})
  {
    var after := versions - {v};
    forall w | w in versions ensures HasVersion(after, versions[w].plan) {
      var k := if w == v then s else w;
      assert k in after && after[k].plan == versions[w].plan;
    }
    SurvivorsLeaveNoShells(plans, versions, after);
  }

  /** Removing unpublished versions, or whole plans, disturbs nothing that stays. */
  lemma RemovalKeeps(plans: Plans, versions: Versions, plans': Plans, after: Versions, nextId: nat)
    requires ShelfOk(plans, versions, nextId) && NoShells(plans', after)
    requires forall w :: w in after ==> w in versions && after[w] == versions[w] && versions[w].plan in plans'
    requires forall p :: p in plans' ==> p in plans && plans'[p] == plans[p]
    requires forall w :: w in versions && versions[w].published && versions[w].plan in plans' ==> w in after
    ensures ShelfOk(plans', after, nextId)
  {
    assert RowsOk(plans', after, nextId);
    assert NumbersOk(after);
    forall w | w in after && after[w].published && after[w].plan in plans' ensures NotAhead(plans', after, w) {
      assert NotAhead(plans, versions, w);
    }
    forall a, b | OnSale(plans', after, a) && OnSale(plans', after, b) && after[a].plan != after[b].plan
      ensures Slot(after[a]) != Slot(after[b])
    {
      assert OnSale(plans, versions, a) && OnSale(plans, versions, b);
    }
  }

  lemma DeletePlanKeeps(c: Catalog, p: PlanId, confirm: bool)
    requires Inv(c) && DeletePlan(c, p, confirm).Ok?
    ensures Inv(DeletePlan(c, p, confirm).value)
  {
    hide ShelfOk, RowsOk, NumbersOk, CurrentIsPublished, CurrentIsNewest, SlotsOk, CodesOk;
    RowsHavePlans(c);
    PlanRemoved(c.plans, c.versions, p, c.nextId);
    BindingsOutlive(c.bindings, c.plans, c.plans - {p});
  }

  lemma PlanRemoved(plans: Plans, versions: Versions, p: PlanId, nextId: nat)
    requires ShelfOk(plans, versions, nextId)
    ensures ShelfOk(plans - {p}, VersionsExcept(versions, p), nextId)
  {
    hide NumbersOk, CurrentIsPublished, CurrentIsNewest, SlotsOk, CodesOk, VersionOk;
    var plans', after := plans - {p}, VersionsExcept(versions, p);
    forall q | q in plans' ensures HasVersion(after, q) {
      assert HasVersion(versions, q);
      var w :| w in versions && versions[w].plan == q;
      assert after[w].plan == q;
    }
    RemovalKeeps(plans, versions, plans', after, nextId);
  }

  lemma DropProductKeeps(c: Catalog, product: string)
    requires Inv(c) && DropProduct(c, product).Ok?
    ensures Inv(DropProduct(c, product).value)
  {
    hide ShelfOk, BindingsOk, PinsOk;
    RowsHavePlans(c);
    var n := DropProduct(c, product).value;
    ProductRemoved(c, product, n.plans, n.versions);
    SparedPins(c, product, c.subscriptions, n.versions);
    SparedPins(c, product, c.orders, n.versions);
    SparedBindings(c, product, n.plans);
  }

  lemma ProductRemoved(c: Catalog, product: string, plans': Plans, after: Versions)
    requires ShelfOk(c.plans, c.versions, c.nextId)
    requires plans' == map p | p in c.plans && !BelongsTo(c, p, product) :: c.plans[p]
    requires after == map v | v in c.versions && !BelongsTo(c, c.versions[v].plan, product) :: c.versions[v]
    ensures ShelfOk(plans', after, c.nextId)
  {
    hide NumbersOk, CurrentIsPublished, CurrentIsNewest, SlotsOk, CodesOk, VersionOk, BelongsTo;
    forall q | q in plans' ensures HasVersion(after, q) {
      assert HasVersion(c.versions, q);
      var w :| w in c.versions && c.versions[w].plan == q;
      assert after[w].plan == q;
    }
    RemovalKeeps(c.plans, c.versions, plans', after, c.nextId);
  }

  lemma SparedPins(c: Catalog, product: string, pins: map<nat, VersionId>, after: Versions)
    requires PinsOk(pins, c.versions) && (pins == c.subscriptions || pins == c.orders)
    requires forall v :: v in c.versions ==> c.versions[v].plan in c.plans
    requires forall p :: p in c.plans && BelongsTo(c, p, product) ==> Deletable(c, p)
    requires after == map v | v in c.versions && !BelongsTo(c, c.versions[v].plan, product) :: c.versions[v]
    ensures PinsOk(pins, after)
  {
    hide BelongsTo;
    forall s | s in pins ensures Pinnable(after, pins[s]) {
      assert Pinnable(c.versions, pins[s]);
      assert Has(c, c.versions[pins[s]].plan, pins[s]);
    }
  }

  lemma SparedBindings(c: Catalog, product: string, plans': Plans)
    requires BindingsOk(c.bindings, c.plans)
    requires forall p :: p in c.plans && BelongsTo(c, p, product) ==> Deletable(c, p)
    requires plans' == map p | p in c.plans && !BelongsTo(c, p, product) :: c.plans[p]
    ensures BindingsOk(c.bindings, plans')
  {
    hide BelongsTo;
  }

  // ----- the other steps -----

  /** Taking a plan off sale. */
  lemma WithdrawKeeps(c: Catalog, p: PlanId, row: Plan)
    requires Inv(c) && p in c.plans && row.code == c.plans[p].code && row.current == c.plans[p].current && !row.Live()
    ensures Inv(c.(plans := c.plans[p := row]))
  {
    hide ShelfOk, PinsOk, BindingsOk;
    WithdrawKeepsShelf(c.plans, c.versions, c.nextId, p, row);
    BindingsOutlive(c.bindings, c.plans, c.plans[p := row]);
  }

  lemma WithdrawKeepsShelf(plans: Plans, versions: Versions, nextId: nat, p: PlanId, row: Plan)
    requires ShelfOk(plans, versions, nextId)
    requires p in plans && row.code == plans[p].code && row.current == plans[p].current && !row.Live()
    ensures ShelfOk(plans[p := row], versions, nextId)
  {
    hide NumbersOk, CurrentIsPublished, CurrentIsNewest, SlotsOk, VersionOk, HasVersion;
    assert CodesOk(plans[p := row]);
    WithdrawKeepsCurrent(plans, versions, p, row);
    WithdrawKeepsSlots(plans, versions, p, row);
  }

  lemma WithdrawKeepsSlots(plans: Plans, versions: Versions, p: PlanId, row: Plan)
    requires SlotsOk(plans, versions) && p in plans && !row.Live()
    ensures SlotsOk(plans[p := row], versions)
  {
    var plans' := plans[p := row];
    forall a, b | OnSale(plans', versions, a) && OnSale(plans', versions, b) && versions[a].plan != versions[b].plan
      ensures Slot(versions[a]) != Slot(versions[b])
    {
      assert OnSale(plans, versions, a) && OnSale(plans, versions, b);
    }
  }

  lemma WithdrawKeepsCurrent(plans: Plans, versions: Versions, p: PlanId, row: Plan)
    requires CurrentIsPublished(plans, versions) && CurrentIsNewest(plans, versions)
    requires p in plans && row.current == plans[p].current
    ensures CurrentIsPublished(plans[p := row], versions) && CurrentIsNewest(plans[p := row], versions)
  {
    var plans' := plans[p := row];
    forall w | w in versions && versions[w].published && versions[w].plan in plans'
      ensures NotAhead(plans', versions, w) {
      assert NotAhead(plans, versions, w);
    }
  }

  lemma BindKeeps(c: Catalog, solution: string, tier: Tier, p: PlanId)
    requires Inv(c) && Bind(c, solution, tier, p).Ok?
    ensures Inv(Bind(c, solution, tier, p).value)
  {
    hide ShelfOk, PinsOk;
  }

  lemma DroppedBindingsKeep(c: Catalog, solutions: set<string>, bindings: map<(string, Tier), PlanId>)
    requires Inv(c) && forall b :: b in bindings ==> b in c.bindings && bindings[b] == c.bindings[b]
    ensures Inv(c.(solutions := solutions, bindings := bindings))
  {
    hide ShelfOk, PinsOk;
  }

  lemma PinKeeps(pins: map<nat, VersionId>, versions: Versions, s: nat, v: VersionId)
    requires PinsOk(pins, versions) && Pinnable(versions, v)
    ensures PinsOk(pins[s := v], versions)
  {
  }

  lemma StepKeepsInv(c: Catalog, op: Op)
    requires Inv(c)
    ensures Inv(Apply(c, op))
  {
    hide ShelfOk, PinsOk, BindingsOk, CreatePlan, CreateDraft, UpdateDraft, ReplaceBundled, Publish,
         DeleteVersion, DeletePlan, DropProduct;
    if Attempt(c, op).Ok? {
      match op
      case OpCreatePlan(code, product, tier) => CreatePlanKeeps(c, code, product, tier);
      case OpCreateDraft(p, major) => CreateDraftKeeps(c, p, major);
      case OpUpdateDraft(v, mayPrice, prices, quota) => UpdateDraftKeeps(c, v, mayPrice, prices, quota);
      case OpReplaceBundled(v, items) => ReplaceBundledKeeps(c, v, items);
      case OpPublish(v) => PublishKeeps(c, v);
      case OpDeleteVersion(v) => DeleteVersionKeeps(c, v);
      case OpDeletePlan(p, confirm) => DeletePlanKeeps(c, p, confirm);
      case OpDeprecate(p) => WithdrawKeeps(c, p, c.plans[p].(deprecated := true));
      case OpBind(solution, tier, p) => BindKeeps(c, solution, tier, p);
      case OpUnbind(solution, tier) => DroppedBindingsKeep(c, c.solutions, c.bindings - {(solution, tier)});
      case EnvProduct(code, row) =>
      case EnvDropProduct(product) => DropProductKeeps(c, product);
      case EnvSolution(solution) => DroppedBindingsKeep(c, c.solutions + {solution}, c.bindings);
      case EnvDropSolution(solution) =>
        DroppedBindingsKeep(c, c.solutions - {solution},
                            map slot | slot in c.bindings && slot.0 != solution :: c.bindings[slot]);
      case EnvSoftDelete(p) => WithdrawKeeps(c, p, c.plans[p].(deleted := true));
      case EnvSubscribe(s, v) => PinKeeps(c.subscriptions, c.versions, s, v);
      case EnvOrder(o, v) => PinKeeps(c.orders, c.versions, o, v);
    }
  }

  lemma {:induction false} RunKeepsInv(c: Catalog, ops: seq<Op>)
    requires Inv(c)
    ensures Inv(Run(c, ops))
    decreases ops
  {
    if ops != [] {
      StepKeepsInv(c, ops[0]);
      RunKeepsInv(Apply(c, ops[0]), ops[1..]);
    }
  }

  lemma EmptyCatalogOk()
    ensures Inv(EMPTY)
  {
  }
}
