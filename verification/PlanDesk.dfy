/** The plan tables as the handlers of the products router change them, one statement after another. */
module PlanDesk {
  import opened Common
  import opened PlanCatalog
  import opened PlanInvariant

  class PlanTables {
    var products: map<string, Product>
    var plans: map<PlanId, Plan>
    var versions: map<VersionId, Version>
    var subscriptions: map<nat, VersionId>
    var orders: map<nat, VersionId>
    var solutions: set<string>
    var bindings: map<(string, Tier), PlanId>
    var nextId: nat

    function State(): Catalog
      reads this
    {
      Catalog(products, plans, versions, subscriptions, orders, solutions, bindings, nextId)
    }

    ghost predicate Valid()
      reads this
    {
      Inv(State())
    }

    constructor ()
      ensures Valid() && State() == EMPTY
    {
      products, plans, versions, subscriptions := map[], map[], map[], map[];
      orders, solutions, bindings, nextId := map[], {}, map[], 0;
    }

    method CreatePlan(code: string, product: string, tier: Tier) returns (refusal: Option<Error>)
      modifies this
      ensures Ended(old(State()), PlanCatalog.CreatePlan(old(State()), code, product, tier), State(), refusal)
    {
      hide TierOccupied;
      if product !in products || !products[product].live { return Some(NotFound); }
      if !products[product].standalone { return Some(BadRequest); }
      if TierOccupied(State(), product, tier) { return Some(Conflict); }
      if exists p :: p in plans && plans[p].code == code { return Some(Conflict); }
      var plan, draft := nextId, nextId + 1;
      nextId := nextId + 2;
      plans := plans[plan := Plan(code, None, false, false)];
      versions := versions[draft := Version(plan, 1, 1, false, false, [], [], map[], None)];
      var primary := Primary(product, tier, 100, [], Quota(Absent, map[]));
      versions := versions[draft := versions[draft].(primaries := [primary])];
      assert versions == old(versions)[draft := FirstVersion(plan, product, tier)];
      refusal := None;
    }

    /** `ORDER BY (v.id = current) DESC, version_no DESC LIMIT 1` and `max(version_no)` */
    method SelectSource(p: PlanId, requestedMajor: Option<int>) returns (source: VersionId, newest: VersionId)
      requires Valid() && p in plans && !plans[p].deleted && !HasDraft(State(), p)
      requires !(requestedMajor.Some? && requestedMajor.value < 1)
      ensures source in versions && newest in versions && versions[source].plan == p && source < nextId
      ensures IsSource(State(), p, source) && HasMaxNo(State(), p, newest)
      ensures CreateDraft(State(), p, requestedMajor)
           == CloneFrom(State(), source, versions[newest].no + 1, requestedMajor)
    {
      hide Inv, IsSource, HasMaxNo, HasDraft, CreateDraft, CloneFrom;
      SourceExists(State(), p);
      source :| source in versions && IsSource(State(), p, source);
      newest :| newest in versions && HasMaxNo(State(), p, newest);
      DraftSourceIsUnique(State(), p, requestedMajor, source, newest);
      SourceRow(State(), p, source);
    }

    method CreateDraftVersion(p: PlanId, requestedMajor: Option<int>) returns (refusal: Option<Error>)
      requires Valid()
      modifies this
      ensures Ended(old(State()), CreateDraft(old(State()), p, requestedMajor), State(), refusal)
    {
      if requestedMajor.Some? && requestedMajor.value < 1 { return Some(BadRequest); }
      if p !in plans || plans[p].deleted { return Some(NotFound); }
      if HasDraft(State(), p) { return Some(Conflict); }
      hide Inv, HasDraft;
      var source, newest := SelectSource(p, requestedMajor);
      hide CreateDraft;
      refusal := InsertClone(p, source, versions[newest].no + 1, requestedMajor);
    }

    /** The version row, then its component rows, then its price rows. */
    method InsertClone(p: PlanId, source: VersionId, no: int, requestedMajor: Option<int>)
        returns (refusal: Option<Error>)
      requires source in versions && versions[source].plan == p && source < nextId
      modifies this
      ensures Ended(old(State()), CloneFrom(old(State()), source, no, requestedMajor), State(), refusal)
    {
      var from := versions[source];
      if requestedMajor.Some? && requestedMajor.value < from.major { return Some(BadRequest); }
      var major := if requestedMajor.Some? then requestedMajor.value else from.major;
      var draft := nextId;
      nextId := nextId + 1;
      versions := versions[draft := Version(p, no, major, false, false, [], [], map[], from.trial)];
      versions := versions[draft := versions[draft].(primaries := from.primaries, bundles := from.bundles)];
      versions := versions[draft := versions[draft].(prices := from.prices)];
      assert versions == old(versions)[draft := Clone(from, no, requestedMajor)];
      refusal := None;
    }

    method UpdateDraftVersion(v: VersionId, mayPrice: bool, prices: Option<seq<PriceEntry>>, quota: Option<Quota>)
        returns (refusal: Option<Error>)
      modifies this
      ensures Ended(old(State()), UpdateDraft(old(State()), v, mayPrice, prices, quota), State(), refusal)
    {
      hide ChangesPrice;
      if v !in versions { return Some(NotFound); }
      if versions[v].published || versions[v].locked { return Some(BadRequest); }
      if prices.Some? && ChangesPrice(versions[v].prices, prices.value) && !mayPrice { return Some(Forbidden); }
      var before := versions;
      if prices.Some? {
        var entries := prices.value;
        var i := 0;
        assert entries[0..] == entries;
        while i < |entries|
          invariant 0 <= i <= |entries| && v in versions
          invariant State() == old(State()).(versions := before[v := before[v].(prices := versions[v].prices)])
          invariant UpsertPrices(before[v].prices, entries) == UpsertPrices(versions[v].prices, entries[i..])
        {
          assert entries[i..][0] == entries[i] && entries[i..][1..] == entries[i + 1..];
          if !Acceptable(entries[i]) {
            versions := before;
            return Some(BadRequest);
          }
          var e := entries[i];
          var upserted := versions[v].prices[PerCycle(e.unit) := RoundCents(e.price.yuan)];
          versions := versions[v := versions[v].(prices := upserted)];
          i := i + 1;
        }
      }
      if quota.Some? {
        if !ShareAllowed(quota.value) {
          versions := before;
          return Some(BadRequest);
        }
        versions := versions[v := versions[v].(primaries := WithQuota(versions[v].primaries, quota.value))];
      }
      assert versions == UpdateDraft(old(State()), v, mayPrice, prices, quota).value.versions;
      refusal := None;
    }

    method ReplaceBundledComponents(v: VersionId, items: seq<BundledItem>) returns (refusal: Option<Error>)
      modifies this
      ensures Ended(old(State()), ReplaceBundled(old(State()), v, items), State(), refusal)
    {
      hide ItemsWellFormed;
      if !ItemsWellFormed(items) { return Some(BadRequest); }
      if v !in versions { return Some(NotFound); }
      if versions[v].published || versions[v].locked { return Some(Conflict); }
      var resolved := ResolveItems(products, items, PrimaryOf(versions[v]));
      if resolved.Err? { return Some(resolved.error); }
      versions := versions[v := versions[v].(bundles := [])];
      var i := 0;
      while i < |resolved.value|
        invariant 0 <= i <= |resolved.value|
        invariant State() == old(State()).(
                    versions := old(versions)[v := old(versions[v]).(bundles := resolved.value[..i])])
      {
        assert resolved.value[..i + 1] == resolved.value[..i] + [resolved.value[i]];
        versions := versions[v := versions[v].(bundles := versions[v].bundles + [resolved.value[i]])];
        i := i + 1;
      }
      assert resolved.value[..i] == resolved.value;
      refusal := None;
    }

    method PublishPlanVersion(v: VersionId) returns (refusal: Option<Error>)
      modifies this
      ensures Ended(old(State()), Publish(old(State()), v), State(), refusal)
    {
      hide TierClash;
      if v !in versions || versions[v].plan !in plans { return Some(NotFound); }
      if versions[v].published { return Some(BadRequest); }
      if TierClash(State(), v) { return Some(Conflict); }
      var p := versions[v].plan;
      versions := versions[v := versions[v].(published := true, locked := true)];
      plans := plans[p := plans[p].(current := Some(v))];
      refusal := None;
    }

    method DeletePlanVersion(v: VersionId) returns (refusal: Option<Error>)
      modifies this
      ensures Ended(old(State()), DeleteVersion(old(State()), v), State(), refusal)
    {
      if v !in versions || versions[v].plan !in plans { return Some(NotFound); }
      if versions[v].published || versions[v].locked { return Some(Conflict); }
      if plans[versions[v].plan].current == Some(v) { return Some(Conflict); }
      var siblings := set w | w in versions && versions[w].plan == versions[v].plan && w != v;
      if siblings == {} {
        assert forall w :: w in versions && versions[w].plan == versions[v].plan && w != v ==> w in siblings;
        return Some(Conflict);
      }
      var s :| s in siblings;
      versions := versions - {v};
      refusal := None;
    }

    /** Version rows and their children go with the plan row: `ON DELETE CASCADE`. */
    method DeletePlan(p: PlanId, confirm: bool) returns (refusal: Option<Error>)
      modifies this
      ensures Ended(old(State()), PlanCatalog.DeletePlan(old(State()), p, confirm), State(), refusal)
    {
      hide Deletable;
      if !confirm { return Some(BadRequest); }
      if p !in plans || plans[p].deleted { return Some(NotFound); }
      if !Deletable(State(), p) { return Some(Conflict); }
      plans := plans - {p};
      versions := VersionsExcept(versions, p);
      refusal := None;
    }
  }

  /** So every method is a step of the specification, and keeps the joint invariant. */
  lemma MethodsAreSteps(before: Catalog, op: Op, after: Catalog, refusal: Option<Error>)
    requires Ended(before, Attempt(before, op), after, refusal)
    ensures after == Apply(before, op)
    ensures Inv(before) ==> Inv(after)
  {
    hide Attempt, Inv;
    if Inv(before) { StepKeepsInv(before, op); }
  }

  lemma DraftSourceIsUnique(c: Catalog, p: PlanId, requestedMajor: Option<int>, source: VersionId, newest: VersionId)
    requires Inv(c) && p in c.plans && !c.plans[p].deleted && !HasDraft(c, p)
    requires !(requestedMajor.Some? && requestedMajor.value < 1)
    requires IsSource(c, p, source) && HasMaxNo(c, p, newest)
    ensures CreateDraft(c, p, requestedMajor) == CloneFrom(c, source, c.versions[newest].no + 1, requestedMajor)
  {
    hide Inv, IsSource, HasDraft, CloneFrom;
    OnlyOneSource(c, p, source, newest);
    assert exists v, m :: IsSource(c, p, v) && HasMaxNo(c, p, m);
    hide HasMaxNo;
  }

  lemma SourceExists(c: Catalog, p: PlanId)
    requires Inv(c) && p in c.plans
    ensures exists v :: v in c.versions && IsSource(c, p, v)
    ensures exists m :: m in c.versions && HasMaxNo(c, p, m)
  {
    hide Inv, IsSource, HasMaxNo;
    var v := FavouredVersion(c, p);
    var m := NewestVersion(c, p);
  }

  lemma SourceRow(c: Catalog, p: PlanId, source: VersionId)
    requires Inv(c) && IsSource(c, p, source)
    ensures source in c.versions && c.versions[source].plan == p && source < c.nextId
  {
  }

  lemma OnlyOneSource(c: Catalog, p: PlanId, source: VersionId, newest: VersionId)
    requires Inv(c) && IsSource(c, p, source) && HasMaxNo(c, p, newest)
    ensures forall v :: IsSource(c, p, v) ==> v == source
    ensures forall m :: HasMaxNo(c, p, m) ==> m == newest
  {
    hide IsSource, HasMaxNo;
    forall v | IsSource(c, p, v) ensures v == source { OnlySource(c, p, v, source); }
    forall m | HasMaxNo(c, p, m) ensures m == newest { OnlySource(c, p, m, newest); }
  }
}
