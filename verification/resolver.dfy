/** Loading the default tier: `loadDefaultModels` and `loadFallbackData`
    (app.js lines 22-71 and 139-142). Each curated default takes its costs from
    the first catalog record with exactly its name and region. */
module Resolver {
  import opened Common
  import opened Models

  /** What fetching `/pricing/normalized-pricing.json` produced: a parsed
      array, or a failure (network error, non-2xx status, bad JSON). */
  datatype Fetch = FetchFailed | Fetched(catalog: seq<CatalogEntry>)

  /** The default tier and the reference catalog (`bedrockPricing`). */
  datatype Loaded = Loaded(defaults: seq<Model>, reference: seq<CatalogEntry>)

  /** The catalog record describes the curated model: equal name and equal
      region, both compared exactly. */
  predicate Matches(e: CatalogEntry, d: Model) {
    e.name == d.name && e.region == d.region
  }

  /** `awsPricing.find(...)`: the first catalog record for the curated model. */
  function FirstMatch(cat: seq<CatalogEntry>, d: Model): (r: Option<nat>)
    ensures r.Some? ==> r.value < |cat| && Matches(cat[r.value], d)
    ensures r.Some? ==> forall k :: 0 <= k < r.value ==> !Matches(cat[k], d)
    ensures r.None? ==> forall k :: 0 <= k < |cat| ==> !Matches(cat[k], d)
    decreases |cat|
  {
    if |cat| == 0 then None
    else if Matches(cat[0], d) then Some(0)
    else
      match FirstMatch(cat[1..], d)
      case None => None
      case Some(k) => Some(k + 1)
  }

  /** `x || fallback` on a cost: zero is falsy in JavaScript. */
  function OrElse(x: real, fallback: real): real {
    if x != 0.0 then x else fallback
  }

  /** One curated default after enrichment. */
  function Enrich(d: Model, cat: seq<CatalogEntry>): (r: Model)
    ensures r.provider == d.provider && r.name == d.name && r.region == d.region && r.tier == d.tier
    ensures (forall k :: 0 <= k < |cat| ==> !Matches(cat[k], d)) ==> r == d
    ensures forall j :: 0 <= j < |cat| && Matches(cat[j], d) && (forall k :: 0 <= k < j ==> !Matches(cat[k], d)) ==>
              && r.inputCost == (if cat[j].inputCost != 0.0 then cat[j].inputCost else d.inputCost)
              && r.outputCost == (if cat[j].outputCost != 0.0 then cat[j].outputCost else d.outputCost)
  {
    match FirstMatch(cat, d)
    case None => d
    case Some(j) =>
      assert forall i :: 0 <= i < |cat| && Matches(cat[i], d) && (forall k :: 0 <= k < i ==> !Matches(cat[k], d)) ==> i == j;
      d.(inputCost := OrElse(cat[j].inputCost, d.inputCost), outputCost := OrElse(cat[j].outputCost, d.outputCost))
  }

  /** The enriched default tier: `DEFAULT_MODELS.forEach(...)` over a non-empty catalog. */
  function ResolveDefaults(cat: seq<CatalogEntry>): (r: seq<Model>)
    ensures |r| == |DefaultModels|
    ensures forall i :: 0 <= i < |r| ==> r[i] == Enrich(DefaultModels[i], cat)
  {
    seq(|DefaultModels|, i requires 0 <= i < |DefaultModels| => Enrich(DefaultModels[i], cat))
  }

  /** `loadDefaultModels`: enrich from a non-empty catalog, otherwise fall back
      to the curated list; the reference catalog is the fetched one with every
      provider relabelled "AWS", and stays empty on the fallback path. */
  function Load(fetch: Fetch): (r: Loaded)
    ensures fetch.FetchFailed? || |fetch.catalog| == 0 ==> r == Loaded(DefaultModels, [])
    ensures fetch.Fetched? && |fetch.catalog| > 0 ==>
              && r.defaults == ResolveDefaults(fetch.catalog)
              && |r.reference| == |fetch.catalog|
              && forall i :: 0 <= i < |fetch.catalog| ==> r.reference[i] == fetch.catalog[i].(provider := "AWS")
  {
    match fetch
    case FetchFailed => Loaded(DefaultModels, [])
    case Fetched(cat) =>
      if |cat| > 0 then
        Loaded(ResolveDefaults(cat), seq(|cat|, i requires 0 <= i < |cat| => cat[i].(provider := "AWS")))
      else Loaded(DefaultModels, [])
  }

  /** Resolver shape: same length and order as the curated list; each entry
      keeps its provider, name, region and default tier. */
  lemma ResolvedShape(fetch: Fetch)
    ensures var ds := Load(fetch).defaults;
      && |ds| == |DefaultModels|
      && forall i :: 0 <= i < |ds| ==>
           && ds[i].provider == DefaultModels[i].provider
           && ds[i].name == DefaultModels[i].name
           && ds[i].region == DefaultModels[i].region
           && ds[i].tier == Default
  {
  }

  /** A curated default that no catalog record matches keeps its curated costs,
      whatever else the catalog holds. */
  lemma UnmatchedDefaultKept(fetch: Fetch, i: nat)
    requires i < |DefaultModels|
    requires fetch.Fetched? ==> forall k :: 0 <= k < |fetch.catalog| ==> !Matches(fetch.catalog[k], DefaultModels[i])
    ensures Load(fetch).defaults[i] == DefaultModels[i]
  {
  }

  /** A curated default whose first matching record has non-zero costs takes
      the catalog's costs. */
  lemma MatchedDefaultEnriched(cat: seq<CatalogEntry>, i: nat, j: nat)
    requires i < |DefaultModels| && j < |cat|
    requires Matches(cat[j], DefaultModels[i]) && forall k :: 0 <= k < j ==> !Matches(cat[k], DefaultModels[i])
    requires cat[j].inputCost != 0.0 && cat[j].outputCost != 0.0
    ensures Load(Fetched(cat)).defaults[i].inputCost == cat[j].inputCost
    ensures Load(Fetched(cat)).defaults[i].outputCost == cat[j].outputCost
  {
  }
}
