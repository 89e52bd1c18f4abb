/** The two halves joined: the records the pricing Lambda writes are the
    catalog the page fetches (lambda-function/index.js lines 102-109, read
    back by app.js lines 22-66). */
module Pipeline {
  import opened Common
  import opened Text
  import opened UsageType
  import opened Models
  import opened Normalizer
  import opened Resolver

  /** A complete record as the page reads it back from JSON. */
  function Publish(recs: seq<PriceRecord>): (r: seq<CatalogEntry>)
    ensures |r| == |recs|
    ensures forall k :: 0 <= k < |recs| ==>
              && r[k].name == recs[k].name && r[k].region == recs[k].region
              && r[k].provider == recs[k].provider
              && (recs[k].inputCost.Some? ==> r[k].inputCost == recs[k].inputCost.value)
              && (recs[k].outputCost.Some? ==> r[k].outputCost == recs[k].outputCost.value)
  {
    Map((e: PriceRecord) => CatalogEntry(e.provider, e.name, e.region, e.inputCost.GetOr(0.0), e.outputCost.GetOr(0.0)), recs)
  }

  /** Every model name the normaliser emits is lower case: it is cut out of
      the lower-cased usage type. */
  lemma NormalizedNamesLowerCase(feed: Feed, parse: string -> real, e: PriceRecord)
    requires e in Normalize(feed, parse)
    ensures HasNoUpper(e.name)
  {
    NormalizeSound(feed, parse, e);
    var i :| 0 <= i < |feed.products| && Keyed(Classify(feed, feed.products[i]), e.name, e.region);
    var p := feed.products[i];
    CleanNameHasNoUpper(ToLower(p.attributes.usagetype.value));
  }

  /** Each curated default's name starts with a capital letter. */
  lemma DefaultNamesCapitalised()
    ensures forall i :: 0 <= i < |DefaultModels| ==> |DefaultModels[i].name| > 0 && IsUpper(DefaultModels[i].name[0])
  {
  }

  /** Fed the normaliser's own output, the resolver matches none of the
      curated defaults, because their names are capitalised and exact
      comparison is case-sensitive: the default tier is `DEFAULT_MODELS`
      unchanged, whatever the pricing feed says. */
  lemma DefaultsNeverEnrichedFromNormalizedFeed(feed: Feed, parse: string -> real)
    ensures Load(Fetched(Publish(Normalize(feed, parse)))).defaults == DefaultModels
  {
    var recs := Normalize(feed, parse);
    var cat := Publish(recs);
    DefaultNamesCapitalised();
    forall i, k | 0 <= i < |DefaultModels| && 0 <= k < |cat|
      ensures !Matches(cat[k], DefaultModels[i])
    {
      NormalizedNamesLowerCase(feed, parse, recs[k]);
      assert cat[k].name == recs[k].name;
    }
    if |cat| > 0 {
      var ds := Load(Fetched(cat)).defaults;
      forall i | 0 <= i < |DefaultModels| ensures ds[i] == DefaultModels[i] {
        assert ds[i] == Enrich(DefaultModels[i], cat);
      }
    }
  }
}
