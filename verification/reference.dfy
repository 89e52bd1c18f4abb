/** The reference-pricing panel of the add-model form (app.js lines 86-134,
    264-272 and 331-364): which catalog records are shown as a guide for the
    chosen provider, narrowed to the chosen regions. */
module Reference {
  import opened Common
  import opened Text
  import opened Models

  /** `PROVIDER_KEYWORDS`: a catalog record belongs to a provider when its
      lower-cased name contains one of the provider's keywords. */
  const ProviderKeywords: map<string, seq<string>> := map[
    "Amazon" := ["titan", "nova"],
    "Anthropic" := ["claude"],
    "Google" := ["gemma"],
    "Meta" := ["llama"],
    "Mistral AI" := ["mistral", "mixtral", "ministral", "magistral"],
    "OpenAI" := ["gpt"],
    "Cohere" := ["command"],
    "AI21 Labs" := ["jamba"],
    "DeepSeek" := ["deepseek"],
    "Moonshot AI" := ["kimi"],
    "MiniMax AI" := ["minimax"],
    "NVIDIA" := ["nemotron"],
    "Qwen" := ["qwen"],
    "Stability AI" := ["sdxl", "stable"],
    "TwelveLabs" := ["voxtral"],
    "Writer" := ["palmyra"]
  ]

  /** `PROVIDERS_WITHOUT_API_PRICING`: providers sent to the vendor's pricing
      page when nothing matches. */
  const ProvidersWithoutApiPricing: set<string> := {"Anthropic", "Stability AI", "Writer", "Cohere", "AI21 Labs"}

  /** Some keyword occurs in the lower-cased name. */
  predicate KeywordHit(name: string, keywords: seq<string>) {
    exists k :: k in keywords && Contains(ToLower(name), k)
  }

  /** The record belongs to the provider by the keyword rule. */
  predicate Listed(provider: string, e: CatalogEntry) {
    provider in ProviderKeywords && KeywordHit(e.name, ProviderKeywords[provider])
  }

  /** `getReferencePricingForProvider`: the catalog records whose name
      carries one of the provider's keywords, in catalog order; nothing for a
      provider without a keyword list. */
  function ReferencesFor(cat: seq<CatalogEntry>, provider: string): (r: seq<CatalogEntry>)
    ensures provider !in ProviderKeywords ==> r == []
    ensures IsSubsequence(r, cat)
    ensures forall e :: e in r <==> e in cat && Listed(provider, e)
    ensures forall e :: multiset(r)[e] == if Listed(provider, e) then multiset(cat)[e] else 0
  {
    if provider in ProviderKeywords then
      var keywords := ProviderKeywords[provider];
      FilterCounts(cat, (e: CatalogEntry) => KeywordHit(e.name, keywords));
      Filter(cat, (e: CatalogEntry) => KeywordHit(e.name, keywords))
    else []
  }

  /** Narrowing to the checked regions; an empty selection keeps everything. */
  function InRegions(refs: seq<CatalogEntry>, selected: seq<string>): (r: seq<CatalogEntry>)
    ensures |selected| == 0 ==> r == refs
    ensures IsSubsequence(r, refs)
    ensures forall e :: e in r <==> e in refs && (|selected| == 0 || e.region in selected)
    ensures forall e :: multiset(r)[e] == if |selected| == 0 || e.region in selected then multiset(refs)[e] else 0
  {
    if |selected| > 0 then
      FilterCounts(refs, (e: CatalogEntry) => e.region in selected);
      var r := Filter(refs, (e: CatalogEntry) => e.region in selected);
      assert forall e :: e in r <==> e in refs && e.region in selected;
      r
    else
      SubsequenceReflexive(refs);
      refs
  }

  /** What the panel shows. */
  datatype ReferenceView =
    | Hidden                                  // no provider, or "Other"
    | VendorLink                              // link to the vendor's pricing page
    | NoReferences(regionsSelected: bool)     // "No models available ..." / "No reference pricing ..."
    | Table(rows: seq<CatalogEntry>)

  /** The record is one the panel would list. */
  predicate Shown(provider: string, selected: seq<string>, e: CatalogEntry) {
    Listed(provider, e) && (|selected| == 0 || e.region in selected)
  }

  /** `showReferencePricing` / `updateReferencePricingTable`. */
  function ShowReferences(cat: seq<CatalogEntry>, provider: string, selected: seq<string>): (v: ReferenceView)
    ensures v.Hidden? <==> provider == [] || provider == Other
    ensures v.Table? ==>
              && |v.rows| > 0
              && IsSubsequence(v.rows, cat)
              && (forall e :: e in v.rows <==> e in cat && Shown(provider, selected, e))
              && forall e :: multiset(v.rows)[e] == if Shown(provider, selected, e) then multiset(cat)[e] else 0
    ensures !v.Hidden? ==>
              (v.Table? <==> exists e :: e in cat && Shown(provider, selected, e))
    ensures v.VendorLink? <==>
              && !(provider == [] || provider == Other)
              && provider in ProvidersWithoutApiPricing
              && forall e :: e in cat ==> !Shown(provider, selected, e)
    ensures v.NoReferences? ==> v.regionsSelected == (|selected| > 0) && provider !in ProvidersWithoutApiPricing
  {
    if provider == [] || provider == Other then Hidden
    else
      var all := ReferencesFor(cat, provider);
      var rows := InRegions(all, selected);
      SubsequenceTransitive(rows, all, cat);
      if |rows| == 0 then
        assert forall e :: e in cat ==> !Shown(provider, selected, e);
        if provider in ProvidersWithoutApiPricing then VendorLink else NoReferences(|selected| > 0)
      else
        assert rows[0] in cat && Shown(provider, selected, rows[0]);
        Table(rows)
  }

  /** Matching ignores letter case: a record and its lower-cased twin are
      listed for exactly the same providers. */
  lemma ListedIgnoresCase(provider: string, e: CatalogEntry)
    ensures Listed(provider, e) <==> Listed(provider, e.(name := ToLower(e.name)))
  {
    ToLowerIdempotent(e.name);
  }

  /** Checking regions only ever removes rows: every row shown for a region
      selection is shown with no selection too. */
  lemma NarrowingOnlyRemoves(cat: seq<CatalogEntry>, provider: string, selected: seq<string>)
    requires ShowReferences(cat, provider, selected).Table?
    ensures ShowReferences(cat, provider, []).Table?
    ensures forall e :: e in ShowReferences(cat, provider, selected).rows ==> e in ShowReferences(cat, provider, []).rows
  {
    var e0 := ShowReferences(cat, provider, selected).rows[0];
    assert e0 in cat && Shown(provider, [], e0);
  }

  /** An example: for Anthropic, "claude-3-haiku" is a reference
      and "titan-text-g1" is not. */
  lemma AnthropicExample(region: string)
    ensures var haiku := CatalogEntry("AWS", "claude-3-haiku", region, 0.00025, 0.00125);
      var titan := CatalogEntry("AWS", "titan-text-g1", region, 0.0005, 0.0065);
      ReferencesFor([haiku, titan], "Anthropic") == [haiku]
  {
    var haiku := CatalogEntry("AWS", "claude-3-haiku", region, 0.00025, 0.00125);
    var titan := CatalogEntry("AWS", "titan-text-g1", region, 0.0005, 0.0065);
    var keywords := ProviderKeywords["Anthropic"];
    assert keywords == ["claude"];
    ClaudeHit(haiku.name);
    TitanMiss(titan.name);
    var cat := [haiku, titan];
    var keep := (e: CatalogEntry) => KeywordHit(e.name, keywords);
    assert cat[1..] == [titan];
    assert Filter([titan], keep) == [];
    assert Filter(cat, keep) == [haiku];
  }

  lemma ClaudeHit(name: string)
    requires name == "claude-3-haiku"
    ensures KeywordHit(name, ["claude"])
  {
    assert OccursAt(ToLower(name), "claude", 0);
    ContainsIff(ToLower(name), "claude");
    assert "claude" in ["claude"];
  }

  lemma TitanMiss(name: string)
    requires name == "titan-text-g1"
    ensures !KeywordHit(name, ["claude"])
  {
    var t := ToLower(name);
    assert t == "titan-text-g1";
    assert 'c' !in t;
    OccurrenceHead(t, "claude");
    ContainsIff(t, "claude");
  }
}
