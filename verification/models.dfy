/** The entities of the browser calculator (app.js): store models, catalog
    entries and the five curated defaults. */
module Models {

  /** The `source` tag of a model: curated default or user-added. */
  datatype Tier = Default | Custom

  /** A model the calculator can price; costs are USD per 1,000 tokens. */
  datatype Model = Model(provider: string, name: string, region: string, inputCost: real, outputCost: real, tier: Tier)

  /** One record of the normalised catalog as the browser reads it. */
  datatype CatalogEntry = CatalogEntry(provider: string, name: string, region: string, inputCost: real, outputCost: real)

  /** The provider choice that stands for "a provider not in the list". */
  const Other: string := "Other"

  /** `DEFAULT_MODELS` (app.js lines 74-80). */
  const DefaultModels: seq<Model> := [
    Model("AWS", "Claude 3 Haiku", "us-east-1", 0.00025, 0.00125, Default),
    Model("AWS", "Claude 3 Sonnet", "us-east-1", 0.003, 0.015, Default),
    Model("AWS", "Claude 3 Opus", "us-east-1", 0.015, 0.075, Default),
    Model("AWS", "Titan Text G1", "us-east-1", 0.0005, 0.0065, Default),
    Model("AWS", "Llama 3 Instruct (70B)", "mumbai", 0.00265, 0.0035, Default)
  ]

  /** The curated list has five entries, all default-tier, with non-negative
      costs, and no two share a name and region. */
  lemma DefaultModelsWellFormed()
    ensures |DefaultModels| == 5
    ensures forall i :: 0 <= i < |DefaultModels| ==> DefaultModels[i].tier == Default
    ensures forall i :: 0 <= i < |DefaultModels| ==> DefaultModels[i].inputCost >= 0.0 && DefaultModels[i].outputCost >= 0.0
    ensures forall i, j :: 0 <= i < j < |DefaultModels| ==>
              (DefaultModels[i].name, DefaultModels[i].region) != (DefaultModels[j].name, DefaultModels[j].region)
  {
  }
}
