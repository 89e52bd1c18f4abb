# Bedrock pricing calculator — Dafny model

This project models the pure logic of a small AWS Bedrock cost calculator and
proves properties of it. The system has two halves:

- **The pricing Lambda.** `lambda-function/index.js` walks the AWS price-list
  feed for Bedrock. It keeps the per-token text SKUs and derives a model name
  from each SKU's `usagetype`. It folds the SKUs into one record per
  `(name, region)` holding an input and an output price. It emits only the
  records with both prices.
- **The browser page.** `app.js` keeps a two-tier model store: curated
  defaults plus user-added custom models, with the merged view
  `defaults ++ custom`.
  - The curated defaults look up their costs in the fetched catalog.
  - The add-model form fans one model out to several regions.
  - A reference panel lists the catalog records whose names carry the chosen
    provider's keywords.
  - The calculator prices a usage profile and compares models, either all
    models of a region or a ticked subset, against a baseline.

Every operation is a pure function from values to values:

- A store mutation maps one `Store` value to the next.
- The `saved` field is what browser storage holds under `customModels`.
- The Lambda's loop is a left fold over the SKUs, taken in feed order.
- JavaScript truthiness, `x || fallback`, the regular expressions and the
  global `replace` are written out explicitly. So are `trim`, `toLowerCase`
  and object identity. Identity becomes position, because every model in the
  merged view is a distinct object.

Modules:

- `Common`: Option, Result, `Filter`, `Map`, subsequence facts.
- `Text`: lower-casing, trimming, substring search.
- `UsageType`: name derivation.
- `Normalizer`: the Lambda loop.
- `Models`: the entities and `DEFAULT_MODELS`.
- `Resolver`: the default tier at page load.
- `Store`: store mutations.
- `Reference`: the reference panel.
- `Calculator`: costs and comparisons.
- `Pipeline`: the two halves joined.

Joining the halves exposes one consequence:

- Every name the normaliser emits is lower case, because it is cut from the
  lower-cased `usagetype`.
- Every curated default's name is capitalised.
- The resolver compares names exactly.

So a catalog produced by the normaliser never changes a curated default's
costs. `Pipeline.DefaultsNeverEnrichedFromNormalizedFeed` proves it.

Two behaviours of the code are easy to miss, and the model keeps both:

- **Compare-selected baseline.** `compareSelectedModels` uses the dropdown's
  model as the baseline whenever the dropdown names one, even a model that
  was not ticked or that is in another region. In that case it also skips the
  sort (app.js:998, 1020-1030).
- **Token-count validation.** Compare-selected does not validate the token
  fields. Only compare-all rejects non-positive counts.

## Model

| member | source | states |
|---|---|---|
| Common.FilterCounts | app.js:268-271 | `filter` keeps each kept value exactly as many times as it occurs, and drops every other value |
| Text.ToLower | lambda-function/index.js:39 | `toLowerCase` keeps the length and maps each character on its own: 'A'..'Z' become the same letters 'a'..'z', every other character is kept |
| Text.ToLowerIdempotent | lambda-function/index.js:39 | lower-casing a lower-cased string changes nothing |
| Text.Trim | app.js:481-483 | the trimmed string is no longer than the input and begins and ends with non-white-space |
| Text.TrimIsInfix | app.js:481-483 | the trimmed string is the input with only white space removed before and after it |
| Text.TrimEmptyIffBlank | app.js:492 | a field trims to empty exactly when it is all white space |
| Text.TrimIdempotent | app.js:510-513 | trimming an already trimmed region changes nothing |
| Text.IndexOf | lambda-function/index.js:42 | the result is the first position where the pattern occurs, or none when it occurs nowhere |
| Text.ContainsIff | lambda-function/index.js:42 | `includes` holds exactly when the pattern occurs at some position |
| Text.RemoveFirst | lambda-function/index.js:74-75 | `replace` with a string pattern: no change when the pattern is absent; otherwise the first occurrence, and only it, is deleted, and the text before and after it is kept in order |
| Text.RemoveFirstSuffix | lambda-function/index.js:74-75 | a token suffix whose first occurrence is at the end of the text is deleted from there, leaving exactly the text before it |
| UsageType.StripRegion | lambda-function/index.js:73 | the first dash-separated segment and its dash are dropped exactly when that segment is a region code; nothing else is ever removed |
| UsageType.StripModifiers | lambda-function/index.js:76 | the global modifier replace never lengthens the string or adds characters, and leaves it unchanged exactly when no modifier occurs in it |
| UsageType.StripModifiersAtMatch | lambda-function/index.js:76 | at the leftmost modifier the text before it is kept, the match is deleted, and the scan resumes on what follows it; with the line above this fixes the result for every input |
| UsageType.StripModifiersNoRescan | lambda-function/index.js:76 | matches are not rescanned: `-bat-batchch` becomes `-batch` |
| UsageType.CleanName | lambda-function/index.js:72-76 | the derived name is built only from the usagetype's characters and is never longer |
| UsageType.CleanNameOfInputSku | lambda-function/index.js:72-76 | `usw2-<n>-input-tokens` yields the name `n` when `n` holds no modifier, no output suffix, and no input suffix starting inside it |
| UsageType.CleanNameOfBatchOutputSku | lambda-function/index.js:72-76 | `usw2-<n>-batch-output-tokens` also yields `n`, so a model's batch SKUs land on the same name as its on-demand ones |
| UsageType.CleanNameHasNoUpper | lambda-function/index.js:72-78 | a model name derived from a lower-cased usagetype has no upper-case letter |
| UsageType.StripRegionKnownPrefix | lambda-function/index.js:71-73 | any usagetype starting `usw2-` loses exactly that prefix, as in the sample `usw2-titantextg1-lite-input-tokens` |
| UsageType.StripRegionWordPrefix | lambda-function/index.js:73 | a first segment `eu` followed by word characters (`euc1-`) counts as a region code and is dropped, whatever follows |
| UsageType.StripRegionUnknownPrefix | lambda-function/index.js:73 | a first segment that is no region code (`us-`) is kept, whatever follows |
| Normalizer.UnitPrice | lambda-function/index.js:59-68 | a price exists exactly when the SKU has an on-demand term whose first term has dimensions and whose first dimension has a non-empty USD text; it is then exactly that text |
| Normalizer.Classify | lambda-function/index.js:36-68 | a SKU is accepted only with service code AmazonBedrock, a non-empty usagetype and regionCode, and a price; an accepted SKU is a token SKU that no exclusion names; its line carries the cleaned name, the region code, the input/output sides and the price |
| Normalizer.ExcludedUsageIsSkipped | lambda-function/index.js:46-57 | a usagetype naming any excluded modality or charge is skipped |
| Normalizer.PricedTextSkuIsAccepted | lambda-function/index.js:36-89 | a SKU passing every check is accepted, with its providerName when non-empty and "AWS Bedrock" otherwise |
| Normalizer.Upsert | lambda-function/index.js:81-106 | find-or-create acts as a map update on `(name, region)`: a record is appended only for a new key; its provider is kept once set; only the SKU's own side is overwritten; every other key is untouched |
| Normalizer.UpsertUniqueKeys | lambda-function/index.js:81-97 | find-or-create never adds a second record for a key already present |
| Normalizer.FoldUniqueKeys | lambda-function/index.js:81-97 | at every point of the loop there is at most one record per key |
| Normalizer.FoldEntry | lambda-function/index.js:31-107 | the loop's record for a key exists exactly when some accepted SKU has that key; its provider is the first such SKU's; each cost is the parsed price of the last SKU for that side, or null |
| Normalizer.SkippedSkuChangesNothing | lambda-function/index.js:36-68 | a rejected SKU leaves the records exactly as they were |
| Normalizer.FoldDiscoveryOrder | lambda-function/index.js:87-97 | records appear in the order their key's first SKU appears |
| Normalizer.Normalize | lambda-function/index.js:109 | the output holds exactly the records having both costs, as an order-preserving subsequence of the loop's records |
| Normalizer.CompleteEntry | lambda-function/index.js:31-109 | the filtered output has one record per key, present exactly when some line priced each side, costs from the last such lines |
| Normalizer.NormalizeCharacterized | lambda-function/index.js:31-109 | the handler's output without the loop: unique keys; a key is present exactly when some accepted SKU priced its input and some priced its output; provider from the first SKU, costs from the last |
| Normalizer.NormalizeDiscoveryOrder | lambda-function/index.js:109 | the output keeps discovery order |
| Normalizer.NormalizeSound | lambda-function/index.js:72-96 | every output record's name and region are the cleaned usagetype and the region code of some accepted SKU |
| Models.DefaultModelsWellFormed | app.js:74-80 | the curated list has five default-tier models with non-negative costs, no two sharing name and region |
| Resolver.FirstMatch | app.js:46-49 | `find` yields the first catalog record with exactly the default's name and region, or none |
| Resolver.Enrich | app.js:46-59 | a default keeps provider, name, region and tier; it is unchanged without a match; with a first match each cost is the catalog's when non-zero and the curated one otherwise |
| Resolver.ResolveDefaults | app.js:45-60 | one enriched entry per curated default, in order |
| Resolver.Load | app.js:22-71 | a failed fetch or an empty catalog gives the curated list and an empty reference; otherwise the enriched list, and the reference is the catalog with every provider relabelled "AWS" |
| Resolver.ResolvedShape | app.js:45-60 | whatever the fetch gives, the default tier has the curated length and order, each entry keeping provider, name, region and default tier |
| Resolver.UnmatchedDefaultKept | app.js:57-59 | a default without a matching record keeps its curated costs |
| Resolver.MatchedDefaultEnriched | app.js:50-56 | a default whose first match has non-zero costs takes the catalog's costs |
| Store.Open | app.js:146-148 | at start-up the default tier is the resolver's, and the custom tier and storage are the stored list |
| Store.FanOut | app.js:508-519 | every record built shares provider, name and costs, is custom-tier and has a non-empty region; there are never more records than regions |
| Store.FanOutPerRegion | app.js:508-519 | the fan-out is exactly one record per non-blank region, in order, with the trimmed region |
| Store.AddModel | app.js:478-521 | the form is rejected exactly when provider or name is blank, a cost is missing, no region is checked, or the free-text region is blank; on success the defaults are unchanged, the fan-out is appended to the custom tier, and the tier is saved |
| Store.AddModelAppendsPerRegion | app.js:508-521 | a successful add keeps the old custom models as a prefix and appends one record per non-blank region, in order |
| Store.AddTwoRegions | app.js:487-519 | two checked regions produce exactly two custom records that differ only in region |
| Store.UpdateModel | app.js:679-704 | only the region and costs of the targeted model change; every other position is unchanged; a tag that disagrees with the position makes no change; only a custom edit is saved |
| Store.UpdateModelKeepsValid | app.js:679-704 | on a well-formed store every position is found in the tier its tag names, and the edit keeps every tier holding only its own kind with storage in step |
| Store.DeleteModel | app.js:706-729 | the merged view loses exactly the targeted position; a default delete leaves custom and storage alone; a custom delete keeps the other custom models in order and saves |
| Store.ResetCustom | app.js:731-735 | the custom tier and storage become empty and the defaults are untouched |
| Reference.ReferencesFor | app.js:264-272 | the references are an order-preserving subsequence of the catalog holding exactly the records whose lower-cased name contains one of the provider's keywords, each as many times as in the catalog; an unknown provider gets none |
| Reference.InRegions | app.js:336-341 | a non-empty region selection keeps exactly the records in a selected region, each as many times as before, in order; an empty one keeps everything |
| Reference.ShowReferences | app.js:307-364 | the panel is hidden exactly for no provider or "Other"; the table lists exactly the shown records, each as many times as in the catalog, in catalog order; the vendor link appears exactly when nothing is shown for a provider without API pricing; otherwise the "no results" message says whether regions were selected |
| Reference.ListedIgnoresCase | app.js:269-270 | matching is case-insensitive: a name and its lower-cased form match the same providers |
| Reference.NarrowingOnlyRemoves | app.js:337-341 | selecting regions never adds a row |
| Reference.AnthropicExample | app.js:264-272 | for Anthropic, "claude-3-haiku" is a reference and "titan-text-g1" is not |
| Calculator.PricePerThousand | app.js:233-237 | the bill is tokens per request times requests, priced per 1,000 tokens on each side, the sides added |
| Calculator.PriceExample | app.js:233-237 | 500/300 tokens, 1,000 requests, 0.003/0.015 per 1,000 give 1.5 + 4.5 = 6.0 |
| Calculator.PriceScalesWithRequests | app.js:233-237 | the bill is linear in the number of requests |
| Calculator.CheaperRatesCheaperBill | app.js:233-237 | with non-negative usage, a model no dearer on either side costs no more |
| Calculator.Calculate | app.js:217-238 | an empty model selection is an error; otherwise the breakdown is the selected model's bill: token totals are tokens per request times requests, each side's cost is its rate per 1,000 tokens, and the total is the sum |
| Calculator.RegionIndices | app.js:843 | the region's models are listed exactly once each, in merged-view order |
| Calculator.RowsAt | app.js:850-867 | one row per listed position, carrying that model and its bill |
| Calculator.Insert | app.js:870 | stable insertion splices the row in at `InsertPos`, whose contract puts it after the no-dearer rows and before the trailing dearer ones |
| Calculator.InsertPermutes | app.js:870 | insertion adds the row and loses nothing |
| Calculator.InsertSorted | app.js:870 | insertion keeps a cost-sorted list sorted |
| Calculator.SortByCost | app.js:870 | the sort returns a permutation of its input, cheapest first |
| Calculator.SortIsStable | app.js:870 | rows given in merged-view order come out sorted by bill and, among equal bills, still in merged-view order |
| Calculator.FindSelected | app.js:873 | `find(c => c.isSelected)` yields the first row at the dropdown's position, or none |
| Calculator.CompareAll | app.js:822-874 | invalid input exactly for an empty region or a non-positive count; "no models" exactly when no model is in the region; a comparison exactly when the input is valid and some model is in the region: rows sorted by bill then position; the baseline is the dropdown model's bill when that model is in the region, else the cheapest bill |
| Calculator.SelectedRowFound | app.js:865-874 | the dropdown's model has a row exactly when it is a model of the region, and that row's bill is its bill |
| Calculator.CompareAllCoversRegion | app.js:843-867 | the comparison lists every model of the region once, with its own bill, and no other model |
| Calculator.CompareAllNoNegativeDiff | app.js:873-881 | without a selected model in the region, no row shows a negative difference |
| Calculator.CompareSelected | app.js:980-1030 | fewer than two ticks is an error; with a dropdown model the baseline is its bill and rows keep checkbox order; otherwise the rows are sorted and the baseline is the minimum bill |
| Calculator.CheckedRows | app.js:994-995 | one row per tick, in checkbox order: the k-th row is the region's model at the k-th ticked position of the region's list, with that model's bill |
| Calculator.CompareSelectedStable | app.js:1026-1029 | with ticks read in page order, the fallback sort orders equal bills by merged-view position |
| Pipeline.Publish | lambda-function/index.js:88-95 | the page reads back each record's provider, name, region and both costs |
| Pipeline.NormalizedNamesLowerCase | lambda-function/index.js:39-78 | every model name the normaliser emits is lower case |
| Pipeline.DefaultNamesCapitalised | app.js:74-80 | every curated default's name starts with a capital letter |
| Pipeline.DefaultsNeverEnrichedFromNormalizedFeed | app.js:46-49 | given the normaliser's own output, the resolver leaves the curated defaults exactly as listed |

## Left out

- The HTTP fetch of the price list, the S3 upload, the page's `fetch` of the catalog and JSON parsing are I/O. The feed and the fetch outcome are inputs.
- Normalizer: `for … in` enumerates integer-like keys first. SKU codes are not integer-like, so the feed is a sequence in enumeration order.
- Normalizer: `parseFloat` is a parameter `parse`. NaN, and IEEE floating point in general, are not modelled. All costs and token counts are exact reals.
- Normalizer: the emitted records also carry `source: "default"`, a constant that the model omits.
- UsageType.CleanName: its own contract only bounds the result. What the name is, is stated by CleanNameOfInputSku and CleanNameOfBatchOutputSku for the feed's usual shapes, and by the lemmas on each step for any input.
- Text.ToLower: only ASCII letters are lower-cased. JavaScript also maps other Unicode letters. The region codes and keywords are ASCII.
- Resolver.Enrich: the alternative field names `modelName`, `input_cost` and `output_cost` of a catalog record are not modelled. The Lambda never writes them.
- Store: `confirm` is taken as answered "yes"; a "no" leaves the store as it was.
- Store: `localStorage` is the `saved` field.
- Store: the costs typed into the edit row are not validated by the code, and are exact reals here.
- Store.AddModel: a rejected form returns an error, and the caller keeps the old store value.
- Reference: a provider name that is an inherited object property (`constructor`, say) is not modelled. The provider dropdown never offers one.
- Reference: `getRegionsForProvider`, the region checkbox list and all rendering are left out.
- Calculator: the `toFixed` formatting and the "Base"/"+$"/"-$" labels are left out. `PriceDiff` is the number behind them.
- Calculator: `Number` parsing is left out. The token fields are reals.
- Calculator.Calculate: the dropdown's position must index the merged view. The page rebuilds the dropdown after every store change; a stale position would read `undefined` and make the page throw.
- Calculator.CompareSelected: the checked positions must index the region's list. A stale position would read `undefined` and make the page throw.
- The embedding calculator and the token counter are left out: float estimates that only feed the display.
- `server.js` is left out. It is a static file server with a local fallback file.
- Dropdown population, accordions, filtering of the management list, and button states are rendering only.
