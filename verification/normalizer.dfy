/** The Bedrock price-list normaliser: the loop and final filter of `handler`
    in lambda-function/index.js (lines 31-109). The feed is already fetched and
    parsed; `parse` stands for `parseFloat`. */
module Normalizer {
  import opened Common
  import opened Text
  import opened UsageType

  const ServiceCode: string := "AmazonBedrock"
  const DefaultProvider: string := "AWS Bedrock"

  /** Substrings of a usagetype that mark a non-text modality or a non-usage charge. */
  const Exclusions: seq<string> :=
    ["image", "audio", "video", "embedding", "guardrail", "customization", "storage", "provisionedthroughput"]

  /** The attributes of one product; an absent JSON key is `None`. */
  datatype Attributes = Attributes(
    servicecode: Option<string>,
    usagetype: Option<string>,
    regionCode: Option<string>,
    providerName: Option<string>)

  /** One entry of `products`, in the order `for ... in` visits them. */
  datatype Product = Product(sku: string, attributes: Attributes)

  /** A price dimension; `usd` is `pricePerUnit.USD`, absent when either key is. */
  datatype Dimension = Dimension(usd: Option<string>)

  /** An on-demand term, with its price dimensions in `Object.values` order. */
  datatype Term = Term(priceDimensions: Option<seq<Dimension>>)

  /** The parsed price list: products and `terms.OnDemand` (sku to terms). */
  datatype Feed = Feed(products: seq<Product>, onDemand: map<string, seq<Term>>)

  /** A normalised record; a cost is `None` while no SKU has supplied it. */
  datatype PriceRecord = PriceRecord(
    provider: string,
    name: string,
    region: string,
    inputCost: Option<real>,
    outputCost: Option<real>)

  /** What an accepted SKU contributes: the key it updates, the provider it
      would create the record with, which sides it prices, and the price text. */
  datatype Line = Line(provider: string, name: string, region: string, isInput: bool, isOutput: bool, price: string)

  /** JavaScript truthiness of an optional string: present and not empty. */
  predicate Truthy(v: Option<string>) {
    v.Some? && v.value != ""
  }

  predicate IsTokenUsage(u: string) {
    Contains(u, InputTokens) || Contains(u, OutputTokens)
  }

  predicate IsExcluded(u: string) {
    exists k :: 0 <= k < |Exclusions| && Contains(u, Exclusions[k])
  }

  /** The USD price of the first dimension of the first on-demand term of `sku`,
      when that text is present and non-empty. */
  function UnitPrice(feed: Feed, sku: string): (r: Option<string>)
    ensures r.Some? <==>
              && sku in feed.onDemand && |feed.onDemand[sku]| > 0
              && feed.onDemand[sku][0].priceDimensions.Some?
              && |feed.onDemand[sku][0].priceDimensions.value| > 0
              && Truthy(feed.onDemand[sku][0].priceDimensions.value[0].usd)
    ensures r.Some? ==> r == feed.onDemand[sku][0].priceDimensions.value[0].usd && r.value != ""
  {
    if sku !in feed.onDemand then None
    else
      var terms := feed.onDemand[sku];
      if |terms| == 0 then None
      else
        match terms[0].priceDimensions
        case None => None
        case Some(dims) =>
          if |dims| > 0 && Truthy(dims[0].usd) then dims[0].usd else None
  }

  /** Decides whether a product is a per-token text SKU with a price, and if so
      what it contributes. */
  function Classify(feed: Feed, p: Product): (r: Option<Line>)
    ensures p.attributes.servicecode != Some(ServiceCode) ==> r.None?
    ensures !Truthy(p.attributes.usagetype) || !Truthy(p.attributes.regionCode) ==> r.None?
    ensures UnitPrice(feed, p.sku).None? ==> r.None?
    ensures r.Some? ==>
      var u := ToLower(p.attributes.usagetype.value);
      && IsTokenUsage(u) && !IsExcluded(u)
      && r.value.name == CleanName(u)
      && r.value.region == p.attributes.regionCode.value
      && r.value.isInput == Contains(u, InputTokens)
      && r.value.isOutput == Contains(u, OutputTokens)
      && (r.value.isInput || r.value.isOutput)
      && Some(r.value.price) == UnitPrice(feed, p.sku)
  {
    var a := p.attributes;
    if a.servicecode != Some(ServiceCode) then None
    else if !Truthy(a.usagetype) || !Truthy(a.regionCode) then None
    else
      var u := ToLower(a.usagetype.value);
      if !IsTokenUsage(u) then None
      else if IsExcluded(u) then None
      else
        match UnitPrice(feed, p.sku)
        case None => None
        case Some(price) =>
          var provider := if Truthy(a.providerName) then a.providerName.value else DefaultProvider;
          Some(Line(provider, CleanName(u), a.regionCode.value,
                    Contains(u, InputTokens), Contains(u, OutputTokens), price))
  }

  /** A usagetype naming a modality or charge from the exclusion list is skipped. */
  lemma ExcludedUsageIsSkipped(feed: Feed, p: Product, k: nat)
    requires Truthy(p.attributes.usagetype) && k < |Exclusions|
    requires Contains(ToLower(p.attributes.usagetype.value), Exclusions[k])
    ensures Classify(feed, p).None?
  {
  }

  /** Every check passed: the SKU is accepted. */
  lemma PricedTextSkuIsAccepted(feed: Feed, p: Product)
    requires p.attributes.servicecode == Some(ServiceCode)
    requires Truthy(p.attributes.usagetype) && Truthy(p.attributes.regionCode)
    requires IsTokenUsage(ToLower(p.attributes.usagetype.value))
    requires !IsExcluded(ToLower(p.attributes.usagetype.value))
    requires UnitPrice(feed, p.sku).Some?
    ensures Classify(feed, p).Some?
    ensures Classify(feed, p).value.provider
            == if Truthy(p.attributes.providerName) then p.attributes.providerName.value else DefaultProvider
  {
  }

  predicate HasKey(e: PriceRecord, name: string, region: string) {
    e.name == name && e.region == region
  }

  /** `normalized.find` on the key: the first record for `(name, region)`. */
  function Find(acc: seq<PriceRecord>, name: string, region: string): (r: Option<nat>)
    ensures r.Some? ==> r.value < |acc| && HasKey(acc[r.value], name, region)
    ensures r.Some? ==> forall i :: 0 <= i < r.value ==> !HasKey(acc[i], name, region)
    ensures r.None? ==> forall i :: 0 <= i < |acc| ==> !HasKey(acc[i], name, region)
    decreases |acc|
  {
    if |acc| == 0 then None
    else if HasKey(acc[0], name, region) then Some(0)
    else
      match Find(acc[1..], name, region)
      case None => None
      case Some(i) => Some(i + 1)
  }

  /** The record stored under a key, if any. */
  function Entry(acc: seq<PriceRecord>, name: string, region: string): Option<PriceRecord> {
    match Find(acc, name, region)
    case None => None
    case Some(j) => Some(acc[j])
  }

  predicate DistinctKeys(a: PriceRecord, b: PriceRecord) {
    !HasKey(b, a.name, a.region)
  }

  /** At most one record per `(name, region)`. */
  ghost predicate UniqueKeys(acc: seq<PriceRecord>) {
    Pairwise(acc, DistinctKeys)
  }

  function Parsed(price: Option<string>, parse: string -> real): Option<real> {
    match price
    case None => None
    case Some(t) => Some(parse(t))
  }

  /** Sets the side(s) the line prices; the other side and the provider stay. */
  function Assign(e: PriceRecord, l: Line, parse: string -> real): PriceRecord {
    e.(inputCost := if l.isInput then Some(parse(l.price)) else e.inputCost,
       outputCost := if l.isOutput then Some(parse(l.price)) else e.outputCost)
  }

  /** Find-or-create the record for the line's key, then assign its price.
      Behaves like a map update keyed by `(name, region)`. */
  function Upsert(acc: seq<PriceRecord>, l: Line, parse: string -> real): (r: seq<PriceRecord>)
    ensures |r| == if Find(acc, l.name, l.region).None? then |acc| + 1 else |acc|
    ensures r[..|acc|] == acc || |r| == |acc|
    ensures forall i :: 0 <= i < |acc| ==> r[i].name == acc[i].name && r[i].region == acc[i].region
    ensures |r| > |acc| ==> r[|acc|].name == l.name && r[|acc|].region == l.region
    ensures Entry(r, l.name, l.region).Some?
    ensures var e := Entry(r, l.name, l.region).value;
            var prior := Entry(acc, l.name, l.region);
            && e.provider == (if prior.Some? then prior.value.provider else l.provider)
            && e.inputCost == (if l.isInput then Some(parse(l.price)) else if prior.Some? then prior.value.inputCost else None)
            && e.outputCost == (if l.isOutput then Some(parse(l.price)) else if prior.Some? then prior.value.outputCost else None)
    ensures forall n, g :: (n, g) != (l.name, l.region) ==> Entry(r, n, g) == Entry(acc, n, g)
  {
    match Find(acc, l.name, l.region)
    case None =>
      var r := acc + [Assign(PriceRecord(l.provider, l.name, l.region, None, None), l, parse)];
      assert Find(r, l.name, l.region) == Some(|acc|) by { FindAppend(acc, r[|acc|], l.name, l.region); }
      forall n, g | (n, g) != (l.name, l.region) ensures Entry(r, n, g) == Entry(acc, n, g) {
        FindAppend(acc, r[|acc|], n, g);
      }
      r
    case Some(j) =>
      var r := acc[j := Assign(acc[j], l, parse)];
      assert Find(r, l.name, l.region) == Some(j) by { FindUpdate(acc, j, r[j], l.name, l.region); }
      forall n, g | (n, g) != (l.name, l.region) ensures Entry(r, n, g) == Entry(acc, n, g) {
        FindUpdate(acc, j, r[j], n, g);
      }
      r
  }

  /** Find-or-create never adds a second record for a key. */
  lemma UpsertUniqueKeys(acc: seq<PriceRecord>, l: Line, parse: string -> real)
    requires UniqueKeys(acc)
    ensures UniqueKeys(Upsert(acc, l, parse))
  {
    var r := Upsert(acc, l, parse);
    if |r| > |acc| {
      assert Find(acc, l.name, l.region).None?;
    }
  }

  /** `Find` returns the first index holding the key; nothing else. */
  lemma FindIsFirst(acc: seq<PriceRecord>, name: string, region: string, j: nat)
    requires j < |acc| && HasKey(acc[j], name, region)
    requires forall i :: 0 <= i < j ==> !HasKey(acc[i], name, region)
    ensures Find(acc, name, region) == Some(j)
  {
  }

  /** Appending a record: earlier matches win, else the new one is found. */
  lemma FindAppend(acc: seq<PriceRecord>, e: PriceRecord, name: string, region: string)
    ensures Find(acc + [e], name, region)
            == if Find(acc, name, region).Some? then Find(acc, name, region)
               else if HasKey(e, name, region) then Some(|acc|) else None
  {
    var r := acc + [e];
    assert forall i :: 0 <= i < |acc| ==> r[i] == acc[i];
    if Find(acc, name, region).Some? {
      FindIsFirst(r, name, region, Find(acc, name, region).value);
    } else if HasKey(e, name, region) {
      FindIsFirst(r, name, region, |acc|);
    } else {
      assert forall i :: 0 <= i < |r| ==> !HasKey(r[i], name, region);
    }
  }

  /** Overwriting a record with one of the same key leaves every search result alone. */
  lemma FindUpdate(acc: seq<PriceRecord>, j: nat, e: PriceRecord, name: string, region: string)
    requires j < |acc| && e.name == acc[j].name && e.region == acc[j].region
    ensures Find(acc[j := e], name, region) == Find(acc, name, region)
  {
    var r := acc[j := e];
    assert forall i :: 0 <= i < |acc| ==> (HasKey(r[i], name, region) <==> HasKey(acc[i], name, region));
    if Find(acc, name, region).Some? {
      FindIsFirst(r, name, region, Find(acc, name, region).value);
    }
  }

  /** One iteration of the loop, given what `Classify` made of the product. */
  function Step(acc: seq<PriceRecord>, line: Option<Line>, parse: string -> real): seq<PriceRecord> {
    match line
    case None => acc
    case Some(l) => Upsert(acc, l, parse)
  }

  /** What each product of `ps` contributes, in iteration order. */
  function Lines(feed: Feed, ps: seq<Product>): (r: seq<Option<Line>>)
    ensures |r| == |ps| && forall i :: 0 <= i < |ps| ==> r[i] == Classify(feed, ps[i])
  {
    seq(|ps|, i requires 0 <= i < |ps| => Classify(feed, ps[i]))
  }

  /** The `normalized` array after the loop has consumed `lines`. */
  function Fold(lines: seq<Option<Line>>, parse: string -> real): seq<PriceRecord>
    decreases |lines|
  {
    if |lines| == 0 then []
    else Step(Fold(lines[..|lines| - 1], parse), lines[|lines| - 1], parse)
  }

  /** The `normalized` array after the loop has visited the products `ps`. */
  function Collect(feed: Feed, ps: seq<Product>, parse: string -> real): seq<PriceRecord> {
    Fold(Lines(feed, ps), parse)
  }

  predicate Complete(e: PriceRecord) {
    e.inputCost.Some? && e.outputCost.Some?
  }

  /** The handler's result: the records whose two costs were both set, in
      discovery order. */
  function Normalize(feed: Feed, parse: string -> real): (r: seq<PriceRecord>)
    ensures forall e :: e in r ==> Complete(e)
    ensures forall e :: e in r <==> e in Collect(feed, feed.products, parse) && Complete(e)
    ensures IsSubsequence(r, Collect(feed, feed.products, parse))
  {
    Filter(Collect(feed, feed.products, parse), Complete)
  }

  // ----- Reference definitions in terms of the accepted SKUs alone -----

  predicate Keyed(line: Option<Line>, name: string, region: string) {
    line.Some? && line.value.name == name && line.value.region == region
  }

  /** The first accepted SKU for the key: the one that creates the record. */
  ghost function FirstLine(lines: seq<Option<Line>>, name: string, region: string): (r: Option<Line>)
    ensures r.Some? ==> Keyed(r, name, region) && exists i :: 0 <= i < |lines| && lines[i] == r
    ensures r.None? ==> forall i :: 0 <= i < |lines| ==> !Keyed(lines[i], name, region)
    decreases |lines|
  {
    if |lines| == 0 then None
    else
      var prev := FirstLine(lines[..|lines| - 1], name, region);
      var here := lines[|lines| - 1];
      if prev.Some? then
        assert exists i :: 0 <= i < |lines| && lines[i] == prev by {
          var i :| 0 <= i < |lines| - 1 && lines[..|lines| - 1][i] == prev;
          assert lines[i] == prev;
        }
        prev
      else if Keyed(here, name, region) then here
      else
        assert forall i :: 0 <= i < |lines| - 1 ==> lines[i] == lines[..|lines| - 1][i];
        None
  }

  /** The last accepted SKU for the key that prices the given side. */
  ghost function LastLine(lines: seq<Option<Line>>, name: string, region: string, input: bool): (r: Option<Line>)
    ensures r.Some? ==> Keyed(r, name, region) && exists i :: 0 <= i < |lines| && lines[i] == r
    ensures r.Some? ==> if input then r.value.isInput else r.value.isOutput
    decreases |lines|
  {
    if |lines| == 0 then None
    else
      var here := lines[|lines| - 1];
      if Keyed(here, name, region) && (if input then here.value.isInput else here.value.isOutput) then here
      else
        var prev := LastLine(lines[..|lines| - 1], name, region, input);
        if prev.Some? then
          assert exists i :: 0 <= i < |lines| && lines[i] == prev by {
            var i :| 0 <= i < |lines| - 1 && lines[..|lines| - 1][i] == prev;
            assert lines[i] == prev;
          }
          prev
        else prev
  }

  function PriceOf(line: Option<Line>): Option<string> {
    match line
    case None => None
    case Some(l) => Some(l.price)
  }

  /** The record the loop keeps for a key, described without the loop: it
      exists once some accepted SKU has the key; its provider comes from the
      first such SKU; each cost is the parsed price of the last SKU for that
      side, or null when none priced it. */
  lemma {:induction false} FoldEntry(lines: seq<Option<Line>>, parse: string -> real, name: string, region: string)
    ensures Entry(Fold(lines, parse), name, region).Some? <==> FirstLine(lines, name, region).Some?
    ensures Entry(Fold(lines, parse), name, region).Some? ==>
      Entry(Fold(lines, parse), name, region).value
        == PriceRecord(FirstLine(lines, name, region).value.provider, name, region,
                       Parsed(PriceOf(LastLine(lines, name, region, true)), parse),
                       Parsed(PriceOf(LastLine(lines, name, region, false)), parse))
    decreases |lines|
  {
    if |lines| > 0 {
      var prefix := lines[..|lines| - 1];
      FoldEntry(prefix, parse, name, region);
      var acc := Fold(prefix, parse);
      var last := lines[|lines| - 1];
      assert Fold(lines, parse) == Step(acc, last, parse);
      if Keyed(last, name, region) {
        LinesStepKeyed(lines, name, region);
      } else {
        LinesStepOther(lines, name, region);
        if last.Some? {
          assert Entry(Upsert(acc, last.value, parse), name, region) == Entry(acc, name, region);
        }
      }
    }
  }

  /** A last line with another key changes neither reference definition. */
  lemma LinesStepOther(lines: seq<Option<Line>>, name: string, region: string)
    requires |lines| > 0 && !Keyed(lines[|lines| - 1], name, region)
    ensures FirstLine(lines, name, region) == FirstLine(lines[..|lines| - 1], name, region)
    ensures LastLine(lines, name, region, true) == LastLine(lines[..|lines| - 1], name, region, true)
    ensures LastLine(lines, name, region, false) == LastLine(lines[..|lines| - 1], name, region, false)
  {
  }

  /** A last line with the key creates the record if it is the first, and
      becomes the last line of each side it prices. */
  lemma LinesStepKeyed(lines: seq<Option<Line>>, name: string, region: string)
    requires |lines| > 0 && Keyed(lines[|lines| - 1], name, region)
    ensures var prefix := lines[..|lines| - 1];
      && FirstLine(lines, name, region)
         == (if FirstLine(prefix, name, region).Some? then FirstLine(prefix, name, region) else lines[|lines| - 1])
      && LastLine(lines, name, region, true)
         == (if lines[|lines| - 1].value.isInput then lines[|lines| - 1] else LastLine(prefix, name, region, true))
      && LastLine(lines, name, region, false)
         == (if lines[|lines| - 1].value.isOutput then lines[|lines| - 1] else LastLine(prefix, name, region, false))
  {
  }

  /** At every point of the loop there is at most one record per key. */
  lemma {:induction false} FoldUniqueKeys(lines: seq<Option<Line>>, parse: string -> real)
    ensures UniqueKeys(Fold(lines, parse))
    decreases |lines|
  {
    if |lines| > 0 {
      FoldUniqueKeys(lines[..|lines| - 1], parse);
      if lines[|lines| - 1].Some? {
        UpsertUniqueKeys(Fold(lines[..|lines| - 1], parse), lines[|lines| - 1].value, parse);
      }
    }
  }

  /** A SKU the filters reject leaves the records exactly as they were. */
  lemma SkippedSkuChangesNothing(feed: Feed, ps: seq<Product>, p: Product, parse: string -> real)
    requires Classify(feed, p).None?
    ensures Collect(feed, ps + [p], parse) == Collect(feed, ps, parse)
  {
    var lines := Lines(feed, ps + [p]);
    assert lines[..|ps|] == Lines(feed, ps);
  }

  /** The position of the first accepted SKU for the key. */
  ghost function FirstPos(lines: seq<Option<Line>>, name: string, region: string): (r: Option<nat>)
    ensures r.Some? ==> r.value < |lines| && Keyed(lines[r.value], name, region)
    ensures r.None? <==> forall i :: 0 <= i < |lines| ==> !Keyed(lines[i], name, region)
    decreases |lines|
  {
    if |lines| == 0 then None
    else
      var prev := FirstPos(lines[..|lines| - 1], name, region);
      if prev.Some? then
        assert lines[prev.value] == lines[..|lines| - 1][prev.value];
        prev
      else
        assert forall i :: 0 <= i < |lines| - 1 ==> lines[i] == lines[..|lines| - 1][i];
        if Keyed(lines[|lines| - 1], name, region) then Some(|lines| - 1) else None
  }

  /** Records appear in the order their keys were first discovered. */
  ghost predicate InDiscoveryOrder(acc: seq<PriceRecord>, lines: seq<Option<Line>>) {
    && (forall i :: 0 <= i < |acc| ==> FirstPos(lines, acc[i].name, acc[i].region).Some?)
    && Pairwise(acc, (a: PriceRecord, b: PriceRecord) => DiscoveredBefore(lines, a, b))
  }

  ghost predicate DiscoveredBefore(lines: seq<Option<Line>>, a: PriceRecord, b: PriceRecord) {
    var fa := FirstPos(lines, a.name, a.region);
    var fb := FirstPos(lines, b.name, b.region);
    fa.Some? && fb.Some? && fa.value < fb.value
  }

  /** The loop appends a record only for a key it has not seen before, so the
      records are ordered by the position of their key's first SKU. */
  lemma {:induction false} FoldDiscoveryOrder(lines: seq<Option<Line>>, parse: string -> real)
    ensures InDiscoveryOrder(Fold(lines, parse), lines)
    decreases |lines|
  {
    if |lines| > 0 {
      var prefix := lines[..|lines| - 1];
      FoldDiscoveryOrder(prefix, parse);
      var acc := Fold(prefix, parse);
      var r := Fold(lines, parse);
      assert forall i :: 0 <= i < |acc| ==> HasKey(r[i], acc[i].name, acc[i].region);
      if |r| > |acc| {
        // a record was appended: its key is new, first seen at the last line
        var l := lines[|lines| - 1].value;
        FoldEntry(prefix, parse, l.name, l.region);
        assert FirstPos(prefix, l.name, l.region).None?;
        assert HasKey(r[|acc|], l.name, l.region);
      }
      DiscoveryOrderStep(prefix, lines, acc, r);
    }
  }

  /** One more line keeps the order of the records already there; a record
      appended for a key not seen before comes after all of them. */
  lemma DiscoveryOrderStep(prefix: seq<Option<Line>>, lines: seq<Option<Line>>, acc: seq<PriceRecord>, r: seq<PriceRecord>)
    requires |lines| > 0 && prefix == lines[..|lines| - 1]
    requires InDiscoveryOrder(acc, prefix)
    requires |acc| <= |r| <= |acc| + 1
    requires forall i :: 0 <= i < |acc| ==> HasKey(r[i], acc[i].name, acc[i].region)
    requires |r| > |acc| ==>
               FirstPos(prefix, r[|acc|].name, r[|acc|].region).None? && Keyed(lines[|lines| - 1], r[|acc|].name, r[|acc|].region)
    ensures InDiscoveryOrder(r, lines)
  {
    // keys already discovered keep their first position
    forall n, g | FirstPos(prefix, n, g).Some? ensures FirstPos(lines, n, g) == FirstPos(prefix, n, g) { }
    if |r| > |acc| {
      assert FirstPos(lines, r[|acc|].name, r[|acc|].region) == Some(|lines| - 1);
    }
    forall i, j | 0 <= i < j < |r| ensures DiscoveredBefore(lines, r[i], r[j]) {
      if j < |acc| {
        assert DiscoveredBefore(prefix, acc[i], acc[j]);
      }
    }
  }

  /** The handler's output lists its records in discovery order. */
  lemma NormalizeDiscoveryOrder(feed: Feed, parse: string -> real)
    ensures InDiscoveryOrder(Normalize(feed, parse), Lines(feed, feed.products))
  {
    var lines := Lines(feed, feed.products);
    var acc := Fold(lines, parse);
    var r := Filter(acc, Complete);
    FoldDiscoveryOrder(lines, parse);
    PairwiseSubsequence(r, acc, (a: PriceRecord, b: PriceRecord) => DiscoveredBefore(lines, a, b));
    forall i | 0 <= i < |r| ensures FirstPos(lines, r[i].name, r[i].region).Some? {
      assert r[i] in acc;
    }
  }

  /** The completeness filter applied to the fold, described without the
      loop: one record per key, present exactly when some line priced the
      input side and some priced the output side. */
  lemma {:induction false} CompleteEntry(lines: seq<Option<Line>>, parse: string -> real, name: string, region: string)
    ensures UniqueKeys(Filter(Fold(lines, parse), Complete))
    ensures (Entry(Filter(Fold(lines, parse), Complete), name, region).Some?)
            <==> LastLine(lines, name, region, true).Some? && LastLine(lines, name, region, false).Some?
    ensures Entry(Filter(Fold(lines, parse), Complete), name, region).Some? ==>
      Entry(Filter(Fold(lines, parse), Complete), name, region).value
        == PriceRecord(FirstLine(lines, name, region).value.provider, name, region,
                       Some(parse(LastLine(lines, name, region, true).value.price)),
                       Some(parse(LastLine(lines, name, region, false).value.price)))
  {
    var acc := Fold(lines, parse);
    var r := Filter(acc, Complete);
    FoldUniqueKeys(lines, parse);
    PairwiseSubsequence(r, acc, DistinctKeys);
    FoldEntry(lines, parse, name, region);
    var lastIn := LastLine(lines, name, region, true);
    var lastOut := LastLine(lines, name, region, false);
    if lastIn.Some? {
      var i :| 0 <= i < |lines| && lines[i] == lastIn;
      assert Keyed(lines[i], name, region);
    }
    if lastIn.Some? && lastOut.Some? {
      var e := Entry(acc, name, region).value;
      assert e in acc && Complete(e);
      assert e in r;
    }
    if Entry(r, name, region).Some? {
      var e := Entry(r, name, region).value;
      assert e in r;
      var k :| 0 <= k < |acc| && acc[k] == e;
      FindIsFirst(acc, name, region, k);
    }
  }

  /** The handler's output, described without the loop: one record per key,
      present exactly when some accepted SKU priced the input side and some
      priced the output side; provider from the first SKU for the key, each
      cost from the last SKU for that side. */
  lemma NormalizeCharacterized(feed: Feed, parse: string -> real, name: string, region: string)
    ensures UniqueKeys(Normalize(feed, parse))
    ensures var lines := Lines(feed, feed.products);
      (Entry(Normalize(feed, parse), name, region).Some?)
        <==> LastLine(lines, name, region, true).Some? && LastLine(lines, name, region, false).Some?
    ensures var lines := Lines(feed, feed.products);
      Entry(Normalize(feed, parse), name, region).Some? ==>
      Entry(Normalize(feed, parse), name, region).value
        == PriceRecord(FirstLine(lines, name, region).value.provider, name, region,
                       Some(parse(LastLine(lines, name, region, true).value.price)),
                       Some(parse(LastLine(lines, name, region, false).value.price)))
  {
    CompleteEntry(Lines(feed, feed.products), parse, name, region);
  }

  /** Soundness: every output record carries the name and region of some
      accepted SKU of the feed. */
  lemma NormalizeSound(feed: Feed, parse: string -> real, e: PriceRecord)
    requires e in Normalize(feed, parse)
    ensures exists i :: 0 <= i < |feed.products| && Keyed(Classify(feed, feed.products[i]), e.name, e.region)
  {
    var r := Normalize(feed, parse);
    var lines := Lines(feed, feed.products);
    NormalizeCharacterized(feed, parse, e.name, e.region);
    var k :| 0 <= k < |r| && r[k] == e;
    assert Find(r, e.name, e.region).Some?;
    var last := LastLine(lines, e.name, e.region, true);
    var i :| 0 <= i < |lines| && lines[i] == last;
    assert Keyed(Classify(feed, feed.products[i]), e.name, e.region);
  }
}
