/** The two-tier model store of app.js (`modelsStore`, lines 4-10) and the
    store mutations of `addModel`, `updateModel`, `deleteModel` and
    `resetDefaults` (lines 478-543 and 679-739). Every mutation is a function
    from one store value to the next; `saved` is what `localStorage` holds
    under "customModels". */
module Store {
  import opened Common
  import opened Text
  import opened Models
  import Resolver

  datatype Store = Store(defaults: seq<Model>, custom: seq<Model>, saved: seq<Model>)

  /** `modelsStore.all`: the merged view, defaults first. Positions in this
      view are how the page names a model. */
  function All(st: Store): seq<Model> {
    st.defaults + st.custom
  }

  /** Every default-tier slot holds a default model, every custom slot a
      custom model, and storage agrees with the custom tier. */
  ghost predicate Valid(st: Store) {
    && (forall m :: m in st.defaults ==> m.tier == Default)
    && (forall m :: m in st.custom ==> m.tier == Custom)
    && st.saved == st.custom
  }

  /** Page start-up: `loadDefaultModels` then `loadCustomModels`, with the
      stored custom models already parsed (missing key: empty). */
  function Open(fetch: Resolver.Fetch, stored: seq<Model>): (r: Store)
    ensures r.defaults == Resolver.Load(fetch).defaults
    ensures r.custom == stored && r.saved == stored
    ensures (forall m :: m in stored ==> m.tier == Custom) ==> Valid(r)
  {
    Resolver.ResolvedShape(fetch);
    Store(Resolver.Load(fetch).defaults, stored, stored)
  }

  // ----- addModel -----

  /** The add-model form as read by `addModel`; a cost is `None` when
      `parseFloat` gives NaN. */
  datatype AddForm = AddForm(
    providerChoice: string,
    customProvider: string,
    modelName: string,
    inputCost: Option<real>,
    outputCost: Option<real>,
    regionField: string,
    checkedRegions: seq<string>)

  datatype AddError = MissingFields | NoRegionSelected | NoRegionEntered

  function FormProvider(f: AddForm): string {
    if f.providerChoice == Other then Trim(f.customProvider) else f.providerChoice
  }

  /** The free-text region for "Other", the checked boxes otherwise. */
  function FormRegions(f: AddForm): seq<string> {
    if f.providerChoice == Other then [Trim(f.regionField)] else f.checkedRegions
  }

  predicate NonBlank(region: string) {
    Trim(region) != []
  }

  /** One custom record per non-blank region, in order, sharing the rest. */
  function FanOut(provider: string, name: string, inputCost: real, outputCost: real, regions: seq<string>): (r: seq<Model>)
    ensures |r| <= |regions|
    ensures forall i :: 0 <= i < |r| ==>
              && r[i].provider == provider && r[i].name == name
              && r[i].inputCost == inputCost && r[i].outputCost == outputCost
              && r[i].tier == Custom && r[i].region != []
    decreases |regions|
  {
    if |regions| == 0 then []
    else
      var rest := FanOut(provider, name, inputCost, outputCost, regions[1..]);
      if Trim(regions[0]) != [] then
        [Model(provider, name, Trim(regions[0]), inputCost, outputCost, Custom)] + rest
      else rest
  }

  /** The record `addModel` builds for one region. */
  function RecordFor(provider: string, name: string, inputCost: real, outputCost: real): string -> Model {
    region => Model(provider, name, Trim(region), inputCost, outputCost, Custom)
  }

  /** The fan-out is exactly one record per non-blank region, in the order the
      regions were given, each with the trimmed region. */
  lemma {:induction false} FanOutPerRegion(provider: string, name: string, inputCost: real, outputCost: real, regions: seq<string>)
    ensures FanOut(provider, name, inputCost, outputCost, regions)
            == Map(RecordFor(provider, name, inputCost, outputCost), Filter(regions, NonBlank))
    decreases |regions|
  {
    if |regions| > 0 {
      var f := RecordFor(provider, name, inputCost, outputCost);
      FanOutPerRegion(provider, name, inputCost, outputCost, regions[1..]);
      var keptRest := Filter(regions[1..], NonBlank);
      if NonBlank(regions[0]) {
        assert Filter(regions, NonBlank) == [regions[0]] + keptRest;
        MapCons(f, regions[0], keptRest);
      } else {
        assert Filter(regions, NonBlank) == keptRest;
      }
    }
  }

  /** `addModel`: validates the form, then appends the fanned-out records to
      the custom tier and saves it. A rejected form changes nothing. */
  function AddModel(st: Store, f: AddForm): (r: Result<Store, AddError>)
    ensures r.Failure? <==>
              || FormProvider(f) == [] || Trim(f.modelName) == []
              || f.inputCost.None? || f.outputCost.None?
              || (f.providerChoice != Other && |f.checkedRegions| == 0)
              || (f.providerChoice == Other && Trim(f.regionField) == [])
    ensures r.Success? ==>
              && r.value.defaults == st.defaults
              && r.value.custom
                   == st.custom + FanOut(FormProvider(f), Trim(f.modelName), f.inputCost.value, f.outputCost.value, FormRegions(f))
              && r.value.saved == r.value.custom
    ensures r.Success? && Valid(st) ==> Valid(r.value)
  {
    var provider := FormProvider(f);
    var name := Trim(f.modelName);
    var regions := FormRegions(f);
    if provider == [] || name == [] || f.inputCost.None? || f.outputCost.None? then Failure(MissingFields)
    else if f.providerChoice != Other && |regions| == 0 then Failure(NoRegionSelected)
    else if f.providerChoice == Other && regions[0] == [] then Failure(NoRegionEntered)
    else Success(AppendCustom(st, FanOut(provider, name, f.inputCost.value, f.outputCost.value, regions)))
  }

  /** Appends records to the custom tier and saves it. */
  function AppendCustom(st: Store, added: seq<Model>): (r: Store)
    ensures r.defaults == st.defaults && r.custom == st.custom + added && r.saved == r.custom
    ensures Valid(st) && (forall i :: 0 <= i < |added| ==> added[i].tier == Custom) ==> Valid(r)
  {
    var custom := st.custom + added;
    assert forall m :: m in custom ==> m in st.custom || m in added;
    Store(st.defaults, custom, custom)
  }

  /** A successful add appends, after the existing custom models, one record
      per non-blank region of the form, in order: same provider, trimmed name
      and costs, trimmed region, custom tier. */
  lemma AddModelAppendsPerRegion(st: Store, f: AddForm)
    requires AddModel(st, f).Success?
    ensures var r := AddModel(st, f).value;
      var kept := Filter(FormRegions(f), NonBlank);
      && |r.custom| == |st.custom| + |kept|
      && r.custom[..|st.custom|] == st.custom
      && forall i :: 0 <= i < |kept| ==>
           r.custom[|st.custom| + i]
             == Model(FormProvider(f), Trim(f.modelName), Trim(kept[i]), f.inputCost.value, f.outputCost.value, Custom)
  {
    var r := AddModel(st, f).value;
    var kept := Filter(FormRegions(f), NonBlank);
    var mk := RecordFor(FormProvider(f), Trim(f.modelName), f.inputCost.value, f.outputCost.value);
    var added := FanOut(FormProvider(f), Trim(f.modelName), f.inputCost.value, f.outputCost.value, FormRegions(f));
    FanOutPerRegion(FormProvider(f), Trim(f.modelName), f.inputCost.value, f.outputCost.value, FormRegions(f));
    assert added == Map(mk, kept);
    assert r.custom == st.custom + added;
    assert r.custom[..|st.custom|] == st.custom;
    forall i | 0 <= i < |kept|
      ensures r.custom[|st.custom| + i]
              == Model(FormProvider(f), Trim(f.modelName), Trim(kept[i]), f.inputCost.value, f.outputCost.value, Custom)
    {
      assert r.custom[|st.custom| + i] == added[i] == mk(kept[i]);
    }
  }

  /** Adding one model for two checked, non-blank regions creates exactly two
      custom records that differ only in region. */
  lemma AddTwoRegions(st: Store, provider: string, name: string, inputCost: real, outputCost: real, r1: string, r2: string)
    requires provider != [] && provider != Other && Trim(name) != []
    requires Trim(r1) != [] && Trim(r2) != []
    ensures var f := AddForm(provider, "", name, Some(inputCost), Some(outputCost), "", [r1, r2]);
      var r := AddModel(st, f);
      && r.Success?
      && r.value.custom == st.custom + [Model(provider, Trim(name), Trim(r1), inputCost, outputCost, Custom),
                                        Model(provider, Trim(name), Trim(r2), inputCost, outputCost, Custom)]
  {
    FanOutTwo(provider, Trim(name), inputCost, outputCost, r1, r2);
    var f := AddForm(provider, "", name, Some(inputCost), Some(outputCost), "", [r1, r2]);
    assert FormRegions(f) == [r1, r2];
    assert FormProvider(f) == provider;
  }

  /** Two non-blank regions fan out to two records, in order. */
  lemma FanOutTwo(provider: string, name: string, inputCost: real, outputCost: real, r1: string, r2: string)
    requires Trim(r1) != [] && Trim(r2) != []
    ensures FanOut(provider, name, inputCost, outputCost, [r1, r2])
            == [Model(provider, name, Trim(r1), inputCost, outputCost, Custom),
                Model(provider, name, Trim(r2), inputCost, outputCost, Custom)]
  {
    var regions := [r1, r2];
    assert regions[1..] == [r2];
    assert [r2][1..] == [];
    assert FanOut(provider, name, inputCost, outputCost, [r2]) == [Model(provider, name, Trim(r2), inputCost, outputCost, Custom)];
  }

  // ----- updateModel, deleteModel, resetDefaults -----

  /** The merged position `i` seen from the tier its tag selects: the
      defaults slot `i` for a default model (`defaults.indexOf(model)`), the
      custom slot `i - |defaults|` for a custom one. A tag that disagrees with
      the position finds no slot. */
  predicate TargetsDefault(st: Store, i: nat)
    requires i < |All(st)|
  {
    All(st)[i].tier == Default && i < |st.defaults|
  }

  predicate TargetsCustom(st: Store, i: nat)
    requires i < |All(st)|
  {
    All(st)[i].tier == Custom && i >= |st.defaults|
  }

  function Edited(m: Model, regionField: string, inputCost: real, outputCost: real): Model {
    m.(region := Trim(regionField), inputCost := inputCost, outputCost := outputCost)
  }

  /** `updateModel(i)`: overwrites region (trimmed) and both costs of the
      model at merged position `i`; saves only when it is a custom model. */
  function UpdateModel(st: Store, i: nat, regionField: string, inputCost: real, outputCost: real): (r: Store)
    requires i < |All(st)|
    ensures |All(r)| == |All(st)| && |r.defaults| == |st.defaults|
    ensures TargetsDefault(st, i) || TargetsCustom(st, i) ==>
              All(r)[i] == Edited(All(st)[i], regionField, inputCost, outputCost)
    ensures forall j :: 0 <= j < |All(st)| && j != i ==> All(r)[j] == All(st)[j]
    ensures !TargetsDefault(st, i) && !TargetsCustom(st, i) ==> r == st
    ensures TargetsDefault(st, i) ==> r.custom == st.custom && r.saved == st.saved
    ensures TargetsCustom(st, i) ==> r.defaults == st.defaults && r.saved == r.custom
  {
    var m := All(st)[i];
    var d := |st.defaults|;
    if m.tier == Default then
      if i < d then Store(st.defaults[i := Edited(m, regionField, inputCost, outputCost)], st.custom, st.saved)
      else st
    else
      if i >= d then
        var custom := st.custom[i - d := Edited(m, regionField, inputCost, outputCost)];
        Store(st.defaults, custom, custom)
      else st
  }

  /** On a well-formed store every position is found in its own tier, and an
      edit keeps the store well-formed. */
  lemma UpdateModelKeepsValid(st: Store, i: nat, regionField: string, inputCost: real, outputCost: real)
    requires i < |All(st)| && Valid(st)
    ensures TargetsDefault(st, i) || TargetsCustom(st, i)
    ensures Valid(UpdateModel(st, i, regionField, inputCost, outputCost))
  {
    var m := All(st)[i];
    var d := |st.defaults|;
    if i < d {
      assert m in st.defaults by { assert m == st.defaults[i]; }
      var defaults := st.defaults[i := Edited(m, regionField, inputCost, outputCost)];
      assert forall x :: x in defaults ==> x in st.defaults || x == defaults[i];
    } else {
      assert m in st.custom by { assert m == st.custom[i - d]; }
      var custom := st.custom[i - d := Edited(m, regionField, inputCost, outputCost)];
      assert forall x :: x in custom ==> x in st.custom || x == custom[i - d];
    }
  }

  /** `deleteModel(i)` (confirmation taken as given): removes the model at
      merged position `i` from its tier; saves only when it is a custom model. */
  function DeleteModel(st: Store, i: nat): (r: Store)
    requires i < |All(st)|
    ensures TargetsDefault(st, i) || TargetsCustom(st, i) ==> All(r) == All(st)[..i] + All(st)[i + 1..]
    ensures !TargetsDefault(st, i) && !TargetsCustom(st, i) ==> r == st
    ensures TargetsDefault(st, i) ==>
              && |r.defaults| + 1 == |st.defaults|
              && r.custom == st.custom && r.saved == st.saved
    ensures TargetsCustom(st, i) ==>
              var k := i - |st.defaults|;
              && r.defaults == st.defaults
              && |r.custom| + 1 == |st.custom|
              && (forall j :: 0 <= j < k ==> r.custom[j] == st.custom[j])
              && (forall j :: k <= j < |r.custom| ==> r.custom[j] == st.custom[j + 1])
              && r.saved == r.custom
    ensures Valid(st) ==> Valid(r) && (TargetsDefault(st, i) || TargetsCustom(st, i))
  {
    var m := All(st)[i];
    var d := |st.defaults|;
    if m.tier == Default then
      if i < d then
        RemoveInFirst(st.defaults, st.custom, i);
        Store(st.defaults[..i] + st.defaults[i + 1..], st.custom, st.saved)
      else st
    else
      if i >= d then
        RemoveInSecond(st.defaults, st.custom, i);
        assert m in st.custom by { assert m == st.custom[i - d]; }
        var custom := st.custom[..i - d] + st.custom[i - d + 1..];
        Store(st.defaults, custom, custom)
      else
        assert m in st.defaults by { assert m == st.defaults[i]; }
        st
  }

  /** Removing position `i` of a concatenation, when it falls in the first part. */
  lemma RemoveInFirst<T>(a: seq<T>, b: seq<T>, i: nat)
    requires i < |a|
    ensures (a + b)[..i] + (a + b)[i + 1..] == (a[..i] + a[i + 1..]) + b
    ensures forall x :: x in a[..i] + a[i + 1..] ==> x in a
  {
    assert (a + b)[..i] == a[..i];
    assert (a + b)[i + 1..] == a[i + 1..] + b;
  }

  /** Removing position `i` of a concatenation, when it falls in the second part. */
  lemma RemoveInSecond<T>(a: seq<T>, b: seq<T>, i: nat)
    requires |a| <= i < |a| + |b|
    ensures var k := i - |a|;
      && (a + b)[..i] + (a + b)[i + 1..] == a + (b[..k] + b[k + 1..])
      && (forall x :: x in b[..k] + b[k + 1..] ==> x in b)
  {
    var k := i - |a|;
    assert (a + b)[..i] == a + b[..k];
    assert (a + b)[i + 1..] == b[k + 1..];
  }

  /** `resetDefaults` (confirmation taken as given): empties and saves the
      custom tier; the default tier is untouched. */
  function ResetCustom(st: Store): (r: Store)
    ensures All(r) == st.defaults
    ensures r.defaults == st.defaults && r.saved == []
    ensures Valid(st) ==> Valid(r)
  {
    Store(st.defaults, [], [])
  }
}
