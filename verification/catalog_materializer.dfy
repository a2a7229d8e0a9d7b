/** Rebuilding a provider's model catalog from probed ids (materializer.go). */
module CatalogMaterializer {
  import opened Text
  import opened ProviderModel
  import ModelIdentity

  /** Which ids a surface's catalog accepts: surface id and model id. */
  type Filter = (string, string) -> bool

  /** What discovery answers for one provider: nothing to probe, a failure, or ids. */
  datatype Answer = NoRequest | Failed | Ids(ids: seq<string>)

  function Filtered(filter: Option<Filter>, ids: seq<string>, surfaceId: string): seq<string> {
    if filter.None? then ids else Accepted(filter.value, ids, surfaceId)
  }

  function Accepted(filter: Filter, ids: seq<string>, surfaceId: string): seq<string> {
    if ids == [] then []
    else
      var id := Trim(ids[|ids| - 1]);
      Accepted(filter, ids[..|ids| - 1], surfaceId) + if id != "" && filter(surfaceId, id) then [id] else []
  }

  /** The probed id is not blank and the filter accepts it for the surface. */
  predicate Accepts(filter: Filter, surfaceId: string, id: string) {
    Trim(id) != "" && filter(surfaceId, Trim(id))
  }

  /** out holds, trimmed and in order, the ids at the given positions, which are those of all
      accepted ids. */
  ghost predicate SelectedAt(positions: seq<nat>, filter: Filter, ids: seq<string>, surfaceId: string, out: seq<string>) {
    && |positions| == |out|
    && (forall j :: 0 <= j < |out| ==> positions[j] < |ids| && out[j] == Trim(ids[positions[j]]))
    && (forall j, k :: 0 <= j < k < |out| ==> positions[j] < positions[k])
    && (forall i :: 0 <= i < |ids| ==> (i in positions <==> Accepts(filter, surfaceId, ids[i])))
  }

  lemma SelectNext(positions: seq<nat>, filter: Filter, ids: seq<string>, surfaceId: string, out: seq<string>, id: string)
    requires SelectedAt(positions, filter, ids, surfaceId, out)
    ensures if Accepts(filter, surfaceId, id) then SelectedAt(positions + [|ids|], filter, ids + [id], surfaceId, out + [Trim(id)])
            else SelectedAt(positions, filter, ids + [id], surfaceId, out)
  {
    hide Trim, Accepts;
    var n, all := |ids|, ids + [id];
    assert n !in positions;
    assert all[n] == id && forall k :: 0 <= k < n ==> all[k] == ids[k];
    if Accepts(filter, surfaceId, id) {
      var next, kept := positions + [n], out + [Trim(id)];
      assert next[|positions|] == n;
      forall k | 0 <= k < |all| ensures k in next <==> Accepts(filter, surfaceId, all[k]) {
        assert k in next <==> k in positions || k == n;
      }
    }
  }

  /** Exactly the accepted ids are kept, each as often as it was probed and in probe order. */
  lemma {:induction false} AcceptedExactly(filter: Filter, ids: seq<string>, surfaceId: string) returns (positions: seq<nat>)
    ensures SelectedAt(positions, filter, ids, surfaceId, Accepted(filter, ids, surfaceId))
  {
    hide Trim, SelectedAt;
    if ids == [] {
      positions := [];
      NothingSelected(filter, surfaceId);
    } else {
      var n := |ids| - 1;
      positions := AcceptedExactly(filter, ids[..n], surfaceId);
      var prior := Accepted(filter, ids[..n], surfaceId);
      SelectNext(positions, filter, ids[..n], surfaceId, prior, ids[n]);
      assert ids[..n] + [ids[n]] == ids && prior + [] == prior;
      if Accepts(filter, surfaceId, ids[n]) {
        positions := positions + [n];
      }
    }
  }

  lemma NothingSelected(filter: Filter, surfaceId: string)
    ensures SelectedAt([], filter, [], surfaceId, [])
  {
  }

  method FilteredModelIds(filter: Option<Filter>, ids: seq<string>, surfaceId: string) returns (out: seq<string>)
    ensures out == Filtered(filter, ids, Trim(surfaceId))
    ensures filter.None? ==> out == ids
    ensures filter.Some? ==> exists positions :: SelectedAt(positions, filter.value, ids, Trim(surfaceId), out)
  {
    hide Trim, SelectedAt;
    if filter.None? {
      return ids;
    }
    ghost var positions := AcceptedExactly(filter.value, ids, Trim(surfaceId));
    out := [];
    for i := 0 to |ids|
      invariant out == Accepted(filter.value, ids[..i], Trim(surfaceId))
    {
      assert ids[..i + 1][..i] == ids[..i];
      var id := Trim(ids[i]);
      if id != "" && filter.value(Trim(surfaceId), id) {
        out := out + [id];
      }
    }
    assert ids[..|ids|] == ids;
  }

  /** existingModelRefs: the last reference given for each id. */
  function Refs(models: seq<Model>): map<string, ModelRef> {
    if models == [] then map[]
    else
      var rest, last := Refs(models[..|models| - 1]), models[|models| - 1];
      if Blank(last.providerModelId) || last.modelRef.None? then rest
      else rest[Trim(last.providerModelId) := last.modelRef.value]
  }

  method ExistingModelRefs(models: seq<Model>) returns (out: map<string, ModelRef>)
    ensures out == Refs(models)
  {
    hide Trim;
    out := map[];
    for i := 0 to |models|
      invariant out == Refs(models[..i])
    {
      assert models[..i + 1][..i] == models[..i];
      if !Blank(models[i].providerModelId) && models[i].modelRef.Some? {
        out := out[Trim(models[i].providerModelId) := models[i].modelRef.value];
      }
    }
    assert models[..|models|] == models;
  }

  function RefOf(refs: map<string, ModelRef>, vendorId: string, id: string): Option<ModelRef> {
    if id in refs then Some(refs[id])
    else match ModelIdentity.ResolveModelRef(vendorId, id)
         case Some(modelId) => Some(ModelRef(vendorId, modelId))
         case None => None
  }

  /** modelsFromModelIDs: blank ids are dropped, known references are kept. */
  function Built(refs: map<string, ModelRef>, ids: seq<string>, vendorId: string): seq<Model> {
    if ids == [] then []
    else
      var id := Trim(ids[|ids| - 1]);
      Built(refs, ids[..|ids| - 1], vendorId) + if id == "" then [] else [Model(id, RefOf(refs, vendorId, id))]
  }

  method ModelsFromModelIds(current: seq<Model>, ids: seq<string>, vendorId: string) returns (models: seq<Model>)
    ensures models == Built(Refs(current), ids, vendorId)
  {
    hide Trim;
    var refs := ExistingModelRefs(current);
    models := [];
    for i := 0 to |ids|
      invariant models == Built(refs, ids[..i], vendorId)
    {
      assert ids[..i + 1][..i] == ids[..i];
      var id := Trim(ids[i]);
      if id != "" {
        models := models + [Model(id, RefOf(refs, vendorId, id))];
      }
    }
    assert ids[..|ids|] == ids;
  }

  predicate AlreadyCurrent(current: seq<Model>, ids: seq<string>) {
    |current| == |ids| && forall i :: 0 <= i < |ids| ==> Trim(current[i].providerModelId) == Trim(ids[i])
  }

  method ModelsAlreadyCurrent(current: seq<Model>, ids: seq<string>) returns (same: bool)
    ensures same <==> AlreadyCurrent(current, ids)
    ensures same <==> |current| == |ids| && forall i :: 0 <= i < |ids| ==> Trim(current[i].providerModelId) == Trim(ids[i])
  {
    hide Trim;
    if |current| != |ids| {
      return false;
    }
    for i := 0 to |ids|
      invariant forall k :: 0 <= k < i ==> Trim(current[k].providerModelId) == Trim(ids[k])
    {
      if Trim(current[i].providerModelId) != Trim(ids[i]) {
        return false;
      }
    }
    same := true;
  }

  /** The provider after materialisation, or nothing when discovery failed. The catalog
      names no vendor. */
  function Materialized(filter: Option<Filter>, p: Provider, answer: Answer): Option<Provider> {
    match answer
    case NoRequest => Some(p)
    case Failed => None
    case Ids(ids) =>
      var kept := Filtered(filter, ids, Trim(p.surfaceId));
      if AlreadyCurrent(p.models, kept) then Some(p) else Some(p.(models := Built(Refs(p.models), kept, "")))
  }

  /** Some model goes by the id. */
  ghost predicate Offers(models: seq<Model>, id: string) {
    exists k :: 0 <= k < |models| && Trim(models[k].providerModelId) == id
  }

  /** Some probed id trims to the id and the filter, if there is one, accepts it. */
  ghost predicate Probed(filter: Option<Filter>, surfaceId: string, ids: seq<string>, id: string) {
    (exists i :: 0 <= i < |ids| && Trim(ids[i]) == id) && (filter.Some? ==> filter.value(surfaceId, id))
  }

  /** Whether it was rebuilt or found current: a catalog offers exactly the accepted ids. */
  lemma MaterializedOffers(filter: Option<Filter>, p: Provider, ids: seq<string>, id: string)
    requires id != ""
    ensures Offers(Materialized(filter, p, Ids(ids)).value.models, id) <==> Probed(filter, Trim(p.surfaceId), ids, id)
  {
    hide Trim, Built, Accepted, SelectedAt;
    var kept := Filtered(filter, ids, Trim(p.surfaceId));
    KeptExactly(filter, ids, Trim(p.surfaceId), id);
    if AlreadyCurrent(p.models, kept) {
      if k :| 0 <= k < |p.models| && Trim(p.models[k].providerModelId) == id {
        assert Trim(kept[k]) == id;
      }
      if k :| 0 <= k < |kept| && Trim(kept[k]) == id {
        assert Trim(p.models[k].providerModelId) == id;
      }
    } else {
      BuiltOffers(Refs(p.models), kept, id);
    }
  }

  lemma KeptExactly(filter: Option<Filter>, ids: seq<string>, surfaceId: string, id: string)
    requires id != ""
    ensures (exists k :: 0 <= k < |Filtered(filter, ids, surfaceId)| && Trim(Filtered(filter, ids, surfaceId)[k]) == id)
            <==> Probed(filter, surfaceId, ids, id)
  {
    hide Trim, Accepted;
    if filter.Some? {
      AcceptedHolds(filter.value, ids, surfaceId, id);
      assert Filtered(filter, ids, surfaceId) == Accepted(filter.value, ids, surfaceId);
    } else {
      assert Filtered(filter, ids, surfaceId) == ids;
    }
  }

  lemma AcceptedHolds(filter: Filter, ids: seq<string>, surfaceId: string, id: string)
    requires id != ""
    ensures (exists k :: 0 <= k < |Accepted(filter, ids, surfaceId)| && Trim(Accepted(filter, ids, surfaceId)[k]) == id)
            <==> (exists i :: 0 <= i < |ids| && Trim(ids[i]) == id) && filter(surfaceId, id)
  {
    hide Trim, Accepted;
    var kept := Accepted(filter, ids, surfaceId);
    var positions := AcceptedExactly(filter, ids, surfaceId);
    if k :| 0 <= k < |kept| && Trim(kept[k]) == id {
      var i := positions[k];
      TrimTwice(ids[i]);
      assert i in positions;
      assert Trim(ids[i]) == id && Accepts(filter, surfaceId, ids[i]);
    }
    if i :| 0 <= i < |ids| && Trim(ids[i]) == id && filter(surfaceId, id) {
      assert Accepts(filter, surfaceId, ids[i]) && i in positions;
      var k :| 0 <= k < |positions| && positions[k] == i;
      TrimTwice(ids[i]);
      assert Trim(kept[k]) == id;
    }
  }

  lemma {:induction false} BuiltOffers(refs: map<string, ModelRef>, ids: seq<string>, id: string)
    requires id != ""
    ensures Offers(Built(refs, ids, ""), id) <==> exists k :: 0 <= k < |ids| && Trim(ids[k]) == id
  {
    hide Trim, RefOf;
    if ids != [] {
      var n := |ids| - 1;
      BuiltOffers(refs, ids[..n], id);
      TrimTwice(ids[n]);
      assert forall k :: 0 <= k < n ==> ids[..n][k] == ids[k];
      var prior, built := Built(refs, ids[..n], ""), Built(refs, ids, "");
      assert forall k :: 0 <= k < |prior| ==> built[k] == prior[k];
      if Trim(ids[n]) != "" {
        assert Trim(built[|prior|].providerModelId) == Trim(ids[n]);
      }
    }
  }

  method MaterializeProvider(filter: Option<Filter>, p: Provider, answer: Answer) returns (r: Option<Provider>)
    ensures r == Materialized(filter, p, answer)
    ensures answer.NoRequest? ==> r == Some(p)
    ensures answer.Failed? <==> r.None?
    ensures answer.Ids? ==> forall id :: id != "" ==> (Offers(r.value.models, id) <==> Probed(filter, Trim(p.surfaceId), answer.ids, id))
  {
    hide Trim, Filtered, Offers, Probed, AlreadyCurrent;
    if answer.Ids? {
      forall id | id != "" ensures Offers(Materialized(filter, p, answer).value.models, id) <==> Probed(filter, Trim(p.surfaceId), answer.ids, id) {
        MaterializedOffers(filter, p, answer.ids, id);
      }
    }
    if answer.NoRequest? {
      return Some(p);
    }
    if answer.Failed? {
      return None;
    }
    var kept := FilteredModelIds(filter, answer.ids, p.surfaceId);
    var same := ModelsAlreadyCurrent(p.models, kept);
    if same {
      return Some(p);
    }
    var models := ModelsFromModelIds(p.models, kept, "");
    r := Some(p.(models := models));
  }

  /** Materialisation changes nothing but the models. */
  lemma ChangesOnlyModels(filter: Option<Filter>, p: Provider, answer: Answer)
    requires Materialized(filter, p, answer).Some?
    ensures Materialized(filter, p, answer).value.(models := p.models) == p
  {
    hide Trim, Filtered, Built, AlreadyCurrent;
  }

  lemma NoVendorNoGuess(refs: map<string, ModelRef>, id: string)
    ensures RefOf(refs, "", id) == if id in refs then Some(refs[id]) else None
  {
  }

  /** The trimmed ids that are not blank, in order. */
  function KeptIds(ids: seq<string>): seq<string> {
    if ids == [] then []
    else
      var id := Trim(ids[|ids| - 1]);
      KeptIds(ids[..|ids| - 1]) + if id == "" then [] else [id]
  }

  /** A rebuild has one model for each id that is not blank, in order. */
  lemma {:induction false} BuiltInOrder(refs: map<string, ModelRef>, ids: seq<string>)
    ensures var built, kept := Built(refs, ids, ""), KeptIds(ids);
            |built| == |kept| && forall i :: 0 <= i < |kept| ==> built[i] == Model(kept[i], RefOf(refs, "", kept[i]))
  {
    hide Trim, RefOf;
    if ids != [] {
      BuiltInOrder(refs, ids[..|ids| - 1]);
    }
  }

  /** With a vendor, an id that is new to the catalog refers to its canonical identity. */
  lemma VendorGuesses(refs: map<string, ModelRef>, vendorId: string, id: string)
    requires !Blank(vendorId) && id !in refs && !Blank(ModelIdentity.Slugs.ModelSlug(id))
    ensures RefOf(refs, vendorId, id)
            == match ModelIdentity.IdentityOf(id) case Some(identity) => Some(ModelRef(vendorId, identity.modelId)) case None => None
  {
    hide Trim, ModelIdentity.IdentityOf, ModelIdentity.ResolveModelRef;
    ModelIdentity.SameCanonicalIdExactly(vendorId, id);
  }

  /** Every rebuilt model has a trimmed id of its own and that id's known reference. */
  lemma {:induction false} BuiltModels(refs: map<string, ModelRef>, ids: seq<string>)
    ensures forall m :: m in Built(refs, ids, "") ==>
              m.providerModelId != "" && Trim(m.providerModelId) == m.providerModelId && m.modelRef == RefOf(refs, "", m.providerModelId)
    ensures forall i :: 0 <= i < |ids| && !Blank(ids[i]) ==> Model(Trim(ids[i]), RefOf(refs, "", Trim(ids[i]))) in Built(refs, ids, "")
  {
    hide Trim, RefOf;
    if ids != [] {
      var n := |ids| - 1;
      BuiltModels(refs, ids[..n]);
      TrimTwice(ids[n]);
      assert forall i :: 0 <= i < n ==> ids[..n][i] == ids[i];
    }
  }

  /** The references of a rebuilt catalog are the old ones of the ids that survive. */
  lemma {:induction false} RefsOfBuilt(refs: map<string, ModelRef>, ids: seq<string>, id: string)
    ensures id in Refs(Built(refs, ids, "")) ==> id in refs && Refs(Built(refs, ids, ""))[id] == refs[id]
    ensures (exists i :: 0 <= i < |ids| && Trim(ids[i]) == id) && id != "" && id in refs ==> id in Refs(Built(refs, ids, ""))
  {
    hide Trim, RefOf, Refs;
    if ids == [] {
      NoRefs();
    } else {
      var n := |ids| - 1;
      RefsOfBuilt(refs, ids[..n], id);
      var prior, next := Built(refs, ids[..n], ""), Trim(ids[n]);
      TrimTwice(ids[n]);
      if next != "" {
        NoVendorNoGuess(refs, next);
        RefsAppend(prior, Model(next, RefOf(refs, "", next)));
      } else {
        assert prior + [] == prior;
      }
      assert forall i :: 0 <= i < n ==> ids[..n][i] == ids[i];
    }
  }

  lemma NoRefs()
    ensures Refs([]) == map[]
  {
  }

  lemma RefsAppend(models: seq<Model>, m: Model)
    requires Trim(m.providerModelId) == m.providerModelId != ""
    ensures Refs(models + [m]) == if m.modelRef.None? then Refs(models) else Refs(models)[m.providerModelId := m.modelRef.value]
  {
    hide Trim;
    assert (models + [m])[..|models|] == models;
  }

  /** Rebuilding from a rebuilt catalog builds the same catalog. */
  lemma {:induction false} BuildTwice(refs: map<string, ModelRef>, all: seq<string>, ids: seq<string>)
    requires forall i :: 0 <= i < |ids| ==> ids[i] in all
    ensures Built(Refs(Built(refs, all, "")), ids, "") == Built(refs, ids, "")
  {
    hide Trim, ModelIdentity.ResolveModelRef;
    if ids != [] {
      var n := |ids| - 1;
      BuildTwice(refs, all, ids[..n]);
      var id := Trim(ids[n]);
      assert ids[n] in all;
      RefsOfBuilt(refs, all, id);
      NoVendorNoGuess(refs, id);
      NoVendorNoGuess(Refs(Built(refs, all, "")), id);
    }
  }

  /** Materialising again with the same answer changes nothing. */
  lemma MaterializeIdempotent(filter: Option<Filter>, p: Provider, answer: Answer)
    requires Materialized(filter, p, answer).Some?
    ensures var q := Materialized(filter, p, answer).value;
            Materialized(filter, q, answer) == Some(q)
  {
    hide Trim, Filtered, Built, AlreadyCurrent;
    if answer.Ids? {
      var kept := Filtered(filter, answer.ids, Trim(p.surfaceId));
      BuildTwice(Refs(p.models), kept, kept);
    }
  }

  /** A model that survives keeps its reference, if no later entry gives its id another. */
  lemma SurvivorKeepsRef(p: Provider, kept: seq<string>, i: nat, j: nat)
    requires i < |p.models| && j < |kept| && p.models[i].modelRef.Some?
    requires Trim(p.models[i].providerModelId) == Trim(kept[j]) != ""
    requires forall k :: i < k < |p.models| && Trim(p.models[k].providerModelId) == Trim(kept[j]) ==> p.models[k].modelRef.None?
    ensures Model(Trim(kept[j]), p.models[i].modelRef) in Built(Refs(p.models), kept, "")
  {
    hide Trim, Built, RefOf;
    LastRef(p.models, i);
    NoVendorNoGuess(Refs(p.models), Trim(kept[j]));
    BuiltModels(Refs(p.models), kept);
  }

  lemma {:induction false} LastRef(models: seq<Model>, i: nat)
    requires i < |models| && models[i].modelRef.Some? && !Blank(models[i].providerModelId)
    requires forall k :: i < k < |models| && Trim(models[k].providerModelId) == Trim(models[i].providerModelId) ==> models[k].modelRef.None?
    ensures var id := Trim(models[i].providerModelId); id in Refs(models) && Refs(models)[id] == models[i].modelRef.value
  {
    hide Trim;
    var n := |models| - 1;
    if i < n {
      assert models[..n][i] == models[i];
      LastRef(models[..n], i);
    }
  }

  /** The id is trimmed and not empty. */
  predicate Normal(m: Model) {
    m.providerModelId != "" && Trim(m.providerModelId) == m.providerModelId
  }

  /** When the fast path is taken it agrees with a full rebuild exactly if every stored id
      is trimmed, not empty, and every entry carries its id's reference. */
  lemma FastPathAgreesExactly(current: seq<Model>, ids: seq<string>)
    requires AlreadyCurrent(current, ids)
    ensures Built(Refs(current), ids, "") == current
            <==> forall i :: 0 <= i < |current| ==> Normal(current[i]) && current[i].modelRef == RefOf(Refs(current), "", current[i].providerModelId)
  {
    hide Trim, RefOf, Refs;
    var built := Built(Refs(current), ids, "");
    BuiltModels(Refs(current), ids);
    if built == current {
      assert forall i :: 0 <= i < |current| ==> current[i] in built;
    }
    if forall i :: 0 <= i < |current| ==> Normal(current[i]) && current[i].modelRef == RefOf(Refs(current), "", current[i].providerModelId) {
      BuiltInPlace(Refs(current), current, ids);
    }
  }

  lemma {:induction false} BuiltInPlace(refs: map<string, ModelRef>, models: seq<Model>, ids: seq<string>)
    requires |models| == |ids|
    requires forall i :: 0 <= i < |ids| ==> Trim(ids[i]) == models[i].providerModelId != ""
    requires forall i :: 0 <= i < |ids| ==> models[i].modelRef == RefOf(refs, "", models[i].providerModelId)
    ensures Built(refs, ids, "") == models
  {
    hide Trim, RefOf;
    if ids != [] {
      var n := |ids| - 1;
      BuiltInPlace(refs, models[..n], ids[..n]);
      assert models == models[..n] + [models[n]];
    }
  }

  /** In particular it agrees whenever the stored ids are trimmed, not empty and distinct. */
  lemma FastPathAgreesOnDistinct(current: seq<Model>, ids: seq<string>)
    requires AlreadyCurrent(current, ids)
    requires forall i :: 0 <= i < |current| ==> Normal(current[i])
    requires forall i, j :: 0 <= i < j < |current| ==> current[i].providerModelId != current[j].providerModelId
    ensures Built(Refs(current), ids, "") == current
  {
    hide Trim, Built, ModelIdentity.ResolveModelRef;
    forall i | 0 <= i < |current| ensures current[i].modelRef == RefOf(Refs(current), "", current[i].providerModelId) {
      NoVendorNoGuess(Refs(current), current[i].providerModelId);
      if current[i].modelRef.Some? {
        LastRef(current, i);
      } else {
        NoRef(current, i);
      }
    }
    FastPathAgreesExactly(current, ids);
  }

  lemma {:induction false} NoRef(models: seq<Model>, i: nat)
    requires i < |models| && models[i].modelRef.None?
    requires forall k :: 0 <= k < |models| && k != i ==> Trim(models[k].providerModelId) != models[i].providerModelId
    ensures models[i].providerModelId !in Refs(models)
  {
    hide Trim;
    var n := |models| - 1;
    if i < n {
      assert models[..n][i] == models[i];
      NoRef(models[..n], i);
    } else {
      NotInRefs(models[..n], models[i].providerModelId);
    }
  }

  lemma {:induction false} NotInRefs(models: seq<Model>, id: string)
    requires forall k :: 0 <= k < |models| ==> Trim(models[k].providerModelId) != id
    ensures id !in Refs(models)
  {
    hide Trim;
    if models != [] {
      NotInRefs(models[..|models| - 1], id);
    }
  }
}

/** Materialising stored providers (materialization_syncer.go). */
module MaterializationSyncer {
  import opened Text
  import opened ProviderModel
  import opened ProviderStore
  import opened CatalogMaterializer

  /** What discovery answers for each provider, fixed for the run. */
  type Discovery = Provider -> Answer

  function Materialize(filter: Option<Filter>, discovery: Discovery): Mutation {
    (p: Provider) => Materialized(filter, p, discovery(p))
  }

  /** normalizeProviderIDs: trimmed, not blank, each once, in order of first appearance. */
  method NormalizeProviderIds(values: seq<string>) returns (out: seq<string>)
    ensures forall id :: id in out <==> id != "" && exists i :: 0 <= i < |values| && Trim(values[i]) == id
    ensures forall i, j :: 0 <= i < j < |out| ==> out[i] != out[j]
    ensures forall id :: id in out ==> Trim(id) == id
    ensures forall i, j :: 0 <= i < j < |out| ==> FirstAt(values, out[i]) < FirstAt(values, out[j])
  {
    var seen: set<string> := {};
    out := [];
    hide Trim, FirstAt;
    for k := 0 to |values|
      invariant out == Deduped(values[..k])
      invariant forall x :: x in seen <==> x in out
      invariant forall id :: id in out <==> id != "" && exists i :: 0 <= i < k && Trim(values[i]) == id
      invariant forall i, j :: 0 <= i < j < |out| ==> out[i] != out[j]
      invariant forall id :: id in out ==> Trim(id) == id
    {
      assert values[..k + 1][..k] == values[..k];
      var id := Trim(values[k]);
      TrimTwice(values[k]);
      if id != "" && id !in seen {
        seen := seen + {id};
        out := out + [id];
      }
    }
    assert values[..|values|] == values;
    DedupedInOrder(values);
  }

  /** Row k after a sync of its provider. */
  predicate Synced(filter: Option<Filter>, discovery: Discovery, before: Rows, after: Rows, k: string) {
    && k in before && k in after
    && Materialized(filter, before[k], discovery(before[k])) == Some(after[k])
  }

  predicate OnlyModels(before: Provider, after: Provider) {
    after.(models := before.models) == before
  }

  lemma Unchanged(p: Provider)
    ensures OnlyModels(p, p)
  {
  }

  predicate Refuses(filter: Option<Filter>, discovery: Discovery, p: Provider) {
    Materialized(filter, p, discovery(p)).None?
  }

  lemma MaterializedKeepsId(filter: Option<Filter>, p: Provider, answer: Answer)
    ensures Materialized(filter, p, answer).Some? ==>
              OnlyModels(p, Materialized(filter, p, answer).value) && Materialized(filter, p, answer).value.providerId == p.providerId
  {
    if Materialized(filter, p, answer).Some? {
      ChangesOnlyModels(filter, p, answer);
    }
  }

  /** syncProvider: one row materialised and written back. */
  method SyncProvider(repository: Repository, id: string, filter: Option<Filter>, discovery: Discovery) returns (ok: bool)
    requires repository.Valid() && Trim(id) == id
    modifies repository
    ensures repository.Valid()
    ensures ok <==> id in old(repository.rows) && !Refuses(filter, discovery, old(repository.rows)[id])
    ensures ok ==> id in repository.rows && repository.rows == old(repository.rows)[id := repository.rows[id]]
                   && Synced(filter, discovery, old(repository.rows), repository.rows, id)
    ensures !ok ==> repository.rows == old(repository.rows)
  {
    hide Trim, Materialized, OnlyModels;
    ghost var before := repository.rows;
    if id in before {
      assert Materialize(filter, discovery)(before[id]) == Materialized(filter, before[id], discovery(before[id]));
      MaterializedKeepsId(filter, before[id], discovery(before[id]));
    }
    var r := repository.Update(id, Materialize(filter, discovery));
    ok := r.Ok?;
  }

  /** Sync: on success every listed row is materialised and every other row is as it was;
      at the first failure it stops. Only models ever change. */
  method Sync(repository: Repository, ids: seq<string>, filter: Option<Filter>, discovery: Discovery) returns (ok: bool)
    requires repository.Valid()
    requires forall i :: 0 <= i < |ids| ==> Trim(ids[i]) == ids[i]
    requires forall i, j :: 0 <= i < j < |ids| ==> ids[i] != ids[j]
    modifies repository
    ensures repository.Valid()
    ensures repository.rows.Keys == old(repository.rows.Keys)
    ensures forall k :: k in repository.rows && k !in ids ==> repository.rows[k] == old(repository.rows)[k]
    ensures forall k :: k in repository.rows ==> OnlyModels(old(repository.rows)[k], repository.rows[k])
    ensures ok ==> forall k :: k in ids ==> Synced(filter, discovery, old(repository.rows), repository.rows, k)
    ensures !ok ==> exists k :: k in ids && (k !in old(repository.rows) || Refuses(filter, discovery, old(repository.rows)[k]))
  {
    hide Trim, Materialized, OnlyModels, Refuses;
    forall k | k in repository.rows ensures OnlyModels(repository.rows[k], repository.rows[k]) {
      Unchanged(repository.rows[k]);
    }
    for i := 0 to |ids|
      invariant repository.Valid() && repository.rows.Keys == old(repository.rows.Keys)
      invariant forall k :: k in repository.rows && k !in ids[..i] ==> repository.rows[k] == old(repository.rows)[k]
      invariant forall k :: k in repository.rows ==> OnlyModels(old(repository.rows)[k], repository.rows[k])
      invariant forall k :: k in ids[..i] ==> Synced(filter, discovery, old(repository.rows), repository.rows, k)
    {
      var id := ids[i];
      assert id !in ids[..i] && ids[..i + 1] == ids[..i] + [id];
      ghost var before := repository.rows;
      if id in before {
        MaterializedKeepsId(filter, before[id], discovery(before[id]));
      }
      var synced := SyncProvider(repository, id, filter, discovery);
      if !synced {
        assert id in ids;
        return false;
      }
    }
    assert ids[..|ids|] == ids;
    ok := true;
  }

  /** Materialising leaves both kinds' throttle state alone, and a second sync with the same
      answer finds nothing to change. */
  lemma SyncedRow(filter: Option<Filter>, discovery: Discovery, before: Rows, after: Rows, k: string)
    requires Synced(filter, discovery, before, after, k)
    requires discovery(after[k]) == discovery(before[k])
    ensures forall kind: Kind :: after[k].Probe(kind) == before[k].Probe(kind)
    ensures Synced(filter, discovery, after, after, k)
  {
    hide Materialized;
    MaterializeIdempotent(filter, before[k], discovery(before[k]));
    MaterializedKeepsId(filter, before[k], discovery(before[k]));
  }
}
