/** The modality bookkeeping of multimodal/dataset/multimodal.py. An open
    HDF5 file is a dict of top-level groups, the modalities; each modality
    group holds named child groups, some of which are facets. */
module MultiModal {

  import opened Wrappers
  import opened Dicts
  import opened Facets

  /** A top-level group: its attributes and its child groups in iteration order. */
  datatype ModalityGroup = ModalityGroup(attrs: Dict<string, Value>, children: Dict<string, Group>)

  /** The open file: its top-level groups. */
  type Store = Dict<string, ModalityGroup>

  /** A `Modality`: its facets by name and its default facet. */
  datatype Modality = Modality(name: string, facets: Dict<string, Facet>, default: Option<Facet>)

  /** A `MultiModalDataset`: the file and the modalities read from it. */
  datatype Dataset = Dataset(store: Store, modalities: Dict<string, Modality>)

  const DefaultAttr := "DefaultFacet"

  /** The facets and the default facet `setup_facets` has after visiting the
      children: a child is a facet when it carries the handler tag; it
      becomes the default when it is the one the `DefaultFacet` attribute
      names, or when there is no default yet. A facet that cannot be made
      aborts the set-up with its error. */
  function SetupFrom(key: Option<Value>, children: Dict<string, Group>): (r: Result<(Dict<string, Facet>, Option<Facet>)>)
    ensures r.Err? <==> exists i :: 0 <= i < |children| && IsFacet(children[i].1) && MakeFacet(children[i].1).Err?
    decreases |children|
  {
    if |children| == 0 then Ok(([], None))
    else
      var init := children[..|children| - 1];
      var last := children[|children| - 1];
      assert forall i :: 0 <= i < |init| ==> init[i] == children[i];
      var st :- SetupFrom(key, init);
      if !IsFacet(last.1) then Ok(st)
      else
        var facet :- MakeFacet(last.1);
        var default := if key == Some(Str(last.0)) || st.1.None? then Some(facet) else st.1;
        Ok((Set(st.0, last.0, facet), default))
  }

  /** `Modality(name, group)`. */
  function NewModality(name: string, g: ModalityGroup): (r: Result<Modality>)
    ensures r.Err? <==> SetupFrom(Get(g.attrs, DefaultAttr), g.children).Err?
    ensures r.Ok? ==> r.value.name == name
  {
    var st :- SetupFrom(Get(g.attrs, DefaultAttr), g.children);
    Ok(Modality(name, st.0, st.1))
  }

  /** The facet of the child named `n`, when that child is a facet. */
  function ChildFacet(children: Dict<string, Group>, n: string): Option<Facet> {
    match Get(children, n)
    case None => None
    case Some(g) => if IsFacet(g) && MakeFacet(g).Ok? then Some(MakeFacet(g).value) else None
  }

  /** The default the attribute names, else the first facet, else none. */
  function ChosenDefault(key: Option<Value>, facets: Dict<string, Facet>): Option<Facet> {
    if key.Some? && key.value.Str? && Get(facets, key.value.s).Some? then Get(facets, key.value.s)
    else if |facets| > 0 then Some(facets[0].1)
    else None
  }

  /** With distinct child names, the facets are exactly the children that
      carry the handler tag, each read by `make_facet`. */
  lemma {:induction false} SetupFacetsMembers(key: Option<Value>, children: Dict<string, Group>, n: string)
    requires Distinct(children) && SetupFrom(key, children).Ok?
    ensures Get(SetupFrom(key, children).value.0, n) == ChildFacet(children, n)
    ensures Get(SetupFrom(key, children).value.0, n).Some? <==>
              Get(children, n).Some? && IsFacet(Get(children, n).value)
    decreases |children|
  {
    if |children| > 0 {
      var init := children[..|children| - 1];
      var (name, group) := children[|children| - 1];
      assert Distinct(init);
      assert forall i :: 0 <= i < |init| ==> init[i] == children[i];
      SetupFacetsMembers(key, init, n);
      var st := SetupFrom(key, init).value;
      if IsFacet(group) {
        SetGet(st.0, name, MakeFacet(group).value, n);
      }
      if n == name {
        LastKeyFresh(children);
      }
    }
  }

  /** In a dict, the last key does not occur before it. */
  lemma LastKeyFresh<V>(d: Dict<string, V>)
    requires Distinct(d) && |d| > 0
    ensures Get(d[..|d| - 1], d[|d| - 1].0).None?
  {
  }

  /** The default facet is the facet the `DefaultFacet` attribute names, if
      there is one, otherwise the first facet in iteration order, and none
      without facets. */
  lemma {:induction false} SetupFacetsDefault(key: Option<Value>, children: Dict<string, Group>)
    requires Distinct(children) && SetupFrom(key, children).Ok?
    ensures SetupFrom(key, children).value.1 == ChosenDefault(key, SetupFrom(key, children).value.0)
    decreases |children|
  {
    if |children| > 0 {
      var init := children[..|children| - 1];
      var (name, group) := children[|children| - 1];
      assert Distinct(init);
      assert forall i :: 0 <= i < |init| ==> init[i] == children[i];
      SetupFacetsDefault(key, init);
      var st := SetupFrom(key, init).value;
      if IsFacet(group) {
        var f := MakeFacet(group).value;
        LastKeyFresh(children);
        SetupFacetsMembers(key, init, name);
        assert name !in Keys(st.0);
        DefaultStep(key, st.0, st.1, name, f);
      }
    }
  }

  /** One facet appended under a new name keeps the default rule. */
  lemma DefaultStep(key: Option<Value>, facets: Dict<string, Facet>, default: Option<Facet>, name: string, f: Facet)
    requires name !in Keys(facets) && default == ChosenDefault(key, facets)
    ensures (if key == Some(Str(name)) || default.None? then Some(f) else default)
         == ChosenDefault(key, facets + [(name, f)])
  {
    var facets' := facets + [(name, f)];
    assert Set(facets, name, f) == facets';
    if key.Some? && key.value.Str? {
      SetGet(facets, name, f, key.value.s);
    }
    assert |facets| > 0 ==> facets'[0] == facets[0];
  }

  /** `Modality.get_facet(id)`: the facet with that id, otherwise the
      default; `None` stands for the omitted argument, which no facet has. */
  function GetFacet(m: Modality, id: Option<string>): (r: Option<Facet>)
    ensures id.None? ==> r == m.default
    ensures id.Some? && id.value in Keys(m.facets) ==> r == Get(m.facets, id.value)
    ensures id.Some? && id.value !in Keys(m.facets) ==> r == m.default
  {
    if id.Some? then
      match Get(m.facets, id.value)
      case Some(f) => Some(f)
      case None => m.default
    else m.default
  }

  /** Looking up a facet of a modality read from a group never fails: the
      child's facet when that child is a facet, otherwise the default. */
  lemma GetFacetFallback(name: string, g: ModalityGroup, n: string)
    requires Distinct(g.children) && NewModality(name, g).Ok?
    ensures GetFacet(NewModality(name, g).value, Some(n))
         == if ChildFacet(g.children, n).Some? then ChildFacet(g.children, n)
            else NewModality(name, g).value.default
  {
    SetupFacetsMembers(Get(g.attrs, DefaultAttr), g.children, n);
  }

  /** `setup_modalities`: one modality per top-level group, under its name. */
  function SetupModalities(store: Store): (r: Result<Dict<string, Modality>>)
    ensures r.Err? <==> exists i :: 0 <= i < |store| && NewModality(store[i].0, store[i].1).Err?
    decreases |store|
  {
    if |store| == 0 then Ok([])
    else
      var init := store[..|store| - 1];
      var last := store[|store| - 1];
      assert forall i :: 0 <= i < |init| ==> init[i] == store[i];
      var prev :- SetupModalities(init);
      var modality :- NewModality(last.0, last.1);
      Ok(Set(prev, last.0, modality))
  }

  /** Every top-level group becomes a modality, and nothing else does. */
  lemma {:induction false} SetupModalitiesKeys(store: Store, n: string)
    requires SetupModalities(store).Ok?
    ensures n in Keys(SetupModalities(store).value) <==> n in Keys(store)
    decreases |store|
  {
    if |store| > 0 {
      var init := store[..|store| - 1];
      var (name, group) := store[|store| - 1];
      assert forall i :: 0 <= i < |init| ==> init[i] == store[i];
      SetupModalitiesKeys(init, n);
      SetKeys(SetupModalities(init).value, name, NewModality(name, group).value);
      KeysSnoc(init, (name, group));
      assert store == init + [(name, group)];
    }
  }

  /** Every modality is the one read from the group of the same name. */
  lemma {:induction false} ModalityOfGroup(store: Store, n: string)
    requires SetupModalities(store).Ok?
    ensures Get(SetupModalities(store).value, n).Some? ==>
              Get(store, n).Some? && NewModality(n, Get(store, n).value) == Ok(Get(SetupModalities(store).value, n).value)
    decreases |store|
  {
    if |store| > 0 {
      var init := store[..|store| - 1];
      var (name, group) := store[|store| - 1];
      assert forall i :: 0 <= i < |init| ==> init[i] == store[i];
      ModalityOfGroup(init, n);
      SetGet(SetupModalities(init).value, name, NewModality(name, group).value, n);
    }
  }

  /** `MultiModalDataset(path)` on an opened file. */
  function Open(store: Store): (r: Result<Dataset>)
    ensures r.Ok? ==> r.value.store == store
    ensures r.Err? <==> SetupModalities(store).Err?
  {
    var modalities :- SetupModalities(store);
    Ok(Dataset(store, modalities))
  }

  /** `MultiModalDataset.remove_modality(modality)`: deleted from the file,
      then from the modality map; `KeyError` when either lacks it. */
  function RemoveModality(ds: Dataset, modality: string): (r: Result<Dataset>)
    ensures r.Err? <==> modality !in Keys(ds.store) || modality !in Keys(ds.modalities)
    ensures r.Err? ==> r.error == KeyError(modality)
    ensures r.Ok? ==> forall n :: n != modality ==>
                        Get(r.value.store, n) == Get(ds.store, n) && Get(r.value.modalities, n) == Get(ds.modalities, n)
    ensures r.Ok? && Distinct(ds.store) && Distinct(ds.modalities) ==>
              Get(r.value.store, modality).None? && Get(r.value.modalities, modality).None?
  {
    var store :- Remove(ds.store, modality, modality);
    var modalities :- Remove(ds.modalities, modality, modality);
    Ok(Dataset(store, modalities))
  }

  /** `MultiModalDataset.get_facet(modality, facet_id)`. */
  function DatasetGetFacet(ds: Dataset, modality: string, id: Option<string>): (r: Result<Option<Facet>>)
    ensures r.Err? <==> modality !in Keys(ds.modalities)
    ensures r.Err? ==> r.error == KeyError(modality)
    ensures r.Ok? ==> r.value == GetFacet(Get(ds.modalities, modality).value, id)
  {
    match Get(ds.modalities, modality)
    case None => Err(KeyError(modality))
    case Some(m) => Ok(GetFacet(m, id))
  }

  /** `get_all_facets(modalities)`: the facets of each requested modality,
      in request order; the first absent one raises `KeyError`. */
  function GetAllFacets(ds: Dataset, modalities: seq<string>): (r: Result<seq<seq<Facet>>>)
    ensures r.Ok? <==> forall k :: 0 <= k < |modalities| ==> modalities[k] in Keys(ds.modalities)
    ensures r.Err? ==> r.error.KeyError? && r.error.key in modalities && r.error.key !in Keys(ds.modalities)
    ensures r.Ok? ==> |r.value| == |modalities|
    ensures r.Ok? ==> forall k :: 0 <= k < |modalities| ==>
              r.value[k] == Values(Get(ds.modalities, modalities[k]).value.facets)
    decreases |modalities|
  {
    if |modalities| == 0 then Ok([])
    else
      var init := modalities[..|modalities| - 1];
      var last := modalities[|modalities| - 1];
      assert forall k :: 0 <= k < |init| ==> init[k] == modalities[k];
      var prev :- GetAllFacets(ds, init);
      match Get(ds.modalities, last)
      case None => Err(KeyError(last))
      case Some(m) => Ok(prev + [Values(m.facets)])
  }

  /** A modality read from a dataset is a modality of the file: removing it
      fails exactly when the file lacks it. */
  lemma RemoveOpened(store: Store, modality: string)
    requires Open(store).Ok?
    ensures RemoveModality(Open(store).value, modality).Err? <==> modality !in Keys(store)
  {
    SetupModalitiesKeys(store, modality);
  }

  /** After a removal the modality is gone, and every other modality still
      answers facet requests as before. */
  lemma RemovedModalityGone(ds: Dataset, modality: string, other: string, id: Option<string>)
    requires Distinct(ds.store) && Distinct(ds.modalities) && RemoveModality(ds, modality).Ok?
    ensures DatasetGetFacet(RemoveModality(ds, modality).value, modality, id) == Err(KeyError(modality))
    ensures other != modality ==>
              DatasetGetFacet(RemoveModality(ds, modality).value, other, id) == DatasetGetFacet(ds, other, id)
  {
  }

  /** The module-level `remove_modality(dataset_path, modality)` on the file:
      the group is deleted when present and nothing happens otherwise. */
  function RemoveFromFile(store: Store, modality: string): (r: Store)
    ensures modality !in Keys(store) ==> r == store
    ensures Distinct(store) ==> Distinct(r) && Get(r, modality).None?
    ensures forall n :: n != modality ==> Get(r, n) == Get(store, n)
  {
    if modality in Keys(store) then Without(store, modality) else store
  }
}
