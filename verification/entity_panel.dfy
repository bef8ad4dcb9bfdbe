/** The entity administration component (`EntityManagement`): two lists
    fetched from the back end, two forms, and the label shown for each entity,
    which is the name of its type looked up by numeric id. */
module EntityPanel {
  import opened Js

  /** A row of `/tipos_entidades`. Ids are kept as JSON values because the
      lookup converts them with `Number(...)`. */
  datatype EntityType = EntityType(id: JsonValue, nombre: string)

  /** A row of `/entidades`. */
  datatype Entity = Entity(id: JsonValue, nombre: string, tipoId: JsonValue)

  datatype TypeForm = TypeForm(nombre: string)
  datatype EntityForm = EntityForm(nombre: string, tipoId: string)

  datatype Panel = Panel(
    types: seq<EntityType>,
    entities: seq<Entity>,
    newType: TypeForm,
    newEntity: EntityForm)

  const EmptyTypeForm := TypeForm("")
  const EmptyEntityForm := EntityForm("", "")
  const InitialPanel := Panel([], [], EmptyTypeForm, EmptyEntityForm)

  /** The label shown for an entity whose type is not found. */
  const SinTipo := "Sin Tipo"

  /** The GET requests a handler starts: `fetchTypes` and `fetchEntities`. */
  datatype Fetch = FetchTypes | FetchEntities

  // ---------------------------------------------------------------------------
  // Type label

  /** `types.find(tipo => Number(tipo.id) === Number(tipoId))`, as the index
      of the first match. */
  function FindType(types: seq<EntityType>, tipoId: JsonValue): (r: Option<nat>)
    ensures r.Some? ==> r.value < |types| && NumericallyEqual(types[r.value].id, tipoId)
    ensures r.Some? ==> forall j | 0 <= j < r.value :: !NumericallyEqual(types[j].id, tipoId)
    ensures r.None? <==> forall j | 0 <= j < |types| :: !NumericallyEqual(types[j].id, tipoId)
  {
    if |types| == 0 then None
    else if NumericallyEqual(types[0].id, tipoId) then Some(0)
    else
      var rest := FindType(types[1..], tipoId);
      if rest.Some? then Some(rest.value + 1) else None
  }

  /** The label an entity is listed with: the name of its type when the type
      list is non-empty and holds a match, `'Sin Tipo'` otherwise. */
  function TypeLabel(types: seq<EntityType>, e: Entity): string
  {
    var found := if |types| > 0 then FindType(types, e.tipoId) else None;
    if found.Some? then types[found.value].nombre else SinTipo
  }

  /** The label is the name of the first type whose id is numerically equal
      to the entity's type id. */
  lemma LabelIsFirstMatch(types: seq<EntityType>, e: Entity, i: nat)
    requires i < |types| && NumericallyEqual(types[i].id, e.tipoId)
    requires forall j | 0 <= j < i :: !NumericallyEqual(types[j].id, e.tipoId)
    ensures TypeLabel(types, e) == types[i].nombre
  {
    var found := FindType(types, e.tipoId);
    assert found.Some?;
    assert !(found.value < i);
    assert !(found.value > i);
  }

  /** With no numerically equal type id, in particular with no types, the
      label is `'Sin Tipo'`. */
  lemma LabelDefaultsToSinTipo(types: seq<EntityType>, e: Entity)
    requires forall t | t in types :: !NumericallyEqual(t.id, e.tipoId)
    ensures TypeLabel(types, e) == SinTipo
  {
  }

  /** Types after the first match never change the label. */
  lemma {:induction false} LabelIgnoresLaterTypes(xs: seq<EntityType>, ys: seq<EntityType>, e: Entity)
    requires exists t :: t in xs && NumericallyEqual(t.id, e.tipoId)
    ensures TypeLabel(xs + ys, e) == TypeLabel(xs, e)
  {
    var t :| t in xs && NumericallyEqual(t.id, e.tipoId);
    var i :| 0 <= i < |xs| && xs[i] == t;
    var found := FindType(xs, e.tipoId);
    assert found.Some?;
    var k := found.value;
    assert (xs + ys)[k] == xs[k];
    forall j | 0 <= j < k ensures !NumericallyEqual((xs + ys)[j].id, e.tipoId) {
      assert (xs + ys)[j] == xs[j];
    }
    LabelIsFirstMatch(xs + ys, e, k);
    LabelIsFirstMatch(xs, e, k);
  }

  /** An id that `Number` cannot read (NaN) matches no type, not even a type
      whose id is the same text. */
  lemma UnreadableIdNeverMatches(types: seq<EntityType>, e: Entity)
    requires ToNumber(e.tipoId).None?
    ensures TypeLabel(types, e) == SinTipo
  {
    LabelDefaultsToSinTipo(types, e);
  }

  /** A type id held as the string "3", as a form field sends it, matches a
      type whose id is the number 3. */
  lemma StringIdMatchesNumber(nombre: string, e: Entity)
    requires e.tipoId == JString("3")
    ensures TypeLabel([EntityType(JNumber(3), nombre)], e) == nombre
  {
    NumberOfNumberString(3);
    assert NumberToString(3) == "3";
    LabelIsFirstMatch([EntityType(JNumber(3), nombre)], e, 0);
  }

  // ---------------------------------------------------------------------------
  // Loading and the add/delete handlers

  /** `config ? config.REACT_APP_BACKEND_URL : ""`: `config` is `None` while
      no configuration is loaded; otherwise it holds the property's value,
      `JUndefined` when the property is missing. */
  function BackendUrl(config: Option<JsonValue>): (url: JsonValue)
    ensures config.None? ==> !Truthy(url)
    ensures config.Some? ==> url == config.value
  {
    if config.Some? then config.value else JString("")
  }

  /** The effect run when the back-end URL changes: both lists are fetched,
      and only when the URL is truthy. */
  function OnMount(config: Option<JsonValue>): (fetches: seq<Fetch>)
    ensures |fetches| > 0 <==> config.Some? && Truthy(config.value)
    ensures |fetches| > 0 ==> fetches == [FetchTypes, FetchEntities]
  {
    if Truthy(BackendUrl(config)) then [FetchTypes, FetchEntities] else []
  }

  /** A panel together with the requests a handler starts. */
  datatype Step = Step(panel: Panel, fetches: seq<Fetch>)

  /** `handleAddType` once its POST has settled: on success the form is
      cleared and the types are fetched again; a failure is only logged. */
  function AfterAddType(p: Panel, resolved: bool): (r: Step)
    ensures r.panel.types == p.types && r.panel.entities == p.entities
    ensures r.panel.newEntity == p.newEntity
    ensures resolved ==> r.panel.newType == EmptyTypeForm && r.fetches == [FetchTypes]
    ensures !resolved ==> r == Step(p, [])
  {
    if resolved then Step(p.(newType := EmptyTypeForm), [FetchTypes]) else Step(p, [])
  }

  /** `handleDeleteType` once its DELETE has settled. */
  function AfterDeleteType(p: Panel, resolved: bool): (r: Step)
    ensures r.panel == p
    ensures r.fetches == (if resolved then [FetchTypes] else [])
  {
    Step(p, if resolved then [FetchTypes] else [])
  }

  /** `handleAddEntity` once its POST has settled. */
  function AfterAddEntity(p: Panel, resolved: bool): (r: Step)
    ensures r.panel.types == p.types && r.panel.entities == p.entities
    ensures r.panel.newType == p.newType
    ensures resolved ==> r.panel.newEntity == EmptyEntityForm && r.fetches == [FetchEntities]
    ensures !resolved ==> r == Step(p, [])
  {
    if resolved then Step(p.(newEntity := EmptyEntityForm), [FetchEntities]) else Step(p, [])
  }

  /** `handleDeleteEntity` once its DELETE has settled. */
  function AfterDeleteEntity(p: Panel, resolved: bool): (r: Step)
    ensures r.panel == p
    ensures r.fetches == (if resolved then [FetchEntities] else [])
  {
    Step(p, if resolved then [FetchEntities] else [])
  }

  /** `fetchTypes` and `fetchEntities` once their GET has settled. */
  function OnTypesFetched(p: Panel, fetched: Option<seq<EntityType>>): (r: Panel)
    ensures r.entities == p.entities && r.newType == p.newType && r.newEntity == p.newEntity
    ensures r.types == (if fetched.Some? then fetched.value else p.types)
  {
    if fetched.Some? then p.(types := fetched.value) else p
  }

  function OnEntitiesFetched(p: Panel, fetched: Option<seq<Entity>>): (r: Panel)
    ensures r.types == p.types && r.newType == p.newType && r.newEntity == p.newEntity
    ensures r.entities == (if fetched.Some? then fetched.value else p.entities)
  {
    if fetched.Some? then p.(entities := fetched.value) else p
  }

  /** Without a configured back end nothing is fetched and every entity is
      labelled `'Sin Tipo'`. */
  lemma UnconfiguredPanelShowsSinTipo(e: Entity)
    ensures OnMount(None) == []
    ensures OnMount(Some(JUndefined)) == []
    ensures TypeLabel(InitialPanel.types, e) == SinTipo
  {
  }
}
