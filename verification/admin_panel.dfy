/** The administration component (`AdministracionNovedades`, in both
    front-end copies): a local announcement list kept in step by the fetch and
    the broadcasts, and a four-field form whose submit posts a new announcement
    and whose delete buttons remove one. Neither handler touches the list: the
    broadcast the server emits does. */
module AdminPanel {
  import opened Js
  import opened Table
  import opened Listing
  import opened Server
  import opened Sync

  /** The controlled form. Every field holds the text of its input element;
      the priority input is `type="number"`, whose value is still a string. */
  datatype Form = Form(titulo: string, descripcion: string, prioridad: string, fechaCaducidad: string)

  datatype Field = Titulo | Descripcion | Prioridad | FechaCaducidad

  const EmptyForm := Form("", "", "", "")

  datatype Panel = Panel(novedades: seq<Row>, form: Form)

  /** The text of one field. */
  function FieldText(f: Form, field: Field): string {
    match field
    case Titulo => f.titulo
    case Descripcion => f.descripcion
    case Prioridad => f.prioridad
    case FechaCaducidad => f.fechaCaducidad
  }

  /** `handleInputChange`: the named field takes the input's value. */
  function SetField(f: Form, field: Field, value: string): (r: Form)
    ensures FieldText(r, field) == value
    ensures forall other | other != field :: FieldText(r, other) == FieldText(f, other)
  {
    match field
    case Titulo => f.(titulo := value)
    case Descripcion => f.(descripcion := value)
    case Prioridad => f.(prioridad := value)
    case FechaCaducidad => f.(fechaCaducidad := value)
  }

  // ---------------------------------------------------------------------------
  // The request body

  /** The body `axios.post` sends for the form as the component is written:
      the form object itself, so the priority travels as a JSON string, and
      there is no `resumen` property. */
  function RequestBodyAsWritten(form: Form): (b: NovedadBody)
    ensures b.titulo == Some(form.titulo) && b.descripcion == Some(form.descripcion)
    ensures b.fechaCaducidad == Some(form.fechaCaducidad)
    ensures b.prioridad.JString? && b.prioridad.s == form.prioridad
    ensures b.resumen == None
  {
    NovedadBody(Some(form.titulo), None, Some(form.descripcion), JString(form.prioridad), Some(form.fechaCaducidad))
  }

  /** The body with the priority converted by `Number(...)` before posting; a
      NaN becomes `null` once serialised as JSON. */
  function RequestBody(form: Form): (b: NovedadBody)
    ensures b.prioridad.JNumber? <==> ToNumber(JString(form.prioridad)).Some?
    ensures b.prioridad.JNumber? ==> Some(b.prioridad.n) == ToNumber(JString(form.prioridad))
    ensures !b.prioridad.JNumber? ==> b.prioridad == JNull
    ensures b.titulo == Some(form.titulo) && b.descripcion == Some(form.descripcion)
    ensures b.fechaCaducidad == Some(form.fechaCaducidad)
    ensures b.resumen == None
  {
    var priority := ToNumber(JString(form.prioridad));
    NovedadBody(
      Some(form.titulo), None, Some(form.descripcion),
      if priority.Some? then JNumber(priority.value) else JNull,
      Some(form.fechaCaducidad))
  }

  /** Whether the `await` on an axios request completes: a 2xx response. A
      non-2xx status or a network error (`None`) makes it throw. */
  predicate Resolved(reply: Option<Response>) {
    reply.Some? && 200 <= reply.value.status < 300
  }

  /** `handleSubmit` once the POST has settled: the form is cleared when the
      request succeeded; a failure is only logged. */
  function AfterSubmit(p: Panel, reply: Option<Response>): (r: Panel)
    ensures r.novedades == p.novedades
    ensures Resolved(reply) ==> r.form == EmptyForm
    ensures !Resolved(reply) ==> r.form == p.form
  {
    if Resolved(reply) then p.(form := EmptyForm) else p
  }

  /** The panel after a user action, and the server's reply with its broadcasts. */
  datatype Round = Round(panel: Panel, server: Reply)

  /** A submit as the component is written. */
  function SubmitAsWritten(p: Panel, s: Store, fault: bool): (r: Round)
    requires Valid(s)
    ensures Valid(r.server.store)
    ensures r.panel.novedades == p.novedades
  {
    var reply := Handle(s, Post(RequestBodyAsWritten(p.form)), fault);
    Round(AfterSubmit(p, Some(reply.response)), reply)
  }

  /** A submit with the priority converted to a number. */
  function Submit(p: Panel, s: Store, fault: bool): (r: Round)
    requires Valid(s)
    ensures Valid(r.server.store)
    ensures r.panel.novedades == p.novedades
    ensures r.panel.form == (if r.server.response.status == 200 then EmptyForm else p.form)
  {
    var reply := Handle(s, Post(RequestBody(p.form)), fault);
    Round(AfterSubmit(p, Some(reply.response)), reply)
  }

  /** `handleDelete(novedad.id)`: a DELETE to the path built with `${id}`. The
      panel is left as it is; the error, if any, is only logged. */
  function DeleteClicked(p: Panel, id: int, s: Store, fault: bool): (r: Round)
    requires Valid(s)
    ensures Valid(r.server.store)
    ensures r.panel == p
  {
    Round(p, Handle(s, Request.Delete(NumberToString(id)), fault))
  }

  /** The fetch on mount, and the two broadcasts the component listens to. */
  function OnFetch(p: Panel, fetched: Option<seq<Row>>): (r: Panel)
    ensures r.form == p.form
    ensures fetched.Some? ==> r.novedades == fetched.value
    ensures fetched.None? ==> r == p
  {
    p.(novedades := ApplyFetch(p.novedades, fetched))
  }

  function OnEvents(p: Panel, evs: seq<Event>): (r: Panel)
    ensures r.form == p.form
  {
    p.(novedades := ApplyEvents(p.novedades, evs))
  }

  // ---------------------------------------------------------------------------
  // Properties

  /** As written, no submit ever creates an announcement: the priority is a
      string, which the server's check rejects, so the reply is 400, nothing
      is stored or broadcast, and the form keeps what the user typed. */
  lemma AsWrittenSubmitAlwaysRejected(p: Panel, s: Store, fault: bool)
    requires Valid(s)
    ensures
      var r := SubmitAsWritten(p, s, fault);
      && r.server == Reply(s, Response(400, ErrorBody(PriorityError)), [])
      && r.panel == p
  {
    assert !PriorityAccepted(JString(p.form.prioridad)) by {
      PriorityAcceptedExactly(JString(p.form.prioridad));
    }
  }

  /** With the conversion, a submit succeeds exactly when the priority field
      reads as 1, 2 or 3 and the insert goes through; it then stores one new
      row carrying the form's fields and broadcasts it. */
  lemma SubmitCreatesIffPriorityReadsInRange(p: Panel, s: Store, fault: bool)
    requires Valid(s)
    ensures
      var r := Submit(p, s, fault);
      var n := ToNumber(JString(p.form.prioridad));
      && (r.server.response.status == 200 <==>
            n.Some? && 1 <= n.value <= 3 && !fault && s.nextId <= Int4Max)
      && (r.server.response.status == 400 <==> !(n.Some? && 1 <= n.value <= 3))
      && (r.server.response.status == 200 ==>
            && var row := r.server.response.body.row;
            && row.id !in s.rows
            && r.server.store.rows == s.rows[row.id := row]
            && row.titulo == Some(p.form.titulo)
            && row.descripcion == Some(p.form.descripcion)
            && row.fechaCaducidad == Some(p.form.fechaCaducidad)
            && Some(row.prioridad) == n
            && r.server.emitted == [NovedadAgregada(row)]
            && r.panel == Panel(p.novedades, EmptyForm))
  {
    PriorityAcceptedExactly(RequestBody(p.form).prioridad);
  }

  /** The discrepancy on one input: a user who types 2 into the priority field
      gets a 400 from the form as written, and a new announcement once the
      value is converted. */
  lemma TypedPriorityTwo(p: Panel, s: Store)
    requires Valid(s)
    requires p.form.prioridad == "2" && s.nextId <= Int4Max
    ensures SubmitAsWritten(p, s, false).server.response.status == 400
    ensures Submit(p, s, false).server.response.status == 200
  {
    AsWrittenSubmitAlwaysRejected(p, s, false);
    NumberOfNumberString(2);
    assert NumberToString(2) == "2";
    SubmitCreatesIffPriorityReadsInRange(p, s, false);
  }

  /** The new announcement reaches this panel's list through its own
      broadcast: after a successful submit it is the last entry. */
  lemma SubmittedRowArrivesByBroadcast(p: Panel, s: Store, fault: bool)
    requires Valid(s)
    requires Submit(p, s, fault).server.response.status == 200
    ensures
      var r := Submit(p, s, fault);
      var after := OnEvents(r.panel, r.server.emitted);
      after.novedades == p.novedades + [r.server.response.body.row]
  {
    var r := Submit(p, s, fault);
    PriorityAcceptedExactly(RequestBody(p.form).prioridad);
    ApplyOneEvent(p.novedades, NovedadAgregada(r.server.response.body.row));
  }

  /** The delete button of a listed row removes that row from the table, and
      the broadcast removes it from the panel. */
  lemma DeleteButtonRemovesRow(p: Panel, s: Store, row: Row)
    requires Valid(s)
    requires Stored(s, row)
    ensures
      var r := DeleteClicked(p, row.id, s, false);
      && r.server.response == Response(200, MessageBody(DeletedMessage))
      && row.id !in r.server.store.rows
      && forall x | x in OnEvents(r.panel, r.server.emitted).novedades :: x.id != row.id
  {
    var text := NumberToString(row.id);
    IdParamRoundTrip(row.id);
    ParseIntOfNumberString(row.id);
    ApplyOneEvent(p.novedades, NovedadEliminada(text));
  }
}
