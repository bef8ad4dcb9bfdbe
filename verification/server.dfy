/** The `/novedades` routes of the announcement server as state transitions.
    Each handler takes the table, the request and whether the database call
    fails, and returns the new table, the HTTP response and the events emitted
    to every connected client (in emission order). */
module Server {
  import opened Js
  import opened Table
  import opened Listing

  /** The JSON body of a POST or PUT; the text fields have already become SQL
      values, the priority is kept as the JSON value the client sent. */
  datatype NovedadBody = NovedadBody(
    titulo: Text,
    resumen: Text,
    descripcion: Text,
    prioridad: JsonValue,
    fechaCaducidad: Text)

  datatype Body =
    | RowBody(row: Row)
    | RowsBody(rows: seq<Row>)
    | ErrorBody(error: string)
    | MessageBody(message: string)

  datatype Response = Response(status: int, body: Body)

  /** A broadcast. The deletion payload is `{ id }` with the id exactly as it
      appeared in the URL, that is, as text. */
  datatype Event =
    | NovedadAgregada(row: Row)
    | NovedadEditada(row: Row)
    | NovedadEliminada(id: string)

  datatype Reply = Reply(store: Store, response: Response, emitted: seq<Event>)

  datatype Request =
    | Get
    | Post(body: NovedadBody)
    | Put(idParam: string, body: NovedadBody)
    | Delete(idParam: string)

  const PriorityError := "La prioridad debe ser 1 (Alta), 2 (Media) o 3 (Baja)."
  const ListError := "Error al obtener novedades"
  const CreateError := "Error al agregar novedad"
  const UpdateError := "Error al editar novedad"
  const NotFoundError := "Novedad no encontrada"
  const DeleteError := "Error al eliminar novedad"
  const DeletedMessage := "Novedad eliminada"

  // ---------------------------------------------------------------------------
  // Priority validation

  const AllowedPriorities: seq<JsonValue> := [JNumber(1), JNumber(2), JNumber(3)]

  /** `allowedPriorities.includes(prioridad)`. */
  predicate PriorityAccepted(v: JsonValue) {
    Includes(AllowedPriorities, v)
  }

  /** Only the numbers 1, 2 and 3 pass; a numeric string such as "1" does not. */
  lemma PriorityAcceptedExactly(v: JsonValue)
    ensures PriorityAccepted(v) <==> v.JNumber? && 1 <= v.n <= 3
    ensures PriorityAccepted(v) ==> v in {JNumber(1), JNumber(2), JNumber(3)}
  {
    if v.JNumber? && 1 <= v.n <= 3 {
      assert v == AllowedPriorities[v.n - 1];
    }
  }

  lemma PriorityExamples()
    ensures !PriorityAccepted(JNumber(4))
    ensures !PriorityAccepted(JNumber(0))
    ensures !PriorityAccepted(JString("1"))
    ensures !PriorityAccepted(JUndefined)
    ensures PriorityAccepted(JNumber(2))
  {
    PriorityAcceptedExactly(JNumber(4));
    PriorityAcceptedExactly(JNumber(0));
    PriorityAcceptedExactly(JString("1"));
    PriorityAcceptedExactly(JUndefined);
    PriorityAcceptedExactly(JNumber(2));
  }

  /** The row holds the five fields the request supplied. */
  predicate Carries(row: Row, body: NovedadBody) {
    && row.titulo == body.titulo
    && row.resumen == body.resumen
    && row.descripcion == body.descripcion
    && JNumber(row.prioridad) == body.prioridad
    && row.fechaCaducidad == body.fechaCaducidad
  }

  function RowOf(id: int, body: NovedadBody): (row: Row)
    requires PriorityAccepted(body.prioridad)
    ensures row.id == id && Carries(row, body) && 1 <= row.prioridad <= 3
  {
    PriorityAcceptedExactly(body.prioridad);
    Row(id, body.titulo, body.resumen, body.descripcion, body.prioridad.n, body.fechaCaducidad)
  }

  // ---------------------------------------------------------------------------
  // Handlers

  /** GET /novedades */
  function ListNovedades(s: Store, fault: bool): (r: Reply)
    requires Valid(s)
    ensures r.store == s && r.emitted == []
    ensures fault ==> r.response == Response(500, ErrorBody(ListError))
    ensures !fault ==>
      && r.response.status == 200
      && r.response.body.RowsBody?
      && Ordered(r.response.body.rows)
      && forall x :: x in r.response.body.rows <==> Stored(s, x)
  {
    if fault then Reply(s, Response(500, ErrorBody(ListError)), [])
    else Reply(s, Response(200, RowsBody(SortedRows(s))), [])
  }

  /** POST /novedades. The insert fails when the database does or when the id
      sequence is exhausted. */
  function AddNovedad(s: Store, body: NovedadBody, fault: bool): (r: Reply)
    requires Valid(s)
    ensures Valid(r.store)
    ensures r.response.status in {200, 400, 500}
    ensures r.response.status != 200 ==> r.store == s && r.emitted == []
    ensures r.response.status == 400 <==> !PriorityAccepted(body.prioridad)
    ensures r.response.status == 400 ==> r.response.body == ErrorBody(PriorityError)
    ensures r.response.status == 500 ==> r.response.body == ErrorBody(CreateError)
    ensures r.response.status == 200 <==>
      PriorityAccepted(body.prioridad) && !fault && s.nextId <= Int4Max
    ensures r.response.status == 200 ==>
      && r.response.body.RowBody?
      && var row := r.response.body.row;
      && row.id !in s.rows
      && Carries(row, body)
      && r.store.rows == s.rows[row.id := row]
      && r.emitted == [NovedadAgregada(row)]
  {
    if !PriorityAccepted(body.prioridad) then
      Reply(s, Response(400, ErrorBody(PriorityError)), [])
    else if fault || s.nextId > Int4Max then
      Reply(s, Response(500, ErrorBody(CreateError)), [])
    else
      var row := RowOf(s.nextId, body);
      Reply(Store(s.rows[row.id := row], s.nextId + 1), Response(200, RowBody(row)), [NovedadAgregada(row)])
  }

  /** PUT /novedades/:id */
  function EditNovedad(s: Store, idParam: string, body: NovedadBody, fault: bool): (r: Reply)
    requires Valid(s)
    ensures Valid(r.store)
    ensures r.response.status in {200, 400, 404, 500}
    ensures r.response.status != 200 ==> r.store == s && r.emitted == []
    ensures r.response.status == 400 <==> !PriorityAccepted(body.prioridad)
    ensures r.response.status == 400 ==> r.response.body == ErrorBody(PriorityError)
    ensures r.response.status == 500 <==>
      PriorityAccepted(body.prioridad) && (fault || ParseIdParam(idParam).None?)
    ensures r.response.status == 500 ==> r.response.body == ErrorBody(UpdateError)
    ensures r.response.status == 404 <==>
      && PriorityAccepted(body.prioridad) && !fault
      && ParseIdParam(idParam).Some? && ParseIdParam(idParam).value !in s.rows
    ensures r.response.status == 404 ==> r.response.body == ErrorBody(NotFoundError)
    ensures r.response.status == 200 ==>
      && ParseIdParam(idParam).Some?
      && var k := ParseIdParam(idParam).value;
      && k in s.rows
      && r.store.rows.Keys == s.rows.Keys
      && r.store.nextId == s.nextId
      && r.store.rows[k].id == k
      && Carries(r.store.rows[k], body)
      && (forall j | j in s.rows && j != k :: r.store.rows[j] == s.rows[j])
      && r.response.body == RowBody(r.store.rows[k])
      && r.emitted == [NovedadEditada(r.store.rows[k])]
  {
    if !PriorityAccepted(body.prioridad) then
      Reply(s, Response(400, ErrorBody(PriorityError)), [])
    else
      UpdateRow(s, ParseIdParam(idParam), body, fault)
  }

  /** The UPDATE statement of PUT /novedades/:id once the priority has passed,
      with `key` the id the database read from the parameter (`None` when it
      could not read one). */
  function UpdateRow(s: Store, key: Option<int>, body: NovedadBody, fault: bool): (r: Reply)
    requires Valid(s)
    requires PriorityAccepted(body.prioridad)
    ensures Valid(r.store)
    ensures r.response.status in {200, 404, 500}
    ensures r.response.status != 200 ==> r.store == s && r.emitted == []
    ensures r.response.status == 500 <==> fault || key.None?
    ensures r.response.status == 500 ==> r.response.body == ErrorBody(UpdateError)
    ensures r.response.status == 404 <==> !fault && key.Some? && key.value !in s.rows
    ensures r.response.status == 404 ==> r.response.body == ErrorBody(NotFoundError)
    ensures r.response.status == 200 ==>
      && key.Some?
      && var k := key.value;
      && k in s.rows
      && r.store.rows.Keys == s.rows.Keys
      && r.store.nextId == s.nextId
      && r.store.rows[k].id == k
      && Carries(r.store.rows[k], body)
      && (forall j | j in s.rows && j != k :: r.store.rows[j] == s.rows[j])
      && r.response.body == RowBody(r.store.rows[k])
      && r.emitted == [NovedadEditada(r.store.rows[k])]
  {
    if fault || key.None? then
      Reply(s, Response(500, ErrorBody(UpdateError)), [])
    else if key.value !in s.rows then
      Reply(s, Response(404, ErrorBody(NotFoundError)), [])
    else
      var row := RowOf(key.value, body);
      Reply(Store(s.rows[key.value := row], s.nextId), Response(200, RowBody(row)), [NovedadEditada(row)])
  }

  /** DELETE /novedades/:id. The statement succeeds whether or not a row had
      that id, and the broadcast follows either way. */
  function RemoveNovedad(s: Store, idParam: string, fault: bool): (r: Reply)
    requires Valid(s)
    ensures Valid(r.store)
    ensures r.response.status in {200, 500}
    ensures r.response.status == 200 <==> !fault && ParseIdParam(idParam).Some?
    ensures r.response.status == 500 ==>
      r == Reply(s, Response(500, ErrorBody(DeleteError)), [])
    ensures r.response.status == 200 ==>
      && var k := ParseIdParam(idParam).value;
      && k !in r.store.rows
      && (forall j | j != k :: (j in r.store.rows <==> j in s.rows))
      && (forall j | j in r.store.rows :: r.store.rows[j] == s.rows[j])
      && r.store.nextId == s.nextId
      && r.response.body == MessageBody(DeletedMessage)
      && r.emitted == [NovedadEliminada(idParam)]
  {
    var key := ParseIdParam(idParam);
    if fault || key.None? then
      Reply(s, Response(500, ErrorBody(DeleteError)), [])
    else
      var k := key.value;
      Reply(Store(s.rows - {k}, s.nextId), Response(200, MessageBody(DeletedMessage)), [NovedadEliminada(idParam)])
  }

  /** The route table. */
  function Handle(s: Store, req: Request, fault: bool): (r: Reply)
    requires Valid(s)
    ensures Valid(r.store)
    ensures |r.emitted| <= 1
    ensures |r.emitted| == 1 <==> r.response.status == 200 && !req.Get?
  {
    match req
    case Get => ListNovedades(s, fault)
    case Post(body) => AddNovedad(s, body, fault)
    case Put(idParam, body) => EditNovedad(s, idParam, body, fault)
    case Delete(idParam) => RemoveNovedad(s, idParam, fault)
  }

  // ---------------------------------------------------------------------------
  // Properties across handlers

  predicate HasRejectedPriority(req: Request) {
    (req.Post? || req.Put?) && !PriorityAccepted(req.body.prioridad)
  }

  /** A request with a bad priority is answered 400 before the database is
      touched: the table is unchanged and nothing is broadcast. */
  lemma RejectedPriorityIsInert(s: Store, req: Request, fault: bool)
    requires Valid(s)
    requires HasRejectedPriority(req)
    ensures Handle(s, req, fault) == Reply(s, Response(400, ErrorBody(PriorityError)), [])
  {
  }

  /** When the database call fails, every route answers 500 (or 400 when the
      priority was already rejected), leaves the table as it was and emits
      nothing. */
  lemma StorageFailureIsInert(s: Store, req: Request)
    requires Valid(s)
    ensures Handle(s, req, true).store == s
    ensures Handle(s, req, true).emitted == []
    ensures Handle(s, req, true).response.status ==
      (if HasRejectedPriority(req) then 400 else 500)
  {
  }

  /** Deleting the row a create just made gives back the table's rows. */
  lemma AddThenRemoveRestoresRows(s: Store, body: NovedadBody)
    requires Valid(s)
    requires AddNovedad(s, body, false).response.status == 200
    ensures
      var added := AddNovedad(s, body, false);
      var id := added.response.body.row.id;
      RemoveNovedad(added.store, NumberToString(id), false).store.rows == s.rows
  {
    var added := AddNovedad(s, body, false);
    var id := added.response.body.row.id;
    IdParamRoundTrip(id);
    var m := added.store.rows;
    assert m == s.rows[id := added.response.body.row];
    var removed := RemoveNovedad(added.store, NumberToString(id), false);
    assert removed.store.rows == m - {id};
    assert (m - {id}).Keys == s.rows.Keys;
  }

  /** Repeating an edit changes nothing further. */
  lemma EditIsIdempotent(s: Store, idParam: string, body: NovedadBody)
    requires Valid(s)
    ensures
      var once := EditNovedad(s, idParam, body, false);
      EditNovedad(once.store, idParam, body, false).store == once.store
  {
  }

  /** After a successful create, the next listing shows the new row. */
  lemma ListingShowsAddedRow(s: Store, body: NovedadBody)
    requires Valid(s)
    requires AddNovedad(s, body, false).response.status == 200
    ensures
      var added := AddNovedad(s, body, false);
      added.response.body.row in ListNovedades(added.store, false).response.body.rows
  {
    var added := AddNovedad(s, body, false);
    var row := added.response.body.row;
    assert added.store.rows[row.id] == row;
  }
}
