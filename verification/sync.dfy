/** The announcement list a client component keeps (`NovedadesList` and
    `AdministracionNovedades`, in both front-end copies): seeded by one fetch of
    `GET /novedades` and then updated by the `novedadAgregada` and
    `novedadEliminada` broadcasts. No listener is registered for
    `novedadEditada`. */
module Sync {
  import opened Js
  import opened Table
  import opened Listing
  import opened Server

  /** What `axios.get` resolves with: the rows of a 2xx response. A non-2xx
      status or a network error (`None`) makes it reject. */
  function Fetched(reply: Option<Response>): Option<seq<Row>>
  {
    if reply.Some? && 200 <= reply.value.status < 300 && reply.value.body.RowsBody?
    then Some(reply.value.body.rows)
    else None
  }

  /** `fetchNovedades`: `setNovedades(response.data)` on success; the error
      is only logged. */
  function ApplyFetch(local: seq<Row>, fetched: Option<seq<Row>>): seq<Row>
  {
    if fetched.Some? then fetched.value else local
  }

  /** `setNovedades(prev => [...prev, novedad])`: no check for an id that is
      already present. */
  function ApplyAdded(local: seq<Row>, row: Row): (r: seq<Row>)
    ensures |r| == |local| + 1
    ensures r[..|local|] == local && r[|local|] == row
    ensures multiset(r)[row] == multiset(local)[row] + 1
  {
    local + [row]
  }

  /** `prev.filter(nov => nov.id !== target)`, where a NaN target (`None`)
      differs from every id. */
  function RemoveId(local: seq<Row>, target: Option<int>): (r: seq<Row>)
    ensures forall x :: x in r <==> x in local && Some(x.id) != target
    ensures forall x: Row | Some(x.id) != target :: multiset(r)[x] == multiset(local)[x]
    ensures (forall x | x in local :: Some(x.id) != target) ==> r == local
  {
    if |local| == 0 then []
    else
      var rest := RemoveId(local[1..], target);
      assert local == [local[0]] + local[1..];
      if Some(local[0].id) != target then [local[0]] + rest else rest
  }

  /** `({ id }) => setNovedades(prev => prev.filter(nov => nov.id !== parseInt(id)))` */
  function ApplyDeleted(local: seq<Row>, id: string): (r: seq<Row>)
    ensures forall x | x in r :: Some(x.id) != ParseInt(id)
    ensures forall x :: x in r <==> x in local && Some(x.id) != ParseInt(id)
    ensures (forall x | x in local :: Some(x.id) != ParseInt(id)) ==> r == local
  {
    RemoveId(local, ParseInt(id))
  }

  function ApplyEvent(local: seq<Row>, ev: Event): seq<Row>
  {
    match ev
    case NovedadAgregada(row) => ApplyAdded(local, row)
    case NovedadEliminada(id) => ApplyDeleted(local, id)
    case NovedadEditada(_) => local
  }

  /** The broadcasts of a handler, applied in emission order. */
  function ApplyEvents(local: seq<Row>, evs: seq<Event>): seq<Row>
    decreases |evs|
  {
    if |evs| == 0 then local else ApplyEvents(ApplyEvent(local, evs[0]), evs[1..])
  }

  lemma ApplyOneEvent(local: seq<Row>, ev: Event)
    ensures ApplyEvents(local, [ev]) == ApplyEvent(local, ev)
  {
    assert [ev][1..] == [];
  }

  /** The client holds exactly the rows of the table (possibly in another order). */
  ghost predicate SameRows(local: seq<Row>, s: Store) {
    forall x :: x in local <==> Stored(s, x)
  }

  // ---------------------------------------------------------------------------
  // The filter keeps everything else in place

  /** Filtering a concatenation filters each part: the entries that survive
      keep their relative order. */
  lemma {:induction false} RemoveIdDistributes(a: seq<Row>, b: seq<Row>, target: Option<int>)
    ensures RemoveId(a + b, target) == RemoveId(a, target) + RemoveId(b, target)
  {
    if |a| == 0 {
      assert a + b == b;
    } else {
      assert (a + b)[1..] == a[1..] + b;
      RemoveIdDistributes(a[1..], b, target);
    }
  }

  /** An ordered list stays ordered after the filter. */
  lemma {:induction false} RemoveIdKeepsOrder(local: seq<Row>, target: Option<int>)
    requires Ordered(local)
    ensures Ordered(RemoveId(local, target))
  {
    if |local| > 0 {
      RemoveIdKeepsOrder(local[1..], target);
      var rest := RemoveId(local[1..], target);
      if Some(local[0].id) != target {
        forall y | y in rest ensures Precedes(local[0], y) {
          var i :| 0 <= i < |local[1..]| && local[1..][i] == y;
          assert local[i + 1] == y;
        }
        OrderedCons(local[0], rest);
      }
    }
  }

  // ---------------------------------------------------------------------------
  // The server's id reading and the client's agree

  lemma {:induction false} SpaceSkipsAgree(p: string)
    requires |SkipPgSpace(p)| > 0 && !IsJsSpace(SkipPgSpace(p)[0])
    ensures TrimStart(p) == SkipPgSpace(p)
  {
    if |p| > 0 && IsPgSpace(p[0]) {
      SpaceSkipsAgree(p[1..]);
    }
  }

  /** A digit run that ends the text or is followed by a blank cannot be a
      `0x` prefix, so `parseInt` reads it in decimal. */
  lemma UnsignedAgrees(u: string)
    requires DigitRun(u, 10) > 0 && AllPgSpace(u[DigitRun(u, 10)..])
    ensures ParseIntUnsigned(u) == Some(DigitsValue(u[..DigitRun(u, 10)], 10))
  {
    var n := DigitRun(u, 10);
    assert IsRadixDigit(u[..n][0], 10);
    if |u| >= 2 {
      if n >= 2 {
        assert IsRadixDigit(u[..n][1], 10);
      } else {
        assert IsPgSpace(u[n..][0]);
      }
    }
  }

  /** Once its blanks are gone, an accepted id parameter starts with a sign
      or a digit, and `parseInt` reads its sign and digits as the database does. */
  lemma PgIntegerAgrees(t: string)
    requires PgInteger(t).Some?
    ensures |t| > 0 && !IsJsSpace(t[0])
    ensures ParseIntSigned(t) == PgInteger(t)
  {
    var u := if |t| > 0 && (t[0] == '-' || t[0] == '+') then t[1..] else t;
    var n := DigitRun(u, 10);
    var m: int := DigitsValue(u[..n], 10);
    var v := if t[0] == '-' then -m else m;
    assert PgInteger(t) == Some(v) && AllPgSpace(u[n..]);
    assert IsRadixDigit(u[..n][0], 10);
    assert ParseIntUnsigned(u) == Some(m) by {
      UnsignedAgrees(u);
    }
  }

  /** Whenever the database accepts an id parameter, `parseInt` reads the same
      number from it, so the deletion broadcast names the row that was deleted. */
  lemma IdParamAgreesWithParseInt(p: string)
    requires ParseIdParam(p).Some?
    ensures ParseInt(p) == ParseIdParam(p)
  {
    PgIntegerAgrees(SkipPgSpace(p));
    SpaceSkipsAgree(p);
  }

  // ---------------------------------------------------------------------------
  // Client against server

  /** A successful fetch gives the client the server's ordered listing; a
      failed one leaves its list alone. */
  lemma FetchMirrorsServer(local: seq<Row>, s: Store, fault: bool)
    requires Valid(s)
    ensures
      var after := ApplyFetch(local, Fetched(Some(ListNovedades(s, fault).response)));
      && (fault ==> after == local)
      && (!fault ==> after == SortedRows(s) && Ordered(after) && SameRows(after, s))
  {
  }

  /** After a deletion broadcast the client holds no entry with the deleted id,
      and neither does the table. */
  lemma DeleteAgreesWithServer(s: Store, p: string, local: seq<Row>)
    requires Valid(s)
    requires RemoveNovedad(s, p, false).response.status == 200
    ensures
      var r := RemoveNovedad(s, p, false);
      var k := ParseIdParam(p).value;
      && k !in r.store.rows
      && forall x | x in ApplyEvents(local, r.emitted) :: x.id != k
  {
    IdParamAgreesWithParseInt(p);
    ApplyOneEvent(local, NovedadEliminada(p));
  }

  /** Filtering one id out of a table's listing gives the listing of the table
      without that id. */
  lemma RemoveIdMatchesListing(s: Store, s': Store, k: int)
    requires Valid(s) && Valid(s')
    requires forall x :: Stored(s', x) <==> Stored(s, x) && x.id != k
    ensures RemoveId(SortedRows(s), Some(k)) == SortedRows(s')
  {
    var after := RemoveId(SortedRows(s), Some(k));
    RemoveIdKeepsOrder(SortedRows(s), Some(k));
    OrderedUnique(after, SortedRows(s'));
  }

  /** A client that shows the server's listing still shows it, order included,
      after any DELETE and the broadcast it causes. */
  lemma DeleteKeepsListingInSync(s: Store, p: string, fault: bool)
    requires Valid(s)
    ensures
      var r := RemoveNovedad(s, p, fault);
      ApplyEvents(SortedRows(s), r.emitted) == SortedRows(r.store)
  {
    var r := RemoveNovedad(s, p, fault);
    if r.response.status == 200 {
      var k := ParseIdParam(p).value;
      IdParamAgreesWithParseInt(p);
      ApplyOneEvent(SortedRows(s), NovedadEliminada(p));
      assert forall x :: Stored(r.store, x) <==> Stored(s, x) && x.id != k;
      RemoveIdMatchesListing(s, r.store, k);
    }
  }

  /** After a POST and its broadcast, a client that held the table's rows holds
      them still, the new row included; only the position of the new row may
      differ from a fresh listing, since it is appended at the end. */
  lemma AddKeepsRowsInSync(s: Store, body: NovedadBody, fault: bool, local: seq<Row>)
    requires Valid(s)
    requires SameRows(local, s)
    ensures
      var r := AddNovedad(s, body, fault);
      SameRows(ApplyEvents(local, r.emitted), r.store)
  {
    var r := AddNovedad(s, body, fault);
    if r.response.status == 200 {
      var row := r.response.body.row;
      ApplyOneEvent(local, NovedadAgregada(row));
      assert ApplyEvents(local, r.emitted) == local + [row];
      assert forall x :: Stored(r.store, x) <==> Stored(s, x) || x == row;
    }
  }

  /** An edit broadcast changes nothing on these clients: after a successful
      PUT that changes a row, a client that held the table's rows keeps the
      old version, which the table no longer has. */
  lemma EditLeavesClientStale(s: Store, p: string, body: NovedadBody, local: seq<Row>)
    requires Valid(s)
    requires SameRows(local, s)
    requires EditNovedad(s, p, body, false).response.status == 200
    requires
      var k := ParseIdParam(p).value;
      EditNovedad(s, p, body, false).store.rows[k] != s.rows[k]
    ensures
      var r := EditNovedad(s, p, body, false);
      var k := ParseIdParam(p).value;
      && ApplyEvents(local, r.emitted) == local
      && s.rows[k] in local
      && !Stored(r.store, s.rows[k])
  {
    var r := EditNovedad(s, p, body, false);
    ApplyOneEvent(local, r.emitted[0]);
  }

  /** Two broadcasts of the same row leave two copies: the add handler does not
      deduplicate. */
  lemma AddIsNotIdempotent(local: seq<Row>, row: Row)
    ensures multiset(ApplyAdded(ApplyAdded(local, row), row))[row] == multiset(local)[row] + 2
  {
  }
}
