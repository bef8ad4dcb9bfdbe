/** The order in which `GET /novedades` returns the table:
    `ORDER BY prioridad ASC, id ASC`, stated as a strict order on rows and
    produced by an insertion sort over the rows taken in id order. */
module Listing {
  import opened Table

  /** `a` comes before `b` under `ORDER BY prioridad ASC, id ASC`. */
  predicate Precedes(a: Row, b: Row) {
    a.prioridad < b.prioridad || (a.prioridad == b.prioridad && a.id < b.id)
  }

  /** Strictly increasing under `Precedes`; in particular no row appears twice. */
  predicate Ordered(rs: seq<Row>) {
    forall i, j | 0 <= i < j < |rs| :: Precedes(rs[i], rs[j])
  }

  predicate IdsDistinct(rs: seq<Row>) {
    forall i, j | 0 <= i < j < |rs| :: rs[i].id != rs[j].id
  }

  function Insert(x: Row, rs: seq<Row>): (r: seq<Row>)
    requires Ordered(rs)
    requires forall y | y in rs :: y.id != x.id
    ensures Ordered(r)
    ensures multiset(r) == multiset(rs) + multiset{x}
  {
    if |rs| == 0 then [x]
    else if Precedes(x, rs[0]) then [x] + rs
    else
      var tail := Insert(x, rs[1..]);
      assert rs == [rs[0]] + rs[1..];
      assert Precedes(rs[0], x);
      assert forall y | y in tail :: Precedes(rs[0], y) by {
        forall y | y in tail ensures Precedes(rs[0], y) {
          assert y in multiset(tail);
          assert y in multiset(rs[1..]) || y == x;
          if y != x {
            var i :| 0 <= i < |rs[1..]| && rs[1..][i] == y;
            assert rs[i + 1] == y;
          }
        }
      }
      OrderedCons(rs[0], tail);
      [rs[0]] + tail
  }

  lemma OrderedCons(x: Row, rs: seq<Row>)
    requires Ordered(rs)
    requires forall y | y in rs :: Precedes(x, y)
    ensures Ordered([x] + rs)
  {
    forall i, j | 0 <= i < j < |[x] + rs| ensures Precedes(([x] + rs)[i], ([x] + rs)[j]) {
      if i == 0 {
        assert ([x] + rs)[j] == rs[j - 1];
      } else {
        assert ([x] + rs)[i] == rs[i - 1];
        assert ([x] + rs)[j] == rs[j - 1];
      }
    }
  }

  function Sort(rs: seq<Row>): (r: seq<Row>)
    requires IdsDistinct(rs)
    ensures Ordered(r)
    ensures multiset(r) == multiset(rs)
  {
    if |rs| == 0 then []
    else
      var rest := Sort(rs[1..]);
      assert forall y | y in rest :: y.id != rs[0].id by {
        forall y | y in rest ensures y.id != rs[0].id {
          assert y in multiset(rs[1..]);
        }
      }
      assert rs == [rs[0]] + rs[1..];
      Insert(rs[0], rest)
  }

  /** The stored rows whose id lies in `[1, n)`, in ascending id order. */
  function RowsBelow(rows: map<int, Row>, n: int): (rs: seq<Row>)
    requires forall k | k in rows :: rows[k].id == k
    ensures forall i, j | 0 <= i < j < |rs| :: rs[i].id < rs[j].id
    ensures forall x | x in rs :: x.id in rows && rows[x.id] == x && x.id < n
    ensures forall k | k in rows && 1 <= k < n :: rows[k] in rs
    decreases n
  {
    if n <= 1 then []
    else RowsBelow(rows, n - 1) + (if n - 1 in rows then [rows[n - 1]] else [])
  }

  /** The rows of the table in `ORDER BY prioridad ASC, id ASC` order: a
      duplicate-free sequence holding exactly the stored rows. */
  function SortedRows(s: Store): (rs: seq<Row>)
    requires Valid(s)
    ensures Ordered(rs)
    ensures forall x :: x in rs <==> Stored(s, x)
  {
    var byId := RowsBelow(s.rows, s.nextId);
    var rs := Sort(byId);
    assert forall x :: x in rs <==> x in byId by {
      forall x ensures x in rs <==> x in byId {
        assert x in rs <==> x in multiset(rs);
      }
    }
    rs
  }

  /** Two ordered listings of the same rows are the same listing: the order the
      server returns is fully determined by the set of rows. */
  lemma {:induction false} OrderedUnique(a: seq<Row>, b: seq<Row>)
    requires Ordered(a) && Ordered(b)
    requires forall x :: x in a <==> x in b
    ensures a == b
  {
    assert |a| > 0 ==> a[0] in b;
    assert |b| > 0 ==> b[0] in a;
    if |a| > 0 {
      assert a[0] == b[0];
      forall x ensures x in a[1..] <==> x in b[1..] {
        if x in a[1..] {
          var i :| 1 <= i < |a| && a[i] == x;
          assert Precedes(a[0], a[i]);
        }
        if x in b[1..] {
          var j :| 1 <= j < |b| && b[j] == x;
          assert Precedes(b[0], b[j]);
        }
        assert x in a <==> x == a[0] || x in a[1..];
        assert x in b <==> x == b[0] || x in b[1..];
      }
      OrderedUnique(a[1..], b[1..]);
      assert a == [a[0]] + a[1..];
      assert b == [b[0]] + b[1..];
    }
  }
}
