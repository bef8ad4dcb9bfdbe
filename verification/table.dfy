/** The `cbt.novedades` table: announcement rows keyed by their serial id, and the
    way PostgreSQL reads an id that arrives as a URL path segment. */
module Table {
  import opened Js

  /** A text column; `None` is SQL NULL, which is what a missing request field becomes. */
  type Text = Option<string>

  /** One announcement ("novedad") as `RETURNING *` and `SELECT *` produce it. */
  datatype Row = Row(
    id: int,
    titulo: Text,
    resumen: Text,
    descripcion: Text,
    prioridad: int,
    fechaCaducidad: Text)

  /** The table, keyed by id, and the next value of the id column's sequence. */
  datatype Store = Store(rows: map<int, Row>, nextId: int)

  /** Range of PostgreSQL's `integer` type. The id column is taken to be `serial`,
      that is `integer`; the repository holds no schema that says so. */
  const Int4Min: int := -0x8000_0000
  const Int4Max: int := 0x7FFF_FFFF

  /** Each row sits under its own id, the sequence has not yet handed that id out
      again, and every stored priority is one of the three the handlers admit. */
  predicate Valid(s: Store) {
    && 1 <= s.nextId <= Int4Max + 1
    && forall k | k in s.rows ::
         && 1 <= k < s.nextId
         && s.rows[k].id == k
         && 1 <= s.rows[k].prioridad <= 3
  }

  /** `x` is a row of the table: it sits under its own id. */
  predicate Stored(s: Store, x: Row) {
    x.id in s.rows && s.rows[x.id] == x
  }

  // ---------------------------------------------------------------------------
  // Reading an `integer` parameter from text (PostgreSQL's int4 input routine)

  /** `isspace` in the C locale. */
  predicate IsPgSpace(c: char) {
    c == ' ' || (0x09 <= c as int <= 0x0D)
  }

  predicate AllPgSpace(s: string) {
    forall i :: 0 <= i < |s| ==> IsPgSpace(s[i])
  }

  function SkipPgSpace(s: string): (t: string)
    ensures |t| <= |s| && t == s[|s| - |t|..]
    ensures |t| == 0 || !IsPgSpace(t[0])
    ensures forall i :: 0 <= i < |s| - |t| ==> IsPgSpace(s[i])
  {
    if |s| > 0 && IsPgSpace(s[0]) then
      var t := SkipPgSpace(s[1..]);
      assert s[1..][|s| - 1 - |t|..] == s[|s| - |t|..];
      assert forall i | 1 <= i < |s| - |t| :: s[i] == s[1..][i - 1];
      t
    else s
  }

  /** The key a `WHERE id = $1` clause compares with when `$1` is the text `p`:
      optional white space, an optional sign, at least one decimal digit and
      optional white space, within the `integer` range. Anything else makes the
      statement fail (`None`). */
  function ParseIdParam(p: string): (r: Option<int>)
    ensures r.Some? ==> Int4Min <= r.value <= Int4Max
  {
    PgInteger(SkipPgSpace(p))
  }

  /** The int4 reading of text whose leading white space is gone. */
  function PgInteger(t: string): (r: Option<int>)
    ensures r.Some? ==> Int4Min <= r.value <= Int4Max
  {
    var negative := |t| > 0 && t[0] == '-';
    var u := if |t| > 0 && (t[0] == '-' || t[0] == '+') then t[1..] else t;
    var n := DigitRun(u, 10);
    if n == 0 || !AllPgSpace(u[n..]) then None
    else
      var m: int := DigitsValue(u[..n], 10);
      var v := if negative then -m else m;
      if Int4Min <= v <= Int4Max then Some(v) else None
  }

  /** The path segment a client builds with `${id}` reads back as that id. */
  lemma IdParamRoundTrip(n: int)
    requires Int4Min <= n <= Int4Max
    ensures ParseIdParam(NumberToString(n)) == Some(n)
  {
    var d := DecimalString(if n < 0 then -n else n);
    var s := NumberToString(n);
    assert SkipPgSpace(s) == s by {
      assert !IsPgSpace(s[0]);
    }
    var u := if n < 0 then s[1..] else s;
    assert u == d;
    assert DigitRun(u, 10) == |u| by {
      DigitRunOfDigits(d, 10);
    }
    assert u[..|u|] == d && u[|u|..] == [];
  }

  /** Text that is not entirely a number never names a row. */
  lemma IdParamRejectsTrailingText()
    ensures ParseIdParam("12abc") == None
  {
    var t := "12abc";
    assert !IsPgSpace(t[0]);
    assert SkipPgSpace(t) == t;
    assert DigitRun(t[2..], 10) == 0;
    assert t[1..][1..] == t[2..];
    assert DigitRun(t[1..], 10) == 1;
    assert DigitRun(t, 10) == 2;
    assert !IsPgSpace(t[2..][0]);
  }

  /** Surrounding blanks are ignored. */
  lemma IdParamIgnoresBlanks()
    ensures ParseIdParam(" 42 ") == Some(42)
  {
    var padded := " 42 ";
    var u := "42 ";
    assert padded[1..] == u;
    assert !IsPgSpace(u[0]);
    assert SkipPgSpace(u) == u;
    assert SkipPgSpace(padded) == u;
    assert u[2..][0] == ' ';
    assert DigitRun(u[2..], 10) == 0;
    assert u[1..][1..] == u[2..];
    assert DigitRun(u[1..], 10) == 1;
    assert DigitRun(u, 10) == 2;
    assert u[..2] == "42";
    assert "42"[..1] == "4";
    assert DigitsValue("42", 10) == 42;
  }
}
