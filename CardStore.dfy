/** The `cards` table of the flashcard application and the SQL statements
    the application issues against it, as operations on an in-memory map
    from row id to row contents. */
module CardStore {

  datatype Option<T> = None | Some(value: T)

  /** One row of `cards` without its key. `category` is the `type` column
      (a subject code, 1 to 6 for the six known subjects, not validated);
      `known` is the 0/1 column. */
  datatype Card = Card(category: int, front: string, back: string, known: bool)

  /** A row as a SELECT returns it: its id and its contents. */
  datatype Row = Row(id: int, card: Card)

  /** The table, keyed by the INTEGER PRIMARY KEY `id`. */
  type Table = map<int, Card>

  /** The WHERE clauses the application puts after `FROM cards`. */
  datatype Where =
    | Always               // where 1 = 1
    | CategoryIs(code: int) // where type = code
    | KnownIs(flag: bool)  // where known = 1 / known = 0
    | UnknownIn(code: int) // where type = code and known = 0

  predicate Satisfies(c: Card, w: Where)
  {
    match w
    case Always => true
    case CategoryIs(code) => c.category == code
    case KnownIs(flag) => c.known == flag
    case UnknownIn(code) => c.category == code && !c.known
  }

  /** `ORDER BY id DESC`: ids strictly decrease along the sequence. */
  predicate Descending(rows: seq<Row>)
  {
    forall i, j :: 0 <= i < j < |rows| ==> rows[i].id > rows[j].id
  }

  lemma NonEmptyHasMember(s: set<int>)
    requires s != {}
    ensures exists x :: x in s
  {
    if forall x :: x !in s {
      assert false;
    }
  }

  lemma {:induction false} MaxExists(s: set<int>)
    requires s != {}
    ensures exists m :: m in s && forall k :: k in s ==> k <= m
  {
    NonEmptyHasMember(s);
    var x :| x in s;
    var rest := s - {x};
    if rest == {} {
      forall k | k in s
        ensures k <= x
      {
        assert k !in rest;
      }
    } else {
      MaxExists(rest);
      var m :| m in rest && forall k :: k in rest ==> k <= m;
      var top := if x > m then x else m;
      forall k | k in s
        ensures k <= top
      {
        if k != x {
          assert k in rest;
        }
      }
    }
  }

  /** The largest id of a non-empty set of ids. */
  function MaxId(s: set<int>): (m: int)
    requires s != {}
    ensures m in s && forall k :: k in s ==> k <= m
  {
    MaxExists(s);
    var m :| m in s && forall k :: k in s ==> k <= m; m
  }

  /** `SELECT id, type, front, back, known FROM cards <w> ORDER BY id DESC`:
      exactly the rows satisfying `w`, newest (largest id) first. */
  function Select(t: Table, w: Where): (rows: seq<Row>)
    ensures Descending(rows)
    ensures forall i :: 0 <= i < |rows| ==>
      rows[i].id in t && rows[i].card == t[rows[i].id] && Satisfies(rows[i].card, w)
    ensures forall id :: id in t && Satisfies(t[id], w) ==> Row(id, t[id]) in rows
    decreases |t.Keys|
  {
    if t.Keys == {} then []
    else
      var k := MaxId(t.Keys);
      var older := t - {k};
      assert older.Keys == t.Keys - {k};
      var rest := Select(older, w);
      SelectStep(t, w, k, older, rest);
      if Satisfies(t[k], w) then [Row(k, t[k])] + rest else rest
  }

  /** One step of Select: the newest row, if it satisfies the clause, goes
      in front of the answer for the older rows. */
  lemma SelectStep(t: Table, w: Where, k: int, older: Table, rest: seq<Row>)
    requires k in t && forall j :: j in t ==> j <= k
    requires older == t - {k}
    requires Descending(rest)
    requires forall i :: 0 <= i < |rest| ==>
      rest[i].id in older && rest[i].card == older[rest[i].id] && Satisfies(rest[i].card, w)
    requires forall id :: id in older && Satisfies(older[id], w) ==> Row(id, older[id]) in rest
    ensures var rows := if Satisfies(t[k], w) then [Row(k, t[k])] + rest else rest;
      && Descending(rows)
      && (forall i :: 0 <= i < |rows| ==>
            rows[i].id in t && rows[i].card == t[rows[i].id] && Satisfies(rows[i].card, w))
      && (forall id :: id in t && Satisfies(t[id], w) ==> Row(id, t[id]) in rows)
  {
    forall id | id in t && id != k
      ensures id in older && older[id] == t[id]
    {
    }
    forall i | 0 <= i < |rest|
      ensures rest[i].id < k
    {
      assert rest[i].id in older;
    }
    if Satisfies(t[k], w) {
      var rows := [Row(k, t[k])] + rest;
      forall i | 1 <= i < |rows|
        ensures rows[i] == rest[i - 1]
      {
      }
      forall id | id in t && Satisfies(t[id], w)
        ensures Row(id, t[id]) in rows
      {
        if id != k {
          assert Row(id, older[id]) in rest;
        }
      }
    }
  }

  /** The id SQLite gives the next inserted row: one more than the largest
      id in use, or 1 for an empty table (rowid allocation without
      AUTOINCREMENT). */
  function NextId(t: Table): (id: int)
    ensures id !in t
    ensures forall k :: k in t ==> k < id
  {
    if t.Keys == {} then 1 else MaxId(t.Keys) + 1
  }

  /** `INSERT INTO cards (type, front, back) VALUES (?, ?, ?)`; the
      column `known` takes its default 0. */
  function Inserted(t: Table, category: int, front: string, back: string): (t': Table)
    ensures t'.Keys == t.Keys + {NextId(t)}
    ensures t'[NextId(t)] == Card(category, front, back, false)
    ensures forall k :: k in t ==> t'[k] == t[k]
  {
    t[NextId(t) := Card(category, front, back, false)]
  }

  /** `UPDATE cards SET type = ?, front = ?, back = ?, known = ? WHERE id = ?`. */
  function Updated(t: Table, id: int, c: Card): (t': Table)
    ensures t'.Keys == t.Keys
    ensures id in t ==> t'[id] == c
    ensures forall k :: k in t && k != id ==> t'[k] == t[k]
  {
    if id in t then t[id := c] else t
  }

  /** `UPDATE cards SET known = 1 WHERE id = ?`. */
  function MarkedKnown(t: Table, id: int): (t': Table)
    ensures t'.Keys == t.Keys
    ensures id in t ==> t'[id] == t[id].(known := true)
    ensures forall k :: k in t && k != id ==> t'[k] == t[k]
  {
    if id in t then t[id := t[id].(known := true)] else t
  }

  /** `DELETE FROM cards WHERE id = ?`. */
  function Deleted(t: Table, id: int): (t': Table)
    ensures t'.Keys == t.Keys - {id}
    ensures forall k :: k in t' ==> t'[k] == t[k]
  {
    t - {id}
  }

  /** `get_card_by_id`: `SELECT ... WHERE id = ? LIMIT 1`. */
  function ById(t: Table, id: int): (r: Option<Row>)
    ensures r.Some? <==> id in t
    ensures r.Some? ==> r.value.id == id && r.value.card == t[id]
  {
    if id in t then Some(Row(id, t[id])) else None
  }

  /** `get_card`: `SELECT ... WHERE type = ? and known = 0 ORDER BY RANDOM()
      LIMIT 1`. The random order is an oracle: `roll` picks which of the
      matching rows comes first. */
  function Draw(t: Table, code: int, roll: nat): (r: Option<Row>)
    ensures r.Some? ==> r.value.id in t && r.value.card == t[r.value.id]
    ensures r.Some? ==> r.value.card.category == code && !r.value.card.known
    ensures r.None? <==> forall id :: id in t ==> !(t[id].category == code && !t[id].known)
  {
    var candidates := Select(t, UnknownIn(code));
    if candidates == [] then None else Some(candidates[roll % |candidates|])
  }

  /** Every unknown card of the category can be the one drawn: the choice
      ranges over all matching rows. */
  lemma DrawReachesEvery(t: Table, code: int, id: int)
    requires id in t && t[id].category == code && !t[id].known
    ensures exists roll: nat :: Draw(t, code, roll) == Some(Row(id, t[id]))
  {
    var candidates := Select(t, UnknownIn(code));
    var target := Row(id, t[id]);
    assert Satisfies(t[id], UnknownIn(code));
    assert target in candidates;
    var i :| 0 <= i < |candidates| && candidates[i] == target;
    ModSmall(i, |candidates|);
    assert Draw(t, code, i) == Some(target);
  }

  lemma ModSmall(i: nat, n: nat)
    requires i < n
    ensures i % n == i
  {
  }

  /** In a descending sequence the head carries the largest id, and the
      tail holds every other row. */
  lemma DescendingHead(a: seq<Row>, row: Row)
    requires Descending(a) && a != []
    ensures row in a ==> row.id <= a[0].id && (row.id == a[0].id ==> row == a[0])
    ensures row in a[1..] <==> row in a && row != a[0]
  {
  }

  lemma SameEmptiness(a: seq<Row>, b: seq<Row>)
    requires forall row :: row in a <==> row in b
    ensures a == [] <==> b == []
  {
    if a != [] {
      assert a[0] in b;
    }
    if b != [] {
      assert b[0] in a;
    }
  }

  /** `ORDER BY id DESC` determines the listing: two descending sequences
      with the same rows are equal. Together with the contract of Select,
      any correct answer to the query is Select's. */
  lemma {:induction false} DescendingUnique(a: seq<Row>, b: seq<Row>)
    requires Descending(a) && Descending(b)
    requires forall row :: row in a <==> row in b
    ensures a == b
  {
    SameEmptiness(a, b);
    if a != [] {
      assert a[0] in b;
      assert b[0] in a;
      DescendingHead(a, b[0]);
      DescendingHead(b, a[0]);
      assert a[0] == b[0];
      forall row
        ensures row in a[1..] <==> row in b[1..]
      {
        DescendingHead(a, row);
        DescendingHead(b, row);
      }
      assert Descending(a[1..]) && Descending(b[1..]);
      DescendingUnique(a[1..], b[1..]);
      assert a == [a[0]] + a[1..];
      assert b == [b[0]] + b[1..];
    }
  }

  /** A freshly inserted row heads every listing it satisfies, and the
      rest of the listing is the one before the insert. */
  lemma SelectAfterInsert(t: Table, category: int, front: string, back: string, w: Where)
    ensures var c := Card(category, front, back, false);
      Select(Inserted(t, category, front, back), w)
      == if Satisfies(c, w) then [Row(NextId(t), c)] + Select(t, w) else Select(t, w)
  {
    var t' := Inserted(t, category, front, back);
    var n := NextId(t);
    assert MaxId(t'.Keys) == n;
    assert t' - {n} == t;
  }

  /** After a delete no listing contains the deleted id and the lookup by
      that id finds nothing; every other row is listed as before. */
  lemma SelectAfterDelete(t: Table, id: int, w: Where)
    ensures ById(Deleted(t, id), id) == None
    ensures forall i :: 0 <= i < |Select(Deleted(t, id), w)| ==> Select(Deleted(t, id), w)[i].id != id
    ensures forall k :: k in t && k != id && Satisfies(t[k], w) ==> Row(k, t[k]) in Select(Deleted(t, id), w)
  {
  }

  /** Under the max+1 allocation of NextId, deleting the newest row lets
      the next insert take its id again. */
  lemma NewestIdReused(t: Table, category: int, front: string, back: string)
    ensures NextId(Deleted(Inserted(t, category, front, back), NextId(t))) == NextId(t)
  {
    assert Deleted(Inserted(t, category, front, back), NextId(t)) == t;
  }
}
