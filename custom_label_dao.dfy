/**
 * The `custom_labels` table behind `CustomLabelDao`: REPLACE-on-conflict
 * insert, filter by category, full scan and delete by id.
 *
 * The table is an SQLite table whose integer primary key is declared
 * auto-generated, so it is the rowid and uses AUTOINCREMENT:
 *  - a record inserted with id 0 gets one more than the largest id the table
 *    has ever held (`lastId`, SQLite's `sqlite_sequence` entry);
 *  - a record inserted with another id keeps it, first removing any row with
 *    the same id (REPLACE), and raises `lastId` when it is larger;
 *  - a scan returns rows in ascending id order, so `rows` is kept sorted.
 */
module CustomLabelDao {

  /** One row of the table. `createdAt` is the caller's clock reading. */
  datatype CustomLabel = CustomLabel(
    id: int,
    mlKitCategory: string,
    customName: string,
    featureVector: string,
    createdAt: int)

  /** Strictly ascending ids: the order of a scan, and no id twice. */
  predicate IdsAscending(rows: seq<CustomLabel>) {
    forall i, j :: 0 <= i < j < |rows| ==> rows[i].id < rows[j].id
  }

  /** Some stored row has id `id`. */
  predicate HasId(rows: seq<CustomLabel>, id: int) {
    exists x :: x in rows && x.id == id
  }

  /** The id an insert stores a record under: its own, or the next generated one when it is 0. */
  function AssignedId(requested: int, lastId: int): (id: int)
    requires 0 <= lastId
    ensures id != 0
    ensures requested != 0 ==> id == requested
    ensures requested == 0 ==> id > lastId
  {
    if requested != 0 then requested else lastId + 1
  }

  // ---------------------------------------------------------------------------
  // Table operations on values

  /** The rows of `rows` other than the one with id `id`. */
  function WithoutId(rows: seq<CustomLabel>, id: int): (r: seq<CustomLabel>)
    requires IdsAscending(rows)
    ensures IdsAscending(r)
    ensures forall x :: x in r <==> x in rows && x.id != id
  {
    if |rows| == 0 then []
    else
      var rest := WithoutId(rows[1..], id);
      assert rows == [rows[0]] + rows[1..];
      if rows[0].id == id then rest else [rows[0]] + rest
  }

  /** Deleting removes one row when the id is present and none otherwise. */
  lemma {:induction false} WithoutIdSize(rows: seq<CustomLabel>, id: int)
    requires IdsAscending(rows)
    ensures |WithoutId(rows, id)| == if HasId(rows, id) then |rows| - 1 else |rows|
    ensures !HasId(rows, id) ==> WithoutId(rows, id) == rows
  {
    if |rows| > 0 {
      HasIdSplit(rows, id);
      WithoutIdSize(rows[1..], id);
    }
  }

  lemma HasIdSplit(rows: seq<CustomLabel>, id: int)
    requires IdsAscending(rows) && |rows| > 0
    ensures rows == [rows[0]] + rows[1..]
    ensures HasId(rows, id) <==> rows[0].id == id || HasId(rows[1..], id)
    ensures rows[0].id == id ==> !HasId(rows[1..], id)
  {
    assert rows == [rows[0]] + rows[1..];
  }

  /** `rows` with `row` placed at the position its id calls for. */
  function InsertSorted(rows: seq<CustomLabel>, row: CustomLabel): (r: seq<CustomLabel>)
    requires IdsAscending(rows) && !HasId(rows, row.id)
    ensures IdsAscending(r)
    ensures forall x :: x in r <==> x == row || x in rows
    ensures |r| == |rows| + 1
  {
    if |rows| == 0 then [row]
    else
      assert rows == [rows[0]] + rows[1..];
      if row.id < rows[0].id then [row] + rows
      else
        assert rows[0].id < row.id;
        var rest := InsertSorted(rows[1..], row);
        assert forall x :: x in rest ==> rows[0].id < x.id;
        [rows[0]] + rest
  }

  /** REPLACE: the row with `row`'s id, if any, gives way to `row`. */
  function Upsert(rows: seq<CustomLabel>, row: CustomLabel): (r: seq<CustomLabel>)
    requires IdsAscending(rows)
    ensures IdsAscending(r)
    ensures forall x :: x in r <==> x == row || (x in rows && x.id != row.id)
    ensures |r| == if HasId(rows, row.id) then |rows| else |rows| + 1
  {
    WithoutIdSize(rows, row.id);
    InsertSorted(WithoutId(rows, row.id), row)
  }

  /** The rows whose category is `category`, in table order. */
  function WithCategory(rows: seq<CustomLabel>, category: string): (r: seq<CustomLabel>)
    requires IdsAscending(rows)
    ensures IdsAscending(r)
    ensures forall x :: x in r <==> x in rows && x.mlKitCategory == category
    ensures |r| <= |rows|
  {
    if |rows| == 0 then []
    else
      var rest := WithCategory(rows[1..], category);
      assert rows == [rows[0]] + rows[1..];
      if rows[0].mlKitCategory == category then [rows[0]] + rest else rest
  }

  // ---------------------------------------------------------------------------
  // Laws of the table operations

  /** A table is determined by which rows it holds: there is one ascending order. */
  lemma {:induction false} AscendingUnique(a: seq<CustomLabel>, b: seq<CustomLabel>)
    requires IdsAscending(a) && IdsAscending(b)
    requires forall x :: x in a <==> x in b
    ensures a == b
    decreases |a|
  {
    if |a| > 0 {
      assert a[0] in b;
    }
    if |b| > 0 {
      assert b[0] in a;
    }
    if |a| > 0 && |b| > 0 {
      SameHead(a, b);
      SameTail(a, b);
      AscendingUnique(a[1..], b[1..]);
      assert a == [a[0]] + a[1..] && b == [b[0]] + b[1..];
    }
  }

  /** Two ascending tables with the same rows start with the same row. */
  lemma SameHead(a: seq<CustomLabel>, b: seq<CustomLabel>)
    requires IdsAscending(a) && IdsAscending(b) && |a| > 0 && |b| > 0
    requires forall x :: x in a <==> x in b
    ensures a[0] == b[0]
  {
    assert a[0] in b && b[0] in a;
    var i :| 0 <= i < |b| && b[i] == a[0];
    var j :| 0 <= j < |a| && a[j] == b[0];
  }

  /** ... and then hold the same rows after it. */
  lemma SameTail(a: seq<CustomLabel>, b: seq<CustomLabel>)
    requires IdsAscending(a) && IdsAscending(b) && |a| > 0 && |b| > 0 && a[0] == b[0]
    requires forall x :: x in a <==> x in b
    ensures forall x :: x in a[1..] <==> x in b[1..]
  {
    forall x | x in a[1..] ensures x in b[1..] {
      var k :| 1 <= k < |a| && a[k] == x;
      assert x in b && x != b[0];
    }
    forall x | x in b[1..] ensures x in a[1..] {
      var k :| 1 <= k < |b| && b[k] == x;
      assert x in a && x != a[0];
    }
  }

  /** Deleting the id of a record just inserted under a new id restores the table. */
  lemma DeleteUndoesFreshInsert(rows: seq<CustomLabel>, row: CustomLabel)
    requires IdsAscending(rows) && !HasId(rows, row.id)
    ensures WithoutId(Upsert(rows, row), row.id) == rows
  {
    var r := WithoutId(Upsert(rows, row), row.id);
    AscendingUnique(r, rows);
  }

  /** Inserting the same record twice is the same as inserting it once. */
  lemma UpsertIdempotent(rows: seq<CustomLabel>, row: CustomLabel)
    requires IdsAscending(rows)
    ensures Upsert(Upsert(rows, row), row) == Upsert(rows, row)
  {
    var once := Upsert(rows, row);
    AscendingUnique(Upsert(once, row), once);
  }

  // ---------------------------------------------------------------------------
  // The table as a mutable object

  class Table {
    /** The rows, in scan order. */
    var rows: seq<CustomLabel>
    /** The largest id the table has ever held (0 before any). */
    var lastId: int

    ghost predicate Valid()
      reads this
    {
      && IdsAscending(rows)
      && 0 <= lastId
      && forall x :: x in rows ==> x.id <= lastId
    }

    /** A freshly created, empty table. */
    constructor ()
      ensures Valid() && rows == [] && lastId == 0
    {
      rows := [];
      lastId := 0;
    }

    /**
     * `@Insert(onConflict = REPLACE)`: returns the id the record was stored
     * under. Id 0 asks for a generated id, which no stored record has.
     */
    method Insert(row: CustomLabel) returns (id: int)
      requires Valid()
      modifies this
      ensures Valid()
      ensures id == AssignedId(row.id, old(lastId))
      ensures row.id == 0 ==> !HasId(old(rows), id)
      ensures rows == Upsert(old(rows), row.(id := id))
      ensures lastId == if id > old(lastId) then id else old(lastId)
      ensures |rows| == if HasId(old(rows), id) then |old(rows)| else |old(rows)| + 1
    {
      id := AssignedId(row.id, lastId);
      rows := Upsert(rows, row.(id := id));
      if id > lastId {
        lastId := id;
      }
    }

    /** `SELECT * WHERE mlKitCategory = :category`: exactly the stored records of that category. */
    function GetAllByCategory(category: string): (r: seq<CustomLabel>)
      requires Valid()
      reads this
      ensures IdsAscending(r)
      ensures forall x :: x in r <==> x in rows && x.mlKitCategory == category
    {
      WithCategory(rows, category)
    }

    /** `SELECT *`: every stored record, once, in id order. */
    function GetAll(): (r: seq<CustomLabel>)
      requires Valid()
      reads this
      ensures IdsAscending(r)
      ensures forall x :: x in r <==> x in rows
    {
      rows
    }

    /** `DELETE WHERE id = :id`: only the record with that id goes; an absent id changes nothing. */
    method DeleteById(id: int)
      requires Valid()
      modifies this
      ensures Valid()
      ensures rows == WithoutId(old(rows), id)
      ensures forall x :: x in rows <==> x in old(rows) && x.id != id
      ensures !HasId(old(rows), id) ==> rows == old(rows)
      ensures lastId == old(lastId)
    {
      WithoutIdSize(rows, id);
      rows := WithoutId(rows, id);
    }
  }
}
