/**
 * An in-memory stand-in for one database table behind a DAO: rows keyed by
 * an auto-increment id, with the DAO's `create`, `update`, `delete`,
 * `findById` and `findAll`.
 */
module Tables {
  import opened Wrappers

  class Table<T> {
    var rows: map<int, T>
    /** The next value of the table's auto-increment counter. */
    var nextId: int

    ghost predicate Valid()
      reads this
    {
      nextId >= 1 && forall id :: id in rows ==> 1 <= id < nextId
    }

    constructor ()
      ensures Valid() && rows == map[]
    {
      rows, nextId := map[], 1;
    }

    /** `INSERT`: the row gets a fresh, non-zero id, which is returned. */
    method Create(x: T) returns (id: int)
      requires Valid()
      modifies this
      ensures Valid()
      ensures id >= 1 && id !in old(rows) && rows == old(rows)[id := x]
    {
      id := nextId;
      rows := rows[id := x];
      nextId := nextId + 1;
    }

    /** `UPDATE ... WHERE id`: true iff a row matched, and only that row changes. */
    method Update(id: int, x: T) returns (matched: bool)
      requires Valid()
      modifies this
      ensures Valid()
      ensures matched == (id in old(rows))
      ensures rows == if matched then old(rows)[id := x] else old(rows)
    {
      matched := id in rows;
      if matched {
        rows := rows[id := x];
      }
    }

    /** `DELETE ... WHERE id`: true iff a row was removed. */
    method Delete(id: int) returns (removed: bool)
      requires Valid()
      modifies this
      ensures Valid()
      ensures removed == (id in old(rows))
      ensures rows == old(rows) - {id}
    {
      removed := id in rows;
      rows := rows - {id};
    }

    /** `findById`: the row with that id, or none. */
    method FindById(id: int) returns (r: Option<T>)
      ensures r.Some? <==> id in rows
      ensures r.Some? ==> r.value == rows[id]
    {
      r := if id in rows then Some(rows[id]) else None;
    }

    /** `findAll`: every row. */
    method FindAll() returns (all: map<int, T>)
      ensures all == rows
    {
      all := rows;
    }
  }

  /** `findByField("nome", nome)` finds at least one row; `nameOf` reads a row's name. */
  predicate NameTaken<T>(rows: map<int, T>, nameOf: T -> string, nome: string)
  {
    exists id :: id in rows && nameOf(rows[id]) == nome
  }

  /** No two rows share a name. */
  ghost predicate UniqueNames<T>(rows: map<int, T>, nameOf: T -> string)
  {
    forall a, b :: a in rows && b in rows && a != b ==> nameOf(rows[a]) != nameOf(rows[b])
  }

  /** Inserting a row whose name is not taken keeps names unique. */
  lemma InsertKeepsUniqueNames<T>(rows: map<int, T>, nameOf: T -> string, id: int, row: T)
    requires id !in rows && !NameTaken(rows, nameOf, nameOf(row))
    ensures UniqueNames(rows, nameOf) ==> UniqueNames(rows[id := row], nameOf)
  {
  }
}
