/**
 * `ChaleService`: builds a `Chale` through its setters, enforces the
 * no-duplicate-name rule on create only, and writes to the chalet table.
 */
module ChaleServices {
  import opened Wrappers
  import opened Validators
  import opened Entities
  import opened Tables

  /** A row of the chalet table, as `ChaleDAO.create` inserts it. */
  datatype ChaleRow = ChaleRow(nome: string, capacidade: int)

  /** The body of a create or update request, each key read with `dict.get`. */
  datatype ChaleRequest = ChaleRequest(nome: Value, capacidade: Value)

  /** The setters `nome` then `capacidade`, run in that order; the first failure wins. */
  function ChaleFields(req: ChaleRequest): Result<ChaleRow, ServiceError>
  {
    match Name(req.nome)
    case Failure(e) => Failure(Invalid(Nome, e))
    case Success(n) =>
      match PositiveInt(req.capacidade)
      case Failure(e) => Failure(Invalid(Capacidade, e))
      case Success(c) => Success(ChaleRow(n, c))
  }

  /** The name a chalet row is looked up by. */
  function NomeOf(row: ChaleRow): string
  {
    row.nome
  }

  /**
   * `updateChale` has no duplicate-name rule: in any table with unique
   * names, renaming chalet `b` to the name of another chalet `a` passes
   * every setter, and the row `UpdateChale` then writes under id `b`
   * leaves two chalets with one name.
   */
  lemma UpdateMayDuplicateName(rows: map<int, ChaleRow>, a: int, b: int, capacidade: Value)
    requires UniqueNames(rows, NomeOf) && a in rows && b in rows && a != b && b >= 1
    requires Name(Str(rows[a].nome)) == Success(rows[a].nome)
    requires PositiveInt(capacidade).Success?
    ensures PositiveInt(Int(b)) == Success(b)
    ensures var req := ChaleRequest(Str(rows[a].nome), capacidade);
      ChaleFields(req).Success? && ChaleFields(req).value.nome == rows[a].nome
      && !UniqueNames(rows[b := ChaleFields(req).value], NomeOf)
  {
    var req := ChaleRequest(Str(rows[a].nome), capacidade);
    var updated := rows[b := ChaleFields(req).value];
    assert NomeOf(updated[a]) == NomeOf(updated[b]);
  }

  class ChaleService {
    const dao: Table<ChaleRow>

    constructor (dao: Table<ChaleRow>)
      ensures this.dao == dao
    {
      this.dao := dao;
    }

    /** Builds a `Chale` from the request, stopping at the first setter that raises. */
    method BuildChale(req: ChaleRequest) returns (r: Result<ChaleRow, ServiceError>)
      ensures r == ChaleFields(req)
    {
      var chale := new Chale();
      var o := chale.SetNome(req.nome);
      if o.Fail? {
        return Failure(Invalid(Nome, o.error));
      }
      o := chale.SetCapacidade(req.capacidade);
      if o.Fail? {
        return Failure(Invalid(Capacidade, o.error));
      }
      r := Success(ChaleRow(chale.nome.value, chale.capacidade.value));
    }

    /**
     * `createChale`: validate, refuse a name already in use, then insert
     * exactly one row and return its id.
     */
    method CreateChale(req: ChaleRequest) returns (r: Result<int, ServiceError>)
      requires dao.Valid()
      modifies dao
      ensures dao.Valid()
      ensures match ChaleFields(req)
        case Failure(e) => r == Failure(e) && dao.rows == old(dao.rows)
        case Success(row) =>
          if NameTaken(old(dao.rows), NomeOf, row.nome) then
            r == Failure(AlreadyExists) && dao.rows == old(dao.rows)
          else
            r.Success? && r.value >= 1 && r.value !in old(dao.rows)
            && dao.rows == old(dao.rows)[r.value := row]
      ensures UniqueNames(old(dao.rows), NomeOf) ==> UniqueNames(dao.rows, NomeOf)
    {
      var fields := BuildChale(req);
      if fields.Failure? {
        return Failure(fields.error);
      }
      var row := fields.value;
      var taken := NameTaken(dao.rows, NomeOf, row.nome);
      if taken {
        return Failure(AlreadyExists);
      }
      var id := dao.Create(row);
      r := Success(id);
      InsertKeepsUniqueNames(old(dao.rows), NomeOf, id, row);
    }

    /** `findById`: the id passes the `idChale` setter before the lookup. */
    method FindById(idChale: Value) returns (r: Result<Option<ChaleRow>, ServiceError>)
      ensures PositiveInt(idChale).Failure? ==> r == Failure(Invalid(IdChale, PositiveInt(idChale).error))
      ensures PositiveInt(idChale).Success? ==>
        var id := PositiveInt(idChale).value;
        r.Success? && (r.value.Some? <==> id in dao.rows) && (r.value.Some? ==> r.value.value == dao.rows[id])
    {
      var chale := new Chale();
      var o := chale.SetIdChale(idChale);
      if o.Fail? {
        return Failure(Invalid(IdChale, o.error));
      }
      var row := dao.FindById(chale.idChale.value);
      r := Success(row);
    }

    /** `findAll`: every chalet row. */
    method FindAll() returns (all: map<int, ChaleRow>)
      ensures all == dao.rows
    {
      all := dao.FindAll();
    }

    /**
     * `updateChale`: validate id, name and capacity in that order, then
     * update; no duplicate-name rule. Returns whether a row matched.
     */
    method UpdateChale(idChale: Value, req: ChaleRequest) returns (r: Result<bool, ServiceError>)
      requires dao.Valid()
      modifies dao
      ensures dao.Valid()
      ensures PositiveInt(idChale).Failure? ==>
        r == Failure(Invalid(IdChale, PositiveInt(idChale).error)) && dao.rows == old(dao.rows)
      ensures PositiveInt(idChale).Success? && ChaleFields(req).Failure? ==>
        r == Failure(ChaleFields(req).error) && dao.rows == old(dao.rows)
      ensures PositiveInt(idChale).Success? && ChaleFields(req).Success? ==>
        var id := PositiveInt(idChale).value;
        r == Success(id in old(dao.rows))
        && dao.rows == if id in old(dao.rows) then old(dao.rows)[id := ChaleFields(req).value] else old(dao.rows)
    {
      var chale := new Chale();
      var o := chale.SetIdChale(idChale);
      if o.Fail? {
        return Failure(Invalid(IdChale, o.error));
      }
      var fields := BuildChale(req);
      if fields.Failure? {
        return Failure(fields.error);
      }
      var matched := dao.Update(chale.idChale.value, fields.value);
      r := Success(matched);
    }

    /** `deleteChale`: validate the id, then delete; returns whether a row was removed. */
    method DeleteChale(idChale: Value) returns (r: Result<bool, ServiceError>)
      requires dao.Valid()
      modifies dao
      ensures dao.Valid()
      ensures PositiveInt(idChale).Failure? ==>
        r == Failure(Invalid(IdChale, PositiveInt(idChale).error)) && dao.rows == old(dao.rows)
      ensures PositiveInt(idChale).Success? ==>
        var id := PositiveInt(idChale).value;
        r == Success(id in old(dao.rows)) && dao.rows == old(dao.rows) - {id}
    {
      var chale := new Chale();
      var o := chale.SetIdChale(idChale);
      if o.Fail? {
        return Failure(Invalid(IdChale, o.error));
      }
      var removed := dao.Delete(chale.idChale.value);
      r := Success(removed);
    }
  }
}
