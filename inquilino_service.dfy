/**
 * `InquilinoService`: builds an `Inquilino` through its setters, enforces
 * the no-duplicate-name rule on create only, and writes to the tenant table.
 */
module InquilinoServices {
  import opened Wrappers
  import opened Validators
  import opened Entities
  import opened Tables
  import Text

  /** A row of the tenant table, as `InquilinoDAO.create` inserts it. */
  datatype InquilinoRow = InquilinoRow(
    nome: string, email: string, telefone: string, requisicao: Value, cpf: string)

  /** The body of a create or update request, each key read with `dict.get`. */
  datatype InquilinoRequest = InquilinoRequest(
    nomeInquilino: Value, email: Value, telefone: Value, requisicao: Value, cpf: Value)

  /**
   * The setters `nomeInquilino`, `email`, `telefone`, `requisicao` and `cpf`,
   * run in that order; the first one that raises decides the error.
   */
  function InquilinoFields(req: InquilinoRequest): Result<InquilinoRow, ServiceError>
  {
    match Name(req.nomeInquilino)
    case Failure(e) => Failure(Invalid(NomeInquilino, e))
    case Success(n) =>
      match Email(req.email)
      case Failure(e) => Failure(Invalid(EmailField, e))
      case Success(m) =>
        match Phone(req.telefone)
        case Failure(e) => Failure(Invalid(Telefone, e))
        case Success(t) =>
          match Cpf(req.cpf)
          case Failure(e) => Failure(Invalid(CpfField, e))
          case Success(c) => Success(InquilinoRow(n, m, t, req.requisicao, c))
  }

  /** Every stored field obeys its setter's rule. */
  lemma FieldsAreValid(req: InquilinoRequest)
    requires InquilinoFields(req).Success?
    ensures var row := InquilinoFields(req).value;
      Name(Str(row.nome)) == Success(row.nome)
      && Email(Str(row.email)) == Success(row.email)
      && PhoneOk(row.telefone) && CpfOk(row.cpf)
      && row.requisicao == req.requisicao
  {
    NameIdempotent(req.nomeInquilino);
    var m := Email(req.email).value;
    EmailAccepts(req.email);
    EmailAccepts(Str(m));
    Text.StripIdempotent(req.email.s);
  }

  /** The name a tenant row is looked up by. */
  function NomeOf(row: InquilinoRow): string
  {
    row.nome
  }

  class InquilinoService {
    const dao: Table<InquilinoRow>

    constructor (dao: Table<InquilinoRow>)
      ensures this.dao == dao
    {
      this.dao := dao;
    }

    /** Builds an `Inquilino` from the request, stopping at the first setter that raises. */
    method BuildInquilino(req: InquilinoRequest) returns (r: Result<InquilinoRow, ServiceError>)
      ensures r == InquilinoFields(req)
    {
      var inquilino := new Inquilino();
      var o := inquilino.SetNomeInquilino(req.nomeInquilino);
      if o.Fail? {
        return Failure(Invalid(NomeInquilino, o.error));
      }
      var nome := inquilino.nomeInquilino.value;
      o := inquilino.SetEmail(req.email);
      if o.Fail? {
        return Failure(Invalid(EmailField, o.error));
      }
      var email := inquilino.email.value;
      o := inquilino.SetTelefone(req.telefone);
      if o.Fail? {
        return Failure(Invalid(Telefone, o.error));
      }
      var telefone := inquilino.telefone.value;
      inquilino.SetRequisicao(req.requisicao);
      var requisicao := inquilino.requisicao;
      o := inquilino.SetCpf(req.cpf);
      if o.Fail? {
        return Failure(Invalid(CpfField, o.error));
      }
      r := Success(InquilinoRow(nome, email, telefone, requisicao, inquilino.cpf.value));
    }

    /**
     * `createInquilino`: validate every field, refuse a name already in
     * use, then insert exactly one row and return its id.
     */
    method CreateInquilino(req: InquilinoRequest) returns (r: Result<int, ServiceError>)
      requires dao.Valid()
      modifies dao
      ensures dao.Valid()
      ensures match InquilinoFields(req)
        case Failure(e) => r == Failure(e) && dao.rows == old(dao.rows)
        case Success(row) =>
          if NameTaken(old(dao.rows), NomeOf, row.nome) then
            r == Failure(AlreadyExists) && dao.rows == old(dao.rows)
          else
            r.Success? && r.value >= 1 && r.value !in old(dao.rows)
            && dao.rows == old(dao.rows)[r.value := row]
      ensures UniqueNames(old(dao.rows), NomeOf) ==> UniqueNames(dao.rows, NomeOf)
    {
      var fields := BuildInquilino(req);
      if fields.Failure? {
        return Failure(fields.error);
      }
      var row := fields.value;
      var taken := NameTaken(dao.rows, NomeOf, row.nome);
      if taken {
        return Failure(AlreadyExists);
      }
      var id := dao.Create(row);
      r := Success(id);
    }

    /** `findById`: the id passes the `idInquilino` setter before the lookup. */
    method FindById(idInquilino: Value) returns (r: Result<Option<InquilinoRow>, ServiceError>)
      ensures PositiveInt(idInquilino).Failure? ==>
        r == Failure(Invalid(IdInquilino, PositiveInt(idInquilino).error))
      ensures PositiveInt(idInquilino).Success? ==>
        var id := PositiveInt(idInquilino).value;
        r.Success? && (r.value.Some? <==> id in dao.rows) && (r.value.Some? ==> r.value.value == dao.rows[id])
    {
      var inquilino := new Inquilino();
      var o := inquilino.SetIdInquilino(idInquilino);
      if o.Fail? {
        return Failure(Invalid(IdInquilino, o.error));
      }
      var row := dao.FindById(inquilino.idInquilino.value);
      r := Success(row);
    }

    /** `findAll`: every tenant row. */
    method FindAll() returns (all: map<int, InquilinoRow>)
      ensures all == dao.rows
    {
      all := dao.FindAll();
    }

    /**
     * `updateInquilino`: validate the id and then every field, update; no
     * duplicate-name rule. Returns whether a row matched.
     */
    method UpdateInquilino(idInquilino: Value, req: InquilinoRequest) returns (r: Result<bool, ServiceError>)
      requires dao.Valid()
      modifies dao
      ensures dao.Valid()
      ensures PositiveInt(idInquilino).Failure? ==>
        r == Failure(Invalid(IdInquilino, PositiveInt(idInquilino).error)) && dao.rows == old(dao.rows)
      ensures PositiveInt(idInquilino).Success? && InquilinoFields(req).Failure? ==>
        r == Failure(InquilinoFields(req).error) && dao.rows == old(dao.rows)
      ensures PositiveInt(idInquilino).Success? && InquilinoFields(req).Success? ==>
        var id := PositiveInt(idInquilino).value;
        r == Success(id in old(dao.rows))
        && dao.rows == if id in old(dao.rows) then old(dao.rows)[id := InquilinoFields(req).value] else old(dao.rows)
    {
      var inquilino := new Inquilino();
      var o := inquilino.SetIdInquilino(idInquilino);
      if o.Fail? {
        return Failure(Invalid(IdInquilino, o.error));
      }
      var fields := BuildInquilino(req);
      if fields.Failure? {
        return Failure(fields.error);
      }
      var matched := dao.Update(inquilino.idInquilino.value, fields.value);
      r := Success(matched);
    }

    /** `deleteInquilino`: validate the id, then delete; returns whether a row was removed. */
    method DeleteInquilino(idInquilino: Value) returns (r: Result<bool, ServiceError>)
      requires dao.Valid()
      modifies dao
      ensures dao.Valid()
      ensures PositiveInt(idInquilino).Failure? ==>
        r == Failure(Invalid(IdInquilino, PositiveInt(idInquilino).error)) && dao.rows == old(dao.rows)
      ensures PositiveInt(idInquilino).Success? ==>
        var id := PositiveInt(idInquilino).value;
        r == Success(id in old(dao.rows)) && dao.rows == old(dao.rows) - {id}
    {
      var inquilino := new Inquilino();
      var o := inquilino.SetIdInquilino(idInquilino);
      if o.Fail? {
        return Failure(Invalid(IdInquilino, o.error));
      }
      var removed := dao.Delete(inquilino.idInquilino.value);
      r := Success(removed);
    }
  }
}
