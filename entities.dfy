/**
 * The `Chale` and `Inquilino` entities: objects whose private fields start
 * unset and are assigned only through validating setters. A setter that
 * rejects its value raises before assigning, so the field keeps its value.
 */
module Entities {
  import opened Wrappers
  import opened Validators

  /** The field a service names when one of its setters raises. */
  datatype Field =
    | IdChale | Nome | Capacidade
    | IdInquilino | NomeInquilino | EmailField | Telefone | CpfField

  /** What a chalet or tenant service operation raises. */
  datatype ServiceError =
    | Invalid(field: Field, reason: Reason)   // a setter raised
    | AlreadyExists                           // the duplicate-name rule

  class Chale {
    var idChale: Option<int>
    var nome: Option<string>
    var capacidade: Option<int>

    constructor ()
      ensures idChale == None && nome == None && capacidade == None
    {
      idChale, nome, capacidade := None, None, None;
    }

    method SetIdChale(v: Value) returns (o: Outcome<Reason>)
      modifies this`idChale
      ensures match PositiveInt(v)
        case Success(n) => o == Pass && idChale == Some(n)
        case Failure(e) => o == Fail(e) && idChale == old(idChale)
    {
      var r := PositiveInt(v);
      if r.Failure? {
        return Fail(r.error);
      }
      idChale := Some(r.value);
      o := Pass;
    }

    method SetNome(v: Value) returns (o: Outcome<Reason>)
      modifies this`nome
      ensures match Name(v)
        case Success(n) => o == Pass && nome == Some(n)
        case Failure(e) => o == Fail(e) && nome == old(nome)
    {
      var r := Name(v);
      if r.Failure? {
        return Fail(r.error);
      }
      nome := Some(r.value);
      o := Pass;
    }

    method SetCapacidade(v: Value) returns (o: Outcome<Reason>)
      modifies this`capacidade
      ensures match PositiveInt(v)
        case Success(n) => o == Pass && capacidade == Some(n)
        case Failure(e) => o == Fail(e) && capacidade == old(capacidade)
    {
      var r := PositiveInt(v);
      if r.Failure? {
        return Fail(r.error);
      }
      capacidade := Some(r.value);
      o := Pass;
    }
  }

  class Inquilino {
    var idInquilino: Option<int>
    var nomeInquilino: Option<string>
    var email: Option<string>
    var telefone: Option<string>
    var requisicao: Value
    var cpf: Option<string>

    constructor ()
      ensures idInquilino == None && nomeInquilino == None && email == None
      ensures telefone == None && requisicao == Null && cpf == None
    {
      idInquilino, nomeInquilino, email := None, None, None;
      telefone, requisicao, cpf := None, Null, None;
    }

    method SetIdInquilino(v: Value) returns (o: Outcome<Reason>)
      modifies this`idInquilino
      ensures match PositiveInt(v)
        case Success(n) => o == Pass && idInquilino == Some(n)
        case Failure(e) => o == Fail(e) && idInquilino == old(idInquilino)
    {
      var r := PositiveInt(v);
      if r.Failure? {
        return Fail(r.error);
      }
      idInquilino := Some(r.value);
      o := Pass;
    }

    method SetNomeInquilino(v: Value) returns (o: Outcome<Reason>)
      modifies this`nomeInquilino
      ensures match Name(v)
        case Success(n) => o == Pass && nomeInquilino == Some(n)
        case Failure(e) => o == Fail(e) && nomeInquilino == old(nomeInquilino)
    {
      var r := Name(v);
      if r.Failure? {
        return Fail(r.error);
      }
      nomeInquilino := Some(r.value);
      o := Pass;
    }

    method SetEmail(v: Value) returns (o: Outcome<Reason>)
      modifies this`email
      ensures match Email(v)
        case Success(e) => o == Pass && email == Some(e)
        case Failure(e) => o == Fail(e) && email == old(email)
    {
      var r := Email(v);
      if r.Failure? {
        return Fail(r.error);
      }
      email := Some(r.value);
      o := Pass;
    }

    method SetTelefone(v: Value) returns (o: Outcome<Reason>)
      modifies this`telefone
      ensures match Phone(v)
        case Success(t) => o == Pass && telefone == Some(t)
        case Failure(e) => o == Fail(e) && telefone == old(telefone)
    {
      var r := Phone(v);
      if r.Failure? {
        return Fail(r.error);
      }
      telefone := Some(r.value);
      o := Pass;
    }

    /** `requisicao` is not validated: any value is stored as given. */
    method SetRequisicao(v: Value)
      modifies this`requisicao
      ensures requisicao == v
    {
      requisicao := v;
    }

    method SetCpf(v: Value) returns (o: Outcome<Reason>)
      modifies this`cpf
      ensures match Cpf(v)
        case Success(c) => o == Pass && cpf == Some(c)
        case Failure(e) => o == Fail(e) && cpf == old(cpf)
    {
      var r := Cpf(v);
      if r.Failure? {
        return Fail(r.error);
      }
      cpf := Some(r.value);
      o := Pass;
    }
  }
}
