/**
 * `ReservaPublicaService`: the booking form of the public web site. It
 * checks that the required form fields are present, compares the two
 * dates as the form sent them, maps the chalet code to a chalet id and
 * hands a reservation for the fixed public tenant to `ReservaService`.
 */
module PublicIntake {
  import opened Wrappers
  import opened Text
  import opened Dates
  import opened Reservations
  import opened ReservationServices

  /** The tenant every public reservation is booked for. */
  const ID_INQUILINO_PUBLICO: int := 999

  /** The chalet codes the site offers and the chalet ids they stand for. */
  const MAPEAMENTO_CHALES: map<string, int> := map["romantico" := 13, "familiar" := 14, "premium" := 26]

  /** The form fields that must be present and truthy, in the order they are reported. */
  const OBRIGATORIOS: seq<string> :=
    ["nome", "email", "telefone", "chale_desejado", "data_inicio", "data_fim", "numero_pessoas"]

  /** The decoded JSON form: field name to value. */
  type Form = map<string, Value>

  /** Why the public intake refuses a form. */
  datatype IntakeError =
    | MissingFields(fields: seq<string>)  // "Campos obrigatórios faltando: ..."
    | CheckOutNotAfterCheckIn             // "Data de check-out deve ser posterior ao check-in"
    | TypeError                           // `<=` between values Python cannot order
    | AttributeError                      // `.lower()` on a chalet code that is not a string
    | UnknownChalet(code: string)         // "Chalé '...' não encontrado. ..."
    | Admission(error: AdmissionError)    // raised by `createReserva`

  /** `dados.get(campo)`. */
  function Get(form: Form, field: string): Value
  {
    if field in form then form[field] else Null
  }

  /** `a` is `b` with some elements left out and the rest kept in their order. */
  predicate Subsequence(a: seq<string>, b: seq<string>)
  {
    if a == [] then true
    else if b == [] then false
    else (a[0] == b[0] && Subsequence(a[1..], b[1..])) || Subsequence(a, b[1..])
  }

  /** No element occurs twice. */
  predicate Distinct(s: seq<string>)
  {
    forall i, j :: 0 <= i < j < |s| ==> s[i] != s[j]
  }

  /**
   * The fields of `fields` whose value is missing or falsy: exactly those,
   * in the order of `fields`, each once when `fields` names it once.
   */
  function Missing(form: Form, fields: seq<string>): (f: seq<string>)
    ensures forall c :: c in f <==> c in fields && !Truthy(Get(form, c))
    ensures Subsequence(f, fields)
    ensures Distinct(fields) ==> Distinct(f)
  {
    if fields == [] then []
    else
      var rest := Missing(form, fields[1..]);
      if Truthy(Get(form, fields[0])) then rest
      else
        var f := [fields[0]] + rest;
        assert f[1..] == rest;
        assert Distinct(fields) ==> fields[0] !in fields[1..];
        f
  }

  /** `[campo for campo in obrigatorios if not dados.get(campo)]`, in the declared order. */
  function Faltantes(form: Form): (f: seq<string>)
    ensures forall c :: c in f <==> c in OBRIGATORIOS && !Truthy(Get(form, c))
    ensures Subsequence(f, OBRIGATORIOS) && Distinct(f)
  {
    RequiredFieldsDistinct();
    Missing(form, OBRIGATORIOS)
  }

  /** The required fields are declared once each. */
  lemma RequiredFieldsDistinct()
    ensures Distinct(OBRIGATORIOS)
  {
  }

  /** Python's `a <= b` for request values: strings and integers among themselves. */
  function LessEq(a: Value, b: Value): (r: Result<bool, IntakeError>)
    ensures r.Failure? <==> !((a.Str? && b.Str?) || (a.Int? && b.Int?))
    ensures r.Failure? ==> r.error == TypeError
  {
    match (a, b)
    case (Str(s), Str(t)) => Success(LexLess(s, t) || s == t)
    case (Int(i), Int(j)) => Success(i <= j)
    case _ => Failure(TypeError)
  }

  /** `_validar_dados_obrigatorios`: required fields first, then the date order. */
  function ValidarDadosObrigatorios(form: Form): (o: Outcome<IntakeError>)
    ensures o.Pass? ==> forall c :: c in OBRIGATORIOS ==> Truthy(Get(form, c))
    ensures o.Pass? ==> LessEq(Get(form, "data_fim"), Get(form, "data_inicio")) == Success(false)
    ensures o.Fail? ==> o.error.MissingFields? || o.error == CheckOutNotAfterCheckIn || o.error == TypeError
    ensures ((forall c :: c in OBRIGATORIOS ==> Truthy(Get(form, c)))
             && LessEq(Get(form, "data_fim"), Get(form, "data_inicio")) == Success(false)) ==> o.Pass?
  {
    var faltantes := Faltantes(form);
    if faltantes != [] then assert faltantes[0] in faltantes; Fail(MissingFields(faltantes))
    else match LessEq(Get(form, "data_fim"), Get(form, "data_inicio"))
      case Failure(e) => Fail(e)
      case Success(notAfter) => if notAfter then Fail(CheckOutNotAfterCheckIn) else Pass
  }

  /** ASCII upper case to lower case; every other character is kept. */
  function LowerChar(c: char): (d: char)
    ensures !('A' <= d <= 'Z')
    ensures !('A' <= c <= 'Z') ==> d == c
  {
    if 'A' <= c <= 'Z' then (c as int - 'A' as int + 'a' as int) as char else c
  }

  /** `s.lower()` on ASCII letters. */
  function Lower(s: string): (r: string)
    ensures |r| == |s|
    ensures forall i :: 0 <= i < |s| ==> r[i] == LowerChar(s[i])
    ensures forall i :: 0 <= i < |r| ==> !('A' <= r[i] <= 'Z')
    ensures (forall i :: 0 <= i < |s| ==> !('A' <= s[i] <= 'Z')) ==> r == s
  {
    seq(|s|, i requires 0 <= i < |s| => LowerChar(s[i]))
  }

  /** `_mapear_chale`: the chalet id of a code, ignoring ASCII case. */
  function MapearChale(v: Value): (r: Result<int, IntakeError>)
    ensures r.Success? ==> r.value in MAPEAMENTO_CHALES.Values
    ensures r.Success? <==> v.Str? && Lower(v.s) in MAPEAMENTO_CHALES
    ensures r.Success? ==> r.value == MAPEAMENTO_CHALES[Lower(v.s)]
    ensures !v.Str? ==> r == Failure(AttributeError)
  {
    match v
    case Str(s) =>
      if Lower(s) in MAPEAMENTO_CHALES then Success(MAPEAMENTO_CHALES[Lower(s)])
      else Failure(UnknownChalet(s))
    case _ => Failure(AttributeError)
  }

  /** The request `criar_reserva_simples` passes to `createReserva`, or why it stops first. */
  function IntakeRequest(form: Form): (r: Result<ReservaRequest, IntakeError>)
    ensures r.Success? ==>
      && r.value.idInquilino == Some(ID_INQUILINO_PUBLICO)
      && r.value.idChale.Some? && r.value.idChale.value in MAPEAMENTO_CHALES.Values
      && MapearChale(Get(form, "chale_desejado")).Success?
      && r.value.idChale == Some(MapearChale(Get(form, "chale_desejado")).value)
      && r.value.inicio == Get(form, "data_inicio") && r.value.fim == Get(form, "data_fim")
    ensures r.Failure? ==> !r.error.Admission?
  {
    match ValidarDadosObrigatorios(form)
    case Fail(e) => Failure(e)
    case Pass =>
      match MapearChale(Get(form, "chale_desejado"))
      case Failure(e) => Failure(e)
      case Success(idChale) =>
        Success(ReservaRequest(Some(ID_INQUILINO_PUBLICO), Some(idChale),
                               Get(form, "data_inicio"), Get(form, "data_fim")))
  }

  // ---------------------------------------------------------------------
  // Properties
  // ---------------------------------------------------------------------

  /** Codes that differ only in ASCII case map to the same chalet. */
  lemma MapearChaleIgnoresCase(s: string, t: string)
    requires Lower(s) == Lower(t)
    ensures MapearChale(Str(s)).Success? <==> MapearChale(Str(t)).Success?
    ensures MapearChale(Str(s)).Success? ==> MapearChale(Str(s)).value == MapearChale(Str(t)).value
  {
  }

  /** The site codes map to chalets 13, 14 and 26. */
  lemma MapearChaleRomantico()
    ensures MapearChale(Str("romantico")) == Success(13)
  {
    LowerOf("romantico", "romantico");
    assert "romantico" in MAPEAMENTO_CHALES && MAPEAMENTO_CHALES["romantico"] == 13;
  }

  lemma MapearChaleFamiliar()
    ensures MapearChale(Str("familiar")) == Success(14)
  {
    LowerOf("familiar", "familiar");
    assert "familiar" in MAPEAMENTO_CHALES && MAPEAMENTO_CHALES["familiar"] == 14;
  }

  lemma MapearChalePremium()
    ensures MapearChale(Str("premium")) == Success(26)
  {
    LowerOf("premium", "premium");
    assert "premium" in MAPEAMENTO_CHALES && MAPEAMENTO_CHALES["premium"] == 26;
  }

  /** A code in capitals is accepted like its lower-case form. */
  lemma MapearChaleCapitals()
    ensures MapearChale(Str("Romantico")) == Success(13)
  {
    LowerOf("Romantico", "romantico");
    assert "romantico" in MAPEAMENTO_CHALES && MAPEAMENTO_CHALES["romantico"] == 13;
  }

  /** A code the site does not offer, and a code that is not a string, are refused. */
  lemma MapearChaleRefuses()
    ensures MapearChale(Str("suite")) == Failure(UnknownChalet("suite"))
    ensures MapearChale(Int(13)) == Failure(AttributeError)
  {
    LowerOf("suite", "suite");
  }

  lemma LowerOf(s: string, t: string)
    requires |s| == |t| && forall i :: 0 <= i < |s| ==> LowerChar(s[i]) == t[i]
    ensures Lower(s) == t
  {
  }

  /**
   * On two well-formed `YYYY-MM-DD` strings the form's string comparison
   * `fim <= inicio` says exactly that the end is not after the start as
   * dates, so the site's check and `_validar_datas` agree.
   */
  lemma StringCheckMatchesDateOrder(inicio: string, fim: string)
    requires Parse(inicio).Some? && Parse(fim).Some?
    ensures LessEq(Str(fim), Str(inicio)) == Success(!Before(Parse(inicio).value, Parse(fim).value))
  {
    var di, df := Parse(inicio).value, Parse(fim).value;
    FormatParse(inicio);
    FormatParse(fim);
    FormatOrder(di, df);
    LexTrichotomy(inicio, fim);
  }

  /**
   * What the intake hands on: the public tenant, a mapped chalet and the
   * form's own dates, and only when every required field is present and
   * the check-out is not at or before the check-in. For well-formed dates
   * `createReserva` then never finds the end before the start.
   */
  lemma IntakeRequestSpec(form: Form, today: Date)
    ensures IntakeRequest(form).Success? ==>
      var req := IntakeRequest(form).value;
      && Faltantes(form) == []
      && req.idInquilino == Some(ID_INQUILINO_PUBLICO)
      && (forall c :: c in OBRIGATORIOS ==> Truthy(Get(form, c)))
      && req.idChale.Some? && req.idChale.value in MAPEAMENTO_CHALES.Values
      && MapearChale(Get(form, "chale_desejado")).Success?
      && req.idChale == Some(MapearChale(Get(form, "chale_desejado")).value)
      && req.inicio == Get(form, "data_inicio") && req.fim == Get(form, "data_fim")
      && LessEq(req.fim, req.inicio) == Success(false)
      && (req.inicio.Str? && req.fim.Str? && Parse(req.inicio.s).Some? && Parse(req.fim.s).Some?
          ==> EndNotAfterStart !in DateErrors(req.inicio, req.fim, today))
    ensures Faltantes(form) != [] ==> IntakeRequest(form) == Failure(MissingFields(Faltantes(form)))
  {
    if IntakeRequest(form).Success? {
      var req := IntakeRequest(form).value;
      assert ValidarDadosObrigatorios(form) == Pass;
      assert Faltantes(form) == [];
      var chale := MapearChale(Get(form, "chale_desejado"));
      assert chale.Success? && req.idChale == Some(chale.value);
      if req.inicio.Str? && req.fim.Str? && Parse(req.inicio.s).Some? && Parse(req.fim.s).Some? {
        StringCheckMatchesDateOrder(req.inicio.s, req.fim.s);
        DateErrorsReport(req.inicio, req.fim, today);
      }
    }
  }

  /** The site's service, wrapping the reservation service it delegates to. */
  class ReservaPublicaService {
    const reservaService: ReservaService

    constructor (reservaService: ReservaService)
      ensures this.reservaService == reservaService
    {
      this.reservaService := reservaService;
    }

    /**
     * `criar_reserva_simples`: a form refused by the intake leaves the
     * reservations untouched; otherwise the outcome is exactly that of
     * `createReserva` on the public tenant's request, so the chalet
     * schedule stays free of overlaps.
     */
    method CriarReservaSimples(form: Form, today: Date) returns (r: Result<int, IntakeError>)
      requires reservaService.reservas.Valid()
      modifies reservaService.reservas
      ensures reservaService.reservas.Valid()
      ensures IntakeRequest(form).Failure? ==>
        r == Failure(IntakeRequest(form).error) && reservaService.reservas.rows == old(reservaService.reservas.rows)
      ensures IntakeRequest(form).Success? ==>
        match DecideCreate(old(reservaService.inquilinos.rows).Keys, old(reservaService.chales.rows).Keys,
                           old(reservaService.reservas.rows), IntakeRequest(form).value, today)
        case Reject(e) =>
          r == Failure(Admission(e)) && reservaService.reservas.rows == old(reservaService.reservas.rows)
        case Admit(row) =>
          r.Success? && r.value !in old(reservaService.reservas.rows)
          && reservaService.reservas.rows == old(reservaService.reservas.rows)[r.value := row]
      ensures NoOverlap(old(reservaService.reservas.rows)) ==> NoOverlap(reservaService.reservas.rows)
    {
      var checked := ValidarDadosObrigatorios(form);
      if checked.Fail? {
        return Failure(checked.error);
      }
      var chale := MapearChale(Get(form, "chale_desejado"));
      if chale.Failure? {
        return Failure(chale.error);
      }
      var req := ReservaRequest(Some(ID_INQUILINO_PUBLICO), Some(chale.value),
                                Get(form, "data_inicio"), Get(form, "data_fim"));
      var created := reservaService.CreateReserva(req, today);
      r := match created
        case Success(id) => Success(id)
        case Failure(e) => Failure(Admission(e));
    }
  }
}
