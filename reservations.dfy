/**
 * The reservation admission rules of `ReservaService`, stated as pure
 * functions over the reservation table: date validation, the half-open
 * overlap test, and the decision `createReserva` and `updateReserva` reach.
 * The service methods are proved against these definitions.
 */
module Reservations {
  import opened Wrappers
  import opened Text
  import opened Dates

  /** A row of the reservation table, as `ReservaDAO.create` inserts it. */
  datatype Reserva = Reserva(idInquilino: int, idChale: int, inicio: string, fim: string)

  /**
   * The fields of a create or update request. The foreign keys are `None`
   * when the key is missing or `null`; the dates are whatever the body holds.
   */
  datatype ReservaRequest = ReservaRequest(
    idInquilino: Option<int>, idChale: Option<int>, inicio: Value, fim: Value)

  /** The messages `_validar_datas` collects, in the order it appends them. */
  datatype DateError =
    | StartUnparsable     // "Data de início inválida ..."
    | EndUnparsable       // "Data de fim inválida ..."
    | EndNotAfterStart    // "Data de fim deve ser posterior ..."
    | StartInPast         // "Data de início não pode ser anterior a hoje."

  /** What `createReserva` and `updateReserva` raise. */
  datatype AdmissionError =
    | TenantNotFound
    | ChaletNotFound
    | InvalidDates(errors: seq<DateError>)
    | Conflict

  // ---------------------------------------------------------------------
  // Dates
  // ---------------------------------------------------------------------

  /** `datetime.strptime(str(v), "%Y-%m-%d").date()`, `None` where it raises. */
  function ParseDateValue(v: Value): Option<Date>
  {
    Parse(PyStr(v))
  }

  /** `_normalizar_data`: a string is parsed; `None` and other types give `None`. */
  function NormalizarData(v: Value): (r: Option<Date>)
    ensures r.Some? ==> v.Str? && ValidDate(r.value) && Format(r.value) == v.s
  {
    match v
    case Null => None
    case Int(_) => None
    case Str(s) => if Parse(s).None? then None else FormatParse(s); Parse(s)
  }

  /**
   * The overlap check normalizes a request's dates to exactly the dates
   * the validation parsed, so both steps judge the same interval.
   */
  lemma NormalizeAgreesWithValidation(v: Value)
    ensures NormalizarData(v) == ParseDateValue(v)
  {
    if !v.Str? {
      PyStrOfNonString(v);
    }
  }

  /** Python's `a <= b` on dates. */
  predicate AtOrBefore(a: Date, b: Date)
  {
    Before(a, b) || a == b
  }

  /** The error list `_validar_datas` returns, in the order it appends them. */
  function DateErrors(inicio: Value, fim: Value, today: Date): (e: seq<DateError>)
    ensures |e| <= 2
  {
    var di := ParseDateValue(inicio);
    var df := ParseDateValue(fim);
    (if di.None? then [StartUnparsable] else [])
    + (if df.None? then [EndUnparsable] else [])
    + (if di.Some? && df.Some? && AtOrBefore(df.value, di.value) then [EndNotAfterStart] else [])
    + (if di.Some? && df.Some? && Before(di.value, today) then [StartInPast] else [])
  }

  /**
   * What the error list reports: each unparseable date, and, only when both
   * dates parse, an end not after the start and a start before today. All
   * problems are reported together, each at most once.
   */
  lemma DateErrorsReport(inicio: Value, fim: Value, today: Date)
    ensures var e := DateErrors(inicio, fim, today);
      var di, df := ParseDateValue(inicio), ParseDateValue(fim);
      && (StartUnparsable in e <==> di.None?)
      && (EndUnparsable in e <==> df.None?)
      && (EndNotAfterStart in e <==> di.Some? && df.Some? && !Before(di.value, df.value))
      && (StartInPast in e <==> di.Some? && df.Some? && Before(di.value, today))
      && (e == [] <==> di.Some? && df.Some? && Before(di.value, df.value) && !Before(di.value, today))
      && (forall i, j :: 0 <= i < j < |e| ==> e[i] != e[j])
  {
    var e := DateErrors(inicio, fim, today);
    var di, df := ParseDateValue(inicio), ParseDateValue(fim);
    if di.None? && df.None? {
      assert e == [StartUnparsable, EndUnparsable];
    } else if di.None? {
      assert e == [StartUnparsable];
    } else if df.None? {
      assert e == [EndUnparsable];
    } else {
      var a, b := di.value, df.value;
      assert AtOrBefore(b, a) <==> !Before(a, b);
      if AtOrBefore(b, a) && Before(a, today) {
        assert e == [EndNotAfterStart, StartInPast];
      } else if AtOrBefore(b, a) {
        assert e == [EndNotAfterStart];
      } else if Before(a, today) {
        assert e == [StartInPast];
      } else {
        assert e == [];
      }
    }
  }

  /**
   * Errors accumulate rather than stop the check: two unparseable dates are
   * both reported, and so are an end at or before the start together with
   * a start in the past.
   */
  lemma DateErrorsAccumulate(a: Date, b: Date, today: Date)
    requires ValidDate(a) && ValidDate(b) && AtOrBefore(b, a) && Before(a, today)
    ensures DateErrors(Null, Int(20250101), today) == [StartUnparsable, EndUnparsable]
    ensures DateErrors(Str(Format(a)), Str(Format(b)), today) == [EndNotAfterStart, StartInPast]
  {
    PyStrOfNonString(Null);
    PyStrOfNonString(Int(20250101));
    ParseFormat(a);
    ParseFormat(b);
  }

  // ---------------------------------------------------------------------
  // Overlap
  // ---------------------------------------------------------------------

  /** `(di < rf) and (df > ri)`: the half-open intervals `[di, df)` and `[ri, rf)` meet. */
  predicate Intersects(di: Date, df: Date, ri: Date, rf: Date)
  {
    Before(di, rf) && Before(ri, df)
  }

  /** Touching intervals, where one ends on the day the other starts, never meet. */
  lemma TouchingNeverIntersects(di: Date, df: Date, ri: Date, rf: Date)
    requires df == ri || rf == di
    ensures !Intersects(di, df, ri, rf)
  {
  }

  /** Both dates of a stored row normalize. */
  predicate WellFormed(r: Reserva)
  {
    Parse(r.inicio).Some? && Parse(r.fim).Some?
  }

  /** `idReserva_ignorar and r.get("idReserva") == idReserva_ignorar`. */
  predicate Ignored(ignorar: Option<int>, id: int)
  {
    ignorar.Some? && ignorar.value != 0 && id == ignorar.value
  }

  /** Row `id` blocks the interval `[di, df)`: not ignored, well-formed, overlapping. */
  predicate Clashes(id: int, r: Reserva, di: Date, df: Date, ignorar: Option<int>)
  {
    !Ignored(ignorar, id) && WellFormed(r)
    && Intersects(di, df, Parse(r.inicio).value, Parse(r.fim).value)
  }

  /** `findByField("idChale", idChale)`: the rows of one chalet. */
  function DoChale(rows: map<int, Reserva>, idChale: int): (m: map<int, Reserva>)
    ensures forall id :: id in m <==> id in rows && rows[id].idChale == idChale
    ensures forall id :: id in m ==> m[id] == rows[id]
  {
    map id | id in rows && rows[id].idChale == idChale :: rows[id]
  }

  /**
   * `_existe_sobreposicao`: both candidate dates normalize and some row of
   * the same chalet clashes with them.
   */
  ghost predicate HasConflict(rows: map<int, Reserva>, idChale: int, inicio: Value, fim: Value,
                              ignorar: Option<int>)
    ensures HasConflict(rows, idChale, inicio, fim, ignorar) ==> DoChale(rows, idChale) != map[]
  {
    var di, df := NormalizarData(inicio), NormalizarData(fim);
    di.Some? && df.Some?
    && exists id :: id in rows && rows[id].idChale == idChale
                    && Clashes(id, rows[id], di.value, df.value, ignorar)
  }

  /** A clashing row of the chalet is a conflict. */
  lemma ClashMeansConflict(rows: map<int, Reserva>, idChale: int, inicio: Value, fim: Value,
                           ignorar: Option<int>, id: int)
    requires NormalizarData(inicio).Some? && NormalizarData(fim).Some?
    requires id in rows && rows[id].idChale == idChale
    requires Clashes(id, rows[id], NormalizarData(inicio).value, NormalizarData(fim).value, ignorar)
    ensures HasConflict(rows, idChale, inicio, fim, ignorar)
  {
  }

  /** When no row of the chalet clashes, there is no conflict. */
  lemma NoClashMeansNoConflict(rows: map<int, Reserva>, idChale: int, inicio: Value, fim: Value,
                               ignorar: Option<int>)
    requires NormalizarData(inicio).Some? && NormalizarData(fim).Some?
    requires var doChale := DoChale(rows, idChale);
      forall id :: id in doChale ==>
        !Clashes(id, doChale[id], NormalizarData(inicio).value, NormalizarData(fim).value, ignorar)
    ensures !HasConflict(rows, idChale, inicio, fim, ignorar)
  {
  }

  /**
   * The table invariant `_existe_sobreposicao` exists to keep: no two
   * distinct well-formed reservations of one chalet overlap.
   */
  ghost predicate NoOverlap(rows: map<int, Reserva>)
  {
    forall a, b :: a in rows && b in rows && a != b && rows[a].idChale == rows[b].idChale
      && WellFormed(rows[a]) && WellFormed(rows[b])
      ==> !Intersects(Parse(rows[a].inicio).value, Parse(rows[a].fim).value,
                      Parse(rows[b].inicio).value, Parse(rows[b].fim).value)
  }

  /**
   * Writing a well-formed row at `id` keeps the invariant when the row
   * meets no other row of its chalet.
   */
  lemma WriteKeepsNoOverlap(rows: map<int, Reserva>, id: int, row: Reserva)
    requires NoOverlap(rows) && WellFormed(row)
    requires forall o :: (o in rows && o != id && rows[o].idChale == row.idChale && WellFormed(rows[o])
      ==> !Intersects(Parse(row.inicio).value, Parse(row.fim).value,
                      Parse(rows[o].inicio).value, Parse(rows[o].fim).value))
    ensures NoOverlap(rows[id := row])
  {
    var rows' := rows[id := row];
    forall a, b | a in rows' && b in rows' && a != b && rows'[a].idChale == rows'[b].idChale
      && WellFormed(rows'[a]) && WellFormed(rows'[b])
      ensures !Intersects(Parse(rows'[a].inicio).value, Parse(rows'[a].fim).value,
                          Parse(rows'[b].inicio).value, Parse(rows'[b].fim).value)
    {
      if a == id {
        assert !Intersects(Parse(row.inicio).value, Parse(row.fim).value,
                           Parse(rows[b].inicio).value, Parse(rows[b].fim).value);
      } else if b == id {
        assert !Intersects(Parse(row.inicio).value, Parse(row.fim).value,
                           Parse(rows[a].inicio).value, Parse(rows[a].fim).value);
      }
    }
  }

  /** Deleting a row keeps the invariant. */
  lemma DeleteKeepsNoOverlap(rows: map<int, Reserva>, id: int)
    requires NoOverlap(rows)
    ensures NoOverlap(rows - {id})
  {
  }

  /**
   * Updating a reservation to the values it already has never conflicts
   * with itself, because the check ignores the reservation's own id.
   */
  lemma SelfUpdateNeverConflicts(rows: map<int, Reserva>, id: int)
    requires NoOverlap(rows) && id in rows && id != 0 && WellFormed(rows[id])
    ensures !HasConflict(rows, rows[id].idChale, Str(rows[id].inicio), Str(rows[id].fim), Some(id))
  {
    var r := rows[id];
    var di, df := Parse(r.inicio).value, Parse(r.fim).value;
    forall o | o in rows && rows[o].idChale == r.idChale
      ensures !Clashes(o, rows[o], di, df, Some(id))
    {
      if o != id && WellFormed(rows[o]) {
        assert !Intersects(Parse(rows[o].inicio).value, Parse(rows[o].fim).value, di, df);
      }
    }
  }

  // ---------------------------------------------------------------------
  // Admission decisions
  // ---------------------------------------------------------------------

  /** What an admission does: refuse with an error, or write one row. */
  datatype Decision = Reject(error: AdmissionError) | Admit(row: Reserva)

  /** Dates, then overlap, then the row to write: the steps common to create and update. */
  ghost function DecideSchedule(rows: map<int, Reserva>, idInquilino: int, idChale: int,
                                inicio: Value, fim: Value, ignorar: Option<int>, today: Date): Decision
  {
    var errors := DateErrors(inicio, fim, today);
    if errors != [] then Reject(InvalidDates(errors))
    else if HasConflict(rows, idChale, inicio, fim, ignorar) then Reject(Conflict)
    else Admit(Reserva(idInquilino, idChale, PyStr(inicio), PyStr(fim)))
  }

  /**
   * `createReserva`: a falsy or unknown tenant, then a falsy or unknown
   * chalet, then the dates, then the overlap check; nothing is excluded.
   */
  ghost function DecideCreate(tenants: set<int>, chalets: set<int>, rows: map<int, Reserva>,
                              req: ReservaRequest, today: Date): (d: Decision)
    ensures d.Admit? ==>
      && d.row.idInquilino != 0 && d.row.idInquilino in tenants
      && d.row.idChale != 0 && d.row.idChale in chalets
      && d.row.inicio == PyStr(req.inicio) && d.row.fim == PyStr(req.fim)
      && DateErrors(req.inicio, req.fim, today) == []
      && !HasConflict(rows, d.row.idChale, req.inicio, req.fim, None)
  {
    if req.idInquilino.None? || req.idInquilino.value == 0 || req.idInquilino.value !in tenants then
      Reject(TenantNotFound)
    else if req.idChale.None? || req.idChale.value == 0 || req.idChale.value !in chalets then
      Reject(ChaletNotFound)
    else
      DecideSchedule(rows, req.idInquilino.value, req.idChale.value, req.inicio, req.fim, None, today)
  }

  /**
   * `updateReserva`: the same steps without the falsy-id tests (a `None`
   * id finds no row), and the reservation's own id is ignored by the
   * overlap check.
   */
  ghost function DecideUpdate(tenants: set<int>, chalets: set<int>, rows: map<int, Reserva>,
                              idReserva: int, req: ReservaRequest, today: Date): (d: Decision)
    ensures d.Admit? ==>
      && d.row.idInquilino in tenants && d.row.idChale in chalets
      && d.row.inicio == PyStr(req.inicio) && d.row.fim == PyStr(req.fim)
      && DateErrors(req.inicio, req.fim, today) == []
      && !HasConflict(rows, d.row.idChale, req.inicio, req.fim, Some(idReserva))
  {
    if req.idInquilino.None? || req.idInquilino.value !in tenants then
      Reject(TenantNotFound)
    else if req.idChale.None? || req.idChale.value !in chalets then
      Reject(ChaletNotFound)
    else
      DecideSchedule(rows, req.idInquilino.value, req.idChale.value, req.inicio, req.fim,
                     Some(idReserva), today)
  }

  /**
   * An admitted row has valid dates, starts no earlier than today, ends
   * after it starts, and meets no row of its chalet other than the ignored one.
   */
  lemma ScheduleAdmits(rows: map<int, Reserva>, idInquilino: int, idChale: int,
                       inicio: Value, fim: Value, ignorar: Option<int>, today: Date)
    requires DecideSchedule(rows, idInquilino, idChale, inicio, fim, ignorar, today).Admit?
    ensures var row := DecideSchedule(rows, idInquilino, idChale, inicio, fim, ignorar, today).row;
      && row == Reserva(idInquilino, idChale, PyStr(inicio), PyStr(fim))
      && WellFormed(row)
      && Before(Parse(row.inicio).value, Parse(row.fim).value)
      && !Before(Parse(row.inicio).value, today)
      && forall o :: o in rows && !Ignored(ignorar, o) && rows[o].idChale == idChale && WellFormed(rows[o])
           ==> !Intersects(Parse(row.inicio).value, Parse(row.fim).value,
                           Parse(rows[o].inicio).value, Parse(rows[o].fim).value)
  {
    DateErrorsReport(inicio, fim, today);
    NormalizeAgreesWithValidation(inicio);
    NormalizeAgreesWithValidation(fim);
    var row := DecideSchedule(rows, idInquilino, idChale, inicio, fim, ignorar, today).row;
    forall o | o in rows && !Ignored(ignorar, o) && rows[o].idChale == idChale && WellFormed(rows[o])
      ensures !Intersects(Parse(row.inicio).value, Parse(row.fim).value,
                          Parse(rows[o].inicio).value, Parse(rows[o].fim).value)
    {
      assert !Clashes(o, rows[o], Parse(row.inicio).value, Parse(row.fim).value, ignorar);
    }
  }

  /** A successful create keeps "no two reservations of a chalet overlap". */
  lemma CreateKeepsNoOverlap(tenants: set<int>, chalets: set<int>, rows: map<int, Reserva>,
                             req: ReservaRequest, today: Date, id: int)
    requires DecideCreate(tenants, chalets, rows, req, today).Admit?
    requires id !in rows
    ensures NoOverlap(rows) ==> NoOverlap(rows[id := DecideCreate(tenants, chalets, rows, req, today).row])
  {
    var row := DecideCreate(tenants, chalets, rows, req, today).row;
    ScheduleAdmits(rows, req.idInquilino.value, req.idChale.value, req.inicio, req.fim, None, today);
    if NoOverlap(rows) {
      WriteKeepsNoOverlap(rows, id, row);
    }
  }

  /**
   * Update is never stricter than create: a request create would admit is
   * admitted by an update of any id, with the same row.
   */
  lemma UpdateAdmitsWhatCreateAdmits(tenants: set<int>, chalets: set<int>, rows: map<int, Reserva>,
                                     idReserva: int, req: ReservaRequest, today: Date)
    requires DecideCreate(tenants, chalets, rows, req, today).Admit?
    ensures DecideUpdate(tenants, chalets, rows, idReserva, req, today)
         == DecideCreate(tenants, chalets, rows, req, today)
  {
    var di, df := NormalizarData(req.inicio), NormalizarData(req.fim);
    if di.Some? && df.Some? {
      var idChale := req.idChale.value;
      forall o | o in rows && rows[o].idChale == idChale
        ensures !Clashes(o, rows[o], di.value, df.value, Some(idReserva))
      {
        assert !Clashes(o, rows[o], di.value, df.value, None);
      }
    }
  }

  /** A successful update keeps "no two reservations of a chalet overlap". */
  lemma UpdateKeepsNoOverlap(tenants: set<int>, chalets: set<int>, rows: map<int, Reserva>,
                             idReserva: int, req: ReservaRequest, today: Date)
    requires DecideUpdate(tenants, chalets, rows, idReserva, req, today).Admit?
    ensures var row := DecideUpdate(tenants, chalets, rows, idReserva, req, today).row;
      NoOverlap(rows) && idReserva in rows ==> NoOverlap(rows[idReserva := row])
  {
    var row := DecideUpdate(tenants, chalets, rows, idReserva, req, today).row;
    ScheduleAdmits(rows, req.idInquilino.value, req.idChale.value, req.inicio, req.fim,
                   Some(idReserva), today);
    if NoOverlap(rows) && idReserva in rows {
      WriteKeepsNoOverlap(rows, idReserva, row);
    }
  }

  /**
   * Once a reservation holds an interval of a chalet, any request for the
   * same chalet whose interval meets it is refused as a conflict, in
   * whichever order the two arrive.
   */
  lemma OverlappingRequestRejected(tenants: set<int>, chalets: set<int>, rows: map<int, Reserva>,
                                   held: int, req: ReservaRequest, today: Date)
    requires held in rows && WellFormed(rows[held])
    requires req.idInquilino.Some? && req.idInquilino.value != 0 && req.idInquilino.value in tenants
    requires req.idChale == Some(rows[held].idChale) && rows[held].idChale != 0
    requires rows[held].idChale in chalets
    requires DateErrors(req.inicio, req.fim, today) == []
    requires var di, df := ParseDateValue(req.inicio).value, ParseDateValue(req.fim).value;
      Intersects(di, df, Parse(rows[held].inicio).value, Parse(rows[held].fim).value)
    ensures DecideCreate(tenants, chalets, rows, req, today) == Reject(Conflict)
  {
    DateErrorsReport(req.inicio, req.fim, today);
    NormalizeAgreesWithValidation(req.inicio);
    NormalizeAgreesWithValidation(req.fim);
    var di, df := NormalizarData(req.inicio).value, NormalizarData(req.fim).value;
    assert Clashes(held, rows[held], di, df, None);
  }

  /**
   * Check-out day may equal check-in day: in any table, a request whose
   * stay ends no later than each well-formed reservation of its chalet
   * starts, or starts no earlier than it ends, is admitted. Touching
   * stays, where one ends on the day the other starts, are the edge case.
   */
  lemma SeparateRequestAdmitted(tenants: set<int>, chalets: set<int>, rows: map<int, Reserva>,
                                req: ReservaRequest, today: Date)
    requires req.idInquilino.Some? && req.idInquilino.value != 0 && req.idInquilino.value in tenants
    requires req.idChale.Some? && req.idChale.value != 0 && req.idChale.value in chalets
    requires DateErrors(req.inicio, req.fim, today) == []
    requires forall o :: o in rows && rows[o].idChale == req.idChale.value && WellFormed(rows[o]) ==>
      var di, df := ParseDateValue(req.inicio).value, ParseDateValue(req.fim).value;
      AtOrBefore(Parse(rows[o].fim).value, di) || AtOrBefore(df, Parse(rows[o].inicio).value)
    ensures DecideCreate(tenants, chalets, rows, req, today)
         == Admit(Reserva(req.idInquilino.value, req.idChale.value, PyStr(req.inicio), PyStr(req.fim)))
  {
    DateErrorsReport(req.inicio, req.fim, today);
    NormalizeAgreesWithValidation(req.inicio);
    NormalizeAgreesWithValidation(req.fim);
    var di, df := NormalizarData(req.inicio).value, NormalizarData(req.fim).value;
    forall o | o in rows && rows[o].idChale == req.idChale.value
      ensures !Clashes(o, rows[o], di, df, None)
    {
      if WellFormed(rows[o]) {
        var ri, rf := Parse(rows[o].inicio).value, Parse(rows[o].fim).value;
        assert !Intersects(di, df, ri, rf);
      }
    }
  }
}
