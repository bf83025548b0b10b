/**
 * `ReservaService`: the reservation CRUD service over three tables. It
 * checks the foreign keys against the tenant and chalet tables, validates
 * the dates and refuses an interval that meets another reservation of the
 * same chalet.
 */
module ReservationServices {
  import opened Wrappers
  import opened Text
  import opened Dates
  import opened Tables
  import opened Reservations
  import ChaleServices
  import InquilinoServices

  class ReservaService {
    const reservas: Table<Reserva>
    const inquilinos: Table<InquilinoServices.InquilinoRow>
    const chales: Table<ChaleServices.ChaleRow>

    constructor (reservas: Table<Reserva>, inquilinos: Table<InquilinoServices.InquilinoRow>,
                 chales: Table<ChaleServices.ChaleRow>)
      ensures this.reservas == reservas && this.inquilinos == inquilinos && this.chales == chales
    {
      this.reservas := reservas;
      this.inquilinos := inquilinos;
      this.chales := chales;
    }

    /**
     * `_validar_datas`: parses both dates, collecting a message for each
     * failure, then compares them only when both parsed. `today` stands
     * for `date.today()`.
     */
    method ValidarDatas(inicio: Value, fim: Value, today: Date) returns (valid: bool, errors: seq<DateError>)
      ensures errors == DateErrors(inicio, fim, today)
      ensures valid <==> errors == []
    {
      errors := [];
      var di := ParseDateValue(inicio);
      if di.None? {
        errors := errors + [StartUnparsable];
      }
      var df := ParseDateValue(fim);
      if df.None? {
        errors := errors + [EndUnparsable];
      }
      if di.Some? && df.Some? {
        if !Before(di.value, df.value) {
          errors := errors + [EndNotAfterStart];
        }
        if Before(di.value, today) {
          errors := errors + [StartInPast];
        }
      }
      valid := |errors| == 0;
    }

    /**
     * `_existe_sobreposicao`: false when either candidate date does not
     * normalize; otherwise walks the chalet's reservations in id order, skipping the
     * ignored one and rows whose dates do not normalize, and answers true
     * at the first one whose interval meets `[inicio, fim)`.
     */
    method ExisteSobreposicao(idChale: int, inicio: Value, fim: Value, ignorar: Option<int>)
      returns (conflict: bool)
      requires reservas.Valid()
      ensures conflict == HasConflict(reservas.rows, idChale, inicio, fim, ignorar)
    {
      var di := NormalizarData(inicio);
      var df := NormalizarData(fim);
      if di.None? || df.None? {
        return false;
      }
      var lo, hi := di.value, df.value;
      var rows, n := reservas.rows, reservas.nextId;
      var doChale := DoChale(rows, idChale);
      var k := 1;
      while k < n
        invariant 1 <= k <= n
        invariant forall id :: id in doChale && id < k ==> !Clashes(id, doChale[id], lo, hi, ignorar)
      {
        // Skip the ignored row and rows whose dates do not parse; stop at an overlap.
        if k in doChale && Clashes(k, doChale[k], lo, hi, ignorar) {
          ClashMeansConflict(rows, idChale, inicio, fim, ignorar, k);
          return true;
        }
        k := k + 1;
      }
      NoClashMeansNoConflict(rows, idChale, inicio, fim, ignorar);
      conflict := false;
    }

    /**
     * `createReserva`: on success exactly one row is inserted, under a
     * fresh id that is returned; on any refusal the table is untouched.
     * Either way no two reservations of one chalet overlap afterwards if
     * none did before.
     */
    method CreateReserva(req: ReservaRequest, today: Date) returns (r: Result<int, AdmissionError>)
      requires reservas.Valid()
      modifies reservas
      ensures reservas.Valid()
      ensures match DecideCreate(old(inquilinos.rows).Keys, old(chales.rows).Keys, old(reservas.rows), req, today)
        case Reject(e) => r == Failure(e) && reservas.rows == old(reservas.rows)
        case Admit(row) =>
          r.Success? && r.value >= 1 && r.value !in old(reservas.rows)
          && reservas.rows == old(reservas.rows)[r.value := row]
      ensures NoOverlap(old(reservas.rows)) ==> NoOverlap(reservas.rows)
    {
      if req.idInquilino.None? || req.idInquilino.value == 0 {
        return Failure(TenantNotFound);
      }
      var inquilino := inquilinos.FindById(req.idInquilino.value);
      if inquilino.None? {
        return Failure(TenantNotFound);
      }
      if req.idChale.None? || req.idChale.value == 0 {
        return Failure(ChaletNotFound);
      }
      var chale := chales.FindById(req.idChale.value);
      if chale.None? {
        return Failure(ChaletNotFound);
      }
      var valid, errors := ValidarDatas(req.inicio, req.fim, today);
      if !valid {
        return Failure(InvalidDates(errors));
      }
      var conflict := ExisteSobreposicao(req.idChale.value, req.inicio, req.fim, None);
      if conflict {
        return Failure(Conflict);
      }
      // The row keeps the dates as the request sent them; they are strings here.
      var row := Reserva(req.idInquilino.value, req.idChale.value, PyStr(req.inicio), PyStr(req.fim));
      ghost var before := reservas.rows;
      var id := reservas.Create(row);
      CreateKeepsNoOverlap(inquilinos.rows.Keys, chales.rows.Keys, before, req, today, id);
      r := Success(id);
    }

    /** `findAll`: every reservation row. */
    method FindAll() returns (all: map<int, Reserva>)
      ensures all == reservas.rows
    {
      all := reservas.FindAll();
    }

    /** `findById`: the reservation with that id, or none. */
    method FindById(idReserva: int) returns (r: Option<Reserva>)
      ensures r.Some? <==> idReserva in reservas.rows
      ensures r.Some? ==> r.value == reservas.rows[idReserva]
    {
      r := reservas.FindById(idReserva);
    }

    /**
     * `updateReserva`: the same checks as create, except that the keys are
     * not checked for falsiness and the reservation's own row is ignored by
     * the overlap check. On success the row is rewritten if it exists and
     * the result says whether it did.
     */
    method UpdateReserva(idReserva: int, req: ReservaRequest, today: Date)
      returns (r: Result<bool, AdmissionError>)
      requires reservas.Valid()
      modifies reservas
      ensures reservas.Valid()
      ensures match DecideUpdate(old(inquilinos.rows).Keys, old(chales.rows).Keys, old(reservas.rows),
                                 idReserva, req, today)
        case Reject(e) => r == Failure(e) && reservas.rows == old(reservas.rows)
        case Admit(row) =>
          r == Success(idReserva in old(reservas.rows))
          && reservas.rows == if idReserva in old(reservas.rows) then old(reservas.rows)[idReserva := row]
                              else old(reservas.rows)
      ensures NoOverlap(old(reservas.rows)) ==> NoOverlap(reservas.rows)
    {
      if req.idInquilino.None? {
        return Failure(TenantNotFound);
      }
      var inquilino := inquilinos.FindById(req.idInquilino.value);
      if inquilino.None? {
        return Failure(TenantNotFound);
      }
      if req.idChale.None? {
        return Failure(ChaletNotFound);
      }
      var chale := chales.FindById(req.idChale.value);
      if chale.None? {
        return Failure(ChaletNotFound);
      }
      var valid, errors := ValidarDatas(req.inicio, req.fim, today);
      if !valid {
        return Failure(InvalidDates(errors));
      }
      var conflict := ExisteSobreposicao(req.idChale.value, req.inicio, req.fim, Some(idReserva));
      if conflict {
        return Failure(Conflict);
      }
      var row := Reserva(req.idInquilino.value, req.idChale.value, PyStr(req.inicio), PyStr(req.fim));
      UpdateKeepsNoOverlap(inquilinos.rows.Keys, chales.rows.Keys, reservas.rows, idReserva, req, today);
      var matched := reservas.Update(idReserva, row);
      r := Success(matched);
    }

    /** `deleteReserva`: removes the row if present and says whether it was. */
    method DeleteReserva(idReserva: int) returns (removed: bool)
      requires reservas.Valid()
      modifies reservas
      ensures reservas.Valid()
      ensures removed == (idReserva in old(reservas.rows))
      ensures reservas.rows == old(reservas.rows) - {idReserva}
      ensures NoOverlap(old(reservas.rows)) ==> NoOverlap(reservas.rows)
    {
      if NoOverlap(reservas.rows) {
        DeleteKeepsNoOverlap(reservas.rows, idReserva);
      }
      removed := reservas.Delete(idReserva);
    }
  }
}
