# CasaBranca reservation core in Dafny

CasaBranca is a small booking back end for a guest house. Tenants
(`Inquilino`) and chalets (`Chale`) are registered through services that
check every field with validating setters and refuse a duplicate name.
Reservations (`Reserva`) tie a tenant to a chalet for a date interval. The
reservation service admits a reservation only when:

- both ids exist;
- the dates parse, the end comes after the start and the start is not in the past;
- the half-open interval `[inicio, fim)` meets no other reservation of the same chalet.

The public web site's booking form goes through a thin adapter. It checks
the form, maps a chalet code to a chalet id and books for a fixed public
tenant.

The model keeps the program's structure:

| file | module | models |
|---|---|---|
| `wrappers.dfy` | `Wrappers` | `Option`, `Result`, `Outcome`, and `Value`, a JSON request value (`None`, an integer or a string) with Python truthiness |
| `text.dfy` | `Text` | `str.strip()`, `int(str)`, `str(int)`, `re.sub(r'[^0-9]', '', s)` and string ordering |
| `dates.dfy` | `Dates` | calendar dates, `strptime(s, "%Y-%m-%d")` and ISO formatting |
| `validators.dfy` | `Validators` | the rules of the validating setters, as pure functions |
| `entities.dfy` | `Entities` | the `Chale` and `Inquilino` classes and their setters |
| `tables.dfy` | `Tables` | an in-memory table in place of each DAO, and the unique-name rule both services enforce on create |
| `chale_service.dfy` | `ChaleServices` | `ChaleService` |
| `inquilino_service.dfy` | `InquilinoServices` | `InquilinoService` |
| `reservations.dfy` | `Reservations` | the admission rules as pure functions, and the non-overlap invariant |
| `reservation_service.dfy` | `ReservationServices` | `ReservaService` |
| `public_intake.dfy` | `PublicIntake` | `ReservaPublicaService` |

The central result concerns the reservation table. Call it non-overlapping
when no two distinct reservations of one chalet have intersecting
half-open intervals (`NoOverlap`). `createReserva`, `updateReserva`,
`deleteReserva` and the public `criar_reserva_simples` each keep the table
non-overlapping. The service methods are proved against the pure decision
functions `DecideCreate` and `DecideUpdate`. The lemmas about those
functions carry the invariant.

The clock is a parameter: `today` stands for `date.today()`. Each DAO is a
`Table` with rows keyed by an auto-increment id. Its `create` returns a
fresh non-zero id, and its `update` and `delete` report whether a row
matched the id.

On three points the model follows the code as written:

- `_existe_sobreposicao` skips the excluded id only when that id is
  truthy (not 0).
- `createReserva` refuses a falsy tenant or chalet id before looking it up.
- `updateReserva` re-applies the "start not before today" rule.

## Model

| member | source | states |
|---|---|---|
| Text.StripIdempotent | api/modelo/inquilino.py:80 | stripping a stripped string changes nothing, so a stored name or e-mail is stable under the setter |
| Text.Strip | api/modelo/inquilino.py:80 | the stripped text is no longer than the input, neither starts nor ends with whitespace, and is empty exactly when the input is all whitespace |
| Text.ParseInt | api/modelo/inquilino.py:45-48 | a text that `int()` reads ends, once stripped, in a digit, and a negative result comes from a leading minus sign |
| Text.OnlyDigits | api/modelo/inquilino.py:132 | the result is all digits, no longer than the input, and holds exactly the digit characters of the input |
| Text.ParseIntDecimal | api/modelo/inquilino.py:45-48 | `int(str(n)) == n` for every integer, so an id sent as text is read as the same number |
| Text.OnlyDigitsAppend | api/modelo/inquilino.py:132 | removing non-digits distributes over concatenation |
| Text.OnlyDigitsOfDigits | api/modelo/inquilino.py:178 | a string of digits is left unchanged by removing non-digits |
| Text.LexTrichotomy | api/service/reservaPublicaService.py:81 | string `<` is a strict total order: exactly one of `a < b`, `a == b`, `b < a` holds |
| Text.PadDigitsOrder | api/service/reservaPublicaService.py:81 | zero-padded numbers of one width compare as strings exactly as they compare as numbers |
| Dates.DaysInMonth | api/service/reservaService.py:51 | month lengths lie in 28..31, and 29 is returned exactly for February of a leap year |
| Dates.Parse | api/service/reservaService.py:51 | a string that parses is 10 characters long and names a valid calendar date |
| Dates.ParseFormat | api/service/reservaService.py:51 | every valid date formatted as `YYYY-MM-DD` parses back to itself |
| Dates.FormatParse | api/service/reservaService.py:51 | every string that parses is the formatting of its date |
| Dates.FormatOrder | api/service/reservaService.py:61-63 | one date is before another exactly when its ISO text is before the other's as strings |
| Dates.PyStrOfNonString | api/service/reservaService.py:51 | `str(None)` and `str(int)` never parse as a date |
| Validators.PositiveInt | api/modelo/inquilino.py:45-53 | an accepted id or capacity is at least 1 |
| Validators.PositiveIntOfDecimal | api/modelo/chale.py:19-28 | a number and its decimal text are treated alike; a positive number is stored as itself and zero or a negative is refused as not positive |
| Validators.Name | api/modelo/inquilino.py:77-85 | a name is accepted exactly when it is a string whose stripped text has at least 3 characters, and the stripped text is what is stored; a non-string is refused as such |
| Validators.NameIdempotent | api/modelo/chale.py:38-46 | setting a stored name again stores the same name |
| Validators.IndexOf | api/modelo/inquilino.py:114-115 | the first occurrence of a character, or the length when it is absent |
| Validators.EmailShapeMatches | api/modelo/inquilino.py:114-115 | text the one-pass e-mail check accepts matches `^[^\s@]+@[^\s@]+\.[^\s@]+$` |
| Validators.PatternMatchesEmailShape | api/modelo/inquilino.py:114-115 | every split of a text into atom `@` atom `.` atom passes the one-pass check |
| Validators.EmailShapeMatchesPattern | api/modelo/inquilino.py:114-115 | the one-pass check accepts exactly the texts the regular expression matches |
| Validators.EmailAccepts | api/modelo/inquilino.py:105-118 | the e-mail setter accepts exactly strings whose stripped form matches the pattern, and stores that stripped form |
| Validators.Email | api/modelo/inquilino.py:105-118 | an accepted e-mail is a string, is stored stripped, is not blank, has no surrounding whitespace and contains `@` |
| Validators.PhoneOkIffPattern | api/modelo/inquilino.py:130-147 | the phone rule holds exactly when the digits are a two-digit area code in 11..99 followed by 8 digits, or by `9` and 8 digits |
| Validators.PhoneOk | api/modelo/inquilino.py:130-147 | a text the phone rule accepts has at least 10 characters |
| Validators.PhoneIgnoresNonDigit | api/modelo/inquilino.py:132 | inserting punctuation anywhere in a phone number does not change the verdict |
| Validators.Phone | api/modelo/inquilino.py:149-156 | a phone is accepted exactly when it is a string that satisfies the rule, and it is stored as sent |
| Validators.CheckDigit | api/modelo/inquilino.py:184-185 | a check digit is a single digit |
| Validators.WeightedSumBounds | api/modelo/inquilino.py:184 | over a prefix no longer than the largest weight, the weighted sum lies between 0 and 9 times the sum of the weights |
| Validators.CompleteCpf | api/modelo/inquilino.py:183-187 | a 9-digit base extended with its two check digits has 11 digits and starts with the base |
| Validators.CpfOkIffComplete | api/modelo/inquilino.py:177-189 | a CPF is accepted exactly when its digits are a base followed by the base's own check digits, and not all digits are equal |
| Validators.CheckDigitsIffComplete | api/modelo/inquilino.py:180-189 | eleven digits pass both check-digit tests exactly when they equal their first nine digits completed with the two computed check digits |
| Validators.CpfOk | api/modelo/inquilino.py:177-189 | a text the CPF rule accepts has at least 11 characters |
| Validators.WeightedSumConstant | api/modelo/inquilino.py:184 | with every digit equal to `v`, the weighted sum is `v` times the sum of the weights |
| Validators.AllSameSatisfiesChecksum | api/modelo/inquilino.py:180 | eleven equal digits satisfy both check digits, so only the explicit "all equal" test refuses them |
| Validators.CpfExample | api/modelo/inquilino.py:183-187 | `11144477735` is a valid CPF, with check digits 3 and 5 |
| Validators.Cpf | api/modelo/inquilino.py:191-194 | a CPF is accepted exactly when it is a string that passes the check, and it is stored as sent |
| Entities.Chale.constructor | api/modelo/chale.py:2-9 | a new chalet has id, name and capacity unset |
| Entities.Chale.SetIdChale | api/modelo/chale.py:19-28 | stores the parsed positive id, or reports why and leaves the field unchanged |
| Entities.Chale.SetNome | api/modelo/chale.py:38-46 | stores the stripped name of at least 3 characters, or reports why and leaves the field unchanged |
| Entities.Chale.SetCapacidade | api/modelo/chale.py:53-62 | stores the parsed positive capacity, or reports why and leaves the field unchanged |
| Entities.Inquilino.constructor | api/modelo/inquilino.py:10-20 | a new tenant has every field unset |
| Entities.Inquilino.SetIdInquilino | api/modelo/inquilino.py:45-53 | stores the parsed positive id, or reports why and leaves the field unchanged |
| Entities.Inquilino.SetNomeInquilino | api/modelo/inquilino.py:77-85 | stores the stripped name, or reports why and leaves the field unchanged |
| Entities.Inquilino.SetEmail | api/modelo/inquilino.py:105-118 | stores the stripped e-mail, or reports why and leaves the field unchanged |
| Entities.Inquilino.SetTelefone | api/modelo/inquilino.py:149-156 | stores the phone text as sent, or reports why and leaves the field unchanged |
| Entities.Inquilino.SetRequisicao | api/modelo/inquilino.py:166-169 | stores any value unchanged |
| Entities.Inquilino.SetCpf | api/modelo/inquilino.py:191-194 | stores the CPF text as sent, or reports why and leaves the field unchanged |
| Tables.Table.constructor | api/dao/reservaDAO.py:13-20 | a new table is empty and valid |
| Tables.Table.Create | api/dao/reservaDAO.py:22-35 | inserts under a fresh id of at least 1, returns it and changes no other row |
| Tables.Table.Update | api/dao/reservaDAO.py:50-61 | reports whether the id matched a row; rewrites only that row, or nothing |
| Tables.Table.Delete | api/dao/reservaDAO.py:37-48 | reports whether the id matched a row, and removes only that row |
| Tables.Table.FindById | api/dao/reservaDAO.py:74-77 | returns the row with that id, or none exactly when there is no such row |
| Tables.Table.FindAll | api/dao/reservaDAO.py:63-72 | returns every row |
| Tables.InsertKeepsUniqueNames | api/service/chaleService.py:41-51 | inserting a row whose name no row has keeps names unique; both services' creates rely on it |
| ChaleServices.UpdateMayDuplicateName | api/service/chaleService.py:75-94 | in any table with unique names, a request renaming chalet `b` to another chalet's stored name passes every setter, `b` passes the id setter, and the row `UpdateChale` then writes under `b` leaves two chalets with one name |
| ChaleServices.ChaleService.constructor | api/service/chaleService.py:15-22 | the service works on the given chalet table |
| ChaleServices.ChaleService.BuildChale | api/service/chaleService.py:36-38 | runs the name setter, then the capacity setter, and stops at the first that fails |
| ChaleServices.ChaleService.CreateChale | api/service/chaleService.py:24-51 | an invalid field or a taken name leaves the table unchanged; otherwise exactly one row is inserted under a fresh id that is returned; unique names stay unique |
| ChaleServices.ChaleService.FindById | api/service/chaleService.py:61-73 | a non-positive or non-integer id is refused before lookup; otherwise returns the row or none |
| ChaleServices.ChaleService.FindAll | api/service/chaleService.py:53-59 | returns every chalet |
| ChaleServices.ChaleService.UpdateChale | api/service/chaleService.py:75-94 | validates id, name and capacity in order; then rewrites the row if it exists and reports whether it did |
| ChaleServices.ChaleService.DeleteChale | api/service/chaleService.py:96-108 | validates the id, then removes the row and reports whether it existed |
| InquilinoServices.FieldsAreValid | api/service/inquilinoService.py:36-42 | every field of a built tenant passes its own setter's rule again, and the request note is kept as sent |
| InquilinoServices.InquilinoService.constructor | api/service/inquilinoService.py:15-22 | the service works on the given tenant table |
| InquilinoServices.InquilinoService.BuildInquilino | api/service/inquilinoService.py:36-42 | runs the name, e-mail, phone, note and CPF setters in order and stops at the first that fails |
| InquilinoServices.InquilinoService.CreateInquilino | api/service/inquilinoService.py:24-53 | an invalid field or a taken name leaves the table unchanged; otherwise exactly one row is inserted under a fresh id that is returned; unique names stay unique |
| InquilinoServices.InquilinoService.FindById | api/service/inquilinoService.py:63-75 | a non-positive or non-integer id is refused before lookup; otherwise returns the row or none |
| InquilinoServices.InquilinoService.FindAll | api/service/inquilinoService.py:55-61 | returns every tenant |
| InquilinoServices.InquilinoService.UpdateInquilino | api/service/inquilinoService.py:77-99 | validates the id and every field in order; then rewrites the row if it exists and reports whether it did |
| InquilinoServices.InquilinoService.DeleteInquilino | api/service/inquilinoService.py:101-113 | validates the id, then removes the row and reports whether it existed |
| Reservations.NormalizeAgreesWithValidation | api/service/reservaService.py:67-86 | the overlap check normalizes a request's dates to the same dates the validation parsed |
| Reservations.NormalizarData | api/service/reservaService.py:67-86 | a value that normalizes is a string holding exactly the ISO text of a valid date |
| Reservations.DateErrors | api/service/reservaService.py:48-65 | the error list holds at most two errors, since the order tests run only when both dates parse |
| Reservations.DateErrorsReport | api/service/reservaService.py:48-65 | each error is reported exactly when its condition holds; order errors appear only when both dates parse; the list is empty exactly when both parse, start < end and start is not before today; no error appears twice |
| Reservations.DateErrorsAccumulate | api/service/reservaService.py:50-64 | errors accumulate: both parse errors come together, and so do "end not after start" and "start in the past" |
| Reservations.TouchingNeverIntersects | api/service/reservaService.py:134-135 | intervals that only touch at an endpoint do not intersect |
| Reservations.DoChale | api/dao/reservaDAO.py:79-93 | the rows of one chalet are exactly the rows whose chalet id matches, unchanged |
| Reservations.HasConflict | api/service/reservaService.py:88-140 | a conflict needs at least one reservation of the chalet |
| Reservations.ClashMeansConflict | api/service/reservaService.py:118-137 | a reservation of the chalet that is not ignored, is well-formed and meets the interval makes the check answer true |
| Reservations.NoClashMeansNoConflict | api/service/reservaService.py:118-140 | when no reservation of the chalet clashes, the check answers false |
| Reservations.WriteKeepsNoOverlap | api/service/reservaService.py:36-46 | writing a well-formed row that meets no other row of its chalet keeps the table non-overlapping |
| Reservations.DeleteKeepsNoOverlap | api/service/reservaService.py:199-203 | deleting a reservation keeps the table non-overlapping |
| Reservations.SelfUpdateNeverConflicts | api/service/reservaService.py:118-122 | in a non-overlapping table, updating a reservation to its current dates never conflicts |
| Reservations.ScheduleAdmits | api/service/reservaService.py:31-46 | an admitted row has the request's ids and dates, valid dates, start < end, start not before today, and meets no row of its chalet except the ignored one |
| Reservations.DecideCreate | api/service/reservaService.py:16-46 | an admitted row has a truthy, existing tenant and chalet, the request's own dates, valid dates and no conflict with any reservation |
| Reservations.DecideUpdate | api/service/reservaService.py:150-188 | an admitted row has an existing tenant and chalet, the request's own dates, valid dates and no conflict except with itself |
| Reservations.UpdateAdmitsWhatCreateAdmits | api/service/reservaService.py:150-188 | a request that creation would admit is admitted by an update as well, with the same row: ignoring the reservation being edited only removes conflicts |
| Reservations.CreateKeepsNoOverlap | api/service/reservaService.py:36-46 | a successful create, under a fresh id, keeps the table non-overlapping |
| Reservations.UpdateKeepsNoOverlap | api/service/reservaService.py:180-188 | a successful update keeps the table non-overlapping |
| Reservations.OverlappingRequestRejected | api/service/reservaService.py:36-38 | a valid request whose interval meets a held reservation of the same chalet is refused as a conflict |
| Reservations.SeparateRequestAdmitted | api/service/reservaService.py:118-140 | in any table, a valid request whose stay ends no later than each well-formed reservation of its chalet starts, or starts no earlier than it ends, is admitted; touching stays are the edge case |
| ReservationServices.ReservaService.constructor | api/service/reservaService.py:10-14 | the service works on the given reservation, tenant and chalet tables |
| ReservationServices.ReservaService.ValidarDatas | api/service/reservaService.py:48-65 | computes the error list in order, and is valid exactly when the list is empty |
| ReservationServices.ReservaService.ExisteSobreposicao | api/service/reservaService.py:88-140 | answers true exactly when both dates normalize and some row of the chalet, neither ignored nor malformed, intersects the interval |
| ReservationServices.ReservaService.CreateReserva | api/service/reservaService.py:16-46 | checks tenant, chalet, dates, then overlap; a refusal leaves the table unchanged; otherwise one row is inserted under a fresh id that is returned; the table stays non-overlapping |
| ReservationServices.ReservaService.FindAll | api/service/reservaService.py:142-144 | returns every reservation |
| ReservationServices.ReservaService.FindById | api/service/reservaService.py:146-148 | returns the reservation with that id, or none |
| ReservationServices.ReservaService.UpdateReserva | api/service/reservaService.py:150-188 | runs the create checks with the reservation's own id ignored; on success rewrites the row if it exists and reports whether it did; the table stays non-overlapping |
| ReservationServices.ReservaService.DeleteReserva | api/service/reservaService.py:199-203 | removes the row, reports whether it existed, and keeps the table non-overlapping |
| PublicIntake.Missing | api/service/reservaPublicaService.py:75 | a field is listed exactly when it is one of the given fields and its value is absent or falsy; the list keeps the given order, and names each field once when the given fields are distinct |
| PublicIntake.Faltantes | api/service/reservaPublicaService.py:70-75 | lists exactly the required fields that are absent or falsy, in their declared order, each once |
| PublicIntake.LessEq | api/service/reservaPublicaService.py:81 | `<=` fails with a type error exactly when the values are not two strings or two integers |
| PublicIntake.ValidarDadosObrigatorios | api/service/reservaPublicaService.py:68-82 | a form passes exactly when every required field is truthy and check-out is after check-in as compared by `<=`; it fails only with missing fields, a check-out not after check-in, or a type error |
| PublicIntake.LowerChar | api/service/reservaPublicaService.py:86 | a lowered character is never an ASCII capital, and other characters are unchanged |
| PublicIntake.Lower | api/service/reservaPublicaService.py:86 | the lowered text has the input's length, contains no ASCII capital, and equals the input when the input has none |
| PublicIntake.MapearChale | api/service/reservaPublicaService.py:84-95 | a code is accepted exactly when it is a string whose lower-case form is `romantico`, `familiar` or `premium`, and it maps to that entry's id (13, 14 or 26); a non-string fails with an attribute error |
| PublicIntake.MapearChaleIgnoresCase | api/service/reservaPublicaService.py:86 | codes that differ only in ASCII case are accepted alike and map to the same chalet |
| PublicIntake.MapearChaleRomantico | api/service/reservaPublicaService.py:19 | `romantico` maps to chalet 13 |
| PublicIntake.MapearChaleFamiliar | api/service/reservaPublicaService.py:20 | `familiar` maps to chalet 14 |
| PublicIntake.MapearChalePremium | api/service/reservaPublicaService.py:21 | `premium` maps to chalet 26 |
| PublicIntake.MapearChaleCapitals | api/service/reservaPublicaService.py:86 | `Romantico` is accepted like `romantico` |
| PublicIntake.MapearChaleRefuses | api/service/reservaPublicaService.py:86-93 | an unknown code is refused by name, and a non-string code fails on `.lower()` |
| PublicIntake.IntakeRequest | api/service/reservaPublicaService.py:45-58 | a request handed on names tenant 999, the chalet id mapped from `chale_desejado` and the form's own dates; a form refused here is refused with the intake's own errors, never an admission error |
| PublicIntake.StringCheckMatchesDateOrder | api/service/reservaPublicaService.py:81-82 | on well-formed ISO dates, the form's string test `fim <= inicio` holds exactly when the end is not after the start |
| PublicIntake.IntakeRequestSpec | api/service/reservaPublicaService.py:45-66 | the request passed on uses tenant 999, the chalet id mapped from `chale_desejado` and the form's own dates, and only when all required fields are present and check-out is after check-in; missing fields are reported first; with well-formed dates the reservation service never finds the end before the start |
| PublicIntake.ReservaPublicaService.constructor | api/service/reservaPublicaService.py:24-28 | the adapter delegates to the given reservation service |
| PublicIntake.ReservaPublicaService.CriarReservaSimples | api/service/reservaPublicaService.py:30-66 | a refused form leaves the reservations unchanged; otherwise the outcome is that of `createReserva` on the public tenant's request; the table stays non-overlapping |

## Left out

- Concurrency: no lock is taken between the overlap check and the insert. The model admits one request at a time, so non-overlap is a property of sequential use only.
- The database: SQL, connection pooling, MySQL's case-insensitive collation for the duplicate-name lookup, and the coercion of string ids to integers in `WHERE` clauses. Each DAO is an in-memory `Table`, and the reservation foreign keys are integers or absent.
- `update` and `delete` report whether a row matched. MySQL's `rowcount` counts changed rows by default, so an update that rewrites identical values reports false there.
- The fail-open branch of `_existe_sobreposicao`, which answers "no conflict" when the lookup of the chalet's reservations raises: the in-memory table never raises.
- The `findByField` whitelist: every call in the core uses a whitelisted field, so its `ValueError` cannot occur.
- Python's lenient `int()` (booleans, floats, underscores, non-ASCII digits) and JSON values other than `null`, integers and strings (booleans, floats, lists, objects).
- `strptime`'s acceptance of unpadded fields such as `2025-1-5` or a day written ` 5`, and of non-ASCII Unicode digits (its `\d` matches, for example, a full-width year `２０２５-01-05`); `Dates.Parse` refuses all of these. Dates are parsed strictly as `YYYY-MM-DD` with years 1 to 9999, and `date`/`datetime` objects in stored rows are represented by their ISO text.
- PublicIntake.Lower: only ASCII capitals are lowered. Python's `lower()` also maps other scripts, but no non-ASCII character lowers to one of the letters of the three site codes, so the accepted codes are the same.
- `_gerar_observacoes` and the `observacoes` key it adds: `createReserva` ignores that key, and the text is formatting only. The `print` logging is left out for the same reason.
- The messages of the raised exceptions and HTTP statuses are reduced to error constructors.
- `api/modelo/reserva.py` is not part of this model. Its setters are taken as plain assignments.
- Validators.Phone: the setter's `isinstance` test cannot be reached, because a non-string already fails inside `re.sub`. The model reports that case as a type mismatch.
- ReservationServices.ReservaService.ExisteSobreposicao: visits the chalet's rows in id order. The SQL result order is unspecified, and the answer does not depend on it.
