# Barbershop booking engine — a Dafny model

This project models the booking engine of the barbershop web application
(`app.py`) and proves what it guarantees. The engine has four parts.

- **Business-hours resolver** (`obtener_horario_dia`). A `horario_especial`
  row for the date wins over the weekly default. The row's TIME columns are
  normalised from a `timedelta`, an `"HH:MM:SS"`/`"HH:MM"` string or a
  native `time`. Modelled in `hours.dfy` as pure functions.
- **Slot generator and availability list** (`generar_slots_dia` and the loop
  of `obtener_horarios_disponibles`). Both walk a 30-minute grid from opening
  time while below closing time. A slot is `pasado` on the current date at or
  before now, `reservado` when an active reservation of that barber holds its
  `'HH:MM'`, and otherwise `disponible`.
  - `slots.dfy` holds the specification functions and their properties.
  - The loops are the methods `Store.Store.RecorrerSlots` and
    `Store.Store.RecorrerDisponibles`, proved against those functions and
    called by `Store.Store.GenerarSlotsDia` and
    `Store.Store.ObtenerHorariosDisponibles`.
- **Booking transaction** (`procesar_cita`, `usuario_tiene_cita_para_fecha`).
  A conditional insert of a `pendiente` reservation, only if the client has
  no active reservation that day, then one `Cita_servicio` row per selected
  service. Any integrity error rolls the whole transaction back.
- **Status changes and cancellations** (`cancelar_cita`,
  `barbero_cancelar_cita`, `cambiar_estado_cita`), and the admin's
  active-flag toggle for a barber.

Each write route is written twice.
- `tables.dfy` defines it as a pure transition from the tables before
  (`Tables.Tablas`) to the tables after, plus a result code.
- `store.dfy` has a `Store` class whose fields are the tables. Each route is a
  method with `modifies this` that performs the route step by step. It is
  proved to end in exactly the state the transition function gives, and to
  keep the database invariants (`Tables.Valid`).

What the transitions mean is proved in `invariants.dfy` (booking, the
`uniq_barbero_slot` key, cancellation effects) and `lifecycle.dfy` (the three
status routes and the finding below). `validation.dfy` holds small input
checks: the upload extension whitelist, the password checks and the
active-flag toggle.

Representation choices:
- A time of day is a whole number of seconds since midnight
  (`Common.TimeOfDay`). An `'HH:MM'` label is that time in whole minutes
  (`t / 60`), which is how `TIME_FORMAT(hora, '%H:%i')` and `strftime('%H:%M')`
  compare.
- A date is its proleptic ordinal. `Common.Weekday` is Python's
  `date.weekday()` (Monday = 0).
- "Now", "today" and `session['user_id']` are method parameters.
- A missing form field is `None`; a missing `motivo` is the empty string.

`uniq_barbero_slot` is defined in a schema that is not part of this model.
The parameter `Tables.Alcance` selects which rows the key covers:
- `SoloActivas`: only active reservations hold a slot.
- `TodasLasFilas`: a plain UNIQUE over (barbero_id, fecha, hora), as the
  comment at `app.py:710` suggests.

With the plain key, a cancelled reservation's slot is listed as available but
cannot be booked again (`Invariants.CanceladaBloqueaConClavePlana`). With the
active-only key, every listed slot can be booked (`Invariants.DisponibleEsReservable`).

Unlike the two cancellation routes, `cambiar_estado_cita` writes no
`Cancelacion` row when it sets `cancelada`, and it lets a `cancelada`
reservation be set back to `confirmada` (`app.py:957-980`).
`Tables.CambiarEstado` follows the code, and
`Lifecycle.CancelarPorCambioSinAuditoria` exhibits a cancelled reservation
without an audit row. Reopening a cancelled reservation is reported under
Findings.

## Model

| member | source | states |
|---|---|---|
| Common.Weekday | app.py:1616 | the weekday number is in 0..6; `Common.WeekdayLunes` and `Common.WeekdaySiguiente` fix Monday as 0 |
| Common.WeekdayLunes | app.py:1616 | 0001-01-01 (ordinal 1) is a Monday, weekday 0 |
| Common.WeekdaySiguiente | app.py:1616 | the day after any date has the next weekday, Sunday (6) wrapping to Monday (0) |
| Hours.FromDuration | app.py:1590-1595 | a duration is accepted exactly when it lies in 0..86399 seconds (`time()` refuses other hours); the result drops the seconds: a whole minute m with m·60 ≤ s < m·60 + 60 |
| Hours.Field | app.py:1598-1607 | a strptime directive accepts exactly the strings of one or two ASCII digits whose decimal value is within the directive's bound, and yields that decimal value |
| Hours.FieldExamples | app.py:1598-1607 | "07" reads as 7 and "7" as 7; "60" for a minute, three digits and the empty field are refused |
| Hours.WeeklyDefaults | app.py:1615-1622 | with no override, Saturday is 10:00–20:00, Sunday 12:00–18:00, any other day 12:00–21:00 |
| Hours.OverrideWins | app.py:1582-1613 | only an override can close a day or make it unreadable; `cerrado == 1` closes the day whatever the weekday; an open override with readable times gives exactly those times |
| Hours.ObtenerHorarioDia | app.py:1570-1622 | the resolver; its behaviour is stated by `Hours.WeeklyDefaults` and `Hours.OverrideWins` |
| Hours.FromText | app.py:1596-1607 | "%H:%M:%S" first, then "%H:%M"; stated by `Hours.FromTextRoundTrip`, `Hours.FromTextSinSegundos` and `Hours.FromTextRejects` |
| Hours.Normalise | app.py:1589-1607 | the three stored forms of a TIME value, with a missing value unreadable; its duration case is `Hours.FromDuration`, its text case `Hours.FromText` |
| Hours.FromTextRoundTrip | app.py:1597-1607 | a TIME printed as "HH:MM:SS" reads back as exactly that time |
| Hours.FromTextSinSegundos | app.py:1597-1607 | a TIME printed as "HH:MM" fails the first format, and the fallback gives the time without its seconds |
| Hours.FromTextRejects | app.py:1597-1607 | "24:00" and "1200" are refused by both formats |
| Slots.SlotsFrom | app.py:1121-1132 | the slot list has one entry per grid time |
| Slots.Grid | app.py:1121-1132 | the 30-minute grid; stated by `Slots.GridLength`, `Slots.GridAt`, `Slots.GridMember` and `Slots.GridIncreasing` |
| Slots.StatusAt | app.py:1124-1130 | the status priority; stated by `Slots.SlotsFromAt` and `Slots.PastIsPrefix` |
| Slots.Disponibles | app.py:626-639 | the available labels; stated by `Slots.DisponiblesMember`, `Slots.DisponiblesIncreasing` and `Slots.DisponibleIff` |
| Slots.SlotsDia | app.py:1094-1139 | the result of `generar_slots_dia`; `Store.Store.GenerarSlotsDia` is proved to compute it |
| Slots.GridLength | app.py:1122-1132 | the grid is empty when closing ≤ opening, otherwise it has one slot per started half hour |
| Slots.GridAt | app.py:1122-1132 | the k-th grid time is opening + k·30 min and is below closing |
| Slots.GridMember | app.py:1122-1132 | a time is on the grid exactly when it is in [opening, closing) and a whole number of half hours after opening |
| Slots.GridIncreasing | app.py:1122-1132 | the grid is strictly increasing, so it has no duplicates |
| Slots.SlotsFromAt | app.py:1124-1131 | the k-th slot carries the k-th grid time's 'HH:MM' and its status: `pasado` on today at or before now, else `reservado` if the label is taken, else `disponible` |
| Slots.SlotLabels | app.py:1124-1132 | slot labels rise by exactly 30 minutes, so no two slots share an 'HH:MM' |
| Slots.PastIsPrefix | app.py:1125-1126 | on the current date the elapsed slots form a prefix; on any other date no slot is elapsed |
| Slots.DisponiblesMember | app.py:636-637 | a label is in the available list exactly when some `disponible` slot carries it |
| Slots.DisponiblesIncreasing | app.py:626-639 | filtering keeps the grid order: the available labels are strictly increasing |
| Slots.DisponiblesCota | app.py:626-639 | every label offered from an increasing slot list is at least that list's first label |
| Slots.DayLabelsIncreasing | app.py:1121-1132 | a day's slot labels and its available labels are strictly increasing |
| Slots.DisponibleIff | app.py:626-639 | a label is offered exactly when it labels a grid time that is not elapsed and that no active reservation holds |
| Slots.TodoDisponible | app.py:1125-1130 | before opening, with nothing reserved, every grid time is offered |
| Slots.DiaLaborable | app.py:1621-1622 | a default weekday has 18 slots, the last at 20:30, all offered before opening when nothing is reserved |
| Tables.Vinculos | app.py:696-700 | one `Cita_servicio` row per selected service |
| Tables.ConEstado | app.py:792 | the status update keeps the number of rows |
| Tables.TieneCitaActiva | app.py:754-761 | the active-reservation query; `Store.Store.UsuarioTieneCitaParaFecha` states its meaning, and `Invariants.ReservarResultado` its use as the guard of the insert |
| Tables.Ocupadas | app.py:1112-1117 | the labels of the barber's active reservations on the date; used by `Slots.DisponibleIff` and `Invariants.LibreSiNoOcupada` |
| Tables.Reservar | app.py:657-722 | the booking transition; stated by `Invariants.ReservarResultado`, `Invariants.ReservarInserta`, `Invariants.ReservarValid` and `Invariants.ReservarTope` |
| Tables.CancelarCita | app.py:771-813 | the client's cancellation; stated by `Lifecycle.CancelarCitaResultado` and `Lifecycle.CancelarCitaPreserva` |
| Tables.BarberoCancelarCita | app.py:993-1044 | the barber's cancellation; stated by `Lifecycle.BarberoCancelarCitaResultado` and `Lifecycle.BarberoCancelarCitaPreserva` |
| Tables.CambiarEstado | app.py:950-988 | the status change as written; stated by `Lifecycle.CambiarEstadoResultado`, `Lifecycle.ReconfirmarRompeTope` and `Lifecycle.CancelarPorCambioSinAuditoria` |
| Tables.CambiarEstadoCorregido | app.py:978-980 | the status change as intended; stated by `Lifecycle.CambiarEstadoCorregidoPreserva` |
| Invariants.InsertarClave | app.py:709-714 | inserting a row keeps `uniq_barbero_slot` exactly when the row is not counted or no counted row already holds its slot |
| Invariants.BajarEstadoClave | app.py:792 | setting a non-active status never breaks `uniq_barbero_slot` |
| Invariants.LibreSiNoOcupada | app.py:1112-1117 | with the active-only key, a label not held by an active reservation is a free slot for the key |
| Invariants.ReservarResultado | app.py:657-722 | a missing field is refused; otherwise the booking is refused for an existing active reservation that day, or for a taken slot, and succeeds exactly when neither holds and the barber and every service exist; every failure leaves all tables unchanged |
| Invariants.ReservarInserta | app.py:672-702 | a booking appends one `pendiente` reservation under a fresh id and one link per selected service, which are the only links of that id; nothing else changes |
| Invariants.ReservarValid | app.py:657-722 | booking keeps every database invariant |
| Invariants.ReservarTope | app.py:672-691 | booking keeps the one-active-reservation-per-client-per-day rule and the audit of cancellations |
| Invariants.SegundaReservaRechazada | app.py:676-691 | right after a booking, a second booking by the same client on that date is refused as `YaTieneCita` |
| Invariants.MismoHorarioRechazado | app.py:709-712 | right after a booking, another client's booking of the same barber, date and time is refused as `HorarioTomado` |
| Invariants.DisponibleEsReservable | app.py:626-639 | with the active-only key, a time whose label is listed as free can be booked by a client with no reservation that day |
| Invariants.CanceladaBloqueaConClavePlana | app.py:709-712 | with a plain UNIQUE key, a cancelled reservation's slot is listed as free but its booking fails as `HorarioTomado` |
| Invariants.AnularEfecto | app.py:791-800 | a cancellation sets exactly the named reservation to `cancelada`, keeps every other row, and appends exactly one audit row |
| Invariants.ConEstadoValid | app.py:978-980 | a status update that keeps the key keeps every database invariant |
| Invariants.AnularValid | app.py:791-800 | a cancellation of an existing reservation keeps every database invariant |
| Invariants.BajarEstadoTope | app.py:792 | setting a non-active status keeps the per-client-per-day rule |
| Invariants.AnularAuditada | app.py:791-800 | after a cancellation every cancelled reservation still has its audit row |
| Lifecycle.CancelarCitaResultado | app.py:771-813 | refused without a motivo, refused unless the reservation is the caller's, and accepted exactly when neither holds (no length limit on this route); on success only that reservation becomes `cancelada` and one 'cliente' audit row is appended; a refusal changes nothing |
| Lifecycle.CancelarCitaPreserva | app.py:771-813 | a client's cancellation keeps the database invariants, the per-client-per-day rule and the audit |
| Lifecycle.BarberoCancelarCitaResultado | app.py:993-1044 | refused for a motivo blank after stripping, refused above 255 characters, refused unless assigned to the calling barber; on success only that reservation becomes `cancelada` and one 'barbero' audit row is appended; a refusal changes nothing |
| Lifecycle.BarberoCancelarCitaPreserva | app.py:993-1044 | a barber's cancellation keeps the database invariants, the per-client-per-day rule and the audit |
| Lifecycle.CambiarEstadoResultado | app.py:950-988 | only 'confirmada' or 'cancelada' are accepted, only for a reservation of the calling barber; such a request succeeds exactly when the key still holds after the update, so a cancellation by the assigned barber always succeeds; on success that reservation takes the new status whatever it was, and no audit row is written; the invariants hold after |
| Lifecycle.ReconfirmarRompeTope | app.py:978-980 | re-confirming a cancelled reservation is accepted and leaves a client with two active reservations on one date |
| Lifecycle.ReconfirmarDosCitas | app.py:957-980 | in a concrete state (a client's cancelled 12:00 reservation with one barber and a pending 12:30 one with another on the same date) the first barber's re-confirmation is accepted and leaves two active reservations |
| Lifecycle.CancelarPorCambioSinAuditoria | app.py:978-980 | cancelling through the status change leaves a `cancelada` reservation with no `Cancelacion` row |
| Lifecycle.ConfirmarActivaTope | app.py:978-980 | confirming a reservation that is still active keeps the per-client-per-day rule |
| Lifecycle.CambiarEstadoCorregidoPreserva | app.py:978-980 | the corrected status change keeps the invariants and the per-client-per-day rule, and never confirms a reservation that is no longer active |
| Validation.LastDot | app.py:887-888 | finds the last '.' of a name: none exactly when the name has no dot, and no dot follows it |
| Validation.AllowedFile | app.py:887-888 | the extension whitelist; stated by `Validation.AllowedFileSplit`, `Validation.AllowedFileNeedsDot`, `Validation.AllowedFileUpperCase` and `Validation.AllowedFileLastPart` |
| Validation.AllowedFileSplit | app.py:887-888 | a name, a dot and a dot-free tail is accepted exactly when the lower-cased tail is png, jpg, jpeg or gif |
| Validation.AllowedFileNeedsDot | app.py:887-888 | a name without a dot is refused |
| Validation.AllowedFileUpperCase | app.py:887-888 | the extension check ignores case ("FOTO.PNG" is accepted) |
| Validation.AllowedFileLastPart | app.py:887-888 | only the last extension counts ("foto.png.exe" is refused) |
| Validation.ValidarClave | app.py:140-146 | a password is accepted exactly when it matches its confirmation and has at least 6 characters; a mismatch is reported first |
| Validation.Alternar | app.py:1351 | the new flag is 0 or 1, and it is 1 exactly when the old flag is 0 |
| Validation.AlternarInvolucion | app.py:1351 | on the flags 0 and 1, toggling twice restores the flag |
| Store.Store.UsuarioTieneCitaParaFecha | app.py:738-766 | true exactly when the user holds a `pendiente` or `confirmada` reservation on that date |
| Store.Store.GenerarSlotsDia | app.py:1094-1139 | builds exactly the specified day: closed, unreadable, or the opening and closing labels with the slot list of the grid |
| Store.Store.ObtenerHorariosDisponibles | app.py:586-652 | missing parameters are refused; a closed day says so; otherwise the list is exactly the `disponible` labels of the same day in grid order, and an empty list today is reported as closed |
| Store.Store.RecorrerSlots | app.py:1121-1132 | the loop yields exactly the slot list of the grid, one slot per half hour with its status |
| Store.Store.RecorrerDisponibles | app.py:626-639 | the loop, with its `continue` over elapsed slots, yields exactly the labels of the `disponible` slots in grid order |
| Store.Store.ProcesarCita | app.py:657-722 | the imperative booking ends in exactly the state and result of the booking transition (with a rollback when a service insert fails) and keeps the invariants |
| Store.Store.InsertarServicios | app.py:695-717 | one link per selected service in order; a service outside the catalogue rolls back the links inserted so far and reports failure, which happens exactly when some selected service is not in the catalogue; no other table changes |
| Store.Store.CancelarCita | app.py:771-813 | ends in exactly the state and result of the client's cancellation and keeps the invariants |
| Store.Store.BarberoCancelarCita | app.py:993-1044 | ends in exactly the state and result of the barber's cancellation and keeps the invariants |
| Store.Store.CambiarEstadoCita | app.py:950-988 | ends in exactly the state and result of the status change as written and keeps the invariants |
| Store.Store.CambiarEstadoBarbero | app.py:1334-1356 | an unknown barber changes nothing; otherwise only that barber's flag is toggled |

## Left out

- Flask plumbing is not modelled: sessions, `flash`, redirects, templates, JSON bodies, `login_required` and the `user_role` checks. The caller's identity is a parameter.
- MySQL connections and cursors are not modelled. Each route is one atomic step on the tables; concurrency between requests is left to the database and not modelled.
- The schema is not part of this model. Assumed: `uniq_barbero_slot` with either scope (`Tables.Alcance`); a reservation's barber must exist; every selected service must be in the catalogue; cita ids come from an AUTO_INCREMENT counter.
- Tables.Reservar: a rolled-back booking leaves the AUTO_INCREMENT counter unchanged, whereas MySQL keeps the consumed value. Only the ids of later reservations differ.
- Store.Store.ProcesarCita: the barber's active flag, the slot grid and past dates are not checked, because the source does not check them either. An integrity error is reported as a slot clash before any other constraint.
- Form strings converted by MySQL (`hora`, `barbero_id`, service ids) arrive already converted. A malformed `fecha` (an exception in `strptime`, answered with a 500) is not modelled.
- Store.Store.UsuarioTieneCitaParaFecha: the `True` returned when the query raises an exception is not modelled.
- The `verificar_cita_usuario` wrapper route is not modelled; it only reads `fecha` and calls `usuario_tiene_cita_para_fecha`.
- Exception branches other than integrity errors are left out: connection failures and other server errors.
- `datetime.now()` is taken in whole seconds. Every slot time is a whole number of seconds, so `slot <= now` holds exactly when `slot <= floor(now)`.
- A `timedelta` column is taken in whole seconds; fractional seconds are dropped before the conversion anyway.
- `strptime` is modelled for ASCII digits only; Unicode decimal digits are not accepted.
- Validation.Lower lowers ASCII capitals only. Python's full Unicode lowering never turns a name with other characters into a whitelisted extension (the only character that lowers to a single ASCII letter is the Kelvin sign, giving 'k'), so acceptance is unchanged.
- The biography length check (`app.py:913`) is a single comparison `len <= 60` with nothing else to state.
- The second password check (`app.py:285-291`) is identical to the one at `app.py:140-146` and shares `Validation.ValidarClave`.
- The read-only listings are not modelled (`mis_citas`, the barber dashboard and agenda, `admin_citas`), nor the CSV export, e-mail, password hashing, tokens, file upload and the browser scripts.
- The `completada`/`no asistio` states are never written by the engine; they appear only as possible stored values.

## Findings

| source | as written | input that shows it | evidently intended | confidence | as-written member | corrected member |
|---|---|---|---|---|---|---|
| app.py:978-980 | `cambiar_estado_cita` overwrites the status whatever it was, so a cancelled reservation can be confirmed again | client 7 holds reservation 0 (cancelled, barber 1, user 50) and reservation 1 (pending) on one date; user 50 sets reservation 0 to 'confirmada' → two active reservations for client 7 that day | a reservation that is no longer active is not confirmed again, keeping one active reservation per client per day | not executed | Lifecycle.ReconfirmarRompeTope | Lifecycle.CambiarEstadoCorregidoPreserva |

- The as-written transition is `Tables.CambiarEstado`, and the corrected one is `Tables.CambiarEstadoCorregido`.
- The route method `Store.Store.CambiarEstadoCita` models the code as written.
