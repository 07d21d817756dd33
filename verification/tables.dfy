/** The tables the booking engine reads and writes (`CITA`, `Cita_servicio`,
    `Cancelacion`, `Barbero`, the service catalogue and `horario_especial`),
    the invariants the database keeps over them, and each write route as one
    atomic transition from the tables before to the tables after. The class
    `Store.Store` performs these transitions step by step; the lemmas here
    say what they mean. */
module Tables {
  import opened Common
  import opened Hours

  type UserId = nat
  type BarberId = nat
  type ServiceId = nat
  type CitaId = nat

  datatype EstadoCita = Pendiente | Confirmada | Cancelada | Completada | NoAsistio

  /** `estado IN ('pendiente','confirmada')`. */
  predicate Activa(e: EstadoCita) { e == Pendiente || e == Confirmada }

  datatype Cita = Cita(id: CitaId, usuario: UserId, barbero: BarberId, fecha: Date, hora: TimeOfDay, estado: EstadoCita)
  datatype CitaServicio = CitaServicio(cita: CitaId, servicio: ServiceId)
  datatype Actor = PorCliente | PorBarbero
  datatype Cancelacion = Cancelacion(cita: CitaId, motivo: string, canceladoPor: Actor)
  /** A `Barbero` row: the user account behind it and its active flag. */
  datatype Barbero = Barbero(usuario: UserId, estado: int)

  /** Which rows the `uniq_barbero_slot` key covers. The schema is not part
      of this model: `SoloActivas` is the reading in which only active
      reservations hold a slot, `TodasLasFilas` a plain UNIQUE over
      (barbero_id, fecha, hora). */
  datatype Alcance = SoloActivas | TodasLasFilas

  datatype Tablas = Tablas(
    citas: seq<Cita>,
    citaServicios: seq<CitaServicio>,
    cancelaciones: seq<Cancelacion>,
    siguienteId: nat,                 // the next AUTO_INCREMENT value of CITA
    barberos: map<BarberId, Barbero>,
    catalogo: set<ServiceId>,         // service ids a Cita_servicio row may reference
    especiales: map<Date, Override>,
    alcance: Alcance)

  // ---------------------------------------------------------------------
  // queries

  /** `usuario_tiene_cita_para_fecha`, and the NOT EXISTS of the conditional
      insert: the user holds an active reservation on that date. */
  predicate TieneCitaActiva(citas: seq<Cita>, usuario: UserId, fecha: Date)
  {
    exists i :: 0 <= i < |citas| && citas[i].usuario == usuario && citas[i].fecha == fecha && Activa(citas[i].estado)
  }

  /** The `'HH:MM'` labels held by active reservations of a barber on a date. */
  function Ocupadas(citas: seq<Cita>, barbero: BarberId, fecha: Date): set<nat>
  {
    set i | 0 <= i < |citas| && citas[i].barbero == barbero && citas[i].fecha == fecha && Activa(citas[i].estado)
      :: Minute(citas[i].hora)
  }

  /** Whether a row counts for `uniq_barbero_slot`. */
  predicate CuentaEnClave(alcance: Alcance, c: Cita)
  {
    alcance == TodasLasFilas || Activa(c.estado)
  }

  predicate MismoHorario(a: Cita, b: Cita)
  {
    a.barbero == b.barbero && a.fecha == b.fecha && a.hora == b.hora
  }

  /** `uniq_barbero_slot` holds: no two counted rows share (barbero, fecha, hora). */
  predicate ClaveUnica(alcance: Alcance, citas: seq<Cita>)
  {
    forall i, j :: (0 <= i < j < |citas| && CuentaEnClave(alcance, citas[i]) && CuentaEnClave(alcance, citas[j]))
                    ==> !MismoHorario(citas[i], citas[j])
  }

  /** A counted row already holds (barbero, fecha, hora). */
  predicate HorarioOcupado(alcance: Alcance, citas: seq<Cita>, barbero: BarberId, fecha: Date, hora: TimeOfDay)
  {
    exists i :: 0 <= i < |citas| && CuentaEnClave(alcance, citas[i])
      && citas[i].barbero == barbero && citas[i].fecha == fecha && citas[i].hora == hora
  }

  /** The per-client-per-day rule: no user holds two active reservations on one date. */
  predicate TopeDiario(citas: seq<Cita>)
  {
    forall i, j :: (0 <= i < j < |citas| && Activa(citas[i].estado) && Activa(citas[j].estado)
                    && citas[i].usuario == citas[j].usuario) ==> citas[i].fecha != citas[j].fecha
  }

  predicate ExisteCita(citas: seq<Cita>, id: CitaId)
  {
    exists i :: 0 <= i < |citas| && citas[i].id == id
  }

  predicate TieneServicio(vinculos: seq<CitaServicio>, id: CitaId)
  {
    exists k :: 0 <= k < |vinculos| && vinculos[k].cita == id
  }

  predicate TieneCancelacion(cancelaciones: seq<Cancelacion>, id: CitaId)
  {
    exists k :: 0 <= k < |cancelaciones| && cancelaciones[k].cita == id
  }

  /** What the database keeps true at every commit: ids are unique and below
      the AUTO_INCREMENT counter, `uniq_barbero_slot` holds, every service
      link and every cancellation names an existing reservation, and every
      reservation has at least one service. */
  ghost predicate Valid(t: Tablas)
  {
    && (forall i :: 0 <= i < |t.citas| ==> t.citas[i].id < t.siguienteId)
    && (forall i, j :: 0 <= i < j < |t.citas| ==> t.citas[i].id != t.citas[j].id)
    && ClaveUnica(t.alcance, t.citas)
    && (forall k :: 0 <= k < |t.citaServicios| ==> ExisteCita(t.citas, t.citaServicios[k].cita))
    && (forall k :: 0 <= k < |t.cancelaciones| ==> ExisteCita(t.citas, t.cancelaciones[k].cita))
    && (forall i :: 0 <= i < |t.citas| ==> TieneServicio(t.citaServicios, t.citas[i].id))
  }

  /** Every cancelled reservation has a `Cancelacion` row. */
  ghost predicate Auditada(t: Tablas)
  {
    forall i :: 0 <= i < |t.citas| && t.citas[i].estado == Cancelada ==> TieneCancelacion(t.cancelaciones, t.citas[i].id)
  }

  // ---------------------------------------------------------------------
  // procesar_cita

  datatype Reserva = Reservada(id: CitaId) | CamposObligatorios | YaTieneCita | HorarioTomado | RestriccionBD

  /** The `Cita_servicio` rows of a new reservation, one per selected service. */
  function Vinculos(id: CitaId, seleccion: seq<ServiceId>): (r: seq<CitaServicio>)
    ensures |r| == |seleccion|
  {
    seq(|seleccion|, k requires 0 <= k < |seleccion| => CitaServicio(id, seleccion[k]))
  }

  /** `procesar_cita`. A missing form field is `None` (or an empty service
      list); the checks run in the source's order: the fields, the
      conditional insert, `uniq_barbero_slot` on that insert, the other
      integrity constraints (barber and services must exist); only when all
      pass does the transaction commit. */
  function Reservar(t: Tablas, usuario: UserId, barbero: Option<BarberId>, fecha: Option<Date>,
                    hora: Option<TimeOfDay>, seleccion: seq<ServiceId>): (Tablas, Reserva)
  {
    if barbero.None? || fecha.None? || hora.None? || seleccion == [] then (t, CamposObligatorios)
    else if TieneCitaActiva(t.citas, usuario, fecha.value) then (t, YaTieneCita)
    else
      var nueva := Cita(t.siguienteId, usuario, barbero.value, fecha.value, hora.value, Pendiente);
      if !ClaveUnica(t.alcance, t.citas + [nueva]) then (t, HorarioTomado)
      else if barbero.value !in t.barberos || exists k :: 0 <= k < |seleccion| && seleccion[k] !in t.catalogo then
        (t, RestriccionBD)
      else
        (t.(citas := t.citas + [nueva],
            citaServicios := t.citaServicios + Vinculos(t.siguienteId, seleccion),
            siguienteId := t.siguienteId + 1),
         Reservada(t.siguienteId))
  }

  // ---------------------------------------------------------------------
  // status updates and cancellations

  /** `UPDATE CITA SET estado = e WHERE cita_id = id`. */
  function ConEstado(citas: seq<Cita>, id: CitaId, e: EstadoCita): (r: seq<Cita>)
    ensures |r| == |citas|
  {
    seq(|citas|, i requires 0 <= i < |citas| => if citas[i].id == id then citas[i].(estado := e) else citas[i])
  }

  /** The status update and the audit row that every cancellation commits together. */
  function Anular(t: Tablas, id: CitaId, motivo: string, por: Actor): Tablas
  {
    t.(citas := ConEstado(t.citas, id, Cancelada),
       cancelaciones := t.cancelaciones + [Cancelacion(id, motivo, por)])
  }

  datatype Cancelar = Cancelada_ | MotivoRequerido | MotivoLargo | SinPermiso

  /** The reservation exists and belongs to this client. */
  predicate DelUsuario(citas: seq<Cita>, id: CitaId, usuario: UserId)
  {
    exists i :: 0 <= i < |citas| && citas[i].id == id && citas[i].usuario == usuario
  }

  /** The reservation exists and is assigned to a barber whose account is
      `usuario` (the join of `CITA` with `Barbero` on `barbero_id`). */
  predicate AsignadaA(t: Tablas, id: CitaId, usuario: UserId)
  {
    exists i :: 0 <= i < |t.citas| && t.citas[i].id == id
      && t.citas[i].barbero in t.barberos && t.barberos[t.citas[i].barbero].usuario == usuario
  }

  /** `cancelar_cita`: a missing motivo is the empty string. */
  function CancelarCita(t: Tablas, usuario: UserId, id: CitaId, motivo: string): (Tablas, Cancelar)
  {
    if motivo == "" then (t, MotivoRequerido)
    else if !DelUsuario(t.citas, id, usuario) then (t, SinPermiso)
    else (Anular(t, id, motivo, PorCliente), Cancelada_)
  }

  /** The characters Python's `str.strip()` removes (those `str.isspace()` accepts). */
  predicate EsEspacio(c: char)
  {
    var n := c as int;
    (9 <= n <= 13) || (28 <= n <= 32) || n == 0x85 || n == 0xA0 || n == 0x1680
    || (0x2000 <= n <= 0x200A) || n == 0x2028 || n == 0x2029 || n == 0x202F
    || n == 0x205F || n == 0x3000
  }

  /** `len(motivo.strip()) == 0`. */
  predicate EnBlanco(s: string)
  {
    forall i :: 0 <= i < |s| ==> EsEspacio(s[i])
  }

  /** `barbero_cancelar_cita`. */
  function BarberoCancelarCita(t: Tablas, usuario: UserId, id: CitaId, motivo: string): (Tablas, Cancelar)
  {
    if EnBlanco(motivo) then (t, MotivoRequerido)
    else if |motivo| > 255 then (t, MotivoLargo)
    else if !AsignadaA(t, id, usuario) then (t, SinPermiso)
    else (Anular(t, id, motivo, PorBarbero), Cancelada_)
  }

  datatype CambioEstado = Cambiada(estado: EstadoCita) | EstadoInvalido | NoAutorizada | ErrorBD | TransicionInvalida

  /** `cambiar_estado_cita`: the form value must be 'confirmada' or
      'cancelada'; the status is overwritten whatever it was; the UPDATE is
      refused by `uniq_barbero_slot` when it would make two counted rows share
      a slot; no `Cancelacion` row is written. */
  function CambiarEstado(t: Tablas, usuario: UserId, id: CitaId, nuevo: string): (Tablas, CambioEstado)
  {
    if nuevo != "confirmada" && nuevo != "cancelada" then (t, EstadoInvalido)
    else if !AsignadaA(t, id, usuario) then (t, NoAutorizada)
    else
      var e := if nuevo == "confirmada" then Confirmada else Cancelada;
      var citas := ConEstado(t.citas, id, e);
      if !ClaveUnica(t.alcance, citas) then (t, ErrorBD)
      else (t.(citas := citas), Cambiada(e))
  }

  /** `cambiar_estado_cita` as evidently intended: a reservation that is no
      longer active cannot be confirmed again. */
  function CambiarEstadoCorregido(t: Tablas, usuario: UserId, id: CitaId, nuevo: string): (Tablas, CambioEstado)
  {
    if nuevo == "confirmada" && AsignadaA(t, id, usuario)
       && exists i :: 0 <= i < |t.citas| && t.citas[i].id == id && !Activa(t.citas[i].estado)
    then (t, TransicionInvalida)
    else CambiarEstado(t, usuario, id, nuevo)
  }
}
