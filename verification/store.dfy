/** The database as one mutable object, and each route of the booking engine
    as a method on it. Every write route performs, step by step, the
    transition that `Tables` defines as a function, and keeps the database
    invariants; the read routes run the slot loops and are proved against the
    functions of `Slots`. */
module Store {
  import opened Common
  import opened Hours
  import opened Slots
  import opened Tables
  import opened Invariants
  import opened Lifecycle
  import opened Validation

  /** The JSON answers of `obtener_horarios_disponibles`: a missing form
      field (400), a closed day, no slot left today (`cerrado` True with an
      empty list), the list of free `'HH:MM'` labels, or a server error (500,
      an override whose times cannot be read). */
  datatype Respuesta = FaltanParametros | Cerrada | SinHorariosHoy | Horarios(horas: seq<nat>) | ErrorServidor

  class Store {
    var citas: seq<Cita>
    var citaServicios: seq<CitaServicio>
    var cancelaciones: seq<Cancelacion>
    var siguienteId: nat
    var barberos: map<BarberId, Barbero>
    var catalogo: set<ServiceId>
    var especiales: map<Date, Override>
    var alcance: Alcance

    /** The tables as one value. */
    function Snapshot(): Tablas
      reads this
    {
      Tablas(citas, citaServicios, cancelaciones, siguienteId, barberos, catalogo, especiales, alcance)
    }

    ghost predicate Valid()
      reads this
    {
      Tables.Valid(Snapshot())
    }

    /** A connection to a database in state `t`. */
    constructor (t: Tablas)
      requires Tables.Valid(t)
      ensures Valid() && Snapshot() == t
    {
      citas := t.citas;
      citaServicios := t.citaServicios;
      cancelaciones := t.cancelaciones;
      siguienteId := t.siguienteId;
      barberos := t.barberos;
      catalogo := t.catalogo;
      especiales := t.especiales;
      alcance := t.alcance;
    }

    // -------------------------------------------------------------------
    // reads

    /** `usuario_tiene_cita_para_fecha`: whether the user holds an active
        reservation on that date. */
    method UsuarioTieneCitaParaFecha(usuario: UserId, fecha: Date) returns (b: bool)
      ensures b <==> exists i :: 0 <= i < |citas| && citas[i].usuario == usuario && citas[i].fecha == fecha
                                 && (citas[i].estado == Pendiente || citas[i].estado == Confirmada)
    {
      b := TieneCitaActiva(citas, usuario, fecha);
    }

    /** `generar_slots_dia`: resolves the day's window, then walks its grid
        and gives each slot its status. */
    method GenerarSlotsDia(barbero: BarberId, fecha: Date, hoy: Date, ahora: TimeOfDay) returns (r: Dia)
      ensures r == SlotsDia(ObtenerHorarioDia(especiales, fecha), fecha == hoy, ahora, Ocupadas(citas, barbero, fecha))
    {
      var horario := ObtenerHorarioDia(especiales, fecha);
      var ocupadas := Ocupadas(citas, barbero, fecha);
      var esHoy := fecha == hoy;
      match horario
      case Cerrado =>
        r := DiaCerrado;
      case Invalido =>
        r := HorarioInvalido;
      case Abierto(desde, hasta) =>
        var slots := RecorrerSlots(desde, hasta, esHoy, ahora, ocupadas);
        r := DiaAbierto(desde / 60, hasta / 60, slots);
    }

    /** The loop of `generar_slots_dia`: from opening time in steps of 30
        minutes while below closing time, one slot per time with its status
        (elapsed first, then taken, otherwise available). */
    method RecorrerSlots(desde: nat, hasta: nat, esHoy: bool, ahora: TimeOfDay, ocupadas: set<nat>)
      returns (slots: seq<Slot>)
      ensures slots == SlotsFrom(desde, hasta, esHoy, ahora, ocupadas)
    {
      slots := [];
      var actual: nat := desde;
      while actual < hasta
        invariant slots + SlotsFrom(actual, hasta, esHoy, ahora, ocupadas)
                  == SlotsFrom(desde, hasta, esHoy, ahora, ocupadas)
        decreases hasta - actual
      {
        var hhmm := actual / 60;
        var estado: EstadoSlot;
        if esHoy && actual <= ahora {
          estado := Pasado;
        } else if hhmm in ocupadas {
          estado := Reservado;
        } else {
          estado := Disponible;
        }
        SlotsPaso(slots, actual, hasta, esHoy, ahora, ocupadas);
        slots := slots + [Slot(hhmm, estado)];
        actual := actual + Step;
      }
      assert slots == slots + SlotsFrom(actual, hasta, esHoy, ahora, ocupadas);
    }

    /** `obtener_horarios_disponibles`: the same window and grid, keeping the
        labels of the slots that are neither elapsed nor held by an active
        reservation. Its list is exactly the `disponible` slots of
        `GenerarSlotsDia` for the same barber, date and moment, in grid
        order. */
    method ObtenerHorariosDisponibles(barbero: Option<BarberId>, fecha: Option<Date>, hoy: Date, ahora: TimeOfDay)
      returns (r: Respuesta)
      ensures barbero.None? || fecha.None? ==> r == FaltanParametros
      ensures barbero.Some? && fecha.Some? ==>
        match SlotsDia(ObtenerHorarioDia(especiales, fecha.value), fecha.value == hoy, ahora,
                       Ocupadas(citas, barbero.value, fecha.value))
        case DiaCerrado => r == Cerrada
        case HorarioInvalido => r == ErrorServidor
        case DiaAbierto(_, _, slots) =>
          r == (if fecha.value == hoy && Disponibles(slots) == [] then SinHorariosHoy
                else Horarios(Disponibles(slots)))
    {
      if barbero.None? || fecha.None? {
        return FaltanParametros;
      }
      var horarioDia := ObtenerHorarioDia(especiales, fecha.value);
      var existentes := Ocupadas(citas, barbero.value, fecha.value);
      var esHoy := fecha.value == hoy;
      match horarioDia
      case Cerrado =>
        r := Cerrada;
      case Invalido =>
        r := ErrorServidor;
      case Abierto(inicio, fin) =>
        var horarios := RecorrerDisponibles(inicio, fin, esHoy, ahora, existentes);
        if esHoy && horarios == [] {
          r := SinHorariosHoy;
        } else {
          r := Horarios(horarios);
        }
    }

    /** The loop of `obtener_horarios_disponibles`: elapsed slots are skipped
        (`continue`), the others are kept when no active reservation holds
        their label. */
    method RecorrerDisponibles(inicio: nat, fin: nat, esHoy: bool, ahora: TimeOfDay, existentes: set<nat>)
      returns (horarios: seq<nat>)
      ensures horarios == Disponibles(SlotsFrom(inicio, fin, esHoy, ahora, existentes))
    {
      horarios := [];
      ghost var total := Disponibles(SlotsFrom(inicio, fin, esHoy, ahora, existentes));
      var actual: nat := inicio;
      assert [] + total == total;
      while actual < fin
        invariant horarios + Disponibles(SlotsFrom(actual, fin, esHoy, ahora, existentes)) == total
        decreases fin - actual
      {
        var horario := actual / 60;
        if esHoy && actual <= ahora {
          DisponiblesSalta(horarios, actual, fin, esHoy, ahora, existentes, total);
          actual := actual + Step;
          continue;
        }
        if horario !in existentes {
          DisponiblesToma(horarios, actual, fin, esHoy, ahora, existentes, total);
          horarios := horarios + [horario];
        } else {
          DisponiblesSalta(horarios, actual, fin, esHoy, ahora, existentes, total);
        }
        actual := actual + Step;
      }
      DisponiblesFin(horarios, actual, fin, esHoy, ahora, existentes, total);
    }

    // -------------------------------------------------------------------
    // writes

    /** `procesar_cita`: the field check, the conditional insert of a
        `pendiente` reservation, then one `Cita_servicio` row per selected
        service; an integrity error on any insert rolls the whole transaction
        back. */
    method ProcesarCita(usuario: UserId, barbero: Option<BarberId>, fecha: Option<Date>,
                        hora: Option<TimeOfDay>, seleccion: seq<ServiceId>) returns (r: Reserva)
      requires Valid()
      modifies this
      ensures Valid()
      ensures (Snapshot(), r) == Reservar(old(Snapshot()), usuario, barbero, fecha, hora, seleccion)
    {
      ghost var t := Snapshot();
      ReservarValid(t, usuario, barbero, fecha, hora, seleccion);
      if barbero.None? || fecha.None? || hora.None? || seleccion == [] {
        return CamposObligatorios;
      }
      if TieneCitaActiva(citas, usuario, fecha.value) {
        // the INSERT ... WHERE NOT EXISTS affects no row
        return YaTieneCita;
      }
      var id := siguienteId;
      var nueva := Cita(id, usuario, barbero.value, fecha.value, hora.value, Pendiente);
      InsertarClave(alcance, citas, nueva);
      if CuentaEnClave(alcance, nueva) && HorarioOcupado(alcance, citas, nueva.barbero, nueva.fecha, nueva.hora) {
        return HorarioTomado;
      }
      if barbero.value !in barberos {
        return RestriccionBD;
      }
      var citasAntes := citas;
      citas := citas + [nueva];
      siguienteId := siguienteId + 1;
      var ok := InsertarServicios(id, seleccion);
      if !ok {
        // the transaction is rolled back: the reservation row goes too
        citas := citasAntes;
        siguienteId := id;
        return RestriccionBD;
      }
      r := Reservada(id);
    }

    /** The `Cita_servicio` inserts of `procesar_cita`, one per selected
        service in order. A service outside the catalogue fails its foreign
        key: the links inserted so far are rolled back and the result is
        false. */
    method InsertarServicios(id: CitaId, seleccion: seq<ServiceId>) returns (ok: bool)
      modifies this
      ensures ok <==> forall k :: 0 <= k < |seleccion| ==> seleccion[k] in catalogo
      ensures citaServicios == if ok then old(citaServicios) + Vinculos(id, seleccion) else old(citaServicios)
      ensures citas == old(citas) && cancelaciones == old(cancelaciones) && siguienteId == old(siguienteId)
      ensures barberos == old(barberos) && catalogo == old(catalogo)
      ensures especiales == old(especiales) && alcance == old(alcance)
    {
      var antes := citaServicios;
      var i := 0;
      while i < |seleccion|
        invariant 0 <= i <= |seleccion|
        invariant citaServicios == antes + Vinculos(id, seleccion[..i])
        invariant forall k :: 0 <= k < i ==> seleccion[k] in catalogo
        invariant citas == old(citas) && cancelaciones == old(cancelaciones) && siguienteId == old(siguienteId)
        invariant barberos == old(barberos) && catalogo == old(catalogo)
        invariant especiales == old(especiales) && alcance == old(alcance)
      {
        if seleccion[i] !in catalogo {
          citaServicios := antes;
          return false;
        }
        citaServicios := citaServicios + [CitaServicio(id, seleccion[i])];
        assert seleccion[..i + 1] == seleccion[..i] + [seleccion[i]];
        i := i + 1;
      }
      assert seleccion[..i] == seleccion;
      ok := true;
    }

    /** `cancelar_cita`. */
    method CancelarCita(usuario: UserId, id: CitaId, motivo: string) returns (r: Cancelar)
      requires Valid()
      modifies this
      ensures Valid()
      ensures (Snapshot(), r) == Tables.CancelarCita(old(Snapshot()), usuario, id, motivo)
    {
      ghost var t := Snapshot();
      CancelarCitaPreserva(t, usuario, id, motivo);
      if motivo == "" {
        return MotivoRequerido;
      }
      if !DelUsuario(citas, id, usuario) {
        return SinPermiso;
      }
      citas := ConEstado(citas, id, Cancelada);
      cancelaciones := cancelaciones + [Cancelacion(id, motivo, PorCliente)];
      r := Cancelada_;
      assert Snapshot() == Anular(t, id, motivo, PorCliente);
    }

    /** `barbero_cancelar_cita`. */
    method BarberoCancelarCita(usuario: UserId, id: CitaId, motivo: string) returns (r: Cancelar)
      requires Valid()
      modifies this
      ensures Valid()
      ensures (Snapshot(), r) == Tables.BarberoCancelarCita(old(Snapshot()), usuario, id, motivo)
    {
      ghost var t := Snapshot();
      BarberoCancelarCitaPreserva(t, usuario, id, motivo);
      if EnBlanco(motivo) {
        return MotivoRequerido;
      }
      if |motivo| > 255 {
        return MotivoLargo;
      }
      if !AsignadaA(Snapshot(), id, usuario) {
        return SinPermiso;
      }
      citas := ConEstado(citas, id, Cancelada);
      cancelaciones := cancelaciones + [Cancelacion(id, motivo, PorBarbero)];
      r := Cancelada_;
      assert Snapshot() == Anular(t, id, motivo, PorBarbero);
    }

    /** `cambiar_estado_cita`. */
    method CambiarEstadoCita(usuario: UserId, id: CitaId, nuevo: string) returns (r: CambioEstado)
      requires Valid()
      modifies this
      ensures Valid()
      ensures (Snapshot(), r) == CambiarEstado(old(Snapshot()), usuario, id, nuevo)
    {
      ghost var t := Snapshot();
      CambiarEstadoResultado(t, usuario, id, nuevo);
      if nuevo != "confirmada" && nuevo != "cancelada" {
        return EstadoInvalido;
      }
      if !AsignadaA(Snapshot(), id, usuario) {
        return NoAutorizada;
      }
      var e := if nuevo == "confirmada" then Confirmada else Cancelada;
      var nuevas := ConEstado(citas, id, e);
      if !ClaveUnica(alcance, nuevas) {
        // the UPDATE violates uniq_barbero_slot: rolled back
        return ErrorBD;
      }
      citas := nuevas;
      r := Cambiada(e);
      assert Snapshot() == t.(citas := nuevas);
    }

    /** `cambiar_estado_barbero`: an unknown barber changes nothing;
        otherwise the flag is switched (0 becomes 1, anything else 0) and
        nothing else changes. */
    method CambiarEstadoBarbero(barbero: BarberId) returns (r: Option<int>)
      requires Valid()
      modifies this
      ensures Valid()
      ensures barbero !in old(barberos) ==> r == None && Snapshot() == old(Snapshot())
      ensures barbero in old(barberos) ==>
        && r == Some(Alternar(old(barberos)[barbero].estado))
        && Snapshot() == old(Snapshot()).(barberos := old(barberos)[barbero := old(barberos)[barbero].(estado := r.value)])
    {
      if barbero !in barberos {
        return None;
      }
      var nuevo := if barberos[barbero].estado == 0 then 1 else 0;
      barberos := barberos[barbero := barberos[barbero].(estado := nuevo)];
      r := Some(nuevo);
    }
  }
}
