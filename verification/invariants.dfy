/** What the write routes guarantee: each keeps the database invariants,
    each failure leaves every table as it was, booking is a conditional insert
    on the per-client-per-day rule, and every cancellation changes exactly one
    reservation and appends exactly one audit row. */
module Invariants {
  import opened Common
  import opened Tables

  // ---------------------------------------------------------------------
  // uniq_barbero_slot

  /** Adding a row keeps the key unique exactly when the row is not counted
      or no counted row already holds its slot. */
  lemma InsertarClave(alcance: Alcance, citas: seq<Cita>, c: Cita)
    requires ClaveUnica(alcance, citas)
    ensures ClaveUnica(alcance, citas + [c]) <==>
              !(CuentaEnClave(alcance, c) && HorarioOcupado(alcance, citas, c.barbero, c.fecha, c.hora))
  {
    var s := citas + [c];
    if CuentaEnClave(alcance, c) && HorarioOcupado(alcance, citas, c.barbero, c.fecha, c.hora) {
      var i :| 0 <= i < |citas| && CuentaEnClave(alcance, citas[i])
        && citas[i].barbero == c.barbero && citas[i].fecha == c.fecha && citas[i].hora == c.hora;
      assert s[i] == citas[i] && s[|citas|] == c;
      assert MismoHorario(s[i], s[|citas|]);
    } else {
      forall i, j | 0 <= i < j < |s| && CuentaEnClave(alcance, s[i]) && CuentaEnClave(alcance, s[j])
        ensures !MismoHorario(s[i], s[j])
      {
        if j == |citas| {
          assert s[i] == citas[i];
        } else {
          assert s[i] == citas[i] && s[j] == citas[j];
        }
      }
    }
  }

  /** Moving a reservation to a status that is not active never breaks the key. */
  lemma BajarEstadoClave(alcance: Alcance, citas: seq<Cita>, id: CitaId, e: EstadoCita)
    requires ClaveUnica(alcance, citas) && !Activa(e)
    ensures ClaveUnica(alcance, ConEstado(citas, id, e))
  {
    var s := ConEstado(citas, id, e);
    forall i, j | 0 <= i < j < |s| && CuentaEnClave(alcance, s[i]) && CuentaEnClave(alcance, s[j])
      ensures !MismoHorario(s[i], s[j])
    {
      assert CuentaEnClave(alcance, citas[i]) && CuentaEnClave(alcance, citas[j]);
    }
  }

  /** Under the active-only reading, a time whose `'HH:MM'` the availability
      projector does not list as held is free for the booking insert. */
  lemma LibreSiNoOcupada(citas: seq<Cita>, barbero: BarberId, fecha: Date, hora: TimeOfDay)
    requires Minute(hora) !in Ocupadas(citas, barbero, fecha)
    ensures !HorarioOcupado(SoloActivas, citas, barbero, fecha, hora)
  {
    forall i | 0 <= i < |citas| && CuentaEnClave(SoloActivas, citas[i]) && citas[i].barbero == barbero && citas[i].fecha == fecha
      ensures citas[i].hora != hora
    {
      assert Minute(citas[i].hora) in Ocupadas(citas, barbero, fecha);
    }
  }

  // ---------------------------------------------------------------------
  // procesar_cita

  predicate Completo(barbero: Option<BarberId>, fecha: Option<Date>, hora: Option<TimeOfDay>, seleccion: seq<ServiceId>)
  {
    barbero.Some? && fecha.Some? && hora.Some? && seleccion != []
  }

  /** The outcome of a booking, case by case: missing fields; otherwise the
      daily limit exactly when the user already holds an active reservation
      that day; otherwise slot taken exactly when a counted row holds the
      slot; otherwise a reservation is inserted exactly when the barber and
      every service exist. Every failure leaves the tables as they were. */
  lemma ReservarResultado(t: Tablas, usuario: UserId, barbero: Option<BarberId>, fecha: Option<Date>,
                          hora: Option<TimeOfDay>, seleccion: seq<ServiceId>)
    requires Valid(t)
    ensures var (t', r) := Reservar(t, usuario, barbero, fecha, hora, seleccion);
      && (r == CamposObligatorios <==> !Completo(barbero, fecha, hora, seleccion))
      && (!r.Reservada? ==> t' == t)
      && (Completo(barbero, fecha, hora, seleccion) ==>
            && (r == YaTieneCita <==> TieneCitaActiva(t.citas, usuario, fecha.value))
            && (r == HorarioTomado <==>
                  (!TieneCitaActiva(t.citas, usuario, fecha.value)
                   && HorarioOcupado(t.alcance, t.citas, barbero.value, fecha.value, hora.value)))
            && (r.Reservada? <==>
                  (!TieneCitaActiva(t.citas, usuario, fecha.value)
                   && !HorarioOcupado(t.alcance, t.citas, barbero.value, fecha.value, hora.value)
                   && barbero.value in t.barberos
                   && (forall k :: 0 <= k < |seleccion| ==> seleccion[k] in t.catalogo))))
  {
    if Completo(barbero, fecha, hora, seleccion) {
      var nueva := Cita(t.siguienteId, usuario, barbero.value, fecha.value, hora.value, Pendiente);
      InsertarClave(t.alcance, t.citas, nueva);
    }
  }

  /** A successful booking appends one `pendiente` reservation under a fresh
      id and one `Cita_servicio` row per selected service, and those are the
      only service rows of the new id; nothing else changes. */
  lemma ReservarInserta(t: Tablas, usuario: UserId, barbero: Option<BarberId>, fecha: Option<Date>,
                        hora: Option<TimeOfDay>, seleccion: seq<ServiceId>)
    requires Valid(t)
    requires Reservar(t, usuario, barbero, fecha, hora, seleccion).1.Reservada?
    ensures var (t', r) := Reservar(t, usuario, barbero, fecha, hora, seleccion);
      && !ExisteCita(t.citas, r.id)
      && t'.citas == t.citas + [Cita(r.id, usuario, barbero.value, fecha.value, hora.value, Pendiente)]
      && t'.citaServicios == t.citaServicios + Vinculos(r.id, seleccion)
      && (forall k :: 0 <= k < |seleccion| ==> t'.citaServicios[|t.citaServicios| + k] == CitaServicio(r.id, seleccion[k]))
      && (forall k :: 0 <= k < |t'.citaServicios| && t'.citaServicios[k].cita == r.id ==> k >= |t.citaServicios|)
      && t'.cancelaciones == t.cancelaciones
      && t'.siguienteId == t.siguienteId + 1
      && t'.barberos == t.barberos && t'.catalogo == t.catalogo && t'.especiales == t.especiales && t'.alcance == t.alcance
  {
    var (t', r) := Reservar(t, usuario, barbero, fecha, hora, seleccion);
    forall k | 0 <= k < |t.citaServicios| ensures t'.citaServicios[k].cita != r.id {
      assert t'.citaServicios[k] == t.citaServicios[k];
      var i :| 0 <= i < |t.citas| && t.citas[i].id == t.citaServicios[k].cita;
    }
  }

  /** Booking keeps every database invariant. */
  lemma ReservarValid(t: Tablas, usuario: UserId, barbero: Option<BarberId>, fecha: Option<Date>,
                      hora: Option<TimeOfDay>, seleccion: seq<ServiceId>)
    requires Valid(t)
    ensures Valid(Reservar(t, usuario, barbero, fecha, hora, seleccion).0)
  {
    var (t', r) := Reservar(t, usuario, barbero, fecha, hora, seleccion);
    if r.Reservada? {
      var n := |t.citas|;
      assert t'.citas[n].id == r.id;
      forall i | 0 <= i < |t'.citas| ensures ExisteCita(t'.citas, t'.citas[i].id) && TieneServicio(t'.citaServicios, t'.citas[i].id) {
        if i < n {
          assert t'.citas[i] == t.citas[i];
          var k :| 0 <= k < |t.citaServicios| && t.citaServicios[k].cita == t.citas[i].id;
          assert t'.citaServicios[k] == t.citaServicios[k];
        } else {
          assert t'.citaServicios[|t.citaServicios|] == CitaServicio(r.id, seleccion[0]);
        }
      }
      forall k | 0 <= k < |t'.citaServicios| ensures ExisteCita(t'.citas, t'.citaServicios[k].cita) {
        if k < |t.citaServicios| {
          assert t'.citaServicios[k] == t.citaServicios[k];
          var i :| 0 <= i < n && t.citas[i].id == t.citaServicios[k].cita;
          assert t'.citas[i] == t.citas[i];
        } else {
          assert t'.citaServicios[k].cita == r.id;
        }
      }
      forall k | 0 <= k < |t'.cancelaciones| ensures ExisteCita(t'.citas, t'.cancelaciones[k].cita) {
        var i :| 0 <= i < n && t.citas[i].id == t.cancelaciones[k].cita;
        assert t'.citas[i] == t.citas[i];
      }
    }
  }

  /** Booking keeps the per-client-per-day rule and the cancellation audit. */
  lemma ReservarTope(t: Tablas, usuario: UserId, barbero: Option<BarberId>, fecha: Option<Date>,
                     hora: Option<TimeOfDay>, seleccion: seq<ServiceId>)
    requires Valid(t)
    ensures TopeDiario(t.citas) ==> TopeDiario(Reservar(t, usuario, barbero, fecha, hora, seleccion).0.citas)
    ensures Auditada(t) ==> Auditada(Reservar(t, usuario, barbero, fecha, hora, seleccion).0)
  {
    var (t', r) := Reservar(t, usuario, barbero, fecha, hora, seleccion);
    if r.Reservada? {
      var n := |t.citas|;
      if TopeDiario(t.citas) {
        forall i, j | 0 <= i < j < |t'.citas| && Activa(t'.citas[i].estado) && Activa(t'.citas[j].estado)
                      && t'.citas[i].usuario == t'.citas[j].usuario
          ensures t'.citas[i].fecha != t'.citas[j].fecha
        {
          assert t'.citas[i] == t.citas[i];
          if j == n {
            assert !TieneCitaActiva(t.citas, usuario, fecha.value);
          } else {
            assert t'.citas[j] == t.citas[j];
          }
        }
      }
      if Auditada(t) {
        forall i | 0 <= i < |t'.citas| && t'.citas[i].estado == Cancelada
          ensures TieneCancelacion(t'.cancelaciones, t'.citas[i].id)
        {
          assert i < n && t'.citas[i] == t.citas[i];
        }
      }
    }
  }

  /** Once a booking succeeds, any further booking by the same user on the
      same date is refused with the daily-limit error and changes nothing. */
  lemma SegundaReservaRechazada(t: Tablas, usuario: UserId, barbero: Option<BarberId>, fecha: Option<Date>,
                                hora: Option<TimeOfDay>, seleccion: seq<ServiceId>,
                                barbero2: BarberId, hora2: TimeOfDay, seleccion2: seq<ServiceId>)
    requires Reservar(t, usuario, barbero, fecha, hora, seleccion).1.Reservada?
    requires seleccion2 != []
    ensures var t' := Reservar(t, usuario, barbero, fecha, hora, seleccion).0;
      Reservar(t', usuario, Some(barbero2), fecha, Some(hora2), seleccion2) == (t', YaTieneCita)
  {
    var t' := Reservar(t, usuario, barbero, fecha, hora, seleccion).0;
    var n := |t.citas|;
    assert t'.citas[n].usuario == usuario && t'.citas[n].fecha == fecha.value && Activa(t'.citas[n].estado);
  }

  /** Once a booking succeeds, a booking of the same barber, date and time
      by any user without a reservation that day is refused as slot taken. */
  lemma MismoHorarioRechazado(t: Tablas, usuario: UserId, barbero: Option<BarberId>, fecha: Option<Date>,
                              hora: Option<TimeOfDay>, seleccion: seq<ServiceId>,
                              usuario2: UserId, seleccion2: seq<ServiceId>)
    requires Valid(t)
    requires Reservar(t, usuario, barbero, fecha, hora, seleccion).1.Reservada?
    requires seleccion2 != []
    requires !TieneCitaActiva(Reservar(t, usuario, barbero, fecha, hora, seleccion).0.citas, usuario2, fecha.value)
    ensures var t' := Reservar(t, usuario, barbero, fecha, hora, seleccion).0;
      Reservar(t', usuario2, barbero, fecha, hora, seleccion2) == (t', HorarioTomado)
  {
    var t' := Reservar(t, usuario, barbero, fecha, hora, seleccion).0;
    ReservarValid(t, usuario, barbero, fecha, hora, seleccion);
    var n := |t.citas|;
    assert CuentaEnClave(t'.alcance, t'.citas[n]);
    assert HorarioOcupado(t'.alcance, t'.citas, barbero.value, fecha.value, hora.value);
    ReservarResultado(t', usuario2, barbero, fecha, hora, seleccion2);
  }

  /** Under the active-only reading, a slot the projector lists as free can be
      booked by a user without a reservation that day, given an existing
      barber and catalogue services. */
  lemma DisponibleEsReservable(t: Tablas, usuario: UserId, barbero: BarberId, fecha: Date,
                               hora: TimeOfDay, seleccion: seq<ServiceId>)
    requires Valid(t) && t.alcance == SoloActivas
    requires Minute(hora) !in Ocupadas(t.citas, barbero, fecha)
    requires !TieneCitaActiva(t.citas, usuario, fecha)
    requires barbero in t.barberos && seleccion != []
    requires forall k :: 0 <= k < |seleccion| ==> seleccion[k] in t.catalogo
    ensures Reservar(t, usuario, Some(barbero), Some(fecha), Some(hora), seleccion).1.Reservada?
  {
    LibreSiNoOcupada(t.citas, barbero, fecha, hora);
    ReservarResultado(t, usuario, Some(barbero), Some(fecha), Some(hora), seleccion);
  }

  /** Under a plain UNIQUE key a cancelled reservation still holds its slot:
      when no active reservation of that barber and date shares its
      `'HH:MM'`, the projector lists the slot as free, yet booking it is
      refused as taken. */
  lemma CanceladaBloqueaConClavePlana(t: Tablas, i: nat, usuario: UserId, seleccion: seq<ServiceId>)
    requires Valid(t) && t.alcance == TodasLasFilas
    requires i < |t.citas| && t.citas[i].estado == Cancelada
    requires forall j :: (0 <= j < |t.citas| && Activa(t.citas[j].estado) && t.citas[j].barbero == t.citas[i].barbero
                          && t.citas[j].fecha == t.citas[i].fecha) ==> Minute(t.citas[j].hora) != Minute(t.citas[i].hora)
    requires !TieneCitaActiva(t.citas, usuario, t.citas[i].fecha) && seleccion != []
    ensures Minute(t.citas[i].hora) !in Ocupadas(t.citas, t.citas[i].barbero, t.citas[i].fecha)
    ensures Reservar(t, usuario, Some(t.citas[i].barbero), Some(t.citas[i].fecha), Some(t.citas[i].hora), seleccion).1 == HorarioTomado
  {
    var c := t.citas[i];
    assert HorarioOcupado(t.alcance, t.citas, c.barbero, c.fecha, c.hora);
    ReservarResultado(t, usuario, Some(c.barbero), Some(c.fecha), Some(c.hora), seleccion);
  }

  // ---------------------------------------------------------------------
  // cancellations

  /** A cancellation sets exactly the named reservation to `cancelada`,
      keeps every other row, and appends exactly one audit row naming it. */
  lemma AnularEfecto(t: Tablas, id: CitaId, motivo: string, por: Actor)
    requires Valid(t) && ExisteCita(t.citas, id)
    ensures var t' := Anular(t, id, motivo, por);
      && |t'.citas| == |t.citas|
      && (forall i :: 0 <= i < |t.citas| && t.citas[i].id != id ==> t'.citas[i] == t.citas[i])
      && (forall i :: 0 <= i < |t.citas| && t.citas[i].id == id ==> t'.citas[i] == t.citas[i].(estado := Cancelada))
      && (exists i :: 0 <= i < |t.citas| && t.citas[i].id == id
                    && forall j :: 0 <= j < |t.citas| && j != i ==> t.citas[j].id != id)
      && t'.cancelaciones == t.cancelaciones + [Cancelacion(id, motivo, por)]
      && t'.citaServicios == t.citaServicios
  {
    var i :| 0 <= i < |t.citas| && t.citas[i].id == id;
    assert forall j :: 0 <= j < |t.citas| && j != i ==> t.citas[j].id != id by {
      forall j | 0 <= j < |t.citas| && j != i ensures t.citas[j].id != id {
        if j < i { assert t.citas[j].id != t.citas[i].id; } else { assert t.citas[i].id != t.citas[j].id; }
      }
    }
  }

  /** A status update keeps every id, so it keeps which reservations exist. */
  lemma ConEstadoIds(citas: seq<Cita>, id: CitaId, e: EstadoCita, x: CitaId)
    ensures ExisteCita(ConEstado(citas, id, e), x) <==> ExisteCita(citas, x)
  {
    var s := ConEstado(citas, id, e);
    if ExisteCita(citas, x) {
      var i :| 0 <= i < |citas| && citas[i].id == x;
      assert s[i].id == x;
    }
    if ExisteCita(s, x) {
      var i :| 0 <= i < |s| && s[i].id == x;
      assert citas[i].id == x;
    }
  }

  /** A status update keeps the database invariants whenever the key still holds. */
  lemma ConEstadoValid(t: Tablas, id: CitaId, e: EstadoCita)
    requires Valid(t) && ClaveUnica(t.alcance, ConEstado(t.citas, id, e))
    ensures Valid(t.(citas := ConEstado(t.citas, id, e)))
  {
    var t' := t.(citas := ConEstado(t.citas, id, e));
    forall k | 0 <= k < |t'.citaServicios| ensures ExisteCita(t'.citas, t'.citaServicios[k].cita) {
      ConEstadoIds(t.citas, id, e, t.citaServicios[k].cita);
    }
    forall k | 0 <= k < |t'.cancelaciones| ensures ExisteCita(t'.citas, t'.cancelaciones[k].cita) {
      ConEstadoIds(t.citas, id, e, t.cancelaciones[k].cita);
    }
  }

  /** A cancellation keeps the database invariants. */
  lemma AnularValid(t: Tablas, id: CitaId, motivo: string, por: Actor)
    requires Valid(t) && ExisteCita(t.citas, id)
    ensures Valid(Anular(t, id, motivo, por))
  {
    BajarEstadoClave(t.alcance, t.citas, id, Cancelada);
    ConEstadoValid(t, id, Cancelada);
    var t' := Anular(t, id, motivo, por);
    ConEstadoIds(t.citas, id, Cancelada, id);
    forall k | 0 <= k < |t'.cancelaciones| ensures ExisteCita(t'.citas, t'.cancelaciones[k].cita) {
      if k < |t.cancelaciones| {
        ConEstadoIds(t.citas, id, Cancelada, t.cancelaciones[k].cita);
      }
    }
  }

  /** Lowering a status to one that is not active keeps the
      per-client-per-day rule: the active reservations after are among those
      before. */
  lemma BajarEstadoTope(citas: seq<Cita>, id: CitaId, e: EstadoCita)
    requires TopeDiario(citas) && !Activa(e)
    ensures TopeDiario(ConEstado(citas, id, e))
  {
    var s := ConEstado(citas, id, e);
    forall i, j | 0 <= i < j < |s| && Activa(s[i].estado) && Activa(s[j].estado) && s[i].usuario == s[j].usuario
      ensures s[i].fecha != s[j].fecha
    {
      assert s[i] == citas[i] && s[j] == citas[j];
    }
  }

  /** After a cancellation every cancelled reservation still has an audit
      row, the newly cancelled one included. */
  lemma AnularAuditada(t: Tablas, id: CitaId, motivo: string, por: Actor)
    requires Auditada(t)
    ensures Auditada(Anular(t, id, motivo, por))
  {
    var t' := Anular(t, id, motivo, por);
    forall i | 0 <= i < |t'.citas| && t'.citas[i].estado == Cancelada
      ensures TieneCancelacion(t'.cancelaciones, t'.citas[i].id)
    {
      if t.citas[i].id == id {
        assert t'.cancelaciones[|t.cancelaciones|].cita == id;
      } else {
        var k :| 0 <= k < |t.cancelaciones| && t.cancelaciones[k].cita == t.citas[i].id;
        assert t'.cancelaciones[k] == t.cancelaciones[k];
      }
    }
  }
}
