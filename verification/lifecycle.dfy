/** The three routes that change a reservation's status: the client's
    cancellation, the barber's cancellation and the barber's status change,
    with what each guarantees and where the status change falls short. */
module Lifecycle {
  import opened Common
  import opened Tables
  import opened Invariants

  /** The reservation `id` has status `e` after the update, every other row is
      as before. */
  predicate SoloCambia(antes: seq<Cita>, despues: seq<Cita>, id: CitaId, e: EstadoCita)
  {
    && |despues| == |antes|
    && (forall i :: 0 <= i < |antes| && antes[i].id == id ==> despues[i] == antes[i].(estado := e))
    && (forall i :: 0 <= i < |antes| && antes[i].id != id ==> despues[i] == antes[i])
  }

  lemma ConEstadoSoloCambia(citas: seq<Cita>, id: CitaId, e: EstadoCita)
    ensures SoloCambia(citas, ConEstado(citas, id, e), id, e)
  {
  }

  /** `cancelar_cita`: refused without a motivo, refused unless the
      reservation is the caller's; otherwise exactly that reservation becomes
      `cancelada` and exactly one 'cliente' audit row is appended. A refusal
      changes nothing. */
  lemma CancelarCitaResultado(t: Tablas, usuario: UserId, id: CitaId, motivo: string)
    ensures var (t', r) := CancelarCita(t, usuario, id, motivo);
      && (r == MotivoRequerido <==> motivo == "")
      && (r == SinPermiso <==> (motivo != "" && !DelUsuario(t.citas, id, usuario)))
      && (r == Cancelada_ <==> (motivo != "" && DelUsuario(t.citas, id, usuario)))
      && r != MotivoLargo
      && (r != Cancelada_ ==> t' == t)
      && (r == Cancelada_ ==>
            && SoloCambia(t.citas, t'.citas, id, Cancelada)
            && t'.cancelaciones == t.cancelaciones + [Cancelacion(id, motivo, PorCliente)]
            && t'.citaServicios == t.citaServicios)
  {
    ConEstadoSoloCambia(t.citas, id, Cancelada);
  }

  /** A client's cancellation keeps the database invariants, the
      per-client-per-day rule and the audit of cancelled reservations. */
  lemma CancelarCitaPreserva(t: Tablas, usuario: UserId, id: CitaId, motivo: string)
    requires Valid(t)
    ensures var t' := CancelarCita(t, usuario, id, motivo).0;
      && Valid(t')
      && (TopeDiario(t.citas) ==> TopeDiario(t'.citas))
      && (Auditada(t) ==> Auditada(t'))
  {
    if motivo != "" && DelUsuario(t.citas, id, usuario) {
      var i :| 0 <= i < |t.citas| && t.citas[i].id == id && t.citas[i].usuario == usuario;
      assert ExisteCita(t.citas, id);
      var t' := Anular(t, id, motivo, PorCliente);
      assert CancelarCita(t, usuario, id, motivo).0 == t';
      AnularValid(t, id, motivo, PorCliente);
      if TopeDiario(t.citas) {
        BajarEstadoTope(t.citas, id, Cancelada);
      }
      if Auditada(t) {
        AnularAuditada(t, id, motivo, PorCliente);
      }
    } else {
      assert CancelarCita(t, usuario, id, motivo).0 == t;
    }
  }

  /** `barbero_cancelar_cita`: refused when the motivo is blank after
      stripping, refused when it is longer than 255 characters, refused
      unless the reservation is assigned to the calling barber; otherwise
      exactly that reservation becomes `cancelada` and exactly one 'barbero'
      audit row is appended. A refusal changes nothing. */
  lemma BarberoCancelarCitaResultado(t: Tablas, usuario: UserId, id: CitaId, motivo: string)
    ensures var (t', r) := BarberoCancelarCita(t, usuario, id, motivo);
      && (r == MotivoRequerido <==> EnBlanco(motivo))
      && (r == MotivoLargo <==> (!EnBlanco(motivo) && |motivo| > 255))
      && (r == SinPermiso <==> (!EnBlanco(motivo) && |motivo| <= 255 && !AsignadaA(t, id, usuario)))
      && (r != Cancelada_ ==> t' == t)
      && (r == Cancelada_ ==>
            && SoloCambia(t.citas, t'.citas, id, Cancelada)
            && t'.cancelaciones == t.cancelaciones + [Cancelacion(id, motivo, PorBarbero)]
            && t'.citaServicios == t.citaServicios)
  {
    ConEstadoSoloCambia(t.citas, id, Cancelada);
  }

  /** A barber's cancellation keeps the database invariants, the
      per-client-per-day rule and the audit of cancelled reservations. */
  lemma BarberoCancelarCitaPreserva(t: Tablas, usuario: UserId, id: CitaId, motivo: string)
    requires Valid(t)
    ensures var t' := BarberoCancelarCita(t, usuario, id, motivo).0;
      && Valid(t')
      && (TopeDiario(t.citas) ==> TopeDiario(t'.citas))
      && (Auditada(t) ==> Auditada(t'))
  {
    if BarberoCancelarCita(t, usuario, id, motivo).1 == Cancelada_ {
      var i :| 0 <= i < |t.citas| && t.citas[i].id == id
        && t.citas[i].barbero in t.barberos && t.barberos[t.citas[i].barbero].usuario == usuario;
      assert ExisteCita(t.citas, id);
      AnularValid(t, id, motivo, PorBarbero);
      if TopeDiario(t.citas) {
        BajarEstadoTope(t.citas, id, Cancelada);
      }
      if Auditada(t) {
        AnularAuditada(t, id, motivo, PorBarbero);
      }
    }
  }

  /** `cambiar_estado_cita`: refused for a value other than 'confirmada' or
      'cancelada', refused unless the reservation is assigned to the calling
      barber, refused by the key when a reactivation would double-book;
      otherwise exactly that reservation takes the new status, whatever it
      was, and no audit row is written. A cancellation by the assigned barber
      always succeeds. The database invariants hold after. */
  lemma CambiarEstadoResultado(t: Tablas, usuario: UserId, id: CitaId, nuevo: string)
    requires Valid(t)
    ensures var (t', r) := CambiarEstado(t, usuario, id, nuevo);
      && (r == EstadoInvalido <==> (nuevo != "confirmada" && nuevo != "cancelada"))
      && (r == NoAutorizada <==> ((nuevo == "confirmada" || nuevo == "cancelada") && !AsignadaA(t, id, usuario)))
      && (r != TransicionInvalida)
      && (r.Cambiada? <==> ((nuevo == "confirmada" || nuevo == "cancelada") && AsignadaA(t, id, usuario)
                            && ClaveUnica(t.alcance, ConEstado(t.citas, id, if nuevo == "confirmada" then Confirmada else Cancelada))))
      && (nuevo == "cancelada" && AsignadaA(t, id, usuario) ==> r == Cambiada(Cancelada))
      && (!r.Cambiada? ==> t' == t)
      && (r.Cambiada? ==>
            && r.estado == (if nuevo == "confirmada" then Confirmada else Cancelada)
            && SoloCambia(t.citas, t'.citas, id, r.estado))
      && t'.cancelaciones == t.cancelaciones
      && Valid(t')
  {
    var (t', r) := CambiarEstado(t, usuario, id, nuevo);
    if nuevo == "cancelada" {
      BajarEstadoClave(t.alcance, t.citas, id, Cancelada);
    }
    if r.Cambiada? {
      ConEstadoValid(t, id, r.estado);
    }
  }

  // ---------------------------------------------------------------------
  // where cambiar_estado_cita falls short

  /** Two reservations of one client on one date, the first already
      cancelled (with its audit row); the first is with barber 1, whose
      account is user 50. */
  function DosCitasMismoDia(): Tablas
  {
    var d := Date(739000);
    Tablas([Cita(0, 7, 1, d, 43200, Cancelada), Cita(1, 7, 2, d, 45000, Pendiente)],
           [CitaServicio(0, 3), CitaServicio(1, 3)],
           [Cancelacion(0, "viaje", PorCliente)],
           2, map[1 := Barbero(50, 1), 2 := Barbero(60, 1)], {3}, map[], SoloActivas)
  }

  /** The example state is a consistent database. */
  lemma DosCitasMismoDiaValida()
    ensures Valid(DosCitasMismoDia())
  {
    DosCitasMismoDiaIds();
    DosCitasMismoDiaEnlaces();
  }

  /** Its ids are below the counter and distinct, and the key holds. */
  lemma DosCitasMismoDiaIds()
    ensures var t := DosCitasMismoDia();
      && (forall i :: 0 <= i < |t.citas| ==> t.citas[i].id < t.siguienteId)
      && (forall i, j :: 0 <= i < j < |t.citas| ==> t.citas[i].id != t.citas[j].id)
      && ClaveUnica(t.alcance, t.citas)
  {
    var c := DosCitasMismoDia().citas;
    assert |c| == 2 && c[0].id == 0 && c[1].id == 1 && c[0].estado == Cancelada;
  }

  /** Every link and cancellation names a reservation, and every reservation
      has a service. */
  lemma DosCitasMismoDiaEnlaces()
    ensures var t := DosCitasMismoDia();
      && (forall k :: 0 <= k < |t.citaServicios| ==> ExisteCita(t.citas, t.citaServicios[k].cita))
      && (forall k :: 0 <= k < |t.cancelaciones| ==> ExisteCita(t.citas, t.cancelaciones[k].cita))
      && (forall i :: 0 <= i < |t.citas| ==> TieneServicio(t.citaServicios, t.citas[i].id))
  {
    var t := DosCitasMismoDia();
    assert t.citas[0].id == 0 && t.citas[1].id == 1;
    assert t.citaServicios[0].cita == 0 && t.citaServicios[1].cita == 1;
  }

  /** The example state keeps the audit and the per-client-per-day rule. */
  lemma DosCitasMismoDiaReglas()
    ensures Auditada(DosCitasMismoDia()) && TopeDiario(DosCitasMismoDia().citas)
  {
    var t := DosCitasMismoDia();
    assert t.citas[0].id == 0 && t.cancelaciones[0].cita == 0;
    assert TieneCancelacion(t.cancelaciones, 0);
  }

  /** Re-confirming a cancelled reservation is accepted and leaves the client
      with two active reservations on one date: the status change does not
      keep the per-client-per-day rule. */
  lemma ReconfirmarRompeTope()
    ensures exists t: Tablas, usuario: UserId, id: CitaId ::
      && Valid(t) && Auditada(t) && TopeDiario(t.citas)
      && CambiarEstado(t, usuario, id, "confirmada").1 == Cambiada(Confirmada)
      && !TopeDiario(CambiarEstado(t, usuario, id, "confirmada").0.citas)
  {
    var t := DosCitasMismoDia();
    DosCitasMismoDiaValida();
    DosCitasMismoDiaReglas();
    ReconfirmarDosCitas();
    var r := CambiarEstado(t, 50, 0, "confirmada");
    assert Valid(t) && Auditada(t) && TopeDiario(t.citas) && r.1 == Cambiada(Confirmada) && !TopeDiario(r.0.citas);
  }

  /** In the example state, barber user 50 confirms the cancelled row 0: the
      key still holds (the other row is another barber's), so the change is
      accepted, and the client then holds two active rows on one date. */
  lemma ReconfirmarDosCitas()
    ensures var t := DosCitasMismoDia();
      var c := ConEstado(t.citas, 0, Confirmada);
      && CambiarEstado(t, 50, 0, "confirmada") == (t.(citas := c), Cambiada(Confirmada))
      && !TopeDiario(c)
  {
    var t := DosCitasMismoDia();
    assert t.citas[0].id == 0 && t.citas[0].barbero in t.barberos && t.barberos[t.citas[0].barbero].usuario == 50;
    assert AsignadaA(t, 0, 50);
    var c := ConEstado(t.citas, 0, Confirmada);
    assert c[0] == t.citas[0].(estado := Confirmada) && c[1] == t.citas[1];
    assert ClaveUnica(t.alcance, c);
  }

  /** One pending reservation with barber 1 (user 50) and no cancellation yet. */
  function UnaCitaPendiente(): Tablas
  {
    Tablas([Cita(0, 7, 1, Date(739000), 43200, Pendiente)], [CitaServicio(0, 3)], [],
           1, map[1 := Barbero(50, 1)], {3}, map[], SoloActivas)
  }

  /** Cancelling through the status change leaves a `cancelada` reservation
      with no `Cancelacion` row. */
  lemma CancelarPorCambioSinAuditoria()
    ensures exists t: Tablas, usuario: UserId, id: CitaId ::
      && Valid(t) && Auditada(t)
      && CambiarEstado(t, usuario, id, "cancelada").1 == Cambiada(Cancelada)
      && !Auditada(CambiarEstado(t, usuario, id, "cancelada").0)
  {
    var t := UnaCitaPendiente();
    assert t.citas[0].id == 0 && t.citaServicios[0].cita == 0;
    assert ExisteCita(t.citas, 0) && TieneServicio(t.citaServicios, 0);
    assert Valid(t);
    assert AsignadaA(t, 0, 50);
    var t' := CambiarEstado(t, 50, 0, "cancelada").0;
    assert t'.citas[0].estado == Cancelada;
    assert !TieneCancelacion(t'.cancelaciones, 0);
  }

  /** Confirming a reservation that is already active keeps the
      per-client-per-day rule: the set of active rows does not change. */
  lemma ConfirmarActivaTope(citas: seq<Cita>, id: CitaId)
    requires TopeDiario(citas)
    requires forall i :: 0 <= i < |citas| && citas[i].id == id ==> Activa(citas[i].estado)
    ensures TopeDiario(ConEstado(citas, id, Confirmada))
  {
    var s := ConEstado(citas, id, Confirmada);
    forall i, j | 0 <= i < j < |s| && Activa(s[i].estado) && Activa(s[j].estado) && s[i].usuario == s[j].usuario
      ensures s[i].fecha != s[j].fecha
    {
      assert Activa(citas[i].estado) && Activa(citas[j].estado);
    }
  }

  /** The corrected status change keeps the database invariants and the
      per-client-per-day rule, writes no audit row, and refuses to confirm a
      reservation that is no longer active. */
  lemma CambiarEstadoCorregidoPreserva(t: Tablas, usuario: UserId, id: CitaId, nuevo: string)
    requires Valid(t) && TopeDiario(t.citas)
    ensures var (t', r) := CambiarEstadoCorregido(t, usuario, id, nuevo);
      && Valid(t') && TopeDiario(t'.citas)
      && t'.cancelaciones == t.cancelaciones
      && (r == TransicionInvalida ==> t' == t)
      && (r == Cambiada(Confirmada) ==> forall i :: 0 <= i < |t.citas| && t.citas[i].id == id ==> Activa(t.citas[i].estado))
  {
    var (t', r) := CambiarEstadoCorregido(t, usuario, id, nuevo);
    CambiarEstadoResultado(t, usuario, id, nuevo);
    if r.Cambiada? {
      if nuevo == "confirmada" {
        ConfirmarActivaTope(t.citas, id);
      } else {
        BajarEstadoTope(t.citas, id, Cancelada);
      }
    }
  }
}
