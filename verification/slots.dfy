/** The slot grid of a day and the status of each slot, as the loops of
    `generar_slots_dia` and `obtener_horarios_disponibles` compute them. The
    loops themselves are methods of `Store.Store`; these functions are what
    they are proved against. */
module Slots {
  import opened Common
  import opened Hours

  /** `timedelta(minutes=30)`, in seconds. */
  const Step: nat := 1800

  datatype EstadoSlot = Disponible | Reservado | Pasado

  /** One `{'hora': 'HH:MM', 'estado': ...}` entry; `hora` in minutes. */
  datatype Slot = Slot(hora: nat, estado: EstadoSlot)

  /** The result of `generar_slots_dia`. `DiaCerrado` is the dict with
      `cerrado` True, `desde`/`hasta` None and no slots; `desde`/`hasta` of an
      open day are minutes since midnight. */
  datatype Dia = DiaCerrado | DiaAbierto(desde: nat, hasta: nat, slots: seq<Slot>) | HorarioInvalido

  /** The grid: `desde`, `desde + 30 min`, ... while below `hasta`. */
  function Grid(desde: nat, hasta: nat): seq<nat>
    decreases hasta - desde
  {
    if desde < hasta then [desde] + Grid(desde + Step, hasta) else []
  }

  /** Status of the slot starting at `t`, in the source's priority order. */
  function StatusAt(t: nat, esHoy: bool, ahora: TimeOfDay, ocupadas: set<nat>): EstadoSlot
  {
    if esHoy && t <= ahora then Pasado
    else if t / 60 in ocupadas then Reservado
    else Disponible
  }

  /** The slot list from `t` on. */
  function SlotsFrom(t: nat, hasta: nat, esHoy: bool, ahora: TimeOfDay, ocupadas: set<nat>): (r: seq<Slot>)
    ensures |r| == |Grid(t, hasta)|
    decreases hasta - t
  {
    if t < hasta then [Slot(t / 60, StatusAt(t, esHoy, ahora, ocupadas))] + SlotsFrom(t + Step, hasta, esHoy, ahora, ocupadas)
    else []
  }

  /** The `'HH:MM'` of every available slot, in order. */
  function Disponibles(slots: seq<Slot>): seq<nat>
  {
    if slots == [] then []
    else (if slots[0].estado == Disponible then [slots[0].hora] else []) + Disponibles(slots[1..])
  }

  /** What `generar_slots_dia` returns for a resolved window. */
  function SlotsDia(horario: Horario, esHoy: bool, ahora: TimeOfDay, ocupadas: set<nat>): Dia
  {
    match horario
    case Cerrado => DiaCerrado
    case Invalido => HorarioInvalido
    case Abierto(a, c) => DiaAbierto(a / 60, c / 60, SlotsFrom(a, c, esHoy, ahora, ocupadas))
  }

  // ---------------------------------------------------------------------
  // the grid

  /** Its length: no slot when `hasta <= desde`, otherwise one per started
      half hour. */
  lemma {:induction false} GridLength(desde: nat, hasta: nat)
    ensures |Grid(desde, hasta)| == if hasta <= desde then 0 else (hasta - desde + Step - 1) / Step
    decreases hasta - desde
  {
    if desde < hasta {
      GridLength(desde + Step, hasta);
    }
  }

  /** The `k`-th slot is `desde + k * 30 min`, below `hasta`. */
  lemma {:induction false} GridAt(desde: nat, hasta: nat, k: nat)
    requires k < |Grid(desde, hasta)|
    ensures Grid(desde, hasta)[k] == desde + k * Step < hasta
    decreases hasta - desde
  {
    if k > 0 {
      GridAt(desde + Step, hasta, k - 1);
    }
  }

  /** A time is in the grid exactly when it lies in `[desde, hasta)` on a
      half-hour step from `desde`. */
  lemma {:induction false} GridMember(desde: nat, hasta: nat, x: nat)
    ensures x in Grid(desde, hasta) <==> desde <= x < hasta && (x - desde) % Step == 0
    decreases hasta - desde
  {
    if desde < hasta {
      GridMember(desde + Step, hasta, x);
      if desde + Step <= x {
        assert (x - desde) % Step == (x - (desde + Step)) % Step;
      }
    }
  }

  /** The grid is strictly increasing (so it has no duplicates). */
  lemma GridIncreasing(desde: nat, hasta: nat, i: nat, j: nat)
    requires i < j < |Grid(desde, hasta)|
    ensures Grid(desde, hasta)[i] < Grid(desde, hasta)[j]
  {
    GridAt(desde, hasta, i);
    GridAt(desde, hasta, j);
  }

  // ---------------------------------------------------------------------
  // the slots

  /** One slot per grid time, labelled by its `'HH:MM'` and carrying the
      status of that time. */
  lemma {:induction false} SlotsFromAt(t: nat, hasta: nat, esHoy: bool, ahora: TimeOfDay, ocupadas: set<nat>, k: nat)
    requires k < |Grid(t, hasta)|
    ensures SlotsFrom(t, hasta, esHoy, ahora, ocupadas)[k]
         == Slot(Grid(t, hasta)[k] / 60, StatusAt(Grid(t, hasta)[k], esHoy, ahora, ocupadas))
    decreases hasta - t
  {
    if k > 0 {
      SlotsFromAt(t + Step, hasta, esHoy, ahora, ocupadas, k - 1);
    }
  }

  /** Slot labels go up by exactly 30 minutes: strictly increasing, hence
      no two slots share an `'HH:MM'`. */
  lemma SlotLabels(t: nat, hasta: nat, esHoy: bool, ahora: TimeOfDay, ocupadas: set<nat>, i: nat, j: nat)
    requires i < j < |Grid(t, hasta)|
    ensures SlotsFrom(t, hasta, esHoy, ahora, ocupadas)[i].hora == t / 60 + 30 * i
    ensures SlotsFrom(t, hasta, esHoy, ahora, ocupadas)[i].hora < SlotsFrom(t, hasta, esHoy, ahora, ocupadas)[j].hora
  {
    SlotsFromAt(t, hasta, esHoy, ahora, ocupadas, i);
    SlotsFromAt(t, hasta, esHoy, ahora, ocupadas, j);
    GridAt(t, hasta, i);
    GridAt(t, hasta, j);
    LabelStep(t, i);
    LabelStep(t, j);
  }

  lemma LabelStep(t: nat, k: nat)
    ensures (t + k * Step) / 60 == t / 60 + 30 * k
  {
    assert t + k * Step == (t / 60 + 30 * k) * 60 + t % 60;
  }

  /** On the current date the elapsed slots form a prefix: a slot after an
      elapsed one is elapsed too. On any other date no slot is elapsed. */
  lemma PastIsPrefix(t: nat, hasta: nat, esHoy: bool, ahora: TimeOfDay, ocupadas: set<nat>, i: nat, j: nat)
    requires i < j < |Grid(t, hasta)|
    ensures SlotsFrom(t, hasta, esHoy, ahora, ocupadas)[j].estado == Pasado ==>
              SlotsFrom(t, hasta, esHoy, ahora, ocupadas)[i].estado == Pasado
    ensures !esHoy ==> SlotsFrom(t, hasta, esHoy, ahora, ocupadas)[i].estado != Pasado
  {
    SlotsFromAt(t, hasta, esHoy, ahora, ocupadas, i);
    SlotsFromAt(t, hasta, esHoy, ahora, ocupadas, j);
    GridIncreasing(t, hasta, i, j);
  }

  // ---------------------------------------------------------------------
  // the available slots

  /** `Disponibles` keeps exactly the labels of the available slots. */
  lemma {:induction false} DisponiblesMember(slots: seq<Slot>, x: nat)
    ensures x in Disponibles(slots) <==>
              exists k :: 0 <= k < |slots| && slots[k].estado == Disponible && slots[k].hora == x
  {
    if slots != [] {
      DisponiblesMember(slots[1..], x);
      if x in Disponibles(slots[1..]) {
        var k :| 0 <= k < |slots[1..]| && slots[1..][k].estado == Disponible && slots[1..][k].hora == x;
        assert slots[k + 1] == slots[1..][k];
      }
      if exists k :: 0 <= k < |slots| && slots[k].estado == Disponible && slots[k].hora == x {
        var k :| 0 <= k < |slots| && slots[k].estado == Disponible && slots[k].hora == x;
        if k > 0 {
          assert slots[1..][k - 1] == slots[k];
        }
      }
    }
  }

  predicate Increasing(s: seq<nat>)
  {
    forall i, j :: 0 <= i < j < |s| ==> s[i] < s[j]
  }

  predicate LabelsIncreasing(slots: seq<Slot>)
  {
    forall i, j :: 0 <= i < j < |slots| ==> slots[i].hora < slots[j].hora
  }

  /** Every available label of an increasing slot list is at least its
      first label. */
  lemma DisponiblesCota(slots: seq<Slot>, x: nat)
    requires LabelsIncreasing(slots) && x in Disponibles(slots)
    ensures slots != [] && slots[0].hora <= x
  {
    DisponiblesMember(slots, x);
    var k :| 0 <= k < |slots| && slots[k].estado == Disponible && slots[k].hora == x;
    assert k == 0 || slots[0].hora < slots[k].hora;
  }

  /** Filtering keeps the order: the available labels of an increasing slot
      list are increasing. */
  lemma {:induction false} DisponiblesIncreasing(slots: seq<Slot>)
    requires LabelsIncreasing(slots)
    ensures Increasing(Disponibles(slots))
  {
    if slots != [] {
      var rest := slots[1..];
      assert LabelsIncreasing(rest) by {
        forall i, j | 0 <= i < j < |rest| ensures rest[i].hora < rest[j].hora {
          assert rest[i] == slots[i + 1] && rest[j] == slots[j + 1];
        }
      }
      DisponiblesIncreasing(rest);
      var d := Disponibles(rest);
      if slots[0].estado == Disponible {
        var all := Disponibles(slots);
        assert all == [slots[0].hora] + d;
        forall i, j | 0 <= i < j < |all| ensures all[i] < all[j] {
          assert all[j] == d[j - 1];
          if i == 0 {
            DisponiblesCota(rest, d[j - 1]);
            assert slots[0].hora < slots[1].hora;
          } else {
            assert all[i] == d[i - 1];
          }
        }
      } else {
        assert Disponibles(slots) == d;
      }
    }
  }

  /** The slot list of a day has strictly increasing labels. */
  lemma DayLabelsIncreasing(t: nat, hasta: nat, esHoy: bool, ahora: TimeOfDay, ocupadas: set<nat>)
    ensures LabelsIncreasing(SlotsFrom(t, hasta, esHoy, ahora, ocupadas))
    ensures Increasing(Disponibles(SlotsFrom(t, hasta, esHoy, ahora, ocupadas)))
  {
    var s := SlotsFrom(t, hasta, esHoy, ahora, ocupadas);
    forall i, j | 0 <= i < j < |s| ensures s[i].hora < s[j].hora {
      SlotLabels(t, hasta, esHoy, ahora, ocupadas, i, j);
    }
    DisponiblesIncreasing(s);
  }

  /** One step of the walk: the slots built so far, then the slot at `t`,
      then the rest of the grid. */
  lemma SlotsPaso(hechos: seq<Slot>, t: nat, hasta: nat, esHoy: bool, ahora: TimeOfDay, ocupadas: set<nat>)
    requires t < hasta
    ensures hechos + SlotsFrom(t, hasta, esHoy, ahora, ocupadas)
         == (hechos + [Slot(t / 60, StatusAt(t, esHoy, ahora, ocupadas))]) + SlotsFrom(t + Step, hasta, esHoy, ahora, ocupadas)
  {
    var slot := Slot(t / 60, StatusAt(t, esHoy, ahora, ocupadas));
    var resto := SlotsFrom(t + Step, hasta, esHoy, ahora, ocupadas);
    assert SlotsFrom(t, hasta, esHoy, ahora, ocupadas) == [slot] + resto;
    assert hechos + ([slot] + resto) == (hechos + [slot]) + resto;
  }

  /** The available labels from `t` on: the label of `t` when that slot is
      available, then those from the next grid time on. */
  lemma DisponiblesPaso(t: nat, hasta: nat, esHoy: bool, ahora: TimeOfDay, ocupadas: set<nat>)
    requires t < hasta
    ensures Disponibles(SlotsFrom(t, hasta, esHoy, ahora, ocupadas))
         == (if StatusAt(t, esHoy, ahora, ocupadas) == Disponible then [t / 60] else [])
            + Disponibles(SlotsFrom(t + Step, hasta, esHoy, ahora, ocupadas))
  {
    var s := SlotsFrom(t, hasta, esHoy, ahora, ocupadas);
    assert s[0] == Slot(t / 60, StatusAt(t, esHoy, ahora, ocupadas));
    assert s[1..] == SlotsFrom(t + Step, hasta, esHoy, ahora, ocupadas);
  }

  /** A step of the availability walk over a slot that is not offered: the
      labels kept so far and those still ahead make up the same list. */
  lemma DisponiblesSalta(hechos: seq<nat>, t: nat, hasta: nat, esHoy: bool, ahora: TimeOfDay, ocupadas: set<nat>, total: seq<nat>)
    requires t < hasta && StatusAt(t, esHoy, ahora, ocupadas) != Disponible
    requires hechos + Disponibles(SlotsFrom(t, hasta, esHoy, ahora, ocupadas)) == total
    ensures hechos + Disponibles(SlotsFrom(t + Step, hasta, esHoy, ahora, ocupadas)) == total
  {
    DisponiblesPaso(t, hasta, esHoy, ahora, ocupadas);
    var resto := Disponibles(SlotsFrom(t + Step, hasta, esHoy, ahora, ocupadas));
    assert [] + resto == resto;
  }

  /** A step of the availability walk over an offered slot: its label moves
      from the labels ahead to those kept. */
  lemma DisponiblesToma(hechos: seq<nat>, t: nat, hasta: nat, esHoy: bool, ahora: TimeOfDay, ocupadas: set<nat>, total: seq<nat>)
    requires t < hasta && StatusAt(t, esHoy, ahora, ocupadas) == Disponible
    requires hechos + Disponibles(SlotsFrom(t, hasta, esHoy, ahora, ocupadas)) == total
    ensures (hechos + [t / 60]) + Disponibles(SlotsFrom(t + Step, hasta, esHoy, ahora, ocupadas)) == total
  {
    DisponiblesPaso(t, hasta, esHoy, ahora, ocupadas);
    var resto := Disponibles(SlotsFrom(t + Step, hasta, esHoy, ahora, ocupadas));
    assert hechos + ([t / 60] + resto) == (hechos + [t / 60]) + resto;
  }

  /** The end of the walk: past closing time nothing is ahead. */
  lemma DisponiblesFin(hechos: seq<nat>, t: nat, hasta: nat, esHoy: bool, ahora: TimeOfDay, ocupadas: set<nat>, total: seq<nat>)
    requires hasta <= t
    requires hechos + Disponibles(SlotsFrom(t, hasta, esHoy, ahora, ocupadas)) == total
    ensures hechos == total
  {
    assert Disponibles(SlotsFrom(t, hasta, esHoy, ahora, ocupadas)) == [];
    assert hechos + [] == hechos;
  }

  /** A label is offered as available exactly when it labels a grid time that
      is not elapsed and whose `'HH:MM'` is not taken. */
  lemma DisponibleIff(t: nat, hasta: nat, esHoy: bool, ahora: TimeOfDay, ocupadas: set<nat>, x: nat)
    ensures x in Disponibles(SlotsFrom(t, hasta, esHoy, ahora, ocupadas)) <==>
              exists k :: 0 <= k < |Grid(t, hasta)| && Grid(t, hasta)[k] / 60 == x
                       && !(esHoy && Grid(t, hasta)[k] <= ahora) && x !in ocupadas
  {
    var s := SlotsFrom(t, hasta, esHoy, ahora, ocupadas);
    var g := Grid(t, hasta);
    DisponiblesMember(s, x);
    if x in Disponibles(s) {
      var k :| 0 <= k < |s| && s[k].estado == Disponible && s[k].hora == x;
      SlotsFromAt(t, hasta, esHoy, ahora, ocupadas, k);
    }
    if exists k :: 0 <= k < |g| && g[k] / 60 == x && !(esHoy && g[k] <= ahora) && x !in ocupadas {
      var k :| 0 <= k < |g| && g[k] / 60 == x && !(esHoy && g[k] <= ahora) && x !in ocupadas;
      SlotsFromAt(t, hasta, esHoy, ahora, ocupadas, k);
      assert s[k].estado == Disponible && s[k].hora == x;
    }
  }

  /** A weekday with the default window (12:00-21:00) offers 18 slots,
      12:00 to 20:30; on that day before opening, with nothing reserved, all
      18 are offered. */
  lemma DiaLaborable(ahora: TimeOfDay)
    requires ahora < Hms(12, 0, 0)
    ensures |Grid(Hms(12, 0, 0), Hms(21, 0, 0))| == 18
    ensures Grid(Hms(12, 0, 0), Hms(21, 0, 0))[17] / 60 == 20 * 60 + 30
    ensures |Disponibles(SlotsFrom(Hms(12, 0, 0), Hms(21, 0, 0), true, ahora, {}))| == 18
  {
    var a, c := Hms(12, 0, 0), Hms(21, 0, 0);
    GridLength(a, c);
    GridAt(a, c, 17);
    TodoDisponible(a, c, ahora);
  }

  /** When nothing is elapsed or taken, every slot is offered. */
  lemma {:induction false} TodoDisponible(t: nat, hasta: nat, ahora: TimeOfDay)
    requires ahora < t
    ensures |Disponibles(SlotsFrom(t, hasta, true, ahora, {}))| == |Grid(t, hasta)|
    decreases hasta - t
  {
    if t < hasta {
      TodoDisponible(t + Step, hasta, ahora);
      var s := SlotsFrom(t, hasta, true, ahora, {});
      assert s[1..] == SlotsFrom(t + Step, hasta, true, ahora, {});
      assert s[0].estado == Disponible;
    }
  }
}
