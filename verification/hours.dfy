/** The business-hours resolver (`obtener_horario_dia`): a date-specific
    override row of `horario_especial` wins over the weekly default, and the
    override's TIME columns are normalised from whichever representation the
    driver hands back. */
module Hours {
  import opened Common

  /** How a TIME column of `horario_especial` can arrive: a `timedelta`
      (whole seconds), a string, a native `time`, or NULL. */
  datatype TimeValue = Duration(seconds: int) | Text(s: string) | Native(t: TimeOfDay) | Null

  /** A `horario_especial` row: `cerrado` is compared with 1, as the column
      is read back as an integer. */
  datatype Override = Override(cerrado: int, apertura: TimeValue, cierre: TimeValue)

  /** The window of one day.  `Invalido` stands for an override whose times
      cannot be turned into a time of day: a malformed string or an
      out-of-range duration raises `ValueError` in the resolver, and a NULL
      column makes the caller's `datetime.combine` fail. */
  datatype Horario = Cerrado | Abierto(apertura: TimeOfDay, cierre: TimeOfDay) | Invalido

  // ---------------------------------------------------------------------
  // timedelta -> time

  /** `time(int(s // 3600), int((s % 3600) // 60))`: Python's floor division
      agrees with Dafny's for the positive divisors used here, and `time()`
      refuses an hour outside 0..23. The seconds are dropped. */
  function FromDuration(seconds: int): (r: Option<TimeOfDay>)
    ensures r.Some? <==> 0 <= seconds < SecondsPerDay
    ensures r.Some? ==> r.value % 60 == 0 && r.value <= seconds < r.value + 60
  {
    var h := seconds / 3600;
    var m := (seconds % 3600) / 60;
    if 0 <= h < 24 then Some(h * 3600 + m * 60) else None
  }

  // ---------------------------------------------------------------------
  // string -> time, as datetime.strptime reads "%H:%M:%S" and "%H:%M"

  predicate IsDigit(c: char) { '0' <= c <= '9' }

  function DigitValue(c: char): (v: nat)
    requires IsDigit(c)
    ensures v < 10
  {
    (c as int) - ('0' as int)
  }

  function DigitChar(v: nat): (c: char)
    requires v < 10
    ensures IsDigit(c) && DigitValue(c) == v
  {
    (('0' as int) + v) as char
  }

  predicate AllDigits(s: string)
  {
    forall i :: 0 <= i < |s| ==> IsDigit(s[i])
  }

  /** The value of a string of decimal digits, most significant first. */
  function Decimal(s: string): nat
    requires AllDigits(s)
  {
    if s == [] then 0 else 10 * Decimal(s[..|s| - 1]) + DigitValue(s[|s| - 1])
  }

  /** One numeric directive of strptime (`%H`, `%M` or `%S`): one or two
      ASCII digits whose value is at most `max`. (`%S` itself admits 60 and 61,
      which `time()` then refuses; `max` is the bound after both checks.) */
  function Field(s: string, max: nat): (r: Option<nat>)
    ensures r.Some? <==> 1 <= |s| <= 2 && AllDigits(s) && Decimal(s) <= max
    ensures r.Some? ==> r.value == Decimal(s)
  {
    DecimalCorto(s);
    if |s| == 1 && IsDigit(s[0]) && DigitValue(s[0]) <= max then
      Some(DigitValue(s[0]))
    else if |s| == 2 && IsDigit(s[0]) && IsDigit(s[1])
            && 10 * DigitValue(s[0]) + DigitValue(s[1]) <= max then
      Some(10 * DigitValue(s[0]) + DigitValue(s[1]))
    else
      None
  }

  /** The pieces of `s` between its colons (digits never contain a colon, so
      the directives of a format match exactly these pieces). */
  function Split(s: string): (r: seq<string>)
    ensures |r| >= 1
    decreases |s|
  {
    if s == [] then [[]]
    else
      var rest := Split(s[1..]);
      if s[0] == ':' then [[]] + rest else [[s[0]] + rest[0]] + rest[1..]
  }

  /** `strptime(s, "%H:%M:%S").time()`. */
  function ParseHms(s: string): Option<TimeOfDay>
  {
    var f := Split(s);
    if |f| != 3 then None
    else
      match (Field(f[0], 23), Field(f[1], 59), Field(f[2], 59))
      case (Some(h), Some(m), Some(sec)) => Some(Hms(h, m, sec))
      case _ => None
  }

  /** `strptime(s, "%H:%M").time()`. */
  function ParseHm(s: string): Option<TimeOfDay>
  {
    var f := Split(s);
    if |f| != 2 then None
    else
      match (Field(f[0], 23), Field(f[1], 59))
      case (Some(h), Some(m)) => Some(Hms(h, m, 0))
      case _ => None
  }

  /** Try "%H:%M:%S"; on `ValueError` fall back to "%H:%M". */
  function FromText(s: string): Option<TimeOfDay>
  {
    match ParseHms(s)
    case Some(t) => Some(t)
    case None => ParseHm(s)
  }

  function Normalise(v: TimeValue): Option<TimeOfDay>
  {
    match v
    case Duration(sec) => FromDuration(sec)
    case Text(s) => FromText(s)
    case Native(t) => Some(t)
    case Null => None
  }

  // ---------------------------------------------------------------------
  // the resolver

  /** The weekly default: Saturday 10:00-20:00, Sunday 12:00-18:00, any other
      day 12:00-21:00. */
  function WeeklyDefault(weekday: nat): Horario
  {
    if weekday == 5 then Abierto(Hms(10, 0, 0), Hms(20, 0, 0))
    else if weekday == 6 then Abierto(Hms(12, 0, 0), Hms(18, 0, 0))
    else Abierto(Hms(12, 0, 0), Hms(21, 0, 0))
  }

  /** `obtener_horario_dia`, with the `horario_especial` table given as a map
      from date to its (unique) row. */
  function ObtenerHorarioDia(especiales: map<Date, Override>, fecha: Date): Horario
  {
    if fecha in especiales then
      var e := especiales[fecha];
      if e.cerrado == 1 then Cerrado
      else
        match (Normalise(e.apertura), Normalise(e.cierre))
        case (Some(a), Some(c)) => Abierto(a, c)
        case _ => Invalido
    else
      WeeklyDefault(Weekday(fecha))
  }

  // ---------------------------------------------------------------------
  // properties

  /** Without an override the window is the weekly default table, open in
      each case. */
  lemma WeeklyDefaults(especiales: map<Date, Override>, fecha: Date)
    requires fecha !in especiales
    ensures Weekday(fecha) == 5 ==> ObtenerHorarioDia(especiales, fecha) == Abierto(Hms(10, 0, 0), Hms(20, 0, 0))
    ensures Weekday(fecha) == 6 ==> ObtenerHorarioDia(especiales, fecha) == Abierto(Hms(12, 0, 0), Hms(18, 0, 0))
    ensures Weekday(fecha) < 5 ==> ObtenerHorarioDia(especiales, fecha) == Abierto(Hms(12, 0, 0), Hms(21, 0, 0))
  {
  }

  /** Only an override row can close a day or make it invalid; a closed
      override closes the day whatever the weekday, and an open override with
      readable times gives exactly its own times. */
  lemma OverrideWins(especiales: map<Date, Override>, fecha: Date)
    ensures !ObtenerHorarioDia(especiales, fecha).Abierto? ==> fecha in especiales
    ensures fecha in especiales && especiales[fecha].cerrado == 1 ==>
              ObtenerHorarioDia(especiales, fecha) == Cerrado
    ensures fecha in especiales && especiales[fecha].cerrado != 1 ==>
              match (Normalise(especiales[fecha].apertura), Normalise(especiales[fecha].cierre))
              case (Some(a), Some(c)) => ObtenerHorarioDia(especiales, fecha) == Abierto(a, c)
              case _ => ObtenerHorarioDia(especiales, fecha) == Invalido
  {
  }

  /** Pieces of `a + [':'] + b` when `a` holds no colon. */
  lemma {:induction false} SplitColon(a: string, b: string)
    requires ':' !in a
    ensures Split(a + [':'] + b) == [a] + Split(b)
    decreases |a|
  {
    if a == [] {
      assert a + [':'] + b == [':'] + b;
      assert ([':'] + b)[1..] == b;
    } else {
      assert (a + [':'] + b)[1..] == a[1..] + [':'] + b;
      SplitColon(a[1..], b);
      assert [a[0]] + a[1..] == a;
    }
  }

  /** A colon-free string is a single piece. */
  lemma {:induction false} SplitPlain(a: string)
    requires ':' !in a
    ensures Split(a) == [a]
    decreases |a|
  {
    if a != [] {
      SplitPlain(a[1..]);
      assert [a[0]] + a[1..] == a;
    }
  }

  /** Two-digit rendering, as MySQL prints each part of a TIME. */
  function TwoDigits(n: nat): (s: string)
    requires n < 100
    ensures |s| == 2 && ':' !in s
  {
    [DigitChar(n / 10), DigitChar(n % 10)]
  }

  /** The value of one or two digits. */
  lemma DecimalCorto(s: string)
    ensures 1 <= |s| <= 2 && AllDigits(s) ==>
      Decimal(s) == if |s| == 1 then DigitValue(s[0]) else 10 * DigitValue(s[0]) + DigitValue(s[1])
  {
    if |s| == 2 {
      assert s[..1] == [s[0]];
      assert s[..1][..0] == [];
    } else {
      assert s[..0] == [];
    }
  }

  /** A leading zero is allowed, and a single digit is read alone. */
  lemma FieldExamples()
    ensures Field("07", 59) == Some(7)
    ensures Field("7", 23) == Some(7)
    ensures Field("60", 59) == None && Field("007", 59) == None && Field("", 59) == None
  {
    assert Decimal("0") == 0;
    assert "07"[..1] == "0";
    assert Decimal("07") == 7;
    assert Decimal("6") == 6;
    assert "60"[..1] == "6";
    assert Decimal("60") == 60;
  }

  lemma TwoDigitsField(n: nat, max: nat)
    requires n < 100 && n <= max
    ensures Field(TwoDigits(n), max) == Some(n)
  {
  }

  /** `t` printed as "HH:MM:SS". */
  function FormatHms(t: TimeOfDay): string
  {
    TwoDigits(t / 3600) + [':'] + TwoDigits((t % 3600) / 60) + [':'] + TwoDigits(t % 60)
  }

  /** `t` printed as "HH:MM". */
  function FormatHm(t: TimeOfDay): string
  {
    TwoDigits(t / 3600) + [':'] + TwoDigits((t % 3600) / 60)
  }

  /** A time splits into its hour, minute and second, as MySQL prints it. */
  lemma Descompone(t: TimeOfDay)
    ensures t / 3600 < 24 && (t % 3600) / 60 < 60 && t % 60 < 60
    ensures Hms(t / 3600, (t % 3600) / 60, t % 60) == t
    ensures Hms(t / 3600, (t % 3600) / 60, 0) == t - t % 60
  {
    var r := t % 3600;
    assert t == (t / 3600) * 3600 + r;
    assert r == (r / 60) * 60 + r % 60;
    assert r % 60 == t % 60;
  }

  /** "HH:MM:SS" built from valid fields is read by the first format. */
  lemma ParseHmsCampos(h: nat, m: nat, s: nat)
    requires h < 24 && m < 60 && s < 60
    ensures ParseHms(TwoDigits(h) + [':'] + TwoDigits(m) + [':'] + TwoDigits(s)) == Some(Hms(h, m, s))
  {
    var H, M, S := TwoDigits(h), TwoDigits(m), TwoDigits(s);
    TwoDigitsField(h, 23);
    TwoDigitsField(m, 59);
    TwoDigitsField(s, 59);
    SplitPlain(S);
    SplitColon(M, S);
    assert H + [':'] + M + [':'] + S == H + [':'] + (M + [':'] + S);
    SplitColon(H, M + [':'] + S);
  }

  /** "HH:MM" built from valid fields fails the first format and is read by
      the second. */
  lemma ParseHmCampos(h: nat, m: nat)
    requires h < 24 && m < 60
    ensures ParseHms(TwoDigits(h) + [':'] + TwoDigits(m)) == None
    ensures ParseHm(TwoDigits(h) + [':'] + TwoDigits(m)) == Some(Hms(h, m, 0))
  {
    var H, M := TwoDigits(h), TwoDigits(m);
    TwoDigitsField(h, 23);
    TwoDigitsField(m, 59);
    SplitPlain(M);
    SplitColon(H, M);
  }

  /** A TIME read back as "HH:MM:SS" normalises to exactly that time. */
  lemma FromTextRoundTrip(t: TimeOfDay)
    ensures FromText(FormatHms(t)) == Some(t)
  {
    Descompone(t);
    ParseHmsCampos(t / 3600, (t % 3600) / 60, t % 60);
  }

  /** Read back as "HH:MM", the first format fails and the fallback
      succeeds: the time comes back with its seconds dropped. */
  lemma FromTextSinSegundos(t: TimeOfDay)
    ensures FromText(FormatHm(t)) == Some(t - t % 60)
  {
    var h, m := t / 3600, (t % 3600) / 60;
    Descompone(t);
    ParseHmCampos(h, m);
    assert FormatHm(t) == TwoDigits(h) + [':'] + TwoDigits(m);
    assert ParseHm(FormatHm(t)) == Some(t - t % 60);
  }

  /** Strings strptime refuses in both formats: an hour of 24, and a time
      without any colon. */
  lemma FromTextRejects()
    ensures FromText("24:00") == None
    ensures FromText("1200") == None
  {
    SplitColon("24", "00");
    SplitPlain("00");
    SplitPlain("1200");
  }
}
