/** The statistics of `CasosService.getEstadisticas` and the monthly buckets
    of `calcularDatosMensuales`. Calendar dates are (year, month, day) triples;
    turning a stored instant into a local calendar date is left to the caller. */
module CaseStats {
  import opened Common
  import opened Schema

  // ---------------------------------------------------------------- calendar

  /** A calendar month; `month` runs from 1 to 12. */
  datatype YearMonth = YearMonth(year: int, month: int)

  predicate ValidMonth(ym: YearMonth) { 1 <= ym.month <= 12 }

  /** Months counted from year 0, so consecutive months have consecutive indexes. */
  function MonthIndex(ym: YearMonth): int {
    ym.year * 12 + (ym.month - 1)
  }

  function MonthAt(k: int): (ym: YearMonth)
    ensures ValidMonth(ym) && MonthIndex(ym) == k
  {
    YearMonth(k / 12, k % 12 + 1)
  }

  lemma MonthAtIndex(ym: YearMonth)
    requires ValidMonth(ym)
    ensures MonthAt(MonthIndex(ym)) == ym
  {
    var k := MonthIndex(ym);
    assert k / 12 == ym.year && k % 12 == ym.month - 1;
  }

  predicate IsLeapYear(y: int) {
    (y % 4 == 0 && y % 100 != 0) || y % 400 == 0
  }

  function DaysInMonth(ym: YearMonth): (n: int)
    requires ValidMonth(ym)
    ensures 28 <= n <= 31
  {
    if ym.month == 2 then (if IsLeapYear(ym.year) then 29 else 28)
    else if ym.month == 4 || ym.month == 6 || ym.month == 9 || ym.month == 11 then 30
    else 31
  }

  datatype CalendarDate = CalendarDate(year: int, month: int, day: int)

  predicate ValidDate(d: CalendarDate) {
    1 <= d.month <= 12 && 1 <= d.day <= DaysInMonth(YearMonth(d.year, d.month))
  }

  function MonthOf(d: CalendarDate): YearMonth {
    YearMonth(d.year, d.month)
  }

  /** The month `i` months before the month of `today`. */
  function MonthsBack(today: CalendarDate, i: int): (ym: YearMonth)
    ensures ValidMonth(ym) && MonthIndex(ym) == MonthIndex(MonthOf(today)) - i
  {
    MonthAt(MonthIndex(MonthOf(today)) - i)
  }

  /** The month of `new Date()` after `setMonth(getMonth() - i)`: the day of the
      month is kept, so when the target month is shorter than today's day the
      date rolls over into the month after the target. */
  function SetMonthBack(today: CalendarDate, i: int): (ym: YearMonth)
    requires ValidDate(today)
    ensures ValidMonth(ym)
  {
    var target := MonthsBack(today, i);
    if today.day <= DaysInMonth(target) then target else MonthsBack(today, i - 1)
  }

  // ---------------------------------------------------------------- buckets

  /** The creation month and status of one case, as the query selects them. */
  datatype CaseSample = CaseSample(mes: YearMonth, estado: Estado)

  /** One month of `datosMensuales`; the month stands for its display name. */
  datatype Bucket = Bucket(mes: YearMonth, registrados: nat, resueltos: nat, pendientes: nat)

  predicate IsPendiente(e: Estado) {
    e == PENDIENTE || e == EN_REVISION || e == EN_PROCESO
  }

  function Registrados(casos: seq<CaseSample>, mes: YearMonth): nat {
    if |casos| == 0 then 0
    else Registrados(casos[..|casos| - 1], mes) + (if casos[|casos| - 1].mes == mes then 1 else 0)
  }

  function Resueltos(casos: seq<CaseSample>, mes: YearMonth): nat {
    if |casos| == 0 then 0
    else
      var c := casos[|casos| - 1];
      Resueltos(casos[..|casos| - 1], mes) + (if c.mes == mes && c.estado == RESUELTO then 1 else 0)
  }

  function Pendientes(casos: seq<CaseSample>, mes: YearMonth): nat {
    if |casos| == 0 then 0
    else
      var c := casos[|casos| - 1];
      Pendientes(casos[..|casos| - 1], mes) + (if c.mes == mes && IsPendiente(c.estado) then 1 else 0)
  }

  /** The bucket a month should hold once every case has been counted. */
  function Tally(casos: seq<CaseSample>, mes: YearMonth): Bucket {
    Bucket(mes, Registrados(casos, mes), Resueltos(casos, mes), Pendientes(casos, mes))
  }

  /** A case counts as resolved or as pending, never as both, so the two never
      exceed the cases registered that month. */
  lemma {:induction false} TallyBound(casos: seq<CaseSample>, mes: YearMonth)
    ensures Resueltos(casos, mes) + Pendientes(casos, mes) <= Registrados(casos, mes)
    decreases |casos|
  {
    if |casos| > 0 {
      TallyBound(casos[..|casos| - 1], mes);
    }
  }

  /** Cases of other months leave a bucket untouched. */
  lemma {:induction false} TallyOfOtherMonths(casos: seq<CaseSample>, mes: YearMonth)
    requires forall i :: 0 <= i < |casos| ==> casos[i].mes != mes
    ensures Tally(casos, mes) == Bucket(mes, 0, 0, 0)
    decreases |casos|
  {
    if |casos| > 0 {
      TallyOfOtherMonths(casos[..|casos| - 1], mes);
    }
  }

  /** `mes` is one of the keys the initialising loop writes. */
  ghost predicate InWindowAsWritten(today: CalendarDate, mes: YearMonth)
    requires ValidDate(today)
  {
    exists i :: 0 <= i < 12 && SetMonthBack(today, i) == mes
  }

  /** What `calcularDatosMensuales` returns: one bucket per key of the window,
      in ascending month order, each holding the tally of its month. */
  ghost predicate MonthlyReport(today: CalendarDate, casos: seq<CaseSample>, datos: seq<Bucket>)
    requires ValidDate(today)
  {
    && (forall j :: 0 <= j < |datos| ==> InWindowAsWritten(today, datos[j].mes))
    && (forall mes :: InWindowAsWritten(today, mes) ==> exists j :: 0 <= j < |datos| && datos[j].mes == mes)
    && (forall j, k :: 0 <= j < k < |datos| ==> MonthIndex(datos[j].mes) < MonthIndex(datos[k].mes))
    && (forall j :: 0 <= j < |datos| ==> datos[j] == Tally(casos, datos[j].mes))
  }

  lemma WindowBounds(today: CalendarDate, i: int)
    requires ValidDate(today) && 0 <= i < 12
    ensures var k := MonthIndex(SetMonthBack(today, i)) - MonthIndex(MonthOf(today));
      -11 <= k <= 0
  {
    if i == 0 {
      MonthAtIndex(MonthOf(today));
    }
  }

  /** The first loop of `calcularDatosMensuales`: a zero bucket for each of
      the last twelve months, oldest first. */
  method InitialiseMonths(today: CalendarDate) returns (meses: map<YearMonth, Bucket>)
    requires ValidDate(today)
    ensures forall mes :: mes in meses <==> InWindowAsWritten(today, mes)
    ensures forall mes :: mes in meses ==> meses[mes] == Bucket(mes, 0, 0, 0)
  {
    meses := map[];
    var i := 11;
    while i >= 0
      invariant -1 <= i <= 11
      invariant forall k :: i < k < 12 ==> SetMonthBack(today, k) in meses
      invariant forall mes :: mes in meses ==> exists k :: i < k < 12 && SetMonthBack(today, k) == mes
      invariant forall mes :: mes in meses ==> meses[mes] == Bucket(mes, 0, 0, 0)
    {
      var key := SetMonthBack(today, i);
      meses := meses[key := Bucket(key, 0, 0, 0)];
      i := i - 1;
    }
  }

  /** The `forEach` of `calcularDatosMensuales`: each case counts into the
      bucket of its month, when there is one. */
  method CountCases(zero: map<YearMonth, Bucket>, casos: seq<CaseSample>) returns (meses: map<YearMonth, Bucket>)
    requires forall mes :: mes in zero ==> zero[mes] == Bucket(mes, 0, 0, 0)
    ensures meses.Keys == zero.Keys
    ensures forall mes :: mes in meses ==> meses[mes] == Tally(casos, mes)
  {
    meses := zero;
    var n := 0;
    while n < |casos|
      invariant 0 <= n <= |casos|
      invariant meses.Keys == zero.Keys
      invariant forall mes :: mes in meses ==> meses[mes] == Tally(casos[..n], mes)
    {
      var c := casos[n];
      assert casos[..n + 1][..n] == casos[..n];
      if c.mes in meses {
        var b := meses[c.mes];
        var registrados, resueltos, pendientes := b.registrados + 1, b.resueltos, b.pendientes;
        if c.estado == RESUELTO {
          resueltos := resueltos + 1;
        } else if IsPendiente(c.estado) {
          pendientes := pendientes + 1;
        }
        meses := meses[c.mes := Bucket(c.mes, registrados, resueltos, pendientes)];
      }
      n := n + 1;
    }
    assert casos[..n] == casos;
  }

  /** Every month from `last - 11` to `last` has a bucket. */
  ghost predicate AllMonthsPresent(meses: map<YearMonth, Bucket>, last: int) {
    forall k :: last - 11 <= k <= last ==> MonthAt(k) in meses
  }

  ghost function MonthsOf(datos: seq<Bucket>): set<YearMonth> {
    set j | 0 <= j < |datos| :: datos[j].mes
  }

  lemma MonthsOfAppend(datos: seq<Bucket>, b: Bucket)
    ensures MonthsOf(datos + [b]) == MonthsOf(datos) + {b.mes}
  {
    var extended := datos + [b];
    forall mes | mes in MonthsOf(extended) ensures mes in MonthsOf(datos) + {b.mes} {
      var j :| 0 <= j < |extended| && extended[j].mes == mes;
      if j < |datos| { assert datos[j].mes == mes; }
    }
    forall mes | mes in MonthsOf(datos) ensures mes in MonthsOf(extended) {
      var j :| 0 <= j < |datos| && datos[j].mes == mes;
      assert extended[j].mes == mes;
    }
    assert extended[|datos|].mes == b.mes;
  }

  /** `Object.keys(meses).sort().map(key => meses[key])`, for keys that all lie
      among the twelve months ending with month `last`: emitting them month by
      month is the sort. */
  method SortedBuckets(meses: map<YearMonth, Bucket>, last: int) returns (datos: seq<Bucket>)
    requires forall mes :: mes in meses ==> ValidMonth(mes) && last - 11 <= MonthIndex(mes) <= last
    requires forall mes :: mes in meses ==> meses[mes].mes == mes
    ensures forall j :: 0 <= j < |datos| ==> datos[j].mes in meses && datos[j] == meses[datos[j].mes]
    ensures forall mes :: mes in meses ==> mes in MonthsOf(datos)
    ensures forall j, k :: 0 <= j < k < |datos| ==> MonthIndex(datos[j].mes) < MonthIndex(datos[k].mes)
    ensures |datos| <= 12
    ensures AllMonthsPresent(meses, last) ==> |datos| == 12
  {
    datos := [];
    ghost var missed := 0;
    var m := last - 11;
    while m <= last
      invariant last - 11 <= m <= last + 1
      invariant |datos| + missed == m - (last - 11)
      invariant missed == 0 || !AllMonthsPresent(meses, last)
      invariant forall j :: 0 <= j < |datos| ==> datos[j].mes in meses && datos[j] == meses[datos[j].mes]
      invariant forall j :: 0 <= j < |datos| ==> MonthIndex(datos[j].mes) < m
      invariant forall j, k :: 0 <= j < k < |datos| ==> MonthIndex(datos[j].mes) < MonthIndex(datos[k].mes)
      invariant forall mes :: mes in meses && MonthIndex(mes) < m ==> mes in MonthsOf(datos)
    {
      var mes := MonthAt(m);
      ghost var before := datos;
      if mes in meses {
        datos := datos + [meses[mes]];
        MonthsOfAppend(before, meses[mes]);
        assert datos[|before|].mes == mes;
      } else {
        missed := missed + 1;
      }
      forall other | other in meses && MonthIndex(other) == m
        ensures other in MonthsOf(datos)
      {
        MonthAtIndex(other);
        assert other == mes;
      }
      m := m + 1;
    }
  }

  /** `calcularDatosMensuales(casos)` with today's date passed in. */
  method CalcularDatosMensuales(today: CalendarDate, casos: seq<CaseSample>) returns (datos: seq<Bucket>)
    requires ValidDate(today)
    ensures MonthlyReport(today, casos, datos)
    ensures |datos| <= 12
    ensures today.day <= 28 ==> |datos| == 12
  {
    var base := MonthIndex(MonthOf(today));
    var meses := InitialiseMonths(today);
    meses := CountCases(meses, casos);
    forall mes | mes in meses
      ensures ValidMonth(mes) && base - 11 <= MonthIndex(mes) <= base
    {
      var k :| 0 <= k < 12 && SetMonthBack(today, k) == mes;
      WindowBounds(today, k);
    }
    if today.day <= 28 {
      forall k | base - 11 <= k <= base
        ensures MonthAt(k) in meses
      {
        assert SetMonthBack(today, base - k) == MonthAt(k);
      }
    }
    datos := SortedBuckets(meses, base);
    forall mes | InWindowAsWritten(today, mes)
      ensures exists j :: 0 <= j < |datos| && datos[j].mes == mes
    {
      assert mes in MonthsOf(datos);
    }
  }

  // ---------------------------------------------------------------- the window

  /** Intended window: the twelve months ending with the current one. */
  ghost predicate InWindow(today: CalendarDate, mes: YearMonth) {
    exists i :: 0 <= i < 12 && MonthsBack(today, i) == mes
  }

  /** The intended window is exactly the twelve consecutive months that end
      with the current month, whatever today's day. */
  lemma WindowIsTwelveMonths(today: CalendarDate, mes: YearMonth)
    requires ValidMonth(mes)
    ensures InWindow(today, mes) <==>
      MonthIndex(MonthOf(today)) - 11 <= MonthIndex(mes) <= MonthIndex(MonthOf(today))
  {
    var i := MonthIndex(MonthOf(today)) - MonthIndex(mes);
    if 0 <= i < 12 {
      MonthAtIndex(mes);
      assert MonthsBack(today, i) == mes;
    }
  }

  /** Up to day 28 no month is too short, so the code as written initialises
      exactly the intended window. */
  lemma WindowAsWrittenUpToDay28(today: CalendarDate, mes: YearMonth)
    requires ValidDate(today) && today.day <= 28
    ensures InWindowAsWritten(today, mes) <==> InWindow(today, mes)
  {
    if InWindow(today, mes) {
      var i :| 0 <= i < 12 && MonthsBack(today, i) == mes;
      assert SetMonthBack(today, i) == mes;
    }
  }

  /** What the corrected report returns: one bucket per month of the intended
      window, in ascending month order, each holding the tally of its month. */
  ghost predicate IntendedReport(today: CalendarDate, casos: seq<CaseSample>, datos: seq<Bucket>) {
    && (forall j :: 0 <= j < |datos| ==> InWindow(today, datos[j].mes))
    && (forall mes :: InWindow(today, mes) ==> exists j :: 0 <= j < |datos| && datos[j].mes == mes)
    && (forall j, k :: 0 <= j < k < |datos| ==> MonthIndex(datos[j].mes) < MonthIndex(datos[k].mes))
    && (forall j :: 0 <= j < |datos| ==> datos[j] == Tally(casos, datos[j].mes))
  }

  /** The first loop of `calcularDatosMensuales` with plain month arithmetic
      in place of `setMonth`: a zero bucket for each of the twelve months. */
  method InitialiseWindow(today: CalendarDate) returns (meses: map<YearMonth, Bucket>)
    ensures forall mes :: mes in meses <==> InWindow(today, mes)
    ensures forall mes :: mes in meses ==> meses[mes] == Bucket(mes, 0, 0, 0)
  {
    meses := map[];
    var i := 11;
    while i >= 0
      invariant -1 <= i <= 11
      invariant forall k :: i < k < 12 ==> MonthsBack(today, k) in meses
      invariant forall mes :: mes in meses ==> exists k :: i < k < 12 && MonthsBack(today, k) == mes
      invariant forall mes :: mes in meses ==> meses[mes] == Bucket(mes, 0, 0, 0)
    {
      var key := MonthsBack(today, i);
      meses := meses[key := Bucket(key, 0, 0, 0)];
      i := i - 1;
    }
  }

  /** The corrected `calcularDatosMensuales`: whatever today's day, the
      report has exactly twelve buckets, the months ending with the current one. */
  method CalcularDatosMensualesCorrected(today: CalendarDate, casos: seq<CaseSample>) returns (datos: seq<Bucket>)
    ensures IntendedReport(today, casos, datos)
    ensures |datos| == 12
  {
    var base := MonthIndex(MonthOf(today));
    var meses := InitialiseWindow(today);
    meses := CountCases(meses, casos);
    forall mes | mes in meses
      ensures ValidMonth(mes) && base - 11 <= MonthIndex(mes) <= base
    {
      var k :| 0 <= k < 12 && MonthsBack(today, k) == mes;
    }
    forall k | base - 11 <= k <= base
      ensures MonthAt(k) in meses
    {
      assert MonthsBack(today, base - k) == MonthAt(k);
    }
    datos := SortedBuckets(meses, base);
    forall mes | InWindow(today, mes)
      ensures exists j :: 0 <= j < |datos| && datos[j].mes == mes
    {
      assert mes in MonthsOf(datos);
    }
  }

  /** As written: when today's day does not exist in the month `i` months back,
      and the month before that one is long enough, that month gets no bucket
      (the next month is initialised twice instead). */
  lemma ShortMonthIsSkipped(today: CalendarDate, i: int)
    requires ValidDate(today) && 1 <= i <= 11
    requires today.day > DaysInMonth(MonthsBack(today, i))
    requires i < 11 ==> today.day <= DaysInMonth(MonthsBack(today, i + 1))
    ensures !InWindowAsWritten(today, MonthsBack(today, i))
  {
    var target := MonthsBack(today, i);
    forall k | 0 <= k < 12
      ensures SetMonthBack(today, k) != target
    {
      if k == i + 1 {
        assert SetMonthBack(today, k) == MonthsBack(today, i + 1);
      }
    }
  }

  /** The concrete case: on 31 October 2026 there is no bucket for November
      2025, since 31 November rolls over into December. */
  lemma November2025Skipped()
    ensures ValidDate(CalendarDate(2026, 10, 31))
    ensures MonthsBack(CalendarDate(2026, 10, 31), 11) == YearMonth(2025, 11)
    ensures !InWindowAsWritten(CalendarDate(2026, 10, 31), YearMonth(2025, 11))
  {
    var today := CalendarDate(2026, 10, 31);
    MonthAtIndex(YearMonth(2025, 11));
    ShortMonthIsSkipped(today, 11);
  }

  /** On October 31 of any year the as-written window overflows for
      September, June, April and February of that year and November of the
      year before: only seven distinct months get a bucket. */
  lemma October31WindowAsWritten(year: int)
    ensures ValidDate(CalendarDate(year, 10, 31))
    ensures forall mes :: InWindowAsWritten(CalendarDate(year, 10, 31), mes) <==>
      mes in {YearMonth(year - 1, 12), YearMonth(year, 1), YearMonth(year, 3), YearMonth(year, 5),
              YearMonth(year, 7), YearMonth(year, 8), YearMonth(year, 10)}
  {
    var today := CalendarDate(year, 10, 31);
    var kept := {YearMonth(year - 1, 12), YearMonth(year, 1), YearMonth(year, 3), YearMonth(year, 5),
                 YearMonth(year, 7), YearMonth(year, 8), YearMonth(year, 10)};
    October31RecentMonths(year);
    October31EarlierMonths(year);
    forall mes | InWindowAsWritten(today, mes) ensures mes in kept {
      var i :| 0 <= i < 12 && SetMonthBack(today, i) == mes;
      assert i in {0, 1, 2, 3, 4, 5, 6, 7, 8, 9, 10, 11};
    }
  }

  /** Where `setMonth` lands for the six most recent months on October 31. */
  lemma October31RecentMonths(year: int)
    ensures ValidDate(CalendarDate(year, 10, 31))
    ensures var today := CalendarDate(year, 10, 31);
      && SetMonthBack(today, 0) == YearMonth(year, 10) && SetMonthBack(today, 1) == YearMonth(year, 10)
      && SetMonthBack(today, 2) == YearMonth(year, 8) && SetMonthBack(today, 3) == YearMonth(year, 7)
      && SetMonthBack(today, 4) == YearMonth(year, 7) && SetMonthBack(today, 5) == YearMonth(year, 5)
  {
    var today := CalendarDate(year, 10, 31);
    SetMonthBackAt(today, 0, YearMonth(year, 10), YearMonth(year, 11));
    SetMonthBackAt(today, 1, YearMonth(year, 9), YearMonth(year, 10));
    SetMonthBackAt(today, 2, YearMonth(year, 8), YearMonth(year, 9));
    SetMonthBackAt(today, 3, YearMonth(year, 7), YearMonth(year, 8));
    SetMonthBackAt(today, 4, YearMonth(year, 6), YearMonth(year, 7));
    SetMonthBackAt(today, 5, YearMonth(year, 5), YearMonth(year, 6));
  }

  /** Where `setMonth` lands for the six earlier months on October 31. */
  lemma October31EarlierMonths(year: int)
    ensures ValidDate(CalendarDate(year, 10, 31))
    ensures var today := CalendarDate(year, 10, 31);
      && SetMonthBack(today, 6) == YearMonth(year, 5) && SetMonthBack(today, 7) == YearMonth(year, 3)
      && SetMonthBack(today, 8) == YearMonth(year, 3) && SetMonthBack(today, 9) == YearMonth(year, 1)
      && SetMonthBack(today, 10) == YearMonth(year - 1, 12) && SetMonthBack(today, 11) == YearMonth(year - 1, 12)
  {
    var today := CalendarDate(year, 10, 31);
    SetMonthBackAt(today, 6, YearMonth(year, 4), YearMonth(year, 5));
    SetMonthBackAt(today, 7, YearMonth(year, 3), YearMonth(year, 4));
    SetMonthBackAt(today, 8, YearMonth(year, 2), YearMonth(year, 3));
    SetMonthBackAt(today, 9, YearMonth(year, 1), YearMonth(year, 2));
    SetMonthBackAt(today, 10, YearMonth(year - 1, 12), YearMonth(year, 1));
    SetMonthBackAt(today, 11, YearMonth(year - 1, 11), YearMonth(year - 1, 12));
  }

  /** `setMonth` lands on the target month, or on the month after it when the
      target is too short for today's day. */
  lemma SetMonthBackAt(today: CalendarDate, i: int, target: YearMonth, next: YearMonth)
    requires ValidDate(today) && ValidMonth(target) && ValidMonth(next)
    requires MonthIndex(target) == MonthIndex(MonthOf(today)) - i
    requires MonthIndex(next) == MonthIndex(target) + 1
    ensures today.day <= DaysInMonth(target) ==> SetMonthBack(today, i) == target
    ensures today.day > DaysInMonth(target) ==> SetMonthBack(today, i) == next
  {
    MonthAtIndex(target);
    MonthAtIndex(next);
  }

  // ---------------------------------------------------------------- totals

  function IdsOfType(casos: map<string, Caso>, t: CaseType): set<string> {
    set id | id in casos && casos[id].tipo == t
  }

  function IdsWithEstado(casos: map<string, Caso>, e: Estado): set<string> {
    set id | id in casos && casos[id].estado == e
  }

  function IdsWithPriority(casos: map<string, Caso>, p: Priority): set<string> {
    set id | id in casos && casos[id].prioridad == p
  }

  /** `groupBy` counts, with a zero for a value no case has. */
  datatype TipoCounts = TipoCounts(reclamo: nat, queja: nat, denuncia: nat)
  datatype EstadoCounts = EstadoCounts(
    pendiente: nat, enRevision: nat, enProceso: nat, resuelto: nat, archivado: nat, rechazado: nat)
  datatype PrioridadCounts = PrioridadCounts(baja: nat, media: nat, alta: nat, urgente: nat)

  function PorTipo(casos: map<string, Caso>): TipoCounts {
    TipoCounts(|IdsOfType(casos, RECLAMO)|, |IdsOfType(casos, QUEJA)|, |IdsOfType(casos, DENUNCIA)|)
  }

  function PorEstado(casos: map<string, Caso>): EstadoCounts {
    EstadoCounts(
      |IdsWithEstado(casos, PENDIENTE)|, |IdsWithEstado(casos, EN_REVISION)|,
      |IdsWithEstado(casos, EN_PROCESO)|, |IdsWithEstado(casos, RESUELTO)|,
      |IdsWithEstado(casos, ARCHIVADO)|, |IdsWithEstado(casos, RECHAZADO)|)
  }

  function PorPrioridad(casos: map<string, Caso>): PrioridadCounts {
    PrioridadCounts(
      |IdsWithPriority(casos, BAJA)|, |IdsWithPriority(casos, MEDIA)|,
      |IdsWithPriority(casos, ALTA)|, |IdsWithPriority(casos, URGENTE)|)
  }

  lemma DisjointUnionSize(a: set<string>, b: set<string>)
    requires a * b == {}
    ensures |a + b| == |a| + |b|
  {
  }

  /** Every case falls in exactly one type group. */
  lemma TipoCountsSumToTotal(casos: map<string, Caso>)
    ensures var c := PorTipo(casos); c.reclamo + c.queja + c.denuncia == |casos|
  {
    var r, q, d := IdsOfType(casos, RECLAMO), IdsOfType(casos, QUEJA), IdsOfType(casos, DENUNCIA);
    TypeGroupsDisjoint(casos);
    DisjointUnionSize3(r, q, d);
    TypeGroupsCover(casos);
  }

  lemma TypeGroupsDisjoint(casos: map<string, Caso>)
    ensures var r, q, d := IdsOfType(casos, RECLAMO), IdsOfType(casos, QUEJA), IdsOfType(casos, DENUNCIA);
      r * q == {} && r * d == {} && q * d == {}
  {
  }

  lemma TypeGroupsCover(casos: map<string, Caso>)
    ensures IdsOfType(casos, RECLAMO) + IdsOfType(casos, QUEJA) + IdsOfType(casos, DENUNCIA) == casos.Keys
  {
  }

  /** Every case falls in exactly one status group. */
  lemma EstadoCountsSumToTotal(casos: map<string, Caso>)
    ensures var c := PorEstado(casos);
      c.pendiente + c.enRevision + c.enProceso + c.resuelto + c.archivado + c.rechazado == |casos|
  {
    var a, b, c := IdsWithEstado(casos, PENDIENTE), IdsWithEstado(casos, EN_REVISION), IdsWithEstado(casos, EN_PROCESO);
    var d, e, f := IdsWithEstado(casos, RESUELTO), IdsWithEstado(casos, ARCHIVADO), IdsWithEstado(casos, RECHAZADO);
    EstadoGroupsDisjoint(casos);
    DisjointUnionSize3(a, b, c);
    DisjointUnionSize3(d, e, f);
    DisjointUnionSize(a + b + c, d + e + f);
    EstadoGroupsCover(casos);
  }

  lemma EstadoGroupsDisjoint(casos: map<string, Caso>)
    ensures var a, b, c := IdsWithEstado(casos, PENDIENTE), IdsWithEstado(casos, EN_REVISION), IdsWithEstado(casos, EN_PROCESO);
      a * b == {} && a * c == {} && b * c == {}
    ensures var d, e, f := IdsWithEstado(casos, RESUELTO), IdsWithEstado(casos, ARCHIVADO), IdsWithEstado(casos, RECHAZADO);
      d * e == {} && d * f == {} && e * f == {}
    ensures var a, b, c := IdsWithEstado(casos, PENDIENTE), IdsWithEstado(casos, EN_REVISION), IdsWithEstado(casos, EN_PROCESO);
      var d, e, f := IdsWithEstado(casos, RESUELTO), IdsWithEstado(casos, ARCHIVADO), IdsWithEstado(casos, RECHAZADO);
      (a + b + c) * (d + e + f) == {}
  {
  }

  lemma DisjointUnionSize3(a: set<string>, b: set<string>, c: set<string>)
    requires a * b == {} && a * c == {} && b * c == {}
    ensures |a + b + c| == |a| + |b| + |c|
  {
    DisjointUnionSize(a, b);
    DisjointUnionSize(a + b, c);
  }

  lemma EstadoGroupsCover(casos: map<string, Caso>)
    ensures IdsWithEstado(casos, PENDIENTE) + IdsWithEstado(casos, EN_REVISION) + IdsWithEstado(casos, EN_PROCESO)
      + (IdsWithEstado(casos, RESUELTO) + IdsWithEstado(casos, ARCHIVADO) + IdsWithEstado(casos, RECHAZADO))
      == casos.Keys
  {
  }

  /** Every case falls in exactly one priority group. */
  lemma PrioridadCountsSumToTotal(casos: map<string, Caso>)
    ensures var c := PorPrioridad(casos); c.baja + c.media + c.alta + c.urgente == |casos|
  {
    var a, b, c, d := IdsWithPriority(casos, BAJA), IdsWithPriority(casos, MEDIA),
      IdsWithPriority(casos, ALTA), IdsWithPriority(casos, URGENTE);
    PriorityGroupsDisjoint(casos);
    DisjointUnionSize3(a, b, c);
    DisjointUnionSize(a + b + c, d);
    PriorityGroupsCover(casos);
  }

  lemma PriorityGroupsDisjoint(casos: map<string, Caso>)
    ensures var a, b, c, d := IdsWithPriority(casos, BAJA), IdsWithPriority(casos, MEDIA),
      IdsWithPriority(casos, ALTA), IdsWithPriority(casos, URGENTE);
      a * b == {} && a * c == {} && b * c == {} && (a + b + c) * d == {}
  {
  }

  lemma PriorityGroupsCover(casos: map<string, Caso>)
    ensures IdsWithPriority(casos, BAJA) + IdsWithPriority(casos, MEDIA)
      + IdsWithPriority(casos, ALTA) + IdsWithPriority(casos, URGENTE) == casos.Keys
  {
  }

  lemma MulMonotone(a: int, b: int, c: int)
    requires a >= 0 && b <= c
    ensures a * b <= a * c
  {
    assert a * c - a * b == a * (c - b);
  }

  /** `tasaResolucion` in hundredths of a percent: the resolved share rounded
      half up to two decimals, and 0 when there are no cases. */
  function TasaResolucion(resueltos: nat, total: nat): (r: nat)
    requires resueltos <= total
    ensures total == 0 ==> r == 0
    ensures total > 0 ==> 20000 * resueltos - total < 2 * total * r <= 20000 * resueltos + total
    ensures r <= 10000
    ensures 0 < total == resueltos ==> r == 10000
    ensures resueltos == 0 ==> r == 0
  {
    if total == 0 then 0
    else
      var q := (20000 * resueltos + total) / (2 * total);
      RoundedShare(resueltos, total, q);
      q
  }

  lemma RoundedShare(resueltos: nat, total: nat, q: int)
    requires 0 < total && resueltos <= total
    requires q == (20000 * resueltos + total) / (2 * total)
    ensures 0 <= q <= 10000
    ensures 20000 * resueltos - total < 2 * total * q <= 20000 * resueltos + total
    ensures resueltos == total ==> q == 10000
    ensures resueltos == 0 ==> q == 0
  {
    var n, d := 20000 * resueltos + total, 2 * total;
    assert d * q <= n < d * q + d;
    assert 0 <= q by {
      if q < 0 { MulMonotone(d, q, -1); }
    }
    assert q <= 10000 by {
      if q > 10000 {
        MulMonotone(d, 10001, q);
        MulMonotone(20000, resueltos, total);
      }
    }
    if resueltos == total {
      assert n == d * 10000 + total;
      if q < 10000 { MulMonotone(d, q + 1, 10000); }
    }
    if resueltos == 0 {
      if q > 0 { MulMonotone(d, 1, q); }
    }
  }

  datatype Estadisticas = Estadisticas(
    total: nat,
    porTipo: TipoCounts,
    porEstado: EstadoCounts,
    porPrioridad: PrioridadCounts,
    casosResueltos: nat,
    tasaResolucion: nat,
    datosMensuales: seq<Bucket>)

  /** `getEstadisticas()`: `recent` is what the twelve-month `findMany` returns. */
  method GetEstadisticas(casos: map<string, Caso>, recent: seq<CaseSample>, today: CalendarDate)
    returns (s: Estadisticas)
    requires ValidDate(today)
    ensures s.total == |casos|
    ensures s.porTipo == PorTipo(casos) && s.porEstado == PorEstado(casos)
    ensures s.porPrioridad == PorPrioridad(casos)
    ensures s.casosResueltos == s.porEstado.resuelto <= s.total
    ensures s.tasaResolucion == TasaResolucion(s.casosResueltos, s.total)
    ensures MonthlyReport(today, recent, s.datosMensuales)
  {
    var total := |casos|;
    var resueltos := |IdsWithEstado(casos, RESUELTO)|;
    var rest := casos.Keys - IdsWithEstado(casos, RESUELTO);
    DisjointUnionSize(IdsWithEstado(casos, RESUELTO), rest);
    assert IdsWithEstado(casos, RESUELTO) + rest == casos.Keys;
    var datos := CalcularDatosMensuales(today, recent);
    s := Estadisticas(total, PorTipo(casos), PorEstado(casos), PorPrioridad(casos),
      resueltos, TasaResolucion(resueltos, total), datos);
  }
}
