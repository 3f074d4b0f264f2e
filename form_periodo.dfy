// The period form of an activity: a start/end range of calendar days, the
// check that the start is not after the end, and a list of single dates
// ("fechas puntuales") kept in chronological order, each of which can be
// removed again.

module FormPeriodo {
  import opened Common
  import opened Sorting

  // ---------------------------------------------------------------------
  // Calendar days and their text forms

  /** A calendar day as a date picker hands it over (time of day left out). */
  datatype Date = Date(year: nat, month: nat, day: nat)

  /** A month between 1 and 12 and a day between 1 and 31. */
  predicate IsCalendarDay(d: Date) {
    1 <= d.month <= 12 && 1 <= d.day <= 31
  }

  /** A day whose year is written with exactly four digits. */
  predicate HasFourDigitYear(d: Date) {
    1000 <= d.year <= 9999
  }

  /** A JavaScript `Date` object: a day, or the "Invalid Date" that parsing
      an unreadable string gives. */
  datatype DateValue = Day(date: Date) | InvalidDate

  /** Chronological order of days. */
  predicate DateLe(a: Date, b: Date) {
    a.year < b.year
    || (a.year == b.year && (a.month < b.month || (a.month == b.month && a.day <= b.day)))
  }

  predicate DateLt(a: Date, b: Date) {
    DateLe(a, b) && a != b
  }

  /** A number below 10 gets a leading zero. */
  function Pad2(n: nat): (s: string)
    ensures 1 <= |s| && AllDigits(s)
  {
    if n < 10 then "0" + NatToString(n) else NatToString(n)
  }

  /** `dateToString`: year, zero-padded month and zero-padded day joined by
      dashes. */
  function DateToString(d: Date): (s: string)
    ensures s != []
  {
    NatToString(d.year) + "-" + Pad2(d.month) + "-" + Pad2(d.day)
  }

  /** `printDMA`: the dash-separated pieces in reverse order, joined by
      slashes. */
  function PrintDMA(s: string): string {
    Join(Reverse(Split(s, '-')), '/')
  }

  /** A "year/month/day" string as `new Date` reads it: three non-empty runs
      of digits naming a calendar day. */
  function ParseSlashDate(s: string): (r: Option<Date>)
    ensures r.Some? ==> IsCalendarDay(r.value)
  {
    var parts := Split(s, '/');
    if |parts| == 3
       && parts[0] != [] && AllDigits(parts[0])
       && parts[1] != [] && AllDigits(parts[1])
       && parts[2] != [] && AllDigits(parts[2])
    then
      var d := Date(ParseNat(parts[0]), ParseNat(parts[1]), ParseNat(parts[2]));
      if IsCalendarDay(d) then Some(d) else None
    else None
  }

  /** The initial range ends: an empty or missing stored date gives no day;
      otherwise its dashes become slashes and it is parsed, an unreadable
      string giving an invalid date. */
  function InitialRangeDate(s: Option<string>): (r: Option<DateValue>)
    ensures r.None? <==> s.None? || s.value == []
  {
    if s.Some? && s.value != [] then
      match ParseSlashDate(Join(Split(s.value, '-'), '/'))
      case Some(d) => Some(Day(d))
      case None => Some(InvalidDate)
    else None
  }

  /** A strict ISO "YYYY-MM-DD" date, the form `new Date` reads together with
      a time and an offset. */
  function ParseIsoDate(s: string): (r: DateValue)
    ensures r.Day? ==> IsCalendarDay(r.date)
  {
    var parts := Split(s, '-');
    if |parts| == 3
       && |parts[0]| == 4 && AllDigits(parts[0])
       && |parts[1]| == 2 && AllDigits(parts[1])
       && |parts[2]| == 2 && AllDigits(parts[2])
    then
      var d := Date(ParseNat(parts[0]), ParseNat(parts[1]), ParseNat(parts[2]));
      if IsCalendarDay(d) then Day(d) else InvalidDate
    else InvalidDate
  }

  // ---------------------------------------------------------------------
  // Properties of the text forms

  lemma {:induction false} ParseNatDigits(n: nat, k: nat)
    requires n < Pow10(k)
    ensures ParseNat(Digits(n, k)) == n
  {
    if k > 0 {
      var s := Digits(n, k);
      assert s[..k - 1] == Digits(n / 10, k - 1);
      assert n / 10 < Pow10(k - 1);
      ParseNatDigits(n / 10, k - 1);
    }
  }

  lemma Pad2IsDigits(n: nat)
    requires n < 100
    ensures Pad2(n) == Digits(n, 2)
  {
    assert Pow10(1) == 10 && Pow10(2) == 100;
    if n < 10 {
      assert Digits(n / 10, 1) == Digits(0, 0) + [DigitChar(0)];
    } else {
      NatToStringIsDigits(n, 2);
    }
  }

  lemma ParsePad2(n: nat)
    requires n < 100
    ensures ParseNat(Pad2(n)) == n
  {
    Pad2IsDigits(n);
    assert Pow10(2) == 100 by { assert Pow10(1) == 10; }
    ParseNatDigits(n, 2);
  }

  lemma NoSeparatorInDigits(s: string, sep: char)
    requires AllDigits(s) && !IsDigit(sep)
    ensures sep !in s
  {
  }

  /** The dash-separated pieces of a date string. */
  lemma SplitDateToString(d: Date)
    ensures Split(DateToString(d), '-') == [NatToString(d.year), Pad2(d.month), Pad2(d.day)]
  {
    var y, m, dd := NatToString(d.year), Pad2(d.month), Pad2(d.day);
    NoSeparatorInDigits(y, '-');
    NoSeparatorInDigits(m, '-');
    NoSeparatorInDigits(dd, '-');
    assert DateToString(d) == y + ['-'] + (m + ['-'] + dd);
    SplitAtSeparator(y, '-', m + ['-'] + dd);
    SplitAtSeparator(m, '-', dd);
    SplitNoSeparator(dd, '-');
  }

  lemma JoinThree(a: string, b: string, c: string, sep: char)
    ensures Join([a, b, c], sep) == a + [sep] + b + [sep] + c
  {
    assert [a, b, c][1..] == [b, c];
    assert [b, c][1..] == [c];
    assert Join([b, c], sep) == b + [sep] + c;
    assert a + [sep] + (b + [sep] + c) == a + [sep] + b + [sep] + c;
  }

  /** A date string prints as day/month/year. */
  lemma PrintDMADateToString(d: Date)
    ensures PrintDMA(DateToString(d)) == DayText(d)
  {
    var y, m, dd := NatToString(d.year), Pad2(d.month), Pad2(d.day);
    SplitDateToString(d);
    assert Reverse([y, m, dd]) == [dd, m, y];
    JoinThree(dd, m, y, '/');
  }

  /** Day, month and year as the form shows a day ("dd/MM/yyyy"). */
  function DayText(d: Date): string {
    Pad2(d.day) + "/" + Pad2(d.month) + "/" + NatToString(d.year)
  }

  /** A range end picked and stored as a date string reads back as the same
      day. */
  lemma InitialRangeDateToString(d: Date)
    requires IsCalendarDay(d)
    ensures InitialRangeDate(Some(DateToString(d))) == Some(Day(d))
  {
    var y, m, dd := NatToString(d.year), Pad2(d.month), Pad2(d.day);
    SplitDateToString(d);
    JoinThree(y, m, dd, '/');
    var t := y + "/" + m + "/" + dd;
    NoSeparatorInDigits(y, '/');
    NoSeparatorInDigits(m, '/');
    NoSeparatorInDigits(dd, '/');
    SplitJoin([y, m, dd], '/');
    assert Split(t, '/') == [y, m, dd];
    ParseNatToString(d.year);
    ParsePad2(d.month);
    ParsePad2(d.day);
  }

  /** A date string with a four-digit year is a strict ISO date of the same
      day. */
  lemma ParseIsoDateToString(d: Date)
    requires IsCalendarDay(d) && HasFourDigitYear(d)
    ensures ParseIsoDate(DateToString(d)) == Day(d)
  {
    SplitDateToString(d);
    assert Pow10(3) == 1000 && Pow10(4) == 10000 by {
      assert Pow10(1) == 10 && Pow10(2) == 100;
    }
    NatToStringIsDigits(d.year, 4);
    Pad2IsDigits(d.month);
    Pad2IsDigits(d.day);
    ParseNatToString(d.year);
    ParsePad2(d.month);
    ParsePad2(d.day);
  }

  lemma DashPrefixOrder(x: string, y: string)
    ensures StringLe("-" + x, "-" + y) == StringLe(x, y)
  {
    StringLeAppend("-", x, "-", y);
  }

  /** Date strings with four-digit years compare as text exactly as the days
      compare in time; this is why sorting the strings orders the dates. */
  lemma DateToStringOrder(a: Date, b: Date)
    requires HasFourDigitYear(a) && HasFourDigitYear(b)
    requires a.month < 100 && a.day < 100 && b.month < 100 && b.day < 100
    ensures StringLe(DateToString(a), DateToString(b)) <==> DateLe(a, b)
  {
    assert Pow10(3) == 1000 && Pow10(4) == 10000 by {
      assert Pow10(1) == 10;
    }
    NatToStringIsDigits(a.year, 4);
    NatToStringIsDigits(b.year, 4);
    var ya, yb := Digits(a.year, 4), Digits(b.year, 4);
    var ra, rb := MonthDayText(a.month, a.day), MonthDayText(b.month, b.day);
    DateToStringParts(a);
    DateToStringParts(b);
    StringLeAppend(ya, ra, yb, rb);
    DigitsOrder(a.year, b.year, 4);
    DigitsInjective(a.year, b.year, 4);
    MonthDayOrder(a.month, a.day, b.month, b.day);
  }

  lemma DateToStringParts(d: Date)
    ensures DateToString(d) == NatToString(d.year) + MonthDayText(d.month, d.day)
  {
  }

  /** The "-MM-DD" tail of a date string. */
  function MonthDayText(month: nat, day: nat): string {
    "-" + Pad2(month) + "-" + Pad2(day)
  }

  /** The "-MM-DD" tails compare as text as (month, day) compare. */
  lemma MonthDayOrder(ma: nat, da: nat, mb: nat, db: nat)
    requires ma < 100 && da < 100 && mb < 100 && db < 100
    ensures StringLe(MonthDayText(ma, da), MonthDayText(mb, db)) <==> ma < mb || (ma == mb && da <= db)
  {
    assert Pow10(2) == 100 by {
      assert Pow10(1) == 10;
    }
    Pad2IsDigits(ma);
    Pad2IsDigits(da);
    Pad2IsDigits(mb);
    Pad2IsDigits(db);
    var pa, pb := Digits(ma, 2), Digits(mb, 2);
    var qa, qb := Digits(da, 2), Digits(db, 2);
    assert MonthDayText(ma, da) == ("-" + pa) + ("-" + qa);
    assert MonthDayText(mb, db) == ("-" + pb) + ("-" + qb);
    StringLeAppend("-" + pa, "-" + qa, "-" + pb, "-" + qb);
    DashPrefixOrder(pa, pb);
    DashPrefixOrder(qa, qb);
    assert ("-" + pa == "-" + pb) <==> pa == pb by {
      if "-" + pa == "-" + pb {
        assert pa == ("-" + pa)[1..];
      }
    }
    DigitsOrder(ma, mb, 2);
    DigitsInjective(ma, mb, 2);
    DigitsOrder(da, db, 2);
  }

  // ---------------------------------------------------------------------
  // Single dates

  /** An entry of `listaFechasPuntuales`. */
  datatype FechaPuntual = FechaPuntual(idFecha: Option<int>, fecha: Option<string>)

  predicate TieneFecha(f: FechaPuntual) {
    f.fecha.Some?
  }

  /** `indexDates`: the entries whose date is not null. */
  function IndexDates(lista: seq<FechaPuntual>): (r: seq<FechaPuntual>)
    ensures forall f :: f in r <==> f in lista && f.fecha.Some?
  {
    Filter(lista, TieneFecha)
  }

  /** `indexDates` keeps list order: the entries of a list split in two are
      those of the first part followed by those of the second, and a single
      entry is kept exactly when its date is not null. */
  lemma IndexDatesKeepsOrder(a: seq<FechaPuntual>, b: seq<FechaPuntual>, f: FechaPuntual)
    ensures IndexDates(a + b) == IndexDates(a) + IndexDates(b)
    ensures IndexDates([f]) == if f.fecha.Some? then [f] else []
  {
    FilterAppend(a, b, TieneFecha);
    FilterOne(f, TieneFecha);
  }

  /** Some entry carries the date string `s`. */
  predicate Seleccionada(fechas: seq<FechaPuntual>, s: string) {
    exists f :: f in fechas && f.fecha == Some(s)
  }

  /** The entry a newly picked date becomes. */
  function NuevaFecha(s: string): FechaPuntual {
    FechaPuntual(Some(0), Some(s))
  }

  /** The sort comparison of `selectDateHandler`: two entries that both have
      a non-empty date compare by their dates, any other pair counts as
      equal. */
  predicate FechaLe(a: FechaPuntual, b: FechaPuntual) {
    if a.fecha.Some? && b.fecha.Some? && a.fecha.value != [] && b.fecha.value != [] then
      StringLe(a.fecha.value, b.fecha.value)
    else true
  }

  /** Every entry has a non-empty date. */
  predicate ConFechas(lista: seq<FechaPuntual>) {
    forall i :: 0 <= i < |lista| ==> lista[i].fecha.Some? && lista[i].fecha.value != []
  }

  /** `selectDateHandler` on the list: a date already listed changes nothing;
      a new one is appended and the list is sorted by date. */
  function SelectDate(lista: seq<FechaPuntual>, s: string): seq<FechaPuntual> {
    if Seleccionada(IndexDates(lista), s) then lista
    else Sort(lista + [NuevaFecha(s)], FechaLe)
  }

  /** `eliminarFecha`: drops every entry carrying the date string `s`. */
  function QuitarFecha(lista: seq<FechaPuntual>, s: string): (r: seq<FechaPuntual>)
    ensures !Seleccionada(r, s)
    ensures forall f :: f in r <==> f in lista && f.fecha != Some(s)
  {
    Filter(lista, DistintaDe(s))
  }

  /** The filter of `eliminarFecha`. */
  function DistintaDe(s: string): FechaPuntual -> bool {
    (f: FechaPuntual) => f.fecha != Some(s)
  }

  /** `eliminarFecha` keeps the others in their original order: removing from
      a list split in two removes from each part, and a single entry is kept
      exactly when it carries another date. */
  lemma QuitarFechaKeepsOrder(a: seq<FechaPuntual>, b: seq<FechaPuntual>, f: FechaPuntual, s: string)
    ensures QuitarFecha(a + b, s) == QuitarFecha(a, s) + QuitarFecha(b, s)
    ensures QuitarFecha([f], s) == if f.fecha != Some(s) then [f] else []
  {
    FilterAppend(a, b, DistintaDe(s));
    FilterOne(f, DistintaDe(s));
  }

  /** Looking the date up among `indexDates` is looking it up in the list. */
  lemma SeleccionadaIndexDates(lista: seq<FechaPuntual>, s: string)
    ensures Seleccionada(IndexDates(lista), s) <==> Seleccionada(lista, s)
  {
    if Seleccionada(lista, s) {
      var f :| f in lista && f.fecha == Some(s);
      assert f in IndexDates(lista);
    }
  }

  /** Picking a date: afterwards it is listed; it was either there already
      and nothing changed, or it is added once with id 0 and nothing else
      changes but the order. */
  lemma SelectDateSpec(lista: seq<FechaPuntual>, s: string)
    ensures Seleccionada(SelectDate(lista, s), s)
    ensures Seleccionada(lista, s) ==> SelectDate(lista, s) == lista
    ensures !Seleccionada(lista, s) ==>
              multiset(SelectDate(lista, s)) == multiset(lista) + multiset{NuevaFecha(s)}
              && |SelectDate(lista, s)| == |lista| + 1
  {
    SeleccionadaIndexDates(lista, s);
    if !Seleccionada(lista, s) {
      var r := SelectDate(lista, s);
      assert multiset(r) == multiset(lista + [NuevaFecha(s)]);
      assert NuevaFecha(s) in multiset(r);
      assert NuevaFecha(s) in r;
      assert |multiset(r)| == |lista| + 1;
    }
  }

  /** Picking the same date twice is picking it once. */
  lemma SelectDateIdempotent(lista: seq<FechaPuntual>, s: string)
    ensures SelectDate(SelectDate(lista, s), s) == SelectDate(lista, s)
  {
    SelectDateSpec(lista, s);
    SeleccionadaIndexDates(SelectDate(lista, s), s);
  }

  /** On entries that all have dates the comparison is a total preorder. */
  lemma FechaLeTotalPreorder(lista: seq<FechaPuntual>)
    requires ConFechas(lista)
    ensures TotalPreorderOn(lista, FechaLe)
  {
    forall a, b | a in lista && b in lista
      ensures FechaLe(a, b) || FechaLe(b, a)
    {
      StringLeTotal(a.fecha.value, b.fecha.value);
    }
    forall a, b, c | a in lista && b in lista && c in lista && FechaLe(a, b) && FechaLe(b, c)
      ensures FechaLe(a, c)
    {
      StringLeTransitive(a.fecha.value, b.fecha.value, c.fecha.value);
    }
  }

  /** Picking a non-empty date into a dated list in date order inserts it at
      its place and keeps the list in date order. */
  lemma SelectDateKeepsOrder(lista: seq<FechaPuntual>, s: string)
    requires ConFechas(lista) && SortedBy(lista, FechaLe) && s != []
    ensures ConFechas(SelectDate(lista, s)) && SortedBy(SelectDate(lista, s), FechaLe)
    ensures !Seleccionada(lista, s) ==> SelectDate(lista, s) == Insert(NuevaFecha(s), lista, FechaLe)
  {
    SeleccionadaIndexDates(lista, s);
    if !Seleccionada(lista, s) {
      var n := NuevaFecha(s);
      SortAppendToSorted(lista, n, FechaLe);
      assert ConFechas(lista + [n]);
      FechaLeTotalPreorder(lista + [n]);
      InsertSorted(n, lista, FechaLe);
      var r := Insert(n, lista, FechaLe);
      forall i | 0 <= i < |r|
        ensures r[i].fecha.Some? && r[i].fecha.value != []
      {
        assert r[i] in multiset(lista + [n]);
        assert r[i] in lista + [n];
      }
    }
  }

  /** Removing a date just picked into a date-ordered list that did not have
      it gives the list back. */
  lemma QuitarSelectDate(lista: seq<FechaPuntual>, s: string)
    requires SortedBy(lista, FechaLe) && !Seleccionada(lista, s)
    ensures QuitarFecha(SelectDate(lista, s), s) == lista
  {
    var k := SelectDateSplits(lista, s);
    var a, b := lista[..k], lista[k..];
    assert lista == a + b;
    QuitarAroundNew(a, NuevaFecha(s), b, s);
  }

  /** A date not yet in a date-ordered list is inserted at one position. */
  lemma SelectDateSplits(lista: seq<FechaPuntual>, s: string) returns (k: nat)
    requires SortedBy(lista, FechaLe) && !Seleccionada(lista, s)
    ensures k <= |lista| && SelectDate(lista, s) == lista[..k] + [NuevaFecha(s)] + lista[k..]
  {
    SeleccionadaIndexDates(lista, s);
    SortAppendToSorted(lista, NuevaFecha(s), FechaLe);
    InsertSplits(NuevaFecha(s), lista, FechaLe);
    k :| 0 <= k <= |lista| && Insert(NuevaFecha(s), lista, FechaLe) == lista[..k] + [NuevaFecha(s)] + lista[k..];
  }

  lemma QuitarAroundNew(a: seq<FechaPuntual>, n: FechaPuntual, b: seq<FechaPuntual>, s: string)
    requires !Seleccionada(a, s) && !Seleccionada(b, s) && n.fecha == Some(s)
    ensures QuitarFecha(a + [n] + b, s) == a + b
  {
    forall i | 0 <= i < |a|
      ensures DistintaDe(s)(a[i])
    {
      assert a[i] in a;
    }
    forall i | 0 <= i < |b|
      ensures DistintaDe(s)(b[i])
    {
      assert b[i] in b;
    }
    FilterDropsOne(a, n, b, DistintaDe(s));
  }

  /** On date strings with four-digit years the comparison is the
      chronological order of the days. */
  lemma FechaLeIsDayOrder(a: Date, b: Date)
    requires IsCalendarDay(a) && IsCalendarDay(b) && HasFourDigitYear(a) && HasFourDigitYear(b)
    ensures FechaLe(NuevaFecha(DateToString(a)), NuevaFecha(DateToString(b))) <==> DateLe(a, b)
  {
    DateToStringOrder(a, b);
  }

  // ---------------------------------------------------------------------
  // Highlighted days and the range check

  predicate ConFechaNoVacia(f: FechaPuntual) {
    f.fecha.Some? && f.fecha.value != []
  }

  /** `highlightSelectedDates`: one date value for each entry with a
      non-empty date, in list order. */
  function Highlights(fechas: seq<FechaPuntual>): (r: seq<DateValue>)
    ensures |r| <= |fechas|
  {
    var conFecha := Filter(fechas, ConFechaNoVacia);
    seq(|conFecha|, i requires 0 <= i < |conFecha| => ParseIsoDate(conFecha[i].fecha.value))
  }

  /** Entries written by the date picker are highlighted on their own days. */
  lemma HighlightsOfPickedDays(fechas: seq<FechaPuntual>, days: seq<Date>)
    requires |days| == |fechas|
    requires forall i :: 0 <= i < |days| ==> IsCalendarDay(days[i]) && HasFourDigitYear(days[i])
    requires forall i :: 0 <= i < |fechas| ==> fechas[i].fecha == Some(DateToString(days[i]))
    ensures Highlights(fechas) == seq(|days|, i requires 0 <= i < |days| => Day(days[i]))
  {
    FilterAll(fechas, ConFechaNoVacia);
    forall i | 0 <= i < |days|
      ensures ParseIsoDate(fechas[i].fecha.value) == Day(days[i])
    {
      ParseIsoDateToString(days[i]);
    }
  }

  const ERROR_RANGO := "La fecha de inicio no puede ser mayor a la fecha de fin"

  /** `validarRango`: an error only when both ends are days and the start is
      after the end (comparisons with a missing or invalid date are false). */
  function RangeError(start: Option<DateValue>, end: Option<DateValue>): (e: string)
    ensures e == [] || e == ERROR_RANGO
    ensures e != [] <==>
      start.Some? && end.Some? && start.value.Day? && end.value.Day? && DateLt(end.value.date, start.value.date)
  {
    if start.Some? && end.Some? && start.value.Day? && end.value.Day?
       && DateLt(end.value.date, start.value.date)
    then ERROR_RANGO
    else ""
  }

  const SIN_RANGO := "Seleccione un rango de fechas"

  /** The line under the range pickers. */
  function RangeSummary(
    erroresRango: string, start: Option<DateValue>, end: Option<DateValue>,
    fechaDesde: Option<string>, fechaHasta: Option<string>): string
  {
    if erroresRango != [] then erroresRango
    else if start.Some? && end.Some? then
      PREFIJO_RANGO + PrintDMA(fechaDesde.GetOr("")) + SEPARADOR_RANGO
      + PrintDMA(fechaHasta.GetOr(""))
    else SIN_RANGO
  }

  const PREFIJO_RANGO := "El rango seleccionado es desde "
  const SEPARADOR_RANGO := " hasta "

  /** After picking both ends the summary names them day first, or reports
      the error exactly when the start is after the end. */
  lemma RangeSummaryOfPickedDays(a: Date, b: Date)
    ensures DateLt(b, a) ==>
              RangeSummary(RangeError(Some(Day(a)), Some(Day(b))), Some(Day(a)), Some(Day(b)),
                           Some(DateToString(a)), Some(DateToString(b))) == ERROR_RANGO
    ensures !DateLt(b, a) ==>
              RangeSummary(RangeError(Some(Day(a)), Some(Day(b))), Some(Day(a)), Some(Day(b)),
                           Some(DateToString(a)), Some(DateToString(b)))
              == PREFIJO_RANGO + DayText(a) + SEPARADOR_RANGO + DayText(b)
  {
    if !DateLt(b, a) {
      PrintDMADateToString(a);
      PrintDMADateToString(b);
      RangeSummaryShown(Some(Day(a)), Some(Day(b)), DateToString(a), DateToString(b));
    }
  }

  /** The single-date picker is off exactly while the line under the range
      pickers still asks for a range: once both ends are set, that line is
      the error or the range itself. */
  lemma PickerOffWhileNoRange(start: Option<DateValue>, end: Option<DateValue>, desde: Option<string>, hasta: Option<string>)
    ensures (start.None? || end.None?) <==>
      RangeSummary(RangeError(start, end), start, end, desde, hasta) == SIN_RANGO
  {
    if start.Some? && end.Some? {
      var e := RangeError(start, end);
      if e != [] {
        assert e == ERROR_RANGO && |ERROR_RANGO| != |SIN_RANGO|;
      } else {
        assert |RangeSummary(e, start, end, desde, hasta)| >= |PREFIJO_RANGO| > |SIN_RANGO|;
      }
    }
  }

  lemma RangeSummaryShown(start: Option<DateValue>, end: Option<DateValue>, desde: string, hasta: string)
    requires start.Some? && end.Some? && RangeError(start, end) == []
    ensures RangeSummary(RangeError(start, end), start, end, Some(desde), Some(hasta))
            == PREFIJO_RANGO + PrintDMA(desde) + SEPARADOR_RANGO + PrintDMA(hasta)
  {
  }

  // ---------------------------------------------------------------------
  // The form's state

  class PeriodoForm {
    var fechaDesde: Option<string>
    var fechaHasta: Option<string>
    var erroresRango: string
    var listaFechasPuntuales: seq<FechaPuntual>
    var rangeStart: Option<DateValue>
    var rangeEnd: Option<DateValue>
    var indexDates: seq<FechaPuntual>

    /** The derived state agrees with what it is derived from: the range ends
        with the stored strings, `indexDates` with the list (its effect) and
        the error with the range (the `validarRango` effect). */
    ghost predicate Valid()
      reads this
    {
      rangeStart == InitialRangeDate(fechaDesde)
      && rangeEnd == InitialRangeDate(fechaHasta)
      && indexDates == IndexDates(listaFechasPuntuales)
      && erroresRango == RangeError(rangeStart, rangeEnd)
    }

    /** The form opened on the stored activity's dates. */
    constructor(desde: Option<string>, hasta: Option<string>, lista: Option<seq<FechaPuntual>>)
      ensures Valid()
      ensures fechaDesde == desde && fechaHasta == hasta
      ensures listaFechasPuntuales == lista.GetOr([])
      ensures rangeStart == InitialRangeDate(desde) && rangeEnd == InitialRangeDate(hasta)
    {
      fechaDesde := desde;
      fechaHasta := hasta;
      listaFechasPuntuales := lista.GetOr([]);
      rangeStart := InitialRangeDate(desde);
      rangeEnd := InitialRangeDate(hasta);
      indexDates := IndexDates(lista.GetOr([]));
      erroresRango := RangeError(InitialRangeDate(desde), InitialRangeDate(hasta));
    }

    /** The effect that recomputes the range error. */
    method ValidarRango() returns (ok: bool)
      modifies this
      ensures erroresRango == RangeError(rangeStart, rangeEnd)
      ensures ok <==> erroresRango == []
      ensures fechaDesde == old(fechaDesde) && fechaHasta == old(fechaHasta)
      ensures rangeStart == old(rangeStart) && rangeEnd == old(rangeEnd)
      ensures listaFechasPuntuales == old(listaFechasPuntuales) && indexDates == old(indexDates)
    {
      if rangeStart.Some? && rangeEnd.Some? && rangeStart.value.Day? && rangeEnd.value.Day?
         && DateLt(rangeEnd.value.date, rangeStart.value.date)
      {
        erroresRango := ERROR_RANGO;
        return false;
      }
      erroresRango := "";
      return true;
    }

    /** `selectStartDate`, followed by the range check. */
    method SelectStartDate(d: Date)
      requires Valid() && IsCalendarDay(d)
      modifies this
      ensures Valid()
      ensures rangeStart == Some(Day(d)) && fechaDesde == Some(DateToString(d))
      ensures rangeEnd == old(rangeEnd) && fechaHasta == old(fechaHasta)
      ensures erroresRango == RangeError(Some(Day(d)), rangeEnd)
      ensures listaFechasPuntuales == old(listaFechasPuntuales)
    {
      rangeStart := Some(Day(d));
      fechaDesde := Some(DateToString(d));
      InitialRangeDateToString(d);
      var _ := ValidarRango();
    }

    /** `selectEndDate`, followed by the range check. */
    method SelectEndDate(d: Date)
      requires Valid() && IsCalendarDay(d)
      modifies this
      ensures Valid()
      ensures rangeEnd == Some(Day(d)) && fechaHasta == Some(DateToString(d))
      ensures rangeStart == old(rangeStart) && fechaDesde == old(fechaDesde)
      ensures erroresRango == RangeError(rangeStart, Some(Day(d)))
      ensures listaFechasPuntuales == old(listaFechasPuntuales)
    {
      rangeEnd := Some(Day(d));
      fechaHasta := Some(DateToString(d));
      InitialRangeDateToString(d);
      var _ := ValidarRango();
    }

    /** The effect that recomputes `indexDates` from the list. */
    method SyncIndexDates()
      modifies this
      ensures indexDates == IndexDates(listaFechasPuntuales)
      ensures listaFechasPuntuales == old(listaFechasPuntuales)
      ensures fechaDesde == old(fechaDesde) && fechaHasta == old(fechaHasta)
      ensures rangeStart == old(rangeStart) && rangeEnd == old(rangeEnd)
      ensures erroresRango == old(erroresRango)
    {
      indexDates := IndexDates(listaFechasPuntuales);
    }

    /** `selectDateHandler`, followed by the `indexDates` effect; picking a
        day never switches the picker on or off. */
    method SelectDateHandler(d: Date)
      requires Valid()
      modifies this
      ensures Valid()
      ensures listaFechasPuntuales == SelectDate(old(listaFechasPuntuales), DateToString(d))
      ensures fechaDesde == old(fechaDesde) && fechaHasta == old(fechaHasta)
      ensures rangeStart == old(rangeStart) && rangeEnd == old(rangeEnd)
      ensures PickerDisabled() == old(PickerDisabled())
    {
      var dateString := DateToString(d);
      if !Seleccionada(indexDates, dateString) {
        listaFechasPuntuales := Sort(listaFechasPuntuales + [NuevaFecha(dateString)], FechaLe);
      }
      SyncIndexDates();
    }

    /** `eliminarFecha`, followed by the `indexDates` effect. */
    method EliminarFecha(date: string)
      requires Valid()
      modifies this
      ensures Valid()
      ensures listaFechasPuntuales == QuitarFecha(old(listaFechasPuntuales), date)
      ensures fechaDesde == old(fechaDesde) && fechaHasta == old(fechaHasta)
      ensures rangeStart == old(rangeStart) && rangeEnd == old(rangeEnd)
    {
      listaFechasPuntuales := QuitarFecha(listaFechasPuntuales, date);
      SyncIndexDates();
    }

    /** `highlightSelectedDates`: walks `indexDates` and collects the day of
        every entry with a non-empty date. */
    method HighlightSelectedDates() returns (highlightDates: seq<DateValue>)
      ensures highlightDates == Highlights(indexDates)
    {
      highlightDates := [];
      var i := 0;
      while i < |indexDates|
        invariant 0 <= i <= |indexDates|
        invariant highlightDates == Highlights(indexDates[..i])
      {
        var date := indexDates[i];
        FilterAppend(indexDates[..i], [date], ConFechaNoVacia);
        assert indexDates[..i + 1] == indexDates[..i] + [date];
        if date.fecha.Some? && date.fecha.value != [] {
          highlightDates := highlightDates + [ParseIsoDate(date.fecha.value)];
        }
        i := i + 1;
      }
      assert indexDates[..i] == indexDates;
    }

    /** The single-date picker is off until both range ends are set, that
        is, exactly while the range line asks for a range. */
    predicate PickerDisabled()
      reads this
      requires Valid()
      ensures PickerDisabled() <==>
        RangeSummary(erroresRango, rangeStart, rangeEnd, fechaDesde, fechaHasta) == SIN_RANGO
    {
      PickerOffWhileNoRange(rangeStart, rangeEnd, fechaDesde, fechaHasta);
      rangeStart.None? || rangeEnd.None?
    }
  }
}
