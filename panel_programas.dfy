// The programs panel: the years a user can choose (from the current year
// back to 2023), the programs of the chosen year, the areas of the program
// clicked, and the record and route of the area opened.

module PanelProgramas {
  import opened Common

  /** The first year with data. */
  const PRIMER_ANIO := 2023

  /** An area of a program, with the ids of its activities. */
  datatype AreaProps = AreaProps(idArea: int, nom: string, listaActividades: seq<int>)

  /** A program of the chosen year and its areas. */
  datatype Programa = Programa(idPrograma: int, nom: string, listaAreas: seq<AreaProps>)

  /** The area record kept in local storage when an area is opened. */
  datatype AreaGuardada = AreaGuardada(idArea: int, nom: string, idPrograma: int, anio: int)

  // ---------------------------------------------------------------------
  // Years

  /** `yearsArray`: `currentYear - 2022` entries (none when that is not
      positive), counting down from the current year. They are exactly the
      years from 2023 to the current year, newest first, one apart. */
  function YearsArray(currentYear: int): (r: seq<int>)
    ensures |r| == if currentYear > PRIMER_ANIO - 1 then currentYear - (PRIMER_ANIO - 1) else 0
    ensures r != [] ==> r[0] == currentYear && r[|r| - 1] == PRIMER_ANIO
    ensures forall i :: 0 <= i < |r| - 1 ==> r[i + 1] == r[i] - 1
  {
    var n := if currentYear > PRIMER_ANIO - 1 then currentYear - (PRIMER_ANIO - 1) else 0;
    seq(n, i requires 0 <= i < n => currentYear - i)
  }

  /** The years offered are exactly those from 2023 to the current year. */
  lemma YearsArrayCovers(currentYear: int, y: int)
    ensures y in YearsArray(currentYear) <==> PRIMER_ANIO <= y <= currentYear
  {
    var r := YearsArray(currentYear);
    if PRIMER_ANIO <= y <= currentYear {
      assert r[currentYear - y] == y;
    }
  }

  // ---------------------------------------------------------------------
  // The route of an area

  /** The fixed start of the route of an area's goals page. */
  const RUTA_METAS := "/gestion/metas/"

  /** The route `/gestion/metas/{idPrograma}/{idArea}`. */
  function AreaPath(idPrograma: int, idArea: int): string {
    RUTA_METAS + (IntToString(idPrograma) + "/" + IntToString(idArea))
  }

  lemma NoSlashInNumber(n: int)
    ensures '/' !in IntToString(n)
  {
    var s := NatToString(if n < 0 then -n else n);
    assert forall i :: 0 <= i < |s| ==> IsDigit(s[i]);
  }

  /** A signed numeral names one integer. */
  lemma IntToStringInjective(a: int, b: int)
    ensures IntToString(a) == IntToString(b) <==> a == b
  {
    if a < 0 && b < 0 {
      if IntToString(a) == IntToString(b) {
        assert NatToString(-a) == IntToString(a)[1..];
        assert NatToString(-b) == IntToString(b)[1..];
        NatToStringInjective(-a, -b);
      }
    } else if a >= 0 && b >= 0 {
      NatToStringInjective(a, b);
    } else if a < 0 {
      assert IntToString(a)[0] == '-' && IsDigit(IntToString(b)[0]);
    } else {
      assert IntToString(b)[0] == '-' && IsDigit(IntToString(a)[0]);
    }
  }

  /** Two slash-free words around a slash are read back from the text. */
  lemma SlashPairInjective(x1: string, y1: string, x2: string, y2: string)
    requires '/' !in x1 && '/' !in x2
    ensures x1 + "/" + y1 == x2 + "/" + y2 <==> x1 == x2 && y1 == y2
  {
    var s1, s2 := x1 + "/" + y1, x2 + "/" + y2;
    if |x1| < |x2| {
      assert s2[|x1|] == x2[|x1|] && s2[|x1|] in x2;
      assert s1[|x1|] != s2[|x1|];
    } else if |x2| < |x1| {
      assert s1[|x2|] == x1[|x2|] && s1[|x2|] in x1;
      assert s1[|x2|] != s2[|x2|];
    } else if s1 == s2 {
      assert x1 == s1[..|x1|] && x2 == s2[..|x2|];
      assert y1 == s1[|x1| + 1..] && y2 == s2[|x2| + 1..];
    }
  }

  /** Distinct (program, area) pairs get distinct routes, so the route names
      the program and the area. */
  lemma AreaPathInjective(p1: int, a1: int, p2: int, a2: int)
    ensures AreaPath(p1, a1) == AreaPath(p2, a2) <==> p1 == p2 && a1 == a2
  {
    var x1, y1 := IntToString(p1), IntToString(a1);
    var x2, y2 := IntToString(p2), IntToString(a2);
    if AreaPath(p1, a1) == AreaPath(p2, a2) {
      assert AreaPath(p1, a1)[|RUTA_METAS|..] == x1 + "/" + y1;
      assert AreaPath(p2, a2)[|RUTA_METAS|..] == x2 + "/" + y2;
      NoSlashInNumber(p1);
      NoSlashInNumber(p2);
      SlashPairInjective(x1, y1, x2, y2);
      IntToStringInjective(p1, p2);
      IntToStringInjective(a1, a2);
    }
  }

  // ---------------------------------------------------------------------
  // State

  class ProgramsPanel {
    const currentYear: int
    const programasTransformados: seq<Programa>
    var year: int
    var indexActivity: seq<AreaProps>
    var indexPrograma: Option<int>

    /** The areas listed are those of the program last clicked, whose id is
        kept. */
    ghost predicate Valid()
      reads this
    {
      indexActivity != [] ==>
        indexPrograma.Some?
        && exists i :: 0 <= i < |programasTransformados|
             && programasTransformados[i].listaAreas == indexActivity
             && programasTransformados[i].idPrograma == indexPrograma.value
    }

    /** The panel on the current year with the programs the server returned
        for it; no program chosen. */
    constructor(currentYear: int, programas: seq<Programa>)
      ensures Valid()
      ensures this.currentYear == currentYear && programasTransformados == programas
      ensures year == currentYear && indexActivity == [] && indexPrograma.None?
    {
      this.currentYear := currentYear;
      programasTransformados := programas;
      year := currentYear;
      indexActivity := [];
      indexPrograma := None;
    }

    /** `handleYearChange`: the listed areas are emptied and the year set. */
    method HandleYearChange(selectedYear: int)
      requires Valid()
      modifies this
      ensures Valid()
      ensures year == selectedYear && indexActivity == []
      ensures indexPrograma == old(indexPrograma)
    {
      indexActivity := [];
      year := selectedYear;
    }

    /** A click on the program at `index`: its areas are listed and its id
        kept. */
    method SelectPrograma(index: nat)
      requires Valid() && index < |programasTransformados|
      modifies this
      ensures Valid()
      ensures indexActivity == programasTransformados[index].listaAreas
      ensures indexPrograma == Some(programasTransformados[index].idPrograma)
      ensures year == old(year)
    {
      var item := programasTransformados[index];
      indexActivity := item.listaAreas;
      indexPrograma := Some(item.idPrograma);
    }

    /** `openArea` on the listed area at `index`: the record stored (id and
        name of the area, the program and the year, without the activity
        list) and the route navigated to. The area belongs to a program
        of the panel's list, and the route names that program and the area. */
    method OpenArea(index: nat) returns (stored: AreaGuardada, path: string)
      requires Valid() && index < |indexActivity|
      ensures stored.idArea == indexActivity[index].idArea && stored.nom == indexActivity[index].nom
      ensures stored.anio == year && Some(stored.idPrograma) == indexPrograma
      ensures exists i :: 0 <= i < |programasTransformados|
                && programasTransformados[i].idPrograma == stored.idPrograma
                && indexActivity[index] in programasTransformados[i].listaAreas
      ensures path == AreaPath(stored.idPrograma, stored.idArea)
    {
      var area := indexActivity[index];
      stored := AreaGuardada(area.idArea, area.nom, indexPrograma.value, year);
      path := AreaPath(stored.idPrograma, stored.idArea);
    }
  }
}
