/** The cleaned survey table and the analysis views cut from it, as values:
    the specification that the dataframe steps of the script are proved
    against. */
module Records {
  import opened Wrappers
  import opened Normalize

  /** The survey headers the script reads, written out as it has them. */
  const ColPathway: string := "Are you from JC or Poly?"
  const ColDaily: string := "On Average, how many hours do you study per day outside of school (number only)"
  const ColStress: string := "On a scale of 1-10, how stressed are you?"
  const ColReason: string := "Why did you choose that stress level?"

  /** The raw survey export: its number of rows and one column of cells per
      header. */
  datatype RawTable = RawTable(rowCount: nat, columns: map<string, seq<Cell>>)

  /** Every column has one cell per row, as in any dataframe. */
  predicate Rectangular(t: RawTable) {
    forall h :: h in t.columns ==> |t.columns[h]| == t.rowCount
  }

  /** One row of the report-ready table. */
  datatype CleanRow = CleanRow(
    respondentId: int,
    pathway: Option<Pathway>,
    dailyNormal: Option<real>,
    weeklyNormal: Option<real>,
    stressLevel: Option<real>,
    stressReason: string,
    veryHighDaily: bool)

  /** Reading a header the export lacks (pandas raises KeyError). */
  datatype CleanError = MissingColumn(header: string)

  /** Seven times the daily figure; a missing value stays missing. */
  function Weekly(daily: Option<real>): Option<real> {
    match daily
    case None => None
    case Some(d) => Some(7.0 * d)
  }

  /** Whether the daily figure exceeds 8; false for a missing value. */
  function VeryHigh(daily: Option<real>): bool {
    daily.Some? && daily.value > 8.0
  }

  /** A text cell converted to a string: a missing value becomes "nan". */
  function AsText(x: Cell): string {
    match x
    case None => "nan"
    case Some(v) => v
  }

  /** How the derived columns of a row relate to each other: weekly hours
      are 7 times daily hours and missing together with them, the flag is
      set exactly for a daily figure above 8, and no figure is negative. */
  ghost predicate Derived(r: CleanRow) {
    && (r.weeklyNormal.Some? <==> r.dailyNormal.Some?)
    && (r.dailyNormal.Some? ==> r.weeklyNormal.value == 7.0 * r.dailyNormal.value)
    && (r.veryHighDaily <==> r.dailyNormal.Some? && r.dailyNormal.value > 8.0)
    && (r.dailyNormal.Some? ==> r.dailyNormal.value >= 0.0)
    && (r.stressLevel.Some? ==> r.stressLevel.value >= 0.0)
  }

  /** The derived row for the raw row at 1-based position id. */
  function CleanRowOf(id: int, pathway: Cell, daily: Cell, stress: Cell, reason: Cell): (r: CleanRow)
    ensures r.respondentId == id
    ensures Derived(r)
  {
    var d := ParseNum(daily);
    CleanRow(id, NormalizePathway(pathway), d, Weekly(d), ParseNum(stress), AsText(reason), VeryHigh(d))
  }

  /** The first of the four headers, in the order the script reads them,
      that the export lacks. */
  function FirstMissing(t: RawTable): (m: Option<string>)
    ensures m.Some? ==> m.value in {ColPathway, ColDaily, ColStress, ColReason} && m.value !in t.columns
    ensures m.None? <==> {ColPathway, ColDaily, ColStress, ColReason} <= t.columns.Keys
    ensures m == Some(ColDaily) ==> ColPathway in t.columns
    ensures m == Some(ColStress) ==> ColPathway in t.columns && ColDaily in t.columns
    ensures m == Some(ColReason) ==> ColPathway in t.columns && ColDaily in t.columns && ColStress in t.columns
  {
    if ColPathway !in t.columns then Some(ColPathway)
    else if ColDaily !in t.columns then Some(ColDaily)
    else if ColStress !in t.columns then Some(ColStress)
    else if ColReason !in t.columns then Some(ColReason)
    else None
  }

  /** The whole report-ready table: one derived row per raw row, numbered from 1
      in row order, or the error for the first missing header. */
  function CleanTable(t: RawTable): (r: Result<seq<CleanRow>, CleanError>)
    requires Rectangular(t)
    ensures r.Failure? <==> FirstMissing(t).Some?
    ensures r.Failure? ==> r.error == MissingColumn(FirstMissing(t).value)
    ensures r.Success? ==> |r.value| == t.rowCount
    ensures r.Success? ==> forall i :: 0 <= i < |r.value| ==> r.value[i].respondentId == i + 1
    ensures r.Success? ==> forall i :: 0 <= i < |r.value| ==> Derived(r.value[i])
  {
    match FirstMissing(t)
    case Some(h) => Failure(MissingColumn(h))
    case None =>
      var c := t.columns;
      Success(seq(t.rowCount, i requires 0 <= i < t.rowCount =>
        CleanRowOf(i + 1, c[ColPathway][i], c[ColDaily][i], c[ColStress][i], c[ColReason][i])))
  }

  // ---------------------------------------------------------------------
  // Boolean masks and the rows they select
  // ---------------------------------------------------------------------

  /** The analysis mask: a JC or Poly pathway and a daily figure. */
  predicate Usable(r: CleanRow) {
    (r.pathway == Some(JC) || r.pathway == Some(Poly)) && r.dailyNormal.Some?
  }

  /** The Poly group mask. */
  predicate IsPoly(r: CleanRow) {
    r.pathway == Some(Poly)
  }

  /** The JC group mask. */
  predicate IsJC(r: CleanRow) {
    r.pathway == Some(JC)
  }

  /** The pathway is one of JC and Poly. */
  predicate InEitherGroup(r: CleanRow) {
    r.pathway == Some(JC) || r.pathway == Some(Poly)
  }

  /** Selecting rows with a boolean mask: the rows the mask keeps, in
      their original order. */
  function Filter(rows: seq<CleanRow>, keep: CleanRow -> bool): (r: seq<CleanRow>)
    ensures |r| <= |rows|
    ensures forall x :: x in r <==> x in rows && keep(x)
  {
    if rows == [] then []
    else if keep(rows[0]) then [rows[0]] + Filter(rows[1..], keep)
    else Filter(rows[1..], keep)
  }

  /** a is b with some elements left out: the order of what is kept is
      that of b. */
  ghost predicate IsSubsequence(a: seq<CleanRow>, b: seq<CleanRow>)
    decreases |b|
  {
    || a == []
    || (b != [] && ((a[0] == b[0] && IsSubsequence(a[1..], b[1..])) || IsSubsequence(a, b[1..])))
  }

  lemma {:induction false} FilterIsSubsequence(rows: seq<CleanRow>, keep: CleanRow -> bool)
    ensures IsSubsequence(Filter(rows, keep), rows)
    decreases |rows|
  {
    if rows != [] {
      FilterIsSubsequence(rows[1..], keep);
      var r := Filter(rows, keep);
      if keep(rows[0]) {
        assert r[0] == rows[0] && r[1..] == Filter(rows[1..], keep);
      }
    }
  }

  /** A mask that keeps every row keeps the table as it is. */
  lemma {:induction false} FilterKeepsAll(rows: seq<CleanRow>, keep: CleanRow -> bool)
    requires forall x :: x in rows ==> keep(x)
    ensures Filter(rows, keep) == rows
    decreases |rows|
  {
    if rows != [] {
      assert rows[0] in rows;
      assert forall x :: x in rows[1..] ==> x in rows;
      FilterKeepsAll(rows[1..], keep);
      assert [rows[0]] + rows[1..] == rows;
    }
  }

  /** Two masks that disagree on every row split the table: the rows they
      keep number as many as the table has. */
  lemma {:induction false} FilterSplitsCount(rows: seq<CleanRow>, f: CleanRow -> bool, g: CleanRow -> bool)
    requires forall x :: x in rows ==> f(x) != g(x)
    ensures |Filter(rows, f)| + |Filter(rows, g)| == |rows|
    decreases |rows|
  {
    if rows != [] {
      assert rows[0] in rows;
      assert forall x :: x in rows[1..] ==> x in rows;
      FilterSplitsCount(rows[1..], f, g);
    }
  }

  /** Respondent ids increase down the table. */
  ghost predicate IdsIncrease(rows: seq<CleanRow>) {
    forall i, j :: 0 <= i < j < |rows| ==> rows[i].respondentId < rows[j].respondentId
  }

  /** Filtering keeps the rows in respondent order. */
  lemma {:induction false} FilterKeepsIdOrder(rows: seq<CleanRow>, keep: CleanRow -> bool)
    requires IdsIncrease(rows)
    ensures IdsIncrease(Filter(rows, keep))
    decreases |rows|
  {
    if rows != [] {
      assert IdsIncrease(rows[1..]);
      FilterKeepsIdOrder(rows[1..], keep);
      var tail := Filter(rows[1..], keep);
      if keep(rows[0]) {
        forall j | 0 <= j < |tail| ensures rows[0].respondentId < tail[j].respondentId {
          assert tail[j] in rows[1..];
        }
      }
    }
  }

  // ---------------------------------------------------------------------
  // The views the script writes out
  // ---------------------------------------------------------------------

  /** The report-ready table with the analysis set, the Poly and JC
      groups and the two-sample view cut from it. */
  datatype Views = Views(
    clean: seq<CleanRow>,
    analysis: seq<CleanRow>,
    poly: seq<CleanRow>,
    jc: seq<CleanRow>,
    twoSample: seq<CleanRow>)

  /** The analysis set, the Poly and JC groups and the two-sample view,
      each cut with its mask. */
  function ViewsOf(clean: seq<CleanRow>): Views {
    var analysis := Filter(clean, Usable);
    Views(clean, analysis, Filter(analysis, IsPoly), Filter(analysis, IsJC), Filter(analysis, InEitherGroup))
  }

  /** The cleaning step followed by the analysis filter and the group split. */
  function Pipeline(t: RawTable): (r: Result<Views, CleanError>)
    requires Rectangular(t)
    ensures r.Failure? <==> !({ColPathway, ColDaily, ColStress, ColReason} <= t.columns.Keys)
    ensures r.Failure? ==> r.error == MissingColumn(FirstMissing(t).value)
  {
    match CleanTable(t)
    case Failure(e) => Failure(e)
    case Success(clean) => Success(ViewsOf(clean))
  }

  /** The analysis set is exactly the usable rows, in table order. */
  lemma AnalysisIsUsableRows(clean: seq<CleanRow>)
    ensures forall x :: x in ViewsOf(clean).analysis <==> x in clean && Usable(x)
    ensures IsSubsequence(ViewsOf(clean).analysis, clean)
    ensures IdsIncrease(clean) ==> IdsIncrease(ViewsOf(clean).analysis)
  {
    FilterIsSubsequence(clean, Usable);
    if IdsIncrease(clean) {
      FilterKeepsIdOrder(clean, Usable);
    }
  }

  /** The Poly and JC views split the analysis set: no row is in both,
      every row is in one, each keeps the analysis order, and the two-sample
      view is the analysis set itself. */
  lemma GroupsSplitAnalysis(clean: seq<CleanRow>)
    ensures var v := ViewsOf(clean);
      && (forall x :: x in v.poly <==> x in v.analysis && x.pathway == Some(Poly))
      && (forall x :: x in v.jc <==> x in v.analysis && x.pathway == Some(JC))
      && (forall x :: !(x in v.poly && x in v.jc))
      && (forall x :: x in v.analysis <==> x in v.poly || x in v.jc)
      && |v.poly| + |v.jc| == |v.analysis|
      && IsSubsequence(v.poly, v.analysis) && IsSubsequence(v.jc, v.analysis)
      && (IdsIncrease(clean) ==> IdsIncrease(v.poly) && IdsIncrease(v.jc))
      && v.twoSample == v.analysis
  {
    var v := ViewsOf(clean);
    AnalysisIsUsableRows(clean);
    FilterSplitsCount(v.analysis, IsPoly, IsJC);
    FilterIsSubsequence(v.analysis, IsPoly);
    FilterIsSubsequence(v.analysis, IsJC);
    if IdsIncrease(clean) {
      FilterKeepsIdOrder(v.analysis, IsPoly);
      FilterKeepsIdOrder(v.analysis, IsJC);
    }
    FilterKeepsAll(v.analysis, InEitherGroup);
  }

  /** Rows numbered 1, 2, ... in table order have increasing ids. */
  lemma NumberedRowsIncrease(rows: seq<CleanRow>)
    requires forall i :: 0 <= i < |rows| ==> rows[i].respondentId == i + 1
    ensures IdsIncrease(rows)
  {
  }

  /** The views of a successful run: ids 1..n on the cleaned rows, the
      analysis set as exactly its usable rows in order, and the group
      split of GroupsSplitAnalysis. */
  lemma PipelineViews(t: RawTable)
    requires Rectangular(t) && Pipeline(t).Success?
    ensures var v := Pipeline(t).value;
      && |v.clean| == t.rowCount
      && (forall i :: 0 <= i < |v.clean| ==> v.clean[i].respondentId == i + 1)
      && (forall x :: x in v.analysis <==> x in v.clean && Usable(x))
      && IsSubsequence(v.analysis, v.clean) && IdsIncrease(v.analysis)
      && (forall x :: x in v.poly <==> x in v.analysis && IsPoly(x))
      && (forall x :: x in v.jc <==> x in v.analysis && IsJC(x))
      && IsSubsequence(v.poly, v.analysis) && IsSubsequence(v.jc, v.analysis)
      && (forall x :: !(x in v.poly && x in v.jc))
      && (forall x :: x in v.analysis <==> x in v.poly || x in v.jc)
      && |v.poly| + |v.jc| == |v.analysis|
      && v.twoSample == v.analysis
  {
    var clean := CleanTable(t).value;
    NumberedRowsIncrease(clean);
    AnalysisIsUsableRows(clean);
    GroupsSplitAnalysis(clean);
  }

  /** Very high daily figures are only flagged: such a row with a JC or
      Poly pathway is in the analysis set. */
  lemma VeryHighDailyKept(t: RawTable)
    requires Rectangular(t) && Pipeline(t).Success?
    ensures var v := Pipeline(t).value;
      forall x :: x in v.clean && x.veryHighDaily && InEitherGroup(x) ==> x in v.analysis
  {
    var v := Pipeline(t).value;
    forall x | x in v.clean && x.veryHighDaily && InEitherGroup(x) ensures x in v.analysis {
      var i :| 0 <= i < |v.clean| && v.clean[i] == x;
      assert Derived(v.clean[i]);
    }
  }
}
