/** The cleaning script as it runs: the working dataframe `df` starts as a
    copy of the raw export and gains its derived columns one assignment at
    a time; the report-ready table and its filtered copies are then cut
    from it. */
module Pipeline {
  import opened Wrappers
  import opened Normalize
  import opened Records

  /** The working dataframe `df`: the raw columns it was copied from and the
      derived columns added to it so far (empty until added). */
  class SurveyFrame {
    const rowCount: nat
    const source: map<string, seq<Cell>>
    var respondentId: seq<int>
    var pathway: seq<Option<Pathway>>
    var dailyNormal: seq<Option<real>>
    var weeklyNormal: seq<Option<real>>
    var stressLevel: seq<Option<real>>
    var stressReason: seq<string>
    var veryHighDaily: seq<bool>

    /** Every raw column has one cell per row. */
    ghost predicate Valid()
      reads this
    {
      forall h :: h in source ==> |source[h]| == rowCount
    }

    /** Every derived column has been added. */
    ghost predicate Complete()
      reads this
    {
      && |respondentId| == rowCount && |pathway| == rowCount
      && |dailyNormal| == rowCount && |weeklyNormal| == rowCount
      && |stressLevel| == rowCount && |stressReason| == rowCount
      && |veryHighDaily| == rowCount
    }

    /** Every derived column holds what the script assigns to it, computed
        from the raw columns. */
    ghost predicate Built()
      reads this
    {
      && Valid() && Complete() && {ColPathway, ColDaily, ColStress, ColReason} <= source.Keys
      && (forall i :: 0 <= i < rowCount ==> respondentId[i] == i + 1)
      && (forall i :: 0 <= i < rowCount ==> pathway[i] == NormalizePathway(source[ColPathway][i]))
      && (forall i :: 0 <= i < rowCount ==> dailyNormal[i] == ParseNum(source[ColDaily][i]))
      && (forall i :: 0 <= i < rowCount ==> weeklyNormal[i] == Weekly(dailyNormal[i]))
      && (forall i :: 0 <= i < rowCount ==> stressLevel[i] == ParseNum(source[ColStress][i]))
      && (forall i :: 0 <= i < rowCount ==> stressReason[i] == AsText(source[ColReason][i]))
      && (forall i :: 0 <= i < rowCount ==> veryHighDaily[i] == VeryHigh(dailyNormal[i]))
    }

    /** Takes a copy of the raw table; no derived column exists yet. */
    constructor (raw: RawTable)
      requires Rectangular(raw)
      ensures Valid()
      ensures rowCount == raw.rowCount && source == raw.columns
      ensures respondentId == [] && pathway == [] && dailyNormal == [] && weeklyNormal == []
      ensures stressLevel == [] && stressReason == [] && veryHighDaily == []
    {
      rowCount := raw.rowCount;
      source := raw.columns;
      respondentId, pathway, dailyNormal, weeklyNormal := [], [], [], [];
      stressLevel, stressReason, veryHighDaily := [], [], [];
    }

    /** Adds the respondent ids: 1, 2, ..., n in row order. */
    method AddRespondentId()
      modifies this`respondentId
      ensures |respondentId| == rowCount
      ensures forall i :: 0 <= i < rowCount ==> respondentId[i] == i + 1
    {
      respondentId := seq(rowCount, i => i + 1);
    }

    /** Adds the pathway column, normalize_pathway applied to each cell of
        the pathway answers; false, with nothing changed, when the export
        has no such header. */
    method AddPathway() returns (ok: bool)
      requires Valid()
      modifies this`pathway
      ensures Valid()
      ensures ok <==> ColPathway in source
      ensures ok ==> |pathway| == rowCount
      ensures ok ==> forall i :: 0 <= i < rowCount ==> pathway[i] == NormalizePathway(source[ColPathway][i])
      ensures !ok ==> pathway == old(pathway)
    {
      ok := ColPathway in source;
      if ok {
        var col := source[ColPathway];
        pathway := seq(rowCount, i requires 0 <= i < rowCount => NormalizePathway(col[i]));
      }
    }

    /** Adds the daily study hours, parse_num applied to each answer. */
    method AddDailyNormal() returns (ok: bool)
      requires Valid()
      modifies this`dailyNormal
      ensures Valid()
      ensures ok <==> ColDaily in source
      ensures ok ==> |dailyNormal| == rowCount
      ensures ok ==> forall i :: 0 <= i < rowCount ==> dailyNormal[i] == ParseNum(source[ColDaily][i])
      ensures !ok ==> dailyNormal == old(dailyNormal)
    {
      ok := ColDaily in source;
      if ok {
        var col := source[ColDaily];
        dailyNormal := seq(rowCount, i requires 0 <= i < rowCount => ParseNum(col[i]));
      }
    }

    /** Adds the weekly study hours, seven times the daily figure. */
    method AddWeeklyNormal()
      requires |dailyNormal| == rowCount
      modifies this`weeklyNormal
      ensures |weeklyNormal| == rowCount
      ensures forall i :: 0 <= i < rowCount ==> weeklyNormal[i] == Weekly(dailyNormal[i])
    {
      var daily := dailyNormal;
      weeklyNormal := seq(rowCount, i requires 0 <= i < rowCount => Weekly(daily[i]));
    }

    /** Adds the stress level, parse_num applied to each answer. */
    method AddStressLevel() returns (ok: bool)
      requires Valid()
      modifies this`stressLevel
      ensures Valid()
      ensures ok <==> ColStress in source
      ensures ok ==> |stressLevel| == rowCount
      ensures ok ==> forall i :: 0 <= i < rowCount ==> stressLevel[i] == ParseNum(source[ColStress][i])
      ensures !ok ==> stressLevel == old(stressLevel)
    {
      ok := ColStress in source;
      if ok {
        var col := source[ColStress];
        stressLevel := seq(rowCount, i requires 0 <= i < rowCount => ParseNum(col[i]));
      }
    }

    /** Adds the stress reason as text. */
    method AddStressReason() returns (ok: bool)
      requires Valid()
      modifies this`stressReason
      ensures Valid()
      ensures ok <==> ColReason in source
      ensures ok ==> |stressReason| == rowCount
      ensures ok ==> forall i :: 0 <= i < rowCount ==> stressReason[i] == AsText(source[ColReason][i])
      ensures !ok ==> stressReason == old(stressReason)
    {
      ok := ColReason in source;
      if ok {
        var col := source[ColReason];
        stressReason := seq(rowCount, i requires 0 <= i < rowCount => AsText(col[i]));
      }
    }

    /** Adds the flag for a daily figure above 8 hours. */
    method AddFlagVeryHighDaily()
      requires |dailyNormal| == rowCount
      modifies this`veryHighDaily
      ensures |veryHighDaily| == rowCount
      ensures forall i :: 0 <= i < rowCount ==> veryHighDaily[i] == VeryHigh(dailyNormal[i])
    {
      var daily := dailyNormal;
      veryHighDaily := seq(rowCount, i requires 0 <= i < rowCount => VeryHigh(daily[i]));
    }

    /** The report-ready table: the seven report columns, read row by row. */
    function Clean(): (rows: seq<CleanRow>)
      reads this
      requires Complete()
      ensures |rows| == rowCount
      ensures forall i :: 0 <= i < rowCount ==> rows[i] == CleanRow(
        respondentId[i], pathway[i], dailyNormal[i], weeklyNormal[i],
        stressLevel[i], stressReason[i], veryHighDaily[i])
    {
      var id, p, d, w, sl, sr, f := respondentId, pathway, dailyNormal, weeklyNormal, stressLevel, stressReason, veryHighDaily;
      seq(rowCount, i requires 0 <= i < rowCount => CleanRow(id[i], p[i], d[i], w[i], sl[i], sr[i], f[i]))
    }
  }

  /** A frame copied from the raw table whose derived columns are all
      built holds exactly the report-ready table. */
  lemma BuiltIsCleanTable(df: SurveyFrame, raw: RawTable)
    requires Rectangular(raw) && df.rowCount == raw.rowCount && df.source == raw.columns
    requires df.Built()
    ensures CleanTable(raw).Success? && df.Clean() == CleanTable(raw).value
  {
    var clean := df.Clean();
    assert FirstMissing(raw).None?;
    var expected := CleanTable(raw).value;
    var c := raw.columns;
    forall i | 0 <= i < raw.rowCount ensures clean[i] == expected[i] {
      var d := ParseNum(c[ColDaily][i]);
      assert df.dailyNormal[i] == d;
      assert clean[i] == CleanRow(i + 1, NormalizePathway(c[ColPathway][i]), d, Weekly(d),
        ParseNum(c[ColStress][i]), AsText(c[ColReason][i]), VeryHigh(d));
      assert expected[i] == CleanRowOf(i + 1, c[ColPathway][i], c[ColDaily][i], c[ColStress][i], c[ColReason][i]);
    }
    assert clean == expected;
  }

  /** The record-building part of the script: the copy of the raw table
      gains its derived columns in the script's order, stopping at the
      first header it cannot find, and the report-ready table is read off
      the finished frame. */
  method BuildClean(raw: RawTable) returns (res: Result<seq<CleanRow>, CleanError>)
    requires Rectangular(raw)
    ensures res == CleanTable(raw)
  {
    var df := new SurveyFrame(raw);
    df.AddRespondentId();
    var ok := df.AddPathway();
    if !ok {
      return Failure(MissingColumn(ColPathway));
    }
    ok := df.AddDailyNormal();
    if !ok {
      return Failure(MissingColumn(ColDaily));
    }
    df.AddWeeklyNormal();
    ok := df.AddStressLevel();
    if !ok {
      return Failure(MissingColumn(ColStress));
    }
    ok := df.AddStressReason();
    if !ok {
      return Failure(MissingColumn(ColReason));
    }
    df.AddFlagVeryHighDaily();
    assert df.Built();
    var clean := df.Clean();
    BuiltIsCleanTable(df, raw);
    res := Success(clean);
  }

  /** The cleaning section of the script, from the copy of the raw table to
      the filtered copies written out: it aborts on the first header it
      cannot find and otherwise yields the views of Records.Pipeline. */
  method Run(raw: RawTable) returns (res: Result<Views, CleanError>)
    requires Rectangular(raw)
    ensures res == Records.Pipeline(raw)
    ensures res.Failure? <==> !({ColPathway, ColDaily, ColStress, ColReason} <= raw.columns.Keys)
    ensures res.Success? ==>
      && |res.value.clean| == raw.rowCount
      && (forall i :: 0 <= i < raw.rowCount ==> res.value.clean[i].respondentId == i + 1)
      && (forall x :: x in res.value.analysis <==> x in res.value.clean && Usable(x))
      && (forall x :: x in res.value.poly <==> x in res.value.analysis && IsPoly(x))
      && (forall x :: x in res.value.jc <==> x in res.value.analysis && IsJC(x))
      && (forall x :: x in res.value.analysis <==> x in res.value.poly || x in res.value.jc)
      && (forall x :: !(x in res.value.poly && x in res.value.jc))
      && res.value.twoSample == res.value.analysis
  {
    var table := BuildClean(raw);
    if table.Failure? {
      return Failure(table.error);
    }
    var clean := table.value;
    var analysis := Filter(clean, Usable);
    var poly := Filter(analysis, IsPoly);
    var jc := Filter(analysis, IsJC);
    var twoSample := Filter(analysis, InEitherGroup);
    res := Success(Views(clean, analysis, poly, jc, twoSample));
    PipelineViews(raw);
  }
}
