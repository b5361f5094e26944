/** The entry points of electron/analyzer.ts: the loops of `analyzeSingleDate` and
    `analyzeMultiDate`, and the `getAvailableDates` wrapper, each proved to compute its
    specification in `Aggregation`. */
module Analyzer {
  import opened Wrappers
  import opened Aggregation
  import opened DuckDBQuery
  import opened DuckDB
  import opened AppConfig
  import Fernet

  /** The database the singleton holds; none before the first `getInstance`. */
  ghost function DbOf(instance: DuckDBService?): Option<Engine>
    reads instance
  {
    if instance == null then None else instance.db
  }

  ghost predicate RegistryValid(registry: ServiceRegistry)
    reads registry, registry.instance
  {
    registry.instance != null ==> registry.instance.Valid()
  }

  // ---------- analyzeSingleDate ----------

  lemma SingleSamplesStep(host: Host, key: string, recs: seq<ActivityRecord>, i: nat)
    requires i < |recs| && SingleSamples(host, key, recs[..i]).Ok? && SingleSample(host, key, recs[i]).Ok?
    ensures SingleSamples(host, key, recs[..i + 1])
      == Ok(SingleSamples(host, key, recs[..i]).value + [SingleSample(host, key, recs[i]).value])
  {
    assert recs[..i + 1][..i] == recs[..i];
  }

  lemma TallySnoc(samples: seq<Sample>, s: Sample)
    ensures Tally(samples + [s]) == Add(Tally(samples), s)
  {
    assert (samples + [s])[..|samples|] == samples;
  }

  /** One pass of the `analyzeSingleDate` loop body over `totalSeconds`, `activeSeconds`,
      `afkSeconds`, `minTime` and `maxTime`: a decryption failure is thrown out of the
      loop. */
  method SingleStep(t: Totals, record: ActivityRecord, host: Host, key: string) returns (r: Result<Totals>)
    ensures SingleSample(host, key, record).Err? ==> r == Err(SingleSample(host, key, record).error)
    ensures SingleSample(host, key, record).Ok? ==> r == Ok(Add(t, SingleSample(host, key, record).value))
  {
    var totalSeconds, activeSeconds, afkSeconds, minTime, maxTime :=
      t.totalSeconds, t.activeSeconds, t.afkSeconds, t.minTime, t.maxTime;
    var durationStr := Decoded(host, key, record.durationSeconds);
    if durationStr.Err? {
      return Err(durationStr.error);
    }
    var duration := host.platform.parseFloat(durationStr.value);
    totalSeconds := totalSeconds + duration;
    var afkStr := Decoded(host, key, record.isAfk);
    if afkStr.Err? {
      return Err(afkStr.error);
    }
    var isAfk := IsAfkFlag(afkStr.value);
    if isAfk {
      afkSeconds := afkSeconds + duration;
    } else {
      activeSeconds := activeSeconds + duration;
    }
    if record.startTime != "" {
      var startTimestamp := host.platform.parseDate(record.startTime);
      var endTimestamp := startTimestamp + duration * 1000.0;
      minTime := Some(if minTime.Some? && minTime.value <= startTimestamp then minTime.value else startTimestamp);
      maxTime := Max(maxTime, endTimestamp);
    }
    r := Ok(Totals(totalSeconds, activeSeconds, afkSeconds, minTime, maxTime));
  }

  /** The loop of `analyzeSingleDate` over the day's records. */
  method TallySingle(dayRecords: seq<ActivityRecord>, host: Host, key: string) returns (r: Result<Totals>)
    ensures SingleSamples(host, key, dayRecords).Ok? ==> r == Ok(Tally(SingleSamples(host, key, dayRecords).value))
    ensures SingleSamples(host, key, dayRecords).Err? ==> r == Err(SingleSamples(host, key, dayRecords).error)
  {
    var totals := NoTotals;
    for i := 0 to |dayRecords|
      invariant SingleSamples(host, key, dayRecords[..i]).Ok?
      invariant totals == Tally(SingleSamples(host, key, dayRecords[..i]).value)
    {
      var step := SingleStep(totals, dayRecords[i], host, key);
      if step.Err? {
        SingleSamplesStopAt(host, key, dayRecords, i);
        return Err(step.error);
      }
      SingleSamplesStep(host, key, dayRecords, i);
      TallySnoc(SingleSamples(host, key, dayRecords[..i]).value, SingleSample(host, key, dayRecords[i]).value);
      totals := step.value;
    }
    assert dayRecords[..|dayRecords|] == dayRecords;
    r := Ok(totals);
  }

  /** `analyzeSingleDate(date, config)`. */
  method AnalyzeSingleDate(registry: ServiceRegistry, date: string, config: Config,
                           crypto: Fernet.Primitives, platform: Platform)
    returns (r: Result<DailyAnalysis>)
    requires RegistryValid(registry)
    modifies registry
    ensures r == SingleDateAnalysis(RawActivities(old(DbOf(registry.instance)), config.employeeId, Some(date)),
      date, FernetHost(crypto, platform), config.decryptionKey)
  {
    var host := FernetHost(crypto, platform);
    var svc := registry.GetInstance();
    var fetched := svc.GetRawActivities(config.employeeId, Some(date));
    if fetched.Err? {
      return Err(fetched.error);
    }
    var dayRecords := fetched.value;
    if |dayRecords| == 0 {
      return Err(NoDataMessage(date));
    }
    var totals := TallySingle(dayRecords, host, config.decryptionKey);
    if totals.Err? {
      return Err(totals.error);
    }
    r := Ok(Report(date, totals.value, host, true));
  }

  // ---------- analyzeMultiDate ----------

  lemma RecordsOnStep(recs: seq<ActivityRecord>, i: nat, d: string)
    requires i < |recs|
    ensures RecordsOn(recs[..i + 1], d) == RecordsOn(recs[..i], d) + (if DateOf(recs[i]) == d then [recs[i]] else [])
  {
    assert recs[..i + 1][..i] == recs[..i];
  }

  /** The grouping loop: `recordsByDate` holds, for each listed date with records, its
      records in fetched order, and no other key. */
  method GroupByDate(allRecords: seq<ActivityRecord>, dates: seq<string>) returns (recordsByDate: map<string, seq<ActivityRecord>>)
    ensures forall d :: d in recordsByDate <==> d in dates && RecordsOn(allRecords, d) != []
    ensures forall d :: d in recordsByDate ==> recordsByDate[d] == RecordsOn(allRecords, d)
  {
    recordsByDate := map[];
    for i := 0 to |allRecords|
      invariant forall d :: d in recordsByDate <==> d in dates && RecordsOn(allRecords[..i], d) != []
      invariant forall d :: d in recordsByDate ==> recordsByDate[d] == RecordsOn(allRecords[..i], d)
    {
      var record := allRecords[i];
      var date := DateOf(record);
      forall d ensures RecordsOn(allRecords[..i + 1], d)
        == RecordsOn(allRecords[..i], d) + (if DateOf(allRecords[i]) == d then [allRecords[i]] else []) {
        RecordsOnStep(allRecords, i, d);
      }
      if date in dates {
        if date !in recordsByDate {
          recordsByDate := recordsByDate[date := []];
        }
        recordsByDate := recordsByDate[date := recordsByDate[date] + [record]];
      }
    }
    assert allRecords[..|allRecords|] == allRecords;
  }

  lemma MultiSamplesStep(host: Host, key: string, recs: seq<ActivityRecord>, i: nat)
    requires i < |recs|
    ensures MultiSamples(host, key, recs[..i + 1]) == MultiSamples(host, key, recs[..i])
      + (match MultiSample(host, key, recs[i]) case None => [] case Some(s) => [s])
  {
    assert recs[..i + 1][..i] == recs[..i];
  }

  /** One pass of the inner loop body of `analyzeMultiDate`, with its `try`/`catch`: a
      record whose duration does not decrypt adds nothing; one whose flag does not
      decrypt adds to the total only. */
  method DayStep(t: Totals, record: ActivityRecord, host: Host, key: string) returns (t': Totals)
    requires t.minTime.None? && t.maxTime == 0.0
    ensures MultiSample(host, key, record).None? ==> t' == t
    ensures MultiSample(host, key, record).Some? ==> t' == Add(t, MultiSample(host, key, record).value)
  {
    t' := t;
    var durationStr := Decoded(host, key, record.durationSeconds);
    if durationStr.Err? {
      return;
    }
    var duration := host.platform.parseFloat(durationStr.value);
    t' := t'.(totalSeconds := t'.totalSeconds + duration);
    var afkStr := Decoded(host, key, record.isAfk);
    if afkStr.Err? {
      return;
    }
    var isAfk := IsAfkFlag(afkStr.value);
    if isAfk {
      t' := t'.(afkSeconds := t'.afkSeconds + duration);
    } else {
      t' := t'.(activeSeconds := t'.activeSeconds + duration);
    }
  }

  /** Multi-date samples never carry a start, so the day's totals keep no time span. */
  lemma {:induction false} MultiSamplesNoSpan(samples: seq<Sample>)
    requires forall i :: 0 <= i < |samples| ==> samples[i].start.None?
    ensures Tally(samples).minTime.None? && Tally(samples).maxTime == 0.0
  {
    if samples != [] {
      MultiSamplesNoSpan(samples[..|samples| - 1]);
    }
  }

  /** The inner loop of `analyzeMultiDate` over the day's records. */
  method TallyDay(dayRecords: seq<ActivityRecord>, host: Host, key: string) returns (t: Totals)
    ensures t == Tally(MultiSamples(host, key, dayRecords))
  {
    t := NoTotals;
    for i := 0 to |dayRecords|
      invariant t == Tally(MultiSamples(host, key, dayRecords[..i]))
      invariant t.minTime.None? && t.maxTime == 0.0
    {
      MultiSamplesStep(host, key, dayRecords, i);
      var t' := DayStep(t, dayRecords[i], host, key);
      ghost var before := MultiSamples(host, key, dayRecords[..i]);
      if MultiSample(host, key, dayRecords[i]).Some? {
        assert MultiSamples(host, key, dayRecords[..i + 1]) == before + [MultiSample(host, key, dayRecords[i]).value];
        TallySnoc(before, MultiSample(host, key, dayRecords[i]).value);
      } else {
        assert MultiSamples(host, key, dayRecords[..i + 1]) == before + [];
        assert before + [] == before;
      }
      t := t';
    }
    assert dayRecords[..|dayRecords|] == dayRecords;
  }

  lemma SumDaysStep(days: seq<DailyAnalysis>, i: nat)
    requires i < |days|
    ensures SumDays(days[..i + 1]) == Sums(SumDays(days[..i]).active + days[i].activeHours,
      SumDays(days[..i]).tracked + days[i].totalHours, SumDays(days[..i]).inactive + days[i].inactiveHours)
  {
    assert days[..i + 1][..i] == days[..i];
  }

  /** The `dailyAnalyses.map` callback and the figures after it. */
  method RollupDays(dailyAnalyses: seq<DailyAnalysis>) returns (m: MultiDayAnalysis)
    ensures m == Rollup(dailyAnalyses)
  {
    var totalActiveHours, totalTrackedHours, totalInactiveHours := 0.0, 0.0, 0.0;
    var dailyBreakdown: seq<DayBreakdown> := [];
    for i := 0 to |dailyAnalyses|
      invariant Sums(totalActiveHours, totalTrackedHours, totalInactiveHours) == SumDays(dailyAnalyses[..i])
      invariant |dailyBreakdown| == i
      invariant forall k :: 0 <= k < i ==> dailyBreakdown[k] == Breakdown(dailyAnalyses[k])
    {
      var analysis := dailyAnalyses[i];
      SumDaysStep(dailyAnalyses, i);
      totalActiveHours := totalActiveHours + analysis.activeHours;
      totalTrackedHours := totalTrackedHours + analysis.totalHours;
      totalInactiveHours := totalInactiveHours + analysis.inactiveHours;
      dailyBreakdown := dailyBreakdown + [DayBreakdown(analysis.date, analysis.activeHours,
        analysis.inactiveHours, analysis.totalHours, analysis.activityRate)];
    }
    assert dailyAnalyses[..|dailyAnalyses|] == dailyAnalyses;
    var totalDays := |dailyBreakdown|;
    var averageActiveHours := if totalDays > 0 then totalActiveHours / totalDays as real else 0.0;
    var averageTotalHours := if totalDays > 0 then totalTrackedHours / totalDays as real else 0.0;
    var averageInactiveHours := if totalDays > 0 then totalInactiveHours / totalDays as real else 0.0;
    var overallActivityRate := if totalTrackedHours > 0.0 then totalActiveHours / totalTrackedHours * 100.0 else 0.0;
    m := MultiDayAnalysis(totalDays, Rounding.Round2(totalActiveHours), Rounding.Round2(totalTrackedHours),
      Rounding.Round2(totalInactiveHours), Rounding.Round2(averageActiveHours), Rounding.Round2(averageTotalHours),
      Rounding.Round2(averageInactiveHours), Rounding.Round1(overallActivityRate), dailyBreakdown);
    assert dailyBreakdown == Rollup(dailyAnalyses).dailyBreakdown;
  }

  /** The body of the day loop for a date with records: its totals, then its record. */
  method AnalyzeDay(date: string, dayRecords: seq<ActivityRecord>, host: Host, key: string) returns (a: DailyAnalysis)
    ensures a == Report(date, Tally(MultiSamples(host, key, dayRecords)), host, false)
  {
    var t := TallyDay(dayRecords, host, key);
    a := Report(date, t, host, false);
  }

  /** The day loop of `analyzeMultiDate`: one analysis per listed date with records. */
  method AnalyzeDays(allRecords: seq<ActivityRecord>, dates: seq<string>, host: Host, key: string)
    returns (dailyAnalyses: seq<DailyAnalysis>)
    ensures dailyAnalyses == DailyAnalyses(allRecords, dates, host, key)
  {
    var recordsByDate := GroupByDate(allRecords, dates);
    dailyAnalyses := [];
    for i := 0 to |dates|
      invariant dailyAnalyses == DailyAnalyses(allRecords, dates[..i], host, key)
    {
      var date := dates[i];
      var dayRecords := if date in recordsByDate then recordsByDate[date] else [];
      assert dayRecords == RecordsOn(allRecords, date);
      if |dayRecords| == 0 {
        DailyAnalysesSkip(allRecords, dates, i, host, key);
        continue;
      }
      DailyAnalysesAdd(allRecords, dates, i, host, key);
      var analysis := AnalyzeDay(date, dayRecords, host, key);
      dailyAnalyses := dailyAnalyses + [analysis];
    }
    assert dates[..|dates|] == dates;
  }

  /** `analyzeMultiDate(dates, config)`. */
  method AnalyzeMultiDate(registry: ServiceRegistry, dates: seq<string>, config: Config,
                          crypto: Fernet.Primitives, platform: Platform)
    returns (r: Result<MultiDayAnalysis>)
    requires RegistryValid(registry)
    modifies registry
    ensures r == MultiDateAnalysis(RawActivities(old(DbOf(registry.instance)), config.employeeId, None),
      dates, FernetHost(crypto, platform), config.decryptionKey)
  {
    var host := FernetHost(crypto, platform);
    var svc := registry.GetInstance();
    var fetched := svc.GetRawActivities(config.employeeId, None);
    if fetched.Err? {
      return Err(fetched.error);
    }
    var dailyAnalyses := AnalyzeDays(fetched.value, dates, host, config.decryptionKey);
    var analysis := RollupDays(dailyAnalyses);
    r := Ok(analysis);
  }

  // ---------- getAvailableDates ----------

  /** `getAvailableDates(config)`: the service's dates, or none on any failure. */
  function AvailableDatesOrNone(db: Option<Engine>, employeeId: string, castDate: string -> Option<string>): (r: seq<string>)
    requires db.Some? ==> WellFormedCatalog(CatalogOf(db.value))
    ensures StrictlyDescending(r)
    ensures db.None? ==> r == []
    ensures db.Some? ==> r == AvailableDatesFrom(CatalogOf(db.value), employeeId, castDate)
  {
    match AvailableDates(db, employeeId, castDate)
    case Ok(ds) => ds
    case Err(_) => []
  }

  method GetAvailableDates(registry: ServiceRegistry, config: Config, castDate: string -> Option<string>)
    returns (dates: seq<string>)
    requires RegistryValid(registry)
    modifies registry
    ensures dates == AvailableDatesOrNone(old(DbOf(registry.instance)), config.employeeId, castDate)
  {
    var svc := registry.GetInstance();
    var r := svc.GetAvailableDates(config.employeeId, castDate);
    dates := match r case Ok(ds) => ds case Err(_) => [];
  }
}
