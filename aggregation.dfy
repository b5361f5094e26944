/** The arithmetic of electron/analyzer.ts as specification functions: each record's
    duration sorted into the active, AFK or neither bucket, the running totals and time
    span of a day, the derived figures, the productivity level, the per-day analyses of
    `analyzeSingleDate` and `analyzeMultiDate`, and the multi-day rollup. */
module Aggregation {
  import opened Wrappers
  import opened Strings
  import opened Rounding
  import opened Clock
  import Fernet
  import opened DuckDBQuery

  type Hour = h: nat | h < 24
  type Minute = m: nat | m < 60

  /** The platform calls the analyzer makes. */
  datatype Platform = Platform(
    /** `parseFloat(s)`. */
    parseFloat: string -> real,
    /** `new Date(s).getTime()`: epoch milliseconds. */
    parseDate: string -> real,
    /** `getHours()` and `getMinutes()` of `new Date(ms)` in local time. */
    localTime: real -> (Hour, Minute))

  /** What the loops call per record: `decryptValue(encryptedValue, key)` and the
      platform. */
  datatype Host = Host(decrypt: (string, string) -> Result<string>, platform: Platform)

  /** The analyzer's host: decryption is the Fernet `decryptValue`. */
  function FernetHost(crypto: Fernet.Primitives, platform: Platform): (h: Host)
    ensures h.platform == platform
    ensures forall v, k :: h.decrypt(v, k) == Fernet.DecryptValue(crypto, v, k)
  {
    Host((v, k) => Fernet.DecryptValue(crypto, v, k), platform)
  }

  /** `config.decryptionKey ? decryptValue(field, key) : field`: the empty key is falsy. */
  function Decoded(host: Host, key: string, field: string): (r: Result<string>)
    ensures key == "" ==> r == Ok(field)
    ensures key != "" ==> r == host.decrypt(field, key)
  {
    if key == "" then Ok(field) else host.decrypt(field, key)
  }

  /** `afkStr === '1' || afkStr === 'true' || afkStr === 'True'`. */
  predicate IsAfkFlag(s: string) {
    s == "1" || s == "true" || s == "True"
  }

  datatype Bucket = Active | Afk | Neither

  /** One record as the loops see it: its duration in seconds, its bucket, and its start
      in epoch milliseconds when it has a `start_time`. */
  datatype Sample = Sample(duration: real, bucket: Bucket, start: Option<real>)

  /** The loop variables `totalSeconds`, `activeSeconds`, `afkSeconds`, `minTime`
      (`None` for `Infinity`) and `maxTime`. */
  datatype Totals = Totals(totalSeconds: real, activeSeconds: real, afkSeconds: real, minTime: Option<real>, maxTime: real)

  const NoTotals := Totals(0.0, 0.0, 0.0, None, 0.0)

  function Max(a: real, b: real): real {
    if a < b then b else a
  }

  /** End of a sample with a start: `startTimestamp + duration * 1000`. */
  function EndOf(s: Sample): real
    requires s.start.Some?
  {
    s.start.value + s.duration * 1000.0
  }

  /** One iteration of the loop body. */
  function Add(t: Totals, s: Sample): Totals {
    var total := t.totalSeconds + s.duration;
    var active := if s.bucket == Active then t.activeSeconds + s.duration else t.activeSeconds;
    var afk := if s.bucket == Afk then t.afkSeconds + s.duration else t.afkSeconds;
    match s.start
    case None => Totals(total, active, afk, t.minTime, t.maxTime)
    case Some(st) =>
      var minTime := if t.minTime.Some? && t.minTime.value <= st then t.minTime.value else st;
      Totals(total, active, afk, Some(minTime), Max(t.maxTime, EndOf(s)))
  }

  /** The loop over the samples, in order. */
  function Tally(samples: seq<Sample>): Totals {
    if samples == [] then NoTotals
    else Add(Tally(samples[..|samples| - 1]), samples[|samples| - 1])
  }

  function BucketSum(samples: seq<Sample>, b: Bucket): real {
    if samples == [] then 0.0
    else
      var last := samples[|samples| - 1];
      BucketSum(samples[..|samples| - 1], b) + (if last.bucket == b then last.duration else 0.0)
  }

  /** Every duration lands in the total and in exactly one bucket: the total is the active
      sum plus the AFK sum plus what landed in neither. */
  lemma {:induction false} TallyBuckets(samples: seq<Sample>)
    ensures Tally(samples).activeSeconds == BucketSum(samples, Active)
    ensures Tally(samples).afkSeconds == BucketSum(samples, Afk)
    ensures Tally(samples).totalSeconds
      == BucketSum(samples, Active) + BucketSum(samples, Afk) + BucketSum(samples, Neither)
  {
    if samples != [] {
      TallyBuckets(samples[..|samples| - 1]);
    }
  }

  predicate HasStart(samples: seq<Sample>, i: int) {
    0 <= i < |samples| && samples[i].start.Some?
  }

  /** `minTime` is the least start among the samples that have one, `None` when none
      does; `maxTime` is the greatest end among them, or 0 when every end is at most 0. */
  lemma {:induction false} TallyTimes(samples: seq<Sample>)
    ensures var t := Tally(samples);
      && (t.minTime.None? <==> forall i :: 0 <= i < |samples| ==> !HasStart(samples, i))
      && (forall i :: HasStart(samples, i) ==> t.minTime.Some? && t.minTime.value <= samples[i].start.value)
      && (t.minTime.Some? ==> exists i :: HasStart(samples, i) && samples[i].start.value == t.minTime.value)
      && t.maxTime >= 0.0
      && (forall i :: HasStart(samples, i) ==> EndOf(samples[i]) <= t.maxTime)
      && (t.maxTime != 0.0 ==> exists i :: HasStart(samples, i) && EndOf(samples[i]) == t.maxTime)
  {
    if samples != [] {
      var init := samples[..|samples| - 1];
      var n := |samples| - 1;
      TallyTimes(init);
      assert forall i :: 0 <= i < n ==> (HasStart(init, i) <==> HasStart(samples, i)) && init[i] == samples[i];
      var t := Tally(samples);
      if samples[n].start.Some? {
        assert HasStart(samples, n);
        if t.minTime.value != samples[n].start.value {
          var j :| HasStart(init, j) && init[j].start.value == Tally(init).minTime.value;
          assert HasStart(samples, j) && samples[j].start.value == t.minTime.value;
        }
        if t.maxTime != 0.0 && t.maxTime != EndOf(samples[n]) {
          var j :| HasStart(init, j) && EndOf(init[j]) == Tally(init).maxTime;
          assert HasStart(samples, j) && EndOf(samples[j]) == t.maxTime;
        }
      } else {
        if t.minTime.Some? {
          var j :| HasStart(init, j) && init[j].start.value == Tally(init).minTime.value;
          assert HasStart(samples, j);
        }
        if t.maxTime != 0.0 {
          var j :| HasStart(init, j) && EndOf(init[j]) == Tally(init).maxTime;
          assert HasStart(samples, j);
        }
      }
    }
  }

  /** The unrounded figures of a day. */
  datatype Figures = Figures(totalHours: real, activeHours: real, inactiveHours: real, afkHours: real, activityRate: real)

  function FiguresOf(t: Totals): Figures {
    var totalHours := t.totalSeconds / 3600.0;
    var activeHours := t.activeSeconds / 3600.0;
    var afkHours := t.afkSeconds / 3600.0;
    Figures(totalHours, activeHours, totalHours - activeHours, afkHours,
      if totalHours > 0.0 then activeHours / totalHours * 100.0 else 0.0)
  }

  /** Inactive time is everything not active, so with no sample in neither bucket it is
      exactly the AFK time; with no negative durations the rate is a percentage and is 0
      for an empty day. */
  lemma FiguresMeaning(samples: seq<Sample>)
    ensures var f := FiguresOf(Tally(samples));
      f.inactiveHours == f.afkHours + BucketSum(samples, Neither) / 3600.0
    ensures var f := FiguresOf(Tally(samples));
      (forall i :: 0 <= i < |samples| ==> samples[i].duration >= 0.0) ==>
        0.0 <= f.activeHours <= f.totalHours && 0.0 <= f.activityRate <= 100.0
        && (f.totalHours == 0.0 ==> f.activityRate == 0.0)
  {
    TallyBuckets(samples);
    if forall i :: 0 <= i < |samples| ==> samples[i].duration >= 0.0 {
      BucketSumNonNegative(samples, Active);
      BucketSumNonNegative(samples, Afk);
      BucketSumNonNegative(samples, Neither);
      var f := FiguresOf(Tally(samples));
      if f.totalHours > 0.0 {
        RateIsPercent(f.activeHours, f.totalHours);
      }
    }
  }

  lemma {:induction false} BucketSumNonNegative(samples: seq<Sample>, b: Bucket)
    requires forall i :: 0 <= i < |samples| ==> samples[i].duration >= 0.0
    ensures BucketSum(samples, b) >= 0.0
  {
    if samples != [] {
      BucketSumNonNegative(samples[..|samples| - 1], b);
    }
  }

  lemma RateIsPercent(part: real, whole: real)
    requires 0.0 <= part <= whole && whole > 0.0
    ensures 0.0 <= part / whole * 100.0 <= 100.0
  {
    assert part / whole <= 1.0 by {
      assert part / whole * whole == part;
    }
  }

  datatype Productivity = Excellent | Good | NeedsImprovement

  /** `calculateProductivity`. */
  function CalculateProductivity(activityRate: real, totalHours: real): Productivity {
    if activityRate >= 80.0 && totalHours >= 6.0 then Excellent
    else if activityRate >= 60.0 && totalHours >= 4.0 then Good
    else NeedsImprovement
  }

  function Emoji(p: Productivity): (e: string)
    ensures |e| == 1
  {
    match p
    case Excellent => "\U{1F7E2}"
    case Good => "\U{1F7E1}"
    case NeedsImprovement => "\U{1F534}"
  }

  /** `'excellent' | 'good' | 'needs-improvement'`. */
  function Level(p: Productivity): string {
    match p
    case Excellent => "excellent"
    case Good => "good"
    case NeedsImprovement => "needs-improvement"
  }

  function Rank(p: Productivity): nat {
    match p
    case NeedsImprovement => 0
    case Good => 1
    case Excellent => 2
  }

  /** The thresholds, both ways: excellent exactly at rate 80 and 6 hours; good exactly
      below that at rate 60 and 4 hours; the three emojis are distinct. */
  lemma ProductivityThresholds(rate: real, hours: real)
    ensures CalculateProductivity(rate, hours) == Excellent <==> rate >= 80.0 && hours >= 6.0
    ensures CalculateProductivity(rate, hours) == Good <==>
      !(rate >= 80.0 && hours >= 6.0) && rate >= 60.0 && hours >= 4.0
    ensures CalculateProductivity(rate, hours) == NeedsImprovement <==>
      !(rate >= 80.0 && hours >= 6.0) && !(rate >= 60.0 && hours >= 4.0)
    ensures Emoji(Excellent) != Emoji(Good) && Emoji(Good) != Emoji(NeedsImprovement)
      && Emoji(Excellent) != Emoji(NeedsImprovement)
  {
  }

  /** More activity and more hours never lower the level. */
  lemma ProductivityMonotone(rate: real, hours: real, rate2: real, hours2: real)
    requires rate <= rate2 && hours <= hours2
    ensures Rank(CalculateProductivity(rate, hours)) <= Rank(CalculateProductivity(rate2, hours2))
  {
  }

  /** A `DailyAnalysis` record. */
  datatype DailyAnalysis = DailyAnalysis(
    date: string, totalHours: real, activeHours: real, inactiveHours: real, afkHours: real,
    activityRate: real, startTime: string, endTime: string, productivity: string, productivityEmoji: string)

  const NotAvailable := "N/A"

  /** `parseTime(ms / 1000)`: the local wall-clock time of an epoch-millisecond instant. */
  function ClockText(host: Host, ms: real): string {
    var (h, m) := host.platform.localTime(ms / 1000.0 * 1000.0);
    ParseTime(h, m)
  }

  /** The record a day's totals produce; the times only when `withTimes`. Figures are
      rounded here and only here; the level is judged on the unrounded figures. */
  function Report(date: string, t: Totals, host: Host, withTimes: bool): DailyAnalysis {
    var f := FiguresOf(t);
    var p := CalculateProductivity(f.activityRate, f.totalHours);
    DailyAnalysis(date, Round2(f.totalHours), Round2(f.activeHours), Round2(f.inactiveHours), Round2(f.afkHours),
      Round1(f.activityRate),
      if withTimes && t.minTime.Some? then ClockText(host, t.minTime.value) else NotAvailable,
      if withTimes && t.maxTime != 0.0 then ClockText(host, t.maxTime) else NotAvailable,
      Level(p), Emoji(p))
  }

  /** Each reported figure is within half a unit of its last place of the exact one, and
      the level is the one the exact figures earn. */
  lemma ReportRoundsAtOutput(date: string, t: Totals, host: Host, withTimes: bool)
    ensures var r := Report(date, t, host, withTimes); var f := FiguresOf(t);
      && f.totalHours - 0.005 < r.totalHours <= f.totalHours + 0.005
      && f.activeHours - 0.005 < r.activeHours <= f.activeHours + 0.005
      && f.inactiveHours - 0.005 < r.inactiveHours <= f.inactiveHours + 0.005
      && f.afkHours - 0.005 < r.afkHours <= f.afkHours + 0.005
      && f.activityRate - 0.05 < r.activityRate <= f.activityRate + 0.05
      && r.productivity == Level(CalculateProductivity(f.activityRate, f.totalHours))
  {
  }

  /** Start and end times appear exactly when the day saw a start; `'N/A'` otherwise. */
  lemma ReportTimes(date: string, samples: seq<Sample>, host: Host)
    ensures var r := Report(date, Tally(samples), host, true);
      (r.startTime == NotAvailable <==> forall i :: 0 <= i < |samples| ==> !HasStart(samples, i))
    ensures (forall i :: 0 <= i < |samples| ==> !HasStart(samples, i)) ==>
      Report(date, Tally(samples), host, true).endTime == NotAvailable
    ensures Report(date, Tally(samples), host, true).endTime == NotAvailable <==> Tally(samples).maxTime == 0.0
  {
    TallyTimes(samples);
    var t := Tally(samples);
    if t.minTime.Some? {
      var (h, m) := host.platform.localTime(t.minTime.value / 1000.0 * 1000.0);
      ClockIsNotNA(h, m);
    }
    if t.maxTime != 0.0 {
      var (h, m) := host.platform.localTime(t.maxTime / 1000.0 * 1000.0);
      ClockIsNotNA(h, m);
    }
  }

  lemma ClockIsNotNA(h: Hour, m: Minute)
    ensures ParseTime(h, m) != NotAvailable
  {
    assert MinuteText(m)[0] != '/';
    assert ParseTime(h, m)[|HourText(h)|] == ':';
  }

  // ---------- analyzeSingleDate ----------

  /** One record in `analyzeSingleDate`: the duration is decoded first, then the flag; a
      decryption failure is the result. */
  function SingleSample(host: Host, key: string, r: ActivityRecord): Result<Sample> {
    var durationStr :- Decoded(host, key, r.durationSeconds);
    var duration := host.platform.parseFloat(durationStr);
    var afkStr :- Decoded(host, key, r.isAfk);
    Ok(Sample(duration, if IsAfkFlag(afkStr) then Afk else Active,
      if r.startTime != "" then Some(host.platform.parseDate(r.startTime)) else None))
  }

  /** The records in order; the first failure ends the analysis. */
  function SingleSamples(host: Host, key: string, recs: seq<ActivityRecord>): (r: Result<seq<Sample>>)
    ensures r.Ok? ==> |r.value| == |recs|
  {
    if recs == [] then Ok([])
    else
      var init :- SingleSamples(host, key, recs[..|recs| - 1]);
      var last :- SingleSample(host, key, recs[|recs| - 1]);
      Ok(init + [last])
  }

  /** A successful single-date pass yields each record's own sample. */
  lemma {:induction false} SingleSamplesOk(host: Host, key: string, recs: seq<ActivityRecord>)
    requires SingleSamples(host, key, recs).Ok?
    ensures forall i :: 0 <= i < |recs| ==> SingleSample(host, key, recs[i]) == Ok(SingleSamples(host, key, recs).value[i])
  {
    if recs != [] {
      var init := recs[..|recs| - 1];
      SingleSamplesOk(host, key, init);
      var v := SingleSamples(host, key, recs).value;
      var vi := SingleSamples(host, key, init).value;
      assert v == vi + [SingleSample(host, key, recs[|recs| - 1]).value];
      forall i | 0 <= i < |init| ensures SingleSample(host, key, recs[i]) == Ok(v[i]) {
        assert recs[i] == init[i] && v[i] == vi[i];
      }
    }
  }

  /** A failed single-date pass fails with the error of its first failing record. */
  lemma {:induction false} SingleSamplesErr(host: Host, key: string, recs: seq<ActivityRecord>)
    requires SingleSamples(host, key, recs).Err?
    ensures exists i :: (0 <= i < |recs| && SingleSample(host, key, recs[i]) == Err(SingleSamples(host, key, recs).error)
                         && (forall j :: 0 <= j < i ==> SingleSample(host, key, recs[j]).Ok?))
  {
    var init := recs[..|recs| - 1];
    var e := SingleSamples(host, key, recs).error;
    if SingleSamples(host, key, init).Ok? {
      SingleSamplesOk(host, key, init);
      assert forall j :: 0 <= j < |init| ==> recs[j] == init[j];
      assert SingleSample(host, key, recs[|init|]) == Err(e);
    } else {
      SingleSamplesErr(host, key, init);
      var i :| 0 <= i < |init| && SingleSample(host, key, init[i]) == Err(e)
        && forall j :: 0 <= j < i ==> SingleSample(host, key, init[j]).Ok?;
      assert forall j :: 0 <= j <= i ==> recs[j] == init[j];
    }
  }

  /** A single-date sample is AFK exactly when its decoded flag is `"1"`, `"true"` or
      `"True"`, active otherwise, never in neither bucket; its duration is the decoded
      duration parsed. */
  lemma SingleSampleBucket(host: Host, key: string, r: ActivityRecord)
    requires SingleSample(host, key, r).Ok?
    ensures Decoded(host, key, r.durationSeconds).Ok? && Decoded(host, key, r.isAfk).Ok?
    ensures SingleSample(host, key, r).value.bucket
      == (if IsAfkFlag(Decoded(host, key, r.isAfk).value) then Afk else Active)
    ensures SingleSample(host, key, r).value.duration
      == host.platform.parseFloat(Decoded(host, key, r.durationSeconds).value)
  {
  }

  /** A single-date sample fails only by a decryption failure, and only with a key. */
  lemma SingleSampleFailure(host: Host, key: string, r: ActivityRecord)
    requires SingleSample(host, key, r).Err?
    ensures key != ""
    ensures var e := SingleSample(host, key, r).error;
      Err(e) == host.decrypt(r.durationSeconds, key) || Err(e) == host.decrypt(r.isAfk, key)
  {
  }

  /** With the Fernet host, a single-date analysis that meets a bad record fails with
      the wrapped decryption error rather than skipping it. */
  lemma SingleDateDecryptionFailure(recs: seq<ActivityRecord>, date: string, crypto: Fernet.Primitives,
                                     platform: Platform, key: string)
    requires recs != [] && SingleSamples(FernetHost(crypto, platform), key, recs).Err?
    ensures SingleDateAnalysis(Ok(recs), date, FernetHost(crypto, platform), key).Err?
    ensures IsPrefix(Fernet.Prefix, SingleDateAnalysis(Ok(recs), date, FernetHost(crypto, platform), key).error)
  {
    var host := FernetHost(crypto, platform);
    SingleSamplesErr(host, key, recs);
    var e := SingleSamples(host, key, recs).error;
    var i :| 0 <= i < |recs| && SingleSample(host, key, recs[i]) == Err(e)
      && (forall j :: 0 <= j < i ==> SingleSample(host, key, recs[j]).Ok?);
    SingleSampleFailure(host, key, recs[i]);
    if Err(e) == host.decrypt(recs[i].durationSeconds, key) {
      assert Err(e) == Fernet.DecryptValue(crypto, recs[i].durationSeconds, key);
    } else {
      assert Err(e) == Fernet.DecryptValue(crypto, recs[i].isAfk, key);
    }
  }

  /** Without a key nothing is decrypted, so nothing fails. */
  lemma {:induction false} NoKeyNoFailure(host: Host, recs: seq<ActivityRecord>)
    ensures SingleSamples(host, "", recs).Ok?
  {
    if recs != [] {
      NoKeyNoFailure(host, recs[..|recs| - 1]);
    }
  }

  /** Once the records before `i` pass and record `i` fails, that failure is the result. */
  lemma {:induction false} SingleSamplesStopAt(host: Host, key: string, recs: seq<ActivityRecord>, i: nat)
    requires i < |recs| && SingleSamples(host, key, recs[..i]).Ok? && SingleSample(host, key, recs[i]).Err?
    ensures SingleSamples(host, key, recs) == Err(SingleSample(host, key, recs[i]).error)
    decreases |recs|
  {
    if i < |recs| - 1 {
      var init := recs[..|recs| - 1];
      assert init[..i] == recs[..i] && init[i] == recs[i];
      SingleSamplesStopAt(host, key, init, i);
    } else {
      assert recs[..|recs| - 1] == recs[..i];
    }
  }

  function NoDataMessage(date: string): string {
    "No data found for date: " + date
  }

  /** `analyzeSingleDate` on the result of the query. */
  function SingleDateAnalysis(fetched: Result<seq<ActivityRecord>>, date: string, host: Host, key: string): Result<DailyAnalysis> {
    var recs :- fetched;
    if recs == [] then Err(NoDataMessage(date))
    else
      var samples :- SingleSamples(host, key, recs);
      Ok(Report(date, Tally(samples), host, true))
  }

  /** A successful single-date analysis had records, and its totals split into exactly
      the active and AFK parts. */
  lemma SingleDateSplit(fetched: Result<seq<ActivityRecord>>, date: string, host: Host, key: string)
    ensures fetched == Ok([]) ==> SingleDateAnalysis(fetched, date, host, key) == Err(NoDataMessage(date))
    ensures fetched.Ok? && fetched.value != [] && SingleSamples(host, key, fetched.value).Ok? ==>
      var t := Tally(SingleSamples(host, key, fetched.value).value);
      t.totalSeconds == t.activeSeconds + t.afkSeconds
  {
    if fetched.Ok? && fetched.value != [] && SingleSamples(host, key, fetched.value).Ok? {
      var samples := SingleSamples(host, key, fetched.value).value;
      SingleSamplesOk(host, key, fetched.value);
      forall i | 0 <= i < |samples| ensures samples[i].bucket != Neither {
        SingleSampleBucket(host, key, fetched.value[i]);
      }
      TallyBuckets(samples);
      NoNeitherSum(samples);
    }
  }

  lemma {:induction false} NoNeitherSum(samples: seq<Sample>)
    requires forall i :: 0 <= i < |samples| ==> samples[i].bucket != Neither
    ensures BucketSum(samples, Neither) == 0.0
  {
    if samples != [] {
      NoNeitherSum(samples[..|samples| - 1]);
    }
  }

  // ---------- analyzeMultiDate ----------

  /** One record in `analyzeMultiDate`, inside its `try`: a failed duration skips the
      record; a failed flag after a good duration leaves it counted in the total only. */
  function MultiSample(host: Host, key: string, r: ActivityRecord): Option<Sample> {
    match Decoded(host, key, r.durationSeconds)
    case Err(_) => None
    case Ok(durationStr) =>
      var duration := host.platform.parseFloat(durationStr);
      match Decoded(host, key, r.isAfk)
      case Err(_) => Some(Sample(duration, Neither, None))
      case Ok(afkStr) => Some(Sample(duration, if IsAfkFlag(afkStr) then Afk else Active, None))
  }

  function MultiSamples(host: Host, key: string, recs: seq<ActivityRecord>): (r: seq<Sample>)
    ensures |r| <= |recs|
  {
    if recs == [] then []
    else
      var init := MultiSamples(host, key, recs[..|recs| - 1]);
      match MultiSample(host, key, recs[|recs| - 1])
      case None => init
      case Some(s) => init + [s]
  }

  /** The three outcomes of a multi-date record. */
  lemma MultiSampleCases(host: Host, key: string, r: ActivityRecord)
    ensures Decoded(host, key, r.durationSeconds).Err? <==> MultiSample(host, key, r).None?
    ensures Decoded(host, key, r.durationSeconds).Ok? && Decoded(host, key, r.isAfk).Err? ==>
      MultiSample(host, key, r) == Some(Sample(host.platform.parseFloat(Decoded(host, key, r.durationSeconds).value), Neither, None))
    ensures Decoded(host, key, r.durationSeconds).Ok? && Decoded(host, key, r.isAfk).Ok? ==>
      MultiSample(host, key, r).value.bucket == (if IsAfkFlag(Decoded(host, key, r.isAfk).value) then Afk else Active)
  {
  }

  /** `record.start_time.substring(0, 10)`. */
  function DateOf(r: ActivityRecord): string {
    Take(r.startTime, 10)
  }

  /** The records of one date, in fetched order, each copy kept. */
  function RecordsOn(recs: seq<ActivityRecord>, d: string): (r: seq<ActivityRecord>)
    ensures |r| <= |recs|
    ensures forall x :: x in r <==> x in recs && DateOf(x) == d
  {
    if recs == [] then []
    else
      var init := RecordsOn(recs[..|recs| - 1], d);
      var last := recs[|recs| - 1];
      assert recs == recs[..|recs| - 1] + [last];
      if DateOf(last) == d then init + [last] else init
  }

  /** Grouping distributes over concatenation: together with `RecordsOnSingle` this fixes
      the order and the copies of every group. */
  lemma {:induction false} RecordsOnConcat(a: seq<ActivityRecord>, b: seq<ActivityRecord>, d: string)
    ensures RecordsOn(a + b, d) == RecordsOn(a, d) + RecordsOn(b, d)
  {
    if b == [] {
      assert a + b == a;
    } else {
      var ab := a + b;
      var b' := b[..|b| - 1];
      var last := b[|b| - 1];
      assert ab[..|ab| - 1] == a + b';
      assert ab[|ab| - 1] == last;
      RecordsOnConcat(a, b', d);
      RecordsOnLast(ab, d);
      RecordsOnLast(b, d);
    }
  }

  lemma RecordsOnLast(s: seq<ActivityRecord>, d: string)
    requires s != []
    ensures RecordsOn(s, d)
      == RecordsOn(s[..|s| - 1], d) + (if DateOf(s[|s| - 1]) == d then [s[|s| - 1]] else [])
  {
  }

  /** A date's group holds every copy of each of its records: as many as were fetched. */
  lemma RecordsOnCopies(recs: seq<ActivityRecord>, d: string)
    ensures forall x :: multiset(RecordsOn(recs, d))[x] == if DateOf(x) == d then multiset(recs)[x] else 0
  {
    forall x ensures multiset(RecordsOn(recs, d))[x] == if DateOf(x) == d then multiset(recs)[x] else 0 {
      RecordsOnCopiesOf(recs, d, x);
    }
  }

  lemma {:induction false} RecordsOnCopiesOf(recs: seq<ActivityRecord>, d: string, x: ActivityRecord)
    ensures multiset(RecordsOn(recs, d))[x] == if DateOf(x) == d then multiset(recs)[x] else 0
  {
    if recs != [] {
      var init := recs[..|recs| - 1];
      var last := recs[|recs| - 1];
      RecordsOnCopiesOf(init, d, x);
      RecordsOnLast(recs, d);
      assert recs == init + [last];
      assert multiset(recs)[x] == multiset(init)[x] + multiset{last}[x];
      var group := RecordsOn(init, d);
      if DateOf(last) == d {
        assert RecordsOn(recs, d) == group + [last];
        assert multiset(group + [last])[x] == multiset(group)[x] + multiset{last}[x];
      } else {
        assert RecordsOn(recs, d) == group;
        assert DateOf(x) == d ==> multiset{last}[x] == 0;
      }
    }
  }

  /** A single record joins exactly its own date's group. */
  lemma RecordsOnSingle(x: ActivityRecord, d: string)
    ensures RecordsOn([x], d) == if DateOf(x) == d then [x] else []
  {
    assert [x][..0] == [];
  }

  /** The listed dates that have records, in the order of `dates`, repeats included. */
  function ReportedDates(recs: seq<ActivityRecord>, dates: seq<string>): (r: seq<string>)
    ensures |r| <= |dates|
    ensures forall d :: d in r <==> d in dates && RecordsOn(recs, d) != []
  {
    if dates == [] then []
    else
      var init := ReportedDates(recs, dates[..|dates| - 1]);
      var d := dates[|dates| - 1];
      assert dates == dates[..|dates| - 1] + [d];
      if RecordsOn(recs, d) == [] then init else init + [d]
  }

  /** `a` is listed before `b`. */
  ghost predicate ListedBefore(dates: seq<string>, a: string, b: string) {
    exists j1, j2 :: 0 <= j1 < j2 < |dates| && dates[j1] == a && dates[j2] == b
  }

  /** Reported dates keep the order they are listed in. */
  lemma {:induction false} ReportedDatesOrder(recs: seq<ActivityRecord>, dates: seq<string>)
    ensures forall k1, k2 :: 0 <= k1 < k2 < |ReportedDates(recs, dates)| ==>
      ListedBefore(dates, ReportedDates(recs, dates)[k1], ReportedDates(recs, dates)[k2])
  {
    if dates != [] {
      var init := dates[..|dates| - 1];
      var n := |dates| - 1;
      ReportedDatesOrder(recs, init);
      var ri := ReportedDates(recs, init);
      var r := ReportedDates(recs, dates);
      assert forall j :: 0 <= j < n ==> init[j] == dates[j];
      forall k1, k2 | 0 <= k1 < k2 < |r|
        ensures ListedBefore(dates, r[k1], r[k2])
      {
        if k2 < |ri| {
          assert r[k1] == ri[k1] && r[k2] == ri[k2];
          assert ListedBefore(init, ri[k1], ri[k2]);
          var j1, j2 :| 0 <= j1 < j2 < |init| && init[j1] == ri[k1] && init[j2] == ri[k2];
          assert dates[j1] == r[k1] && dates[j2] == r[k2];
        } else {
          assert r[k1] == ri[k1] && ri[k1] in ri;
          var j1 :| 0 <= j1 < |init| && init[j1] == ri[k1];
          assert dates[j1] == r[k1] && dates[n] == r[k2];
        }
      }
    }
  }

  /** The analysis of one listed date with records: its tally, with no times. */
  function DayOf(recs: seq<ActivityRecord>, d: string, host: Host, key: string): (a: DailyAnalysis)
    ensures a.date == d
  {
    Report(d, Tally(MultiSamples(host, key, RecordsOn(recs, d))), host, false)
  }

  /** `mk` applied to each date, in order. */
  function MapDates(ds: seq<string>, mk: string -> DailyAnalysis): (r: seq<DailyAnalysis>)
    ensures |r| == |ds|
  {
    if ds == [] then [] else MapDates(ds[..|ds| - 1], mk) + [mk(ds[|ds| - 1])]
  }

  lemma {:induction false} MapDatesEntries(ds: seq<string>, mk: string -> DailyAnalysis)
    ensures forall k :: 0 <= k < |ds| ==> MapDates(ds, mk)[k] == mk(ds[k])
  {
    if ds != [] {
      var init := ds[..|ds| - 1];
      MapDatesEntries(init, mk);
      assert forall k :: 0 <= k < |init| ==> init[k] == ds[k];
    }
  }

  /** `dailyAnalyses`: one entry per reported date. */
  function DailyAnalyses(recs: seq<ActivityRecord>, dates: seq<string>, host: Host, key: string): seq<DailyAnalysis> {
    MapDates(ReportedDates(recs, dates), d => DayOf(recs, d, host, key))
  }

  /** A date is reported exactly when it is listed and has records, and its entry is
      made from that date's records only. */
  lemma DailyAnalysesDates(recs: seq<ActivityRecord>, dates: seq<string>, host: Host, key: string)
    ensures |DailyAnalyses(recs, dates, host, key)| <= |dates|
    ensures var r := DailyAnalyses(recs, dates, host, key);
      forall d :: (exists k :: 0 <= k < |r| && r[k].date == d) <==> d in dates && RecordsOn(recs, d) != []
    ensures var r := DailyAnalyses(recs, dates, host, key);
      forall k :: 0 <= k < |r| ==> r[k] == DayOf(recs, r[k].date, host, key)
  {
    var r := DailyAnalyses(recs, dates, host, key);
    var ds := ReportedDates(recs, dates);
    MapDatesEntries(ds, d => DayOf(recs, d, host, key));
    forall d | d in dates && RecordsOn(recs, d) != [] ensures exists k :: 0 <= k < |r| && r[k].date == d {
      var k :| 0 <= k < |ds| && ds[k] == d;
      assert r[k].date == d;
    }
  }

  /** A listed date without records adds nothing... */
  lemma DailyAnalysesSkip(recs: seq<ActivityRecord>, dates: seq<string>, i: nat, host: Host, key: string)
    requires i < |dates| && RecordsOn(recs, dates[i]) == []
    ensures DailyAnalyses(recs, dates[..i + 1], host, key) == DailyAnalyses(recs, dates[..i], host, key)
  {
    var a := dates[..i + 1];
    assert a[..|a| - 1] == dates[..i] && a[|a| - 1] == dates[i];
  }

  /** ...and one with records adds its analysis. */
  lemma DailyAnalysesAdd(recs: seq<ActivityRecord>, dates: seq<string>, i: nat, host: Host, key: string)
    requires i < |dates| && RecordsOn(recs, dates[i]) != []
    ensures DailyAnalyses(recs, dates[..i + 1], host, key)
      == DailyAnalyses(recs, dates[..i], host, key) + [DayOf(recs, dates[i], host, key)]
  {
    var a := dates[..i + 1];
    assert a[..|a| - 1] == dates[..i] && a[|a| - 1] == dates[i];
    var after := ReportedDates(recs, dates[..i]) + [dates[i]];
    assert after[..|after| - 1] == ReportedDates(recs, dates[..i]);
  }

  /** A `dailyBreakdown` entry. */
  datatype DayBreakdown = DayBreakdown(date: string, activeHours: real, inactiveHours: real, totalHours: real, activityRate: real)

  /** A `MultiDayAnalysis` record. */
  datatype MultiDayAnalysis = MultiDayAnalysis(
    totalDays: nat, totalActiveHours: real, totalTrackedHours: real, totalInactiveHours: real,
    averageActiveHours: real, averageTotalHours: real, averageInactiveHours: real,
    overallActivityRate: real, dailyBreakdown: seq<DayBreakdown>)

  function Breakdown(a: DailyAnalysis): DayBreakdown {
    DayBreakdown(a.date, a.activeHours, a.inactiveHours, a.totalHours, a.activityRate)
  }

  /** The running sums of the `map` callback, over the already-rounded day values. */
  datatype Sums = Sums(active: real, tracked: real, inactive: real)

  function SumDays(days: seq<DailyAnalysis>): Sums {
    if days == [] then Sums(0.0, 0.0, 0.0)
    else
      var s := SumDays(days[..|days| - 1]);
      var a := days[|days| - 1];
      Sums(s.active + a.activeHours, s.tracked + a.totalHours, s.inactive + a.inactiveHours)
  }

  function Average(sum: real, n: nat): real {
    if n > 0 then sum / n as real else 0.0
  }

  /** The rollup of `analyzeMultiDate` over the day analyses. */
  function Rollup(days: seq<DailyAnalysis>): MultiDayAnalysis {
    var s := SumDays(days);
    var n := |days|;
    MultiDayAnalysis(n, Round2(s.active), Round2(s.tracked), Round2(s.inactive),
      Round2(Average(s.active, n)), Round2(Average(s.tracked, n)), Round2(Average(s.inactive, n)),
      Round1(if s.tracked > 0.0 then s.active / s.tracked * 100.0 else 0.0),
      seq(n, i requires 0 <= i < n => Breakdown(days[i])))
  }

  /** `analyzeMultiDate` on the fetched records. */
  function MultiDateAnalysis(fetched: Result<seq<ActivityRecord>>, dates: seq<string>, host: Host, key: string): Result<MultiDayAnalysis> {
    var recs :- fetched;
    Ok(Rollup(DailyAnalyses(recs, dates, host, key)))
  }

  /** The rollup breaks down each day as reported and totals the already-rounded day
      figures, rounding the sums once more; it counts the days it breaks down; with no day every average and the
      overall rate are 0; when every day has no more active than tracked time and none
      negative, the overall rate is a percentage. */
  lemma RollupMeaning(days: seq<DailyAnalysis>)
    ensures Rollup(days).totalDays == |Rollup(days).dailyBreakdown| == |days|
    ensures forall i :: 0 <= i < |days| ==> Rollup(days).dailyBreakdown[i] == Breakdown(days[i])
    ensures forall i :: 0 <= i < |days| ==> Rollup(days).dailyBreakdown[i].date == days[i].date
    ensures Rollup(days).totalActiveHours == Round2(SumDays(days).active)
    ensures Rollup(days).totalTrackedHours == Round2(SumDays(days).tracked)
    ensures Rollup(days).totalInactiveHours == Round2(SumDays(days).inactive)
    ensures days == [] ==>
      && Rollup(days).averageActiveHours == 0.0 && Rollup(days).averageTotalHours == 0.0
      && Rollup(days).averageInactiveHours == 0.0 && Rollup(days).overallActivityRate == 0.0
    ensures SumDays(days).tracked <= 0.0 ==> Rollup(days).overallActivityRate == 0.0
    ensures (forall i :: 0 <= i < |days| ==> 0.0 <= days[i].activeHours <= days[i].totalHours) ==>
      0.0 <= Rollup(days).overallActivityRate <= 100.0
  {
    assert Round1(0.0) == 0.0 by { assert JsRound(0.0) == 0; }
    if days == [] {
      assert Round2(0.0) == 0.0 by { assert JsRound(0.0) == 0; }
    }
    if forall i :: 0 <= i < |days| ==> 0.0 <= days[i].activeHours <= days[i].totalHours {
      SumDaysBounds(days);
      var s := SumDays(days);
      if s.tracked > 0.0 {
        RateIsPercent(s.active, s.tracked);
        Round1KeepsPercent(s.active / s.tracked * 100.0);
      } else {
        Round1KeepsPercent(0.0);
      }
    }
  }

  lemma {:induction false} SumDaysBounds(days: seq<DailyAnalysis>)
    requires forall i :: 0 <= i < |days| ==> 0.0 <= days[i].activeHours <= days[i].totalHours
    ensures 0.0 <= SumDays(days).active <= SumDays(days).tracked
  {
    if days != [] {
      SumDaysBounds(days[..|days| - 1]);
    }
  }

  /** A rounded day keeps active time within tracked time when the exact figures do,
      so the rollup's condition holds for days built from non-negative durations. */
  lemma ReportKeepsOrder(date: string, samples: seq<Sample>, host: Host, withTimes: bool)
    requires forall i :: 0 <= i < |samples| ==> samples[i].duration >= 0.0
    ensures var r := Report(date, Tally(samples), host, withTimes);
      0.0 <= r.activeHours <= r.totalHours && 0.0 <= r.activityRate <= 100.0
  {
    FiguresMeaning(samples);
    var f := FiguresOf(Tally(samples));
    var r := Report(date, Tally(samples), host, withTimes);
    assert r.activeHours == Round2(f.activeHours) && r.totalHours == Round2(f.totalHours);
    assert r.activityRate == Round1(f.activityRate);
    Round2Monotone(0.0, f.activeHours);
    Round2Monotone(f.activeHours, f.totalHours);
    Round1KeepsPercent(f.activityRate);
  }

  /** The reported total need not be the rounded sum of the reported active and inactive
      hours: 36 seconds, half of them active, report 0.01 total but 0.01 of each part. */
  lemma ReportPartsNotAdditive(host: Host)
    ensures var r := Report("", Totals(36.0, 18.0, 0.0, None, 0.0), host, false);
      r.totalHours == 0.01 && r.activeHours == 0.01 && r.inactiveHours == 0.01
      && r.totalHours != Round2(r.activeHours + r.inactiveHours)
  {
    var f := FiguresOf(Totals(36.0, 18.0, 0.0, None, 0.0));
    assert f.totalHours == 0.01 && f.activeHours == 0.005 && f.inactiveHours == 0.005;
    assert JsRound(1.0) == 1 && JsRound(0.5) == 1 && JsRound(2.0) == 2;
  }
}
