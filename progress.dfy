/** How the result screen interprets numbers: the score colour band, the
    hint chosen for each metric, the filler count it displays, the trend of
    each metric against the previous session and the one-line summary. */
module Progress {
  import opened Types

  // ---------------------------------------------------------------------
  // Raw metric values
  // ---------------------------------------------------------------------

  /** A metric field as it arrives in the model's JSON: missing or null, a
      number (or a string `Number` reads as one), or something `Number` turns
      into NaN. */
  datatype RawNumber = Missing | Num(n: int) | NotNumeric

  /** A JavaScript number after `Number(...)`: finite, or NaN. */
  datatype JsNumber = Finite(v: int) | NaN

  /** `Number(raw || 0)`: a missing value falls back to 0 first. */
  function NumberOrZeroFirst(raw: RawNumber): JsNumber {
    match raw
    case Missing => Finite(0)
    case Num(n) => Finite(n)
    case NotNumeric => NaN
  }

  /** `Number(x) || 0`: NaN (and 0) become 0. */
  function ToMetricValue(x: JsNumber): (v: int)
    ensures x.Finite? ==> v == x.v
    ensures x.NaN? ==> v == 0
  {
    match x
    case Finite(n) => n
    case NaN => 0
  }

  /** The value a raw field stands for on the result screen: missing or
      non-numeric is 0. */
  function Coerce(raw: RawNumber): (v: int)
    ensures raw.Num? ==> v == raw.n
    ensures !raw.Num? ==> v == 0
  {
    ToMetricValue(NumberOrZeroFirst(raw))
  }

  /** `Math.max` on JavaScript numbers: NaN wins. */
  function JsMax(a: JsNumber, b: int): (r: JsNumber)
    ensures a.NaN? ==> r.NaN?
    ensures a.Finite? ==> r.Finite? && r.v >= a.v && r.v >= b && (r.v == a.v || r.v == b)
  {
    match a
    case NaN => NaN
    case Finite(x) => Finite(if x >= b then x else b)
  }

  /** The filler count the metric card shows, as written: the model's count
      and the scanned count go through `Math.max` before the coercion to 0. */
  function DisplayedFillersAsWritten(raw: RawNumber, scanned: nat): int {
    ToMetricValue(JsMax(NumberOrZeroFirst(raw), scanned))
  }

  /** A non-numeric model count makes `Math.max` return NaN, which then shows
      as 0 although the scan found fillers. */
  lemma DisplayedFillersAsWrittenLosesScan()
    ensures DisplayedFillersAsWritten(NotNumeric, 2) == 0
    ensures DisplayedFillers(NotNumeric, 2) == 2
  {
  }

  /** The filler count the metric card is meant to show: the larger of the
      model's count (missing or non-numeric as 0) and the scanned count, so
      the scan is a floor. */
  function DisplayedFillers(raw: RawNumber, scanned: nat): (r: int)
    ensures r >= Coerce(raw) && r >= scanned
    ensures r == Coerce(raw) || r == scanned
  {
    var ai := Coerce(raw);
    if ai >= scanned then ai else scanned
  }

  /** Wherever the model's count is missing or numeric, the code as written
      and the intended floor agree. */
  lemma DisplayedFillersAgreeOnNumbers(raw: RawNumber, scanned: nat)
    requires !raw.NotNumeric?
    ensures DisplayedFillersAsWritten(raw, scanned) == DisplayedFillers(raw, scanned)
  {
  }

  // ---------------------------------------------------------------------
  // Score band and metric hints
  // ---------------------------------------------------------------------

  datatype Band = Green | Blue | Orange

  /** `scoreBand`. A missing or non-numeric score compares false with every
      threshold, like 0 does, so it is Orange as well. */
  function ScoreBand(s: int): (b: Band)
    ensures b == Green <==> s >= 80
    ensures b == Blue <==> 60 <= s < 80
    ensures b == Orange <==> s < 60
  {
    if s >= 80 then Green else if s >= 60 then Blue else Orange
  }

  datatype MetricKey = Pace | FillerWords | Clarity | Vocabulary

  /** The hint texts of `explainMetric`, one constructor per text. */
  datatype Hint =
    | PaceUnknown | PaceCalm | PaceComfortable | PaceBrisk | PaceTooFast
    | FillersNone | FillersRare | FillersDistracting
    | ClarityUnknown | ClarityHigh | ClarityFair | ClarityLow
    | VocabularyUnknown | VocabularyRich | VocabularyGood | VocabularyRepetitive

  /** The metric a hint belongs to. */
  function MetricOf(h: Hint): MetricKey {
    match h
    case PaceUnknown | PaceCalm | PaceComfortable | PaceBrisk | PaceTooFast => Pace
    case FillersNone | FillersRare | FillersDistracting => FillerWords
    case ClarityUnknown | ClarityHigh | ClarityFair | ClarityLow => Clarity
    case VocabularyUnknown | VocabularyRich | VocabularyGood | VocabularyRepetitive => Vocabulary
  }

  /** The value range each hint is meant for, as closed and open intervals. */
  predicate InRange(h: Hint, v: int) {
    match h
    case PaceUnknown => v <= 0
    case PaceCalm => 0 < v < 120
    case PaceComfortable => 120 <= v <= 140
    case PaceBrisk => 140 < v <= 170
    case PaceTooFast => 170 < v
    case FillersNone => v <= 0
    case FillersRare => 0 < v <= 2
    case FillersDistracting => 2 < v
    case ClarityUnknown => v <= 0
    case ClarityHigh => 85 <= v
    case ClarityFair => 70 <= v < 85
    case ClarityLow => 0 < v < 70
    case VocabularyUnknown => v <= 0
    case VocabularyRich => 80 <= v
    case VocabularyGood => 60 <= v < 80
    case VocabularyRepetitive => 0 < v < 60
  }

  /** `explainMetric`: the hint for metric `k` at raw value `raw` (coerced with
      `Number(raw) || 0`). The hint belongs to `k` and its range holds the value. */
  function Explain(k: MetricKey, raw: RawNumber): (h: Hint)
    ensures MetricOf(h) == k && InRange(h, Coerce(raw))
  {
    var v := Coerce(raw);
    match k
    case Pace =>
      if v <= 0 then PaceUnknown
      else if v < 120 then PaceCalm
      else if v <= 140 then PaceComfortable
      else if v <= 170 then PaceBrisk
      else PaceTooFast
    case FillerWords =>
      if v <= 0 then FillersNone
      else if v <= 2 then FillersRare
      else FillersDistracting
    case Clarity =>
      if v <= 0 then ClarityUnknown
      else if v >= 85 then ClarityHigh
      else if v >= 70 then ClarityFair
      else ClarityLow
    case Vocabulary =>
      if v <= 0 then VocabularyUnknown
      else if v >= 80 then VocabularyRich
      else if v >= 60 then VocabularyGood
      else VocabularyRepetitive
  }

  /** The ranges of one metric do not overlap, so together with `Explain`'s
      contract every value has exactly one hint. */
  lemma RangesDisjoint(h1: Hint, h2: Hint, v: int)
    requires MetricOf(h1) == MetricOf(h2)
    requires InRange(h1, v) && InRange(h2, v)
    ensures h1 == h2
  {
  }

  /** Exactly one hint: `Explain` returns the only hint of `k` whose range
      holds the value. */
  lemma ExplainIsTheOnlyHint(k: MetricKey, raw: RawNumber, h: Hint)
    ensures Explain(k, raw) == h <==> MetricOf(h) == k && InRange(h, Coerce(raw))
  {
    if MetricOf(h) == k && InRange(h, Coerce(raw)) {
      RangesDisjoint(h, Explain(k, raw), Coerce(raw));
    }
  }

  // ---------------------------------------------------------------------
  // Deltas against the previous session
  // ---------------------------------------------------------------------

  /** `delta`: no data when either side is missing, the difference otherwise. */
  function Delta(current: Option<int>, prev: Option<int>): (d: Option<int>)
    ensures d.None? <==> current.None? || prev.None?
    ensures d.Some? ==> prev.value + d.value == current.value
  {
    if current.None? || prev.None? then None else Some(current.value - prev.value)
  }

  /** `deltaBetterWhenLower` as written: the arguments are swapped and the
      difference negated, which cancels out; it is `Delta` itself. */
  function DeltaBetterWhenLower(current: Option<int>, prev: Option<int>): (d: Option<int>)
    ensures d == Delta(current, prev)
  {
    var swapped := Delta(prev, current);
    if swapped.None? then None else Some(-swapped.value)
  }

  /** A lower pace than last time shows as a fall, not as an improvement. */
  lemma LowerPaceShowsAsFall()
    ensures DeltaBetterWhenLower(Some(100), Some(150)) == Some(-50)
    ensures ImprovementWhenLower(Some(100), Some(150)) == Some(50)
  {
  }

  /** The evidently intended delta for metrics where less is better:
      positive exactly when the current value is lower. */
  function ImprovementWhenLower(current: Option<int>, prev: Option<int>): (d: Option<int>)
    ensures d.None? <==> current.None? || prev.None?
    ensures d.Some? ==> (d.value > 0 <==> current.value < prev.value)
    ensures d.Some? ==> d.value + current.value == prev.value
  {
    Delta(prev, current)
  }

  datatype Trend = NoData | Up | Down | Unchanged

  /** `trendChip`'s choice of chip. */
  function TrendOf(d: Option<int>): Trend {
    match d
    case None => NoData
    case Some(v) => if v > 0 then Up else if v < 0 then Down else Unchanged
  }

  /** The chip of a delta against the two raw values: an arrow up exactly
      when the current value is higher, down exactly when it is lower. */
  lemma TrendOfDelta(current: Option<int>, prev: Option<int>)
    ensures TrendOf(Delta(current, prev)) == NoData <==> current.None? || prev.None?
    ensures TrendOf(Delta(current, prev)) == Up <==> current.Some? && prev.Some? && current.value > prev.value
    ensures TrendOf(Delta(current, prev)) == Down <==> current.Some? && prev.Some? && current.value < prev.value
    ensures TrendOf(Delta(current, prev)) == Unchanged <==> current.Some? && prev.Some? && current.value == prev.value
  {
  }

  /** What the progress panel compares: the score and the four metrics,
      each possibly missing. */
  datatype Snapshot = Snapshot(
    score: Option<int>, pace: Option<int>, fillerWords: Option<int>,
    clarity: Option<int>, vocabulary: Option<int>)

  function SnapshotOf(r: AnalysisResult): Snapshot {
    Snapshot(Some(r.score), Some(r.metrics.pace), Some(r.metrics.fillerWords),
             Some(r.metrics.clarity), Some(r.metrics.vocabulary))
  }

  /** The five deltas the summary counts, in the order the code lists them. */
  function ProgressDeltas(cur: Snapshot, prev: Snapshot): seq<Option<int>> {
    [ Delta(cur.score, prev.score),
      Delta(cur.clarity, prev.clarity),
      Delta(cur.vocabulary, prev.vocabulary),
      DeltaBetterWhenLower(cur.fillerWords, prev.fillerWords),
      DeltaBetterWhenLower(cur.pace, prev.pace) ]
  }

  /** The same five deltas with the intended sign for fillers and pace. */
  function IntendedProgressDeltas(cur: Snapshot, prev: Snapshot): seq<Option<int>> {
    [ Delta(cur.score, prev.score),
      Delta(cur.clarity, prev.clarity),
      Delta(cur.vocabulary, prev.vocabulary),
      ImprovementWhenLower(cur.fillerWords, prev.fillerWords),
      ImprovementWhenLower(cur.pace, prev.pace) ]
  }

  /** `filter(n => n > 0).length` after `?? 0`: missing deltas count as 0 and
      are not counted. */
  function CountGains(ds: seq<Option<int>>): (n: nat)
    ensures n <= |ds|
  {
    if ds == [] then 0
    else CountGains(ds[..|ds| - 1]) + (if IsGain(ds[|ds| - 1]) then 1 else 0)
  }

  predicate IsGain(d: Option<int>) {
    d.Some? && d.value > 0
  }

  function GainPositions(ds: seq<Option<int>>): set<nat> {
    set i: nat | i < |ds| && IsGain(ds[i])
  }

  /** The gain count is the number of positions holding a strictly positive delta. */
  lemma {:induction false} CountGainsIsNumberOfGains(ds: seq<Option<int>>)
    ensures CountGains(ds) == |GainPositions(ds)|
  {
    if ds != [] {
      var init := ds[..|ds| - 1];
      CountGainsIsNumberOfGains(init);
      var last := |ds| - 1;
      assert GainPositions(init) == set i: nat | i < last && IsGain(ds[i]);
      if IsGain(ds[last]) {
        assert GainPositions(ds) == GainPositions(init) + {last};
      } else {
        assert GainPositions(ds) == GainPositions(init);
      }
    }
  }

  datatype Verdict = StrongProgress | SomeProgress | NoImprovement

  function VerdictOf(gains: nat): (v: Verdict)
    ensures v == StrongProgress <==> gains >= 3
    ensures v == SomeProgress <==> 1 <= gains <= 2
    ensures v == NoImprovement <==> gains == 0
  {
    if gains >= 3 then StrongProgress else if gains >= 1 then SomeProgress else NoImprovement
  }

  /** The summary line under the progress panel. */
  function Summary(cur: Snapshot, prev: Snapshot): (v: Verdict) {
    VerdictOf(CountGains(ProgressDeltas(cur, prev)))
  }

  /** The gain count is between 0 and 5, and it counts a lower pace or fewer
      fillers as a gain never, a higher one always (the as-written sign). */
  lemma SummaryCountsRises(cur: Snapshot, prev: Snapshot)
    requires cur.pace.Some? && prev.pace.Some?
    ensures CountGains(ProgressDeltas(cur, prev)) <= 5
    ensures 4 in GainPositions(ProgressDeltas(cur, prev)) <==> cur.pace.value > prev.pace.value
  {
  }

  /** With the intended sign, fewer fillers and a lower pace are what count
      as gains. */
  lemma IntendedSummaryCountsFalls(cur: Snapshot, prev: Snapshot)
    requires cur.pace.Some? && prev.pace.Some? && cur.fillerWords.Some? && prev.fillerWords.Some?
    ensures 3 in GainPositions(IntendedProgressDeltas(cur, prev)) <==> cur.fillerWords.value < prev.fillerWords.value
    ensures 4 in GainPositions(IntendedProgressDeltas(cur, prev)) <==> cur.pace.value < prev.pace.value
    ensures CountGains(IntendedProgressDeltas(cur, prev)) <= 5
  {
  }

  /** A session compared with itself shows no change on any metric and no
      improvement. */
  lemma SelfComparison(r: AnalysisResult)
    ensures forall i :: 0 <= i < 5 ==> TrendOf(ProgressDeltas(SnapshotOf(r), SnapshotOf(r))[i]) == Unchanged
    ensures Summary(SnapshotOf(r), SnapshotOf(r)) == NoImprovement
  {
    var ds := ProgressDeltas(SnapshotOf(r), SnapshotOf(r));
    assert forall i :: 0 <= i < 5 ==> ds[i] == Some(0);
    CountGainsIsNumberOfGains(ds);
    assert GainPositions(ds) == {};
  }
}
