# Speech trainer core, modelled in Dafny

The speech trainer records a talk, has a language model score it, and shows
the score with four metrics: pace, filler words, clarity and vocabulary. It
keeps a history and a daily practice streak. This project models the parts of
the app that are logic rather than rendering or vendor I/O, and proves what
they promise:

- **Filler scan** (`fillers.dfy`, module `Fillers`). The transcript is
  lower-cased, a fixed set of punctuation becomes spaces, and white space is
  collapsed and trimmed. Each dictionary phrase is then counted as a whole run
  of words, left to right and without overlap. The phrases found are listed by
  count (stable sort, cut to three), and a total is reported. `ExtractFillers`
  keeps the source's loop that fills the `counts` record one phrase at a time.
- **Result screen arithmetic** (`progress.dfy`, module `Progress`). Covers:
  - the score's colour band and the hint chosen for each metric;
  - the coercion of raw metric values;
  - the filler count on the metric card;
  - the deltas against the previous session and the sign of their chips;
  - the one-line progress summary.
- **Session state** (`session.dfy`, module `Session`). The class
  `SessionState` holds:
  - the history list and its three browser-storage keys;
  - the "saved this session" flag, the displayed streak, the status, the view
    and the error banner.

  Its methods load history and streak, save a finished analysis at most once
  per recording, guard the analysis request and start a recording. The pure
  rules they use are separate functions with their own lemmas: history
  de-duplication and the cap of 50, the streak update, the newest-first sort,
  and the choice of comparison baseline.
- **Request helpers** (`utils.dfy`, module `Utils`). `FetchWithBackoff` is
  the retrying request, turned from recursion into a loop over an abstract
  sequence of attempt outcomes. It is proved equal to the recursive
  specification `Backoff`. `FormatTime` is the timer's `m:ss` display.
- **Server relay** (`relay.dfy`, module `Relay`). `Handle` is the
  serverless handler as a pure function of:
  - the request body and whether the API key is set;
  - the upstream reply;
  - a JSON-parse oracle.

  It runs the guard chain, joins the model's text parts, strips a code fence,
  and falls back to a fixed analysis when the text is not JSON.
- Shared pieces:
  - `types.dfy`: the analysis record.
  - `text.dfy`: JavaScript's `\s`, `trim`, word splitting and `join`.
  - `sorting.dfy`: the stable descending sort of `Array.prototype.sort`, with
    its ordering and stability lemmas.

Calendar days are integer day numbers, and "yesterday" is `today - 1`.
`toLowerCase` is a parameter. Dictionary phrases are sequences of words.

Lengths are JavaScript's: the transcript guards count UTF-16 code units
(`Text.Utf16Length`), so an emoji counts twice.

Several behaviours of the code are modelled as written, although they may
surprise a reader:

- History and streak are loaded only once sync is ready
  (src/App.tsx:137-142). So the local branches of `loadHistory` and
  `loadStreak` (src/App.tsx:145-155, 182-191) are never reached from that
  call site. `LoadHistory(false, …)` and `LoadStreak(false, …)` model those
  unreachable branches, as written. With sync off, nothing is loaded: the
  history starts empty and the streak at 0 after every page load.
- The analysis callback is memoised with no dependencies
  (src/App.tsx:300, 348). So it always calls the save of the first render,
  which sees an empty transcript (`Session.CapturedTranscript`), and no
  database or user. As a result:
  - every saved entry has an empty transcript;
  - de-duplication compares scores only (`EqualScoresAcrossRecordingsSaveOnce`);
  - the cloud copy of a save is never written.

  See Findings.
- With sync off, the first save after every page load compares the result
  with itself (`FirstSaveAfterLoad`, `BaselineAfterSave`). The history then
  has one entry. So the baseline is the stored last result, which was just
  overwritten with the current one.

## Model

| member | source | states |
|---|---|---|
| `Text.WordsOfJoin` | src/components/AnalysisResult.tsx:71-74 | splitting a single-space join of words gives the same words back, so collapsing white space loses nothing at word level |
| `Text.NormalFormIsStable` | src/components/AnalysisResult.tsx:71-74 | normalising an already normalised transcript gives the same word list |
| `Sorting.SortDesc` | src/components/AnalysisResult.tsx:82-84 | the sort is a permutation of its input (same multiset, same length) |
| `Sorting.SortDescNonIncreasing` | src/components/AnalysisResult.tsx:82-84 | the sorted list is in non-increasing key order |
| `Sorting.SortDescKeepsTies` | src/components/AnalysisResult.tsx:82-84 | stability: equal keys keep the order in which they were listed |
| `Fillers.HyphenatedWordStaysWhole` | src/components/AnalysisResult.tsx:71-74 | a word without stripped punctuation stays one token, so "ну-ну" is not split at the hyphen |
| `Fillers.Occurrences` | src/components/AnalysisResult.tsx:76-81 | non-overlapping matches of a k-word phrase number at most one k-th of the words |
| `Fillers.OccurrencesPositive` | src/components/AnalysisResult.tsx:76-81 | a phrase is counted at least once if and only if it occurs somewhere as a whole run of words |
| `Fillers.SingleWordOccurrences` | src/components/AnalysisResult.tsx:76-81 | a one-word phrase is counted once per equal word and never inside a longer word ("ну" not in "нужно", "э" not in "ээ") |
| `Fillers.NoOverlappingMatches` | src/components/AnalysisResult.tsx:76-81 | matches do not overlap: "ну ну ну" holds "ну ну" once |
| `Fillers.TallySound` | src/components/AnalysisResult.tsx:76-81 | every recorded entry is a dictionary phrase with its exact, positive count |
| `Fillers.TallyComplete` | src/components/AnalysisResult.tsx:76-81 | every dictionary phrase that occurs is recorded |
| `Fillers.TallyOrdered` | src/components/AnalysisResult.tsx:76-85 | the record lists phrases in dictionary order of first appearance |
| `Fillers.TallyDistinct` | src/components/AnalysisResult.tsx:76-81 | no phrase is recorded twice, even when the dictionary repeats it |
| `Fillers.TotalIsSumOfCounts` | src/components/AnalysisResult.tsx:86 | for a dictionary without repeats, the total is the sum of every phrase's count |
| `Fillers.TallySortedByCount` | src/components/AnalysisResult.tsx:82-84 | the sorted record is by count, largest first, with ties in dictionary order |
| `Fillers.TopThreeEntries` | src/components/AnalysisResult.tsx:82-85 | the top list has min(3, number of recorded phrases) entries, each a recorded phrase with its exact count of at least 1 |
| `Fillers.TopThreeOrder` | src/components/AnalysisResult.tsx:82-85 | counts do not increase along the top list, ties keep dictionary order, and no phrase left out counts more than one shown |
| `Fillers.EmptyTranscriptFindsNothing` | src/components/AnalysisResult.tsx:70 | an absent or empty transcript records nothing |
| `Fillers.ExtractFillers` | src/components/AnalysisResult.tsx:68-87 | the loop's list is the top three of the tally and its total is the tally's total; without repeated phrases that total is the sum of the phrase counts; an absent or empty transcript gives an empty list and 0 |
| `Fillers.TwoFillerSentence` | src/components/AnalysisResult.tsx:68-87 | in a sentence shaped like "ну, я, как бы, ну хотел сказать", the one-word filler counts 2 and the two-word filler 1 |
| `Fillers.WorkedExample` | src/components/AnalysisResult.tsx:69-87 | the raw sentence "Ну, я, как бы, ну хотел сказать", capital letter and commas included, scans with the dictionary's "ну" and "как бы" to ну ×2 then как бы ×1, total 3 |
| `Fillers.SentenceTally` | src/components/AnalysisResult.tsx:69-87 | any text that lower-cases to that sentence shape gives the one-word filler 2, the two-word filler 1, and a total of 3 |
| `Fillers.SentenceWords` | src/components/AnalysisResult.tsx:71-74 | the scan splits the sentence at its commas and spaces into exactly its seven words |
| `Fillers.PunctuationSeparatesWords` | src/components/AnalysisResult.tsx:72-74 | a stripped punctuation mark ends a word just as white space does: "ну," scans as "ну" followed by the words after the comma |
| `Fillers.SeparatorAddsNoWord` | src/components/AnalysisResult.tsx:72-74 | punctuation or white space in front of the text adds no word |
| `Progress.ToMetricValue` | src/components/AnalysisResult.tsx:96 | `Number(x) \|\| 0` keeps a finite number and turns NaN into 0 |
| `Progress.Coerce` | src/components/AnalysisResult.tsx:267 | a numeric raw value is kept; a missing or non-numeric one reads as 0 |
| `Progress.JsMax` | src/components/AnalysisResult.tsx:266 | `Math.max` with a NaN argument is NaN; otherwise it is the larger of the two |
| `Progress.DisplayedFillersAsWrittenLosesScan` | src/components/AnalysisResult.tsx:264-267 | as written, a non-numeric model count with 2 scanned fillers shows 0, while the intended rule shows 2 |
| `Progress.DisplayedFillers` | src/components/AnalysisResult.tsx:264-267 | the filler count shown is at least the coerced model count and at least the scanned total, and it equals one of them |
| `Progress.DisplayedFillersAgreeOnNumbers` | src/components/AnalysisResult.tsx:264-267 | for a missing or numeric model count, the code as written and the intended floor show the same number |
| `Progress.ScoreBand` | src/components/AnalysisResult.tsx:48-49 | green if and only if score ≥ 80; blue if and only if 60 ≤ score < 80; orange if and only if score < 60 |
| `Progress.Explain` | src/components/AnalysisResult.tsx:90-139 | the hint belongs to the asked metric, and its value range holds the coerced value |
| `Progress.RangesDisjoint` | src/components/AnalysisResult.tsx:96-138 | no value lies in two hint ranges of the same metric |
| `Progress.ExplainIsTheOnlyHint` | src/components/AnalysisResult.tsx:96-138 | the hint chosen is the one and only hint of the metric whose range holds the value |
| `Progress.Delta` | src/components/AnalysisResult.tsx:159-162 | no data if and only if either side is missing; otherwise previous + delta = current |
| `Progress.DeltaBetterWhenLower` | src/components/AnalysisResult.tsx:164-168 | swapping the arguments and negating cancels out: the result equals `Delta` for every input |
| `Progress.LowerPaceShowsAsFall` | src/components/AnalysisResult.tsx:164-168 | pace 100 after 150 gives -50 as written, while the intended delta gives +50 |
| `Progress.ImprovementWhenLower` | src/components/AnalysisResult.tsx:163-168 | no data if and only if either side is missing; positive exactly when the current value is lower |
| `Progress.TrendOfDelta` | src/components/AnalysisResult.tsx:169-196 | the chip is "no data", up, down or unchanged exactly as the current value is missing, higher, lower or equal |
| `Progress.CountGains` | src/components/AnalysisResult.tsx:360-366 | the gain count never exceeds the number of deltas |
| `Progress.CountGainsIsNumberOfGains` | src/components/AnalysisResult.tsx:360-366 | the gain count is the number of positions holding a strictly positive delta; missing ones are not counted |
| `Progress.VerdictOf` | src/components/AnalysisResult.tsx:367-371 | strong if and only if ≥ 3 gains, some if and only if 1-2, none if and only if 0 |
| `Progress.SummaryCountsRises` | src/components/AnalysisResult.tsx:360-366 | at most 5 gains, and the pace counts as a gain exactly when it rose |
| `Progress.IntendedSummaryCountsFalls` | src/components/AnalysisResult.tsx:163-166 | with the intended sign, fewer fillers and a lower pace are exactly what counts as gains |
| `Progress.SelfComparison` | src/components/AnalysisResult.tsx:359-372 | a result compared with itself is unchanged on all five chips, and the summary says no improvement |
| `Session.SaveToHistoryShape` | src/App.tsx:232-239 | the history is unchanged if and only if the entry repeats the newest score and transcript; otherwise the entry is in front, the rest is the start of the old list, and the length is min(old + 1, 50) |
| `Session.SaveToHistoryCapped` | src/App.tsx:236 | a history within the cap stays within it, and the new entry is in it unless it was a repeat |
| `Session.SaveToHistoryIdempotent` | src/App.tsx:234-236 | saving the same entry twice in a row equals saving it once |
| `Session.FullHistoryDropsOldest` | src/App.tsx:236 | on a full history the oldest entry is the one pushed out |
| `Session.SortNewestFirst` | src/App.tsx:174 | the loaded history is a permutation of the fetched one, in non-increasing timestamp order |
| `Session.NextStreak` | src/App.tsx:241-256 | the written record's last day is always today |
| `Session.ConsecutiveDaysCount` | src/App.tsx:241-256 | saving on n consecutive days, starting fresh or after a gap, gives a streak of n |
| `Session.SameDaySaveIsStable` | src/App.tsx:250-253 | further saves on the same day leave the record as the first save wrote it |
| `Session.SavedStreakIsShown` | src/App.tsx:198-208 | the synced load shows what a save wrote, on that day and the next, and 0 after a missed day |
| `Session.LongEnoughIgnoresPadding` | src/App.tsx:301 | white space around a transcript never decides whether it is analysed |
| `Session.PrevResult` | src/App.tsx:697-701 | the baseline is the second history entry when there are two or more; otherwise it exists exactly when the stored last result reads |
| `Session.BaselineAfterSave` | src/App.tsx:697-701 | right after a save, the baseline is the entry that was newest before it, or the result itself on a first-ever save |
| `Session.SessionState.constructor` | src/App.tsx:57-70 | a fresh page starts on the idle home screen with an empty list, no flag and streak 0, over the existing storage |
| `Session.SessionState.LoadHistory` | src/App.tsx:144-179 | the local path shows the stored list as saved; the synced path shows the fetched list sorted newest first; a failed read changes nothing; the stores never change |
| `Session.SessionState.LoadStreak` | src/App.tsx:181-213 | the local path shows the stored count; the synced path applies the today-or-yesterday rule; a missing record changes nothing; loading never writes a record |
| `Session.SessionState.PersistResultOnce` | src/App.tsx:215-261 | once the flag is set nothing changes; the first call sets it, saves the entry with de-duplication and cap, stores the list only when it changed, writes the next streak record, shows its count and stores the result as the last one |
| `Session.SessionState.BeginAnalysis` | src/App.tsx:300-309 | the request goes out if and only if the trimmed transcript has ≥ 10 UTF-16 code units; otherwise the error is set, status is idle and the view is home |
| `Session.SessionState.FinishAnalysis` | src/App.tsx:330-347 | a parsed result is shown with the error banner left alone. The first one per session saves exactly as `PersistResultOnce` does: history, stored list, streak record, shown streak and last result. A later one changes none of these. A failure sets the error and returns home, with history, streak and every store unchanged |
| `Session.SessionState.StartRecording` | src/App.tsx:350-356 | the saved flag is cleared and the previous analysis dropped even when the microphone then fails |
| `Session.SaveTwiceInOneSession` | src/App.tsx:216-217 | two analyses finished in one session add one history entry, the first |
| `Session.SaveAcrossSessions` | src/App.tsx:351 | after a new recording starts, the next analysis is saved again, provided entries carry the transcript that was analysed |
| `Session.EqualScoresAcrossRecordingsSaveOnce` | src/App.tsx:215-239 | as written, two recordings in a row with equal scores save one entry, whose transcript is empty |
| `Session.FirstSaveAfterLoad` | src/App.tsx:697-701 | with nothing loaded, the first save of a page load leaves one entry, and the progress baseline is that very result |
| `Session.FiveEmojiAreLongEnough` | src/App.tsx:301 | five emoji, a five-character text, pass the length guard because JavaScript counts ten units |
| `Text.Utf16Length` | src/App.tsx:301 | the JavaScript length lies between the character count and twice it, and equals the character count when every character is in the Basic Multilingual Plane |
| `Text.AstralCharactersCountTwice` | api/analyze.ts:5 | a text made only of characters beyond the Basic Multilingual Plane has twice as many code units as characters |
| `Utils.Backoff` | src/utils.ts:3-21 | at least 1 and at most max(retries, 0) + 1 attempts, with one pause between each two |
| `Utils.BackoffWaits` | src/utils.ts:15-16 | the k-th pause lasts delay · 2^k |
| `Utils.BackoffOutcome` | src/utils.ts:9-19 | every attempt but the last failed; the call succeeds exactly when the last attempt was ok, with its body; a failure uses up every retry and rethrows the last attempt's error |
| `Utils.FetchWithBackoff` | src/utils.ts:3-21 | the loop returns exactly what the recursive definition does: outcome, pauses and number of attempts |
| `Utils.DefaultScheduleWhenAllFail` | src/utils.ts:6-7 | with the defaults, the pauses are 1000, 2000 and 4000 ms and the fourth error is rethrown |
| `Utils.NoRetriesOneAttempt` | src/utils.ts:14-19 | with no retries there is exactly one attempt and no pause |
| `Utils.ThirdAttemptSucceeds` | src/utils.ts:9-16 | two failures of any kind and then success return the third body after pauses of 1000 and 2000 ms |
| `Utils.FailuresRetriedAlike` | src/utils.ts:10-14 | a bad status, a transport error and a body that is not JSON are retried alike: the same pauses and attempts, differing at most in the error |
| `Utils.Decimal` | src/utils.ts:26 | the numeral is a non-empty digit string, one digit long exactly when the number is below 10 |
| `Utils.PadTwo` | src/utils.ts:26 | padding a string of at most two characters gives exactly two |
| `Utils.FormatTime` | src/utils.ts:23-27 | the display is digits, a colon, and exactly two digits |
| `Utils.DecimalRoundTrip` | src/utils.ts:24-26 | reading the numeral back gives the number |
| `Utils.FormatTimeRoundTrip` | src/utils.ts:23-27 | the seconds field reads as seconds mod 60, and reading the display back as minutes · 60 + seconds gives the input |
| `Utils.FormatTimeInjective` | src/utils.ts:23-27 | two different durations never display alike |
| `Utils.FormatTimeExamples` | src/utils.ts:23-27 | 65 s shows as "1:05" and 600 s as "10:00" |
| `Relay.FallbackResult` | api/analyze.ts:33 | the fallback has score 0, all four metrics 0, no strengths and exactly one improvement |
| `Relay.PartTexts` | api/analyze.ts:27 | one text per part, in order; a part without text gives "" |
| `Relay.StripLeadingFence` | api/analyze.ts:28 | never lengthens the text, and text that does not open with a fence is unchanged |
| `Relay.StripTrailingFence` | api/analyze.ts:28 | removes exactly a closing fence at the very end, and otherwise leaves the text unchanged |
| `Relay.Handle` | api/analyze.ts:2-40 | a short or absent transcript gives 400; otherwise a missing key gives 500; status 200 exactly when both guards pass and upstream answered 2xx, with the parsed object or else the fallback; a non-2xx upstream status is passed through with `upstream_error`; a failed upstream `fetch` gives 500 `server_error` |
| `Relay.FiveEmojiPassTheGuard` | api/analyze.ts:5 | a transcript of five emoji passes the input guard, which counts UTF-16 code units |
| `Relay.GuardsPrecedeUpstream` | api/analyze.ts:4-11 | while the input or key guard fails, the answer does not depend on the upstream reply or the parser |
| `Relay.UnreadableBodyIsShort` | api/analyze.ts:4-6 | a body that is not JSON is answered like one without a transcript, with 400 |
| `Relay.SuccessfulRepliesAre200` | api/analyze.ts:23-36 | every non-error answer has status 200, and the fallback comes only for text the parser rejects |
| `Relay.UnfencedTextIsOnlyTrimmed` | api/analyze.ts:27-28 | text without fences is only trimmed |
| `Relay.FencedBlockGivesBody` | api/analyze.ts:27-28 | a fenced block with a letter tag yields its body and the newline before the closing fence |
| `Relay.FallbackShowsUnknownHints` | api/analyze.ts:33 | the fallback shows the orange band, the "could not determine" hint for pace, clarity and vocabulary, and the "no fillers found" hint |

## Left out

- Rendering: all JSX, the history panel, the metric cards' colours and the sparkline's floating-point geometry.
- Firebase initialisation, authentication and Firestore reads and writes. A synced load arrives as a parameter. The cloud copy written by a save is not modelled: it is a best-effort write whose failure the code ignores.
- The Firestore query's limit of 20 documents, and which 20 it returns. The fetched list is a parameter.
- localStorage and JSON. Each storage key holds a value, nothing, or something that does not parse. The parsing itself is not modelled.
- `Date` and `toDateString`, including the daylight-saving edge of `Date.now() - 86400000`. Days are integers.
- Speech recognition, `MediaRecorder`, timers, and the model request payload. The transcript reaches the model as a parameter.
- The other values the first render's save closes over are not modelled: the null recording URL, and the missing database and user that switch off its cloud write. The transcript it sees is modelled, as `Session.CapturedTranscript`.
- Lone UTF-16 surrogates. A Dafny character is a Unicode scalar value, so a JavaScript string holding an unpaired surrogate has no counterpart.
- Unicode `toLowerCase`. It is an abstract function on the transcript; the dictionary is not lower-cased, as in the code.
- Regular-expression semantics in general. Phrase matching is modelled on words. A dictionary phrase containing regex metacharacters would behave differently in the code.
- `Object.entries` ordering for integer-like keys. Dictionary phrases are words, so insertion order holds.
- Floating-point metric values and number formatting (`toFixed`, `%` on fractions). Values are integers.
- The hint and title texts, and the example list inside the filler hint. Hints are an enumeration.
- `formatTime` for negative or fractional input. The timer only counts whole seconds up from 0.
- Relay: the `prompt` field, the upstream request payload, and the `details` object in the upstream-error reply. A server error other than a failed upstream `fetch` is not modelled. A transcript field that is a non-string JSON value is not modelled either. Nor is a request body of JSON `null`: destructuring it throws, and the code answers 500 `server_error`, while the model treats every body without a string transcript as `Body(None)`, which gets 400.
- `Array.prototype.sort` works in place. It is modelled as a function on sequences, because only the sorted result is observed.
- `Fillers.TotalIsSumOfCounts` assumes a dictionary without repeated phrases. With a repeated phrase the code counts it once, and the model does the same (`Fillers.TallyDistinct`), but the total then differs from a per-entry sum.
- `Progress.DisplayedFillers` is the corrected display rule. The code as written is `Progress.DisplayedFillersAsWritten` (see Findings).

## Findings

| source | as written | input that shows it | evidently intended | confidence | as-written member | corrected member |
|---|---|---|---|---|---|---|
| src/components/AnalysisResult.tsx:264-267 | `Math.max` runs before the coercion to 0, so a non-numeric model count makes the whole maximum NaN, which then shows as 0 | model `fillerWords` = "n/a", with 2 fillers found in the transcript: the card shows 0 | the larger of the coerced model count and the scanned total, so the scan is a floor | medium, not executed | `Progress.DisplayedFillersAsWrittenLosesScan` | `Progress.DisplayedFillers` |
| src/components/AnalysisResult.tsx:163-168 | `deltaBetterWhenLower` swaps the arguments and then negates, which cancels out: it equals `delta` | pace 100 after 150: -50, a red chip and no gain in the summary | positive when the current value is lower, as the comments on lines 163 and 166 say | high, not executed | `Progress.LowerPaceShowsAsFall` | `Progress.ImprovementWhenLower` |
| src/App.tsx:300-348 | `runAnalysis` is memoised with an empty dependency list, so it calls the first render's `persistResultOnce`, whose `finalTranscript` is the initial `''` | two recordings in a row with different speech, both scored 72: the second save repeats the newest entry by score and empty transcript, so the history keeps one entry | each entry carries the transcript just analysed, so different recordings are both kept | high, not executed | `Session.EqualScoresAcrossRecordingsSaveOnce` | `Session.SaveAcrossSessions` |

The progress panel in this model (`Progress.ProgressDeltas`, `Progress.Summary`) keeps the as-written sign, because that is what the screen shows. `Progress.IntendedProgressDeltas` and `Progress.IntendedSummaryCountsFalls` give the corrected reading.
