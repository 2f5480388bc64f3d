/** The recording-session state of the app: the saved-this-session flag,
    the history list with its de-duplication and cap, the daily streak, the
    length guard before an analysis is requested and the choice of the
    previous result the progress panel compares with. Calendar days are
    integer day numbers; "yesterday" is `today - 1`. */
module Session {
  import opened Types
  import opened Text
  import Sorting

  /** One saved analysis. `timestamp` is the save time in milliseconds. */
  datatype HistoryEntry = HistoryEntry(id: string, timestamp: int, transcript: string, result: AnalysisResult)
  {
    /** The score column the list shows, copied from the analysis. */
    function Score(): int { result.score }
  }

  datatype StreakRecord = StreakRecord(count: int, lastDay: int)

  /** A browser-storage key: not set, set to something that does not parse,
      or holding a value. */
  datatype Stored<T> = Absent | Unreadable | Present(value: T)

  datatype Status = Idle | Recording | Processing
  datatype View = Home | RecordingView | ResultView

  /** The error banner. */
  datatype Notice = NoNotice | TooShort | DeviceFailed | AnalysisFailed

  const HistoryCap: nat := 50

  // ---------------------------------------------------------------------
  // History
  // ---------------------------------------------------------------------

  /** The newest entry already holds this score and transcript. */
  predicate RepeatsNewest(history: seq<HistoryEntry>, entry: HistoryEntry) {
    |history| > 0 && history[0].Score() == entry.Score() && history[0].transcript == entry.transcript
  }

  /** The history after a save: unchanged when the entry repeats the newest
      one, otherwise the entry in front of the old list, cut to the cap. */
  function SaveToHistory(history: seq<HistoryEntry>, entry: HistoryEntry): seq<HistoryEntry> {
    if RepeatsNewest(history, entry) then history
    else
      var next := [entry] + history;
      if |next| <= HistoryCap then next else next[..HistoryCap]
  }

  /** A save leaves the history unchanged exactly when the entry repeats the
      newest one; otherwise the entry is in front, the rest is the start of
      the old list, and the length grows by one up to the cap. */
  lemma SaveToHistoryShape(history: seq<HistoryEntry>, entry: HistoryEntry)
    ensures SaveToHistory(history, entry) == history <==> RepeatsNewest(history, entry)
    ensures !RepeatsNewest(history, entry) ==>
      var r := SaveToHistory(history, entry);
      && |r| == (if |history| + 1 <= HistoryCap then |history| + 1 else HistoryCap)
      && r[0] == entry
      && r[1..] == history[..|r| - 1]
  {
    var r := SaveToHistory(history, entry);
    if !RepeatsNewest(history, entry) {
      assert r[0] == entry;
      if |history| > 0 {
        assert r[0].Score() != history[0].Score() || r[0].transcript != history[0].transcript;
      }
    }
  }

  /** Saving never takes the history past the cap. */
  lemma SaveToHistoryCapped(history: seq<HistoryEntry>, entry: HistoryEntry)
    requires |history| <= HistoryCap
    ensures |SaveToHistory(history, entry)| <= HistoryCap
    ensures entry in SaveToHistory(history, entry) || RepeatsNewest(history, entry)
  {
    if !RepeatsNewest(history, entry) {
      assert SaveToHistory(history, entry)[0] == entry;
    }
  }

  /** Saving the same entry twice in a row has the effect of saving it once. */
  lemma SaveToHistoryIdempotent(history: seq<HistoryEntry>, entry: HistoryEntry)
    ensures SaveToHistory(SaveToHistory(history, entry), entry) == SaveToHistory(history, entry)
  {
    if !RepeatsNewest(history, entry) {
      assert SaveToHistory(history, entry)[0] == entry;
    }
  }

  /** On a full history a new entry pushes out exactly the oldest one. */
  lemma FullHistoryDropsOldest(history: seq<HistoryEntry>, entry: HistoryEntry)
    requires |history| == HistoryCap && !RepeatsNewest(history, entry)
    ensures SaveToHistory(history, entry) == [entry] + history[..HistoryCap - 1]
    ensures history[HistoryCap - 1] !in SaveToHistory(history, entry)[1..] ||
            history[HistoryCap - 1] in history[..HistoryCap - 1]
  {
    assert ([entry] + history)[..HistoryCap] == [entry] + history[..HistoryCap - 1];
  }

  function Timestamp(e: HistoryEntry): int { e.timestamp }

  /** The in-memory sort of the fetched history, newest first. Entries with
      the same timestamp keep their fetched order (the sort is stable). */
  function SortNewestFirst(fetched: seq<HistoryEntry>): (r: seq<HistoryEntry>)
    ensures multiset(r) == multiset(fetched)
    ensures forall i, j :: 0 <= i < j < |r| ==> r[i].timestamp >= r[j].timestamp
  {
    Sorting.SortDescNonIncreasing(fetched, Timestamp);
    Sorting.SortDesc(fetched, Timestamp)
  }

  // ---------------------------------------------------------------------
  // Streak
  // ---------------------------------------------------------------------

  /** The streak record written on a save: the same count when the last save
      was today, one more when it was yesterday, and 1 after a gap, without a
      record or when the record does not parse. */
  function NextStreak(stored: Stored<StreakRecord>, today: int): (r: StreakRecord)
    ensures r.lastDay == today
  {
    match stored
    case Present(s) =>
      if s.lastDay == today then StreakRecord(s.count, today)
      else if s.lastDay == today - 1 then StreakRecord(s.count + 1, today)
      else StreakRecord(1, today)
    case _ => StreakRecord(1, today)
  }

  /** The streak the synced load shows for a stored record: its count while
      the last save was today or yesterday, 0 once a day has been missed. */
  function ShownStreak(r: StreakRecord, today: int): int {
    if r.lastDay == today || r.lastDay == today - 1 then r.count else 0
  }

  /** Each save on a later day is `NextStreak` on the previous record. */
  function StreakAfterDays(stored: Stored<StreakRecord>, firstDay: int, days: nat): StreakRecord
    requires days > 0
  {
    if days == 1 then NextStreak(stored, firstDay)
    else NextStreak(Present(StreakAfterDays(stored, firstDay, days - 1)), firstDay + days - 1)
  }

  /** Saving on `n` consecutive days, starting without a record or after a
      gap, gives a streak of `n`. */
  lemma {:induction false} ConsecutiveDaysCount(stored: Stored<StreakRecord>, firstDay: int, days: nat)
    requires days > 0
    requires !(stored.Present? && (stored.value.lastDay == firstDay || stored.value.lastDay == firstDay - 1))
    ensures StreakAfterDays(stored, firstDay, days) == StreakRecord(days, firstDay + days - 1)
  {
    if days > 1 {
      ConsecutiveDaysCount(stored, firstDay, days - 1);
    }
  }

  /** Further saves on the same day leave the record as the first save of
      the day wrote it. */
  lemma SameDaySaveIsStable(stored: Stored<StreakRecord>, today: int)
    ensures NextStreak(Present(NextStreak(stored, today)), today) == NextStreak(stored, today)
  {
  }

  /** What a save writes is what a load shows on that day and the next, and a
      load after a missed day shows 0. */
  lemma SavedStreakIsShown(stored: Stored<StreakRecord>, today: int, later: int)
    ensures ShownStreak(NextStreak(stored, today), today) == NextStreak(stored, today).count
    ensures ShownStreak(NextStreak(stored, today), today + 1) == NextStreak(stored, today).count
    ensures later >= today + 2 ==> ShownStreak(NextStreak(stored, today), later) == 0
  {
  }

  // ---------------------------------------------------------------------
  // Analysis guard and comparison baseline
  // ---------------------------------------------------------------------

  /** The transcript is long enough to be analysed: at least 10 UTF-16 code
      units (JavaScript's `length`) once surrounding white space is trimmed. */
  predicate LongEnough(text: string) {
    Utf16Length(Trim(text)) >= 10
  }

  /** Five emoji pass the guard: each is two UTF-16 code units, although the
      text has only five characters. */
  lemma FiveEmojiAreLongEnough()
    ensures var text := "\U{1F600}\U{1F600}\U{1F600}\U{1F600}\U{1F600}";
      |text| == 5 && LongEnough(text)
  {
    var text := "\U{1F600}\U{1F600}\U{1F600}\U{1F600}\U{1F600}";
    assert Trim(text) == text;
    AstralCharactersCountTwice(text);
  }

  /** White space around a transcript never decides whether it is analysed. */
  lemma LongEnoughIgnoresPadding(text: string, pad1: string, pad2: string)
    requires forall i :: 0 <= i < |pad1| ==> IsSpace(pad1[i])
    requires forall i :: 0 <= i < |pad2| ==> IsSpace(pad2[i])
    ensures LongEnough(pad1 + text + pad2) <==> LongEnough(text)
  {
    TrimAroundPadding(text, pad1, pad2);
  }

  lemma {:induction false} TrimStartPadding(text: string, pad: string)
    requires forall i :: 0 <= i < |pad| ==> IsSpace(pad[i])
    ensures TrimStart(pad + text) == TrimStart(text)
  {
    if pad != [] {
      assert (pad + text)[0] == pad[0] && IsSpace(pad[0]);
      assert (pad + text)[1..] == pad[1..] + text;
      assert TrimStart(pad + text) == TrimStart(pad[1..] + text);
      TrimStartPadding(text, pad[1..]);
    } else {
      assert pad + text == text;
    }
  }

  lemma {:induction false} TrimEndPadding(text: string, pad: string)
    requires forall i :: 0 <= i < |pad| ==> IsSpace(pad[i])
    ensures TrimEnd(text + pad) == TrimEnd(text)
  {
    if pad != [] {
      var s := text + pad;
      assert s[|s| - 1] == pad[|pad| - 1] && IsSpace(pad[|pad| - 1]);
      assert s[..|s| - 1] == text + pad[..|pad| - 1];
      assert TrimEnd(s) == TrimEnd(text + pad[..|pad| - 1]);
      TrimEndPadding(text, pad[..|pad| - 1]);
    } else {
      assert text + pad == text;
    }
  }

  /** Trimming is blind to white space added on either side. */
  lemma TrimAroundPadding(text: string, pad1: string, pad2: string)
    requires forall i :: 0 <= i < |pad1| ==> IsSpace(pad1[i])
    requires forall i :: 0 <= i < |pad2| ==> IsSpace(pad2[i])
    ensures Trim(pad1 + text + pad2) == Trim(text)
  {
    var inner := text + pad2;
    assert pad1 + text + pad2 == pad1 + inner;
    calc {
      Trim(pad1 + inner);
      TrimEnd(TrimStart(pad1 + inner));
      { TrimStartPadding(inner, pad1); }
      TrimEnd(TrimStart(inner));
      { TrimStartSuffix(text, pad2); }
      TrimEnd(TrimStart(text) + pad2);
      { TrimEndPadding(TrimStart(text), pad2); }
      TrimEnd(TrimStart(text));
    }
  }

  lemma {:induction false} TrimStartSuffix(text: string, pad: string)
    requires forall i :: 0 <= i < |pad| ==> IsSpace(pad[i])
    ensures TrimEnd(TrimStart(text + pad)) == TrimEnd(TrimStart(text) + pad)
  {
    if text == [] {
      TrimStartPadding([], pad);
      assert pad == pad + [];
      TrimEndPadding([], pad);
      assert TrimStart(pad) == TrimStart(pad + []);
      assert TrimEnd(TrimStart(pad)) == [];
      TrimEndAllSpace(pad);
    } else if IsSpace(text[0]) {
      assert (text + pad)[0] == text[0];
      assert (text + pad)[1..] == text[1..] + pad;
      TrimStartSuffix(text[1..], pad);
    } else {
      assert (text + pad)[0] == text[0];
    }
  }

  lemma {:induction false} TrimEndAllSpace(pad: string)
    requires forall i :: 0 <= i < |pad| ==> IsSpace(pad[i])
    ensures TrimEnd(pad) == []
  {
    if pad != [] {
      TrimEndAllSpace(pad[..|pad| - 1]);
    }
  }

  /** The result the progress panel compares with: the second newest history
      entry when there are at least two, otherwise the stored last result,
      if it reads. */
  function PrevResult(history: seq<HistoryEntry>, storedLast: Stored<AnalysisResult>): (r: Option<AnalysisResult>)
    ensures |history| > 1 ==> r == Some(history[1].result)
    ensures |history| <= 1 ==> (r.Some? <==> storedLast.Present?)
  {
    if |history| > 1 then Some(history[1].result)
    else if storedLast.Present? then Some(storedLast.value)
    else None
  }

  // ---------------------------------------------------------------------
  // The session state
  // ---------------------------------------------------------------------

  class SessionState {
    /** The list the history panel shows, newest first. */
    var history: seq<HistoryEntry>
    /** The three browser-storage keys the app keeps. */
    var storedHistory: Stored<seq<HistoryEntry>>
    var storedStreak: Stored<StreakRecord>
    var storedLast: Stored<AnalysisResult>
    /** Set by the first save after a recording starts. */
    var savedThisSession: bool
    /** The streak on display. */
    var streak: int
    var status: Status
    var view: View
    var error: Notice
    var analysis: Option<AnalysisResult>

    /** A fresh page over whatever the browser storage already holds. */
    constructor(storedHistory: Stored<seq<HistoryEntry>>, storedStreak: Stored<StreakRecord>, storedLast: Stored<AnalysisResult>)
      ensures this.storedHistory == storedHistory && this.storedStreak == storedStreak && this.storedLast == storedLast
      ensures history == [] && !savedThisSession && streak == 0
      ensures status == Idle && view == Home && error == NoNotice && analysis == None
    {
      this.storedHistory := storedHistory;
      this.storedStreak := storedStreak;
      this.storedLast := storedLast;
      history := [];
      savedThisSession := false;
      streak := 0;
      status := Idle;
      view := Home;
      error := NoNotice;
      analysis := None;
    }

    /** Loads the history list. Without the cloud it is the stored list as
        saved; with it, the fetched documents sorted newest first. A stored
        list that does not read or a failed fetch leaves the list as it is. */
    method LoadHistory(cloud: bool, fetched: Option<seq<HistoryEntry>>)
      modifies this
      ensures !cloud ==> history == (if old(storedHistory).Present? then old(storedHistory).value else old(history))
      ensures cloud ==> history == (if fetched.Some? then SortNewestFirst(fetched.value) else old(history))
      ensures storedHistory == old(storedHistory) && storedStreak == old(storedStreak) && storedLast == old(storedLast)
      ensures savedThisSession == old(savedThisSession) && streak == old(streak)
      ensures status == old(status) && view == old(view) && error == old(error) && analysis == old(analysis)
    {
      if !cloud {
        if storedHistory.Present? {
          history := storedHistory.value;
        }
      } else if fetched.Some? {
        history := SortNewestFirst(fetched.value);
      }
    }

    /** Loads the streak on display. Without the cloud the stored count is
        shown whatever day it was saved on; with it, the synced record goes
        through `ShownStreak`. A missing or unreadable record changes nothing.
        Loading never writes a record. */
    method LoadStreak(cloud: bool, cloudRecord: Option<StreakRecord>, today: int)
      modifies this
      ensures !cloud ==> streak == (if old(storedStreak).Present? then old(storedStreak).value.count else old(streak))
      ensures cloud ==> streak == (if cloudRecord.Some? then ShownStreak(cloudRecord.value, today) else old(streak))
      ensures storedHistory == old(storedHistory) && storedStreak == old(storedStreak) && storedLast == old(storedLast)
      ensures history == old(history) && savedThisSession == old(savedThisSession)
      ensures status == old(status) && view == old(view) && error == old(error) && analysis == old(analysis)
    {
      if !cloud {
        if storedStreak.Present? {
          streak := storedStreak.value.count;
        }
      } else if cloudRecord.Some? {
        streak := ShownStreak(cloudRecord.value, today);
      }
    }

    /** Saves a finished analysis at most once per recording: the first call
        after `StartRecording` sets the flag, adds the entry to the history
        (and its stored copy) unless it repeats the newest one, writes the
        next streak record and remembers the result as the last one; later
        calls change nothing. */
    method PersistResultOnce(result: AnalysisResult, transcript: string, id: string, timestamp: int, today: int)
      modifies this
      ensures old(savedThisSession) ==>
        && history == old(history) && storedHistory == old(storedHistory)
        && storedStreak == old(storedStreak) && storedLast == old(storedLast) && streak == old(streak)
      ensures savedThisSession
      ensures !old(savedThisSession) ==>
        var entry := HistoryEntry(id, timestamp, transcript, result);
        && history == SaveToHistory(old(history), entry)
        && storedHistory == (if RepeatsNewest(old(history), entry) then old(storedHistory) else Present(history))
        && storedStreak == Present(NextStreak(old(storedStreak), today))
        && streak == NextStreak(old(storedStreak), today).count
        && storedLast == Present(result)
      ensures status == old(status) && view == old(view) && error == old(error) && analysis == old(analysis)
    {
      if savedThisSession {
        return;
      }
      savedThisSession := true;
      var entry := HistoryEntry(id, timestamp, transcript, result);
      if !RepeatsNewest(history, entry) {
        history := SaveToHistory(history, entry);
        storedHistory := Present(history);
      }
      var record := NextStreak(storedStreak, today);
      storedStreak := Present(record);
      streak := record.count;
      storedLast := Present(result);
    }

    /** The guard in front of an analysis request: a transcript shorter than
        10 characters after trimming sets the error, returns to the home
        screen and sends nothing; otherwise the app shows that it is
        processing and the request goes out. */
    method BeginAnalysis(text: string) returns (requestSent: bool)
      modifies this
      ensures requestSent <==> LongEnough(text)
      ensures !requestSent ==> error == TooShort && status == Idle && view == Home
      ensures requestSent ==> error == NoNotice && status == Processing && view == old(view)
      ensures history == old(history) && savedThisSession == old(savedThisSession) && streak == old(streak)
      ensures storedHistory == old(storedHistory) && storedStreak == old(storedStreak) && storedLast == old(storedLast)
      ensures analysis == old(analysis)
    {
      requestSent := LongEnough(text);
      if !requestSent {
        error := TooShort;
        status := Idle;
        view := Home;
      } else {
        status := Processing;
        error := NoNotice;
      }
    }

    /** The end of an analysis request: a parsed result is shown and saved
        once; no result (a failed request, no candidate text or text that
        does not parse) sets the error and returns to the home screen.
        `transcript` is the value the save sees; in the app as written that
        is always `CapturedTranscript`. */
    method FinishAnalysis(reply: Option<AnalysisResult>, transcript: string, id: string, timestamp: int, today: int)
      modifies this
      ensures reply.None? ==>
        && error == AnalysisFailed && status == Idle && view == Home
        && history == old(history) && savedThisSession == old(savedThisSession) && analysis == old(analysis)
        && storedHistory == old(storedHistory) && storedStreak == old(storedStreak) && storedLast == old(storedLast)
        && streak == old(streak)
      ensures reply.Some? ==>
        && analysis == reply && status == Idle && view == ResultView && savedThisSession && error == old(error)
      ensures reply.Some? && !old(savedThisSession) ==>
        var entry := HistoryEntry(id, timestamp, transcript, reply.value);
        && history == SaveToHistory(old(history), entry)
        && storedHistory == (if RepeatsNewest(old(history), entry) then old(storedHistory) else Present(history))
        && storedStreak == Present(NextStreak(old(storedStreak), today))
        && streak == NextStreak(old(storedStreak), today).count
        && storedLast == Present(reply.value)
      ensures reply.Some? && old(savedThisSession) ==>
        && history == old(history) && storedHistory == old(storedHistory)
        && storedStreak == old(storedStreak) && streak == old(streak) && storedLast == old(storedLast)
    {
      if reply.None? {
        error := AnalysisFailed;
        status := Idle;
        view := Home;
        return;
      }
      analysis := reply;
      status := Idle;
      view := ResultView;
      PersistResultOnce(reply.value, transcript, id, timestamp, today);
    }

    /** Starting a recording opens a new session: the saved flag is cleared
        before anything else, so the next analysis is saved again. Without a
        microphone or speech recognition the app falls back to the home
        screen with an error, but the flag stays cleared. */
    method StartRecording(deviceOk: bool)
      modifies this
      ensures !savedThisSession && analysis == None
      ensures deviceOk ==> status == Recording && view == RecordingView && error == NoNotice
      ensures !deviceOk ==> status == Idle && view == Home && error == DeviceFailed
      ensures history == old(history) && streak == old(streak)
      ensures storedHistory == old(storedHistory) && storedStreak == old(storedStreak) && storedLast == old(storedLast)
    {
      savedThisSession := false;
      status := Recording;
      view := RecordingView;
      error := NoNotice;
      analysis := None;
      if !deviceOk {
        error := DeviceFailed;
        status := Idle;
        view := Home;
      }
    }
  }

  /** Two analyses finished in one recording session add one history entry. */
  method SaveTwiceInOneSession(s: SessionState, r1: AnalysisResult, r2: AnalysisResult, t: string, today: int)
    modifies s
    requires !s.savedThisSession && s.history == []
    ensures |s.history| == 1 && s.history[0].result == r1
  {
    s.PersistResultOnce(r1, t, "a", 1, today);
    s.PersistResultOnce(r2, t, "b", 2, today);
  }

  /** The transcript every save receives in the app as written: the analysis
      callback is memoised without dependencies, so it keeps calling the save
      of the first render, which sees the initial empty transcript. */
  const CapturedTranscript: string := ""

  /** As written, two recordings in a row whose analyses get the same score
      save one history entry: both entries carry the captured empty
      transcript, so the second repeats the newest one. */
  method EqualScoresAcrossRecordingsSaveOnce(s: SessionState, r1: AnalysisResult, r2: AnalysisResult, today: int)
    modifies s
    requires s.history == [] && r1.score == r2.score
    ensures |s.history| == 1 && s.history[0].result == r1 && s.history[0].transcript == ""
  {
    s.StartRecording(true);
    s.FinishAnalysis(Some(r1), CapturedTranscript, "a", 1, today);
    s.StartRecording(true);
    s.FinishAnalysis(Some(r2), CapturedTranscript, "b", 2, today);
  }

  /** With sync off nothing is loaded on a page load, so the first save after
      it compares the result with itself: the history holds that one entry
      and the stored last result has just been overwritten with it. */
  method FirstSaveAfterLoad(storedHistory: Stored<seq<HistoryEntry>>, storedStreak: Stored<StreakRecord>,
                            storedLast: Stored<AnalysisResult>, r: AnalysisResult, today: int)
    returns (s: SessionState)
    ensures |s.history| == 1 && PrevResult(s.history, s.storedLast) == Some(r)
  {
    s := new SessionState(storedHistory, storedStreak, storedLast);
    s.StartRecording(true);
    s.FinishAnalysis(Some(r), CapturedTranscript, "a", 1, today);
  }

  /** A new recording re-arms the save: after `StartRecording` the next
      analysis is saved even when the previous one already was, provided the
      entries carry the transcripts that were analysed. */
  method SaveAcrossSessions(s: SessionState, r1: AnalysisResult, r2: AnalysisResult, t1: string, t2: string, today: int)
    modifies s
    requires s.history == [] && t1 != t2
    ensures |s.history| == 2 && s.history[0].result == r2 && s.history[1].result == r1
  {
    s.StartRecording(true);
    s.PersistResultOnce(r1, t1, "a", 1, today);
    s.StartRecording(true);
    s.PersistResultOnce(r2, t2, "b", 2, today + 1);
  }

  /** Right after a save, the progress panel compares with the entry that was
      newest before it; on a first-ever save it compares the result with
      itself, since it was just stored as the last result. */
  lemma BaselineAfterSave(history: seq<HistoryEntry>, entry: HistoryEntry, storedLast: Stored<AnalysisResult>)
    requires !RepeatsNewest(history, entry)
    ensures |history| >= 1 ==> PrevResult(SaveToHistory(history, entry), Present(entry.result)) == Some(history[0].result)
    ensures |history| == 0 ==> PrevResult(SaveToHistory(history, entry), Present(entry.result)) == Some(entry.result)
  {
    if |history| >= 1 {
      SaveToHistoryShape(history, entry);
      assert SaveToHistory(history, entry)[1] == history[0];
    }
  }
}
