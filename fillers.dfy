/** The filler-word scan of the result screen: normalise the transcript,
    count whole-phrase occurrences of each dictionary phrase, and report the
    three most frequent phrases with the grand total. */
module Fillers {
  import opened Types
  import opened Text
  import Sorting

  /** A dictionary phrase as its sequence of words ("как бы" is ["как", "бы"]). */
  type Phrase = seq<string>

  predicate ValidPhrase(p: Phrase) {
    |p| > 0 && AllWords(p)
  }

  predicate ValidDictionary(dict: seq<Phrase>) {
    forall i :: 0 <= i < |dict| ==> ValidPhrase(dict[i])
  }

  /** The built-in Russian dictionary of the result screen. */
  const DefaultFillers: seq<Phrase> := [
    ["ну"], ["вот"], ["как", "бы"], ["типа"], ["ээ"], ["э"], ["мм"], ["значит"], ["короче"],
    ["получается"], ["по", "сути"], ["скажем", "так"], ["в", "общем"], ["в", "целом"]
  ]

  /** The dictionary the application passes to the result screen. */
  const AppFillers: seq<Phrase> := DefaultFillers[..9]

  datatype FillerCount = FillerCount(phrase: Phrase, count: nat)

  datatype FillerInfo = FillerInfo(list: seq<FillerCount>, total: nat)

  function EntryCount(e: FillerCount): int { e.count }

  /** The characters the scan turns into spaces. */
  predicate IsStrippedPunctuation(c: char) {
    c in ".,!?;:()[]«»\"'"
  }

  function BlankPunctuation(s: string): string {
    seq(|s|, i requires 0 <= i < |s| => if IsStrippedPunctuation(s[i]) then ' ' else s[i])
  }

  /** The transcript as the scan sees it: lower-cased (by the abstract `lower`),
      punctuation blanked, white space collapsed and trimmed. An absent or
      empty transcript has no words. */
  function ScanWords(lower: string -> string, text: Option<string>): seq<string> {
    match text
    case None => []
    case Some(t) => if t == "" then [] else Words(BlankPunctuation(lower(t)))
  }

  /** A word with no punctuation in it stays one token, whatever it contains
      besides: "ну-ну" is not split at the hyphen. */
  lemma {:induction false} HyphenatedWordStaysWhole(w: string)
    requires IsWord(w)
    requires forall i :: 0 <= i < |w| ==> !IsStrippedPunctuation(w[i])
    ensures Words(BlankPunctuation(w)) == [w]
  {
    assert BlankPunctuation(w) == w;
    WordsOfJoin([w]);
  }

  /** A character that ends a word in the scan: stripped punctuation or white
      space. */
  predicate IsSeparator(c: char) {
    IsStrippedPunctuation(c) || IsSpace(c)
  }

  /** A word the scan keeps as it is: no white space and no stripped
      punctuation. */
  predicate PlainWord(w: string) {
    IsWord(w) && forall i :: 0 <= i < |w| ==> !IsStrippedPunctuation(w[i])
  }

  lemma BlankPunctuationAppend(a: string, b: string)
    ensures BlankPunctuation(a + b) == BlankPunctuation(a) + BlankPunctuation(b)
  {
    assert forall i :: 0 <= i < |a + b| ==> BlankPunctuation(a + b)[i] == (BlankPunctuation(a) + BlankPunctuation(b))[i];
  }

  /** A separator in front of the text adds no word. */
  lemma SeparatorAddsNoWord(c: char, rest: string)
    requires IsSeparator(c)
    ensures Words(BlankPunctuation([c] + rest)) == Words(BlankPunctuation(rest))
  {
    BlankPunctuationAppend([c], rest);
    var b := BlankPunctuation([c] + rest);
    assert IsSpace(b[0]);
    assert b[1..] == BlankPunctuation(rest);
  }

  /** Punctuation ends a word just as white space does: "ну," scans as the
      word "ну" followed by whatever comes after the comma. */
  lemma PunctuationSeparatesWords(w: string, c: char, rest: string)
    requires PlainWord(w) && IsSeparator(c)
    ensures Words(BlankPunctuation(w + [c] + rest)) == [w] + Words(BlankPunctuation(rest))
  {
    assert w + [c] + rest == w + ([c] + rest);
    BlankPunctuationAppend(w, [c] + rest);
    assert BlankPunctuation(w) == w;
    var tail := BlankPunctuation([c] + rest);
    var b := w + tail;
    assert IsSpace(tail[0]);
    TokenEndOfWord(w, tail);
    assert b[..|w|] == w && b[|w|..] == tail;
    SeparatorAddsNoWord(c, rest);
  }

  /** Left-to-right, non-overlapping count of `p` as a whole run of words in
      `ts`; this is what the global regular expression anchored on white space
      or the ends of the text finds in the normalised transcript. */
  function Occurrences(ts: seq<string>, p: Phrase): (n: nat)
    requires |p| > 0
    ensures n * |p| <= |ts|
    decreases |ts|
  {
    if |ts| < |p| then 0
    else if ts[..|p|] == p then
      var rest := Occurrences(ts[|p|..], p);
      assert (1 + rest) * |p| == |p| + rest * |p|;
      1 + rest
    else Occurrences(ts[1..], p)
  }

  predicate OccursAt(ts: seq<string>, p: Phrase, i: int) {
    0 <= i && i + |p| <= |ts| && ts[i..i + |p|] == p
  }

  /** A phrase is counted at least once exactly when it appears somewhere as
      a whole run of words. */
  lemma {:induction false} OccurrencesPositive(ts: seq<string>, p: Phrase)
    requires |p| > 0
    ensures Occurrences(ts, p) > 0 <==> exists i :: OccursAt(ts, p, i)
  {
    if |ts| < |p| {
    } else if ts[..|p|] == p {
      assert OccursAt(ts, p, 0);
    } else {
      OccurrencesPositive(ts[1..], p);
      if exists i :: OccursAt(ts, p, i) {
        var i :| OccursAt(ts, p, i);
        OccursAtShift(ts, p, i - 1);
      }
      if exists i :: OccursAt(ts[1..], p, i) {
        var i :| OccursAt(ts[1..], p, i);
        OccursAtShift(ts, p, i);
      }
    }
  }

  /** A match one word further on in `ts` is a match in its tail. */
  lemma OccursAtShift(ts: seq<string>, p: Phrase, i: int)
    requires ts != [] && i >= 0
    ensures OccursAt(ts, p, i + 1) <==> OccursAt(ts[1..], p, i)
  {
    if i + 1 + |p| <= |ts| {
      assert ts[1..][i..i + |p|] == ts[i + 1..i + 1 + |p|];
    }
  }

  /** A one-word phrase is counted once per word equal to it and never inside a
      longer word: "ну" is not found in "нужно", "э" is not found in "ээ". */
  lemma {:induction false} SingleWordOccurrences(ts: seq<string>, w: string)
    ensures Occurrences(ts, [w]) == multiset(ts)[w]
  {
    if ts != [] {
      SingleWordOccurrences(ts[1..], w);
      assert ts == [ts[0]] + ts[1..];
      assert ts[..1] == [ts[0]];
    }
  }

  /** Occurrences do not overlap: three "ну" in a row hold one "ну ну". */
  lemma NoOverlappingMatches()
    ensures Occurrences(["ну", "ну", "ну"], ["ну", "ну"]) == 1
  {
    var ts: seq<string> := ["ну", "ну", "ну"];
    assert ts[..2] == ["ну", "ну"];
    assert ts[2..] == ["ну"];
  }

  function PhrasesOf(entries: seq<FillerCount>): seq<Phrase> {
    seq(|entries|, i requires 0 <= i < |entries| => entries[i].phrase)
  }

  /** Position of the first entry for `p`, or `|entries|` when there is none. */
  function FindPhrase(entries: seq<FillerCount>, p: Phrase): (k: nat)
    ensures k <= |entries|
    ensures k < |entries| ==> entries[k].phrase == p
    ensures k == |entries| <==> p !in PhrasesOf(entries)
  {
    if entries == [] then 0
    else if entries[0].phrase == p then
      assert PhrasesOf(entries)[0] == p;
      0
    else
      assert PhrasesOf(entries) == [entries[0].phrase] + PhrasesOf(entries[1..]);
      1 + FindPhrase(entries[1..], p)
  }

  /** The `counts` record after the scan loop has visited `dict`: one entry
      per distinct phrase with a positive count, in the order the phrases were
      first inserted (which is `Object.entries`' order for such keys). */
  function Tally(ts: seq<string>, dict: seq<Phrase>): seq<FillerCount>
    requires ValidDictionary(dict)
  {
    if dict == [] then []
    else
      var prev := Tally(ts, dict[..|dict| - 1]);
      var p := dict[|dict| - 1];
      var n := Occurrences(ts, p);
      if n > 0 && p !in PhrasesOf(prev) then prev + [FillerCount(p, n)] else prev
  }

  /** Index of the first occurrence of `p` in `dict`, or `|dict|`. */
  function IndexIn(dict: seq<Phrase>, p: Phrase): (k: nat)
    ensures k <= |dict|
    ensures k < |dict| ==> dict[k] == p
    ensures forall i :: 0 <= i < k ==> dict[i] != p
  {
    if dict == [] then 0
    else if dict[0] == p then 0
    else 1 + IndexIn(dict[1..], p)
  }

  lemma IndexInPrefix(dict: seq<Phrase>, m: nat, p: Phrase)
    requires m <= |dict| && p in dict[..m]
    ensures IndexIn(dict, p) == IndexIn(dict[..m], p) < m
  {
    var k := IndexIn(dict[..m], p);
    var j :| 0 <= j < m && dict[..m][j] == p;
    assert k <= j;
    assert dict[..m][k] == p;
    assert forall i :: 0 <= i < k ==> dict[i] == dict[..m][i] != p;
  }

  /** An entry the scan may record: a dictionary phrase with its exact,
      positive count. */
  predicate Recorded(ts: seq<string>, dict: seq<Phrase>, e: FillerCount) {
    e.phrase in dict && ValidPhrase(e.phrase) && e.count >= 1 && e.count == Occurrences(ts, e.phrase)
  }

  /** Every recorded entry is a dictionary phrase with its exact, positive count. */
  lemma {:induction false} TallySound(ts: seq<string>, dict: seq<Phrase>)
    requires ValidDictionary(dict)
    ensures forall i :: 0 <= i < |Tally(ts, dict)| ==> Recorded(ts, dict, Tally(ts, dict)[i])
  {
    if dict != [] {
      var init := dict[..|dict| - 1];
      assert ValidDictionary(init);
      TallySound(ts, init);
      var prev := Tally(ts, init);
      forall i | 0 <= i < |prev| ensures prev[i].phrase in dict {
        var k :| 0 <= k < |init| && init[k] == prev[i].phrase;
        assert dict[k] == init[k];
      }
    }
  }

  lemma PhrasesOfAppend(entries: seq<FillerCount>, e: FillerCount)
    ensures PhrasesOf(entries + [e]) == PhrasesOf(entries) + [e.phrase]
  {
  }

  predicate InDictionaryOrder(entries: seq<FillerCount>, dict: seq<Phrase>) {
    forall i, j :: 0 <= i < j < |entries| ==> IndexIn(dict, entries[i].phrase) < IndexIn(dict, entries[j].phrase)
  }

  /** Order with respect to a prefix of the dictionary carries over to the
      whole dictionary, where every entry keeps its index below the cut. */
  lemma OrderInPrefixExtends(entries: seq<FillerCount>, dict: seq<Phrase>, m: nat)
    requires m <= |dict|
    requires InDictionaryOrder(entries, dict[..m])
    requires forall i :: 0 <= i < |entries| ==> entries[i].phrase in dict[..m]
    ensures InDictionaryOrder(entries, dict)
    ensures forall i :: 0 <= i < |entries| ==> IndexIn(dict, entries[i].phrase) < m
  {
    forall i | 0 <= i < |entries| ensures IndexIn(dict, entries[i].phrase) == IndexIn(dict[..m], entries[i].phrase) < m {
      IndexInPrefix(dict, m, entries[i].phrase);
    }
  }

  /** Appending an entry whose phrase comes after every recorded one keeps
      the dictionary order. */
  lemma AppendAfterKeepsOrder(entries: seq<FillerCount>, e: FillerCount, dict: seq<Phrase>, m: nat)
    requires InDictionaryOrder(entries, dict)
    requires forall i :: 0 <= i < |entries| ==> IndexIn(dict, entries[i].phrase) < m
    requires IndexIn(dict, e.phrase) == m
    ensures InDictionaryOrder(entries + [e], dict)
  {
    var r := entries + [e];
    forall i, j | 0 <= i < j < |r| ensures IndexIn(dict, r[i].phrase) < IndexIn(dict, r[j].phrase) {
      assert r[i] == entries[i];
      if j < |entries| {
        assert r[j] == entries[j];
      }
    }
  }

  /** The recorded entries follow dictionary order, so no phrase is recorded twice. */
  lemma {:induction false} TallyOrdered(ts: seq<string>, dict: seq<Phrase>)
    requires ValidDictionary(dict)
    ensures InDictionaryOrder(Tally(ts, dict), dict)
  {
    if dict != [] {
      var init, p := dict[..|dict| - 1], dict[|dict| - 1];
      assert ValidDictionary(init);
      TallyOrdered(ts, init);
      TallySound(ts, init);
      var prev := Tally(ts, init);
      assert dict[..|init|] == init;
      OrderInPrefixExtends(prev, dict, |init|);
      var n := Occurrences(ts, p);
      if n > 0 && p !in PhrasesOf(prev) {
        TallyComplete(ts, init);
        assert forall k :: 0 <= k < |init| ==> init[k] != p;
        assert IndexIn(dict, p) == |init|;
        AppendAfterKeepsOrder(prev, FillerCount(p, n), dict, |init|);
      }
    }
  }

  /** Every dictionary phrase that occurs in the words is recorded. */
  lemma {:induction false} TallyComplete(ts: seq<string>, dict: seq<Phrase>)
    requires ValidDictionary(dict)
    ensures forall k :: 0 <= k < |dict| && Occurrences(ts, dict[k]) > 0 ==> dict[k] in PhrasesOf(Tally(ts, dict))
  {
    if dict != [] {
      var init, p := dict[..|dict| - 1], dict[|dict| - 1];
      assert ValidDictionary(init);
      TallyComplete(ts, init);
      var prev := Tally(ts, init);
      var r := Tally(ts, dict);
      var n := Occurrences(ts, p);
      if n > 0 && p !in PhrasesOf(prev) {
        assert r == prev + [FillerCount(p, n)];
        PhrasesOfAppend(prev, FillerCount(p, n));
      } else {
        assert r == prev;
      }
      forall k | 0 <= k < |dict| && Occurrences(ts, dict[k]) > 0 ensures dict[k] in PhrasesOf(r) {
        if k < |init| {
          assert init[k] == dict[k];
        }
      }
    }
  }

  lemma TallyDistinct(ts: seq<string>, dict: seq<Phrase>)
    requires ValidDictionary(dict)
    ensures var r := Tally(ts, dict);
      forall i, j :: 0 <= i < j < |r| ==> r[i].phrase != r[j].phrase
  {
    TallyOrdered(ts, dict);
    assert InDictionaryOrder(Tally(ts, dict), dict);
  }

  function TotalCount(entries: seq<FillerCount>): nat {
    if entries == [] then 0 else TotalCount(entries[..|entries| - 1]) + entries[|entries| - 1].count
  }

  /** Sum over the dictionary of each phrase's count. */
  function SumOccurrences(ts: seq<string>, dict: seq<Phrase>): nat
    requires ValidDictionary(dict)
  {
    if dict == [] then 0
    else
      assert ValidDictionary(dict[..|dict| - 1]);
      SumOccurrences(ts, dict[..|dict| - 1]) + Occurrences(ts, dict[|dict| - 1])
  }

  predicate NoDuplicates(dict: seq<Phrase>) {
    forall i, j :: 0 <= i < j < |dict| ==> dict[i] != dict[j]
  }

  /** For a dictionary without repeated phrases, the reported total is the
      sum of the per-phrase counts. */
  lemma {:induction false} TotalIsSumOfCounts(ts: seq<string>, dict: seq<Phrase>)
    requires ValidDictionary(dict) && NoDuplicates(dict)
    ensures TotalCount(Tally(ts, dict)) == SumOccurrences(ts, dict)
  {
    if dict != [] {
      var init, p := dict[..|dict| - 1], dict[|dict| - 1];
      assert ValidDictionary(init);
      TotalIsSumOfCounts(ts, init);
      var prev := Tally(ts, init);
      if Occurrences(ts, p) > 0 {
        TallySound(ts, init);
        assert forall k :: 0 <= k < |init| ==> init[k] == dict[k] != p;
        assert forall i :: 0 <= i < |prev| ==> PhrasesOf(prev)[i] in init;
        assert p !in PhrasesOf(prev);
        var r := prev + [FillerCount(p, Occurrences(ts, p))];
        assert r[..|r| - 1] == prev;
      }
    }
  }

  /** The list shown under the filler metric: the entries sorted by count,
      largest first (stably), cut to three. */
  function TopThree(entries: seq<FillerCount>): seq<FillerCount> {
    var sorted := Sorting.SortDesc(entries, EntryCount);
    sorted[..if |sorted| < 3 then |sorted| else 3]
  }

  function DictionaryRank(dict: seq<Phrase>): FillerCount -> int {
    (e: FillerCount) => IndexIn(dict, e.phrase)
  }

  lemma TallySortedByCount(ts: seq<string>, dict: seq<Phrase>)
    requires ValidDictionary(dict)
    ensures Sorting.OrderedByKeyThenRank(Sorting.SortDesc(Tally(ts, dict), EntryCount), EntryCount, DictionaryRank(dict))
  {
    var entries := Tally(ts, dict);
    var rank := DictionaryRank(dict);
    TallyOrdered(ts, dict);
    assert InDictionaryOrder(entries, dict);
    assert forall i :: 0 <= i < |entries| ==> rank(entries[i]) == IndexIn(dict, entries[i].phrase);
    assert Sorting.StrictlyIncreasingRank(entries, rank);
    Sorting.SortDescKeepsTies(entries, EntryCount, rank);
  }

  /** The top list has at most three entries, each of them a recorded phrase
      with its exact positive count. */
  lemma TopThreeEntries(ts: seq<string>, dict: seq<Phrase>)
    requires ValidDictionary(dict)
    ensures var entries := Tally(ts, dict);
      var top := TopThree(entries);
      && |top| == (if |entries| < 3 then |entries| else 3)
      && forall i :: 0 <= i < |top| ==> top[i] in entries && Recorded(ts, dict, top[i])
  {
    var entries := Tally(ts, dict);
    TallySound(ts, dict);
    var sorted := Sorting.SortDesc(entries, EntryCount);
    var top := TopThree(entries);
    forall i | 0 <= i < |top| ensures top[i] in entries && Recorded(ts, dict, top[i]) {
      assert top[i] == sorted[i];
      assert sorted[i] in multiset(sorted);
      assert top[i] in multiset(entries);
      var k :| 0 <= k < |entries| && entries[k] == top[i];
    }
  }

  /** Counts do not increase along the top list, equal counts keep dictionary
      order, and no recorded phrase left out of the list counts more than one
      shown. */
  lemma TopThreeOrder(ts: seq<string>, dict: seq<Phrase>)
    requires ValidDictionary(dict)
    ensures var entries := Tally(ts, dict);
      var top := TopThree(entries);
      && (forall i, j :: 0 <= i < j < |top| ==>
            top[i].count > top[j].count
            || (top[i].count == top[j].count && IndexIn(dict, top[i].phrase) < IndexIn(dict, top[j].phrase)))
      && (forall i, e :: 0 <= i < |top| && e in entries && e !in top ==> e.count <= top[i].count)
  {
    var entries := Tally(ts, dict);
    var sorted := Sorting.SortDesc(entries, EntryCount);
    var top := TopThree(entries);
    TallySortedByCount(ts, dict);
    assert forall i :: 0 <= i < |top| ==> top[i] == sorted[i];
    forall i, j | 0 <= i < j < |top|
      ensures top[i].count > top[j].count
        || (top[i].count == top[j].count && IndexIn(dict, top[i].phrase) < IndexIn(dict, top[j].phrase))
    {
      assert EntryCount(sorted[i]) > EntryCount(sorted[j])
        || (EntryCount(sorted[i]) == EntryCount(sorted[j]) && DictionaryRank(dict)(sorted[i]) < DictionaryRank(dict)(sorted[j]));
    }
    forall i, e | 0 <= i < |top| && e in entries && e !in top ensures e.count <= top[i].count {
      assert e in multiset(sorted);
      var k :| 0 <= k < |sorted| && sorted[k] == e;
      assert k >= |top|;
      assert EntryCount(sorted[i]) >= EntryCount(sorted[k]);
    }
  }

  /** An absent or empty transcript gives no entries and a zero total. */
  lemma EmptyTranscriptFindsNothing(lower: string -> string, dict: seq<Phrase>)
    requires ValidDictionary(dict)
    ensures Tally(ScanWords(lower, None), dict) == []
    ensures Tally(ScanWords(lower, Some("")), dict) == []
  {
    NoWordsNoEntries(dict);
  }

  lemma {:induction false} NoWordsNoEntries(dict: seq<Phrase>)
    requires ValidDictionary(dict)
    ensures Tally([], dict) == []
  {
    if dict != [] {
      assert ValidDictionary(dict[..|dict| - 1]);
      NoWordsNoEntries(dict[..|dict| - 1]);
    }
  }

  /** `extractFillers`: the scan loop fills the `counts` record one dictionary
      phrase at a time (assigning a phrase already present rewrites the same
      count); then the top three and the total are read off it. */
  method ExtractFillers(lower: string -> string, text: Option<string>, dict: seq<Phrase>)
    returns (info: FillerInfo)
    requires ValidDictionary(dict)
    ensures info.list == TopThree(Tally(ScanWords(lower, text), dict))
    ensures info.total == TotalCount(Tally(ScanWords(lower, text), dict))
    ensures NoDuplicates(dict) ==> info.total == SumOccurrences(ScanWords(lower, text), dict)
    ensures text == None || text == Some("") ==> info == FillerInfo([], 0)
  {
    var ts := ScanWords(lower, text);
    if text.None? || text.value == "" {
      NoWordsNoEntries(dict);
      if NoDuplicates(dict) {
        TotalIsSumOfCounts(ts, dict);
      }
      return FillerInfo([], 0);
    }
    var counts: seq<FillerCount> := [];
    for k := 0 to |dict|
      invariant ValidDictionary(dict[..k])
      invariant counts == Tally(ts, dict[..k])
    {
      assert dict[..k + 1][..k] == dict[..k];
      var w := dict[k];
      var n := Occurrences(ts, w);
      if n > 0 {
        var at := FindPhrase(counts, w);
        if at < |counts| {
          TallySound(ts, dict[..k]);
          counts := counts[at := FillerCount(w, n)];
        } else {
          counts := counts + [FillerCount(w, n)];
        }
      }
    }
    assert dict[..|dict|] == dict;
    if NoDuplicates(dict) {
      TotalIsSumOfCounts(ts, dict);
    }
    info := FillerInfo(TopThree(counts), TotalCount(counts));
  }

  /** The worked example: "Ну, я, как бы, ну хотел сказать" with the
      dictionary ["ну", "как бы"]. Once lower-cased, the scan finds "ну"
      twice and "как бы" once, in dictionary order, for a total of three; the
      commas and the capital letter make no difference. */
  lemma WorkedExample(lower: string -> string)
    requires lower("Ну, я, как бы, ну хотел сказать") == "ну, я, как бы, ну хотел сказать"
    ensures ValidDictionary([["ну"], ["как", "бы"]])
    ensures var entries := Tally(ScanWords(lower, Some("Ну, я, как бы, ну хотел сказать")), [["ну"], ["как", "бы"]]);
      && entries == [FillerCount(["ну"], 2), FillerCount(["как", "бы"], 1)]
      && TotalCount(entries) == 3
  {
    ExampleSentenceShape();
    ExampleWordsArePlain();
    ExampleWordsDistinct();
    SentenceTally(lower, "Ну, я, как бы, ну хотел сказать", "ну", "я", "как", "бы", "хотел", "сказать");
  }

  lemma ExampleSentenceShape()
    ensures "ну, я, как бы, ну хотел сказать" == Sentence("ну", "я", "как", "бы", "хотел", "сказать")
  {
  }

  lemma ExampleWordsDistinct()
    ensures "ну" != "я" && "ну" != "как" && "ну" != "бы" && "ну" != "хотел" && "ну" != "сказать"
    ensures "как" != "я" && "как" != "хотел"
  {
    assert "ну"[0] != "я"[0] && "ну"[0] != "как"[0] && "ну"[0] != "бы"[0];
    assert "ну"[0] != "хотел"[0] && "ну"[0] != "сказать"[0];
    assert "как"[0] != "я"[0] && "как"[0] != "хотел"[0];
  }

  /** Any text that lower-cases to the shape of the example sentence: the
      scan yields its seven words, so the one-word filler counts twice, the
      two-word filler once, and the total is three. */
  lemma SentenceTally(lower: string -> string, text: string, a: string, b: string, c: string, d: string, e: string, f: string)
    requires text != "" && lower(text) == Sentence(a, b, c, d, e, f)
    requires PlainWord(a) && PlainWord(b) && PlainWord(c)
    requires PlainWord(d) && PlainWord(e) && PlainWord(f)
    requires a != b && a != c && a != d && a != e && a != f
    requires c != b && c != e
    ensures ValidDictionary([[a], [c, d]])
    ensures var entries := Tally(ScanWords(lower, Some(text)), [[a], [c, d]]);
      && entries == [FillerCount([a], 2), FillerCount([c, d], 1)]
      && TotalCount(entries) == 3
  {
    SentenceWords(a, b, c, d, e, f);
    TwoFillerSentence(a, b, c, d, e, f);
    var entries := [FillerCount([a], 2), FillerCount([c, d], 1)];
    assert entries[..1][..0] == [];
    assert TotalCount(entries[..1]) == 2;
  }

  lemma ExampleWordsArePlain()
    ensures PlainWord("ну") && PlainWord("я") && PlainWord("как")
    ensures PlainWord("бы") && PlainWord("хотел") && PlainWord("сказать")
  {
    CyrillicWordIsPlain("ну");
    CyrillicWordIsPlain("я");
    CyrillicWordIsPlain("как");
    CyrillicWordIsPlain("бы");
    CyrillicWordIsPlain("хотел");
    CyrillicWordIsPlain("сказать");
  }

  /** A word spelt in the Cyrillic block has neither white space nor stripped
      punctuation in it. */
  lemma CyrillicWordIsPlain(w: string)
    requires |w| > 0 && forall i :: 0 <= i < |w| ==> '\U{400}' <= w[i] <= '\U{4FF}'
    ensures PlainWord(w)
  {
  }

  /** The shape of the example sentence, for any six words. */
  function Sentence(a: string, b: string, c: string, d: string, e: string, f: string): string {
    a + "," + (" " + (b + "," + (" " + SentenceTail(c, d, a, e, f))))
  }

  function SentenceTail(c: string, d: string, a: string, e: string, f: string): string {
    c + " " + (d + "," + (" " + SentenceEnd(a, e, f)))
  }

  function SentenceEnd(a: string, e: string, f: string): string {
    a + " " + (e + " " + f)
  }

  /** The scan splits the sentence at its commas and spaces into its seven
      words. */
  lemma SentenceWords(a: string, b: string, c: string, d: string, e: string, f: string)
    requires PlainWord(a) && PlainWord(b) && PlainWord(c)
    requires PlainWord(d) && PlainWord(e) && PlainWord(f)
    ensures Words(BlankPunctuation(Sentence(a, b, c, d, e, f))) == [a, b, c, d, a, e, f]
  {
    SentenceTailWords(c, d, a, e, f);
    CommaSpace(b, SentenceTail(c, d, a, e, f));
    CommaSpace(a, b + "," + (" " + SentenceTail(c, d, a, e, f)));
  }

  lemma SentenceTailWords(c: string, d: string, a: string, e: string, f: string)
    requires PlainWord(c) && PlainWord(d) && PlainWord(a) && PlainWord(e) && PlainWord(f)
    ensures Words(BlankPunctuation(SentenceTail(c, d, a, e, f))) == [c, d, a, e, f]
  {
    SentenceEndWords(a, e, f);
    CommaSpace(d, SentenceEnd(a, e, f));
    PunctuationSeparatesWords(c, ' ', d + "," + (" " + SentenceEnd(a, e, f)));
  }

  lemma SentenceEndWords(a: string, e: string, f: string)
    requires PlainWord(a) && PlainWord(e) && PlainWord(f)
    ensures Words(BlankPunctuation(SentenceEnd(a, e, f))) == [a, e, f]
  {
    HyphenatedWordStaysWhole(f);
    PunctuationSeparatesWords(e, ' ', f);
    PunctuationSeparatesWords(a, ' ', e + " " + f);
  }

  /** "w, rest" scans as w followed by the words of rest. */
  lemma CommaSpace(w: string, rest: string)
    requires PlainWord(w)
    ensures Words(BlankPunctuation(w + "," + (" " + rest))) == [w] + Words(BlankPunctuation(rest))
  {
    PunctuationSeparatesWords(w, ',', " " + rest);
    SeparatorAddsNoWord(' ', rest);
  }

  /** The shape of the worked example, for any words: a one-word filler at
      the start and again after a two-word filler, with other words around. */
  lemma TwoFillerSentence(a: string, b: string, c: string, d: string, e: string, f: string)
    requires IsWord(a) && IsWord(c) && IsWord(d)
    requires a != b && a != c && a != d && a != e && a != f
    requires c != b && c != e
    ensures Tally([a, b, c, d, a, e, f], [[a], [c, d]]) == [FillerCount([a], 2), FillerCount([c, d], 1)]
  {
    var ts := [a, b, c, d, a, e, f];
    var dict: seq<Phrase> := [[a], [c, d]];
    assert ValidDictionary(dict);
    OneWordCount(a, b, c, d, e, f);
    TwoWordCount(a, b, c, d, e, f);
    assert dict[..1] == [[a]];
    assert dict[..1][..0] == [];
    assert Tally(ts, dict[..1]) == [FillerCount([a], 2)];
    assert [c, d] != [a];
  }

  lemma OneWordCount(a: string, b: string, c: string, d: string, e: string, f: string)
    requires a != b && a != c && a != d && a != e && a != f
    ensures Occurrences([a, b, c, d, a, e, f], [a]) == 2
  {
    var ts := [a, b, c, d, a, e, f];
    var p := [a];
    assert ts[6..][..1] != p by { assert ts[6..][..1][0] == f; }
    assert ts[6..][1..] == [];
    assert Occurrences(ts[6..], p) == 0;
    assert ts[5..][..1] != p by { assert ts[5..][..1][0] == e; }
    assert ts[5..][1..] == ts[6..];
    assert Occurrences(ts[5..], p) == 0;
    assert ts[4..][..1] == p && ts[4..][1..] == ts[5..];
    assert Occurrences(ts[4..], p) == 1;
    assert ts[3..][..1] != p by { assert ts[3..][..1][0] == d; }
    assert ts[3..][1..] == ts[4..];
    assert Occurrences(ts[3..], p) == 1;
    assert ts[2..][..1] != p by { assert ts[2..][..1][0] == c; }
    assert ts[2..][1..] == ts[3..];
    assert Occurrences(ts[2..], p) == 1;
    assert ts[1..][..1] != p by { assert ts[1..][..1][0] == b; }
    assert ts[1..][1..] == ts[2..];
    assert Occurrences(ts[1..], p) == 1;
    assert ts[..1] == p;
  }

  lemma TwoWordCount(a: string, b: string, c: string, d: string, e: string, f: string)
    requires a != c && c != b && c != e
    ensures Occurrences([a, b, c, d, a, e, f], [c, d]) == 1
  {
    var ts := [a, b, c, d, a, e, f];
    var p := [c, d];
    assert Occurrences(ts[6..], p) == 0;
    assert ts[5..][..2] != p by { assert ts[5..][..2][0] == e; }
    assert ts[5..][1..] == ts[6..];
    assert Occurrences(ts[5..], p) == 0;
    assert ts[4..][..2] != p by { assert ts[4..][..2][0] == a; }
    assert ts[4..][1..] == ts[5..];
    assert Occurrences(ts[4..], p) == 0;
    assert ts[2..][..2] == p && ts[2..][2..] == ts[4..];
    assert Occurrences(ts[2..], p) == 1;
    assert ts[1..][..2] != p by { assert ts[1..][..2][0] == b; }
    assert ts[1..][1..] == ts[2..];
    assert Occurrences(ts[1..], p) == 1;
    assert ts[..2] != p by { assert ts[..2][0] == a; }
  }
}
