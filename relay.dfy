/** The server relay that forwards a transcript to the language model: a
    chain of guards (short input, missing key, upstream error), the
    extraction of the model's text with its code fence removed, and the
    fixed object it answers with when that text is not JSON. Fetching and
    JSON parsing are parameters: the upstream reply is given, and `parse`
    is the parser's verdict on a text. */
module Relay {
  import opened Types
  import opened Text
  import Progress

  /** The request body: not JSON at all, or JSON with or without a string
      `transcript` field. */
  datatype RequestBody = Unreadable | Body(transcript: Option<string>)

  /** One candidate part; a part without text contributes "". */
  datatype Part = Part(text: Option<string>)

  /** The upstream call: `fetch` threw, or a response arrived. `parts` are the
      first candidate's content parts, empty when the body is not JSON or has
      no candidate. */
  datatype Upstream = FetchFailed(reason: string) | Answered(status: int, parts: seq<Part>)

  datatype ErrorCode = ShortInput | NoApiKey | UpstreamError(upstreamStatus: int) | ServerError(message: string)

  /** The JSON the relay answers with: an error object, the model's parsed
      object, or the fallback analysis. */
  datatype Reply<J> = Error(code: ErrorCode) | Parsed(json: J) | Fallback(result: AnalysisResult)

  datatype Response<J> = Response(status: int, reply: Reply<J>)

  predicate IsOkStatus(status: int) { 200 <= status <= 299 }

  /** The transcript passes the input guard: present and at least 10 UTF-16
      code units (JavaScript's `length`) after trimming. */
  predicate TranscriptOk(body: RequestBody) {
    body.Body? && body.transcript.Some? && Utf16Length(Trim(body.transcript.value)) >= 10
  }

  /** Five emoji pass the input guard: each is two UTF-16 code units. */
  lemma FiveEmojiPassTheGuard()
    ensures var text := "\U{1F600}\U{1F600}\U{1F600}\U{1F600}\U{1F600}";
      |text| == 5 && TranscriptOk(Body(Some(text)))
  {
    var text := "\U{1F600}\U{1F600}\U{1F600}\U{1F600}\U{1F600}";
    assert Trim(text) == text;
    AstralCharactersCountTwice(text);
  }

  /** The analysis the relay answers with when the model's text is not JSON:
      score 0, every metric 0, no strengths and a single advice to retry. */
  function FallbackResult(): (r: AnalysisResult)
    ensures r.score == 0 && r.metrics == Metrics(0, 0, 0, 0)
    ensures r.strengths == [] && |r.improvements| == 1
  {
    AnalysisResult(0, Metrics(0, 0, 0, 0), "Модель вернула неожиданный формат.", [], ["Повторите анализ"])
  }

  function PartTexts(parts: seq<Part>): (ts: seq<string>)
    ensures |ts| == |parts|
    ensures forall i :: 0 <= i < |parts| ==> ts[i] == (if parts[i].text.Some? then parts[i].text.value else "")
  {
    if parts == [] then []
    else [if parts[0].text.Some? then parts[0].text.value else ""] + PartTexts(parts[1..])
  }

  predicate IsAsciiLetter(c: char) { 'a' <= c <= 'z' || 'A' <= c <= 'Z' }

  function DropLetters(s: string): (r: string)
    ensures |r| <= |s| && r == s[|s| - |r|..]
    ensures r == [] || !IsAsciiLetter(r[0])
  {
    if s != [] && IsAsciiLetter(s[0]) then DropLetters(s[1..]) else s
  }

  const Fence: string := "```"

  /** Removes an opening fence: three backquotes, a language tag of ASCII
      letters and the white space after it. Text without one is unchanged. */
  function StripLeadingFence(s: string): (r: string)
    ensures |r| <= |s|
    ensures !(|s| >= 3 && s[..3] == Fence) ==> r == s
  {
    if |s| >= 3 && s[..3] == Fence then TrimStart(DropLetters(s[3..])) else s
  }

  /** Removes a closing fence at the very end of the text. */
  function StripTrailingFence(s: string): (r: string)
    ensures |r| <= |s|
    ensures !(|s| >= 3 && s[|s| - 3..] == Fence) ==> r == s
    ensures |s| >= 3 && s[|s| - 3..] == Fence ==> r + Fence == s
  {
    if |s| >= 3 && s[|s| - 3..] == Fence then s[..|s| - 3] else s
  }

  /** The text handed to the JSON parser: the parts' texts joined by newlines,
      trimmed, with a leading and then a trailing fence removed. */
  function ExtractText(parts: seq<Part>): (t: string)
    ensures |t| <= |Join(PartTexts(parts), "\n")|
  {
    StripTrailingFence(StripLeadingFence(Trim(Join(PartTexts(parts), "\n"))))
  }

  /** `handler`. */
  function Handle<J>(body: RequestBody, hasKey: bool, upstream: Upstream, parse: string -> Option<J>): (r: Response<J>)
    ensures !TranscriptOk(body) ==> r == Response(400, Error(ShortInput))
    ensures TranscriptOk(body) && !hasKey ==> r == Response(500, Error(NoApiKey))
    ensures r.status == 200 <==> TranscriptOk(body) && hasKey && upstream.Answered? && IsOkStatus(upstream.status)
    ensures r.status == 200 ==>
      match parse(ExtractText(upstream.parts))
      case Some(j) => r.reply == Parsed(j)
      case None => r.reply == Fallback(FallbackResult())
    ensures TranscriptOk(body) && hasKey && upstream.Answered? && !IsOkStatus(upstream.status) ==>
      r == Response(upstream.status, Error(UpstreamError(upstream.status)))
    ensures TranscriptOk(body) && hasKey && upstream.FetchFailed? ==>
      r == Response(500, Error(ServerError(upstream.reason)))
  {
    if !TranscriptOk(body) then Response(400, Error(ShortInput))
    else if !hasKey then Response(500, Error(NoApiKey))
    else match upstream
      case FetchFailed(reason) => Response(500, Error(ServerError(reason)))
      case Answered(status, parts) =>
        if !IsOkStatus(status) then Response(status, Error(UpstreamError(status)))
        else match parse(ExtractText(parts))
          case Some(j) => Response(200, Parsed(j))
          case None => Response(200, Fallback(FallbackResult()))
  }

  /** The input guard and the key guard come before the upstream call: while
      either fails, the answer is the same whatever upstream would say. */
  lemma GuardsPrecedeUpstream<J>(body: RequestBody, hasKey: bool, u1: Upstream, u2: Upstream, p1: string -> Option<J>, p2: string -> Option<J>)
    requires !TranscriptOk(body) || !hasKey
    ensures Handle(body, hasKey, u1, p1) == Handle(body, hasKey, u2, p2)
    ensures Handle(body, hasKey, u1, p1).reply.Error?
  {
  }

  /** An unreadable request body is treated like one without a transcript,
      and the key is never consulted for it. */
  lemma UnreadableBodyIsShort<J>(hasKey: bool, upstream: Upstream, parse: string -> Option<J>)
    ensures Handle(Unreadable, hasKey, upstream, parse) == Handle(Body(None), false, upstream, parse)
    ensures Handle(Unreadable, hasKey, upstream, parse).status == 400
  {
  }

  /** Every answer that is not an error has status 200, and a fallback is
      only given for text the parser rejects. */
  lemma SuccessfulRepliesAre200<J>(body: RequestBody, hasKey: bool, upstream: Upstream, parse: string -> Option<J>)
    ensures !Handle(body, hasKey, upstream, parse).reply.Error? ==> Handle(body, hasKey, upstream, parse).status == 200
    ensures Handle(body, hasKey, upstream, parse).reply.Fallback? ==>
      upstream.Answered? && parse(ExtractText(upstream.parts)).None?
  {
  }

  lemma {:induction false} DropLettersOfTag(tag: string, rest: string)
    requires forall i :: 0 <= i < |tag| ==> IsAsciiLetter(tag[i])
    requires rest == [] || !IsAsciiLetter(rest[0])
    ensures DropLetters(tag + rest) == rest
  {
    if tag == [] {
      assert tag + rest == rest;
    } else {
      assert (tag + rest)[0] == tag[0];
      assert (tag + rest)[1..] == tag[1..] + rest;
      DropLettersOfTag(tag[1..], rest);
    }
  }

  /** Text without fences is only trimmed. */
  lemma UnfencedTextIsOnlyTrimmed(parts: seq<Part>)
    ensures var t := Trim(Join(PartTexts(parts), "\n"));
      !(|t| >= 3 && t[..3] == Fence) && !(|t| >= 3 && t[|t| - 3..] == Fence) ==> ExtractText(parts) == t
  {
  }

  lemma SinglePartText(s: string)
    ensures ExtractText([Part(Some(s))]) == StripTrailingFence(StripLeadingFence(Trim(s)))
  {
    assert PartTexts([Part(Some(s))]) == [s];
  }

  /** The opening line of a fenced block: three backquotes, a language tag
      and the newline. */
  function Opening(tag: string): string {
    Fence + tag + "\n"
  }

  /** A block the way the model fences JSON: the opening line, the body, a
      newline and the closing fence. */
  function FencedBlock(tag: string, body: string): string {
    Opening(tag) + (body + "\n" + Fence)
  }

  /** After an opening line with a letter tag, text that does not start with
      white space is what is left: the fence, tag and newline go. */
  lemma LeadingFenceWithTag(tag: string, rest: string)
    requires forall i :: 0 <= i < |tag| ==> IsAsciiLetter(tag[i])
    requires |rest| >= 1 && !IsSpace(rest[0])
    ensures StripLeadingFence(Opening(tag) + rest) == rest
  {
    var afterTag := "\n" + rest;
    OpeningSplits(tag, rest);
    DropLettersOfTag(tag, afterTag);
    assert afterTag[1..] == rest;
    assert TrimStart(afterTag) == TrimStart(rest);
  }

  lemma OpeningSplits(tag: string, rest: string)
    ensures var s := Opening(tag) + rest;
      |s| >= 3 && s[..3] == Fence && s[3..] == tag + ("\n" + rest)
  {
    var s := Opening(tag) + rest;
    assert s == Fence + (tag + ("\n" + rest));
  }

  /** Text that opens a fence and ends with a backquote is left alone by
      trimming. */
  lemma OpenedIsTrimmed(tag: string, rest: string)
    requires |rest| >= 1 && rest[|rest| - 1] == '`'
    ensures Trim(Opening(tag) + rest) == Opening(tag) + rest
  {
    var s := Opening(tag) + rest;
    assert s[0] == '`';
    assert s[|s| - 1] == rest[|rest| - 1];
  }

  lemma BlockTailEnds(body: string)
    requires body != []
    ensures (body + "\n" + Fence)[0] == body[0]
    ensures var t := body + "\n" + Fence; t[|t| - 1] == '`'
  {
  }

  lemma TrailingFenceOf(head: string)
    ensures StripTrailingFence(head + Fence) == head
  {
    var rest := head + Fence;
    assert rest[|rest| - 3..] == Fence;
    assert rest[..|rest| - 3] == head;
  }

  lemma BlockIsTrimmed(tag: string, body: string)
    requires body != []
    ensures Trim(FencedBlock(tag, body)) == FencedBlock(tag, body)
  {
    BlockTailEnds(body);
    OpenedIsTrimmed(tag, body + "\n" + Fence);
  }

  lemma BlockOpeningStripped(tag: string, body: string)
    requires forall i :: 0 <= i < |tag| ==> IsAsciiLetter(tag[i])
    requires body != [] && !IsSpace(body[0])
    ensures StripLeadingFence(FencedBlock(tag, body)) == body + "\n" + Fence
  {
    BlockTailEnds(body);
    LeadingFenceWithTag(tag, body + "\n" + Fence);
  }

  /** A single part holding a fenced block with a language tag gives back the
      block's body followed by the newline before the closing fence. */
  lemma FencedBlockGivesBody(tag: string, body: string)
    requires forall i :: 0 <= i < |tag| ==> IsAsciiLetter(tag[i])
    requires body != [] && !IsSpace(body[0])
    ensures ExtractText([Part(Some(FencedBlock(tag, body)))]) == body + "\n"
  {
    BlockTextIsUntrimmed(tag, body);
    BlockFencesStripped(tag, body);
  }

  lemma BlockTextIsUntrimmed(tag: string, body: string)
    requires body != []
    ensures ExtractText([Part(Some(FencedBlock(tag, body)))]) == StripTrailingFence(StripLeadingFence(FencedBlock(tag, body)))
  {
    SinglePartText(FencedBlock(tag, body));
    BlockIsTrimmed(tag, body);
  }

  lemma BlockFencesStripped(tag: string, body: string)
    requires forall i :: 0 <= i < |tag| ==> IsAsciiLetter(tag[i])
    requires body != [] && !IsSpace(body[0])
    ensures StripTrailingFence(StripLeadingFence(FencedBlock(tag, body))) == body + "\n"
  {
    BlockOpeningStripped(tag, body);
    TrailingFenceOf(body + "\n");
  }

  /** The fallback analysis read as a result: its score falls in the orange
      band, pace, clarity and vocabulary get their "could not determine"
      hint, and the filler count gets the "none found" hint. */
  lemma FallbackShowsUnknownHints()
    ensures Progress.ScoreBand(FallbackResult().score) == Progress.Orange
    ensures Progress.Explain(Progress.Pace, Progress.Num(FallbackResult().metrics.pace)) == Progress.PaceUnknown
    ensures Progress.Explain(Progress.FillerWords, Progress.Num(FallbackResult().metrics.fillerWords)) == Progress.FillersNone
    ensures Progress.Explain(Progress.Clarity, Progress.Num(FallbackResult().metrics.clarity)) == Progress.ClarityUnknown
    ensures Progress.Explain(Progress.Vocabulary, Progress.Num(FallbackResult().metrics.vocabulary)) == Progress.VocabularyUnknown
  {
  }
}
