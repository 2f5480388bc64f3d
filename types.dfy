/** Value types shared by the client and the relay: the analysis a model
    returns for one recording, with its four metrics. */
module Types {

  datatype Option<+T> = None | Some(value: T)

  /** The four measured metrics of one session: words per minute, number of
      filler words, clarity in percent and vocabulary richness in percent. */
  datatype Metrics = Metrics(pace: int, fillerWords: int, clarity: int, vocabulary: int)

  /** One analysis: overall score (0 to 100 by the prompt's convention), the
      metrics, a free-text analysis and the two advice lists. */
  datatype AnalysisResult = AnalysisResult(
    score: int,
    metrics: Metrics,
    analysis: string,
    strengths: seq<string>,
    improvements: seq<string>)
}
