/** The sampling defaults of config.js and the ranges its comments document. */
module Config {
  import opened Js
  import opened Chat

  const Defaults := Tuning(Num(1.0), Num(1.0), Num(0.0), Num(0.0), Num(0.0), Num(1.0))

  /** [0, 2] */
  predicate TemperatureInRange(v: JsValue) {
    v.Num? && 0.0 <= v.n <= 2.0
  }

  /** (0, 1] */
  predicate TopPInRange(v: JsValue) {
    v.Num? && 0.0 < v.n <= 1.0
  }

  /** [0, Infinity) */
  predicate TopKInRange(v: JsValue) {
    v.Num? && 0.0 <= v.n
  }

  /** [-2, 2], for both penalties */
  predicate PenaltyInRange(v: JsValue) {
    v.Num? && -2.0 <= v.n <= 2.0
  }

  /** (0, 2] */
  predicate RepetitionInRange(v: JsValue) {
    v.Num? && 0.0 < v.n <= 2.0
  }

  predicate InDocumentedRanges(t: Tuning) {
    && TemperatureInRange(t.temperature)
    && TopPInRange(t.topP)
    && TopKInRange(t.topK)
    && PenaltyInRange(t.frequencyPenalty)
    && PenaltyInRange(t.presencePenalty)
    && RepetitionInRange(t.repetitionPenalty)
  }
}
