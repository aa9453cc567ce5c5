/** The decision the "Analyze Sentiment" button handler of app.py takes: warn
    on empty input, otherwise clean the text, hand it to the vectorizer and
    the classifier, and report the predicted label with the largest class
    probability as its confidence. The vectorizer and the classifier are
    opaque fitted objects; they enter as functions. */
module Sentiment {
  import opened CleanText
  import opened CleanTextProperties

  /** What the page shows once the button is pressed. */
  datatype Outcome =
    | Warning                      // the input area is empty
    | Positive(confidence: real)   // the predicted label is "positive"
    | Negative(confidence: real)   // any other predicted label

  /** `.max()` of a probability row: the largest entry. */
  function MaxProbability(p: seq<real>): (m: real)
    requires |p| > 0
    ensures m in p
    ensures forall i :: 0 <= i < |p| ==> p[i] <= m
  {
    if |p| == 1 then p[0]
    else
      var rest := MaxProbability(p[1..]);
      if p[0] >= rest then p[0] else rest
  }

  /** The handler. `vectorize` stands for `vectorizer.transform`, `predict`
      for the first row of `model.predict` and `predictProba` for the first
      row of `model.predict_proba`. The label and the probabilities come
      from two separate calls; nothing links one to the other. */
  function Analyze<V>(
    input: string,
    vectorize: string -> V,
    predict: V -> string,
    predictProba: V -> seq<real>
  ): (r: Outcome)
    requires input != [] ==> |predictProba(vectorize(Clean(input)))| > 0
    ensures r == Warning <==> input == []
    ensures r.Positive? <==> input != [] && predict(vectorize(Clean(input))) == "positive"
    ensures r.Negative? <==> input != [] && predict(vectorize(Clean(input))) != "positive"
    ensures !r.Warning? ==>
              var p := predictProba(vectorize(Clean(input)));
              r.confidence in p && forall i :: 0 <= i < |p| ==> p[i] <= r.confidence
  {
    if input == [] then Warning
    else
      var features := vectorize(Clean(input));
      var confidence := MaxProbability(predictProba(features));
      if predict(features) == "positive" then Positive(confidence) else Negative(confidence)
  }

  /* Two values that are both the largest entry of the same row are equal. */
  lemma MaxIsUnique(p: seq<real>, a: real, b: real)
    requires a in p && forall i :: 0 <= i < |p| ==> p[i] <= a
    requires b in p && forall i :: 0 <= i < |p| ==> p[i] <= b
    ensures a == b
  {
    var i :| 0 <= i < |p| && p[i] == a;
    var j :| 0 <= j < |p| && p[j] == b;
  }

  /* The guard is plain truthiness: text made only of whitespace is not
     empty, so it is classified, and cleaning hands it on unchanged. */
  lemma WhitespaceOnlyIsClassified<V>(
    input: string,
    vectorize: string -> V,
    predict: V -> string,
    predictProba: V -> seq<real>
  )
    requires input != [] && forall i :: 0 <= i < |input| ==> IsSpace(input[i])
    requires |predictProba(vectorize(input))| > 0
    ensures Clean(input) == input
    ensures Analyze(input, vectorize, predict, predictProba) != Warning
  {
    LowerUnchangedIff(input);
    assert '<' !in input;
    StripTagsPlainPrefix(input, []);
    assert input + [] == input;
    DropOthersUnchangedIff(input);
  }

  /* The reported confidence depends only on the probability row: a
     classifier whose label disagrees with its own probabilities still
     reports their maximum. */
  lemma ConfidenceIgnoresLabel<V>(
    input: string,
    vectorize: string -> V,
    predict: V -> string,
    predict': V -> string,
    predictProba: V -> seq<real>
  )
    requires input != [] && |predictProba(vectorize(Clean(input)))| > 0
    ensures Analyze(input, vectorize, predict, predictProba).confidence
         == Analyze(input, vectorize, predict', predictProba).confidence
  {
    var p := predictProba(vectorize(Clean(input)));
    MaxIsUnique(p, Analyze(input, vectorize, predict, predictProba).confidence,
                   Analyze(input, vectorize, predict', predictProba).confidence);
  }

  /* The classifier sees only the cleaned text, and cleaning is idempotent:
     cleaning an input before submitting it changes neither the label nor
     the confidence, as long as something is left to submit. */
  lemma OutcomeDependsOnCleanText<V>(
    input: string,
    vectorize: string -> V,
    predict: V -> string,
    predictProba: V -> seq<real>
  )
    requires input != [] && Clean(input) != []
    requires |predictProba(vectorize(Clean(input)))| > 0
    ensures Clean(Clean(input)) == Clean(input)
         && Analyze(Clean(input), vectorize, predict, predictProba)
         == Analyze(input, vectorize, predict, predictProba)
  {
    CleanIdempotent(input);
  }

  /* A classifier that labels the review "positive" and gives that class
     probability 0.92 is reported as a positive review with confidence 0.92. */
  lemma ExamplePositive<V>(input: string, vectorize: string -> V)
    requires input != []
    ensures Analyze(input, vectorize, (v: V) => "positive", (v: V) => [0.08, 0.92]) == Positive(0.92)
  {
    var p: seq<real> := [0.08, 0.92];
    assert forall i :: 0 <= i < |p| ==> p[i] <= 0.92;
  }

  /* Any label other than exactly "positive", even "Positive", is reported
     as negative. */
  lemma ExampleCapitalisedLabel<V>(input: string, vectorize: string -> V)
    requires input != []
    ensures Analyze(input, vectorize, (v: V) => "Positive", (v: V) => [0.3, 0.7]) == Negative(0.7)
  {
    var p: seq<real> := [0.3, 0.7];
    assert forall i :: 0 <= i < |p| ==> p[i] <= 0.7;
  }
}
