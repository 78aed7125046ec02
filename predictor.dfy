/** The classifier adapter of model_predictor_enhanced.py: inference-time text
    cleaning, the turning of the network's ranked output into predictions, and
    the confidence-threshold decision of `ai_recommend`. The network itself
    (tokenizer, forward pass, softmax, top-k) is an input. */
module ModelPredictor {
  import opened Text
  import opened Wrappers

  /** The abbreviation table, in the order the expansion applies it. */
  const MedicalAbbr: seq<(string, string)> := [
    ("hr", "heart rate"), ("bp", "blood pressure"), ("temp", "temperature"),
    ("c/o", "complains of"), ("sob", "shortness of breath"),
    ("cp", "chest pain"), ("ha", "headache"), ("n/v", "nausea vomiting")
  ]

  /** The labels of the classifier's outputs, by output index. */
  const DiseaseLabels: seq<string> := [
    "Psoriasis", "Varicose Veins", "Asthma", "Chronic Kidney Disease",
    "Migraine", "Gastritis", "Anemia", "Osteoarthritis", "Chickenpox",
    "Diabetes", "Hypertension", "Flu", "COVID-19", "Tuberculosis",
    "Allergy", "Depression", "Heart Attack", "Stroke", "Kidney Stones",
    "General Physician"
  ]

  const EmergencyConditions: seq<string> := ["Heart Attack", "Stroke", "COVID-19"]

  const ConfidenceThreshold: real := 0.5

  /** The number of predictions `ai_recommend` asks `predict` for. */
  const TopK: nat := 3

  lemma AbbrTableShape()
    ensures PatternsNonEmpty(MedicalAbbr)
    ensures forall k | 0 <= k < |MedicalAbbr| :: NoSpace(MedicalAbbr[k].0)
    ensures forall k | 0 <= k < |MedicalAbbr| :: NoUpper(MedicalAbbr[k].1)
  {
    forall k | 0 <= k < |MedicalAbbr| ensures NoUpper(MedicalAbbr[k].1) {
      NoUpperAt(MedicalAbbr[k].1);
    }
  }

  /** What `clean_medical_text` computes: lower-case, strip, expand the
      abbreviations in table order, blank out every character that is neither
      a word character nor whitespace, collapse whitespace. */
  function CleanedText(text: string): string {
    CollapseWhitespace(ReplaceNonWord(ReplaceEach(Strip(Lower(text)), MedicalAbbr)))
  }

  /** `clean_medical_text`: the expansion loop rebinds the text once per
      table entry. */
  method CleanMedicalText(text: string) returns (r: string)
    ensures r == CleanedText(text)
    ensures SingleSpaced(r)
    ensures forall c | c in r :: IsWordChar(c) || c == ' '
    ensures NoUpper(r)
  {
    AbbrTableShape();
    var start := Strip(Lower(text));
    StripNoUpper(Lower(text));
    var t := start;
    var i := 0;
    while i < |MedicalAbbr|
      invariant 0 <= i <= |MedicalAbbr|
      invariant ReplaceEach(t, MedicalAbbr[i..]) == ReplaceEach(start, MedicalAbbr)
      invariant NoUpper(t)
    {
      var abbr, full := MedicalAbbr[i].0, MedicalAbbr[i].1;
      ReplaceChars(t, abbr, full);
      ReplaceEachStep(t, MedicalAbbr, i);
      t := Replace(t, abbr, full);
      i := i + 1;
    }
    r := CollapseWhitespace(ReplaceNonWord(t));
    CleanedShape(t);
    CleanedNoUpper(t);
  }

  /** The patterns of the abbreviation table, in order. */
  lemma AbbrPatterns()
    ensures MedicalAbbr[0].0 == "hr" && MedicalAbbr[1].0 == "bp" && MedicalAbbr[2].0 == "temp"
    ensures MedicalAbbr[3].0 == "c/o" && MedicalAbbr[4].0 == "sob" && MedicalAbbr[5].0 == "cp"
    ensures MedicalAbbr[6].0 == "ha" && MedicalAbbr[7].0 == "n/v"
    ensures MedicalAbbr[2].1 == "temperature" && MedicalAbbr[6].1 == "headache"
  {
  }

  /** Expansion matches raw substrings, inside words too: "have" holds
      "ha", so it comes out as "headacheve". */
  lemma ExpansionInsideWords(w: string, e: string)
    requires w == "have" && e == "headacheve"
    ensures CleanedText(w) == e
  {
    AbbrPatterns();
    assert Replace(w, "ha", "headache") == e by {
      assert StartsWith(w, "ha");
      ReplaceMissingChar("ve", "ha", "headache", 'h');
    }
    AbbrTableShape();
    CleanOneHit(w, e, MedicalAbbr, 6, "rbtcsch/");
  }

  /** The first expansion step on "temp" + rest. */
  lemma TempStep(rest: string, w: string, e: string)
    requires 'm' !in rest
    requires w == "temp" + rest && e == "temperature" + rest
    ensures Replace(w, "temp", "temperature") == e
  {
    assert StartsWith(w, "temp");
    assert w[4..] == rest;
    ReplaceMissingChar(rest, "temp", "temperature", 'm');
  }

  /** The character facts about "temp" + rest that its cleaning needs. */
  lemma TempLetters(rest: string, w: string, e: string)
    requires forall k | 0 <= k < |rest| :: 'a' <= rest[k] <= 'z'
    requires 'h' !in rest && 'b' !in rest && 'c' !in rest && 's' !in rest && 'n' !in rest
    requires w == "temp" + rest && e == "temperature" + rest
    ensures forall k | 0 <= k < |w| :: 'a' <= w[k] <= 'z'
    ensures forall k | 0 <= k < |e| :: 'a' <= e[k] <= 'z'
    ensures 'h' !in w && 'b' !in w
    ensures 'c' !in e && 's' !in e && 'h' !in e && 'n' !in e
  {
    forall k | 0 <= k < |w| ensures 'a' <= w[k] <= 'z' {
      if k >= 4 { assert w[k] == rest[k - 4]; }
    }
    forall k | 0 <= k < |e| ensures 'a' <= e[k] <= 'z' {
      if k >= 11 { assert e[k] == rest[k - 11]; }
    }
  }

  /** "temp" followed by letters free of the other entries' patterns
      grows into "temperature" followed by the same letters. */
  lemma TempGrows(rest: string, w: string, e: string)
    requires forall k | 0 <= k < |rest| :: 'a' <= rest[k] <= 'z'
    requires 'm' !in rest && 'h' !in rest && 'b' !in rest && 'c' !in rest && 's' !in rest && 'n' !in rest
    requires w == "temp" + rest && e == "temperature" + rest
    ensures CleanedText(w) == e
  {
    TempStep(rest, w, e);
    TempLetters(rest, w, e);
    AbbrPatterns();
    AbbrTableShape();
    CleanOneHit(w, e, MedicalAbbr, 2, "hbtcschn");
  }

  /** "temp" expands to "temperature". */
  lemma TempExpands(w: string, e: string)
    requires w == "temp" && e == "temperature"
    ensures CleanedText(w) == e
  {
    assert w == "temp" + [] && e == "temperature" + [];
    TempGrows([], w, e);
  }

  /** "temperature" still holds "temp", so it grows again. */
  lemma TemperatureExpands(w: string, e: string)
    requires w == "temperature" && e == "temperatureerature"
    ensures CleanedText(w) == e
  {
    var rest := "erature";
    assert w == "temp" + rest && e == "temperature" + rest;
    TempGrows(rest, w, e);
  }

  /** Cleaning is not idempotent: cleaning "temp" twice differs from
      cleaning it once. */
  lemma CleaningNotIdempotent(w: string)
    requires w == "temp"
    ensures CleanedText(CleanedText(w)) != CleanedText(w)
  {
    TempExpands(w, "temperature");
    TemperatureExpands("temperature", "temperatureerature");
  }

  // ---------------------------------------------------------------------
  // predict

  datatype Prediction = Prediction(condition: string, confidence: real, emergency: bool)

  /** One entry of the network's top-k output: an output index and its
      probability. */
  datatype Ranked = Ranked(index: nat, confidence: real)

  /** The network's answer for one text: its top-k list, or an exception
      raised while tokenizing or running it. */
  datatype NetOutput = NetFailed(error: string) | TopKOutput(ranked: seq<Ranked>)

  /** Each prediction names a known label, flagged as an emergency exactly
      when the label is an emergency condition. */
  predicate Labelled(ps: seq<Prediction>) {
    forall k | 0 <= k < |ps| ::
      ps[k].condition in DiseaseLabels && ps[k].emergency == (ps[k].condition in EmergencyConditions)
  }

  /** The loop over the first topK entries reads them all without raising. */
  predicate Readable(net: NetOutput, topK: nat) {
    net.TopKOutput? && topK <= |net.ranked|
    && forall k | 0 <= k < topK :: net.ranked[k].index < |DiseaseLabels|
  }

  /** `predict`: the first topK entries of the network's ranking become
      predictions in rank order; any exception gives the empty list. */
  method Predict(net: NetOutput, topK: nat) returns (results: seq<Prediction>)
    ensures Labelled(results)
    ensures !Readable(net, topK) ==> results == []
    ensures Readable(net, topK) ==> |results| == topK
    ensures Readable(net, topK) ==> forall k | 0 <= k < topK ::
      results[k].condition == DiseaseLabels[net.ranked[k].index]
      && results[k].confidence == net.ranked[k].confidence
  {
    if net.NetFailed? {
      return [];
    }
    results := [];
    var i := 0;
    while i < topK
      invariant 0 <= i <= topK
      invariant |results| == i <= |net.ranked|
      invariant Labelled(results)
      invariant forall k | 0 <= k < i :: net.ranked[k].index < |DiseaseLabels|
      invariant forall k | 0 <= k < i ::
        results[k].condition == DiseaseLabels[net.ranked[k].index]
        && results[k].confidence == net.ranked[k].confidence
    {
      if i >= |net.ranked| || net.ranked[i].index >= |DiseaseLabels| {
        // IndexError, caught by the handler
        return [];
      }
      var disease := DiseaseLabels[net.ranked[i].index];
      var isEmergency := disease in EmergencyConditions;
      results := results + [Prediction(disease, net.ranked[i].confidence, isEmergency)];
      i := i + 1;
    }
  }

  // ---------------------------------------------------------------------
  // ai_recommend

  /** The outcome of the body of `ai_recommend`'s try block up to `predict`:
      the list predict(symptoms, 3) returned, or an exception raised in the
      block (by the logging around the call, for one). */
  datatype PredictRun = Raised(error: string) | Predicted(predictions: seq<Prediction>)

  /** The dictionary `ai_recommend` returns; keys it leaves out are None. */
  datatype AiResult = AiResult(
    success: bool,
    condition: string,
    confidence: real,
    emergency: Option<bool>,
    alternatives: Option<seq<Prediction>>,
    suggestions: Option<seq<Prediction>>,
    message: string)

  predicate Confident(ps: seq<Prediction>) {
    ps != [] && ps[0].confidence >= ConfidenceThreshold
  }

  /** `ai_recommend`: accept the top prediction when its confidence reaches
      the threshold; otherwise report failure. It never raises. */
  function AiRecommend(run: PredictRun): (r: AiResult)
    ensures r.success <==> run.Predicted? && Confident(run.predictions)
    ensures run.Raised? || run.predictions == [] ==>
      r.condition == "General Physician" && r.confidence == 0.0
      && r.emergency.None? && r.alternatives.None? && r.suggestions.None?
    ensures run.Predicted? && run.predictions != [] ==>
      r.condition == run.predictions[0].condition && r.confidence == run.predictions[0].confidence
    ensures r.success ==>
      r.emergency == Some(run.predictions[0].emergency)
      && r.alternatives == Some(run.predictions[1..]) && r.suggestions.None?
    ensures run.Predicted? && run.predictions != [] && !r.success ==>
      r.suggestions == Some(run.predictions) && r.emergency.None? && r.alternatives.None?
    ensures run.Predicted? && Labelled(run.predictions) ==> r.condition in DiseaseLabels
  {
    match run
    case Raised(e) =>
      AiResult(false, "General Physician", 0.0, None, None, None, "AI processing error: " + e)
    case Predicted(predictions) =>
      if predictions == [] then
        AiResult(false, "General Physician", 0.0, None, None, None, "AI model prediction failed")
      else
        var top := predictions[0];
        if top.confidence >= ConfidenceThreshold then
          AiResult(true, top.condition, top.confidence, Some(top.emergency),
                   Some(predictions[1..]), None, "High confidence AI recommendation")
        else
          AiResult(false, top.condition, top.confidence, None, None,
                   Some(predictions), "Low confidence in AI recommendation")
  }

  /** `ai_recommend` on the network's output for the symptoms: `predict`
      with top_k = 3, whose list then meets the threshold decision. */
  method AiRecommendFromNetwork(net: NetOutput) returns (predictions: seq<Prediction>, r: AiResult)
    ensures Labelled(predictions)
    ensures predictions == [] <==> !Readable(net, TopK)
    ensures predictions != [] ==>
      |predictions| == TopK
      && (forall k | 0 <= k < TopK :: predictions[k].condition == DiseaseLabels[net.ranked[k].index])
    ensures r == AiRecommend(Predicted(predictions))
    ensures r.condition in DiseaseLabels
  {
    predictions := Predict(net, TopK);
    r := AiRecommend(Predicted(predictions));
  }
}
