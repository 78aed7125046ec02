/** The specialty recommendation of app.py: the rule-based fallback over an
    ordered phrase table, the wrapper that prefers the classifier's answer,
    the removal of the emergency marker before the doctor lookup, and the
    seeded doctors that lookup searches. */
module Recommender {
  import opened Text
  import opened Wrappers
  import ModelPredictor

  // The fallback's phrase table, group by group as the source lists it.
  const EmergencyPhrases: seq<(string, string)> :=
    [("chest pain", "Heart Attack"), ("sharp chest pain", "Heart Attack"), ("difficulty breathing", "Heart Attack"), ("shortness of breath", "Heart Attack"), ("sudden weakness", "Stroke"), ("slurred speech", "Stroke"), ("severe pain", "Kidney Stones")]
  const RespiratoryPhrases: seq<(string, string)> :=
    [("cough", "Asthma"), ("wheezing", "Asthma"), ("asthma", "Asthma"), ("breathing problem", "Asthma")]
  const SkinPhrases: seq<(string, string)> :=
    [("skin rash", "Psoriasis"), ("red patches", "Psoriasis"), ("itching skin", "Psoriasis"), ("dry skin", "Psoriasis")]
  const NeurologicalPhrases: seq<(string, string)> :=
    [("headache", "Migraine"), ("migraine", "Migraine"), ("dizziness", "Migraine")]
  const GastrointestinalPhrases: seq<(string, string)> :=
    [("stomach pain", "Gastritis"), ("abdominal pain", "Gastritis"), ("nausea", "Gastritis"), ("vomiting", "Gastritis")]
  const KidneyPhrases: seq<(string, string)> :=
    [("kidney pain", "Chronic Kidney Disease"), ("back pain", "Chronic Kidney Disease"), ("urinary problems", "Chronic Kidney Disease")]
  const BloodPhrases: seq<(string, string)> :=
    [("fatigue", "Anemia"), ("weakness", "Anemia"), ("pale skin", "Anemia")]
  const JointPhrases: seq<(string, string)> :=
    [("joint pain", "Osteoarthritis"), ("swelling joints", "Osteoarthritis"), ("stiffness", "Osteoarthritis")]
  const InfectiousPhrases: seq<(string, string)> :=
    [("fever", "Chickenpox"), ("blisters", "Chickenpox"), ("rash", "Chickenpox")]
  const DiabetesPhrases: seq<(string, string)> :=
    [("thirst", "Diabetes"), ("frequent urination", "Diabetes")]
  const VeinPhrases: seq<(string, string)> :=
    [("swollen veins", "Varicose Veins"), ("leg pain", "Varicose Veins")]
  const HypertensionPhrases: seq<(string, string)> :=
    [("high blood pressure", "Hypertension"), ("blood pressure", "Hypertension")]
  const CovidPhrases: seq<(string, string)> :=
    [("covid", "COVID-19"), ("loss of taste", "COVID-19"), ("loss of smell", "COVID-19")]
  const TuberculosisPhrases: seq<(string, string)> :=
    [("tuberculosis", "Tuberculosis"), ("blood in sputum", "Tuberculosis")]
  const AllergyPhrases: seq<(string, string)> :=
    [("sneezing", "Allergy"), ("runny nose", "Allergy"), ("allergic", "Allergy")]
  const MentalHealthPhrases: seq<(string, string)> :=
    [("depression", "Depression"), ("sadness", "Depression"), ("anxiety", "Depression")]

  /** The fallback's phrase table, in its insertion order. */
  const SymptomMapping: seq<(string, string)> :=
    EmergencyPhrases + RespiratoryPhrases + SkinPhrases + NeurologicalPhrases +
    GastrointestinalPhrases + KidneyPhrases + BloodPhrases + JointPhrases +
    InfectiousPhrases + DiabetesPhrases + VeinPhrases + HypertensionPhrases +
    CovidPhrases + TuberculosisPhrases + AllergyPhrases + MentalHealthPhrases

  const DefaultSpecialty: string := "General Physician"

  // ---------------------------------------------------------------------
  // fallback_recommendation

  /** The first pass from entry k on: the earliest entry whose phrase occurs
      in s. */
  function FirstPhraseFrom(s: string, table: seq<(string, string)>, k: nat): (r: Option<nat>)
    requires k <= |table|
    ensures r.Some? ==>
      k <= r.value < |table| && Contains(s, table[r.value].0)
      && forall j | k <= j < r.value :: !Contains(s, table[j].0)
    ensures r.None? ==> forall j | k <= j < |table| :: !Contains(s, table[j].0)
    decreases |table| - k
  {
    if k == |table| then None
    else if Contains(s, table[k].0) then Some(k)
    else FirstPhraseFrom(s, table, k + 1)
  }

  /** The first pass: the earliest entry whose phrase is a substring of s,
      or None when no phrase is. */
  function FirstPhrase(s: string, table: seq<(string, string)>): (r: Option<nat>)
    ensures r.Some? ==>
      r.value < |table| && Contains(s, table[r.value].0)
      && forall j | 0 <= j < r.value :: !Contains(s, table[j].0)
    ensures r.None? <==> forall j | 0 <= j < |table| :: !Contains(s, table[j].0)
  {
    FirstPhraseFrom(s, table, 0)
  }

  /** The word pass's test: a word longer than four characters that occurs
      inside the phrase (not the phrase inside the word). */
  predicate WordFits(word: string, phrase: string) {
    Contains(phrase, word) && |word| > 4
  }

  /** The inner loop of the word pass from entry k on. */
  function WordMatchFrom(word: string, table: seq<(string, string)>, k: nat): (r: Option<nat>)
    requires k <= |table|
    ensures r.Some? ==>
      k <= r.value < |table| && WordFits(word, table[r.value].0)
      && forall j | k <= j < r.value :: !WordFits(word, table[j].0)
    ensures r.None? ==> forall j | k <= j < |table| :: !WordFits(word, table[j].0)
    decreases |table| - k
  {
    if k == |table| then None
    else if WordFits(word, table[k].0) then Some(k)
    else WordMatchFrom(word, table, k + 1)
  }

  /** The word pass from word i on: the first word, in order, that fits some
      phrase, with the earliest phrase it fits. */
  function WordPassFrom(words: seq<string>, table: seq<(string, string)>, i: nat): (r: Option<(nat, nat)>)
    requires i <= |words|
    ensures r.Some? ==>
      i <= r.value.0 < |words| && r.value.1 < |table|
      && WordFits(words[r.value.0], table[r.value.1].0)
      && (forall j | 0 <= j < r.value.1 :: !WordFits(words[r.value.0], table[j].0))
      && forall w, j | i <= w < r.value.0 && 0 <= j < |table| :: !WordFits(words[w], table[j].0)
    ensures r.None? ==>
      forall w, j | i <= w < |words| && 0 <= j < |table| :: !WordFits(words[w], table[j].0)
    decreases |words| - i
  {
    if i == |words| then None
    else match WordMatchFrom(words[i], table, 0)
      case Some(k) => Some((i, k))
      case None => WordPassFrom(words, table, i + 1)
  }

  /** The two passes of `fallback_recommendation` over the lower-cased
      symptoms s: the specialty of the earliest phrase found in s; failing
      that, of the first word that fits a phrase; failing that, the general
      physician. */
  function Passes(s: string, table: seq<(string, string)>): (r: string)
    ensures r == DefaultSpecialty || exists k | 0 <= k < |table| :: r == table[k].1
  {
    match FirstPhrase(s, table)
    case Some(k) => table[k].1
    case None =>
      match WordPassFrom(Words(s), table, 0)
      case Some(m) => table[m.1].1
      case None => DefaultSpecialty
  }

  /** `fallback_recommendation`: the two passes over the lower-cased
      symptoms with the fixed table. */
  function FallbackRecommendation(symptoms: string): (r: string)
    ensures r == DefaultSpecialty || exists k | 0 <= k < |SymptomMapping| :: r == SymptomMapping[k].1
  {
    Passes(Lower(symptoms), SymptomMapping)
  }

  /** The first pass decides whenever some phrase occurs in s: the earliest
      such phrase's specialty is the answer. */
  lemma PassesEarliestPhrase(s: string, table: seq<(string, string)>, k: nat)
    requires k < |table| && Contains(s, table[k].0)
    requires forall j | 0 <= j < k :: !Contains(s, table[j].0)
    ensures Passes(s, table) == table[k].1
  {
    var r := FirstPhrase(s, table);
    assert r.Some?;
  }

  /** The word pass runs only when no phrase occurs in s, and then the first
      word in order that fits, with the first phrase in order that it fits,
      decides. */
  lemma PassesWordPass(s: string, table: seq<(string, string)>, i: nat, k: nat)
    requires forall j | 0 <= j < |table| :: !Contains(s, table[j].0)
    requires i < |Words(s)| && k < |table|
    requires WordFits(Words(s)[i], table[k].0)
    requires forall j | 0 <= j < k :: !WordFits(Words(s)[i], table[j].0)
    requires forall w, j | 0 <= w < i && 0 <= j < |table| :: !WordFits(Words(s)[w], table[j].0)
    ensures Passes(s, table) == table[k].1
  {
    assert FirstPhrase(s, table).None?;
    var r := WordPassFrom(Words(s), table, 0);
    assert r.Some? && r.value.0 == i;
  }

  /** With no entry naming the general physician, that is the answer
      exactly when neither pass finds anything. */
  lemma PassesDefault(s: string, table: seq<(string, string)>)
    requires forall k | 0 <= k < |table| :: table[k].1 != DefaultSpecialty
    ensures (forall j | 0 <= j < |table| :: !Contains(s, table[j].0))
            && (forall w, j | 0 <= w < |Words(s)| && 0 <= j < |table| :: !WordFits(Words(s)[w], table[j].0))
            <==> Passes(s, table) == DefaultSpecialty
  {
    var f := FirstPhrase(s, table);
    if f.Some? {
      assert Passes(s, table) == table[f.value].1;
    } else {
      var r := WordPassFrom(Words(s), table, 0);
      if r.Some? {
        var w, j := r.value.0, r.value.1;
        assert Passes(s, table) == table[j].1 != DefaultSpecialty;
        assert 0 <= w < |Words(s)| && 0 <= j < |table| && WordFits(Words(s)[w], table[j].0);
        assert !(forall w0, j0 | 0 <= w0 < |Words(s)| && 0 <= j0 < |table| :: !WordFits(Words(s)[w0], table[j0].0));
      } else {
        assert Passes(s, table) == DefaultSpecialty;
      }
    }
  }

  /** Words of four characters or fewer never decide the word pass. */
  lemma ShortWordsNeverMatch(word: string, phrase: string)
    requires |word| <= 4
    ensures !WordFits(word, phrase)
  {
  }

  lemma LowerAppend(a: string, b: string)
    ensures Lower(a + b) == Lower(a) + Lower(b)
  {
  }

  /** Symptoms holding "chest pain" in any mix of cases are sent to the
      heart attack specialty, whatever else they say. */
  lemma ChestPainAnyCase(pre: string, t: string, post: string)
    requires Lower(t) == "chest pain"
    ensures FallbackRecommendation(pre + t + post) == "Heart Attack"
  {
    var s := pre + t + post;
    LowerAppend(pre + t, post);
    LowerAppend(pre, t);
    var l := Lower(s);
    assert l == Lower(pre) + "chest pain" + Lower(post);
    var phrase := SymptomMapping[0].0;
    assert phrase == "chest pain";
    assert StartsWith(l[|Lower(pre)|..], phrase) by {
      assert l[|Lower(pre)|..][..|phrase|] == phrase;
    }
    assert Contains(l, phrase);
    PassesEarliestPhrase(l, SymptomMapping, 0);
  }

  /** Every specialty of g is a classifier label, and neither "Flu" nor
      the general physician. */
  predicate KnownSpecialties(g: seq<(string, string)>) {
    forall k | 0 <= k < |g| ::
      g[k].1 in ModelPredictor.DiseaseLabels && g[k].1 != "Flu" && g[k].1 != DefaultSpecialty
  }

  lemma KnownAppend(a: seq<(string, string)>, b: seq<(string, string)>)
    requires KnownSpecialties(a) && KnownSpecialties(b)
    ensures KnownSpecialties(a + b)
  {
    forall k | 0 <= k < |a + b|
      ensures (a + b)[k].1 in ModelPredictor.DiseaseLabels
      ensures (a + b)[k].1 != "Flu" && (a + b)[k].1 != DefaultSpecialty
    {
      if k < |a| {
        assert (a + b)[k] == a[k];
      } else {
        assert (a + b)[k] == b[k - |a|];
      }
    }
  }

  lemma KnownGroups1()
    ensures KnownSpecialties(EmergencyPhrases) && KnownSpecialties(RespiratoryPhrases)
    ensures KnownSpecialties(SkinPhrases) && KnownSpecialties(NeurologicalPhrases)
  {
  }

  lemma KnownGroups2()
    ensures KnownSpecialties(GastrointestinalPhrases) && KnownSpecialties(KidneyPhrases)
    ensures KnownSpecialties(BloodPhrases) && KnownSpecialties(JointPhrases)
  {
  }

  lemma KnownGroups3()
    ensures KnownSpecialties(InfectiousPhrases) && KnownSpecialties(DiabetesPhrases)
    ensures KnownSpecialties(VeinPhrases) && KnownSpecialties(HypertensionPhrases)
  {
  }

  lemma KnownGroups4()
    ensures KnownSpecialties(CovidPhrases) && KnownSpecialties(TuberculosisPhrases)
    ensures KnownSpecialties(AllergyPhrases) && KnownSpecialties(MentalHealthPhrases)
  {
  }

  /** Every specialty of the table is a label of the classifier other than
      "Flu", and none is the default. */
  lemma TableValuesAreLabels()
    ensures KnownSpecialties(SymptomMapping)
  {
    KnownGroups1(); KnownGroups2(); KnownGroups3(); KnownGroups4();
    var t := EmergencyPhrases;
    KnownAppend(t, RespiratoryPhrases);
    t := t + RespiratoryPhrases;
    KnownAppend(t, SkinPhrases);
    t := t + SkinPhrases;
    KnownAppend(t, NeurologicalPhrases);
    t := t + NeurologicalPhrases;
    KnownAppend(t, GastrointestinalPhrases);
    t := t + GastrointestinalPhrases;
    KnownAppend(t, KidneyPhrases);
    t := t + KidneyPhrases;
    KnownAppend(t, BloodPhrases);
    t := t + BloodPhrases;
    KnownAppend(t, JointPhrases);
    t := t + JointPhrases;
    KnownAppend(t, InfectiousPhrases);
    t := t + InfectiousPhrases;
    KnownAppend(t, DiabetesPhrases);
    t := t + DiabetesPhrases;
    KnownAppend(t, VeinPhrases);
    t := t + VeinPhrases;
    KnownAppend(t, HypertensionPhrases);
    t := t + HypertensionPhrases;
    KnownAppend(t, CovidPhrases);
    t := t + CovidPhrases;
    KnownAppend(t, TuberculosisPhrases);
    t := t + TuberculosisPhrases;
    KnownAppend(t, AllergyPhrases);
    t := t + AllergyPhrases;
    KnownAppend(t, MentalHealthPhrases);
    t := t + MentalHealthPhrases;
  }

  // ---------------------------------------------------------------------
  // seeded doctors and the doctor lookup

  datatype Doctor = Doctor(name: string, specialty: string)

  /** The doctors the database is seeded with when it has none. */
  const SeededDoctors: seq<Doctor> := [
    Doctor("Sharma", "Psoriasis"), Doctor("Patel", "Varicose Veins"),
    Doctor("Kumar", "Asthma"), Doctor("Gupta", "Chronic Kidney Disease"),
    Doctor("Singh", "Migraine"), Doctor("Reddy", "Gastritis"),
    Doctor("Yadav", "Anemia"), Doctor("Pal", "Osteoarthritis"),
    Doctor("Gour", "Chickenpox"), Doctor("Verma", "Diabetes"),
    Doctor("Tiwari", "Hypertension"), Doctor("Mishra", "General Physician"),
    Doctor("Saxena", "COVID-19"), Doctor("Thakur", "Tuberculosis"),
    Doctor("Dubey", "Allergy"), Doctor("Shukla", "Depression"),
    Doctor("Bajpai", "Heart Attack"), Doctor("Khanna", "Stroke"),
    Doctor("Mehra", "Kidney Stones"), Doctor("Joshi", "General Physician")
  ]

  /** `Doctor.query.filter_by(specialty=specialty).all()` over the doctors
      in `doctors`, in their order. */
  function DoctorsFor(specialty: string, doctors: seq<Doctor>): (r: seq<Doctor>)
    ensures forall d :: d in r <==> d in doctors && d.specialty == specialty
    ensures |r| <= |doctors|
  {
    if doctors == [] then []
    else
      var rest := DoctorsFor(specialty, doctors[1..]);
      assert doctors == [doctors[0]] + doctors[1..];
      if doctors[0].specialty == specialty then [doctors[0]] + rest else rest
  }

  /** The seeded specialties are the classifier's labels in the same order,
      except that "Flu" is replaced by a second general physician. */
  lemma SeededSpecialties()
    ensures |SeededDoctors| == |ModelPredictor.DiseaseLabels|
    ensures forall k | 0 <= k < |SeededDoctors| ::
      SeededDoctors[k].specialty
        == if k == 11 then DefaultSpecialty else ModelPredictor.DiseaseLabels[k]
    ensures ModelPredictor.DiseaseLabels[11] == "Flu"
  {
  }

  lemma SeededWithoutFlu()
    ensures forall d | d in SeededDoctors :: d.specialty != "Flu"
  {
  }

  /** The lookup finds nobody when no doctor has the specialty. */
  lemma {:induction false} DoctorsForNone(specialty: string, doctors: seq<Doctor>)
    requires forall d | d in doctors :: d.specialty != specialty
    ensures DoctorsFor(specialty, doctors) == []
  {
    if doctors != [] {
      assert doctors[0] in doctors;
      DoctorsForNone(specialty, doctors[1..]);
    }
  }

  /** No seeded doctor has the "Flu" specialty. */
  lemma FluHasNoDoctor()
    ensures DoctorsFor("Flu", SeededDoctors) == []
  {
    SeededWithoutFlu();
    DoctorsForNone("Flu", SeededDoctors);
  }

  /** Every classifier label finds a seeded doctor, except "Flu", which
      finds none. */
  lemma DoctorsForLabel(name: string)
    requires name in ModelPredictor.DiseaseLabels
    ensures DoctorsFor(name, SeededDoctors) == [] <==> name == "Flu"
  {
    var i :| 0 <= i < |ModelPredictor.DiseaseLabels| && ModelPredictor.DiseaseLabels[i] == name;
    if name != "Flu" {
      SeededSpecialties();
      assert SeededDoctors[i].specialty == name;
      assert SeededDoctors[i] in DoctorsFor(name, SeededDoctors);
    } else {
      FluHasNoDoctor();
    }
  }

  /** Every answer of the fallback finds a seeded doctor. */
  lemma FallbackHasDoctor(symptoms: string)
    ensures FallbackRecommendation(symptoms) in ModelPredictor.DiseaseLabels
    ensures DoctorsFor(FallbackRecommendation(symptoms), SeededDoctors) != []
  {
    var r := FallbackRecommendation(symptoms);
    if r == DefaultSpecialty {
      assert ModelPredictor.DiseaseLabels[19] == DefaultSpecialty;
    } else {
      var k :| 0 <= k < |SymptomMapping| && r == SymptomMapping[k].1;
      TableValuesAreLabels();
    }
    DoctorsForLabel(r);
  }

  // ---------------------------------------------------------------------
  // the emergency marker

  const EmergencySign: char := '\U{1F6A8}'

  /** The prefix `recommend_specialty` puts before an emergency condition. */
  const Marker: string := [EmergencySign, ' ']

  /** `specialty.replace('\U{1F6A8}', '').strip()` in `recommend`. */
  function CleanSpecialty(specialty: string): string {
    Strip(Replace(specialty, [EmergencySign], ""))
  }

  /** A name without the sign and without outer whitespace. */
  predicate PlainName(c: string) {
    EmergencySign !in c && (c != [] ==> !IsSpace(c[0]) && !IsSpace(c[|c| - 1]))
  }

  /** Cleaning gives back a plain name, with or without the marker in front
      of it. */
  lemma MarkerRoundTrip(c: string)
    requires PlainName(c)
    ensures CleanSpecialty(Marker + c) == c
    ensures CleanSpecialty(c) == c
  {
    var sign: string := [EmergencySign];
    ReplaceMissingChar(c, sign, "", EmergencySign);
    StripNoOuterSpace(c);
    var s := Marker + c;
    assert StartsWith(s, sign) by { assert s[..1] == sign; }
    assert s[1..] == [' '] + c;
    assert Replace(s, sign, "") == Replace([' '] + c, sign, "");
    assert !StartsWith([' '] + c, sign);
    assert ([' '] + c)[1..] == c;
    assert Replace([' '] + c, sign, "") == [' '] + c;
    assert LStrip([' '] + c) == LStrip(c);
  }

  /** Every classifier label is a plain name. */
  lemma LabelsArePlain()
    ensures forall k | 0 <= k < |ModelPredictor.DiseaseLabels| :: PlainName(ModelPredictor.DiseaseLabels[k])
  {
  }

  // ---------------------------------------------------------------------
  // recommend_specialty

  /** How the call into the classifier module ended: the import failed, the
      import or the call raised some other exception, or `ai_recommend` ran
      on the predictions of `predict`. */
  datatype AiCall =
    | ImportFailed(error: string)
    | Raised(error: string)
    | Called(run: ModelPredictor.PredictRun)

  /** The answer the classifier module gives, when it gives one. */
  function AiAnswer(call: AiCall): Option<ModelPredictor.AiResult> {
    if call.Called? then Some(ModelPredictor.AiRecommend(call.run)) else None
  }

  /** `recommend_specialty`: the classifier's condition on success, marked
      when it is an emergency; the fallback on anything else. */
  function RecommendSpecialty(symptoms: string, call: AiCall): (r: string)
    ensures AiAnswer(call).Some? && AiAnswer(call).value.success ==>
      var res := AiAnswer(call).value;
      r == if res.emergency.GetOr(false) then Marker + res.condition else res.condition
    ensures !(AiAnswer(call).Some? && AiAnswer(call).value.success) ==>
      r == FallbackRecommendation(symptoms)
  {
    match AiAnswer(call)
    case Some(res) =>
      if res.success then
        if res.emergency.GetOr(false) then Marker + res.condition else res.condition
      else FallbackRecommendation(symptoms)
    case None => FallbackRecommendation(symptoms)
  }

  /** The predictions the classifier produced, when it ran. */
  predicate ClassifierLabelled(call: AiCall) {
    call.Called? && call.run.Predicted? ==> ModelPredictor.Labelled(call.run.predictions)
  }

  /** A confident top prediction is the answer, marked exactly when its
      label is an emergency condition. */
  lemma RecommendConfident(symptoms: string, ps: seq<ModelPredictor.Prediction>)
    requires ModelPredictor.Labelled(ps) && ModelPredictor.Confident(ps)
    ensures var r := RecommendSpecialty(symptoms, Called(ModelPredictor.Predicted(ps)));
      r == if ps[0].condition in ModelPredictor.EmergencyConditions
           then Marker + ps[0].condition else ps[0].condition
  {
  }

  /** An import failure, any other exception, a failed prediction and a
      top prediction below the threshold all give the fallback. */
  lemma RecommendFallsBack(symptoms: string, call: AiCall)
    requires call.Called? && call.run.Predicted? ==> !ModelPredictor.Confident(call.run.predictions)
    ensures RecommendSpecialty(symptoms, call) == FallbackRecommendation(symptoms)
  {
  }

  /** After the marker is removed, the answer is always a classifier label
      with its lookup succeeding unless that label is "Flu". */
  lemma RecommendationFindsDoctor(symptoms: string, call: AiCall)
    requires ClassifierLabelled(call)
    ensures CleanSpecialty(RecommendSpecialty(symptoms, call)) in ModelPredictor.DiseaseLabels
    ensures var c := CleanSpecialty(RecommendSpecialty(symptoms, call));
      DoctorsFor(c, SeededDoctors) == [] <==> c == "Flu"
  {
    LabelsArePlain();
    var r := RecommendSpecialty(symptoms, call);
    var res := AiAnswer(call);
    if res.Some? && res.value.success {
      var c := res.value.condition;
      var k :| 0 <= k < |ModelPredictor.DiseaseLabels| && ModelPredictor.DiseaseLabels[k] == c;
      MarkerRoundTrip(c);
      DoctorsForLabel(c);
    } else {
      FallbackHasDoctor(symptoms);
      var k :| 0 <= k < |ModelPredictor.DiseaseLabels| && ModelPredictor.DiseaseLabels[k] == r;
      MarkerRoundTrip(r);
      DoctorsForLabel(r);
    }
  }

  /** A confident "Flu" answer is shown, and the doctor lookup for it finds
      nobody: no table entry and no seeded doctor carries that label. */
  lemma FluFindsNoDoctor(symptoms: string, ps: seq<ModelPredictor.Prediction>)
    requires ModelPredictor.Labelled(ps) && ModelPredictor.Confident(ps)
    requires ps[0].condition == "Flu"
    ensures RecommendSpecialty(symptoms, Called(ModelPredictor.Predicted(ps))) == "Flu"
    ensures DoctorsFor(CleanSpecialty("Flu"), SeededDoctors) == []
  {
    assert !ps[0].emergency by {
      assert ps[0].condition !in ModelPredictor.EmergencyConditions;
    }
    RecommendConfident(symptoms, ps);
    MarkerRoundTrip("Flu");
    FluHasNoDoctor();
  }

  /** `recommend_specialty` when the classifier module loads and runs: the
      network's output goes through `predict` and `ai_recommend`, and the
      answer, once its marker is removed, is a label whose doctor lookup
      fails only for "Flu". */
  method RecommendFromNetwork(symptoms: string, net: ModelPredictor.NetOutput)
    returns (predictions: seq<ModelPredictor.Prediction>, r: string)
    ensures ModelPredictor.Labelled(predictions)
    ensures predictions == [] || |predictions| == ModelPredictor.TopK
    ensures r == RecommendSpecialty(symptoms, Called(ModelPredictor.Predicted(predictions)))
    ensures CleanSpecialty(r) in ModelPredictor.DiseaseLabels
    ensures DoctorsFor(CleanSpecialty(r), SeededDoctors) == [] <==> CleanSpecialty(r) == "Flu"
  {
    var res;
    predictions, res := ModelPredictor.AiRecommendFromNetwork(net);
    var call := Called(ModelPredictor.Predicted(predictions));
    assert AiAnswer(call) == Some(res);
    if res.success {
      r := if res.emergency.GetOr(false) then Marker + res.condition else res.condition;
    } else {
      r := FallbackRecommendation(symptoms);
    }
    RecommendationFindsDoctor(symptoms, call);
  }
}
