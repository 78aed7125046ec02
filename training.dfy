/** The preprocessing and label numbering of training_enhanced.py: its own
    copy of the medical text cleaning, the numbering of the disease column
    by first appearance, and the two top-level column updates of the data
    frame. CSV reading, augmentation, splitting and training are outside
    this model. */
module Training {
  import opened Text
  import ModelPredictor

  /** The training script's own copy of the abbreviation table. */
  const MedicalAbbr: seq<(string, string)> := [
    ("hr", "heart rate"), ("bp", "blood pressure"), ("temp", "temperature"),
    ("c/o", "complains of"), ("sob", "shortness of breath"),
    ("cp", "chest pain"), ("ha", "headache"), ("n/v", "nausea vomiting")
  ]

  /** What the training-time `clean_medical_text` computes: the same steps
      as at inference time, without the `strip` after lower-casing. */
  function CleanedText(text: string): string {
    CollapseWhitespace(ReplaceNonWord(ReplaceEach(Lower(text), MedicalAbbr)))
  }

  /** `clean_medical_text`: the expansion loop rebinds the text once per
      table entry. */
  method CleanMedicalText(text: string) returns (r: string)
    ensures r == CleanedText(text)
    ensures SingleSpaced(r)
    ensures forall c | c in r :: IsWordChar(c) || c == ' '
    ensures NoUpper(r)
  {
    var start := Lower(text);
    var t := start;
    var i := 0;
    while i < |MedicalAbbr|
      invariant 0 <= i <= |MedicalAbbr|
      invariant ReplaceEach(t, MedicalAbbr[i..]) == ReplaceEach(start, MedicalAbbr)
    {
      var abbr, full := MedicalAbbr[i].0, MedicalAbbr[i].1;
      ReplaceEachStep(t, MedicalAbbr, i);
      t := Replace(t, abbr, full);
      i := i + 1;
    }
    r := CollapseWhitespace(ReplaceNonWord(t));
    CleanedShape(t);
    assert MedicalAbbr == ModelPredictor.MedicalAbbr;
    ModelPredictor.AbbrTableShape();
    ReplaceEachNoUpper(start, MedicalAbbr);
    CleanedNoUpper(t);
  }

  /** Training and inference clean every text the same way: the tables are
      the same, the extra `strip` only removes whitespace that no pattern
      touches and that the final split drops anyway. */
  lemma TrainingMatchesInference(text: string)
    ensures CleanedText(text) == ModelPredictor.CleanedText(text)
  {
    assert MedicalAbbr == ModelPredictor.MedicalAbbr;
    ModelPredictor.AbbrTableShape();
    var lowered := Lower(text);
    var s := Strip(lowered);
    var pre, post := StripSplits(lowered);
    ReplaceEachOuterSpace(pre, s, post, MedicalAbbr);
    var e := ReplaceEach(s, MedicalAbbr);
    ReplaceNonWordOuterSpace(pre, e, post);
    CollapseIgnoresOuterSpace(pre, ReplaceNonWord(e), post);
  }

  // ---------------------------------------------------------------------
  // label numbering

  predicate Distinct(s: seq<string>) {
    forall i, j | 0 <= i < j < |s| :: s[i] != s[j]
  }

  /** The position of the first occurrence of x in col. */
  function FirstIndex(col: seq<string>, x: string): (p: nat)
    requires x in col
    ensures p < |col| && col[p] == x && x !in col[..p]
  {
    if col[0] == x then 0
    else
      var p := 1 + FirstIndex(col[1..], x);
      assert col[..p] == [col[0]] + col[1..][..p - 1];
      p
  }

  /** `df['disease'].unique()`: the distinct values of the column, each
      once. */
  function Unique(col: seq<string>): (r: seq<string>)
    ensures Distinct(r)
    ensures forall x :: x in r <==> x in col
    decreases |col|
  {
    if col == [] then []
    else
      var u := Unique(col[..|col| - 1]);
      var x := col[|col| - 1];
      assert col == col[..|col| - 1] + [x];
      if x in u then u else u + [x]
  }

  lemma {:induction false} FirstIndexAppend(col: seq<string>, x: string, y: string)
    requires y in col
    ensures FirstIndex(col + [x], y) == FirstIndex(col, y)
  {
    var p := FirstIndex(col, y);
    var q := FirstIndex(col + [x], y);
    assert (col + [x])[p] == y;
  }

  /** `unique` lists the values in the order they first appear in the
      column. */
  lemma {:induction false} UniqueFirstAppearanceOrder(col: seq<string>)
    ensures forall i, j | 0 <= i < j < |Unique(col)| ::
      FirstIndex(col, Unique(col)[i]) < FirstIndex(col, Unique(col)[j])
    decreases |col|
  {
    if col != [] {
      var init := col[..|col| - 1];
      var x := col[|col| - 1];
      assert col == init + [x];
      UniqueFirstAppearanceOrder(init);
      var u := Unique(init);
      forall y | y in u ensures FirstIndex(col, y) == FirstIndex(init, y) {
        FirstIndexAppend(init, x, y);
      }
      if x !in u {
        assert x !in init;
        var q := FirstIndex(col, x);
        forall i | 0 <= i < |u| ensures FirstIndex(col, u[i]) < q {
          assert u[i] in init;
        }
      }
    }
  }

  /** A map that gives distinct keys distinct values. */
  predicate Injective(m: map<string, nat>) {
    forall a, b | a in m && b in m && a != b :: m[a] != m[b]
  }

  /** `label_to_id`: each label numbered by its position in the label
      list. */
  function LabelToId(names: seq<string>): (m: map<string, nat>)
    requires Distinct(names)
    ensures m.Keys == set i | 0 <= i < |names| :: names[i]
    ensures forall i | 0 <= i < |names| :: m[names[i]] == i
    ensures Injective(m)
  {
    var m := map i | 0 <= i < |names| :: names[i] := i;
    assert forall i | 0 <= i < |names| :: m[names[i]] == i;
    m
  }

  /** `id_to_label`: the inversion of `label_to_id`. */
  function IdToLabel(m: map<string, nat>): (inv: map<nat, string>)
    requires Injective(m)
    ensures inv.Keys == m.Values
    ensures forall l | l in m :: m[l] in inv && inv[m[l]] == l
  {
    var inv := map l | l in m :: m[l] := l;
    assert inv.Keys == m.Values by {
      forall v | v in m.Values ensures v in inv.Keys {
        var l :| l in m && m[l] == v;
      }
    }
    inv
  }

  /** The two maps of the training script are inverse bijections between
      the labels and the ids 0..n-1. */
  lemma {:induction false} LabelNumberingBijection(names: seq<string>)
    requires Distinct(names)
    ensures forall i :: i in IdToLabel(LabelToId(names)) <==> 0 <= i < |names|
    ensures forall i | 0 <= i < |names| :: IdToLabel(LabelToId(names))[i] == names[i]
    ensures forall l | l in LabelToId(names) :: LabelToId(names)[l] < |names|
  {
    var m := LabelToId(names);
    var inv := IdToLabel(m);
    forall i | 0 <= i < |names| ensures i in inv && inv[i] == names[i] {
      assert m[names[i]] == i;
    }
    assert forall i | i in inv :: 0 <= i < |names| by {
      forall i | i in inv ensures 0 <= i < |names| {
        var l :| l in m && m[l] == i;
        var k :| 0 <= k < |names| && names[k] == l;
      }
    }
    forall l | l in m ensures m[l] < |names| {
      var k :| 0 <= k < |names| && names[k] == l;
    }
  }

  /** `df['disease'].map(label_to_id)`: the id of every row's disease. */
  function Labels(col: seq<string>): (labels: seq<nat>)
    ensures |labels| == |col|
    ensures forall i | 0 <= i < |col| ::
      labels[i] < |Unique(col)| && Unique(col)[labels[i]] == col[i]
  {
    var names := Unique(col);
    var m := LabelToId(names);
    forall x | x in col ensures x in m && m[x] < |names| && names[m[x]] == x {
      assert x in names;
      var k :| 0 <= k < |names| && names[k] == x;
    }
    var labels: seq<nat> := seq(|col|, i requires 0 <= i < |col| => m[col[i]]);
    labels
  }

  /** The classifier decodes output index i as the i-th entry of its own
      fixed label list; the training script numbers labels by first
      appearance in the data. Nothing in the code links the two. Under the
      assumption that the data lists its diseases first in exactly that
      order, every training row's id decodes to its own disease at
      inference time. */
  lemma LabelsAgreeWithPredictor(col: seq<string>)
    requires Unique(col) == ModelPredictor.DiseaseLabels
    ensures forall i | 0 <= i < |col| ::
      Labels(col)[i] < |ModelPredictor.DiseaseLabels| &&
      ModelPredictor.DiseaseLabels[Labels(col)[i]] == col[i]
  {
  }

  // ---------------------------------------------------------------------
  // the data frame

  /** The columns of the training data frame that the script rewrites in
      place. */
  class Frame {
    var diseases: seq<string>
    var symptoms: seq<string>
    var labels: seq<nat>

    constructor (diseases: seq<string>, symptoms: seq<string>)
      requires |diseases| == |symptoms|
      ensures this.diseases == diseases && this.symptoms == symptoms && labels == []
    {
      this.diseases := diseases;
      this.symptoms := symptoms;
      labels := [];
    }

    /** `df['symptoms'] = df['symptoms'].apply(clean_medical_text)`. */
    method CleanSymptoms()
      modifies this
      ensures |symptoms| == |old(symptoms)|
      ensures forall i | 0 <= i < |symptoms| :: symptoms[i] == CleanedText(old(symptoms)[i])
      ensures diseases == old(diseases) && labels == old(labels)
    {
      var column := symptoms;
      symptoms := seq(|column|, i requires 0 <= i < |column| => CleanedText(column[i]));
    }

    /** `df['label'] = df['disease'].map(label_to_id)`. */
    method AssignLabels()
      modifies this
      ensures labels == Labels(diseases)
      ensures forall i | 0 <= i < |diseases| :: Unique(diseases)[labels[i]] == diseases[i]
      ensures diseases == old(diseases) && symptoms == old(symptoms)
    {
      labels := Labels(diseases);
    }
  }
}
