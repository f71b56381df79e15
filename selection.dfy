/**
 * Label and confidence selection after inference in FishFeeder-ML/app.py:
 * `labels[np.argmax(predictions)]` and `np.max(predictions)`. Scores are reals.
 */
module Selection {
  import opened Outcomes

  /** The message numpy raises for the argmax of an empty array. */
  const EmptyArgMaxMessage: string := "attempt to get argmax of an empty sequence"
  /** The message Python raises for a list index past the end. */
  const IndexOutOfRangeMessage: string := "list index out of range"

  /** The pair the handler returns on success. */
  datatype Prediction = Prediction(prediction: string, confidence: real)

  /** `np.argmax`: the FIRST index holding a greatest score. */
  function ArgMax(scores: seq<real>): (i: nat)
    requires |scores| > 0
    ensures i < |scores|
    ensures forall j :: 0 <= j < |scores| ==> scores[j] <= scores[i]
    ensures forall j :: 0 <= j < i ==> scores[j] < scores[i]
  {
    if |scores| == 1 then 0
    else
      var k := ArgMax(scores[..|scores| - 1]);
      if scores[k] < scores[|scores| - 1] then |scores| - 1 else k
  }

  /** `np.max`: a greatest score. */
  function Max(scores: seq<real>): (m: real)
    requires |scores| > 0
    ensures m in scores
    ensures forall j :: 0 <= j < |scores| ==> scores[j] <= m
  {
    if |scores| == 1 then scores[0]
    else
      var m := Max(scores[..|scores| - 1]);
      assert scores[..|scores| - 1] + [scores[|scores| - 1]] == scores;
      if m < scores[|scores| - 1] then scores[|scores| - 1] else m
  }

  /** The two are defined independently; the maximum is the score at the argmax. */
  lemma MaxAtArgMax(scores: seq<real>)
    requires |scores| > 0
    ensures Max(scores) == scores[ArgMax(scores)]
  {
  }

  /** The first-maximum properties determine the index: ArgMax is the only index that has them. */
  lemma ArgMaxUnique(scores: seq<real>, k: nat)
    requires k < |scores|
    requires forall j :: 0 <= j < |scores| ==> scores[j] <= scores[k]
    requires forall j :: 0 <= j < k ==> scores[j] < scores[k]
    ensures ArgMax(scores) == k
  {
  }

  /**
   * `predicted_label = labels[np.argmax(predictions)]` followed by
   * `confidence = np.max(predictions)`: either step may raise, which the handler turns into a 500.
   */
  function SelectLabel(labels: seq<string>, scores: seq<real>): (r: Attempt<Prediction>)
    ensures |scores| == 0 ==> r == Raised(EmptyArgMaxMessage)
    ensures |scores| > 0 && ArgMax(scores) >= |labels| ==> r == Raised(IndexOutOfRangeMessage)
    ensures |scores| > 0 && ArgMax(scores) < |labels| ==> r.Value?
    ensures r.Value? ==>
      var i := ArgMax(scores);
      && i < |labels| && r.value.prediction == labels[i]
      && r.value.confidence == scores[i]
      && (forall j :: 0 <= j < |scores| ==> scores[j] <= r.value.confidence)
      && (forall j :: 0 <= j < i ==> scores[j] < r.value.confidence)
  {
    if |scores| == 0 then Raised(EmptyArgMaxMessage)
    else
      var i := ArgMax(scores);
      if i < |labels| then
        MaxAtArgMax(scores);
        Value(Prediction(labels[i], Max(scores)))
      else Raised(IndexOutOfRangeMessage)
  }

  /** When there is one label per score, as the model file and label file are meant to agree, selection never fails. */
  lemma MatchingLabelsSelect(labels: seq<string>, scores: seq<real>)
    requires |labels| == |scores| > 0
    ensures SelectLabel(labels, scores).Value?
    ensures SelectLabel(labels, scores).value.prediction in labels
  {
  }

  /** The first of several equal best scores wins. */
  lemma TieGoesToFirst()
    ensures ArgMax([0.25, 0.5, 0.5]) == 1
  {
    ArgMaxUnique([0.25, 0.5, 0.5], 1);
  }
}
