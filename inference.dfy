/** The selection at the end of `make_inference` in run.py: `np.argmax` and `np.max`
    over the probability vector the classifier returns. */
module Inference {
  import opened Wrappers

  /** `np.argmax`: the lowest index holding the largest value. */
  function ArgMax(p: seq<real>): (i: nat)
    requires |p| > 0
    ensures i < |p|
    ensures forall j :: 0 <= j < |p| ==> p[j] <= p[i]
    ensures forall j :: 0 <= j < i ==> p[j] < p[i]
  {
    if |p| == 1 then 0
    else
      var k := ArgMax(p[..|p| - 1]);
      if p[|p| - 1] > p[k] then |p| - 1 else k
  }

  /** `np.max`: the largest value, as a left-to-right fold. */
  function MaxValue(p: seq<real>): (m: real)
    requires |p| > 0
    ensures m in p
    ensures forall j :: 0 <= j < |p| ==> p[j] <= m
  {
    if |p| == 1 then p[0]
    else
      var m := MaxValue(p[..|p| - 1]);
      if p[|p| - 1] > m then p[|p| - 1] else m
  }

  /** The two numpy calls agree: the maximum is the value held at the arg-max. */
  lemma {:induction false} MaxIsValueAtArgMax(p: seq<real>)
    requires |p| > 0
    ensures MaxValue(p) == p[ArgMax(p)]
  {
    if |p| > 1 {
      var init := p[..|p| - 1];
      MaxIsValueAtArgMax(init);
      assert init[ArgMax(init)] == p[ArgMax(init)];
    }
  }

  /** The class selected from a probability vector. */
  datatype Top = Top(index: nat, probability: real)

  /** `first_prediction, np.max(predictions)`; an empty vector makes numpy raise. */
  function MakeInference(predictions: seq<real>): (r: Option<Top>)
    ensures r.None? <==> |predictions| == 0
    ensures r.Some? ==> r.value.index < |predictions|
    ensures r.Some? ==> r.value.probability == predictions[r.value.index]
    ensures r.Some? ==> forall j :: 0 <= j < |predictions| ==> predictions[j] <= r.value.probability
    ensures r.Some? ==> forall j :: 0 <= j < r.value.index ==> predictions[j] < r.value.probability
  {
    if |predictions| == 0 then None
    else
      MaxIsValueAtArgMax(predictions);
      Some(Top(ArgMax(predictions), MaxValue(predictions)))
  }

  /** The selection is determined: any index that holds the maximum with only smaller
      values before it is the one chosen. */
  lemma TopIsUnique(predictions: seq<real>, i: nat)
    requires i < |predictions|
    requires forall j :: 0 <= j < |predictions| ==> predictions[j] <= predictions[i]
    requires forall j :: 0 <= j < i ==> predictions[j] < predictions[i]
    ensures MakeInference(predictions) == Some(Top(i, predictions[i]))
  {
    var k := ArgMax(predictions);
    assert !(k < i) && !(i < k);
  }

  /** A clear winner, and a tie resolved to the lower index. */
  lemma SelectionExamples()
    ensures MakeInference([0.1, 0.85, 0.05]) == Some(Top(1, 0.85))
    ensures MakeInference([0.5, 0.5]) == Some(Top(0, 0.5))
    ensures MakeInference([]) == None
  {
    TopIsUnique([0.1, 0.85, 0.05], 1);
    TopIsUnique([0.5, 0.5], 0);
  }
}
