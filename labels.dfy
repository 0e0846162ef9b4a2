/** The per-pixel label step of the prediction script: an arg-max over the
    class axis of the score batch, cast to an unsigned 8-bit label.  Scores
    are modelled as integers; only their order matters here. */
module Labels {

  /** An unsigned 8-bit value. */
  newtype UInt8 = x: int | 0 <= x < 256

  /** Number of classes the network predicts by default. */
  const NumClasses: nat := 19

  /** `k` is the index of a maximal score of `s`. */
  predicate IsArgMax(s: seq<int>, k: int)
  {
    0 <= k < |s| && forall j :: 0 <= j < |s| ==> s[j] <= s[k]
  }

  /** The index of some maximal score.  Which index is returned among tied
      maxima is deliberately left unspecified by the contract. */
  function ArgMax(s: seq<int>): (k: nat)
    requires |s| > 0
    ensures IsArgMax(s, k)
  {
    if |s| == 1 then 0
    else
      var k := ArgMax(s[..|s| - 1]);
      if s[|s| - 1] > s[k] then |s| - 1 else k
  }

  /** The cast of a non-negative index to `uint8`: it keeps the low 8 bits. */
  function ToUInt8(k: nat): (b: UInt8)
    ensures k < 256 ==> b as int == k
    ensures (b as int) % 256 == k % 256
  {
    (k % 256) as UInt8
  }

  /** `b` is the 8-bit cast of the index of some maximal score of `s`. */
  ghost predicate IsLabelFor(s: seq<int>, b: UInt8)
  {
    exists k :: IsArgMax(s, k) && b as int == k % 256
  }

  /** The label of one pixel: the 8-bit cast of the index of a maximal
      class score.  With at most 256 classes it is a maximal index itself. */
  function Label(s: seq<int>): (b: UInt8)
    requires |s| > 0
    ensures IsLabelFor(s, b)
    ensures |s| <= 256 ==> IsArgMax(s, b as int)
  {
    ToUInt8(ArgMax(s))
  }

  /** Every pixel of every tile of a score batch has at least one class. */
  predicate HasClasses(scores: seq<seq<seq<seq<int>>>>)
  {
    forall i, r, c :: 0 <= i < |scores| && 0 <= r < |scores[i]| && 0 <= c < |scores[i][r]|
      ==> |scores[i][r][c]| > 0
  }

  /** `tf.cast(tf.argmax(scores, axis=3), tf.uint8)` over a batch of tiles:
      the label batch has the shape of the score batch without its class
      axis, tile `i` of the labels comes from tile `i` of the scores, and
      each label is the cast of a maximal class index of its pixel. */
  function LabelBatch(scores: seq<seq<seq<seq<int>>>>): (labels: seq<seq<seq<UInt8>>>)
    requires HasClasses(scores)
    ensures |labels| == |scores|
    ensures forall i, r :: 0 <= i < |scores| && 0 <= r < |scores[i]| ==>
      |labels[i]| == |scores[i]| && |labels[i][r]| == |scores[i][r]|
    ensures forall i, r, c :: 0 <= i < |scores| && 0 <= r < |scores[i]| && 0 <= c < |scores[i][r]| ==>
      IsLabelFor(scores[i][r][c], labels[i][r][c])
    ensures forall i, r, c :: 0 <= i < |scores| && 0 <= r < |scores[i]| && 0 <= c < |scores[i][r]| ==>
      (|scores[i][r][c]| <= 256 ==> IsArgMax(scores[i][r][c], labels[i][r][c] as int))
  {
    seq(|scores|, i requires 0 <= i < |scores| =>
      seq(|scores[i]|, r requires 0 <= r < |scores[i]| =>
        seq(|scores[i][r]|, c requires 0 <= c < |scores[i][r]| => Label(scores[i][r][c]))))
  }

  /** A class whose score beats every other class is the label. */
  lemma UniqueMaxIsLabel(s: seq<int>, k: nat)
    requires k < |s| <= 256
    requires forall j :: 0 <= j < |s| && j != k ==> s[j] < s[k]
    ensures Label(s) as int == k
  {
  }

  /** With the default 19 classes the label of every pixel is one of the
      classes and a maximal one. */
  lemma DefaultLabelsAreClasses(s: seq<int>)
    requires |s| == NumClasses
    ensures Label(s) as int < NumClasses && IsArgMax(s, Label(s) as int)
  {
  }

  /** Every pixel of every tile with class `k` strictly dominant, and at most
      256 classes: every label of the batch is `k`. */
  lemma DominantClassEverywhere(scores: seq<seq<seq<seq<int>>>>, k: nat)
    requires HasClasses(scores)
    requires forall i, r, c :: 0 <= i < |scores| && 0 <= r < |scores[i]| && 0 <= c < |scores[i][r]| ==>
      (k < |scores[i][r][c]| <= 256
       && forall j :: 0 <= j < |scores[i][r][c]| && j != k ==> scores[i][r][c][j] < scores[i][r][c][k])
    ensures forall i, r, c :: 0 <= i < |scores| && 0 <= r < |scores[i]| && 0 <= c < |scores[i][r]| ==>
      LabelBatch(scores)[i][r][c] as int == k
  {
    var labels := LabelBatch(scores);
    forall i, r, c | 0 <= i < |scores| && 0 <= r < |scores[i]| && 0 <= c < |scores[i][r]|
      ensures labels[i][r][c] as int == k
    {
      UniqueMaxIsLabel(scores[i][r][c], k);
    }
  }
}
