/**
 * models.py: the two places where the model wrappers add logic of their
 * own to what the models compute. The embedder keeps a Matryoshka prefix
 * of the embedding, and the jury names its four probabilities in a fixed
 * label order. The models' outputs are inputs here.
 */
module Models {
  import opened Text

  // ---------------------------------------------------------------------
  // Embedder.encode
  // ---------------------------------------------------------------------

  /**
   * `Embedder.encode` after the model call: `embedding[:dim]` when `dim` is
   * below the embedding's length, the whole embedding otherwise.
   */
  function Encode(embedding: seq<real>, dim: int): (v: seq<real>)
    ensures dim >= 0 ==> |v| == (if dim < |embedding| then dim else |embedding|)
    ensures dim < 0 ==> |v| == (if -dim < |embedding| then |embedding| + dim else 0)
    ensures v == embedding[..|v|]
    ensures dim >= |embedding| ==> v == embedding
  {
    if dim < |embedding| then SliceTo(embedding, dim) else embedding
  }

  /** Truncating to `d` and then to `d2 <= d` is truncating to `d2`. */
  lemma EncodeComposes(embedding: seq<real>, d: int, d2: int)
    ensures 0 <= d2 <= d ==> Encode(Encode(embedding, d), d2) == Encode(embedding, d2)
  {
    if 0 <= d2 <= d {
      var once := Encode(embedding, d);
      var twice := Encode(once, d2);
      assert once == embedding[..|once|];
      assert twice == once[..|twice|];
      assert |twice| == |Encode(embedding, d2)|;
      assert twice == embedding[..|twice|];
    }
  }

  /** Truncating twice to the same non-negative size is truncating once. */
  lemma EncodeIdempotent(embedding: seq<real>, d: int)
    ensures d >= 0 ==> Encode(Encode(embedding, d), d) == Encode(embedding, d)
  {
    EncodeComposes(embedding, d, d);
  }

  // ---------------------------------------------------------------------
  // Jury.predict
  // ---------------------------------------------------------------------

  /** `self.labels`: the order of the classifier's four outputs. */
  const JuryLabels: seq<string> := ["NTA", "YTA", "ESH", "NAH"]

  /** A dict from label to probability: its keys in insertion order, and the values. */
  datatype Consensus = Consensus(labels: seq<string>, probs: map<string, real>)

  /**
   * `Jury.predict` after the softmax: the labels zipped with the
   * probabilities, the shorter of the two deciding how many pairs there are.
   */
  function Predict(probs: seq<real>): (c: Consensus)
    ensures |c.labels| == (if |probs| < |JuryLabels| then |probs| else |JuryLabels|)
    ensures c.labels == JuryLabels[..|c.labels|]
    ensures forall l :: l in c.probs <==> l in c.labels
    ensures forall i :: 0 <= i < |c.labels| ==> c.probs[c.labels[i]] == probs[i]
  {
    var n := if |probs| < |JuryLabels| then |probs| else |JuryLabels|;
    Consensus(JuryLabels[..n], map i | 0 <= i < n :: JuryLabels[i] := probs[i])
  }

  /** The classifier has four outputs, so the keys are exactly NTA, YTA, ESH and NAH, in that order. */
  lemma PredictKeys(probs: seq<real>)
    ensures |probs| == 4 ==> Predict(probs).labels == ["NTA", "YTA", "ESH", "NAH"]
    ensures |probs| == 4 ==> forall i, j :: 0 <= i < j < 4 ==> Predict(probs).labels[i] != Predict(probs).labels[j]
  {
  }
}
