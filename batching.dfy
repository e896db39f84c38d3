/**
 * What the three resumable classification scripts share: the batch of fetched
 * images, the classifier call with its label mapping (`predict_batch`), writing the
 * labels back into the table, and the loop state the main loops update.
 */
module Batching {
  import opened Wrappers
  import opened Table

  /** A successfully fetched row: its table index and decoded image. */
  datatype Fetched = Fetched(idx: nat, image: Image)

  /** One completed future: the row index and the image, or None when the fetch failed. */
  datatype Completion = Completion(idx: nat, image: Option<Image>)

  /** The classifier's answer for one image: the top-1 class and its confidence,
      already formatted as the three-decimal text the table stores. */
  datatype Top1 = Top1(cls: int, conf: string)

  /** One line of `predict_batch`'s output: (index, label, confidence). */
  datatype Prediction = Prediction(idx: nat, verdict: string, conf: string)

  /** The classifier: one answer per image in input order, or None when it raises. */
  type Classifier = seq<Image> -> Option<seq<Top1>>

  /** The classifier answers every image it is given, in input order. */
  ghost predicate WellFormed(classify: Classifier)
  {
    forall images :: classify(images).Some? ==> |classify(images).value| == |images|
  }

  function Label(cls: int): string
  {
    if cls == 1 then "yes" else "no"
  }

  function Images(batch: seq<Fetched>): seq<Image>
  {
    seq(|batch|, i requires 0 <= i < |batch| => batch[i].image)
  }

  /** The i-th output line pairs the i-th batch index with the label of the i-th answer. */
  function Predictions(batch: seq<Fetched>, results: seq<Top1>): (out: seq<Prediction>)
    requires |results| == |batch|
    ensures |out| == |batch|
    ensures forall i :: 0 <= i < |out| ==>
      && out[i].idx == batch[i].idx
      && out[i].conf == results[i].conf
      && (out[i].verdict == "yes" <==> results[i].cls == 1)
      && (out[i].verdict == "no" <==> results[i].cls != 1)
    decreases |batch|
  {
    if batch == [] then []
    else
      var n := |batch| - 1;
      Predictions(batch[..n], results[..n])
        + [Prediction(batch[n].idx, Label(results[n].cls), results[n].conf)]
  }

  /** `predict_batch` as a value: None when the classifier raises. */
  function Predict(batch: seq<Fetched>, classify: Classifier): Option<seq<Prediction>>
    requires WellFormed(classify)
  {
    match classify(Images(batch))
    case None => None
    case Some(results) => Some(Predictions(batch, results))
  }

  /** `predict_batch`: classify the batch's images and pair each answer, in order,
      with the index it was fetched for. */
  method PredictBatch(batch: seq<Fetched>, classify: Classifier) returns (out: Option<seq<Prediction>>)
    requires WellFormed(classify)
    requires batch != []
    ensures out == Predict(batch, classify)
  {
    var answer := classify(Images(batch));
    if answer.None? {
      return None;
    }
    var results := answer.value;
    var acc: seq<Prediction> := [];
    for i := 0 to |results|
      invariant acc == Predictions(batch[..i], results[..i])
    {
      acc := acc + [Prediction(batch[i].idx, Label(results[i].cls), results[i].conf)];
      assert batch[..i + 1][..i] == batch[..i];
      assert results[..i + 1][..i] == results[..i];
    }
    assert batch[..|results|] == batch && results[..|results|] == results;
    out := Some(acc);
  }

  /** The row after `df.at[idx, 'prediction'] = label; df.at[idx, 'confidence'] = conf`. */
  function Labelled(r: Row, p: Prediction): Row
  {
    r.(prediction := Text(p.verdict), confidence := Text(p.conf))
  }

  /** The table after writing the predictions back in order. */
  function Written(rows: seq<Row>, preds: seq<Prediction>): (r: seq<Row>)
    requires forall p :: p in preds ==> p.idx < |rows|
    ensures |r| == |rows|
    ensures forall j :: 0 <= j < |rows| && (forall p :: p in preds ==> p.idx != j) ==> r[j] == rows[j]
    ensures forall j :: 0 <= j < |rows| ==> r[j].url == rows[j].url
    ensures forall j :: 0 <= j < |rows| ==>
      r[j] == rows[j] || exists p :: p in preds && p.idx == j && r[j] == Labelled(rows[j], p)
    decreases |preds|
  {
    if preds == [] then rows
    else
      var n := |preds| - 1;
      assert forall p :: p in preds[..n] ==> p in preds;
      var before := Written(rows, preds[..n]);
      before[preds[n].idx := Labelled(before[preds[n].idx], preds[n])]
  }

  /** With distinct indices, each predicted row holds exactly its own label. */
  lemma {:induction false} WrittenAt(rows: seq<Row>, preds: seq<Prediction>, k: nat)
    requires forall p :: p in preds ==> p.idx < |rows|
    requires forall i, j :: 0 <= i < j < |preds| ==> preds[i].idx != preds[j].idx
    requires k < |preds|
    ensures Written(rows, preds)[preds[k].idx] == Labelled(rows[preds[k].idx], preds[k])
    decreases |preds|
  {
    var n := |preds| - 1;
    assert forall p :: p in preds[..n] ==> p in preds;
    if k < n {
      WrittenAt(rows, preds[..n], k);
    } else {
      assert forall p :: p in preds[..n] ==> p.idx != preds[n].idx;
    }
  }

  /** Writing the predictions back into the table, one `df.at` pair per line. */
  method WriteBack(rows: array<Row>, preds: seq<Prediction>)
    requires forall p :: p in preds ==> p.idx < rows.Length
    modifies rows
    ensures rows[..] == Written(old(rows[..]), preds)
  {
    for k := 0 to |preds|
      invariant forall p :: p in preds[..k] ==> p in preds
      invariant rows[..] == Written(old(rows[..]), preds[..k])
    {
      rows[preds[k].idx] := Labelled(rows[preds[k].idx], preds[k]);
      assert preds[..k + 1][..k] == preds[..k];
      assert forall p :: p in preds[..k + 1] ==> p in preds;
    }
    assert preds[..|preds|] == preds;
  }

  /** The state the main loops keep between iterations: the table, the batch
      buffer, `processed_since_save` and the saves made so far. */
  datatype State = State(rows: seq<Row>, batch: seq<Fetched>, sinceSave: int, saves: seq<Save>)

  /** Every batch entry names a row of the table. */
  ghost predicate Indexed(s: State)
  {
    forall f :: f in s.batch ==> f.idx < |s.rows|
  }

  /** A failed fetch: `df.at[idx, 'prediction'] = 'ERROR'`. */
  function MarkError(s: State, idx: nat): State
    requires idx < |s.rows|
  {
    s.(rows := s.rows[idx := s.rows[idx].(prediction := ErrorMark)])
  }

  /** Writing a successful batch's labels back; `counted` says whether each line
      also bumps `processed_since_save` (the final flush does not). */
  function Apply(s: State, preds: seq<Prediction>, counted: bool): State
    requires forall p :: p in preds ==> p.idx < |s.rows|
  {
    s.(rows := Written(s.rows, preds),
       sinceSave := if counted then s.sinceSave + |preds| else s.sinceSave)
  }

  /** A checkpoint: save the table to the intermediate file and reset the counter. */
  function Checkpoint(s: State): State
  {
    s.(saves := s.saves + [Save(Intermediate, s.rows)], sinceSave := 0)
  }

  /** Each output line carries the index of some batch entry and a 'yes'/'no' label. */
  lemma PredictionsFromBatch(batch: seq<Fetched>, results: seq<Top1>)
    requires |results| == |batch|
    ensures forall p :: p in Predictions(batch, results) ==>
      (exists f :: f in batch && f.idx == p.idx) && (p.verdict == "yes" || p.verdict == "no")
  {
    var preds := Predictions(batch, results);
    forall p | p in preds
      ensures (exists f :: f in batch && f.idx == p.idx) && (p.verdict == "yes" || p.verdict == "no")
    {
      var i :| 0 <= i < |preds| && preds[i] == p;
      assert batch[i] in batch;
    }
  }

  /** The predictions name only rows of the table. */
  lemma PredictedInTable(s: State, classify: Classifier)
    requires WellFormed(classify) && Indexed(s)
    ensures Predict(s.batch, classify).Some? ==>
      forall p :: p in Predict(s.batch, classify).value ==> p.idx < |s.rows|
  {
    match classify(Images(s.batch))
    case None =>
    case Some(results) =>
      PredictionsFromBatch(s.batch, results);
  }

  /** The predictions name only rows of the batch, so only rows of the table. */
  lemma PredictedIndexed(s: State, classify: Classifier)
    requires WellFormed(classify) && Indexed(s)
    ensures Predict(s.batch, classify).Some? ==>
      forall p :: p in Predict(s.batch, classify).value ==> p.idx < |s.rows|
    ensures Predict(s.batch, classify).Some? ==>
      forall j :: 0 <= j < |s.rows| && (forall f :: f in s.batch ==> f.idx != j) ==>
        Written(s.rows, Predict(s.batch, classify).value)[j] == s.rows[j]
    ensures Predict(s.batch, classify).Some? ==>
      forall p :: p in Predict(s.batch, classify).value ==> p.verdict == "yes" || p.verdict == "no"
  {
    match classify(Images(s.batch))
    case None =>
    case Some(results) =>
      PredictionsFromBatch(s.batch, results);
  }

  /** The indices of the rows a selector picks, in table order (`df[mask].index`). */
  function Pick(rows: seq<Row>, selected: Row -> bool): (todo: seq<nat>)
    ensures forall i :: i in todo ==> i < |rows| && selected(rows[i])
    ensures forall i :: 0 <= i < |rows| && selected(rows[i]) ==> i in todo
    ensures forall a, b :: 0 <= a < b < |todo| ==> todo[a] < todo[b]
    decreases |rows|
  {
    if rows == [] then []
    else
      var n := |rows| - 1;
      assert forall i :: 0 <= i < n ==> rows[..n][i] == rows[i];
      var prev := Pick(rows[..n], selected);
      assert forall a :: 0 <= a < |prev| ==> prev[a] in prev;
      prev + (if selected(rows[n]) then [n] else [])
  }

  /** Classify a full batch inside the `try`: write the labels back and count them on
      success; clear the batch either way. */
  function Flush(s: State, classify: Classifier): (r: State)
    requires WellFormed(classify) && s.batch != [] && Indexed(s)
    ensures r.batch == [] && r.saves == s.saves
  {
    var out := Predict(s.batch, classify);
    PredictedInTable(s, classify);
    (if out.Some? then Apply(s, out.value, true) else s).(batch := [])
  }

  /** The leftover batch after the loop: classified once when non-empty, a failure
      swallowed, nothing counted and the batch left as it is. */
  function FlushLeftover(s: State, classify: Classifier): (r: State)
    requires WellFormed(classify) && Indexed(s)
    ensures r.batch == s.batch && r.sinceSave == s.sinceSave && r.saves == s.saves
    ensures |r.rows| == |s.rows|
    ensures s.batch == [] || Predict(s.batch, classify).None? ==> r.rows == s.rows
    ensures forall j :: 0 <= j < |s.rows| && (forall f :: f in s.batch ==> f.idx != j) ==>
      r.rows[j] == s.rows[j]
  {
    PredictedIndexed(s, classify);
    if s.batch == [] then s
    else
      match Predict(s.batch, classify)
      case None => s
      case Some(preds) => Apply(s, preds, false)
  }

  /** No row index occurs twice in the batch. */
  ghost predicate Distinct(batch: seq<Fetched>)
  {
    forall a, b :: 0 <= a < b < |batch| ==> batch[a].idx != batch[b].idx
  }

  /** Appending an entry whose index is new keeps the indices distinct. */
  lemma DistinctAppend(batch: seq<Fetched>, f: Fetched)
    requires Distinct(batch) && forall g :: g in batch ==> g.idx != f.idx
    ensures Distinct(batch + [f])
  {
    assert forall a :: 0 <= a < |batch| ==> batch[a] in batch;
  }

  /** The predictions of a batch with distinct indices have distinct indices. */
  lemma PredictionsDistinct(batch: seq<Fetched>, results: seq<Top1>)
    requires |results| == |batch| && Distinct(batch)
    ensures var preds := Predictions(batch, results);
      forall i, j :: 0 <= i < j < |preds| ==> preds[i].idx != preds[j].idx
  {
    var preds := Predictions(batch, results);
    forall i, j | 0 <= i < j < |preds|
      ensures preds[i].idx != preds[j].idx
    {
      assert preds[i].idx == batch[i].idx && preds[j].idx == batch[j].idx;
    }
  }

  /** Writing back the answers for a batch with distinct indices gives the row of the
      k-th entry the label of the k-th answer ('yes' exactly for class 1) and its
      confidence. */
  lemma WrittenEach(rows: seq<Row>, batch: seq<Fetched>, results: seq<Top1>)
    requires |results| == |batch| && Distinct(batch)
    requires forall f :: f in batch ==> f.idx < |rows|
    ensures forall p :: p in Predictions(batch, results) ==> p.idx < |rows|
    ensures forall k :: 0 <= k < |batch| ==>
      Written(rows, Predictions(batch, results))[batch[k].idx]
        == rows[batch[k].idx].(prediction := Text(Label(results[k].cls)), confidence := Text(results[k].conf))
  {
    var preds := Predictions(batch, results);
    forall p | p in preds
      ensures p.idx < |rows|
    {
      var i :| 0 <= i < |preds| && preds[i] == p;
      assert batch[i] in batch;
    }
    PredictionsDistinct(batch, results);
    forall k | 0 <= k < |batch|
      ensures Written(rows, preds)[batch[k].idx]
        == rows[batch[k].idx].(prediction := Text(Label(results[k].cls)), confidence := Text(results[k].conf))
    {
      WrittenAt(rows, preds, k);
      assert preds[k].verdict == Label(results[k].cls);
    }
  }

  /** A flush whose classifier answers writes, for every entry of a batch with
      distinct indices, the label and confidence of that entry's own answer; the
      final flush does the same. */
  lemma FlushLabelsEach(s: State, classify: Classifier)
    requires WellFormed(classify) && Indexed(s) && Distinct(s.batch)
    ensures s.batch != [] && classify(Images(s.batch)).Some? ==>
      forall k :: 0 <= k < |s.batch| ==>
        Flush(s, classify).rows[s.batch[k].idx]
          == s.rows[s.batch[k].idx].(prediction := Text(Label(classify(Images(s.batch)).value[k].cls)),
                                     confidence := Text(classify(Images(s.batch)).value[k].conf))
    ensures classify(Images(s.batch)).Some? ==>
      forall k :: 0 <= k < |s.batch| ==>
        FlushLeftover(s, classify).rows[s.batch[k].idx]
          == s.rows[s.batch[k].idx].(prediction := Text(Label(classify(Images(s.batch)).value[k].cls)),
                                     confidence := Text(classify(Images(s.batch)).value[k].conf))
  {
    var answer := classify(Images(s.batch));
    if answer.Some? {
      assert |answer.value| == |Images(s.batch)|;
      WrittenEach(s.rows, s.batch, answer.value);
    }
  }

  /** Writing 'yes'/'no' predictions leaves each row unchanged or labelled 'yes'/'no'. */
  lemma WrittenLabels(rows: seq<Row>, preds: seq<Prediction>)
    requires forall p :: p in preds ==> p.idx < |rows| && (p.verdict == "yes" || p.verdict == "no")
    ensures forall j :: 0 <= j < |rows| ==>
      Written(rows, preds)[j] == rows[j] || Written(rows, preds)[j].prediction in {Text("yes"), Text("no")}
  {
    var w := Written(rows, preds);
    forall j | 0 <= j < |rows|
      ensures w[j] == rows[j] || w[j].prediction in {Text("yes"), Text("no")}
    {
      if w[j] != rows[j] {
        var p :| p in preds && p.idx == j && w[j] == Labelled(rows[j], p);
      }
    }
  }

  /** A flush writes a row only with a 'yes'/'no' label from the classifier. */
  lemma FlushLabels(s: State, classify: Classifier)
    requires WellFormed(classify) && Indexed(s)
    ensures s.batch != [] ==> forall j :: 0 <= j < |s.rows| ==>
      Flush(s, classify).rows[j] == s.rows[j] || Flush(s, classify).rows[j].prediction in {Text("yes"), Text("no")}
    ensures forall j :: 0 <= j < |s.rows| ==>
      FlushLeftover(s, classify).rows[j] == s.rows[j]
      || FlushLeftover(s, classify).rows[j].prediction in {Text("yes"), Text("no")}
  {
    PredictedIndexed(s, classify);
    var out := Predict(s.batch, classify);
    if out.Some? {
      WrittenLabels(s.rows, out.value);
      assert s.batch != [] ==> Flush(s, classify).rows == Written(s.rows, out.value);
    } else {
      assert s.batch != [] ==> Flush(s, classify).rows == s.rows;
    }
  }

  /** Classifying a full batch in place: the table, the counter and the emptied
      batch are exactly what `Flush` gives. */
  method FlushBatch(rows: array<Row>, classify: Classifier, batch: seq<Fetched>, sinceSave: int, ghost saves: seq<Save>)
    returns (sinceSave': int)
    requires WellFormed(classify) && batch != []
    requires forall f :: f in batch ==> f.idx < rows.Length
    modifies rows
    ensures rows[..] == Flush(State(old(rows[..]), batch, sinceSave, saves), classify).rows
    ensures sinceSave' == Flush(State(old(rows[..]), batch, sinceSave, saves), classify).sinceSave
  {
    ghost var s := State(rows[..], batch, sinceSave, saves);
    PredictedInTable(s, classify);
    var preds := PredictBatch(batch, classify);
    if preds.None? {
      return sinceSave;
    }
    assert Flush(s, classify).rows == Written(s.rows, preds.value);
    assert Flush(s, classify).sinceSave == sinceSave + |preds.value|;
    WriteBack(rows, preds.value);
    sinceSave' := sinceSave + |preds.value|;
  }

  /** Classifying the leftover batch in place: the table is exactly what
      `FlushLeftover` gives. */
  method FlushLeftoverBatch(rows: array<Row>, classify: Classifier, batch: seq<Fetched>,
                            ghost sinceSave: int, ghost saves: seq<Save>)
    requires WellFormed(classify)
    requires forall f :: f in batch ==> f.idx < rows.Length
    modifies rows
    ensures rows[..] == FlushLeftover(State(old(rows[..]), batch, sinceSave, saves), classify).rows
  {
    ghost var s := State(rows[..], batch, sinceSave, saves);
    if batch == [] {
      return;
    }
    PredictedInTable(s, classify);
    var preds := PredictBatch(batch, classify);
    if preds.None? {
      return;
    }
    assert FlushLeftover(s, classify).rows == Written(s.rows, preds.value);
    WriteBack(rows, preds.value);
  }

  /** Two selectors that agree row by row pick the same indices. */
  lemma {:induction false} PickAgrees(xs: seq<Row>, ys: seq<Row>, p: Row -> bool, q: Row -> bool)
    requires |xs| == |ys|
    requires forall i :: 0 <= i < |xs| ==> (p(xs[i]) <==> q(ys[i]))
    ensures Pick(xs, p) == Pick(ys, q)
    decreases |xs|
  {
    if xs != [] {
      var n := |xs| - 1;
      PickAgrees(xs[..n], ys[..n], p, q);
    }
  }
}
