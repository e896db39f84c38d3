/**
 * The resume-only batch classifier (the part-1 resume script).
 *
 * It always starts from the intermediate checkpoint and fills the NaN cells that
 * reading it back produces with '' before selecting the rows whose prediction is ''
 * or 'ERROR'. The loop is the second script's loop with SAVE_EVERY 1000, except that
 * nothing catches a classifier failure: the run stops there, and only the
 * checkpoints already written survive.
 */
module DetectResume {
  import opened Wrappers
  import opened Table
  import opened Batching
  import DetectV2
  import DetectV3

  const BatchSize: int := 32
  const SaveEvery: int := 1000

  /** `fillna('')`. */
  function FillNa(c: Cell): (d: Cell)
    ensures d != NaN
    ensures c != NaN ==> d == c
  {
    if c.NaN? then Blank else c
  }

  /** The checkpoint read back, with both result columns' NaN cells filled with ''. */
  function Load(saved: seq<Row>): (rows: seq<Row>)
    ensures |rows| == |saved|
    ensures forall i :: 0 <= i < |rows| ==>
      && rows[i].url == saved[i].url
      && rows[i].prediction == FillNa(ReadCell(saved[i].prediction))
      && rows[i].confidence == FillNa(ReadCell(saved[i].confidence))
  {
    var read := ReadBack(saved);
    seq(|read|, i requires 0 <= i < |read| =>
      Row(read[i].url, FillNa(read[i].prediction), FillNa(read[i].confidence)))
  }

  /** After the fill a checkpointed row is selected exactly when the third script
      would select it: its prediction was NaN, '' or 'ERROR'. */
  lemma LoadSelects(saved: seq<Row>)
    ensures forall i :: 0 <= i < |saved| ==>
      (DetectV2.Selected(Load(saved)[i]) <==> DetectV3.Selected(saved[i]))
    ensures DetectV2.ToProcess(Load(saved)) == DetectV3.ToProcess(saved)
  {
    PickAgrees(Load(saved), saved, DetectV2.Selected, DetectV3.Selected);
  }

  /** Saving a table and resuming from it keeps the selection: a row is picked again
      exactly when it was still to do when saved. */
  lemma ResumeKeepsSelection(rows: seq<Row>)
    requires forall i :: 0 <= i < |rows| ==> rows[i].prediction != NaN
    ensures DetectV2.ToProcess(Load(rows)) == DetectV2.ToProcess(rows)
  {
    PickAgrees(Load(rows), rows, DetectV2.Selected, DetectV2.Selected);
  }

  /** Where the run ended: its state, and whether it got through to the output save. */
  datatype Outcome = Outcome(state: State, completed: bool)

  /** One iteration; None when the classifier raises on a full batch. */
  function Step(classify: Classifier, s: State, c: Completion): (r: Option<State>)
    requires WellFormed(classify) && Indexed(s) && c.idx < |s.rows|
    ensures r.Some? ==> |r.value.rows| == |s.rows| && Indexed(r.value)
    ensures r.Some? ==> r.value.saves == s.saves || r.value.saves == s.saves + [Save(Intermediate, r.value.rows)]
    ensures r.None? <==> (&& c.image.Some? && |s.batch| + 1 >= BatchSize
                          && Predict(s.batch + [Fetched(c.idx, c.image.value)], classify).None?)
  {
    match c.image
    case None => Some(MarkError(s, c.idx))
    case Some(img) =>
      var grown := s.(batch := s.batch + [Fetched(c.idx, img)]);
      if |grown.batch| >= BatchSize && Predict(grown.batch, classify).None? then None
      else
        var flushed := if |grown.batch| >= BatchSize then Flush(grown, classify) else grown;
        Some(if flushed.sinceSave >= SaveEvery then Checkpoint(flushed) else flushed)
  }

  /** Every save so far went to the intermediate file. */
  ghost predicate OnlyCheckpoints(saves: seq<Save>)
  {
    forall sv :: sv in saves ==> sv.target == Intermediate
  }

  /** The loop; on a classifier failure the state is the one at the start of the
      failing iteration. */
  function Loop(classify: Classifier, s: State, cs: seq<Completion>): (r: Outcome)
    requires WellFormed(classify) && Indexed(s)
    requires forall c :: c in cs ==> c.idx < |s.rows|
    ensures |r.state.rows| == |s.rows| && Indexed(r.state)
    ensures OnlyCheckpoints(s.saves) ==> OnlyCheckpoints(r.state.saves)
    decreases |cs|
  {
    if cs == [] then Outcome(s, true)
    else
      match Step(classify, s, cs[0])
      case None => Outcome(s, false)
      case Some(next) =>
        assert forall c :: c in cs[1..] ==> c in cs;
        Loop(classify, next, cs[1..])
  }

  /** The loop, the final batch (whose failure also ends the run), the intermediate
      save, then the output save. */
  function Run(classify: Classifier, rows: seq<Row>, cs: seq<Completion>): (r: Outcome)
    requires WellFormed(classify)
    requires forall c :: c in cs ==> c.idx < |rows|
  {
    var looped := Loop(classify, State(rows, [], 0, []), cs);
    if !looped.completed then looped
    else
      var s := looped.state;
      if s.batch != [] && Predict(s.batch, classify).None? then Outcome(s, false)
      else
        var flushed := FlushLeftover(s, classify);
        Outcome(flushed.(saves := flushed.saves + [Save(Intermediate, flushed.rows), Save(Output, flushed.rows)]), true)
  }

  /** A run that stops on a classifier failure writes no output file. */
  lemma FailedRunWritesNoOutput(classify: Classifier, rows: seq<Row>, cs: seq<Completion>)
    requires WellFormed(classify)
    requires forall c :: c in cs ==> c.idx < |rows|
    ensures !Run(classify, rows, cs).completed ==> OnlyCheckpoints(Run(classify, rows, cs).state.saves)
    ensures Run(classify, rows, cs).completed ==>
      var r := Run(classify, rows, cs).state;
      |r.saves| >= 2 && r.saves[|r.saves| - 2..] == [Save(Intermediate, r.rows), Save(Output, r.rows)]
  {
  }

  /** The classifier never raises. */
  ghost predicate Total(classify: Classifier)
  {
    forall images :: classify(images).Some?
  }

  lemma StepAgrees(classify: Classifier, s: State, c: Completion)
    requires WellFormed(classify) && Total(classify) && Indexed(s) && c.idx < |s.rows|
    requires s.sinceSave < SaveEvery
    ensures Step(classify, s, c)
      == Some(DetectV3.Step(DetectV3.Config(BatchSize, SaveEvery), classify, s, DetectV3.Event(c.idx, c.image, false)))
    ensures Step(classify, s, c).value.sinceSave < SaveEvery
  {
    if c.image.Some? {
      assert classify(Images(s.batch + [Fetched(c.idx, c.image.value)])).Some?;
    }
  }

  lemma {:induction false} LoopAgrees(classify: Classifier, s: State, cs: seq<Completion>)
    requires WellFormed(classify) && Total(classify) && Indexed(s) && s.sinceSave < SaveEvery
    requires forall c :: c in cs ==> c.idx < |s.rows|
    ensures forall e :: e in DetectV2.Unflagged(cs) ==> e.idx < |s.rows|
    ensures DetectV3.Loop(DetectV3.Config(BatchSize, SaveEvery), classify, s, DetectV2.Unflagged(cs))
      == DetectV3.Stop(Loop(classify, s, cs).state, false)
    ensures Loop(classify, s, cs).completed
    decreases |cs|
  {
    var es := DetectV2.Unflagged(cs);
    assert forall e :: e in es ==> exists i :: 0 <= i < |cs| && e == es[i] && cs[i] in cs;
    if cs != [] {
      StepAgrees(classify, s, cs[0]);
      assert forall c :: c in cs[1..] ==> c in cs;
      assert es[1..] == DetectV2.Unflagged(cs[1..]);
      LoopAgrees(classify, Step(classify, s, cs[0]).value, cs[1..]);
    }
  }

  /** With a classifier that never raises, the run completes and is the third
      script's run with no shutdown signal and BATCH_SIZE 32, SAVE_EVERY 1000. */
  lemma RunAgrees(classify: Classifier, rows: seq<Row>, cs: seq<Completion>)
    requires WellFormed(classify) && Total(classify)
    requires forall c :: c in cs ==> c.idx < |rows|
    ensures forall e :: e in DetectV2.Unflagged(cs) ==> e.idx < |rows|
    ensures Run(classify, rows, cs)
      == Outcome(DetectV3.Run(DetectV3.Config(BatchSize, SaveEvery), classify, rows, DetectV2.Unflagged(cs), false), true)
  {
    var start := State(rows, [], 0, []);
    LoopAgrees(classify, start, cs);
    var s := Loop(classify, start, cs).state;
    assert classify(Images(s.batch)).Some?;
  }

  /** One iteration, updating the table in place; `ok` is false when the classifier
      raised, and then nothing has changed. */
  method Consume(rows: array<Row>, classify: Classifier,
                 batch: seq<Fetched>, sinceSave: int, saves: seq<Save>, c: Completion)
    returns (ok: bool, batch': seq<Fetched>, sinceSave': int, saves': seq<Save>)
    requires WellFormed(classify) && c.idx < rows.Length
    requires forall f :: f in batch ==> f.idx < rows.Length
    modifies rows
    ensures var r := Step(classify, State(old(rows[..]), batch, sinceSave, saves), c);
      && ok == r.Some?
      && (ok ==> State(rows[..], batch', sinceSave', saves') == r.value)
      && (!ok ==> rows[..] == old(rows[..]) && saves' == saves)
  {
    ok := true;
    batch', sinceSave', saves' := batch, sinceSave, saves;
    match c.image {
      case None =>
        rows[c.idx] := rows[c.idx].(prediction := ErrorMark);
      case Some(img) =>
        batch' := batch' + [Fetched(c.idx, img)];
        if |batch'| >= BatchSize {
          var preds := PredictBatch(batch', classify);
          if preds.None? {
            ok := false;
            return;
          }
          PredictedIndexed(State(rows[..], batch', sinceSave', saves'), classify);
          WriteBack(rows, preds.value);
          sinceSave' := sinceSave' + |preds.value|;
          batch' := [];
        }
        if sinceSave' >= SaveEvery {
          saves' := saves' + [Save(Intermediate, rows[..])];
          sinceSave' := 0;
        }
    }
  }

  /** The whole script after loading, updating the table in place; `completed` is
      false when a classifier failure ended it. */
  method ClassifyPending(rows: array<Row>, classify: Classifier, cs: seq<Completion>)
    returns (saves: seq<Save>, completed: bool)
    requires WellFormed(classify)
    requires DetectV2.CompletionOrder(cs, rows[..])
    modifies rows
    ensures rows[..] == Run(classify, old(rows[..]), cs).state.rows
    ensures saves == Run(classify, old(rows[..]), cs).state.saves
    ensures completed == Run(classify, old(rows[..]), cs).completed
  {
    assert forall c :: c in cs ==> c.idx < rows.Length;
    ghost var start := State(rows[..], [], 0, []);
    var batch: seq<Fetched> := [];
    var sinceSave := 0;
    saves := [];
    var k := 0;
    completed := true;
    while k < |cs|
      invariant 0 <= k <= |cs|
      invariant forall f :: f in batch ==> f.idx < rows.Length
      invariant Loop(classify, start, cs) == Loop(classify, State(rows[..], batch, sinceSave, saves), cs[k..])
    {
      assert cs[k..][0] == cs[k] && cs[k..][1..] == cs[k + 1..];
      ghost var before := State(rows[..], batch, sinceSave, saves);
      var ok;
      ok, batch, sinceSave, saves := Consume(rows, classify, batch, sinceSave, saves, cs[k]);
      if !ok {
        assert Loop(classify, start, cs) == Outcome(before, false);
        return saves, false;
      }
      k := k + 1;
    }
    assert cs[k..] == [];
    ghost var looped := State(rows[..], batch, sinceSave, saves);
    if batch != [] {
      var preds := PredictBatch(batch, classify);
      if preds.None? {
        return saves, false;
      }
      PredictedIndexed(looped, classify);
      WriteBack(rows, preds.value);
    }
    saves := saves + [Save(Intermediate, rows[..]), Save(Output, rows[..])];
  }
}
