/**
 * The chunked batch classifier without shutdown handling (the second detection
 * script).
 *
 * It loads the chunk's intermediate checkpoint when one exists, otherwise the chunk
 * with both result columns reset to ''. It selects the rows whose prediction is ''
 * or 'ERROR' and consumes the fetch outcomes in completion order exactly as the
 * third script does, except that the checkpoint test runs after every iteration that
 * fetched an image. A leftover batch is flushed once; the run ends with an
 * intermediate and an output save of the same table.
 */
module DetectV2 {
  import opened Wrappers
  import opened Table
  import opened Batching
  import DetectV3

  const BatchSize: int := 32
  const SaveEvery: int := 2000

  /** The rows this script picks: prediction '' or 'ERROR' (a NaN is not picked). */
  predicate Selected(r: Row)
  {
    r.prediction == Blank || r.prediction == ErrorMark
  }

  /** A fresh start overwrites both result columns with ''. */
  function FreshStart(input: seq<Row>): (rows: seq<Row>)
    ensures |rows| == |input|
    ensures forall i :: 0 <= i < |rows| ==>
      rows[i] == Row(input[i].url, Blank, Blank) && Selected(rows[i])
  {
    seq(|input|, i requires 0 <= i < |input| => Row(input[i].url, Blank, Blank))
  }

  /** The checkpoint read back as written, when there is one; else a fresh start. */
  function Load(saved: Option<seq<Row>>, input: seq<Row>): seq<Row>
  {
    if saved.Some? then ReadBack(saved.value) else FreshStart(input)
  }

  function ToProcess(rows: seq<Row>): seq<nat>
  {
    Pick(rows, Selected)
  }

  /** What `as_completed` delivers: each selected index exactly once, in some order. */
  ghost predicate CompletionOrder(cs: seq<Completion>, rows: seq<Row>)
  {
    && |cs| == |ToProcess(rows)|
    && (forall c :: c in cs ==> c.idx in ToProcess(rows))
    && (forall i, j :: 0 <= i < j < |cs| ==> cs[i].idx != cs[j].idx)
  }

  /** One iteration: mark a failed fetch, else append, flush a full batch, then test
      the counter. */
  function Step(classify: Classifier, s: State, c: Completion): (r: State)
    requires WellFormed(classify) && Indexed(s) && c.idx < |s.rows|
    ensures |r.rows| == |s.rows| && Indexed(r)
  {
    match c.image
    case None => MarkError(s, c.idx)
    case Some(img) =>
      var grown := s.(batch := s.batch + [Fetched(c.idx, img)]);
      var flushed := if |grown.batch| >= BatchSize then Flush(grown, classify) else grown;
      if flushed.sinceSave >= SaveEvery then Checkpoint(flushed) else flushed
  }

  /** The loop over the completed futures. */
  function Loop(classify: Classifier, s: State, cs: seq<Completion>): (r: State)
    requires WellFormed(classify) && Indexed(s)
    requires forall c :: c in cs ==> c.idx < |s.rows|
    ensures |r.rows| == |s.rows| && Indexed(r)
    decreases |cs|
  {
    if cs == [] then s
    else
      assert forall c :: c in cs[1..] ==> c in cs;
      Loop(classify, Step(classify, s, cs[0]), cs[1..])
  }

  /** The loop, the final flush, the intermediate save and the output save. */
  function Run(classify: Classifier, rows: seq<Row>, cs: seq<Completion>): (r: State)
    requires WellFormed(classify)
    requires forall c :: c in cs ==> c.idx < |rows|
  {
    var looped := Loop(classify, State(rows, [], 0, []), cs);
    var flushed := FlushLeftover(looped, classify);
    flushed.(saves := flushed.saves + [Save(Intermediate, flushed.rows), Save(Output, flushed.rows)])
  }

  /** The same completions seen by the third script with its flag never set. */
  function Unflagged(cs: seq<Completion>): (es: seq<DetectV3.Event>)
    ensures |es| == |cs|
    ensures forall i :: 0 <= i < |cs| ==> es[i] == DetectV3.Event(cs[i].idx, cs[i].image, false)
  {
    seq(|cs|, i requires 0 <= i < |cs| => DetectV3.Event(cs[i].idx, cs[i].image, false))
  }

  /** Outside a flush the counter stays below SAVE_EVERY, so the extra checkpoint test
      never fires: one iteration here is one iteration of the third script with
      BATCH_SIZE 32 and SAVE_EVERY 2000. */
  lemma StepAgrees(classify: Classifier, s: State, c: Completion)
    requires WellFormed(classify) && Indexed(s) && c.idx < |s.rows|
    requires s.sinceSave < SaveEvery
    ensures Step(classify, s, c)
      == DetectV3.Step(DetectV3.Config(BatchSize, SaveEvery), classify, s, DetectV3.Event(c.idx, c.image, false))
    ensures Step(classify, s, c).sinceSave < SaveEvery
  {
  }

  lemma {:induction false} LoopAgrees(classify: Classifier, s: State, cs: seq<Completion>)
    requires WellFormed(classify) && Indexed(s) && s.sinceSave < SaveEvery
    requires forall c :: c in cs ==> c.idx < |s.rows|
    ensures forall e :: e in Unflagged(cs) ==> e.idx < |s.rows|
    ensures DetectV3.Loop(DetectV3.Config(BatchSize, SaveEvery), classify, s, Unflagged(cs))
      == DetectV3.Stop(Loop(classify, s, cs), false)
    decreases |cs|
  {
    var es := Unflagged(cs);
    assert forall e :: e in es ==> exists i :: 0 <= i < |cs| && e == es[i] && cs[i] in cs;
    if cs != [] {
      StepAgrees(classify, s, cs[0]);
      assert forall c :: c in cs[1..] ==> c in cs;
      assert Unflagged(cs)[1..] == Unflagged(cs[1..]);
      LoopAgrees(classify, Step(classify, s, cs[0]), cs[1..]);
    }
  }

  /** This script's whole run is the third script's run with no shutdown signal and
      BATCH_SIZE 32, SAVE_EVERY 2000. */
  lemma RunAgrees(classify: Classifier, rows: seq<Row>, cs: seq<Completion>)
    requires WellFormed(classify)
    requires forall c :: c in cs ==> c.idx < |rows|
    ensures forall e :: e in Unflagged(cs) ==> e.idx < |rows|
    ensures Run(classify, rows, cs)
      == DetectV3.Run(DetectV3.Config(BatchSize, SaveEvery), classify, rows, Unflagged(cs), false)
  {
    LoopAgrees(classify, State(rows, [], 0, []), cs);
  }

  /** The table keeps its length, and the run ends with an intermediate and an output
      save of the same final table. */
  lemma RunSaves(classify: Classifier, rows: seq<Row>, cs: seq<Completion>)
    requires WellFormed(classify)
    requires forall c :: c in cs ==> c.idx < |rows|
    ensures |Run(classify, rows, cs).rows| == |rows|
    ensures var r := Run(classify, rows, cs);
      |r.saves| >= 2 && r.saves[|r.saves| - 2..] == [Save(Intermediate, r.rows), Save(Output, r.rows)]
  {
    RunAgrees(classify, rows, cs);
  }

  /** The events of a completion order name table rows other than an unselected one. */
  lemma UnflaggedAvoids(rows: seq<Row>, cs: seq<Completion>, j: nat)
    requires CompletionOrder(cs, rows)
    requires j < |rows| && !Selected(rows[j])
    ensures forall e :: e in Unflagged(cs) ==> e.idx < |rows| && e.idx != j
  {
    var es := Unflagged(cs);
    forall e | e in es
      ensures e.idx < |rows| && e.idx != j
    {
      var i :| 0 <= i < |es| && es[i] == e;
      assert cs[i] in cs;
    }
  }

  /** A row that is not selected keeps its value at the end of the run and in every
      table the run saves. */
  lemma UnselectedRowsKept(classify: Classifier, rows: seq<Row>, cs: seq<Completion>, j: nat)
    requires WellFormed(classify) && CompletionOrder(cs, rows)
    requires j < |rows| && !Selected(rows[j])
    ensures forall c :: c in cs ==> c.idx < |rows|
    ensures Run(classify, rows, cs).rows[j] == rows[j]
    ensures forall sv :: sv in Run(classify, rows, cs).saves ==> DetectV3.Keeps(sv, j, rows[j])
  {
    var cfg := DetectV3.Config(BatchSize, SaveEvery);
    var es := Unflagged(cs);
    UnflaggedAvoids(rows, cs, j);
    var start := State(rows, [], 0, []);
    DetectV3.LoopFrame(cfg, classify, start, es, j);
    var stop := DetectV3.Loop(cfg, classify, start, es);
    var fin := DetectV3.Finish(classify, stop.state, stop.interrupted || false);
    assert fin.rows[j] == rows[j];
    forall sv | sv in fin.saves
      ensures DetectV3.Keeps(sv, j, rows[j])
    {
      if sv !in stop.state.saves {
        assert sv == Save(Intermediate, fin.rows) || sv == Save(Output, fin.rows);
      }
    }
    RunAgrees(classify, rows, cs);
    assert Run(classify, rows, cs) == fin;
  }

  /** As written, resuming reads the checkpoint back with every '' turned into NaN,
      and NaN is not selected: a row saved before it was attempted is never picked
      again. */
  lemma ResumeDropsUnattemptedRows(saved: seq<Row>, input: seq<Row>, j: nat)
    requires j < |saved| && saved[j].prediction == Blank
    ensures Selected(saved[j])
    ensures j < |Load(Some(saved), input)| && Load(Some(saved), input)[j].prediction == NaN
    ensures j !in ToProcess(Load(Some(saved), input))
  {
  }

  /** The smallest case: one unattempted row in the checkpoint, and the resumed run
      has nothing to do, so the row reaches the output unlabelled. */
  lemma ResumeSkipsUnattemptedRow(classify: Classifier)
    requires WellFormed(classify)
    ensures var rows := Load(Some([Row("u", Blank, Blank)]), []);
      && ToProcess(rows) == []
      && Run(classify, rows, []).rows == [Row("u", NaN, NaN)]
  {
    var rows := Load(Some([Row("u", Blank, Blank)]), []);
    assert rows == [Row("u", NaN, NaN)];
    assert rows[..0] == [] && !Selected(rows[0]);
    assert Pick(rows[..0], Selected) == [];
    assert Pick(rows, Selected) == [];
    assert ToProcess(rows) == [];
  }

  /** One iteration, updating the table in place. */
  method Consume(rows: array<Row>, classify: Classifier,
                 batch: seq<Fetched>, sinceSave: int, saves: seq<Save>, c: Completion)
    returns (batch': seq<Fetched>, sinceSave': int, saves': seq<Save>)
    requires WellFormed(classify) && c.idx < rows.Length
    requires forall f :: f in batch ==> f.idx < rows.Length
    modifies rows
    ensures State(rows[..], batch', sinceSave', saves')
      == Step(classify, State(old(rows[..]), batch, sinceSave, saves), c)
  {
    batch', sinceSave', saves' := batch, sinceSave, saves;
    match c.image {
      case None =>
        rows[c.idx] := rows[c.idx].(prediction := ErrorMark);
      case Some(img) =>
        batch' := batch' + [Fetched(c.idx, img)];
        if |batch'| >= BatchSize {
          sinceSave' := FlushBatch(rows, classify, batch', sinceSave', saves');
          batch' := [];
        }
        if sinceSave' >= SaveEvery {
          saves' := saves' + [Save(Intermediate, rows[..])];
          sinceSave' := 0;
        }
    }
  }

  /** The main loop, the final flush and the saves, updating the table in place. */
  method ClassifyPending(rows: array<Row>, classify: Classifier, cs: seq<Completion>)
    returns (saves: seq<Save>)
    requires WellFormed(classify)
    requires CompletionOrder(cs, rows[..])
    modifies rows
    ensures rows[..] == Run(classify, old(rows[..]), cs).rows
    ensures saves == Run(classify, old(rows[..]), cs).saves
  {
    assert forall c :: c in cs ==> c.idx < rows.Length;
    ghost var start := State(rows[..], [], 0, []);
    var batch: seq<Fetched> := [];
    var sinceSave := 0;
    saves := [];
    for k := 0 to |cs|
      invariant forall f :: f in batch ==> f.idx < rows.Length
      invariant Loop(classify, start, cs) == Loop(classify, State(rows[..], batch, sinceSave, saves), cs[k..])
    {
      assert cs[k..][0] == cs[k] && cs[k..][1..] == cs[k + 1..];
      batch, sinceSave, saves := Consume(rows, classify, batch, sinceSave, saves, cs[k]);
    }
    assert cs[|cs|..] == [];
    ghost var looped := State(rows[..], batch, sinceSave, saves);
    if batch != [] {
      var preds := PredictBatch(batch, classify);
      if preds.Some? {
        PredictedIndexed(looped, classify);
        WriteBack(rows, preds.value);
      }
    }
    saves := saves + [Save(Intermediate, rows[..]), Save(Output, rows[..])];
  }
}
