/**
 * The resumable, shutdown-aware batch classifier (the third detection script).
 *
 * The run loads the table (the intermediate checkpoint if there is one, else the
 * input with `prediction`/`confidence` added when absent), selects the rows still to
 * do, and consumes the fetch outcomes in completion order: a failed fetch marks the
 * row 'ERROR', a fetched image joins the batch, and a full batch is classified,
 * written back and cleared. A checkpoint follows a flush once `processed_since_save`
 * reaches SAVE_EVERY. A shutdown signal seen at the top of an iteration saves and
 * stops; otherwise a non-empty final batch is flushed once. The run ends with one
 * intermediate and one output save.
 */
module DetectV3 {
  import opened Wrappers
  import opened Table
  import opened Batching

  const MaxRetries: nat := 3

  /** BATCH_SIZE and SAVE_EVERY, read from the environment as arbitrary integers. */
  datatype Config = Config(batchSize: int, saveEvery: int)

  /** The input table as read, with whether it already has the two result columns. */
  datatype Input = Input(rows: seq<Row>, hasPrediction: bool, hasConfidence: bool)

  /** One iteration of the main loop: the flag seen at its top, and the completed
      future's (index, image-or-None). */
  datatype Event = Event(idx: nat, image: Option<Image>, shutdown: bool)

  /** The rows the run picks: prediction NaN, '' or 'ERROR'. */
  predicate Selected(r: Row)
  {
    r.prediction.NaN? || r.prediction == Blank || r.prediction == ErrorMark
  }

  /** The rows counted as already done. */
  predicate Done(r: Row)
  {
    r.prediction != Blank && r.prediction != ErrorMark && !r.prediction.NaN?
  }

  /** A fresh start adds each result column as '' only when the input lacks it. */
  function FreshStart(input: Input): (rows: seq<Row>)
    ensures |rows| == |input.rows|
    ensures forall i :: 0 <= i < |rows| ==> rows[i].url == input.rows[i].url
    ensures forall i :: 0 <= i < |rows| ==>
      rows[i].prediction == (if input.hasPrediction then input.rows[i].prediction else Blank)
    ensures forall i :: 0 <= i < |rows| ==>
      rows[i].confidence == (if input.hasConfidence then input.rows[i].confidence else Blank)
    ensures !input.hasPrediction ==> forall i :: 0 <= i < |rows| ==> Selected(rows[i])
  {
    seq(|input.rows|, i requires 0 <= i < |input.rows| =>
      Row(input.rows[i].url,
          if input.hasPrediction then input.rows[i].prediction else Blank,
          if input.hasConfidence then input.rows[i].confidence else Blank))
  }

  /** Resume from the saved checkpoint when there is one, else start fresh. Reading
      the checkpoint back turns '' into NaN, which this selector still picks. */
  function Load(saved: Option<seq<Row>>, input: Input): (rows: seq<Row>)
    ensures saved.Some? ==>
      (&& |rows| == |saved.value|
       && forall i :: 0 <= i < |rows| ==> (Selected(rows[i]) <==> Selected(saved.value[i])))
    ensures saved.None? ==> |rows| == |input.rows|
  {
    if saved.Some? then ReadBack(saved.value) else FreshStart(input)
  }

  /** The indices of `df_to_process`, in table order. */
  function ToProcess(rows: seq<Row>): seq<nat>
  {
    Pick(rows, Selected)
  }

  /** `already_done`. */
  function DoneCount(rows: seq<Row>): nat
    decreases |rows|
  {
    if rows == [] then 0
    else
      var n := |rows| - 1;
      DoneCount(rows[..n]) + (if Done(rows[n]) then 1 else 0)
  }

  /** done + to_process = total: every row is counted exactly once. */
  lemma {:induction false} PartitionCounts(rows: seq<Row>)
    ensures DoneCount(rows) + |ToProcess(rows)| == |rows|
    decreases |rows|
  {
    if rows != [] {
      PartitionCounts(rows[..|rows| - 1]);
    }
  }

  /** What `as_completed` delivers: each index of `df_to_process` exactly once, in
      some order. */
  ghost predicate CompletionOrder(events: seq<Event>, rows: seq<Row>)
  {
    && |events| == |ToProcess(rows)|
    && (forall e :: e in events ==> e.idx in ToProcess(rows))
    && (forall i, j :: 0 <= i < j < |events| ==> events[i].idx != events[j].idx)
  }

  /** `fetch_image`: up to MaxRetries attempts; `respond(a)` is the outcome of attempt
      a (None when the request, the status check or the decoding raises). Between a
      failed attempt a and the next one it sleeps BACKOFF_BASE ** a; `sleeps` lists
      those exponents. */
  method FetchImage(idx: nat, respond: nat -> Option<Image>)
    returns (i: nat, image: Option<Image>, attempts: nat, sleeps: seq<nat>)
    ensures i == idx
    ensures 1 <= attempts <= MaxRetries
    ensures forall a :: 1 <= a < attempts ==> respond(a).None?
    ensures image == respond(attempts)
    ensures image.None? <==> attempts == MaxRetries && respond(MaxRetries).None?
    ensures |sleeps| == attempts - 1
    ensures forall k :: 0 <= k < |sleeps| ==> sleeps[k] == k + 1
    ensures forall a, b :: 0 <= a < b < |sleeps| ==> sleeps[a] < sleeps[b]
  {
    i, sleeps, attempts := idx, [], 1;
    while true
      invariant 1 <= attempts <= MaxRetries
      invariant forall a :: 1 <= a < attempts ==> respond(a).None?
      invariant |sleeps| == attempts - 1
      invariant forall k :: 0 <= k < |sleeps| ==> sleeps[k] == k + 1
      decreases MaxRetries - attempts
    {
      image := respond(attempts);
      if image.Some? {
        return;
      }
      if attempts == MaxRetries {
        return;
      }
      sleeps := sleeps + [attempts];
      attempts := attempts + 1;
    }
  }

  /** One iteration whose flag was not set. */
  function Step(cfg: Config, classify: Classifier, s: State, e: Event): (r: State)
    requires WellFormed(classify) && Indexed(s) && e.idx < |s.rows|
    ensures |r.rows| == |s.rows| && Indexed(r)
    ensures (s.batch == [] || |s.batch| < cfg.batchSize) ==> (r.batch == [] || |r.batch| < cfg.batchSize)
    ensures forall j :: 0 <= j < |s.rows| && j != e.idx && (forall f :: f in s.batch ==> f.idx != j) ==>
      r.rows[j] == s.rows[j]
    ensures forall f :: f in r.batch ==> f in s.batch || f.idx == e.idx
    ensures e.image.None? ==>
      && r.rows == s.rows[e.idx := s.rows[e.idx].(prediction := ErrorMark)]
      && r.batch == s.batch && r.sinceSave == s.sinceSave && r.saves == s.saves
    ensures e.image.Some? && |s.batch| + 1 < cfg.batchSize ==>
      r == s.(batch := s.batch + [Fetched(e.idx, e.image.value)])
    ensures e.image.Some? && |s.batch| + 1 >= cfg.batchSize ==> r.batch == []
    ensures (&& e.image.Some? && |s.batch| + 1 >= cfg.batchSize
             && Predict(s.batch + [Fetched(e.idx, e.image.value)], classify).None?) ==>
      r.rows == s.rows && (r.sinceSave == s.sinceSave || r.sinceSave == 0)
    ensures (&& e.image.Some? && |s.batch| + 1 >= cfg.batchSize
             && Predict(s.batch + [Fetched(e.idx, e.image.value)], classify).Some?) ==>
      r.sinceSave == s.sinceSave + |s.batch| + 1 || r.sinceSave == 0
    ensures r.saves == s.saves
      || (&& r.saves == s.saves + [Save(Intermediate, r.rows)]
          && r.sinceSave == 0
          && e.image.Some? && |s.batch| + 1 >= cfg.batchSize)
  {
    match e.image
    case None => MarkError(s, e.idx)
    case Some(img) =>
      var grown := s.(batch := s.batch + [Fetched(e.idx, img)]);
      if |grown.batch| < cfg.batchSize then grown
      else
        var flushed := Flush(grown, classify);
        if flushed.sinceSave >= cfg.saveEvery then Checkpoint(flushed) else flushed
  }

  /** The counter after a full batch's flush: bumped once per answer when the
      classifier answers, unchanged when it raises. */
  function Bumped(classify: Classifier, s: State, grown: seq<Fetched>): int
  {
    if classify(Images(grown)).Some? then s.sinceSave + |grown| else s.sinceSave
  }

  /** After a full batch's flush a checkpoint is taken exactly when the bumped counter
      reaches SAVE_EVERY; it saves the flushed table and resets the counter, and
      otherwise the counter keeps its bumped value. */
  lemma StepCheckpoint(cfg: Config, classify: Classifier, s: State, e: Event)
    requires WellFormed(classify) && Indexed(s) && e.idx < |s.rows|
    requires e.image.Some? && |s.batch| + 1 >= cfg.batchSize
    ensures var counter := Bumped(classify, s, s.batch + [Fetched(e.idx, e.image.value)]);
      var r := Step(cfg, classify, s, e);
      && (r.saves != s.saves <==> counter >= cfg.saveEvery)
      && (counter >= cfg.saveEvery ==> r.saves == s.saves + [Save(Intermediate, r.rows)] && r.sinceSave == 0)
      && (counter < cfg.saveEvery ==> r.saves == s.saves && r.sinceSave == counter)
  {
    var grown := s.(batch := s.batch + [Fetched(e.idx, e.image.value)]);
    var answer := classify(Images(grown.batch));
    if answer.Some? {
      assert |answer.value| == |Images(grown.batch)| == |grown.batch|;
      assert Flush(grown, classify).sinceSave == s.sinceSave + |grown.batch|;
    }
    assert Step(cfg, classify, s, e) == (
      var flushed := Flush(grown, classify);
      if flushed.sinceSave >= cfg.saveEvery then Checkpoint(flushed) else flushed);
  }

  /** With a positive SAVE_EVERY the counter stays in [0, SAVE_EVERY) from one
      iteration to the next. */
  lemma StepCounterBound(cfg: Config, classify: Classifier, s: State, e: Event)
    requires WellFormed(classify) && Indexed(s) && e.idx < |s.rows|
    requires 0 < cfg.saveEvery && 0 <= s.sinceSave < cfg.saveEvery
    ensures 0 <= Step(cfg, classify, s, e).sinceSave < cfg.saveEvery
  {
    if e.image.Some? && |s.batch| + 1 >= cfg.batchSize {
      StepCheckpoint(cfg, classify, s, e);
    }
  }

  /** Where the loop stopped: its state, and whether the shutdown flag ended it. */
  datatype Stop = Stop(state: State, interrupted: bool)

  /** The main loop over the completed futures. */
  function Loop(cfg: Config, classify: Classifier, s: State, events: seq<Event>): (r: Stop)
    requires WellFormed(classify) && Indexed(s)
    requires forall e :: e in events ==> e.idx < |s.rows|
    ensures |r.state.rows| == |s.rows| && Indexed(r.state)
    ensures (s.batch == [] || |s.batch| < cfg.batchSize) ==>
      (r.state.batch == [] || |r.state.batch| < cfg.batchSize)
    ensures r.interrupted ==>
      |r.state.saves| > 0 && r.state.saves[|r.state.saves| - 1] == Save(Intermediate, r.state.rows)
    decreases |events|
  {
    if events == [] then Stop(s, false)
    else if events[0].shutdown then Stop(s.(saves := s.saves + [Save(Intermediate, s.rows)]), true)
    else
      assert forall e :: e in events[1..] ==> e in events;
      Loop(cfg, classify, Step(cfg, classify, s, events[0]), events[1..])
  }

  /** The loop keeps the counter in [0, SAVE_EVERY) when SAVE_EVERY is positive. */
  lemma {:induction false} LoopCounterBound(cfg: Config, classify: Classifier, s: State, events: seq<Event>)
    requires WellFormed(classify) && Indexed(s)
    requires forall e :: e in events ==> e.idx < |s.rows|
    requires 0 < cfg.saveEvery && 0 <= s.sinceSave < cfg.saveEvery
    ensures 0 <= Loop(cfg, classify, s, events).state.sinceSave < cfg.saveEvery
    decreases |events|
  {
    if events != [] && !events[0].shutdown {
      StepCounterBound(cfg, classify, s, events[0]);
      assert forall e :: e in events[1..] ==> e in events;
      LoopCounterBound(cfg, classify, Step(cfg, classify, s, events[0]), events[1..]);
    }
  }

  /** The final flush, skipped when the shutdown flag is set. */
  function FinalFlush(s: State, classify: Classifier, signalled: bool): (r: State)
    requires WellFormed(classify) && Indexed(s)
    ensures r.batch == s.batch && r.sinceSave == s.sinceSave && r.saves == s.saves
    ensures |r.rows| == |s.rows|
    ensures signalled || s.batch == [] || Predict(s.batch, classify).None? ==> r.rows == s.rows
    ensures forall j :: 0 <= j < |s.rows| && (forall f :: f in s.batch ==> f.idx != j) ==>
      r.rows[j] == s.rows[j]
  {
    if signalled then s else FlushLeftover(s, classify)
  }

  /** After the loop: the final flush, then `save_intermediate("(final)")` and the
      output save, both of the same table. */
  function Finish(classify: Classifier, s: State, signalled: bool): (r: State)
    requires WellFormed(classify) && Indexed(s)
    ensures |r.rows| == |s.rows|
    ensures r.sinceSave == s.sinceSave
    ensures r.saves == s.saves + [Save(Intermediate, r.rows), Save(Output, r.rows)]
    ensures |r.saves| >= 2 && r.saves[|r.saves| - 2..] == [Save(Intermediate, r.rows), Save(Output, r.rows)]
  {
    var flushed := FinalFlush(s, classify, signalled);
    flushed.(saves := flushed.saves + [Save(Intermediate, flushed.rows), Save(Output, flushed.rows)])
  }

  /** The whole run over the selected rows; `lateSignal` is a signal that arrives
      after the last iteration's check and before the final one. */
  function Run(cfg: Config, classify: Classifier, rows: seq<Row>, events: seq<Event>, lateSignal: bool): (r: State)
    requires WellFormed(classify)
    requires forall e :: e in events ==> e.idx < |rows|
    ensures |r.rows| == |rows|
    ensures |r.saves| >= 2
    ensures r.saves[|r.saves| - 2..] == [Save(Intermediate, r.rows), Save(Output, r.rows)]
  {
    var start := State(rows, [], 0, []);
    assert Indexed(start);
    var stop := Loop(cfg, classify, start, events);
    Finish(classify, stop.state, stop.interrupted || lateSignal)
  }

  /** The body of one iteration whose flag was not set. */
  method Consume(rows: array<Row>, cfg: Config, classify: Classifier,
                 batch: seq<Fetched>, sinceSave: int, saves: seq<Save>, e: Event)
    returns (batch': seq<Fetched>, sinceSave': int, saves': seq<Save>)
    requires WellFormed(classify) && e.idx < rows.Length
    requires forall f :: f in batch ==> f.idx < rows.Length
    modifies rows
    ensures State(rows[..], batch', sinceSave', saves')
      == Step(cfg, classify, State(old(rows[..]), batch, sinceSave, saves), e)
  {
    batch', sinceSave', saves' := batch, sinceSave, saves;
    match e.image {
      case None =>
        rows[e.idx] := rows[e.idx].(prediction := ErrorMark);
      case Some(img) =>
        batch' := batch' + [Fetched(e.idx, img)];
        if |batch'| >= cfg.batchSize {
          sinceSave' := FlushBatch(rows, classify, batch', sinceSave', saves');
          batch' := [];
          if sinceSave' >= cfg.saveEvery {
            saves' := saves' + [Save(Intermediate, rows[..])];
            sinceSave' := 0;
          }
        }
    }
  }

  /** The main loop, the final flush and the saves, updating the table in place. */
  method ClassifyPending(rows: array<Row>, cfg: Config, classify: Classifier, events: seq<Event>, lateSignal: bool)
    returns (saves: seq<Save>)
    requires WellFormed(classify)
    requires CompletionOrder(events, rows[..])
    modifies rows
    ensures rows[..] == Run(cfg, classify, old(rows[..]), events, lateSignal).rows
    ensures saves == Run(cfg, classify, old(rows[..]), events, lateSignal).saves
  {
    var totalRows := rows.Length;
    assert forall e :: e in events ==> e.idx < rows.Length;
    ghost var initial := rows[..];
    ghost var start := State(initial, [], 0, []);
    var batch: seq<Fetched> := [];
    var sinceSave := 0;
    var interrupted := false;
    saves := [];
    var k := 0;
    while k < |events|
      invariant 0 <= k <= |events|
      invariant rows.Length == totalRows
      invariant forall f :: f in batch ==> f.idx < rows.Length
      invariant Loop(cfg, classify, start, events)
        == Loop(cfg, classify, State(rows[..], batch, sinceSave, saves), events[k..])
    {
      var e := events[k];
      assert events[k..][0] == e && events[k..][1..] == events[k + 1..];
      if e.shutdown {
        saves := saves + [Save(Intermediate, rows[..])];
        interrupted := true;
        assert Loop(cfg, classify, start, events)
          == Stop(State(rows[..], batch, sinceSave, saves), true);
        break;
      }
      batch, sinceSave, saves := Consume(rows, cfg, classify, batch, sinceSave, saves, e);
      k := k + 1;
    }
    if k == |events| {
      assert events[k..] == [];
    }
    ghost var stopped := State(rows[..], batch, sinceSave, saves);
    assert Loop(cfg, classify, start, events) == Stop(stopped, interrupted);

    ghost var r := Run(cfg, classify, initial, events, lateSignal);
    var signalled := interrupted || lateSignal;
    assert r == Finish(classify, stopped, signalled);

    // Final batch, unless the shutdown flag is set.
    if !signalled {
      FlushLeftoverBatch(rows, classify, batch, sinceSave, saves);
    }
    assert rows[..] == FinalFlush(stopped, classify, signalled).rows == r.rows;
    saves := saves + [Save(Intermediate, rows[..]), Save(Output, rows[..])];
  }

  /** A saved table that holds `row` at index j. */
  ghost predicate Keeps(sv: Save, j: nat, row: Row)
  {
    j < |sv.rows| && sv.rows[j] == row
  }

  /** The loop writes no row outside the events and the batch, in the table or in
      any checkpoint it takes. */
  lemma {:induction false} LoopFrame(cfg: Config, classify: Classifier, s: State, events: seq<Event>, j: nat)
    requires WellFormed(classify) && Indexed(s)
    requires forall e :: e in events ==> e.idx < |s.rows|
    requires j < |s.rows|
    requires forall e :: e in events ==> e.idx != j
    requires forall f :: f in s.batch ==> f.idx != j
    ensures Loop(cfg, classify, s, events).state.rows[j] == s.rows[j]
    ensures forall f :: f in Loop(cfg, classify, s, events).state.batch ==> f.idx != j
    ensures forall sv :: sv in Loop(cfg, classify, s, events).state.saves ==>
      sv in s.saves || Keeps(sv, j, s.rows[j])
    decreases |events|
  {
    if events != [] && !events[0].shutdown {
      assert forall e :: e in events[1..] ==> e in events;
      LoopFrame(cfg, classify, Step(cfg, classify, s, events[0]), events[1..], j);
    }
  }

  /** Resume never reprocesses a done row: its value is the same at the end of the
      run and in every table the run saves. */
  lemma DoneRowsKept(cfg: Config, classify: Classifier, rows: seq<Row>, events: seq<Event>,
                     lateSignal: bool, j: nat)
    requires WellFormed(classify) && CompletionOrder(events, rows)
    requires j < |rows| && Done(rows[j])
    ensures forall e :: e in events ==> e.idx < |rows|
    ensures Run(cfg, classify, rows, events, lateSignal).rows[j] == rows[j]
    ensures forall sv :: sv in Run(cfg, classify, rows, events, lateSignal).saves ==> Keeps(sv, j, rows[j])
  {
    var start := State(rows, [], 0, []);
    LoopFrame(cfg, classify, start, events, j);
  }

  /** What stays true between iterations for the rows still in play: the batch and
      the remaining events name selectable rows, and no index is in play twice. */
  ghost predicate Pending(s: State, rest: seq<Event>)
  {
    && (forall f :: f in s.batch ==> f.idx < |s.rows| && Selected(s.rows[f.idx]))
    && (forall e :: e in rest ==> e.idx < |s.rows| && Selected(s.rows[e.idx]))
    && (forall e, f :: e in rest && f in s.batch ==> e.idx != f.idx)
    && (forall a, b :: 0 <= a < b < |rest| ==> rest[a].idx != rest[b].idx)
    && Distinct(s.batch)
  }

  lemma StepKeepsPending(cfg: Config, classify: Classifier, s: State, rest: seq<Event>)
    requires WellFormed(classify) && Indexed(s)
    requires rest != [] && !rest[0].shutdown && Pending(s, rest)
    ensures Pending(Step(cfg, classify, s, rest[0]), rest[1..])
  {
    var e := rest[0];
    var later := rest[1..];
    assert forall x :: x in later ==> x in rest && x.idx != e.idx;
    assert forall a, b :: 0 <= a < b < |later| ==> later[a].idx != later[b].idx by {
      assert forall a :: 0 <= a < |later| ==> later[a] == rest[a + 1];
    }
    if e.image.None? {
      FailedFetchKeepsPending(cfg, classify, s, e, later);
    } else if |s.batch| + 1 < cfg.batchSize {
      DistinctAppend(s.batch, Fetched(e.idx, e.image.value));
      assert Step(cfg, classify, s, e) == s.(batch := s.batch + [Fetched(e.idx, e.image.value)]);
    } else {
      FlushKeepsPending(cfg, classify, s, e, later);
    }
  }

  /** A failed fetch marks its row 'ERROR', which is still selectable. */
  lemma FailedFetchKeepsPending(cfg: Config, classify: Classifier, s: State, e: Event, later: seq<Event>)
    requires WellFormed(classify) && Indexed(s) && e.idx < |s.rows| && e.image.None?
    requires Pending(s, later)
    ensures Pending(Step(cfg, classify, s, e), later)
  {
    var r := Step(cfg, classify, s, e);
    assert r.batch == s.batch;
    assert r.rows == s.rows[e.idx := s.rows[e.idx].(prediction := ErrorMark)];
  }

  /** A full batch is cleared; the remaining events name rows it did not touch. */
  lemma FlushKeepsPending(cfg: Config, classify: Classifier, s: State, e: Event, later: seq<Event>)
    requires WellFormed(classify) && Indexed(s) && e.idx < |s.rows|
    requires e.image.Some? && |s.batch| + 1 >= cfg.batchSize
    requires forall x :: x in later ==> x.idx < |s.rows| && Selected(s.rows[x.idx]) && x.idx != e.idx
    requires forall x, f :: x in later && f in s.batch ==> x.idx != f.idx
    requires forall a, b :: 0 <= a < b < |later| ==> later[a].idx != later[b].idx
    ensures Pending(Step(cfg, classify, s, e), later)
  {
    var r := Step(cfg, classify, s, e);
    forall x | x in later
      ensures x.idx < |r.rows| && Selected(r.rows[x.idx])
    {
      assert r.rows[x.idx] == s.rows[x.idx];
    }
    PendingEmptyBatch(r, later);
  }

  /** With the batch empty, only the remaining events need to be selectable and distinct. */
  lemma PendingEmptyBatch(s: State, rest: seq<Event>)
    requires s.batch == []
    requires forall e :: e in rest ==> e.idx < |s.rows| && Selected(s.rows[e.idx])
    requires forall a, b :: 0 <= a < b < |rest| ==> rest[a].idx != rest[b].idx
    ensures Pending(s, rest)
  {
  }

  /** A full batch: the table after the iteration is the flushed one, checkpoint or not. */
  lemma StepFlushes(cfg: Config, classify: Classifier, s: State, e: Event)
    requires WellFormed(classify) && Indexed(s) && e.idx < |s.rows|
    requires e.image.Some? && |s.batch| + 1 >= cfg.batchSize
    ensures Step(cfg, classify, s, e).rows == Flush(s.(batch := s.batch + [Fetched(e.idx, e.image.value)]), classify).rows
  {
  }

  /** A full batch whose classifier answers gives each of its rows, all distinct, the
      label and confidence of that row's own answer. */
  lemma StepLabelsBatch(cfg: Config, classify: Classifier, s: State, rest: seq<Event>)
    requires WellFormed(classify) && Indexed(s)
    requires rest != [] && !rest[0].shutdown && Pending(s, rest)
    requires rest[0].image.Some? && |s.batch| + 1 >= cfg.batchSize
    ensures var grown := s.batch + [Fetched(rest[0].idx, rest[0].image.value)];
      classify(Images(grown)).Some? ==>
        forall k :: 0 <= k < |grown| ==>
          Step(cfg, classify, s, rest[0]).rows[grown[k].idx]
            == s.rows[grown[k].idx].(prediction := Text(Label(classify(Images(grown)).value[k].cls)),
                                     confidence := Text(classify(Images(grown)).value[k].conf))
  {
    var e := rest[0];
    var grown := s.(batch := s.batch + [Fetched(e.idx, e.image.value)]);
    DistinctAppend(s.batch, Fetched(e.idx, e.image.value));
    FlushLabelsEach(grown, classify);
    StepFlushes(cfg, classify, s, e);
  }

  /** Rows fetched but not yet classified keep a selectable prediction, so a later
      run picks them again. */
  lemma {:induction false} LoopKeepsPending(cfg: Config, classify: Classifier, s: State, events: seq<Event>)
    requires WellFormed(classify) && Indexed(s) && Pending(s, events)
    ensures forall e :: e in events ==> e.idx < |s.rows|
    ensures Pending(Loop(cfg, classify, s, events).state, [])
    decreases |events|
  {
    if events != [] && !events[0].shutdown {
      StepKeepsPending(cfg, classify, s, events);
      LoopKeepsPending(cfg, classify, Step(cfg, classify, s, events[0]), events[1..]);
    }
  }

  /** A shutdown seen at the top of an iteration: the leftover batch is not
      classified, its rows stay selectable, and the shutdown, final and output saves
      all hold the same table. */
  lemma ShutdownLeavesBatchSelectable(cfg: Config, classify: Classifier, rows: seq<Row>,
                                      events: seq<Event>, lateSignal: bool)
    requires WellFormed(classify) && CompletionOrder(events, rows)
    ensures forall e :: e in events ==> e.idx < |rows|
    ensures var stop := Loop(cfg, classify, State(rows, [], 0, []), events);
      var r := Run(cfg, classify, rows, events, lateSignal);
      stop.interrupted ==>
        && r.rows == stop.state.rows
        && (forall f :: f in stop.state.batch ==> f.idx < |r.rows| && Selected(r.rows[f.idx]))
        && |r.saves| >= 3
        && r.saves[|r.saves| - 3..]
           == [Save(Intermediate, r.rows), Save(Intermediate, r.rows), Save(Output, r.rows)]
  {
    var start := State(rows, [], 0, []);
    assert Pending(start, events);
    LoopKeepsPending(cfg, classify, start, events);
    var stop := Loop(cfg, classify, start, events);
    if stop.interrupted {
      assert Run(cfg, classify, rows, events, lateSignal) == Finish(classify, stop.state, true);
      FinishAfterShutdown(classify, stop.state);
    }
  }

  /** Finishing after the shutdown save: the table is left as it is, and the last
      three saves are the shutdown, the final and the output save of that table. */
  lemma FinishAfterShutdown(classify: Classifier, s: State)
    requires WellFormed(classify) && Indexed(s)
    requires |s.saves| > 0 && s.saves[|s.saves| - 1] == Save(Intermediate, s.rows)
    ensures var r := Finish(classify, s, true);
      && r.rows == s.rows
      && |r.saves| >= 3
      && r.saves[|r.saves| - 3..] == [Save(Intermediate, r.rows), Save(Intermediate, r.rows), Save(Output, r.rows)]
  {
    var r := Finish(classify, s, true);
    var prior := s.saves;
    assert r.rows == s.rows;
    assert r.saves == prior + [Save(Intermediate, r.rows), Save(Output, r.rows)];
    assert r.saves[|r.saves| - 3..] == [prior[|prior| - 1], Save(Intermediate, r.rows), Save(Output, r.rows)];
  }

  /** The run's final flush gives each row of the leftover batch the label and
      confidence of its own answer when no shutdown is seen and the classifier answers. */
  lemma RunLabelsLeftover(cfg: Config, classify: Classifier, rows: seq<Row>,
                          events: seq<Event>, lateSignal: bool)
    requires WellFormed(classify) && CompletionOrder(events, rows)
    ensures forall e :: e in events ==> e.idx < |rows|
    ensures var stop := Loop(cfg, classify, State(rows, [], 0, []), events);
      var b := stop.state.batch;
      !stop.interrupted && !lateSignal && classify(Images(b)).Some? ==>
        forall k :: 0 <= k < |b| ==>
          Run(cfg, classify, rows, events, lateSignal).rows[b[k].idx]
            == stop.state.rows[b[k].idx].(prediction := Text(Label(classify(Images(b)).value[k].cls)),
                                          confidence := Text(classify(Images(b)).value[k].conf))
  {
    var start := State(rows, [], 0, []);
    assert Pending(start, events);
    LoopKeepsPending(cfg, classify, start, events);
    var stop := Loop(cfg, classify, start, events);
    FlushLabelsEach(stop.state, classify);
    if !stop.interrupted && !lateSignal {
      assert Run(cfg, classify, rows, events, lateSignal).rows == FlushLeftover(stop.state, classify).rows;
    }
  }

  /** A row picked for this run ends it either labelled 'yes'/'no' by the classifier
      or still selectable, so the next run picks it again: a failed fetch, a failed
      flush, a shutdown or a failed final flush leaves no row half done. */
  lemma RunKeepsUnlabelledSelectable(cfg: Config, classify: Classifier, rows: seq<Row>,
                                     events: seq<Event>, lateSignal: bool)
    requires WellFormed(classify) && forall e :: e in events ==> e.idx < |rows|
    ensures forall j :: 0 <= j < |rows| && Selected(rows[j]) ==>
      var r := Run(cfg, classify, rows, events, lateSignal).rows[j];
      Selected(r) || r.prediction in {Text("yes"), Text("no")}
  {
    RunAccounted(cfg, classify, rows, events, lateSignal);
  }

  /** A selected row ends the run either unchanged, or marked 'ERROR', or labelled
      'yes'/'no' by the classifier: a row becomes done only through a label. */
  ghost predicate Accounted(init: seq<Row>, s: State)
  {
    && |s.rows| == |init|
    && forall j :: 0 <= j < |init| ==>
      s.rows[j] == init[j] || s.rows[j].prediction in {ErrorMark, Text("yes"), Text("no")}
  }

  lemma {:induction false} LoopAccounted(cfg: Config, classify: Classifier, init: seq<Row>, s: State,
                                         events: seq<Event>)
    requires WellFormed(classify) && Indexed(s) && Accounted(init, s)
    requires forall e :: e in events ==> e.idx < |s.rows|
    ensures Accounted(init, Loop(cfg, classify, s, events).state)
    decreases |events|
  {
    if events != [] && !events[0].shutdown {
      var e := events[0];
      if e.image.Some? && |s.batch| + 1 >= cfg.batchSize {
        FlushLabels(s.(batch := s.batch + [Fetched(e.idx, e.image.value)]), classify);
      }
      assert forall x :: x in events[1..] ==> x in events;
      LoopAccounted(cfg, classify, init, Step(cfg, classify, s, e), events[1..]);
    }
  }

  lemma RunAccounted(cfg: Config, classify: Classifier, rows: seq<Row>, events: seq<Event>, lateSignal: bool)
    requires WellFormed(classify) && forall e :: e in events ==> e.idx < |rows|
    ensures forall j :: 0 <= j < |rows| ==>
      var r := Run(cfg, classify, rows, events, lateSignal).rows[j];
      r == rows[j] || r.prediction in {ErrorMark, Text("yes"), Text("no")}
  {
    var start := State(rows, [], 0, []);
    LoopAccounted(cfg, classify, rows, start, events);
    var stop := Loop(cfg, classify, start, events);
    FlushLabels(stop.state, classify);
  }

  /** The classifier answers every non-empty batch. */
  ghost predicate Answers(classify: Classifier)
  {
    forall images: seq<Image> :: images != [] ==> classify(images).Some?
  }

  /** A row the classifier has labelled. */
  predicate Classified(r: Row)
  {
    r.prediction == Text("yes") || r.prediction == Text("no")
  }

  /** Where a consumed completion has got to: a failed fetch has marked its row
      'ERROR'; a fetched row is labelled or still waits in the batch. */
  ghost predicate Reached(s: State, d: Event)
  {
    && d.idx < |s.rows|
    && (if d.image.None? then s.rows[d.idx].prediction == ErrorMark
        else Classified(s.rows[d.idx]) || Fetched(d.idx, d.image.value) in s.batch)
  }

  /** What the loop keeps about the completions consumed so far: each has reached its
      outcome, the batch holds only their images, once per row, and no row is
      consumed twice. */
  ghost predicate Settled(s: State, done: seq<Event>)
  {
    && (forall d :: d in done ==> Reached(s, d))
    && (forall f :: f in s.batch ==> Event(f.idx, Some(f.image), false) in done)
    && (forall x, y :: x in done && y in done && x.idx == y.idx ==> x == y)
    && Distinct(s.batch)
  }

  /** A failed fetch settles its own row and touches no other. */
  lemma FailedFetchSettles(cfg: Config, classify: Classifier, s: State, done: seq<Event>, e: Event)
    requires WellFormed(classify) && Indexed(s) && e.idx < |s.rows| && !e.shutdown
    requires e.image.None? && Settled(s, done)
    requires forall d :: d in done ==> d.idx != e.idx
    ensures Settled(Step(cfg, classify, s, e), done + [e])
  {
    var r := Step(cfg, classify, s, e);
    assert r.batch == s.batch;
    assert r.rows == s.rows[e.idx := s.rows[e.idx].(prediction := ErrorMark)];
    forall d | d in done + [e]
      ensures Reached(r, d)
    {
      if d != e {
        assert d in done && Reached(s, d);
      }
    }
  }

  /** Appending a fetched image of a new row keeps the consumed completions settled,
      that completion included: its image now waits in the batch. */
  lemma GrowSettles(s: State, done: seq<Event>, e: Event)
    requires e.idx < |s.rows| && !e.shutdown && e.image.Some? && Settled(s, done)
    requires forall d :: d in done ==> d.idx != e.idx
    ensures Settled(s.(batch := s.batch + [Fetched(e.idx, e.image.value)]), done + [e])
  {
    var f := Fetched(e.idx, e.image.value);
    var g := s.(batch := s.batch + [f]);
    assert e == Event(f.idx, Some(f.image), false);
    DistinctAppend(s.batch, f);
    forall d | d in done + [e]
      ensures Reached(g, d)
    {
      if d != e {
        assert d in done && Reached(s, d);
      }
    }
  }

  /** Labelling every batch row and leaving the rest alone keeps each consumed
      completion at its outcome: a failed fetch's row is never in the batch. */
  lemma ReachedAfterLabelling(s: State, rows: seq<Row>, done: seq<Event>, d: Event)
    requires Settled(s, done) && d in done && |rows| == |s.rows|
    requires forall f :: f in s.batch ==> f.idx < |rows| && Classified(rows[f.idx])
    requires forall j :: 0 <= j < |s.rows| && (forall f :: f in s.batch ==> f.idx != j) ==>
      rows[j] == s.rows[j]
    ensures Reached(s.(rows := rows, batch := []), d)
  {
    assert Reached(s, d);
    if g :| g in s.batch && g.idx == d.idx {
      assert Event(g.idx, Some(g.image), false) in done;
    }
  }

  /** A fetched image below the batch size waits in the batch. */
  lemma AppendSettles(cfg: Config, classify: Classifier, s: State, done: seq<Event>, e: Event)
    requires WellFormed(classify) && Indexed(s) && e.idx < |s.rows| && !e.shutdown
    requires e.image.Some? && |s.batch| + 1 < cfg.batchSize && Settled(s, done)
    requires forall d :: d in done ==> d.idx != e.idx
    ensures Settled(Step(cfg, classify, s, e), done + [e])
  {
    GrowSettles(s, done, e);
    assert Step(cfg, classify, s, e) == s.(batch := s.batch + [Fetched(e.idx, e.image.value)]);
  }

  /** A full batch that the classifier answers labels every row in it; the rows of
      earlier failed fetches are not in it and keep their 'ERROR'. */
  lemma FlushSettles(cfg: Config, classify: Classifier, s: State, done: seq<Event>, e: Event)
    requires WellFormed(classify) && Answers(classify) && Indexed(s) && e.idx < |s.rows| && !e.shutdown
    requires e.image.Some? && |s.batch| + 1 >= cfg.batchSize && Settled(s, done)
    requires forall d :: d in done ==> d.idx != e.idx
    ensures Settled(Step(cfg, classify, s, e), done + [e])
  {
    var grown := s.(batch := s.batch + [Fetched(e.idx, e.image.value)]);
    var r := Step(cfg, classify, s, e);
    GrowSettles(s, done, e);
    LabelsWholeBatch(grown, classify);
    StepFlushes(cfg, classify, s, e);
    forall d | d in done + [e]
      ensures Reached(r, d)
    {
      ReachedAfterLabelling(grown, r.rows, done + [e], d);
    }
  }

  /** A flush whose classifier answers labels every row of a batch with distinct
      indices, and the final flush does the same. */
  lemma LabelsWholeBatch(s: State, classify: Classifier)
    requires WellFormed(classify) && Answers(classify) && Indexed(s) && Distinct(s.batch) && s.batch != []
    ensures forall f :: f in s.batch ==> Classified(Flush(s, classify).rows[f.idx])
    ensures forall f :: f in s.batch ==> Classified(FlushLeftover(s, classify).rows[f.idx])
  {
    assert |Images(s.batch)| == |s.batch| > 0;
    FlushLabelsEach(s, classify);
    forall f | f in s.batch
      ensures Classified(Flush(s, classify).rows[f.idx])
      ensures Classified(FlushLeftover(s, classify).rows[f.idx])
    {
      var k :| 0 <= k < |s.batch| && s.batch[k] == f;
    }
  }

  lemma StepSettles(cfg: Config, classify: Classifier, s: State, done: seq<Event>, e: Event)
    requires WellFormed(classify) && Answers(classify) && Indexed(s) && e.idx < |s.rows| && !e.shutdown
    requires Settled(s, done)
    requires forall d :: d in done ==> d.idx != e.idx
    ensures Settled(Step(cfg, classify, s, e), done + [e])
  {
    if e.image.None? {
      FailedFetchSettles(cfg, classify, s, done, e);
    } else if |s.batch| + 1 < cfg.batchSize {
      AppendSettles(cfg, classify, s, done, e);
    } else {
      FlushSettles(cfg, classify, s, done, e);
    }
  }

  lemma ConsumeOne(done: seq<Event>, rest: seq<Event>)
    requires rest != []
    ensures done + [rest[0]] + rest[1..] == done + rest
  {
    assert rest == [rest[0]] + rest[1..];
  }

  /** Without a shutdown the loop consumes every completion, and each reaches its
      outcome whatever the others do. */
  lemma {:induction false} LoopSettles(cfg: Config, classify: Classifier, s: State,
                                       done: seq<Event>, rest: seq<Event>)
    requires WellFormed(classify) && Answers(classify) && Indexed(s) && Settled(s, done)
    requires forall e :: e in rest ==> e.idx < |s.rows| && !e.shutdown
    requires forall d, e :: d in done && e in rest ==> d.idx != e.idx
    requires forall a, b :: 0 <= a < b < |rest| ==> rest[a].idx != rest[b].idx
    ensures !Loop(cfg, classify, s, rest).interrupted
    ensures Settled(Loop(cfg, classify, s, rest).state, done + rest)
    decreases |rest|
  {
    if rest == [] {
      assert done + rest == done;
    } else {
      var e := rest[0];
      var later := rest[1..];
      assert forall a :: 0 <= a < |later| ==> later[a] == rest[a + 1];
      assert forall x :: x in later ==> x in rest && x.idx != e.idx;
      StepSettles(cfg, classify, s, done, e);
      LoopSettles(cfg, classify, Step(cfg, classify, s, e), done + [e], later);
      ConsumeOne(done, rest);
    }
  }

  /** Fault isolation: without a shutdown, and with a classifier that answers every
      batch, each failed fetch ends the run marked 'ERROR' and each fetched row ends
      it labelled 'yes'/'no', whatever happened to the other rows. */
  lemma RunSettles(cfg: Config, classify: Classifier, rows: seq<Row>, events: seq<Event>, lateSignal: bool)
    requires WellFormed(classify) && Answers(classify) && CompletionOrder(events, rows)
    requires (forall e :: e in events ==> !e.shutdown) && !lateSignal
    ensures forall e :: e in events ==> e.idx < |rows|
    ensures forall e :: e in events ==>
      var r := Run(cfg, classify, rows, events, lateSignal).rows[e.idx];
      && (e.image.None? ==> r.prediction == ErrorMark)
      && (e.image.Some? ==> Classified(r))
  {
    var start := State(rows, [], 0, []);
    assert Settled(start, []);
    LoopSettles(cfg, classify, start, [], events);
    assert [] + events == events;
    var s := Loop(cfg, classify, start, events).state;
    var fin := FlushLeftover(s, classify);
    assert Run(cfg, classify, rows, events, lateSignal).rows == fin.rows;
    if s.batch != [] {
      LabelsWholeBatch(s, classify);
    }
    forall e | e in events
      ensures Reached(s.(rows := fin.rows, batch := []), e)
    {
      ReachedAfterLabelling(s, fin.rows, events, e);
    }
  }
}
