# Street-image tent detection: batch classification and tile extraction

This project models the two pieces of logic in the street-level image pipeline that
sit under the network and machine-learning calls.

- **Resumable batch classification** (the `2_detect_tents*` scripts). A table of image
  rows carries `prediction` and `confidence` columns. A run does the following:
  - loads the table, from the intermediate checkpoint when resuming;
  - selects the rows still to do;
  - consumes the fetch outcomes in completion order. A failed fetch marks the row
    `'ERROR'`. A fetched image joins a batch.
  - classifies a full batch, writes the `'yes'`/`'no'` labels back and clears the batch;
  - takes checkpoints as a counter reaches `SAVE_EVERY`, and flushes a final partial batch.

  The third script also stops on a shutdown signal. The sequential detector
  (`2_detect_tents.py`) instead visits every row and stores `;`-joined detection lists.
- **Geotagged feature filtering and tile aggregation** (the `1_extract_street_img_urls*`
  scripts). A vector-tile feature passes when all three tests hold:
  - its point is inside the closed Washington D.C. bounding box;
  - its capture time is inside the closed date window;
  - its id is truthy.

  A passing feature's thumbnail URL is looked up, and a record is kept when that URL is
  truthy. Per-tile record lists are then concatenated or appended to the output file.
  The three scripts differ in how they order the tiles and how they treat exceptions.

External effects are inputs to the model:
- The table loaded from disk.
- The order in which `as_completed` delivers the futures, as a sequence of
  completions. It is constrained to each selected index exactly once.
- Each fetch outcome, as an `Option<Image>`.
- The classifier, as a function from a batch of images to one answer per image, or
  `None` when it raises.
- The shutdown flag seen at each iteration.
- The tile source and the URL resolver, as functions returning a value or an error.
- The completion order of the tile tasks, and the outcome of each file append.

Saves are snapshots of the table, recorded in order with the file they go to.

Modules:
- `Wrappers`: `Option` and `Result`.
- `Table`: cells, rows and saves.
- `Batching`: `predict_batch`, write-back, the loop state, batch flushes and row selection.
- `DetectV3`, `DetectV2`, `DetectResume`, `DetectSequential`: one per detection script.
- `Features`: the shared filter and per-tile scan.
- `ExtractMissing2`, `ExtractMissing`, `Extract`: one per extraction script.

The main loops are methods that update an `array` of rows in place. Each is proved
equal to a recursive specification function. The properties are proved about those
functions.

## Model

| member | source | states |
|---|---|---|
| Batching.Predictions | 2_detect_tents_v3.py:103-113 | one output line per batch entry; line i carries batch entry i's index and answer i's confidence, and its label is 'yes' exactly when the class is 1 and 'no' exactly when it is not |
| Batching.PredictBatch | 2_detect_tents_v3.py:103-113 | the loop over the classifier's answers builds exactly the index-preserving label map, or nothing when the classifier raises |
| Batching.PredictionsFromBatch | 2_detect_tents_v3.py:103-113 | every output line names an index that was in the batch and carries 'yes' or 'no' |
| Batching.Written | 2_detect_tents_v3.py:150-152 | writing labels back keeps the table length and every url; a row no prediction names is unchanged; any other row is unchanged or holds the label and confidence of a prediction for it |
| Batching.WrittenAt | 2_detect_tents_v3.py:150-152 | with distinct indices, every predicted row ends holding exactly its own label and confidence |
| Batching.WriteBack | 2_detect_tents_v3.py:150-152 | the in-place `df.at` loop leaves the table equal to the write-back of the predictions over its old contents |
| Batching.PredictedIndexed | 2_detect_tents_v3.py:145-153 | a flush labels only rows of the batch, all inside the table, with 'yes' or 'no'; rows outside the batch are untouched |
| Batching.Pick | 2_detect_tents_v3.py:72 | an index is picked exactly when its row is inside the table and satisfies the selector; the picks are in strictly increasing table order |
| Batching.Flush | 2_detect_tents_v3.py:147-157 | a full-batch flush empties the batch and takes no save |
| Batching.FlushLeftover | 2_detect_tents_v3.py:163-171 | the final flush leaves the counter, the saves and the batch as they were; it changes no row when the batch is empty or the classifier raises, and never one outside the batch |
| Batching.FlushBatch | 2_detect_tents_v3.py:147-157 | classifying a full batch in place leaves exactly the table and the counter `Flush` gives |
| Batching.FlushLeftoverBatch | 2_detect_tents_v3.py:163-171 | classifying the leftover batch in place leaves exactly the table `FlushLeftover` gives |
| Batching.FlushLabels | 2_detect_tents_v3.py:147-157 | a full-batch flush and the final flush leave each row either unchanged or labelled 'yes'/'no' |
| Batching.WrittenEach | 2_detect_tents_v3.py:150-152 | writing back the answers for a batch with distinct indices gives the row of the k-th entry the label ('yes' exactly for class 1) and confidence of the k-th answer |
| Batching.FlushLabelsEach | 2_detect_tents_v3.py:147-169 | a full-batch flush and the final flush whose classifier answers give every row of a batch with distinct indices the label and confidence of its own answer |
| Batching.PickAgrees | 2_detect_tents_resume_part1.py:32 | two selectors that agree row by row pick the same indices |
| DetectV3.Selected | 2_detect_tents_v3.py:72 | a row is picked when its prediction is NaN, '' or 'ERROR' |
| DetectV3.FreshStart | 2_detect_tents_v3.py:66-68 | a fresh start keeps the length and urls, adds each result column as '' only when the input lacks it, and then every row is selected |
| DetectV3.Load | 2_detect_tents_v3.py:62-68 | resuming keeps the checkpoint's length and selects a row exactly when it was selected in the saved table; a fresh start keeps the input's length |
| DetectV3.PartitionCounts | 2_detect_tents_v3.py:70-73 | `already_done` plus `len(df_to_process)` is `total_rows`: every row is done or to process, never both |
| DetectV3.FetchImage | 2_detect_tents_v3.py:88-100 | returns its index; makes 1 to MAX_RETRIES attempts, all earlier ones failed; returns None exactly when the MAX_RETRIES-th attempt failed; sleeps once between consecutive attempts with exponents 1, 2, … strictly increasing |
| DetectV3.Step | 2_detect_tents_v3.py:139-161 | a failed fetch sets only that row's prediction to 'ERROR', batch, counter and saves unchanged; a batch below BATCH_SIZE is only appended to; reaching BATCH_SIZE clears the batch whether the classifier succeeds or raises, leaves the table unchanged on failure, adds the batch length to the counter on success, and a save happens only after such a flush, of the current table, resetting the counter; the batch stays below BATCH_SIZE between iterations |
| DetectV3.StepCheckpoint | 2_detect_tents_v3.py:147-161 | after a full batch's flush a checkpoint is taken exactly when the counter, bumped by the batch length if the classifier answered, reaches SAVE_EVERY; it saves the flushed table and resets the counter, otherwise the counter keeps its bumped value |
| DetectV3.StepCounterBound | 2_detect_tents_v3.py:147-161 | with a positive SAVE_EVERY one iteration keeps the counter in [0, SAVE_EVERY) |
| DetectV3.StepLabelsBatch | 2_detect_tents_v3.py:147-154 | a full batch whose classifier answers gives each of its rows, all distinct, the label ('yes' exactly for class 1) and confidence of that row's own answer |
| DetectV3.FailedFetchKeepsPending | 2_detect_tents_v3.py:140-143 | a failed fetch leaves the batch and the remaining completions naming distinct, selectable rows |
| DetectV3.FlushKeepsPending | 2_detect_tents_v3.py:147-157 | a full batch is cleared whether the classifier answers or raises, and the remaining completions still name distinct, selectable rows |
| DetectV3.Loop | 2_detect_tents_v3.py:134-161 | the table length never changes, the batch stays below BATCH_SIZE, and a loop ended by the shutdown flag has just saved the current table to the intermediate file |
| DetectV3.LoopCounterBound | 2_detect_tents_v3.py:134-161 | with a positive SAVE_EVERY the loop keeps the counter in [0, SAVE_EVERY) |
| DetectV3.FinalFlush | 2_detect_tents_v3.py:163-171 | with the shutdown flag set, or an empty batch, or a raising classifier, the table is unchanged; rows outside the batch never change; counter and saves are untouched |
| DetectV3.Finish | 2_detect_tents_v3.py:163-176 | after the final flush the run saves the same table once to the intermediate file and once to the output, without touching the counter |
| DetectV3.Run | 2_detect_tents_v3.py:127-183 | the row count is unchanged and the last two saves are the intermediate and the output save of the final table |
| DetectV3.Consume | 2_detect_tents_v3.py:139-161 | one iteration on the array, the batch, the counter and the saves is exactly `Step` |
| DetectV3.ClassifyPending | 2_detect_tents_v3.py:127-183 | the main loop, the final flush and the saves leave the table and the saves exactly as `Run` says |
| DetectV3.LoopFrame | 2_detect_tents_v3.py:134-161 | a row that no completion names and that is not in the batch is unchanged by the loop and held unchanged by every checkpoint it takes |
| DetectV3.DoneRowsKept | 2_detect_tents_v3.py:71-72 | a resumed run never reprocesses a done row: it is unchanged at the end and in every saved table |
| DetectV3.StepKeepsPending | 2_detect_tents_v3.py:139-157 | one iteration keeps the batch and the remaining completions naming distinct, still-selectable rows |
| DetectV3.LoopKeepsPending | 2_detect_tents_v3.py:139-157 | the batch the loop leaves behind (at a shutdown or before the final flush) names distinct rows that are still selectable |
| DetectV3.RunKeepsUnlabelledSelectable | 2_detect_tents_v3.py:139-171 | a row picked for the run ends it either labelled 'yes'/'no' or still selectable: a failed fetch, a failed flush, a shutdown or a failed final flush leaves it for the next run |
| DetectV3.RunSettles | 2_detect_tents_v3.py:134-169 | fault isolation: with no shutdown and a classifier that answers every batch, each failed fetch ends the run marked 'ERROR' and each fetched row ends it labelled 'yes'/'no', whatever happened to the other rows |
| DetectV3.LoopSettles | 2_detect_tents_v3.py:134-161 | with no shutdown the loop is never interrupted, and every completion it consumed has its row marked 'ERROR', labelled, or its image waiting in the batch, which holds only those images, once per row |
| DetectV3.StepSettles | 2_detect_tents_v3.py:139-161 | one iteration brings its own completion to that outcome and keeps the earlier completions at theirs |
| DetectV3.FailedFetchSettles | 2_detect_tents_v3.py:139-143 | a failed fetch marks only its own row 'ERROR' |
| DetectV3.AppendSettles | 2_detect_tents_v3.py:145 | a fetched image below the batch size waits in the batch |
| DetectV3.FlushSettles | 2_detect_tents_v3.py:147-161 | a full batch the classifier answers labels every row in it, while the rows of earlier failed fetches, never in a batch, keep their 'ERROR' |
| DetectV3.LabelsWholeBatch | 2_detect_tents_v3.py:147-169 | a full-batch flush and the final flush whose classifier answers label every row of the batch 'yes' or 'no' |
| DetectV3.RunLabelsLeftover | 2_detect_tents_v3.py:163-169 | without a shutdown, a final flush whose classifier answers gives each leftover row the label ('yes' exactly for class 1) and confidence of its own answer |
| DetectV3.ShutdownLeavesBatchSelectable | 2_detect_tents_v3.py:135-137 | after a shutdown the leftover batch is not classified, its rows stay selectable, and the shutdown, final and output saves hold the same table |
| DetectV3.FinishAfterShutdown | 2_detect_tents_v3.py:135-176 | finishing right after the shutdown save leaves the table as it is, and the last three saves are the shutdown, final and output saves of that table |
| DetectV3.LoopAccounted | 2_detect_tents_v3.py:139-153 | through the loop every row is unchanged, 'ERROR', or labelled 'yes'/'no' |
| DetectV3.RunAccounted | 2_detect_tents_v3.py:139-171 | at the end of the run every row is unchanged, 'ERROR', or labelled 'yes'/'no': a row becomes done only through a classifier label |
| DetectV2.Selected | 2_detect_tents_v2.py:40 | a row is picked when its prediction is '' or 'ERROR'; NaN is not picked |
| DetectV2.Load | 2_detect_tents_v2.py:31-37 | the checkpoint read back as written when there is one, else the fresh start |
| DetectV2.Run | 2_detect_tents_v2.py:71-114 | the loop over the completions, the final flush of a non-empty batch, then the intermediate and output saves |
| DetectV2.FreshStart | 2_detect_tents_v2.py:34-37 | a fresh start overwrites both result columns of every row with '', so every row is selected |
| DetectV2.Step | 2_detect_tents_v2.py:78-99 | one iteration keeps the table length and the batch indices inside the table |
| DetectV2.Loop | 2_detect_tents_v2.py:77-99 | the loop keeps the table length and the batch indices inside the table |
| DetectV2.StepAgrees | 2_detect_tents_v2.py:97-99 | the counter is below SAVE_EVERY outside a flush, so the save test after every non-error iteration fires only after a flush: an iteration equals the third script's with BATCH_SIZE 32, SAVE_EVERY 2000 |
| DetectV2.LoopAgrees | 2_detect_tents_v2.py:77-99 | the loop equals the third script's loop with the shutdown flag never set |
| DetectV2.RunAgrees | 2_detect_tents_v2.py:74-114 | the whole run equals the third script's run with no signal and BATCH_SIZE 32, SAVE_EVERY 2000 |
| DetectV2.RunSaves | 2_detect_tents_v2.py:111-114 | the row count is unchanged and the run ends with an intermediate and an output save of the same final table |
| DetectV2.UnselectedRowsKept | 2_detect_tents_v2.py:40 | a row whose prediction is neither '' nor 'ERROR' is unchanged at the end and in every saved table |
| DetectV2.ResumeDropsUnattemptedRows | 2_detect_tents_v2.py:31-40 | a row saved with prediction '' was selected, is read back as NaN, and is not selected on resume |
| DetectV2.ResumeSkipsUnattemptedRow | 2_detect_tents_v2.py:31-40 | resuming from a one-row checkpoint whose row was never attempted selects nothing, and the row reaches the output unlabelled |
| DetectV2.Consume | 2_detect_tents_v2.py:78-99 | one iteration on the array, the batch, the counter and the saves is exactly `Step` |
| DetectV2.ClassifyPending | 2_detect_tents_v2.py:71-114 | the loop, the final flush and the saves leave the table and the saves exactly as `Run` says |
| DetectResume.FillNa | 2_detect_tents_resume_part1.py:28-29 | the result is never NaN and any other cell is kept |
| DetectResume.Load | 2_detect_tents_resume_part1.py:27-29 | the checkpoint is read back with both result columns' NaN cells filled with '', keeping length and urls |
| DetectResume.LoadSelects | 2_detect_tents_resume_part1.py:27-32 | after the fill, a row is selected exactly when the third script's NaN/''/'ERROR' test selects the saved row, and the picked indices are the same |
| DetectResume.ResumeKeepsSelection | 2_detect_tents_resume_part1.py:27-32 | saving a table and resuming from it picks exactly the rows that were still to do |
| DetectResume.Step | 2_detect_tents_resume_part1.py:70-87 | an iteration fails exactly when a full batch meets a raising classifier; otherwise it keeps the table length and saves at most once, to the intermediate file, of the current table |
| DetectResume.Loop | 2_detect_tents_resume_part1.py:69-87 | the loop keeps the table length and writes only intermediate checkpoints |
| DetectResume.Run | 2_detect_tents_resume_part1.py:63-98 | the loop, then the final batch whose classifier failure also ends the run, then the intermediate and output saves |
| DetectResume.FailedRunWritesNoOutput | 2_detect_tents_resume_part1.py:77-98 | a run stopped by a classifier failure has written only checkpoints; a completed run ends with the intermediate and the output save of the same table |
| DetectResume.StepAgrees | 2_detect_tents_resume_part1.py:77-87 | with a classifier that never raises, an iteration equals the third script's with BATCH_SIZE 32, SAVE_EVERY 1000 |
| DetectResume.LoopAgrees | 2_detect_tents_resume_part1.py:69-87 | with a classifier that never raises, the loop completes and equals the third script's loop |
| DetectResume.RunAgrees | 2_detect_tents_resume_part1.py:66-98 | with a classifier that never raises, the run completes and equals the third script's run with no signal |
| DetectResume.Consume | 2_detect_tents_resume_part1.py:70-87 | one iteration on the array is exactly `Step`; when the classifier raises, the table and the saves are unchanged |
| DetectResume.ClassifyPending | 2_detect_tents_resume_part1.py:63-98 | the loop, the final batch and the saves leave the table, the saves and whether the run completed exactly as `Run` says |
| DetectSequential.SplitJoin | 2_detect_tents.py:69-71 | a ';'-joined column splits back into its parts when there is at least one part and none holds ';' |
| DetectSequential.Init | 2_detect_tents.py:34-36 | every row keeps its url and gets three empty result columns |
| DetectSequential.Describe | 2_detect_tents.py:58-67 | the class, confidence and box lists grow in lockstep: equal length, entry i of each from box i |
| DetectSequential.Annotate | 2_detect_tents.py:50-74 | a failed fetch or a raising detector sets only `yolo_class` to 'ERROR'; otherwise the three `;`-joined detection lists |
| DetectSequential.AnnotateOutcome | 2_detect_tents.py:52-74 | a failed fetch or a raising detector leaves only 'ERROR' in `yolo_class`; zero detections leave three '' columns; otherwise each column splits back into one field per box |
| DetectSequential.DetectAll | 2_detect_tents.py:48-74 | every row is visited once, in place, and ends as that row's annotation |
| DetectSequential.Run | 2_detect_tents.py:33-77 | the saved table has the input's row count, and row i is row i's url, initialised and then annotated |
| Features.Passes | 1_extract_street_img_urls_missing.py:41-49 | a feature passes when its point is in the closed box, its `captured_at` (0 when absent) in the closed window, and its id truthy |
| Features.TilesOf | 1_extract_street_img_urls_missing.py:57 | one zoom-14 tile per coordinate, in order |
| Features.Scan | 1_extract_street_img_urls_missing.py:40-52 | at most one record is kept per resolver call; a scan that reached the end called the resolver for exactly the passing features, in order |
| Features.ScanStops | 1_extract_street_img_urls_missing.py:50 | a scan stopped by an exception called the resolver on a prefix of the passing ids, the last of which raised that exception |
| Features.PassingIdsSound | 1_extract_street_img_urls_missing2.py:59-68 | every id sent to the resolver belongs to a feature in the box, in the date window, with a truthy id |
| Features.ScanSound | 1_extract_street_img_urls_missing2.py:59-71 | every record comes from a passing feature whose id resolved to that truthy URL, with its id, capture time and coordinates |
| Features.ScanComplete | 1_extract_street_img_urls_missing2.py:59-71 | a scan that reached the end resolved every passing feature without an exception, and its records are exactly `Kept`: one per passing feature whose URL is truthy, in feature order |
| Features.ScanPrefix | 1_extract_street_img_urls_missing2.py:56-74 | the records kept before an exception are a prefix of those kept if every failing call had returned no URL, and all of them when no call fails |
| Features.FlattenLength | 1_extract_street_img_urls_missing.py:60-61 | the concatenated list's length is the sum of the per-tile lengths |
| Features.ScanTile | 1_extract_street_img_urls_missing2.py:58-71 | the feature loop appending to `recs` gives exactly the scan's records and stopping exception |
| ExtractMissing2.MaxWorkers | 1_extract_street_img_urls_missing2.py:124 | between 5 and 32 workers, 32 from 7 CPUs up, a multiple of 5 below that |
| ExtractMissing2.TileRecordsPartial | 1_extract_street_img_urls_missing2.py:54-74 | `process_tile` never raises: a failed tile fetch gives nothing, otherwise a prefix of the records the tile would give if every failing lookup had returned no URL, all of them when no lookup failed |
| ExtractMissing2.ProcessTile | 1_extract_street_img_urls_missing2.py:54-74 | the worker with its catch-all handler returns exactly that partial record list |
| ExtractMissing2.StatusSeen | 1_extract_street_img_urls_missing2.py:144 | the handler sees a status exactly when the error carries a response whose status is not a 4xx or 5xx (a requests response is truthy exactly then), and then it is that status |
| ExtractMissing2.Handling | 1_extract_street_img_urls_missing2.py:143-155 | an exception is skipped exactly when it is not an HTTP error: the 5xx test sees the status only through the response's truthiness, which is false for every 4xx and 5xx response, so every HTTP error is re-raised |
| ExtractMissing2.Collect | 1_extract_street_img_urls_missing2.py:129-155 | each completed task's records join the buffer; a non-empty buffer is appended and cleared, or kept when the append raises and the handler skips; a re-raised exception ends the loop |
| ExtractMissing2.CollectKeepsAll | 1_extract_street_img_urls_missing2.py:133-140 | when no append re-raises, file plus buffer is the old file followed by every task's records in completion order |
| ExtractMissing2.CollectKeepsPrefix | 1_extract_street_img_urls_missing2.py:133-140 | when an append re-raises, file plus buffer is the old file followed by the records of the tasks up to the one being handled |
| ExtractMissing2.CollectAccounts | 1_extract_street_img_urls_missing2.py:133-140 | file plus buffer is always the old file followed by the completed tasks' records in completion order, up to the future being handled when the loop ended: nothing lost or written twice |
| ExtractMissing2.CollectWithoutFailures | 1_extract_street_img_urls_missing2.py:133-140 | when every append succeeds, the buffer ends empty and the file is the old file followed by every task's records |
| ExtractMissing2.CompletionOrderIrrelevant | 1_extract_street_img_urls_missing2.py:127-134 | any completion order of the same tasks yields the same records, each as often |
| ExtractMissing2.FetchMissing | 1_extract_street_img_urls_missing2.py:120-155 | the loop over completed tasks ends with the file and the re-raised exception the collection specifies |
| ExtractMissing2.FetchMissingComplete | 1_extract_street_img_urls_missing2.py:122-140 | with every append succeeding, the old file is kept as a prefix and the rest holds each tile's records exactly once, whatever the completion order |
| ExtractMissing.TileResultAgrees | 1_extract_street_img_urls_missing.py:37-53 | `process_tile` raises exactly when the tile fetch or a lookup raises; otherwise it gives the same records as the catch-all variant |
| ExtractMissing.ProcessTile | 1_extract_street_img_urls_missing.py:37-53 | the worker without a handler returns the tile's records or the first exception |
| ExtractMissing.Retry | 1_extract_street_img_urls_missing.py:56-62 | the per-tile results concatenated in tile order, or the exception of the first failing tile |
| ExtractMissing.RetrySucceeds | 1_extract_street_img_urls_missing.py:56-62 | the retry succeeds exactly when every tile's `process_tile` returns |
| ExtractMissing.RetryConcatenates | 1_extract_street_img_urls_missing.py:56-62 | a successful retry returns the per-tile record lists concatenated in input tile order |
| ExtractMissing.RetryFailsFirst | 1_extract_street_img_urls_missing.py:56-62 | a failed retry carries the exception of the first tile, in input order, whose `process_tile` raises |
| ExtractMissing.RetryOutcome | 1_extract_street_img_urls_missing.py:56-62 | the retry succeeds exactly when every tile does, and returns their records concatenated in tile order with the summed length; otherwise it fails with the first failing tile's exception |
| ExtractMissing.RetryMissingTiles | 1_extract_street_img_urls_missing.py:56-62 | the loop extending `all_new` returns exactly the retry's outcome |
| ExtractMissing.AppendRows | 1_extract_street_img_urls_missing.py:102-105 | exactly one row is appended per record, after the file's old rows |
| ExtractMissing.RetryAndAppend | 1_extract_street_img_urls_missing.py:99-105 | the file is unchanged when the retry raises; otherwise it gains every tile's records in tile order |
| Extract.CsvLinesShape | 1_extract_street_img_urls.py:75-78 | the file is the header `id, captured_at_ms, url` followed by one row per record, in order |
| Extract.ExtractAll | 1_extract_street_img_urls.py:50-80 | the tile and feature loops end with no file when a tile fetch or lookup raises; otherwise the file is the header plus the (id, capture time, url) of each kept record, and the count equals the number of records |
| Extract.ExtractOutcome | 1_extract_street_img_urls.py:54-78 | a file is written exactly when every tile succeeds; it then has one more row than there are records, and row i + 1 holds record i's id, capture time and url, tile by tile and feature by feature |

## Left out

- HTTP, image decoding, the YOLO models, vector-tile decoding and tile enumeration are
  not modelled. The network (`requests`), PIL, ultralytics, `vt_bytes_to_geojson` and
  `mercantile.tiles` become inputs: fetch outcomes, a classifier function, a detector
  function, a tile source, a resolver and the tile list.
- Concurrency is not modelled. The thread pools, `as_completed`, `executor.map`, the
  thread-local sessions and `save_lock` are replaced by a single-threaded loop over a
  given completion order, constrained to each index exactly once.
- Floating point is not modelled: the confidence text `f"{conf:.3f}"`, the rounded box
  coordinates and the backoff delay `1.5 ** attempt`. Confidences and boxes are taken
  as already formatted strings, and only the backoff exponent is kept.
- Files are not modelled: CSV writing and reading, atomic `os.replace`, timestamped
  backups and `makedirs`. A save is a snapshot of the table.
- Reading a saved CSV back is modelled only as `''` becoming NaN in the result columns.
  Other `read_csv` type inference is not modelled.
- The third detection script's emergency save in its outer `except` is not modelled
  (2_detect_tents_v3.py:185-190). It handles crashes outside the modelled loop body.
- The start and end of the date window are parameters. `datetime.timestamp()` depends
  on the machine's time zone. Under UTC they are 1451606400000 and 1717199999000.
- The extraction scripts assume a decoded feature always has two coordinates.
  Malformed GeoJSON is not modelled.
- `NUM_WORKERS` and progress output (tqdm, printing) are not modelled.
- ExtractMissing2.FetchMissing: `process_tile` catches every exception
  (1_extract_street_img_urls_missing2.py:72-74), so `future.result()` never raises.
  The handlers therefore see only exceptions raised by the append, which the model takes
  as an input per completed task. Which exceptions a CSV append can raise is not modelled.
- ExtractMissing2.FetchMissing: an append either succeeds or raises with nothing
  written. A partially written append is not modelled.
- Extract.ExtractAll: the runtime failures of the first extraction script are not
  modelled. `ACCESS_TOKEN` is undefined in the lookup (1_extract_street_img_urls.py:42).
  `csv` is never imported (1_extract_street_img_urls.py:76). The model follows the
  evidently intended behaviour.
- DetectSequential.Run: the detector's class names, confidences and boxes are taken as
  formatted strings. `model.names` and the printing of box lists are not modelled.
- DetectV3.Run: `BATCH_SIZE` and `SAVE_EVERY` are arbitrary integers in the model, as
  they are read from the environment with defaults 32 and 10000 (2_detect_tents_v3.py:26-27). A signal that arrives during an iteration is seen
  at the next check, or as `lateSignal` before the final flush.

## Findings

| source | as written | input that shows it | evidently intended | confidence | as-written member | corrected member |
|---|---|---|---|---|---|---|
| 2_detect_tents_v2.py:31-40 | on resume the checkpoint is read back with `read_csv`, which turns every `''` prediction into NaN, and the selector picks only `''` or `'ERROR'`, so rows saved before they were attempted are never picked again | a checkpoint holding one row with prediction `''` and confidence `''`: the resumed run selects nothing and writes that row to the output unlabelled | a resumed run selects the rows still to do, as the part-1 resume script does by filling NaN with `''` before selecting (and as the third script does by also testing for NaN) | not executed | DetectV2.ResumeSkipsUnattemptedRow | DetectResume.LoadSelects |
