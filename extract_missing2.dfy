/**
 * The concurrent missing-tile fetcher that appends as it goes (the second
 * missing-tile script).
 *
 * Each coordinate becomes a zoom-14 tile and one `process_tile` task. That task never
 * raises: it returns whatever records it made before an exception. As tasks complete,
 * their records join a buffer, and a non-empty buffer is appended to the output file
 * and then cleared. Since `process_tile` catches every exception, `future.result()`
 * never raises, and the handlers around the loop body see only exceptions from that
 * append. The handlers skip a network error or anything else, and re-raise an HTTP
 * error: the 5xx test reads the status through the response's truthiness, which is
 * false for every 4xx and 5xx response, so it never holds. A response with any other
 * status is truthy, and its status fails the 5xx test.
 */
module ExtractMissing2 {
  import opened Wrappers
  import opened Features

  /** `min(32, (os.cpu_count() or 1) * 5)`; the count is None when unknown. */
  function MaxWorkers(cpu: Option<nat>): (n: int)
    ensures 5 <= n <= 32
    ensures cpu.Some? && cpu.value >= 7 ==> n == 32
    ensures (cpu.None? || cpu.value <= 6) ==> n % 5 == 0
  {
    var count := if cpu.None? || cpu.value == 0 then 1 else cpu.value;
    if 32 < count * 5 then 32 else count * 5
  }

  /** The records `process_tile` returns for a tile: none when the tile fetch raises,
      else those made before the first resolver exception. */
  function TileRecords(t: Tile, source: TileSource, resolve: Resolver, w: Window): seq<Record>
  {
    match source(t)
    case Failure(_) => []
    case Success(fs) => Scan(fs, resolve, w).records
  }

  /** `process_tile` never raises, and what it returns is a prefix of the records the
      tile would give if every failing resolver call had returned no URL, the whole of
      them when no call failed. */
  lemma TileRecordsPartial(t: Tile, source: TileSource, resolve: Resolver, w: Window)
    ensures source(t).Success? ==>
      TileRecords(t, source, resolve, w) <= Scan(source(t).value, Recovered(resolve), w).records
    ensures source(t).Success? && Scan(source(t).value, resolve, w).failure.None? ==>
      TileRecords(t, source, resolve, w) == Scan(source(t).value, Recovered(resolve), w).records
    ensures source(t).Failure? ==> TileRecords(t, source, resolve, w) == []
  {
    if source(t).Success? {
      ScanPrefix(source(t).value, resolve, w);
    }
  }

  /** `process_tile` with its catch-all handler. */
  method ProcessTile(t: Tile, source: TileSource, resolve: Resolver, w: Window) returns (recs: seq<Record>)
    ensures recs == TileRecords(t, source, resolve, w)
  {
    var fetched := source(t);
    if fetched.Failure? {
      return [];
    }
    var failure;
    recs, failure := ScanTile(fetched.value, resolve, w);
  }

  /** What the handlers do with an exception raised inside the loop body. */
  datatype Action = Skip | Reraise

  /** `e.response.status_code if e.response else None`: a requests response is truthy
      exactly when `raise_for_status` would not raise, that is, unless its status is a
      4xx or a 5xx. */
  function StatusSeen(response: Option<int>): (code: Option<int>)
    ensures code.Some? <==> response.Some? && !(400 <= response.value < 600)
    ensures code.Some? ==> code == response
  {
    if response.Some? && !(400 <= response.value < 600) then response else None
  }

  /** `except HTTPError` skips only a 5xx code, which the truthiness test never lets
      through, so every HTTP error is re-raised; the network and catch-all handlers
      skip. */
  function Handling(e: Error): (a: Action)
    ensures a == Skip <==> !e.HttpError?
  {
    match e
    case HttpError(response) =>
      var code := StatusSeen(response);
      if code.Some? && 500 <= code.value < 600 then Skip else Reraise
    case RequestError => Skip
    case OtherError => Skip
  }

  /** The file, the buffer, and the exception that ended the loop, if any. */
  datatype Collected = Collected(file: seq<Record>, buffer: seq<Record>, raised: Option<Error>)

  /** The loop over the completed tasks: `results[k]` is the k-th completed task's
      records and `writes[k]` the exception the append to the file would raise then.
      A failed append leaves the file as it was and the buffer uncleared. */
  function Collect(results: seq<seq<Record>>, writes: seq<Option<Error>>, file: seq<Record>, buffer: seq<Record>): (r: Collected)
    requires |writes| == |results|
    decreases |results|
  {
    if results == [] then Collected(file, buffer, None)
    else
      var buf := buffer + results[0];
      if buf == [] then Collect(results[1..], writes[1..], file, [])
      else
        match writes[0]
        case None => Collect(results[1..], writes[1..], file + buf, [])
        case Some(e) =>
          if Handling(e) == Skip then Collect(results[1..], writes[1..], file, buf)
          else Collected(file, buf, Some(e))
  }

  /** When no append re-raises, the file plus the buffer is the previous content
      followed by every task's records, in completion order. */
  lemma {:induction false} CollectKeepsAll(results: seq<seq<Record>>, writes: seq<Option<Error>>,
                                           file: seq<Record>, buffer: seq<Record>)
    requires |writes| == |results|
    ensures var r := Collect(results, writes, file, buffer);
      r.raised.None? ==> r.file + r.buffer == file + buffer + Flatten(results)
    decreases |results|
  {
    if results != [] {
      var buf := buffer + results[0];
      if !(buf != [] && writes[0].Some? && Handling(writes[0].value) == Reraise) {
        var f2 := if buf != [] && writes[0].None? then file + buf else file;
        var b2 := if buf != [] && writes[0].Some? then buf else [];
        assert f2 + b2 == file + buf;
        assert Collect(results, writes, file, buffer) == Collect(results[1..], writes[1..], f2, b2);
        CollectKeepsAll(results[1..], writes[1..], f2, b2);
        assert Flatten(results) == results[0] + Flatten(results[1..]);
      }
    }
  }

  /** When an append re-raises, the file plus the buffer is the previous content
      followed by the records of the tasks up to the one being handled. */
  lemma {:induction false} CollectKeepsPrefix(results: seq<seq<Record>>, writes: seq<Option<Error>>,
                                              file: seq<Record>, buffer: seq<Record>)
    requires |writes| == |results|
    ensures var r := Collect(results, writes, file, buffer);
      r.raised.Some? ==> exists m :: 0 < m <= |results| && r.file + r.buffer == file + buffer + Flatten(results[..m])
    decreases |results|
  {
    if results != [] {
      var r := Collect(results, writes, file, buffer);
      var buf := buffer + results[0];
      if buf != [] && writes[0].Some? && Handling(writes[0].value) == Reraise {
        assert results[..1] == [results[0]];
        assert Flatten(results[..1]) == results[0] + Flatten([]);
      } else {
        var f2 := if buf != [] && writes[0].None? then file + buf else file;
        var b2 := if buf != [] && writes[0].Some? then buf else [];
        var rest := results[1..];
        assert f2 + b2 == file + buf;
        assert r == Collect(rest, writes[1..], f2, b2);
        CollectKeepsPrefix(rest, writes[1..], f2, b2);
        if r.raised.Some? {
          var m :| 0 < m <= |rest| && r.file + r.buffer == f2 + b2 + Flatten(rest[..m]);
          assert results[..m + 1] == [results[0]] + rest[..m];
          calc {
            r.file + r.buffer;
            f2 + b2 + Flatten(rest[..m]);
            file + (buffer + results[0]) + Flatten(rest[..m]);
            file + buffer + (results[0] + Flatten(rest[..m]));
            file + buffer + Flatten(results[..m + 1]);
          }
        }
      }
    }
  }

  /** Nothing is lost and nothing is written twice: what is in the file plus what is
      still buffered is always the previous content followed by every completed
      task's records, in completion order, up to the future being handled when the loop
      ended. */
  lemma CollectAccounts(results: seq<seq<Record>>, writes: seq<Option<Error>>,
                        file: seq<Record>, buffer: seq<Record>)
    requires |writes| == |results|
    ensures var r := Collect(results, writes, file, buffer);
      r.raised.None? ==> r.file + r.buffer == file + buffer + Flatten(results)
    ensures var r := Collect(results, writes, file, buffer);
      r.raised.Some? ==> exists m :: 0 < m <= |results| && r.file + r.buffer == file + buffer + Flatten(results[..m])
  {
    CollectKeepsAll(results, writes, file, buffer);
    CollectKeepsPrefix(results, writes, file, buffer);
  }

  /** Every append succeeds: the buffer is empty after every task and the file ends as
      its previous content followed by every task's records in completion order. */
  lemma {:induction false} CollectWithoutFailures(results: seq<seq<Record>>, writes: seq<Option<Error>>,
                                                  file: seq<Record>)
    requires |writes| == |results|
    requires forall k :: 0 <= k < |writes| ==> writes[k].None?
    ensures Collect(results, writes, file, []) == Collected(file + Flatten(results), [], None)
    decreases |results|
  {
    if results != [] {
      assert Flatten(results) == results[0] + Flatten(results[1..]);
      if results[0] == [] {
        CollectWithoutFailures(results[1..], writes[1..], file);
      } else {
        assert [] + results[0] == results[0];
        CollectWithoutFailures(results[1..], writes[1..], file + results[0]);
        assert (file + results[0]) + Flatten(results[1..]) == file + Flatten(results);
      }
    }
  }

  /** The records of the tasks in the order they completed. */
  function InOrder(done: seq<Tile>, source: TileSource, resolve: Resolver, w: Window): (rss: seq<seq<Record>>)
    ensures |rss| == |done|
    ensures forall k :: 0 <= k < |done| ==> rss[k] == TileRecords(done[k], source, resolve, w)
  {
    seq(|done|, k requires 0 <= k < |done| => TileRecords(done[k], source, resolve, w))
  }

  lemma InOrderAppend(a: seq<Tile>, b: seq<Tile>, source: TileSource, resolve: Resolver, w: Window)
    ensures InOrder(a + b, source, resolve, w) == InOrder(a, source, resolve, w) + InOrder(b, source, resolve, w)
  {
  }

  /** Taking one list out of a concatenation takes out its records. */
  lemma FlattenRemove(a: seq<seq<Record>>, x: seq<Record>, b: seq<seq<Record>>)
    ensures multiset(Flatten(a + [x] + b)) == multiset(x) + multiset(Flatten(a + b))
  {
    FlattenAppend(a + [x], b);
    FlattenAppend(a, [x]);
    FlattenAppend(a, b);
    assert Flatten([x]) == x + Flatten([]);
  }

  /** The records of the tile at position p, and those of the others. */
  lemma PickOut(tiles: seq<Tile>, p: nat, source: TileSource, resolve: Resolver, w: Window)
    requires p < |tiles|
    ensures multiset(Flatten(InOrder(tiles, source, resolve, w)))
      == multiset(TileRecords(tiles[p], source, resolve, w))
         + multiset(Flatten(InOrder(tiles[..p] + tiles[p + 1..], source, resolve, w)))
  {
    var t := tiles[p];
    assert tiles == tiles[..p] + [t] + tiles[p + 1..];
    InOrderAppend(tiles[..p] + [t], tiles[p + 1..], source, resolve, w);
    InOrderAppend(tiles[..p], [t], source, resolve, w);
    InOrderAppend(tiles[..p], tiles[p + 1..], source, resolve, w);
    assert InOrder([t], source, resolve, w) == [TileRecords(t, source, resolve, w)];
    assert InOrder(tiles, source, resolve, w)
      == InOrder(tiles[..p], source, resolve, w) + [TileRecords(t, source, resolve, w)]
         + InOrder(tiles[p + 1..], source, resolve, w);
    FlattenRemove(InOrder(tiles[..p], source, resolve, w), TileRecords(t, source, resolve, w),
                  InOrder(tiles[p + 1..], source, resolve, w));
  }

  /** The records of the first task, and those of the rest. */
  lemma InOrderHead(done: seq<Tile>, source: TileSource, resolve: Resolver, w: Window)
    requires done != []
    ensures multiset(Flatten(InOrder(done, source, resolve, w)))
      == multiset(TileRecords(done[0], source, resolve, w))
         + multiset(Flatten(InOrder(done[1..], source, resolve, w)))
  {
    assert InOrder(done, source, resolve, w)[1..] == InOrder(done[1..], source, resolve, w);
  }

  /** The completion order does not change which records are written: any order of the
      same tasks writes the same records, each as often as in tile order. */
  lemma {:induction false} CompletionOrderIrrelevant(done: seq<Tile>, tiles: seq<Tile>,
                                                     source: TileSource, resolve: Resolver, w: Window)
    requires multiset(done) == multiset(tiles)
    ensures multiset(Flatten(InOrder(done, source, resolve, w))) == multiset(Flatten(InOrder(tiles, source, resolve, w)))
    decreases |done|
  {
    if done == [] {
      assert |tiles| == |multiset(tiles)| == 0;
    } else {
      var t := done[0];
      assert t in multiset(tiles);
      var p :| 0 <= p < |tiles| && tiles[p] == t;
      var others := tiles[..p] + tiles[p + 1..];
      assert tiles == tiles[..p] + [t] + tiles[p + 1..];
      assert multiset(others) == multiset(tiles) - multiset{t};
      var rest := done[1..];
      assert multiset(done) == multiset{t} + multiset(rest) by {
        assert done == [t] + rest;
      }
      CompletionOrderIrrelevant(rest, others, source, resolve, w);
      PickOut(tiles, p, source, resolve, w);
      InOrderHead(done, source, resolve, w);
    }
  }

  /** `main`: submit one task per tile, then handle the tasks as they complete.
      `done` is the completion order; `writes[k]` is the exception the k-th append
      would raise. */
  method FetchMissing(coords: seq<(int, int)>, done: seq<Tile>, source: TileSource, resolve: Resolver,
                      w: Window, writes: seq<Option<Error>>, file0: seq<Record>)
    returns (file: seq<Record>, raised: Option<Error>)
    requires multiset(done) == multiset(TilesOf(coords))
    requires |writes| == |done|
    ensures var r := Collect(InOrder(done, source, resolve, w), writes, file0, []);
      file == r.file && raised == r.raised
  {
    var results := InOrder(done, source, resolve, w);
    file := file0;
    var records: seq<Record> := [];
    var k := 0;
    while k < |done|
      invariant 0 <= k <= |done|
      invariant Collect(results, writes, file0, []) == Collect(results[k..], writes[k..], file, records)
    {
      assert results[k..][1..] == results[k + 1..] && writes[k..][1..] == writes[k + 1..];
      var recs := ProcessTile(done[k], source, resolve, w);
      records := records + recs;
      if records != [] {
        if writes[k].Some? {
          if Handling(writes[k].value) == Reraise {
            return file, writes[k];
          }
          k := k + 1;
          continue;
        }
        file := file + records;
        records := [];
      } else {
        records := [];
      }
      k := k + 1;
    }
    assert results[k..] == [] && writes[k..] == [];
    return file, None;
  }

  /** With every append succeeding, the file ends with each tile's records exactly
      once, whatever order the tasks completed in. */
  lemma FetchMissingComplete(coords: seq<(int, int)>, done: seq<Tile>, source: TileSource, resolve: Resolver,
                             w: Window, writes: seq<Option<Error>>, file0: seq<Record>)
    requires multiset(done) == multiset(TilesOf(coords))
    requires |writes| == |done|
    requires forall k :: 0 <= k < |writes| ==> writes[k].None?
    ensures var r := Collect(InOrder(done, source, resolve, w), writes, file0, []);
      && r.raised.None? && r.buffer == []
      && |r.file| >= |file0| && r.file[..|file0|] == file0
      && multiset(r.file[|file0|..]) == multiset(Flatten(InOrder(TilesOf(coords), source, resolve, w)))
  {
    var results := InOrder(done, source, resolve, w);
    CollectWithoutFailures(results, writes, file0);
    CompletionOrderIrrelevant(done, TilesOf(coords), source, resolve, w);
    var f := file0 + Flatten(results);
    assert f[..|file0|] == file0 && f[|file0|..] == Flatten(results);
  }
}
