/**
 * The missing-tile retry (the first missing-tile script).
 *
 * Each coordinate becomes a zoom-14 tile. `process_tile` has no handler, so a failed
 * tile fetch or URL lookup raises out of it. `retry_missing_tiles` maps the tiles
 * over a pool and extends one list with the results in tile order, so the first
 * failing tile in that order raises out of the retry. The records are then appended
 * to the output file one row each.
 */
module ExtractMissing {
  import opened Wrappers
  import opened Features
  import ExtractMissing2

  /** `process_tile`: the tile's records, or the first exception raised. */
  function TileResult(t: Tile, source: TileSource, resolve: Resolver, w: Window): Result<seq<Record>, Error>
  {
    match source(t)
    case Failure(e) => Failure(e)
    case Success(fs) =>
      var s := Scan(fs, resolve, w);
      if s.failure.Some? then Failure(s.failure.value) else Success(s.records)
  }

  /** A tile that succeeds here gives exactly the records the catch-all variant of the
      second missing-tile script gives for it. */
  lemma TileResultAgrees(t: Tile, source: TileSource, resolve: Resolver, w: Window)
    ensures TileResult(t, source, resolve, w).Success? ==>
      TileResult(t, source, resolve, w).value == ExtractMissing2.TileRecords(t, source, resolve, w)
    ensures TileResult(t, source, resolve, w).Failure? <==>
      (source(t).Failure? || Scan(source(t).value, resolve, w).failure.Some?)
  {
  }

  method ProcessTile(t: Tile, source: TileSource, resolve: Resolver, w: Window) returns (r: Result<seq<Record>, Error>)
    ensures r == TileResult(t, source, resolve, w)
  {
    var fetched := source(t);
    if fetched.Failure? {
      return Failure(fetched.error);
    }
    var recs, failure := ScanTile(fetched.value, resolve, w);
    if failure.Some? {
      return Failure(failure.value);
    }
    return Success(recs);
  }

  /** `retry_missing_tiles` on a tile list: the concatenation in tile order, or the
      exception of the first failing tile. */
  function Retry(tiles: seq<Tile>, source: TileSource, resolve: Resolver, w: Window): (r: Result<seq<Record>, Error>)
    decreases |tiles|
  {
    if tiles == [] then Success([])
    else
      match TileResult(tiles[0], source, resolve, w)
      case Failure(e) => Failure(e)
      case Success(recs) =>
        match Retry(tiles[1..], source, resolve, w)
        case Failure(e) => Failure(e)
        case Success(more) => Success(recs + more)
  }

  /** The retry succeeds exactly when every tile does. */
  lemma {:induction false} RetrySucceeds(tiles: seq<Tile>, source: TileSource, resolve: Resolver, w: Window)
    ensures Retry(tiles, source, resolve, w).Success? <==>
      forall i :: 0 <= i < |tiles| ==> TileResult(tiles[i], source, resolve, w).Success?
    decreases |tiles|
  {
    if tiles != [] {
      RetrySucceeds(tiles[1..], source, resolve, w);
      assert forall j :: 1 <= j < |tiles| ==> tiles[1..][j - 1] == tiles[j];
    }
  }

  /** A successful retry returns the per-tile lists concatenated in tile order. */
  lemma {:induction false} RetryConcatenates(tiles: seq<Tile>, source: TileSource, resolve: Resolver, w: Window)
    ensures Retry(tiles, source, resolve, w).Success? ==>
      Retry(tiles, source, resolve, w).value == Flatten(ExtractMissing2.InOrder(tiles, source, resolve, w))
    decreases |tiles|
  {
    if tiles != [] {
      RetryConcatenates(tiles[1..], source, resolve, w);
      TileResultAgrees(tiles[0], source, resolve, w);
      var rss := ExtractMissing2.InOrder(tiles, source, resolve, w);
      assert rss[1..] == ExtractMissing2.InOrder(tiles[1..], source, resolve, w);
    }
  }

  /** A failed retry carries the exception of the first failing tile. */
  lemma {:induction false} RetryFailsFirst(tiles: seq<Tile>, source: TileSource, resolve: Resolver, w: Window)
    ensures Retry(tiles, source, resolve, w).Failure? ==>
      exists i :: 0 <= i < |tiles|
        && TileResult(tiles[i], source, resolve, w) == Failure(Retry(tiles, source, resolve, w).error)
        && forall j :: 0 <= j < i ==> TileResult(tiles[j], source, resolve, w).Success?
    decreases |tiles|
  {
    if tiles != [] {
      var r := Retry(tiles, source, resolve, w);
      if TileResult(tiles[0], source, resolve, w).Success? && r.Failure? {
        RetryFailsFirst(tiles[1..], source, resolve, w);
        var i :| 0 <= i < |tiles[1..]|
          && TileResult(tiles[1..][i], source, resolve, w) == Failure(r.error)
          && forall j :: 0 <= j < i ==> TileResult(tiles[1..][j], source, resolve, w).Success?;
        assert forall j :: 1 <= j < i + 1 ==> tiles[j] == tiles[1..][j - 1];
        assert TileResult(tiles[i + 1], source, resolve, w) == Failure(r.error);
      }
    }
  }

  /** The retry succeeds exactly when every tile does, and then returns the per-tile
      lists concatenated in tile order, whose length is the sum of theirs; otherwise
      it fails with the exception of the first failing tile. */
  lemma RetryOutcome(tiles: seq<Tile>, source: TileSource, resolve: Resolver, w: Window)
    ensures Retry(tiles, source, resolve, w).Success? <==>
      forall i :: 0 <= i < |tiles| ==> TileResult(tiles[i], source, resolve, w).Success?
    ensures Retry(tiles, source, resolve, w).Success? ==>
      && Retry(tiles, source, resolve, w).value == Flatten(ExtractMissing2.InOrder(tiles, source, resolve, w))
      && |Retry(tiles, source, resolve, w).value| == TotalLength(ExtractMissing2.InOrder(tiles, source, resolve, w))
    ensures Retry(tiles, source, resolve, w).Failure? ==>
      exists i :: 0 <= i < |tiles|
        && TileResult(tiles[i], source, resolve, w) == Failure(Retry(tiles, source, resolve, w).error)
        && forall j :: 0 <= j < i ==> TileResult(tiles[j], source, resolve, w).Success?
  {
    RetrySucceeds(tiles, source, resolve, w);
    RetryConcatenates(tiles, source, resolve, w);
    RetryFailsFirst(tiles, source, resolve, w);
    FlattenLength(ExtractMissing2.InOrder(tiles, source, resolve, w));
  }

  /** The records `prefix` gathered before a retry that went on as `r`. */
  function After(prefix: seq<Record>, r: Result<seq<Record>, Error>): Result<seq<Record>, Error>
  {
    if r.Failure? then r else Success(prefix + r.value)
  }

  /** The retry on a non-empty list, one tile at a time. */
  lemma RetryStep(tiles: seq<Tile>, source: TileSource, resolve: Resolver, w: Window)
    requires tiles != []
    ensures TileResult(tiles[0], source, resolve, w).Failure? ==>
      Retry(tiles, source, resolve, w) == TileResult(tiles[0], source, resolve, w)
    ensures TileResult(tiles[0], source, resolve, w).Success? ==>
      Retry(tiles, source, resolve, w)
        == After(TileResult(tiles[0], source, resolve, w).value, Retry(tiles[1..], source, resolve, w))
  {
  }

  /** Nothing gathered before leaves the outcome as it is. */
  lemma AfterNothing(r: Result<seq<Record>, Error>)
    ensures After([], r) == r
  {
    if r.Success? {
      assert [] + r.value == r.value;
    }
  }

  /** Records gathered in two steps are their concatenation. */
  lemma AfterAfter(a: seq<Record>, b: seq<Record>, r: Result<seq<Record>, Error>)
    ensures After(a, After(b, r)) == After(a + b, r)
  {
    if r.Success? {
      assert (a + b) + r.value == a + (b + r.value);
    }
  }

  /** `retry_missing_tiles`: one tile per coordinate, results extended in tile order;
      the first failing tile's exception propagates. */
  method RetryMissingTiles(coords: seq<(int, int)>, source: TileSource, resolve: Resolver, w: Window)
    returns (r: Result<seq<Record>, Error>)
    ensures r == Retry(TilesOf(coords), source, resolve, w)
  {
    var tiles := TilesOf(coords);
    var allNew: seq<Record> := [];
    var k := 0;
    assert tiles[0..] == tiles;
    AfterNothing(Retry(tiles, source, resolve, w));
    while k < |tiles|
      invariant 0 <= k <= |tiles|
      invariant Retry(tiles, source, resolve, w) == After(allNew, Retry(tiles[k..], source, resolve, w))
    {
      assert tiles[k..][0] == tiles[k] && tiles[k..][1..] == tiles[k + 1..];
      RetryStep(tiles[k..], source, resolve, w);
      var recs := ProcessTile(tiles[k], source, resolve, w);
      if recs.Failure? {
        return Failure(recs.error);
      }
      AfterAfter(allNew, recs.value, Retry(tiles[k + 1..], source, resolve, w));
      allNew := allNew + recs.value;
      k := k + 1;
    }
    assert tiles[k..] == [] && allNew + [] == allNew;
    return Success(allNew);
  }

  /** Writing the records with one `writerow` each, after the file's old rows. */
  method AppendRows(file: seq<Record>, records: seq<Record>) returns (out: seq<Record>)
    ensures out == file + records
    ensures |out| == |file| + |records|
  {
    out := file;
    for i := 0 to |records|
      invariant out == file + records[..i]
    {
      assert records[..i + 1] == records[..i] + [records[i]];
      out := out + [records[i]];
    }
    assert records[..|records|] == records;
  }

  /** The script: retry the missing tiles, then append; an exception in the retry
      propagates before the file is opened, so the file is unchanged. */
  method RetryAndAppend(coords: seq<(int, int)>, source: TileSource, resolve: Resolver, w: Window, file: seq<Record>)
    returns (out: seq<Record>, raised: Option<Error>)
    ensures raised.Some? <==> Retry(TilesOf(coords), source, resolve, w).Failure?
    ensures raised.Some? ==> out == file
    ensures raised.None? ==>
      out == file + Flatten(ExtractMissing2.InOrder(TilesOf(coords), source, resolve, w))
  {
    var r := RetryMissingTiles(coords, source, resolve, w);
    RetryOutcome(TilesOf(coords), source, resolve, w);
    if r.Failure? {
      return file, Some(r.error);
    }
    out := AppendRows(file, r.value);
    raised := None;
  }
}
