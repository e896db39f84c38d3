/**
 * The original whole-city extraction (the first extraction script).
 *
 * It visits the zoom-14 tiles covering the bounding box one by one and scans each
 * tile's features with the shared filter, keeping `(id, captured_at, url)` per record.
 * There are no handlers, so the first failing tile fetch or URL lookup ends the run
 * before the file is opened. Otherwise the file gets a header row and then one row
 * per record, and the reported count is the number of records.
 */
module Extract {
  import opened Wrappers
  import opened Features
  import ExtractMissing
  import ExtractMissing2

  /** `(img_id, cap_at, img_url)`: the coordinates are dropped. */
  datatype Record3 = Record3(id: IdValue, capturedAt: int, url: string)

  /** A CSV row: the header or one record. */
  datatype Line = Header(names: seq<string>) | Data(record: Record3)

  const HeaderNames: seq<string> := ["id", "captured_at_ms", "url"]

  function Short(r: Record): Record3
  {
    Record3(r.id, r.capturedAt, r.url)
  }

  /** The three-field records for a list of five-field ones, in the same order. */
  function Shorten(rs: seq<Record>): (out: seq<Record3>)
    ensures |out| == |rs|
    ensures forall i :: 0 <= i < |rs| ==> out[i] == Record3(rs[i].id, rs[i].capturedAt, rs[i].url)
  {
    seq(|rs|, i requires 0 <= i < |rs| => Short(rs[i]))
  }

  lemma ShortenAppend(a: seq<Record>, b: seq<Record>)
    ensures Shorten(a + b) == Shorten(a) + Shorten(b)
  {
    assert forall i :: 0 <= i < |a + b| ==> Shorten(a + b)[i] == (Shorten(a) + Shorten(b))[i];
  }

  /** The file the script writes: the header, then one row per record in order. */
  function CsvLines(records: seq<Record3>): (lines: seq<Line>)
  {
    [Header(HeaderNames)] + seq(|records|, i requires 0 <= i < |records| => Data(records[i]))
  }

  /** The header comes first and every record follows once, in order, so the file has
      one more row than the reported count. */
  lemma CsvLinesShape(records: seq<Record3>)
    ensures |CsvLines(records)| == |records| + 1
    ensures CsvLines(records)[0] == Header(["id", "captured_at_ms", "url"])
    ensures forall i :: 0 <= i < |records| ==> CsvLines(records)[i + 1] == Data(records[i])
    ensures forall i :: 1 <= i < |CsvLines(records)| ==> CsvLines(records)[i].Data?
  {
  }

  /** `main`: the tile loop with the filter loop inside it, then the file and the
      count. An exception leaves no file. */
  method ExtractAll(tiles: seq<Tile>, source: TileSource, resolve: Resolver, w: Window)
    returns (out: Result<seq<Line>, Error>, count: nat)
    ensures var r := ExtractMissing.Retry(tiles, source, resolve, w);
      && (r.Failure? ==> out == Failure(r.error))
      && (r.Success? ==> out == Success(CsvLines(Shorten(r.value))) && count == |r.value|)
  {
    var records: seq<Record3> := [];
    ghost var full: seq<Record> := [];
    var k := 0;
    assert tiles[0..] == tiles;
    ExtractMissing.AfterNothing(ExtractMissing.Retry(tiles, source, resolve, w));
    while k < |tiles|
      invariant 0 <= k <= |tiles|
      invariant records == Shorten(full)
      invariant ExtractMissing.Retry(tiles, source, resolve, w)
        == ExtractMissing.After(full, ExtractMissing.Retry(tiles[k..], source, resolve, w))
    {
      assert tiles[k..][0] == tiles[k] && tiles[k..][1..] == tiles[k + 1..];
      ExtractMissing.RetryStep(tiles[k..], source, resolve, w);
      var geojson := source(tiles[k]);
      if geojson.Failure? {
        return Failure(geojson.error), 0;
      }
      var recs, failure := ScanTile(geojson.value, resolve, w);
      if failure.Some? {
        return Failure(failure.value), 0;
      }
      ExtractMissing.AfterAfter(full, recs, ExtractMissing.Retry(tiles[k + 1..], source, resolve, w));
      ShortenAppend(full, recs);
      full := full + recs;
      records := records + Shorten(recs);
      k := k + 1;
    }
    assert tiles[k..] == [] && full + [] == full;
    return Success(CsvLines(records)), |records|;
  }

  /** The run writes a file exactly when every tile fetch and every lookup succeeds;
      the file then holds the header and, in tile order and feature order within a
      tile, the id, capture time and URL of each record the missing-tile scripts
      would keep for the same tiles. */
  lemma ExtractOutcome(tiles: seq<Tile>, source: TileSource, resolve: Resolver, w: Window)
    ensures var r := ExtractMissing.Retry(tiles, source, resolve, w);
      && (r.Success? <==> forall i :: 0 <= i < |tiles| ==> ExtractMissing.TileResult(tiles[i], source, resolve, w).Success?)
      && (r.Success? ==>
            var all := Flatten(ExtractMissing2.InOrder(tiles, source, resolve, w));
            && |CsvLines(Shorten(r.value))| == |all| + 1
            && CsvLines(Shorten(r.value))[0] == Header(["id", "captured_at_ms", "url"])
            && forall i :: 0 <= i < |all| ==>
                 CsvLines(Shorten(r.value))[i + 1] == Data(Record3(all[i].id, all[i].capturedAt, all[i].url)))
  {
    ExtractMissing.RetryOutcome(tiles, source, resolve, w);
    var r := ExtractMissing.Retry(tiles, source, resolve, w);
    if r.Success? {
      CsvLinesShape(Shorten(r.value));
    }
  }
}
