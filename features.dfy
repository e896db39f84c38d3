/**
 * The geotagged-feature filter the three extraction scripts share.
 *
 * A vector-tile feature is kept when its point lies in the closed Washington D.C.
 * bounding box, its `captured_at` (0 when absent) lies in the closed date range, and
 * its id is truthy. Only kept features go to the thumbnail resolver; a record is
 * made when the resolver returns a truthy URL. The per-tile scan stops at the first
 * resolver exception.
 */
module Features {
  import opened Wrappers

  /** The bounding box (west, south, east, north) in degrees. */
  const West: real := -77.1198
  const South: real := 38.7916
  const East: real := -76.9094
  const North: real := 38.9955

  /** The closed `captured_at` window, in milliseconds. */
  datatype Window = Window(startMs: int, endMs: int)

  /** A feature id as the tile's properties hold it. */
  datatype IdValue = Num(n: int) | Str(s: string)

  /** One decoded point feature: coordinates and the two properties used. */
  datatype Feature = Feature(lon: real, lat: real, capturedAt: Option<int>, id: Option<IdValue>)

  /** `(img_id, cap_at, lon, lat, img_url)`. */
  datatype Record = Record(id: IdValue, capturedAt: int, lon: real, lat: real, url: string)

  /** What a request can raise: an HTTP error with the status of the response it
      carries (None when it carries none), a network error, or anything else. */
  datatype Error = HttpError(response: Option<int>) | RequestError | OtherError

  /** `fetch_image_url`: the `thumb_2048_url` field (None when absent), or the
      exception it raised. */
  type Resolver = IdValue -> Result<Option<string>, Error>

  /** A zoom-14 web-mercator tile. */
  datatype Tile = Tile(x: int, y: int, z: int)

  const Zoom: int := 14

  /** `[mercantile.Tile(x, y, 14) for x, y in coords]`. */
  function TilesOf(coords: seq<(int, int)>): (tiles: seq<Tile>)
    ensures |tiles| == |coords|
    ensures forall i :: 0 <= i < |coords| ==> tiles[i] == Tile(coords[i].0, coords[i].1, Zoom)
  {
    seq(|coords|, i requires 0 <= i < |coords| => Tile(coords[i].0, coords[i].1, Zoom))
  }

  /** `fetch_tile_geojson`: the tile's decoded image-layer features, or the exception
      it raised. */
  type TileSource = Tile -> Result<seq<Feature>, Error>

  /** Python truthiness of the id: absent, 0 and '' are false. */
  predicate TruthyId(id: Option<IdValue>)
  {
    match id
    case None => false
    case Some(Num(n)) => n != 0
    case Some(Str(s)) => s != ""
  }

  /** Python truthiness of the resolved URL. */
  predicate TruthyUrl(url: Option<string>)
  {
    url.Some? && url.value != ""
  }

  /** `props.get("captured_at", 0)`. */
  function CapturedAt(f: Feature): int
  {
    if f.capturedAt.Some? then f.capturedAt.value else 0
  }

  predicate InBox(lon: real, lat: real)
  {
    West <= lon <= East && South <= lat <= North
  }

  /** The three tests a feature must pass before its URL is resolved. */
  predicate Passes(f: Feature, w: Window)
  {
    InBox(f.lon, f.lat) && w.startMs <= CapturedAt(f) <= w.endMs && TruthyId(f.id)
  }

  /** The record made from a passing feature and its URL. */
  function RecordOf(f: Feature, url: string): (r: Record)
    requires f.id.Some?
    ensures r.id == f.id.value && r.url == url && r.lon == f.lon && r.lat == f.lat
  {
    Record(f.id.value, CapturedAt(f), f.lon, f.lat, url)
  }

  /** What one feature contributes to a scan that reaches the end: its record when
      it passes and its id resolves to a truthy URL, nothing otherwise. */
  function KeptOne(f: Feature, resolve: Resolver, w: Window): (out: seq<Record>)
    ensures |out| <= 1
  {
    if Passes(f, w) && resolve(f.id.value).Success? && TruthyUrl(resolve(f.id.value).value)
    then [RecordOf(f, resolve(f.id.value).value.value)]
    else []
  }

  /** The features' contributions in feature order: at most one record each. */
  function Kept(fs: seq<Feature>, resolve: Resolver, w: Window): (out: seq<Record>)
    ensures |out| <= |fs|
    decreases |fs|
  {
    if fs == [] then [] else KeptOne(fs[0], resolve, w) + Kept(fs[1..], resolve, w)
  }

  /** The ids of the passing features, in feature order. */
  function PassingIds(fs: seq<Feature>, w: Window): (ids: seq<IdValue>)
    ensures |ids| <= |fs|
    decreases |fs|
  {
    if fs == [] then []
    else
      var rest := PassingIds(fs[1..], w);
      (if Passes(fs[0], w) then [fs[0].id.value] else []) + rest
  }

  /** The result of scanning one tile's features: the records made, the ids handed to
      the resolver in order, and the exception that stopped the scan, if any. */
  datatype Scanned = Scanned(records: seq<Record>, calls: seq<IdValue>, failure: Option<Error>)

  /** The records `rs` and calls `cs` made before a scan that went on as `s`. */
  function Prepend(rs: seq<Record>, cs: seq<IdValue>, s: Scanned): Scanned
  {
    Scanned(rs + s.records, cs + s.calls, s.failure)
  }

  /** The feature loop of `process_tile`. */
  function Scan(fs: seq<Feature>, resolve: Resolver, w: Window): (r: Scanned)
    ensures |r.records| <= |r.calls|
    ensures r.failure.None? ==> r.calls == PassingIds(fs, w)
    decreases |fs|
  {
    if fs == [] then Scanned([], [], None)
    else
      var f := fs[0];
      var rest := Scan(fs[1..], resolve, w);
      if !Passes(f, w) then rest
      else
        match resolve(f.id.value)
        case Failure(e) => Scanned([], [f.id.value], Some(e))
        case Success(url) =>
          Prepend(if TruthyUrl(url) then [RecordOf(f, url.value)] else [], [f.id.value], rest)
  }

  /** A scan stopped by an exception resolved a prefix of the passing ids, and the
      last of them raised that exception. */
  lemma {:induction false} ScanStops(fs: seq<Feature>, resolve: Resolver, w: Window)
    ensures var r := Scan(fs, resolve, w);
      r.failure.Some? ==>
        && r.calls != [] && r.calls <= PassingIds(fs, w)
        && resolve(r.calls[|r.calls| - 1]) == Failure(r.failure.value)
    decreases |fs|
  {
    if fs != [] {
      ScanStops(fs[1..], resolve, w);
      var r := Scan(fs, resolve, w);
      var rest := Scan(fs[1..], resolve, w);
      if Passes(fs[0], w) && resolve(fs[0].id.value).Success? && rest.failure.Some? {
        assert r.calls == [fs[0].id.value] + rest.calls;
        assert r.calls[|r.calls| - 1] == rest.calls[|rest.calls| - 1];
      }
    }
  }

  /** Every id in the passing list belongs to a feature that passes. */
  lemma {:induction false} PassingIdsSound(fs: seq<Feature>, w: Window)
    ensures forall id :: id in PassingIds(fs, w) ==> exists f :: f in fs && Passes(f, w) && f.id == Some(id)
    decreases |fs|
  {
    if fs != [] {
      PassingIdsSound(fs[1..], w);
      assert forall f :: f in fs[1..] ==> f in fs;
    }
  }

  /** Every record comes from a passing feature whose id resolved to that truthy URL. */
  lemma {:induction false} ScanSound(fs: seq<Feature>, resolve: Resolver, w: Window)
    ensures forall x :: x in Scan(fs, resolve, w).records ==>
      exists f :: f in fs && Passes(f, w) && resolve(f.id.value) == Success(Some(x.url))
        && x.url != "" && x == RecordOf(f, x.url)
    decreases |fs|
  {
    if fs != [] {
      ScanSound(fs[1..], resolve, w);
      assert forall g :: g in fs[1..] ==> g in fs;
    }
  }

  /** A scan that reached the end resolved every passing feature without an
      exception, and its records are exactly one per passing feature whose id
      resolved to a truthy URL, in feature order. */
  lemma {:induction false} ScanComplete(fs: seq<Feature>, resolve: Resolver, w: Window)
    ensures Scan(fs, resolve, w).failure.None? ==>
      forall f :: f in fs && Passes(f, w) ==>
        && resolve(f.id.value).Success?
        && (TruthyUrl(resolve(f.id.value).value) ==>
              RecordOf(f, resolve(f.id.value).value.value) in Scan(fs, resolve, w).records)
    ensures Scan(fs, resolve, w).failure.None? ==> Scan(fs, resolve, w).records == Kept(fs, resolve, w)
    decreases |fs|
  {
    if fs != [] {
      ScanComplete(fs[1..], resolve, w);
      assert forall g :: g in fs ==> g == fs[0] || g in fs[1..];
    }
  }

  /** The resolver with every exception replaced by "no URL". */
  function Recovered(resolve: Resolver): Resolver
  {
    id => if resolve(id).Failure? then Success(None) else resolve(id)
  }

  /** A scan cut short by an exception keeps exactly the records made before it: a
      prefix of what the scan would make if every failing call had returned no URL
      instead. */
  lemma {:induction false} ScanPrefix(fs: seq<Feature>, resolve: Resolver, w: Window)
    ensures Scan(fs, resolve, w).records <= Scan(fs, Recovered(resolve), w).records
    ensures Scan(fs, resolve, w).failure.None? ==>
      Scan(fs, resolve, w).records == Scan(fs, Recovered(resolve), w).records
    decreases |fs|
  {
    if fs != [] {
      ScanPrefix(fs[1..], resolve, w);
    }
  }

  /** The concatenation of per-tile record lists. */
  function Flatten(rss: seq<seq<Record>>): (out: seq<Record>)
    decreases |rss|
  {
    if rss == [] then [] else rss[0] + Flatten(rss[1..])
  }

  lemma {:induction false} FlattenAppend(a: seq<seq<Record>>, b: seq<seq<Record>>)
    ensures Flatten(a + b) == Flatten(a) + Flatten(b)
    decreases |a|
  {
    if a == [] {
      assert a + b == b;
    } else {
      assert (a + b)[1..] == a[1..] + b;
      FlattenAppend(a[1..], b);
    }
  }

  /** The number of records in a concatenation is the sum of the per-tile counts. */
  function TotalLength(rss: seq<seq<Record>>): nat
    decreases |rss|
  {
    if rss == [] then 0 else |rss[0]| + TotalLength(rss[1..])
  }

  lemma {:induction false} FlattenLength(rss: seq<seq<Record>>)
    ensures |Flatten(rss)| == TotalLength(rss)
    decreases |rss|
  {
    if rss != [] {
      FlattenLength(rss[1..]);
    }
  }

  /** `process_tile`'s loop, appending to `recs` in place of the spec's recursion. */
  method ScanTile(fs: seq<Feature>, resolve: Resolver, w: Window) returns (recs: seq<Record>, failure: Option<Error>)
    ensures recs == Scan(fs, resolve, w).records && failure == Scan(fs, resolve, w).failure
  {
    recs := [];
    ghost var calls: seq<IdValue> := [];
    var k := 0;
    while k < |fs|
      invariant 0 <= k <= |fs|
      invariant Scan(fs, resolve, w) == Prepend(recs, calls, Scan(fs[k..], resolve, w))
    {
      assert fs[k..][0] == fs[k] && fs[k..][1..] == fs[k + 1..];
      var f := fs[k];
      if !Passes(f, w) {
        k := k + 1;
        continue;
      }
      var url := resolve(f.id.value);
      if url.Failure? {
        return recs, Some(url.error);
      }
      var made := if TruthyUrl(url.value) then [RecordOf(f, url.value.value)] else [];
      ghost var rest := Scan(fs[k + 1..], resolve, w);
      assert Scan(fs[k..], resolve, w) == Prepend(made, [f.id.value], rest);
      assert (recs + made) + rest.records == recs + (made + rest.records);
      assert (calls + [f.id.value]) + rest.calls == calls + ([f.id.value] + rest.calls);
      calls := calls + [f.id.value];
      recs := recs + made;
      k := k + 1;
    }
    assert fs[k..] == [];
    return recs, None;
  }
}
