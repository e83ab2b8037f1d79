# Verified model of the raster engine

The engine reads cloud-optimised GeoTIFFs. This project models its hard parts in Dafny and proves what callers rely on.

* **Tile cache** (`TileStore`, `TileStoreLaws`, `TileCache`). A byte-bounded least-recently-used cache with
  single-flight claims. `TileStore` is the meaning: a recency list, a map of pending keys and counters. `TileCache` is
  the class with the engine's fields (map of slots, ticks, byte count); each method is proved to be one operation of the
  list.
* **Concurrent fetches** (`TileSource`, `FetchProtocol`, `FetchInvariant`, `FetchTheorems`, `FetchCounts`,
  `FetchProgress`, `FetchThreads`, `FetchClaims`, `FetchDeadlock`, `FetchCaches`, `KeyCycles`, `FetchRings`,
  `FetchFour`, `ClaimOrders`, `FetchEffects`, `FetchDecoded`). Any number of `fetch_decoded` calls over one cache, as a
  state machine. A step is one critical section, one wake-up, one fetch or one signal fired; any call may take the next.
  `FetchThreads` to `ClaimOrders` settle when calls on shared threads can block each other for good, for given and for
  arbitrary cache contents. `FetchDecoded` is the same code run alone on the class, `FetchEffects` what that does to the
  list.
* **Zones** (`Zone`, `ZoneParity`, `ZoneCrossings`). The even-odd ray cast, the envelope, the parity laws of rings, and
  membership counted out edge by edge.
* **Windowed raster pipeline** (`Windows`, `Arrays`, `ArrayLaws`, `Grids`, `CellOrder`, `Raster`, `ScanValues`,
  `WindowScan`, `Zonal`, `ZonalValues`, `Batch`, `BandWindow`, `BandWindowLaws`, `ReadPixels`, `BandValues`,
  `CachedReaders`, `Overview`, `TileListing`). Box and polygon statistics, their batch, band windows, point reads,
  overview selection and the tile listing, all against one naive reading: the pixels of the image whose centre is wanted
  and which are not nodata. `ScanValues`, `ZonalValues` and `BandValues` say what comes out pixel by pixel.
* **Smaller state machines** (`ReaderCache`, `StacSearch`). The reader cache with lookup, open and insert as separate
  steps, and the page-following search loop against an arbitrary server.

`dafny verify dfyconfig.toml` checks the whole project.

## Reading the model

* Coordinates are reals. Pixel indices and byte counts are unbounded integers; ids, counters and ticks do not wrap.
* Pixel values are an arbitrary type `V` with `Ops`: zero, add, min, max and a nodata predicate. Batch equals scalar and
  cache transparency assume nothing of them. Where the visiting order differs from the naive one, equality of count, min
  and max needs min and max to commute (`ExtremaCommute`), and equality of sums needs addition to be exact
  (`SumCommutes`). Real arithmetic meets both. Floating-point addition does not meet the second, so for it the
  statements give outcome, count, min and max, and the sum in the engine's own order of visiting.
* A tile source is fixed per reader: a key (reader, level, x, y) determines the decoded tile, or that fetching or
  decoding it fails. A `flaky` source may fail besides.
* A signal is a number; it is done when it is in the set of fired signals. Waiting on it and re-claiming are steps of
  the protocol; the class method `TryClaimOne` is one pass of the claim loop and reports `Busy`. A contended claim on
  one thread without waiting (the wasm branch) is `ClaimTwice`.
* The file's own pixel sizes are positive, as the field's comment states, and tile sizes are not zero. A base level
  without pixels makes the derived sizes 0; what the engine's divisions by it then come to is spelled out in `Windows`.
  Nothing is said of the boxes the listing gives tiles of a level that itself has no pixels; the edge and cover
  statements need the tile count to be the ceiling of image size over tile size.
* The open file's list of directories and its list of levels have the same length, so a level is there for both or for
  neither.
* Progress rests on hypotheses that the code leaves to its callers. One thread per call and one common claim order are
  enough. On shared threads the calls of a thread must also begin in turn and claim ever higher keys in that order.
* A shift or an or of disjoint bit fields is written as a sum; `OrIsSum` states this on 64-bit words.

## Where code and comments differ

* The claim comment (crates/engine/src/tile_cache.rs:113-116) calls blocking right because each call has a thread.
  `run_rows` (src/rs_meta.rs:990-1002) polls several row futures on one thread. For two calls
  `FetchDeadlock.CanStickIff` says exactly when a run that stays blocked exists, and for any number on threads of their
  own `FetchRings.SomeCacheSticksAllIff` when some cache contents let one exist. For more calls on shared threads
  `FetchThreads.RankedThreadsNeverStick` gives a condition that excludes it, and `FetchFour.FourCanStick` is a blocked
  run in which no two calls of a thread share a tile.
* The two claim orders (row by row, crates/engine/src/pixel.rs:283-287 and 495-499; by (x, y), 185 and 352-360) are not
  common. `ClaimOrders.MixedOrdersStickIff` says exactly when two such readers on two threads can block each other from
  given cache contents, and `ClaimOrders.SomeCacheSticksMixedIff` when some cache contents let them.
* Narrowing a polygon to the envelope of its exteriors keeps the whole zone only if no pixel centre lies in a hole that
  leaves that envelope. `Zonal.WindowHasWholeZoneIff` is the exact condition and `Zonal.WindowCanMissZone` an instance.
* The comment on `band_window_polygon` (crates/engine/src/pixel.rs:531-538) says it sees the pixels that polygon
  statistics see. The values agree, but the array is an error also when only pixels outside the polygon are in no
  decoded tile. `BandWindowLaws.PolygonBandErrsAloneIff` is the exact condition and
  `BandWindowLaws.PolygonBandCanErrAlone` an instance.
* An empty page with a next link ends a search (src/stac_search.rs:160-164), so that rows the server still has may be
  left out without an error. `StacSearch.CompleteIff` says exactly when they are not, and
  `StacSearch.EmptyPageHidesTheNext` is an instance where they are.
* A comment (crates/engine/src/tile_cache.rs:79-80) says that a tile over the budget cannot stay and is fetched again.
  Eviction begins with the least recently used, so all other tiles go before it does:
  `TileStoreLaws.PublishedIsHitIff`.
* One comment (crates/engine/src/tile_cache.rs:20-21) describes keys without a level; the key type has one, and the
  model follows the type.

## Model

| member | source | states |
|---|---|---|
| `TileStore.ShrinkIsLongestFittingSuffix` | crates/engine/src/tile_cache.rs:190-207 | After eviction the resident tiles are the longest run of most recently used ones that fits the budget: one tile more would not fit. |
| `TileStoreLaws.TryClaimEffect` | crates/engine/src/tile_cache.rs:124-155 | A claim is a hit iff the key is resident, busy iff it is pending, else the caller's. A hit moves that one tile to the recent end and counts a hit; a busy claim changes nothing; a granted one makes the key pending under a new signal and counts a miss. |
| `TileStoreLaws.TryClaimTwiceEffect` | crates/engine/src/tile_cache.rs:136-145 | The single-threaded claim of a key being fetched counts a miss, changes nothing else and grants the key again; any other is the ordinary claim. |
| `TileStoreLaws.PublishEffect` | crates/engine/src/tile_cache.rs:168-212 | The tile goes to the recent end in place of an older one of its key; of that list the longest recent run within the budget stays, and the tiles cut off are the evictions. Its own key is no longer pending, its signal is handed over, and nothing else changes: no counter, no other pending key. |
| `TileStoreLaws.PublishedIsHitIff` | crates/engine/src/tile_cache.rs:79-80 | A published tile that fits the budget is the most recent one and the next claim of its key hits it; a single tile over the budget leaves nothing resident and its key is granted again. |
| `TileStoreLaws.PublishKeeps` | crates/engine/src/tile_cache.rs:168-212 | A publication keeps the list valid and within budget, and every miss accounted for, also when it replaces a resident tile. |
| `TileStoreLaws.ReleaseEffect` | crates/engine/src/tile_cache.rs:222-240 | Aborting gives back a pending key, hands over its signal and changes nothing else; on a resident or unknown key it changes nothing. |
| `TileStoreLaws.EverySequenceBalances` | crates/engine/src/tile_cache.rs:124-240 | Over every sequence of claims, single-threaded duplicate claims, publications and aborts, duplicates and late ones included: the byte sum stays within the budget, and misses = resident + pending + evictions + aborted pending keys + duplicate claims, less publications of keys nobody claimed. |
| `TileCache.OldestReady` | crates/engine/src/tile_cache.rs:193-201 | The scan finds a resident slot with the least stamp, and none exactly when nothing is resident; pending slots are passed over. |
| `TileCache.OldestIsHead` | crates/engine/src/tile_cache.rs:190-207 | The slot with the least stamp is the head of the recency list: the hash map with ticks and a scan is a least-recently-used list. |
| `TileCache.StampMovesToBack` | crates/engine/src/tile_cache.rs:127-134 | Stamping a slot with a fresh tick is moving its tile to the recent end of the list; stamps stay distinct. |
| `TileCache.ReplaceBytes` | crates/engine/src/tile_cache.rs:182-189 | The running byte count after a publication: the new tile in, the tile it replaces out, never below zero. |
| `TileCache.TileCache.constructor` | crates/engine/src/tile_cache.rs:81-90 | A new cache is empty and consistent. |
| `TileCache.TileCache.Register` | crates/engine/src/tile_cache.rs:108-111 | Reader ids are handed out in order and never twice. |
| `TileCache.TileCache.GetStats` | crates/engine/src/tile_cache.rs:94-106 | The snapshot is the counters and the byte sum of the resident tiles, which is within the budget. |
| `TileCache.TileCache.TryClaimOne` | crates/engine/src/tile_cache.rs:124-156 | One pass of the claim loop changes the map, the tick and the counters to exactly the list operation TryClaim; a pending key is reported as busy. |
| `TileCache.TileCache.ClaimTwice` | crates/engine/src/tile_cache.rs:136-145 | The single-threaded pass changes the fields to exactly the list operation TryClaimTwice: it is never busy; a key being fetched is counted as a miss and granted once more. |
| `TileCache.TileCache.Fulfill` | crates/engine/src/tile_cache.rs:168-218 | fulfill changes the fields to exactly the list operation Publish and fires the signal of the slot it replaced, and no other; afterwards the key's slot holds the tile if it fits the budget, else no tile is resident. |
| `TileCache.TileCache.EvictOverBudget` | crates/engine/src/tile_cache.rs:190-207 | The eviction loop ends with the list shrunk to the budget; a victim exists whenever the byte count is over budget, so the loop never leaves by the missing-victim branch. |
| `TileCache.TileCache.Abort` | crates/engine/src/tile_cache.rs:222-240 | abort changes the fields to exactly the list operation Release and fires the signal it took. |
| `TileCache.TileCache.ViewIsValid` | crates/engine/src/tile_cache.rs:40-45 | Consistent fields stand for a valid list: distinct resident keys, no key both resident and pending, pending signals distinct. |
| `TileSource.FetchUncached` | crates/engine/src/pixel.rs:65-78 | Without a cache: Ok iff every tile can be fetched and decoded, and then each in the place it was asked for. |
| `FetchDecoded.ClaimAll` | crates/engine/src/pixel.rs:79-91 | Claiming in order up to the first key another caller is fetching, where the call goes to wait on that key's signal: hits carry the source's tile of their key, the misses are exactly the keys this call now owes; past all keys they are those that were not resident. |
| `FetchDecoded.AbortAll` | crates/engine/src/pixel.rs:96-100 | Giving back the misses that are left leaves nothing of this call pending. |
| `FetchDecoded.DecodeMisses` | crates/engine/src/pixel.rs:104-119 | Every miss is published in order, or from the first tile that does not decode on given back; either way nothing of this call stays pending. |
| `FetchDecoded.FetchCached` | crates/engine/src/pixel.rs:59-122 | fetch_decoded on the cache object, on all exits: it goes to wait iff another caller is fetching one of its keys, holding only keys before that one; else same result as without a cache and pending keys as before the call. When it succeeds it has claimed all keys and published those not resident, and if its tiles fit the budget together all of them are resident; when it fails only the misses before the first that does not decode are published, and none if one could not be fetched. |
| `FetchEffects.FetchedIsResident` | crates/engine/src/pixel.rs:79-121 | What such a call does to the list, whatever was resident: if its tiles fit the budget together, each of them is resident afterwards. |
| `FetchEffects.FetchedCounts` | crates/engine/src/pixel.rs:79-121 | It counts one hit for each of its tiles that was resident and one miss for each other. |
| `FetchEffects.AllResidentIsAllHits` | crates/engine/src/pixel.rs:79-91 | A call whose tiles are all resident fetches none: each claim is a hit and no tile comes or goes. |
| `FetchInvariant.StepKeepsInv` | crates/engine/src/tile_cache.rs:124-240 | One step of any call keeps: each pending key owed by exactly one call, each waiter's signal where it will be fired from, only true tiles held anywhere, bytes within budget, misses accounted for. |
| `FetchInvariant.RunKeepsInv` | crates/engine/src/tile_cache.rs:124-240 | That invariant holds in every state of every interleaving of any number of calls. |
| `FetchTheorems.CacheIsTransparent` | crates/engine/src/pixel.rs:56-122 | In every interleaving a call that returns holds at each index the source's tile of that key (reader, level, x, y), as the uncached path gives it; it fails only if one of its own tiles cannot be had, unless the source is flaky. |
| `FetchTheorems.SingleFlightWithinBudget` | crates/engine/src/tile_cache.rs:124-155 | In every state each pending key has exactly one owner, no resident key has one, the byte budget holds, and misses = resident + pending + evictions + aborted. |
| `FetchTheorems.NoLostWakeUp` | crates/engine/src/tile_cache.rs:136-163 | In every state a waiter's signal is done, or still in the pending slot of its key, or in the hands of a resolver that is about to fire it. |
| `FetchTheorems.FinishedLeavesNothingPending` | crates/engine/src/tile_cache.rs:117-119 | Once all calls are finished nothing is pending. |
| `FetchTheorems.SettledExactlyOnce` | crates/engine/src/pixel.rs:92-120 | However a call ends (success, fetch error, decode error at any position), each key it was granted is settled by exactly one of its steps. |
| `FetchCounts.SettlingLeavesTile` | crates/engine/src/pixel.rs:92-120 | A step that settles a key of a failing call changes no tile; that of any other call puts the source's tile at the recent end, or empties the cache if the tile alone is over the budget. |
| `FetchCounts.ReturnedPublishedAll` | crates/engine/src/pixel.rs:104-110 | A call that returned has published each tile it was granted, by exactly one of its steps. |
| `FetchCounts.EveryCallFetchesAsOne` | crates/engine/src/pixel.rs:92-103 | In every state of every run only a call with a miss fetches, and a fetch that fails for one tile publishes none of them. |
| `FetchCounts.EachClaimIsCounted` | crates/engine/src/tile_cache.rs:124-155 | In every state of every run: each claim answered is one hit or one miss, and the misses are the tiles the calls were granted. |
| `FetchProgress.NeverStuck` | crates/engine/src/tile_cache.rs:120-165 | With one common claim order and a thread per call, some begun call can move as long as a begun call is unfinished. |
| `FetchProgress.RunsAreFinite` | crates/engine/src/tile_cache.rs:157-165 | Every run of finitely many calls is finite, in whatever order they claim: its length is bounded by a number read off its first state. |
| `FetchProgress.RetriesUseUpSignals` | crates/engine/src/tile_cache.rs:157-165 | A call goes back to claim only after the signal it waited for is done, and two retries of one call never wake on the same signal. |
| `FetchProgress.MaximalRunsFinishEveryCall` | crates/engine/src/tile_cache.rs:120-165 | A run that cannot be continued has finished every call. |
| `FetchThreads.RankedThreadsNeverStick` | crates/engine/src/tile_cache.rs:113-121 | Any number of calls on any threads, each thread beginning its calls in turn: if one ranking has every claim list ascend and, on each thread, the keys of an earlier call below those of a later one, nothing is ever stuck. |
| `FetchThreads.OwnThreadsAndCommonOrderNeverStick` | crates/engine/src/tile_cache.rs:113-121 | The case of one thread per call: a common claim order alone excludes a stuck state. |
| `FetchDeadlock.StuckMeansCrossed` | crates/engine/src/tile_cache.rs:120-165 | Two calls on two threads get stuck only if, of the keys not resident at the start, they disagree on which shared one comes first. |
| `FetchDeadlock.CrossedCanStick` | crates/engine/src/tile_cache.rs:120-165 | If they disagree, a run that gets stuck exists, whatever else the cache holds. |
| `FetchDeadlock.StuckOnOneThreadMeansShared` | src/rs_meta.rs:990-1002 | Two calls polled by one thread get stuck only if they share a key that was not resident at the start. |
| `FetchDeadlock.SharedCanStickOnOneThread` | src/rs_meta.rs:990-1002 | If they share such a key, a run that gets stuck exists: the first awaits its fetch while the second blocks the thread. |
| `FetchDeadlock.CanStickIff` | crates/engine/src/tile_cache.rs:113-121 | Exactly when two calls can get stuck, from any cache contents: with the keys resident at the start left out, crossed claim lists on two threads, a shared key on one. |
| `FetchCaches.StuckMeansOpposed` | crates/engine/src/tile_cache.rs:120-165 | Whatever a cache of any size holds, two calls on two threads can get stuck only if two keys come in opposite orders in their lists; on one thread only if they share a key. |
| `FetchCaches.SomeCacheSticksIff` | crates/engine/src/tile_cache.rs:113-121 | With room for the tiles of one list: some cache contents let two calls get stuck iff two keys come in opposite orders (two threads), iff they share a key (one thread). |
| `KeyCycles.UnrankedHasRing` | crates/engine/src/tile_cache.rs:113-121 | If no ranking makes every claim list ascend, some keys bar each other in a ring: each stands in a list of its own before the next, with no other key of the ring before that. |
| `FetchRings.StuckMeansUnranked` | crates/engine/src/tile_cache.rs:113-121 | Any number of calls on threads of their own: if they can get stuck from some cache contents, no ranking makes every claim list ascend. |
| `FetchRings.SomeCacheSticksAllIff` | crates/engine/src/tile_cache.rs:113-121 | Any number of calls on threads of their own, with room for their tiles: some cache contents let them get stuck iff no ranking makes every claim list ascend. |
| `FetchFour.FourCanStick` | src/rs_meta.rs:990-1002 | Four calls on two threads with lists [k], [l] and [l], [k]: no calls of a thread share a key and every ranking is a common order, yet a run gets stuck; no ranking puts the calls of both threads in order. |
| `ClaimOrders.WindowKeysRowMajor` | crates/engine/src/pixel.rs:281-287 | Window readers claim their tiles row by row. |
| `ClaimOrders.OneKindNeverSticks` | crates/engine/src/pixel.rs:495-499 | Window readers alone, or point and batch readers alone, each on its own thread, on any mix of files and levels, are never stuck. |
| `ClaimOrders.MixedOrdersStickIff` | crates/engine/src/pixel.rs:352-360 | From given cache contents a window reader and a point or batch reader on two threads can get stuck iff they share tiles that are not resident and none of these is both leftmost and topmost among them. |
| `ClaimOrders.SomeCacheSticksMixedIff` | crates/engine/src/pixel.rs:352-360 | Some cache contents let the two get stuck iff one tile they share lies below and to the left of another. |
| `ClaimOrders.WindowsStickIff` | crates/engine/src/pixel.rs:352-360 | Two windows of a level, one read row by row and one by (x, y): some cache contents let them get stuck iff they overlap in at least two by two tiles, the same window twice included. |
| `ClaimOrders.WindowAndPointsCanStick` | crates/engine/src/pixel.rs:180-187 | A window over a 2 by 2 block of tiles and two points in its off-diagonal tiles, neither of these resident, can block each other for good. |
| `Zone.Contains` | crates/engine/src/zone.rs:90-110 | The nested toggling loops compute the parity of the crossings of all rings with the ray to the right. |
| `Zone.CastThroughRing` | crates/engine/src/zone.rs:97-107 | The loop over vertices with the index trailing by one toggles once per crossed edge of the closed ring. |
| `Zone.Envelope` | crates/engine/src/zone.rs:76-86 | The smallest box around all exterior vertices: all are in it and each side has one on it; None iff there is no vertex. |
| `Zone.TightBoxUnique` | crates/engine/src/zone.rs:75-86 | That box is determined by the vertices. |
| `ZoneParity.RotatingKeepsParity` | crates/engine/src/zone.rs:97-107 | Starting a ring at another vertex changes no membership. |
| `ZoneParity.ReversingKeepsParity` | crates/engine/src/zone.rs:97-107 | Reversing a ring changes no membership. |
| `ZoneParity.ClosingKeepsParity` | crates/engine/src/zone.rs:97-107 | Repeating the first vertex at the end changes no membership. |
| `ZoneParity.ChordSplitsParity` | crates/engine/src/zone.rs:97-107 | A ring cut by a chord is the exclusive or of its two parts. |
| `ZoneParity.VertexOnEdgeKeepsParity` | crates/engine/src/zone.rs:99-105 | A further vertex on an edge changes no membership. |
| `ZoneParity.OutsideBoxIsEven` | crates/engine/src/zone.rs:97-107 | A point outside a box around a ring is outside the ring, on the left side too, where sign changes around the ring pair up. |
| `ZoneParity.RectangleIsHalfOpenBox` | crates/engine/src/zone.rs:99-105 | An axis-parallel rectangle holds its box without the right and the upper side. |
| `ZoneParity.InsideIsExteriorsXorHoles` | crates/engine/src/zone.rs:88-93 | Membership is the parity over the exteriors combined by exclusive or with the parity over the holes. |
| `ZoneParity.OutsideEnvelope` | crates/engine/src/zone.rs:76-110 | Outside the envelope a zone holds exactly the points that are odd to the holes leaving it. |
| `ZoneParity.EnvelopeHoldsZone` | crates/engine/src/zone.rs:76-110 | With all holes within the envelope nothing outside it is in the zone. |
| `ZoneParity.HoleOutsideEscapesEnvelope` | crates/engine/src/zone.rs:76-110 | Concrete zone with a hole away from its exterior that holds a point outside its envelope. |
| `ZoneCrossings.CrossedIffLeftOf` | crates/engine/src/zone.rs:99-105 | An edge is crossed iff the point is level with it, lower end in and upper end out, and strictly left of its line; said without a division. |
| `ZoneCrossings.RingOddIsCount` | crates/engine/src/zone.rs:97-107 | A ring is odd iff the number of its vertices whose incoming edge is crossed is. |
| `ZoneCrossings.InsideIffOddCrossings` | crates/engine/src/zone.rs:90-110 | A point is in a zone iff an odd number of edges of all exteriors and holes are crossed. |
| `ZoneCrossings.ExteriorVertices` | crates/engine/src/zone.rs:76-86 | The envelope is drawn around the vertices of the exteriors, all of them and no others. |
| `Windows.CenterWindowExact` | crates/engine/src/pixel.rs:646-664 | A pixel is in the returned window iff it is in the image and its centre is in the closed box; hence None iff there is no such pixel. Pixel size 0, as derived from a base level without pixels, included. |
| `Windows.RasterWorldRoundTrip` | crates/engine/src/meta.rs:120-138 | raster_to_world then world_to_raster returns to the same pixel from its upper left corner and every interior offset. |
| `Windows.CenterToRaster` | crates/engine/src/meta.rs:124-130 | A pixel's centre is under that pixel. |
| `Windows.RasterPixelHasPoint` | crates/engine/src/meta.rs:120-130 | The pixel found under a point is the one whose cell has it, left and upper edge in, right and lower edge out. |
| `ArrayLaws.FullTileHasEveryPlace` | crates/engine/src/pixel.rs:782-805 | A full tile has a value exactly at the places of its shape, chunky or planar, and no two places read the same element. |
| `ArrayLaws.TileReadsAsWritten` | crates/engine/src/pixel.rs:780-816 | A tile written out as rows of pixels of bands (chunky) or as bands of rows of columns (planar) reads back as written, and as nothing outside its shape or in an unknown layout. |
| `ArrayLaws.WrittenBytes` | crates/engine/src/tile_cache.rs:243-261 | Such a tile counts for all of its elements: rows by columns by bands by element size. |
| `Grids.RectCount` | crates/engine/src/pixel.rs:282-287 | The nested loops list each cell of a rectangle once and no other. |
| `Grids.VisitCount` | crates/engine/src/pixel.rs:291-304 | A tile list visits a window pixel exactly as often as it lists that pixel's tile. |
| `Grids.TilesPartitionWindow` | crates/engine/src/pixel.rs:282-306 | The tiles of a window partition it: each window pixel is visited exactly once, nothing else is. |
| `Grids.RectAt` | crates/engine/src/pixel.rs:489-523 | Row-major position arithmetic: element j * width + i is column i of row j. |
| `Raster.ScanErrs` | crates/engine/src/pixel.rs:757-777 | A scan errs iff a kept pixel is in no decoded tile. |
| `Raster.ScanOrder` | crates/engine/src/pixel.rs:757-777 | Outcome, count, min and max do not depend on the visiting order when min and max commute; nor does the sum when addition is exact. |
| `Raster.RealsCommute` | crates/engine/src/pixel.rs:769-774 | Arithmetic over the reals meets both hypotheses. |
| `ScanValues.ScanIsOfValues` | crates/engine/src/pixel.rs:757-777 | Statistics of a scan are those of the list of kept values that are not nodata: its length, add folded over it from zero, min and max folded over it from its first value and absent iff it is empty. |
| `ScanValues.RealScan` | crates/engine/src/pixel.rs:769-774 | Over the reals they are the number of these values, their sum, the least and the greatest of them. |
| `ZonalValues.PixelIsSample` | crates/engine/src/pixel.rs:80 | A pixel's value is the sample of the tile under the key (reader, level, x / tile width, y / tile height) at the remainders, in its band; none if that tile does not decode. |
| `ZonalValues.KeysOfTiles` | crates/engine/src/pixel.rs:80 | The keys fetched for tiles of a level name the file's reader, the level and the tile. |
| `ZonalValues.OtherTilesDoNotMatter` | crates/engine/src/pixel.rs:80 | Statistics of a window do not depend on the tiles of any other reader or level. |
| `WindowScan.TilesOf` | crates/engine/src/pixel.rs:282-287 | The nested loops produce the window's tiles row by row. |
| `WindowScan.AccumulateRow` | crates/engine/src/pixel.rs:758-775 | The inner loop sees the pixels of one row in order; skips, errors and nodata as in the code. |
| `WindowScan.AccumulateTile` | crates/engine/src/pixel.rs:742-778 | One tile: the clipped bounds do not underflow and stay inside the tile, and exactly the clipped pixels are seen, row by row. |
| `WindowScan.TileScanIsStored` | crates/engine/src/pixel.rs:291-304 | Scanning a tile's array at its own coordinates over its part of the window is scanning the stored raster there. |
| `WindowScan.AccumulateArrays` | crates/engine/src/pixel.rs:289-306 | Tile after tile from a list of arrays, wherever these come from: what each in its place comes to, an error ending the scan. |
| `WindowScan.FromArraysIsWindowStats` | crates/engine/src/pixel.rs:289-306 | From the arrays its tiles decode to, a window comes to the scan of its stored pixels. |
| `WindowScan.AccumulateWindow` | crates/engine/src/pixel.rs:270-306 | One fetch, then tile after tile: an error iff a tile fails or a kept pixel is missing, else the scan of the clipped tiles in order; empty for a level the file lacks. |
| `WindowScan.WindowIsAnyScan` | crates/engine/src/pixel.rs:270-306 | A window's statistics equal those of any listing that wants the same pixels: same outcome, count, min and max, and same sum when addition is exact. |
| `WindowScan.UndecodedTileHidesPixel` | crates/engine/src/pixel.rs:288-291 | Every tile fetched for a window holds a pixel of it: an unreadable tile leaves a pixel without a value. |
| `Zonal.ZonalStatsAt` | crates/engine/src/pixel.rs:238-266 | The checks in their order (reversed box, no georeference, no level, no band), then the statistics of the box's window. |
| `Zonal.WindowHolds` | crates/engine/src/pixel.rs:260-263 | On every level the window of a box has exactly that level's pixels with their centre in the box. |
| `Zonal.BoxIsNaive` | crates/engine/src/pixel.rs:238-266 | Box statistics are the naive filter of the whole level by centre in the closed box, errors included. |
| `Zonal.ZonalStatsPolygonAt` | crates/engine/src/pixel.rs:417-448 | The checks in their order (no georeference, no level, no band), then the statistics of the envelope window filtered by contains. |
| `Zonal.PolygonIsNaive` | crates/engine/src/pixel.rs:417-448 | Exactly what polygon statistics are: an error iff a tile of the window is unreadable or a kept pixel missing, else the naive filter of the whole level by inside the zone and not escaping the envelope. |
| `Zonal.WindowHasWholeZoneIff` | crates/engine/src/pixel.rs:433-439 | The envelope window has every pixel inside the zone iff no pixel centre escapes through a hole that leaves the envelope. |
| `Zonal.WindowCanMissZone` | crates/engine/src/pixel.rs:433-439 | It can fail: a concrete raster and zone with a pixel inside the zone and outside the window. |
| `Zonal.HolesInsideMeansWholeZone` | crates/engine/src/pixel.rs:417-448 | With holes within the envelope, polygon statistics are the filter of the whole level by contains. |
| `ZonalValues.BoxValues` | crates/engine/src/pixel.rs:238-306 | Box statistics over the reals, pixel by pixel: an error iff a pixel centred in the closed box has no value, else the number, sum, least and greatest value of the pixels centred in it that are not nodata. |
| `ZonalValues.PolygonValues` | crates/engine/src/pixel.rs:417-448 | Polygon statistics likewise, of the pixels whose centre is in the zone and does not escape its envelope; an error also if a tile of the window is unreadable. |
| `Zonal.CenterIsFractionOfExtent` | crates/engine/src/pixel.rs:582-593 | The centre of pixel (x, y) of a level lies (x + 1/2) / width along and (y + 1/2) / height down the extent of the base level. |
| `Zonal.BaseGeoref` | crates/engine/src/pixel.rs:585-593 | At level 0 the scaled georeference is the file's own. |
| `CellOrder.Insert` | crates/engine/src/pixel.rs:352-359 | Inserting into the ordered tile set keeps it strictly increasing and adds just that tile. |
| `CellOrder.IncreasingUnique` | crates/engine/src/pixel.rs:180-186 | A strictly increasing tile list is determined by its members: sorting with duplicates dropped and the ordered set give the same list. |
| `Batch.TileUnion` | crates/engine/src/pixel.rs:352-360 | The union has exactly the tiles of the zones' windows, in (x, y) order. |
| `Batch.ZoneFromTiles` | crates/engine/src/pixel.rs:378-394 | A zone of a batch is accumulated from the arrays looked up for its own tiles, in its own order; every tile it looks up is there. |
| `Batch.LookedUpIsWindowStats` | crates/engine/src/pixel.rs:361-394 | From the raster's own arrays that is the window scan of the zone. |
| `Batch.ZonalStatsPolygonBatchAt` | crates/engine/src/pixel.rs:326-398 | Ok iff every scalar polygon call is Ok, and then element i is the scalar result of zone i; nothing is assumed of addition, min and max. |
| `BandWindow.SlotInjective` | crates/engine/src/pixel.rs:523-524 | No two pixels of a window share a slot of its array. |
| `BandWindow.EachSlotOnce` | crates/engine/src/pixel.rs:502-527 | Tile by tile, every slot of the array is written exactly once. |
| `BandWindow.PaintTile` | crates/engine/src/pixel.rs:502-527 | One tile writes the values of its clipped pixels into their slots and disturbs no slot painted before. |
| `BandWindow.PaintWindow` | crates/engine/src/pixel.rs:489-528 | The array is the naive row-major window with nodata as None; an error iff one of its pixels is in no decoded tile. |
| `BandWindow.ReadBandWindow` | crates/engine/src/pixel.rs:456-529 | All exits: no band, empty image, whole band without a box, reversed box, no georeference, no pixel, else the naive window. |
| `BandWindow.BlankOutside` | crates/engine/src/pixel.rs:562-577 | Slot i is column i % width, row i / width; it is blanked iff that pixel's centre is outside the zone. |
| `BandWindow.ReadBandWindowPolygon` | crates/engine/src/pixel.rs:539-579 | All exits, and else the naive envelope window with the pixels outside the zone blanked. |
| `BandValues.BandReadsAs` | crates/engine/src/pixel.rs:456-529 | A band window, pixel by pixel: each check with its result in order, then empty if no pixel of the image is centred in the box, an error if one of them has no value, else exactly these pixels row by row, each with its value or blank for nodata. Without a box these are all pixels of the image. |
| `BandValues.PolygonBandReadsAs` | crates/engine/src/pixel.rs:539-579 | A polygon band window likewise, over the pixels centred in the envelope, blank where the centre is not in the zone. |
| `BandWindowLaws.PolygonBandAgrees` | crates/engine/src/pixel.rs:531-538 | Where it is there, the polygon array keeps exactly the pixels polygon statistics count: folding it gives the same count, min and max, and the same exact sum. |
| `BandWindowLaws.PolygonBandErrsAloneIff` | crates/engine/src/pixel.rs:531-538 | The array is an error and the statistics are there iff all tiles of the window decode, every pixel of it inside the zone is in one, and some other pixel of it is in none; the statistics never err alone. |
| `BandWindowLaws.PolygonBandCanErrAlone` | crates/engine/src/pixel.rs:531-538 | An instance: a tile that decodes with one column too few, and a triangle around the pixel that is there. |
| `BandWindowLaws.BoxBandAgrees` | crates/engine/src/pixel.rs:450-455 | Box array and box statistics err together, and folding the array gives the statistics. |
| `ReadPixels.Sort` | crates/engine/src/pixel.rs:185 | Sorted, same elements. |
| `ReadPixels.Dedup` | crates/engine/src/pixel.rs:186 | Strictly increasing, same members. |
| `ReadPixels.TilesUnder` | crates/engine/src/pixel.rs:179-186 | Each point's tile is listed, once, and no other tile is. |
| `ReadPixels.ReadPoints` | crates/engine/src/pixel.rs:149-220 | At each position the value under that point, None outside the image or for nodata; an error iff one of the pixels is in no decoded tile. |
| `BandValues.PointsReadAs` | crates/engine/src/pixel.rs:149-220 | Point reads: each check with its result, an error iff the pixel of some point has no value, and at each position the value of the image's pixel that has the point, blank for nodata or without such a pixel. |
| `ReadPixels.PixelUnderHasPoint` | crates/engine/src/pixel.rs:160-178 | A point reads the pixel whose cell has it, if the image has that pixel. |
| `ReadPixels.CentersReadAsBand` | crates/engine/src/pixel.rs:149-220 | Points at the pixel centres of a box's window read as the elements of its band window, position by position, and err with it. |
| `CachedReaders.CachedArrays` | crates/engine/src/pixel.rs:56-122 | The arrays a call returned with, in any run with any other calls, are those an uncached fetch of its keys gives. |
| `CachedReaders.CachedWindow` | crates/engine/src/pixel.rs:270-306 | A window over the cache, in any run: from the arrays its call returned the scan yields the statistics of the stored raster; if its call failed these are an error, unless the source is flaky. |
| `CachedReaders.CachedTiles` | crates/engine/src/pixel.rs:187-200 | Tiles looked up in what the one call of a batch or point read returned are the file's own. |
| `CachedReaders.CachedZone` | crates/engine/src/pixel.rs:361-394 | A zone of a batch over the cache, in any run: from the arrays of the batch's one call its scan yields the scalar statistics of the zone. |
| `Overview.SelectLevel` | crates/engine/src/pixel.rs:610-631 | The first level whose window fits the budget, else the last; 0 for budget 0, a single level or no georeference. |
| `Overview.SelectionIsAntitone` | crates/engine/src/pixel.rs:610-631 | A larger positive budget never selects a coarser level. |
| `Overview.AreaIsColumnsByRows` | crates/engine/src/pixel.rs:620-625 | The area compared with the budget is the number of columns by the number of rows whose centres are in the box. |
| `Overview.OverviewColumns` | crates/engine/src/pixel.rs:582-593 | For a box in the extent: columns of an overview times w0/wL are within w0/wL + 1 of the base level's columns. |
| `Overview.OverviewRows` | crates/engine/src/pixel.rs:582-593 | The same for rows with h0/hL. |
| `Overview.ScaledAreaBound` | crates/engine/src/pixel.rs:595-605 | For a box in the extent: the pixel count of an overview window times level_scale is the base level count up to columns*(h0/hL + 1) + (w0/wL + 1)*(rows + h0/hL + 1). |
| `Overview.ScaleTurnsLevelIntoBase` | crates/engine/src/pixel.rs:595-605 | level_scale turns the pixel count of a level into that of the base level; it is 1 at the base level and for a level the file lacks. |
| `TileListing.PackRoundTrip` | crates/engine/src/lib.rs:62-75 | Every id in range unpacks to its level and coordinates. |
| `TileListing.IdDigits` | crates/engine/src/lib.rs:62-68 | A tile has an id iff its coordinates fit 24 bits; the id has the level above bit 48, x above bit 24 and y below. |
| `TileListing.UnpackRoundTrip` | crates/engine/src/lib.rs:62-75 | Every 56-bit number is the id of what it unpacks to. |
| `TileListing.OrIsSum` | crates/engine/src/lib.rs:66 | The shifts and ors on 64 bits are the sum used by the model. |
| `TileListing.BuildLevels` | crates/engine/src/meta.rs:338-362 | Ok iff every directory is tiled, numbered below 256 and has tile counts that, cut to 32 bits, fit 24-bit indices; then each level has its directory's image size, tile size and counts under its number. Else the error of the first refused directory: not tiled, or an overflowing key. |
| `TileListing.EachTileOnce` | crates/engine/src/meta.rs:418-442 | The listing has every tile of every level grid, nothing else, level by level, row by row, column by column; each row has its level's tile size and its own box, ids differ, and each unpacks to its row's level and coordinates. |
| `TileListing.ColumnsAbut` | crates/engine/src/meta.rs:372-386 | Boxes of neighbouring columns share an edge; the last one ends on the extent. |
| `TileListing.RowsAbut` | crates/engine/src/meta.rs:372-386 | The same for rows. |
| `TileListing.BoxesCoverExtent` | crates/engine/src/meta.rs:372-386 | Every point of a level's extent is in the box of one of its tiles. |
| `TileListing.LevelsShareExtent` | crates/engine/src/meta.rs:373-375 | All levels cover the extent of the base level. |
| `TileListing.BoxHasItsOwnCenters` | crates/engine/src/meta.rs:372-386 | Of all tile boxes exactly that of a pixel's own tile has the pixel's centre. |
| `TileListing.MeetingMembers` | crates/engine/src/meta.rs:413-415 | Filtering keeps exactly the rows whose closed box meets the filter. |
| `TileListing.MeetingBoxesShareAPoint` | crates/engine/src/meta.rs:388-391 | Closed boxes meet iff they share a point. |
| `TileListing.ListedIffPointShared` | crates/engine/src/meta.rs:393-416 | Pruning, exactly: a tile is listed iff its box and the filter share a point. |
| `TileListing.PruningOnlyLeavesOut` | crates/engine/src/meta.rs:397-416 | No filter is the whole listing, a reversed one is invalid, one without a georeference an error of its own; else rows are only left out, in their order. |
| `TileListing.PruningKeepsWindowTiles` | crates/engine/src/meta.rs:393-416 | Pruning by a box keeps every tile that statistics of the same box would fetch. |
| `ReaderCache.Cache.Lookup` | crates/engine/src/cache.rs:53-60 | A hit iff the cache is on, the key is there and the entry is younger than the ttl. |
| `ReaderCache.Cache.Oldest` | crates/engine/src/cache.rs:67-70 | An entry with the least insertion time; none iff the map is empty. |
| `ReaderCache.Cache.Insert` | crates/engine/src/cache.rs:62-82 | Entries expired when the sweep looks at them go, one oldest goes if the map is full and the key new, then the entry is stored and is there; nothing happens with ttl zero. |
| `ReaderCache.InsertionKeepsCap` | crates/engine/src/cache.rs:66-81 | The map never holds more than max(cap, 1) entries. |
| `ReaderCache.InsertionStores` | crates/engine/src/cache.rs:62-82 | A reader that goes in is found under its key as long as it is younger than the ttl; unless the map is full and the key new every other unexpired entry stays. |
| `ReaderCache.RunKeepsInv` | crates/engine/src/cache.rs:49-84 | Under any interleaving of lookups, opens, inserts and the clock: every entry was opened for its key and stamped no later than now, the cap holds, ttl zero keeps the map empty. |
| `ReaderCache.ReturnedWasOpened` | crates/engine/src/cache.rs:49-84 | A returned value was opened for the key the call was made with; a hit was inserted under it less than the ttl before; with ttl zero nothing hits. |
| `ReaderCache.HitIsLatest` | crates/engine/src/cache.rs:49-84 | In every run a hit is the latest insertion under its key; as long as no more keys were inserted than the cap, a lookup hits iff that insertion is younger than the ttl. |
| `ReaderCache.DroppedWasOldest` | crates/engine/src/cache.rs:62-82 | In every run an entry leaves the map only when a call stores its reader, and then expired or as the one oldest of a full map, all other unexpired entries staying. |
| `StacSearch.ApplyNext` | crates/engine/src/stac.rs:122-137 | The insertion loop lays the next body's fields over the original's; an unmerged body replaces it, no body means none. |
| `StacSearch.MergedBodyIsOverOriginal` | crates/engine/src/stac.rs:120-137 | A merged body has the next body's fields where it has them, the original's elsewhere, and no others; a body that is not an object has none. |
| `StacSearch.LinkOnTheWire` | src/stac_search.rs:21-42 | A link goes to its own address; as POST iff it says so in any letter case, then with its own body, the merged one, or an empty object if it has none; else as GET. |
| `StacSearch.SetFiltersOnly` | crates/engine/src/stac.rs:97-118 | Each filter that is set is in the search body under its key with its value, and no other key is. |
| `StacSearch.SearchFrom` | src/stac_search.rs:137-170 | The loop returns what its log of exchanges amounts to, on each of its exits. |
| `StacSearch.RowsInOrder` | src/stac_search.rs:146 | Row j of page k comes right after all rows of the pages before it and the j rows before it on the page; there are no other rows. |
| `StacSearch.Search` | src/stac_search.rs:127-171 | A search starts by posting the original body to the address, and returns what its log of exchanges amounts to: a failed request, the cap error, or the rows. |
| `StacSearch.AtMostMaxRowsRequests` | src/stac_search.rs:137-170 | Against any server at most max_rows requests are made. |
| `StacSearch.EachRequestFollows` | src/stac_search.rs:160-169 | Each request follows from the last page's link and the original body, never from a body merged before; a page that is followed had rows. |
| `StacSearch.NoFetchedRowIsCut` | src/stac_search.rs:142-170 | Without an explicit cap Ok is the whole concatenation of the fetched pages; with one, its first max_rows rows; the cap error iff rows would be cut and no cap was given; a request error iff the last request failed. |
| `StacSearch.CompleteIff` | src/stac_search.rs:137-170 | Against any server: an Ok search has all rows to be had by following the links iff no page with rows comes after an empty one and, under an explicit cap, there are no more rows than the cap. |
| `StacSearch.EmptyPageHidesTheNext` | src/stac_search.rs:160-164 | A server whose first page has no rows and links to a page with a row: the search is Ok without rows, following the links gives that row. |

## Left out

- Floating-point rounding, infinities and NaN: proved over reals, but for division by pixel size 0; the finiteness checks on boxes have nothing to check there.
- Saturating casts and the 64-bit range of pixel areas and coordinates: indices are unbounded integers.
- Zonal.HolesInsideMeansWholeZone: one way only; which pixels the narrowing loses is exact in Zonal.WindowHasWholeZoneIff.
- FetchDecoded.FetchCached: ends where a call goes to wait; what follows the wake-up is in FetchProtocol, and FetchTheorems.CacheIsTransparent covers it.
- FetchThreads.RankedThreadsNeverStick: one way only where threads are shared by more than two calls; exact for calls on threads of their own (FetchRings.SomeCacheSticksAllIff) and for two calls (FetchDeadlock.CanStickIff).
- FetchCaches.SomeCacheSticksIff: needs a cache with room for the first list's tiles; FetchCaches.StuckMeansOpposed does not.
- FetchRings.SomeCacheSticksAllIff: needs a cache with room for the tiles of all lists; FetchRings.StuckMeansUnranked does not.
- WindowScan.AccumulateRow: loops over image coordinates and subtracts the tile corner, where the code loops over tile indices.
- Tie-breaking by key among equal stamps in the eviction scan: stamps are distinct, so it never decides.
- Which of several equally old readers is dropped: the hash map's order decides, so any of them may be.
- Parsing of TIFF directories, tile fetching and decoding by async-tiff: a function from key to tile or failure.
- Cancelled futures and panics between a claim and its resolution: calls run to an exit of fetch_decoded.
- The executor and `run_rows` themselves: only which calls share a thread.
- WKT and JSON parsing, GDAL metadata and nodata strings: library calls and field extraction.
- The choice of the next link inside a search page: a page is its rows and at most one next link.
- DuckDB vectors, SQL overloads, the wasm bindings and the benchmark binary: glue around the engine.
- Object-store sources, credentials and the HTTP client: a source or server is a function.
- Statistic names, mean and the normalised difference: one-line arithmetic.
