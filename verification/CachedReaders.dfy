/** The readers over the shared tile cache: what a fetch_decoded call returns in any run is what they are proved on. */
module CachedReaders {
  import opened Wrappers
  import opened Arrays
  import opened TileStore
  import opened TileSource
  import opened FetchProtocol
  import FetchTheorems
  import opened Zone
  import opened Windows
  import opened Grids
  import opened Raster
  import opened WindowScan
  import opened Zonal
  import opened Batch

  /** The arrays a returned call holds are those an uncached fetch of its keys gives. */
  lemma CachedArrays<V>(cfg: Config<V>, run: seq<System<V>>, n: nat, i: nat)
    requires Run(cfg, run) && n < |run| && i < |run[n].calls| && run[n].calls[i].pc.Returned?
    ensures var c := run[n].calls[i];
            AllSome(c.out) && FetchAll(cfg.source, c.keys) == Ok(Unwrapped(c.out))
  {
    FetchTheorems.CacheIsTransparent(cfg, run, n, i);
    var c := run[n].calls[i];
    assert FetchAll(cfg.source, c.keys).value == Unwrapped(c.out);
  }

  /** Call i fetches tiles of a level of this file. */
  ghost predicate FetchesFor<V>(cfg: Config<V>, s: System<V>, i: nat, cog: Cog<V>, level: nat, tiles: seq<Cell>) {
    && i < |s.calls| && cog.source == cfg.source && WellFormed(cog) && level < |cog.levels|
    && s.calls[i].keys == TileKeys(cog, level, tiles)
  }

  /** Statistics of a window over the cache, in any run with any other calls: from the arrays its call returns the
      window scan yields the window's statistics; if its call fails these are an error, unless the source is flaky. */
  lemma CachedWindow<V>(ops: Ops<V>, cfg: Config<V>, run: seq<System<V>>, n: nat, i: nat, cog: Cog<V>, level: nat,
                        w: Window, tiles: seq<Cell>, band: nat, keep: Cell -> bool)
    requires Run(cfg, run) && n < |run| && FetchesFor(cfg, run[n], i, cog, level, tiles) && band > 0
    requires tiles == WindowTiles(w, cog.levels[level].tileWidth, cog.levels[level].tileHeight)
    ensures var c, l := run[n].calls[i], cog.levels[level];
            && (c.pc.Returned? ==>
                  && AllSome(c.out) && |c.out| == |tiles|
                  && FromArrays(ops, cog.planar(level), l.tileWidth, l.tileHeight, w, band, keep, tiles,
                                Unwrapped(c.out)) == WindowStats(ops, cog, level, w, band, keep))
            && (c.pc.Failed? && !cfg.flaky ==> WindowStats(ops, cog, level, w, band, keep) == Err(Tiff))
  {
    var c := run[n].calls[i];
    if c.pc.Returned? {
      CachedArrays(cfg, run, n, i);
      FetchedArrays(cog, level, tiles, Unwrapped(c.out));
      FromArraysIsWindowStats(ops, cog, level, w, band, keep, tiles, Unwrapped(c.out));
    } else {
      FetchTheorems.CacheIsTransparent(cfg, run, n, i);
    }
  }

  /** Tiles looked up in what a call returned are the file's own: batches and point reads sample nothing else. */
  lemma CachedTiles<V>(cfg: Config<V>, run: seq<System<V>>, n: nat, i: nat, cog: Cog<V>, level: nat, tiles: seq<Cell>,
                       byTile: map<Cell, Array<V>>)
    requires Run(cfg, run) && n < |run| && FetchesFor(cfg, run[n], i, cog, level, tiles)
    requires run[n].calls[i].pc.Returned? && AllSome(run[n].calls[i].out)
    requires Zips(byTile, tiles, Unwrapped(run[n].calls[i].out))
    ensures forall t :: t in tiles ==> Decoded(cog, level, byTile, t)
  {
    CachedArrays(cfg, run, n, i);
    ZippedIsDecoded(cog, level, tiles, Unwrapped(run[n].calls[i].out), byTile);
  }

  /** A zone of a batch over the cache: from the arrays the batch's one call returned, its scan yields the zone's scalar
      statistics. */
  lemma CachedZone<V>(ops: Ops<V>, cfg: Config<V>, run: seq<System<V>>, n: nat, i: nat, cog: Cog<V>, level: nat,
                      tiles: seq<Cell>, byTile: map<Cell, Array<V>>, z: Zone, w: Window, own: seq<Cell>, band: nat)
    requires Run(cfg, run) && n < |run| && FetchesFor(cfg, run[n], i, cog, level, tiles)
    requires Located(cog, level) && HasBand(cog, band)
    requires run[n].calls[i].pc.Returned? && AllSome(run[n].calls[i].out)
    requires Zips(byTile, tiles, Unwrapped(run[n].calls[i].out))
    requires ZoneWindow(cog, level, z) == Some(w)
    requires own == WindowTiles(w, cog.levels[level].tileWidth, cog.levels[level].tileHeight)
    requires forall t :: t in own ==> t in tiles
    ensures forall t :: t in own ==> t in byTile
    ensures FromArrays(ops, cog.planar(level), cog.levels[level].tileWidth, cog.levels[level].tileHeight, w, band,
                       CenterInside(cog, level, z), own, LookedUp(byTile, own)) == ZoneStats(ops, cog, z, band, level)
  {
    CachedTiles(cfg, run, n, i, cog, level, tiles, byTile);
    forall t | t in own ensures t in byTile && Decoded(cog, level, byTile, t) {
    }
    LookedUpIsWindowStats(ops, cog, level, w, band, CenterInside(cog, level, z), byTile, own);
  }
}
