/** Where decoded tiles come from: a reader's tile source, and fetching a tile list without a cache. */
module TileSource {
  import opened Wrappers
  import opened Arrays
  import opened TileStore

  datatype MetaError =
    | NotTiled(level: nat)
    | KeyOverflow
    | Tiff
    | InvalidFilter
    | FilterWithoutGeoref
    | NotGeoreferenced

  /** What range-reading and decoding one tile comes to. */
  datatype TileResult<V> = Tile(arr: Array<V>) | FetchFails | DecodeFails

  /** Tiles are fixed per reader: a key determines what its fetch and decode give. */
  type Source<V> = Key -> TileResult<V>

  predicate AllDecode<V>(source: Source<V>, keys: seq<Key>) {
    forall j :: 0 <= j < |keys| ==> source(keys[j]).Tile?
  }

  /** The arrays of `keys`, in order, or an error: what fetch_decoded returns without a cache. */
  function FetchAll<V>(source: Source<V>, keys: seq<Key>): Result<seq<Array<V>>, MetaError> {
    if AllDecode(source, keys) then
      Ok(seq(|keys|, j requires 0 <= j < |keys| => source(keys[j]).arr))
    else
      Err(Tiff)
  }

  /** The uncached path: one merged fetch that fails as a whole, then the tiles decoded in order. */
  method FetchUncached<V>(source: Source<V>, keys: seq<Key>) returns (r: Result<seq<Array<V>>, MetaError>)
    ensures r == FetchAll(source, keys)
    ensures r.Ok? <==> forall j :: 0 <= j < |keys| ==> source(keys[j]).Tile?
    ensures r.Ok? ==> |r.value| == |keys| && forall j :: 0 <= j < |keys| ==> source(keys[j]) == Tile(r.value[j])
    ensures r.Err? ==> r == Err(Tiff)
  {
    for i := 0 to |keys|
      invariant forall j :: 0 <= j < i ==> !source(keys[j]).FetchFails?
    {
      if source(keys[i]).FetchFails? {
        return Err(Tiff);
      }
    }
    var out: seq<Array<V>> := [];
    for i := 0 to |keys|
      invariant |out| == i
      invariant forall j :: 0 <= j < i ==> source(keys[j]) == Tile(out[j])
    {
      match source(keys[i])
      case Tile(a) => out := out + [a];
      case DecodeFails => return Err(Tiff);
      case FetchFails => assert false;
    }
    assert out == FetchAll(source, keys).value;
    r := Ok(out);
  }

  predicate AllSome<V>(out: seq<Option<Array<V>>>) {
    forall j :: 0 <= j < |out| ==> out[j].Some?
  }

  /** The filled slots, unwrapped. */
  function Unwrapped<V>(out: seq<Option<Array<V>>>): (arrays: seq<Array<V>>)
    requires AllSome(out)
    ensures |arrays| == |out|
  {
    seq(|out|, j requires 0 <= j < |out| => out[j].value)
  }

  lemma FilledIsFetchAll<V>(source: Source<V>, keys: seq<Key>, out: seq<Option<Array<V>>>)
    requires |out| == |keys| && AllSome(out)
    requires forall j :: 0 <= j < |keys| ==> source(keys[j]) == Tile(out[j].value)
    ensures FetchAll(source, keys) == Ok(Unwrapped(out))
  {
    assert FetchAll(source, keys).value == Unwrapped(out);
  }
}
