/** Cutting an interval of heights into consecutive batches. */
module Tiling {

  /** Adjacent non-empty intervals of at most `size` numbers that start at `low` and end at `high`. */
  ghost predicate TilesRange(tiles: seq<(nat, nat)>, low: nat, high: int, size: nat)
    decreases |tiles|
  {
    if |tiles| == 0 then high == low - 1
    else
      && tiles[0].0 == low
      && low <= tiles[0].1 && tiles[0].1 - low + 1 <= size
      && TilesRange(tiles[1..], tiles[0].1 + 1, high, size)
  }

  lemma {:induction false} TilesGoUp(tiles: seq<(nat, nat)>, low: nat, high: int, size: nat)
    requires TilesRange(tiles, low, high, size)
    ensures low <= high + 1
    decreases |tiles|
  {
    if |tiles| > 0 {
      TilesGoUp(tiles[1..], tiles[0].1 + 1, high, size);
    }
  }

  /** Each tile starts right after the one before, and the last one ends at `high`. */
  lemma {:induction false} TileBorders(tiles: seq<(nat, nat)>, low: nat, high: int, size: nat, n: nat)
    requires TilesRange(tiles, low, high, size) && 0 < n <= |tiles|
    ensures low <= tiles[n - 1].0 <= tiles[n - 1].1 <= high
    ensures n < |tiles| ==> tiles[n].0 == tiles[n - 1].1 + 1
    ensures n == |tiles| ==> tiles[n - 1].1 == high
    decreases n
  {
    var rest := tiles[1..];
    if n > 1 {
      TileBorders(rest, tiles[0].1 + 1, high, size, n - 1);
    } else {
      TilesGoUp(rest, tiles[0].1 + 1, high, size);
    }
  }
}
