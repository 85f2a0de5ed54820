/**
  What the BTC cache means: a sequence of blocks that holds at most a given number of entries.
  The operations of the class `BtcCache.BTCCache` are specified by these functions.
 */
module BoundedCache {
  import opened Prelude
  import opened BtcTypes

  /** Appending to a full cache evicts its first block. */
  function Push(s: seq<IndexedBlock>, maxEntries: nat, b: IndexedBlock): seq<IndexedBlock> {
    (if |s| == maxEntries && |s| > 0 then s[1..] else s) + [b]
  }

  function PushAll(s: seq<IndexedBlock>, maxEntries: nat, bs: seq<IndexedBlock>): seq<IndexedBlock> {
    if |bs| == 0 then s
    else Push(PushAll(s, maxEntries, bs[..|bs| - 1]), maxEntries, bs[|bs| - 1])
  }

  /** The last `n` elements, or all of them when there are fewer. */
  function LastN<T>(s: seq<T>, n: nat): seq<T> {
    if |s| <= n then s else s[|s| - n..]
  }

  lemma PushKeepsMostRecent(s: seq<IndexedBlock>, maxEntries: nat, b: IndexedBlock)
    requires 0 < maxEntries
    ensures Push(LastN(s, maxEntries), maxEntries, b) == LastN(s + [b], maxEntries)
  {
    var d := if |s| < maxEntries then 0 else |s| + 1 - maxEntries;
    assert Push(LastN(s, maxEntries), maxEntries, b) == s[d..] + [b] == (s + [b])[d..];
  }

  /** Any number of additions leaves exactly the most recent `maxEntries` blocks. */
  lemma {:induction false} PushAllKeepsMostRecent(s: seq<IndexedBlock>, maxEntries: nat, bs: seq<IndexedBlock>)
    requires 0 < maxEntries && |s| <= maxEntries
    ensures PushAll(s, maxEntries, bs) == LastN(s + bs, maxEntries)
  {
    if |bs| == 0 {
      assert s + bs == s;
    } else {
      hide Push, LastN;
      var front, last := bs[..|bs| - 1], bs[|bs| - 1];
      PushAllKeepsMostRecent(s, maxEntries, front);
      PushKeepsMostRecent(s + front, maxEntries, last);
      assert s + bs == (s + front) + [last];
    }
  }

  /** The position of the last block at height `h`; 0 when there is none. */
  function LastIndexAt(s: seq<IndexedBlock>, h: int): (i: nat)
    ensures |s| > 0 ==> i < |s|
    ensures (exists j | 0 <= j < |s| :: s[j].height == h) ==> i < |s| && s[i].height == h
    ensures forall j | i < j < |s| :: s[j].height != h
  {
    if |s| == 0 then 0
    else if s[|s| - 1].height == h then |s| - 1
    else
      var i := LastIndexAt(s[..|s| - 1], h);
      assert forall j | 0 <= j < |s| - 1 :: s[..|s| - 1][j] == s[j];
      i
  }

  /**
    The blocks from height `stop` to the tip, or None when `stop` is outside the cached range.
    A height that is inside the range but has no block yields the whole cache.
   */
  function LastBlocks(s: seq<IndexedBlock>, stop: Uint64): (r: Option<seq<IndexedBlock>>)
    requires |s| > 0
    ensures r.Some? ==> |r.value| > 0 && IsSuffix(r.value, s)
  {
    var h := ToInt32(stop);
    if h < s[0].height || s[|s| - 1].height < h then None
    else Some(s[LastIndexAt(s, h)..])
  }

  /** Linear search: the first block at height `target`. */
  function FindAt(s: seq<IndexedBlock>, target: Uint64): (r: Option<IndexedBlock>)
    ensures r.Some? ==> r.value in s && r.value.height == ToInt32(target)
    ensures r.None? <==> forall i | 0 <= i < |s| :: s[i].height != ToInt32(target)
  {
    if |s| == 0 then None
    else if s[0].height == ToInt32(target) then Some(s[0])
    else
      assert forall i | 0 < i < |s| :: s[i] == s[1..][i - 1];
      FindAt(s[1..], target)
  }

  /** `Trim`: a no-op below the limit, otherwise keep the most recent `maxEntries` blocks. */
  function TrimTo(s: seq<IndexedBlock>, maxEntries: nat): (r: seq<IndexedBlock>)
    ensures r == LastN(s, maxEntries)
  {
    if |s| < maxEntries then s else s[|s| - maxEntries..]
  }

  lemma SuffixOfSuffix<T>(s: seq<T>, d: nat, k: nat)
    requires d <= k <= |s|
    ensures s[d..][k - d..] == s[k..]
  {
  }

  lemma PushKeepsLinked(s: seq<IndexedBlock>, maxEntries: nat, b: IndexedBlock)
    requires Linked(s)
    requires |s| > 0 ==> Attaches(s[|s| - 1], b)
    ensures Linked(Push(s, maxEntries, b))
  {
    var t := Push(s, maxEntries, b);
    var d := |s| + 1 - |t|;
    forall i | 0 < i < |t| ensures Attaches(t[i - 1], t[i]) {
      assert t[i - 1] == s[i - 1 + d];
      if i < |t| - 1 {
        assert t[i] == s[i + d];
      }
    }
  }

  lemma LinkedSlice(s: seq<IndexedBlock>, i: nat, j: nat)
    requires Linked(s) && i <= j <= |s|
    ensures Linked(s[i..j])
  {
    forall k | 0 < k < j - i ensures Attaches(s[i..j][k - 1], s[i..j][k]) {
      assert Attaches(s[i + k - 1], s[i + k]);
    }
  }

  /**
    On a linked cache the range test is exact: the request fails just when the height is not cached,
    and otherwise yields the linked suffix that starts at that very height.
   */
  lemma LastBlocksOnChain(s: seq<IndexedBlock>, stop: Uint64)
    requires |s| > 0 && Linked(s) && 0 <= s[0].height && stop < TWO_TO_THE_31
    ensures LastBlocks(s, stop).Some? <==> s[0].height <= stop <= s[|s| - 1].height
    ensures LastBlocks(s, stop).Some? ==>
              var i := stop - s[0].height;
              && 0 <= i < |s|
              && LastBlocks(s, stop).value == s[i..]
              && s[i].height == stop
              && Linked(s[i..])
  {
    LinkedHeights(s);
    if s[0].height <= stop <= s[|s| - 1].height {
      var i := stop - s[0].height;
      assert s[i].height == stop;
      LinkedSlice(s, i, |s|);
      assert s[i..|s|] == s[i..];
    }
  }

  /** On a linked cache looking a block up by height and asking for the tail from that height agree. */
  lemma {:induction false} FindAgreesWithLastBlocks(s: seq<IndexedBlock>, stop: Uint64)
    requires |s| > 0 && Linked(s) && 0 <= s[0].height && stop < TWO_TO_THE_31
    ensures FindAt(s, stop).Some? <==> LastBlocks(s, stop).Some?
    ensures FindAt(s, stop).Some? ==> FindAt(s, stop).value == LastBlocks(s, stop).value[0]
  {
    LastBlocksOnChain(s, stop);
    LinkedHeights(s);
    if LastBlocks(s, stop).Some? {
      assert s[stop - s[0].height].height == stop;
    }
  }

  /** A height outside the range of a sorted list is not in it. */
  lemma NoneOutside(s: seq<IndexedBlock>, target: Uint64)
    requires |s| > 0 && NonDecreasing(s)
    requires ToInt32(target) < s[0].height || s[|s| - 1].height < ToInt32(target)
    ensures forall i | 0 <= i < |s| :: s[i].height != ToInt32(target)
  {
    assert forall i | 0 <= i < |s| :: s[0].height <= s[i].height <= s[|s| - 1].height;
  }

  /** On increasing heights at most one block can match, so any matching block is the linear search's. */
  lemma {:induction false} FindAtUnique(s: seq<IndexedBlock>, target: Uint64, k: nat)
    requires Increasing(s) && k < |s| && s[k].height == ToInt32(target)
    ensures FindAt(s, target) == Some(s[k])
  {
    var r := FindAt(s, target);
    assert s[k].height == ToInt32(target);
    var i :| 0 <= i < |s| && s[i] == r.value;
    assert i == k;
  }
}

/** The BTC cache itself: a window, moved by reslicing, over an array of block pointers. */
module BtcCache {
  import opened Prelude
  import opened BtcTypes
  import opened BoundedCache

  datatype CacheError = EmptyCache | InvalidMaxEntries | TooManyEntries | UnsortedBlocks

  method NewBTCCache(maxEntries: nat) returns (r: Result<BTCCache, CacheError>)
    ensures r == Err(InvalidMaxEntries) <==> maxEntries == 0
    ensures r.Ok? <==> maxEntries != 0
    ensures r.Ok? ==>
              && fresh(r.value) && fresh(r.value.data)
              && r.value.Valid() && r.value.Released()
              && r.value.maxEntries == maxEntries && r.value.Blocks() == []
  {
    if maxEntries == 0 {
      return Err(InvalidMaxEntries);
    }
    var cache := new BTCCache(maxEntries);
    return Ok(cache);
  }

  class BTCCache {
    // the backing array and the window `data[off..off + len]` onto it; `None` is Go's nil
    var data: array<Option<IndexedBlock>>
    var off: nat
    var len: nat
    var maxEntries: nat

    ghost predicate Valid()
      reads this, data
    {
      && off + len <= data.Length
      && forall i | off <= i < off + len :: data[i].Some?
    }

    /** The cached blocks, oldest first. */
    ghost function Blocks(): (s: seq<IndexedBlock>)
      requires Valid()
      reads this, data
      ensures |s| == len
    {
      seq(len, i requires 0 <= i < len && Valid() reads this, data => data[off + i].value)
    }

    /** No slot outside the window holds on to a block, so evicted blocks can be garbage-collected. */
    ghost predicate Released()
      reads this, data
    {
      forall i | 0 <= i < data.Length && !(off <= i < off + len) :: data[i].None?
    }

    constructor (maxEntries: nat)
      ensures Valid() && Released() && fresh(data)
      ensures this.maxEntries == maxEntries && Blocks() == []
    {
      data := new Option<IndexedBlock>[maxEntries](_ => None);
      off, len, this.maxEntries := 0, 0, maxEntries;
    }

    /** Moves the window to a larger array. */
    method Grow()
      requires Valid()
      modifies this`data, this`off
      ensures Valid() && Released() && fresh(data) && off + len < data.Length
      ensures Blocks() == old(Blocks())
    {
      var larger := new Option<IndexedBlock>[2 * len + 1](_ => None);
      forall i | 0 <= i < len {
        larger[i] := data[off + i];
      }
      data, off := larger, 0;
    }

    /** Go's `append` for one element: in place while there is capacity, else into a larger array. */
    method Append(b: IndexedBlock)
      requires Valid()
      modifies this`data, this`off, this`len, data
      ensures Valid() && (data == old(data) || fresh(data))
      ensures Blocks() == old(Blocks()) + [b]
      ensures old(Released()) ==> Released()
    {
      if off + len == data.Length {
        Grow();
      }
      data[off + len] := Some(b);
      len := len + 1;
      assert Blocks() == old(Blocks()) + [b];
    }

    /** `add`: its panic on an over-full cache is excluded by the precondition. */
    method Add(b: IndexedBlock)
      requires Valid() && 0 < maxEntries && len <= maxEntries
      modifies this`data, this`off, this`len, data
      ensures Valid() && (data == old(data) || fresh(data))
      ensures Blocks() == Push(old(Blocks()), maxEntries, b)
      ensures len <= maxEntries
      ensures old(Released()) ==> Released()
    {
      ghost var before := Blocks();
      if len == maxEntries {
        data[off] := None;
        off, len := off + 1, len - 1;
        assert Blocks() == before[1..];
      }
      Append(b);
    }

    method Init(ibs: seq<IndexedBlock>) returns (r: Result<(), CacheError>)
      requires Valid() && 0 < maxEntries && len <= maxEntries
      modifies this`data, this`off, this`len, data
      ensures Valid() && (data == old(data) || fresh(data)) && len <= maxEntries
      ensures old(Released()) ==> Released()
      ensures r == Err(TooManyEntries) <==> |ibs| > maxEntries
      ensures r == Err(UnsortedBlocks) <==> |ibs| <= maxEntries && !NonDecreasing(ibs)
      ensures r.Ok? <==> |ibs| <= maxEntries && NonDecreasing(ibs)
      ensures Blocks() == if r.Ok? then LastN(old(Blocks()) + ibs, maxEntries) else old(Blocks())
    {
      if |ibs| > maxEntries {
        return Err(TooManyEntries);
      }
      var sorted := SortedByHeight(ibs);
      if !sorted {
        return Err(UnsortedBlocks);
      }
      ghost var before := Blocks();
      for i := 0 to |ibs|
        invariant Valid() && len <= maxEntries
        invariant data == old(data) || fresh(data)
        invariant old(Released()) ==> Released()
        invariant Blocks() == PushAll(before, maxEntries, ibs[..i])
      {
        assert ibs[..i + 1][..i] == ibs[..i];
        Add(ibs[i]);
      }
      assert ibs[..|ibs|] == ibs;
      PushAllKeepsMostRecent(before, maxEntries, ibs);
      return Ok(());
    }

    method First() returns (r: Option<IndexedBlock>)
      requires Valid()
      ensures r == if |Blocks()| == 0 then None else Some(Blocks()[0])
    {
      if len == 0 {
        return None;
      }
      return data[off];
    }

    method Tip() returns (r: Option<IndexedBlock>)
      requires Valid()
      ensures r == if |Blocks()| == 0 then None else Some(Blocks()[|Blocks()| - 1])
    {
      if len == 0 {
        return None;
      }
      return data[off + len - 1];
    }

    method RemoveLast() returns (r: Result<(), CacheError>)
      requires Valid()
      modifies this`len, data
      ensures Valid()
      ensures old(Released()) ==> Released()
      ensures r == if |old(Blocks())| == 0 then Err(EmptyCache) else Ok(())
      ensures Blocks() == if r.Ok? then old(Blocks())[..|old(Blocks())| - 1] else old(Blocks())
    {
      if len == 0 {
        return Err(EmptyCache);
      }
      ghost var before := Blocks();
      data[off + len - 1] := None;
      len := len - 1;
      assert Blocks() == before[..|before| - 1];
      return Ok(());
    }

    method RemoveAll()
      requires Valid()
      modifies this`data, this`off, this`len
      ensures Valid() && Released() && fresh(data)
      ensures Blocks() == []
    {
      data := new Option<IndexedBlock>[0];
      off, len := 0, 0;
    }

    /** The block at a position of the window. */
    method At(i: nat) returns (b: IndexedBlock)
      requires Valid() && i < len
      ensures b == Blocks()[i]
    {
      b := data[off + i].value;
    }

    /** The window is read back to front; Go panics on an empty cache, which no caller passes. */
    method GetLastBlocks(stopHeight: Uint64) returns (r: Option<seq<IndexedBlock>>)
      requires Valid() && len > 0
      ensures r == LastBlocks(Blocks(), stopHeight)
    {
      hide ToInt32, Valid, Released, Blocks;
      ghost var s := Blocks();
      var first := At(0);
      var last := At(len - 1);
      if ToInt32(stopHeight) < first.height || last.height < ToInt32(stopHeight) {
        return None;
      }
      var j := LastPosition(ToInt32(stopHeight));
      var blocks := Slice(j, len);
      assert s[..len] == s;
      assert blocks == s[..len][j..];
      return Some(blocks);
    }

    /** The loop of `GetLastBlocks`. */
    method LastPosition(h: Int32) returns (j: nat)
      requires Valid() && len > 0
      ensures j == LastIndexAt(Blocks(), h) && j < len
    {
      hide Valid, Released, Blocks;
      ghost var s := Blocks();
      j := 0;
      var i := len - 1;
      assert s[..len] == s;
      while i >= 0
        invariant -1 <= i < len && j == 0
        invariant LastIndexAt(s, h) == LastIndexAt(s[..i + 1], h)
      {
        ghost var front := s[..i + 1];
        assert front[..i] == s[..i] && front[i] == s[i];
        var b := At(i);
        if b.height == h {
          j := i;
          return;
        }
        i := i - 1;
      }
    }

    method GetAllBlocks() returns (r: seq<IndexedBlock>)
      requires Valid()
      ensures r == Blocks()
    {
      r := Slice(0, len);
    }

    /** The blocks at window positions `from` up to `to`. */
    method Slice(from: nat, to: nat) returns (r: seq<IndexedBlock>)
      requires Valid() && from <= to <= len
      ensures r == Blocks()[from..to]
    {
      r := [];
      for i := from to to
        invariant r == Blocks()[from..i]
      {
        r := r + [data[off + i].value];
      }
    }

    /** Unlike the other removals this one leaves the moved-out pointers in the backing array. */
    method TrimConfirmedBlocks(k: nat) returns (res: seq<IndexedBlock>)
      requires Valid()
      modifies this`off, this`len
      ensures Valid()
      ensures res + Blocks() == old(Blocks())
      ensures Blocks() == LastN(old(Blocks()), k)
      ensures |res| > 0 && old(Released()) ==> !Released()
    {
      var l := len;
      if l <= k {
        return [];
      }
      ghost var before := Blocks();
      res := Slice(0, l - k);
      assert data[off].Some?;
      off, len := off + (l - k), k;
      assert Blocks() == before[l - k..];
    }

    /** Binary search. `rightBound` is a uint64 in the source: that it is a `nat` here says it never wraps. */
    method FindBlock(blockHeight: Uint64) returns (r: Option<IndexedBlock>)
      requires Valid() && len > 0 && NonDecreasing(Blocks())
      ensures r.Some? ==> r.value in Blocks() && r.value.height == ToInt32(blockHeight)
      ensures r.None? <==> forall b | b in Blocks() :: b.height != ToInt32(blockHeight)
      ensures Increasing(Blocks()) ==> r == FindAt(Blocks(), blockHeight)
    {
      hide ToInt32, Valid, Released, FindAt, Blocks;
      ghost var s := Blocks();
      var target := ToInt32(blockHeight);
      var first := At(0);
      var last := At(len - 1);
      if target < first.height || last.height < target {
        NoneOutside(s, blockHeight);
        return None;
      }
      var leftBound: nat, rightBound: nat := 0, len - 1;
      while leftBound <= rightBound
        invariant leftBound <= rightBound + 1 <= len
        invariant forall i | 0 <= i < leftBound :: s[i].height < target
        invariant forall i | rightBound < i < len :: target < s[i].height
        invariant s[0].height <= target
        decreases rightBound + 1 - leftBound
      {
        var midPoint := leftBound + (rightBound - leftBound) / 2;
        var b := At(midPoint);
        if b.height == target {
          if Increasing(s) {
            FindAtUnique(s, blockHeight, midPoint);
          }
          return Some(b);
        }
        if b.height > target {
          rightBound := midPoint - 1;
        } else {
          leftBound := midPoint + 1;
        }
      }
      return None;
    }

    method Resize(maxEntries: nat) returns (r: Result<(), CacheError>)
      requires Valid()
      modifies this`maxEntries
      ensures Valid() && Blocks() == old(Blocks())
      ensures old(Released()) ==> Released()
      ensures r == if maxEntries == 0 then Err(InvalidMaxEntries) else Ok(())
      ensures this.maxEntries == if r.Ok? then maxEntries else old(this.maxEntries)
    {
      if maxEntries == 0 {
        return Err(InvalidMaxEntries);
      }
      this.maxEntries := maxEntries;
      return Ok(());
    }

    method Trim()
      requires Valid()
      modifies this`off, this`len, data
      ensures Valid()
      ensures old(Released()) ==> Released()
      ensures Blocks() == TrimTo(old(Blocks()), maxEntries)
      ensures len <= maxEntries
    {
      if len < maxEntries {
        return;
      }
      var drop := len - maxEntries;
      ReleaseFirst(drop);
      off, len := off + drop, maxEntries;
      assert Blocks() == old(Blocks())[drop..];
    }

    /** Lets go of the first `n` blocks of the window, which the caller then leaves. */
    method ReleaseFirst(n: nat)
      requires Valid() && n <= len
      modifies data
      ensures forall i | 0 <= i < data.Length ::
                data[i] == if off <= i < off + n then None else old(data[i])
    {
      forall i | off <= i < off + n {
        data[i] := None;
      }
    }
  }

  /** `sort.SliceIsSorted`: no element is smaller than its predecessor. */
  method SortedByHeight(ibs: seq<IndexedBlock>) returns (sorted: bool)
    ensures sorted <==> NonDecreasing(ibs)
  {
    var i := 1;
    while i < |ibs|
      invariant 1 <= i
      invariant forall a, b | 0 <= a < b < i && b < |ibs| :: ibs[a].height <= ibs[b].height
    {
      if ibs[i].height < ibs[i - 1].height {
        return false;
      }
      i := i + 1;
    }
    return true;
  }
}
