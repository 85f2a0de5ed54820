/** The blocks removed since the last time the reporter was in step with the best chain. */
module ReorgList {
  import opened Prelude
  import opened BtcTypes

  /** A removed block is recorded with its height and header. */
  type RemovedBlock = IndexedBlock

  class ReorgList {
    var removedBlocks: seq<RemovedBlock>
    var workOfRemovedBlocks: nat

    /** The running total is the work of the recorded blocks. */
    ghost predicate Valid()
      reads this
    {
      workOfRemovedBlocks == Work(removedBlocks)
    }

    constructor ()
      ensures Valid() && removedBlocks == []
    {
      removedBlocks, workOfRemovedBlocks := [], 0;
    }

    method AddRemovedBlock(block: RemovedBlock)
      requires Valid()
      modifies this
      ensures Valid()
      ensures removedBlocks == old(removedBlocks) + [block]
      ensures workOfRemovedBlocks == old(workOfRemovedBlocks) + block.header.work
    {
      var newWork := block.header.work + workOfRemovedBlocks;
      removedBlocks := removedBlocks + [block];
      workOfRemovedBlocks := newWork;
      assert removedBlocks[..|removedBlocks| - 1] == old(removedBlocks);
    }

    method GetLastRemovedBlock() returns (r: Option<RemovedBlock>)
      ensures r == if |removedBlocks| == 0 then None else Some(removedBlocks[|removedBlocks| - 1])
    {
      if |removedBlocks| == 0 {
        return None;
      }
      return Some(removedBlocks[|removedBlocks| - 1]);
    }

    method Clear()
      modifies this
      ensures Valid() && removedBlocks == [] && workOfRemovedBlocks == 0
    {
      removedBlocks, workOfRemovedBlocks := [], 0;
    }
  }
}
