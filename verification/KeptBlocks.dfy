/** The blocks the chunker keeps (`non_blank_blocks`): those that hold a character other than whitespace. */
module KeptBlocks {
  import opened Utf8
  import opened ChunkSplit

  /** Some character of the block's text is not whitespace. */
  ghost predicate HoldsText(b: Block) {
    exists i :: 0 <= i < |b.text| && IsBoundary(b.text, i) && !IsWhitespaceAt(b.text, i)
  }

  /** Byte `p` lies in a block that holds text. */
  ghost predicate InText(blocks: seq<Block>, p: nat) {
    exists i :: 0 <= i < |blocks| && HoldsText(blocks[i]) && blocks[i].charStart <= p < blocks[i].charEnd
  }

  /** The blocks that hold text are source slices, ordered and disjoint; blank blocks may be anything. */
  ghost predicate TextOfSource(src: Bytes, blocks: seq<Block>) {
    && (forall i :: 0 <= i < |blocks| && HoldsText(blocks[i]) ==> blocks[i].OfSource(src))
    && (forall i, j :: 0 <= i < j < |blocks| && HoldsText(blocks[i]) && HoldsText(blocks[j]) ==>
          blocks[i].charEnd <= blocks[j].charStart)
  }

  /** `kept` are the blocks of `all` at the increasing places `at`, which are exactly those of blocks that hold text. */
  ghost predicate KeptAt(all: seq<Block>, kept: seq<Block>, at: seq<nat>) {
    && |at| == |kept| && (forall j, k :: 0 <= j < k < |at| ==> at[j] < at[k])
    && (forall k :: 0 <= k < |at| ==> at[k] < |all| && HoldsText(all[at[k]]) && kept[k] == all[at[k]])
    && (forall i :: 0 <= i < |all| && HoldsText(all[i]) ==> i in at)
  }

  ghost predicate Kept(all: seq<Block>, kept: seq<Block>) {
    exists at :: KeptAt(all, kept, at)
  }

  function NonBlankBlocks(blocks: seq<Block>): seq<Block> {
    if blocks == [] then []
    else NonBlankBlocks(blocks[..|blocks| - 1])
         + (var b := blocks[|blocks| - 1]; if IsBlank(b.text) then [] else [b])
  }

  lemma KeepsNext(all: seq<Block>, kept: seq<Block>, at: seq<nat>, b: Block)
    requires KeptAt(all, kept, at) && HoldsText(b)
    ensures KeptAt(all + [b], kept + [b], at + [|all|])
  {
    var at' := at + [|all|];
    forall i | 0 <= i < |all + [b]| && HoldsText((all + [b])[i])
      ensures i in at'
    {
      assert i == |all| ==> at'[|at|] == i;
    }
  }

  lemma SkipsNext(all: seq<Block>, kept: seq<Block>, at: seq<nat>, b: Block)
    requires KeptAt(all, kept, at) && !HoldsText(b)
    ensures KeptAt(all + [b], kept, at)
  {
  }

  /** The kept blocks are exactly the blocks that hold text, each once and in the given order. */
  lemma {:induction false} NonBlankKept(all: seq<Block>) returns (at: seq<nat>)
    ensures KeptAt(all, NonBlankBlocks(all), at)
    decreases |all|
  {
    if all == [] {
      return [];
    }
    var n := |all| - 1;
    at := NonBlankKept(all[..n]);
    assert all == all[..n] + [all[n]];
    if IsBlank(all[n].text) {
      SkipsNext(all[..n], NonBlankBlocks(all[..n]), at, all[n]);
      assert NonBlankBlocks(all) == NonBlankBlocks(all[..n]);
    } else {
      KeepsNext(all[..n], NonBlankBlocks(all[..n]), at, all[n]);
      at := at + [n];
    }
  }

  lemma {:induction false} PlaceAtLeast(at: seq<nat>, k: nat)
    requires k < |at| && forall i, j :: 0 <= i < j < |at| ==> at[i] < at[j]
    ensures at[k] >= k
  {
    if k > 0 {
      PlaceAtLeast(at, k - 1);
    }
  }

  lemma OnePlace(at: seq<nat>)
    requires 0 in at && forall k :: 0 <= k < |at| ==> at[k] < 1
    requires forall i, j :: 0 <= i < j < |at| ==> at[i] < at[j]
    ensures |at| == 1 && at[0] == 0
  {
    PlaceAtLeast(at, |at| - 1);
  }

  /** A single block that holds text is kept. */
  lemma KeptAlone(b: Block, kept: seq<Block>)
    requires Kept([b], kept) && HoldsText(b)
    ensures kept == [b]
  {
    var at :| KeptAt([b], kept, at);
    assert HoldsText([b][0]);
    OnePlace(at);
    assert kept[0] == b;
  }

  /** So they are ordered disjoint source slices, and hold the bytes of the blocks that hold text. */
  lemma KeptOfSource(src: Bytes, all: seq<Block>, kept: seq<Block>, at: seq<nat>)
    requires KeptAt(all, kept, at) && TextOfSource(src, all)
    ensures OfSource(src, kept)
    ensures forall p: nat :: InText(all, p) <==> InBlocks(kept, p)
  {
    forall p: nat | InText(all, p)
      ensures InBlocks(kept, p)
    {
      var i :| 0 <= i < |all| && HoldsText(all[i]) && all[i].charStart <= p < all[i].charEnd;
      var k :| 0 <= k < |at| && at[k] == i;
      assert kept[k] == all[i];
    }
    forall p: nat | InBlocks(kept, p)
      ensures InText(all, p)
    {
      var k :| 0 <= k < |kept| && kept[k].charStart <= p < kept[k].charEnd;
      assert HoldsText(all[at[k]]);
    }
  }
}
