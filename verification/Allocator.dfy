/**
 The slab allocator as it changes bitmaps, links and page contents in place, proved to compute `Slab.Malloc` and
 `Slab.Free`.
 */
module Allocator {
  import opened Optional
  import opened Slab

  /** One more slot of the search. */
  lemma SlotDecides(block: Block, coarse: nat, fine: nat)
    requires Shaped(block) && coarse < 32 && fine < 32
    ensures var slot := 32 * coarse + fine;
            FreeFrom(block, slot)
            == if block.blockSize * (32 * coarse + fine + 1) > DATA_SIZE then None
               else if block.allocatedFine[coarse][fine] then FreeFrom(block, slot + 1)
               else Some(slot)
  {
    assert (32 * coarse + fine) / 32 == coarse && (32 * coarse + fine) % 32 == fine;
  }

  /** The search in one block, slot by slot, that gives up at the first slot that would reach the metadata. */
  method SearchBlock(block: Block) returns (found: bool, coarse: nat, fine: nat)
    requires Shaped(block)
    ensures found ==> coarse < 32 && fine < 32 && FirstFree(block) == Some(32 * coarse + fine)
    ensures !found ==> FirstFree(block) == None
  {
    if IsFull(block.allocatedCoarse) {
      return false, 0, 0;
    }
    coarse, fine := 0, 0;
    ghost var wanted := FreeFrom(block, 0);
    while coarse < 32
      invariant coarse <= 32 && wanted == FreeFrom(block, 32 * coarse)
    {
      fine := 0;
      while fine < 32
        invariant fine <= 32 && wanted == FreeFrom(block, 32 * coarse + fine)
      {
        SlotDecides(block, coarse, fine);
        if block.blockSize * (32 * coarse + fine + 1) > DATA_SIZE {
          return false, 0, 0;
        }
        if !block.allocatedFine[coarse][fine] {
          return true, coarse, fine;
        }
        fine := fine + 1;
      }
      coarse := coarse + 1;
    }
    return false, 0, 0;
  }

  /** `reserveBlock`: the summary bit is set first and cleared again if some bit of the word is clear. */
  method ReserveSlot(block: Block, coarse: nat, fine: nat, slot: nat) returns (result: Block)
    requires Shaped(block) && HasSlot(block.blockSize, slot) && coarse == slot / 32 && fine == slot % 32
    ensures result == Reserve(block, slot)
  {
    var word := block.allocatedFine[coarse][fine := true];
    var full := AllSet(word);
    SlotEnds(block.blockSize, slot);
    var offset := block.blockSize * slot;
    result := Block(Zeroed(block.data, offset, block.blockSize),
                    block.allocatedFine[coarse := word], block.allocatedCoarse[coarse := full], block.blockSize);
  }

  lemma SlotParts(coarse: nat, fine: nat)
    requires fine < 32
    ensures (32 * coarse + fine) / 32 == coarse && (32 * coarse + fine) % 32 == fine
  {
  }

  /** The loop of `reserveBlock` over the bits of a word. */
  method AllSet(word: seq<bool>) returns (full: bool)
    ensures full <==> IsFull(word)
  {
    for i := 0 to |word|
      invariant forall j | 0 <= j < i :: word[j]
    {
      if !word[i] {
        return false;
      }
    }
    return true;
  }

  class Allocator {
    /** The first page of each chain, 0 for none. */
    const allocationData: array<nat>
    var blocks: map<nat, Block>
    var next: map<nat, nat>
    var previous: map<nat, nat>
    ghost var chains: seq<seq<nat>>

    ghost function Abs(): Heap
      reads this
    {
      Heap(chains, blocks)
    }

    ghost predicate Valid()
      reads this, allocationData
    {
      && Sane(Abs()) && 0 !in blocks && allocationData.Length == 12
      && (forall k: nat | k < 12 :: 0 !in chains[k])
      && Apart(chains) && (forall k: nat | k < 12 :: Linked(allocationData[k], next, previous, chains[k]))
    }

    constructor ()
      ensures Valid() && fresh(allocationData)
      ensures Abs() == Heap(seq(12, _ => []), map[])
    {
      allocationData := new nat[12](_ => 0);
      blocks, next, previous := map[], map[], map[];
      chains := seq(12, _ => []);
    }

    /** A cleared page becomes the last block of chain `k`. */
    method AppendBlock(k: nat, last: nat, block: nat)
      requires Valid() && 1 <= k <= 10 && block != 0 && block !in blocks
      requires last == LastOf(chains[k])
      modifies this, allocationData
      ensures Valid()
      ensures Abs() == Heap(old(chains)[k := old(chains)[k] + [block]], old(blocks)[block := FreshBlock(k)])
    {
      AppendIsSane(Abs(), k, block);
      AppendStaysApart(Abs(), k, block);
      ghost var oldNext, oldPrevious, oldChains := next, previous, chains;
      AppendedLinks(allocationData[k], next, previous, chains[k], block);
      blocks := blocks[block := FreshBlock(k)];
      next, previous := next[block := 0], previous[block := 0];
      if last != 0 {
        previous := previous[block := last];
        next := next[last := block];
      } else {
        allocationData[k] := block;
      }
      chains := chains[k := chains[k] + [block]];
      forall n: nat | n < 12 ensures Linked(allocationData[n], next, previous, chains[n]) {
        if n != k {
          OtherLinks(allocationData[n], oldNext, oldPrevious, oldChains, k, n, block);
        }
      }
    }

    method ReserveBlock(page: nat, coarse: nat, fine: nat) returns (address: nat)
      requires Valid() && page in blocks && coarse < 32 && fine < 32
      requires HasSlot(blocks[page].blockSize, 32 * coarse + fine)
      modifies `blocks
      ensures Valid()
      ensures Abs() == Heap(old(chains), old(blocks)[page := Reserve(old(blocks)[page], 32 * coarse + fine)])
      ensures address == AddressOf(Place(page, 32 * coarse + fine), old(blocks)[page].blockSize)
    {
      SlotParts(coarse, fine);
      address := TakeSlot(page, coarse, fine, 32 * coarse + fine);
    }

    method TakeSlot(page: nat, coarse: nat, fine: nat, slot: nat) returns (address: nat)
      requires Valid() && page in blocks && HasSlot(blocks[page].blockSize, slot)
      requires coarse == slot / 32 && fine == slot % 32
      modifies `blocks
      ensures Valid() && Abs() == Heap(old(chains), old(blocks)[page := Reserve(old(blocks)[page], slot)])
      ensures address == AddressOf(Place(page, slot), old(blocks)[page].blockSize)
    {
      var block := blocks[page];
      ReserveEffect(block, slot);
      BlockUpdateIsSane(Abs(), page, Reserve(block, slot));
      address := AddressOf(Place(page, slot), block.blockSize);
      var result := ReserveSlot(block, coarse, fine, slot);
      blocks := blocks[page := result];
    }

    /** `_malloc` for sizes 1 to 1023; `newPage` is what `getPage` would yield. */
    method Malloc(size: nat, newPage: nat) returns (address: nat)
      requires Valid() && 1 <= size < SMALL_LIMIT && newPage != 0 && newPage !in blocks
      modifies this, allocationData
      ensures Valid()
      ensures Abs() == Slab.Malloc(old(Abs()), size, newPage)
      ensures address == MallocAddress(old(Abs()), size, newPage)
    {
      SlotFitsRequest(size);
      var sizeBit := SizeBit(size);
      ghost var chain := chains[sizeBit];
      var block, last := allocationData[sizeBit], 0;
      ghost var n: nat := 0;
      SearchStarts(Abs(), sizeBit);
      while true
        invariant Valid() && Abs() == old(Abs()) && n <= |chain|
        invariant block == PageAt(chain, n) && last == LastOf(chain[..n])
        invariant SearchContinues(old(blocks), sizeBit, chain, n)
        decreases |chain| - n
      {
        SearchStep(blocks, sizeBit, chain, n);
        if block == 0 {
          block := newPage;
          assert n == |chain| && chain[..n] == chain;
          AppendBlock(sizeBit, last, block);
          FreshBlockHasRoom(sizeBit);
        }
        var found, coarse, fine := SearchBlock(blocks[block]);
        if found {
          MallocYields(old(Abs()), size, newPage, sizeBit);
          address := ReserveBlock(block, coarse, fine);
          return;
        }
        assert Linked(allocationData[sizeBit], next, previous, chain);
        last := block;
        block := next[block];
        n := n + 1;
        assert chain[..n][n - 1] == last;
      }
    }

    /** `free` of the null address or of an address in a slot. */
    method Free(location: nat)
      requires Valid() && (location != 0 ==> InBlock(Abs(), location))
      modifies `blocks
      ensures Valid() && Abs() == Slab.Free(old(Abs()), location)
    {
      if location == 0 {
        return;
      }
      var page := location / PAGE_SIZE;
      var block := blocks[page];
      var index := location % PAGE_SIZE / block.blockSize;
      var coarse, fine := index / 32, index % 32;
      ReleaseEffect(block, index);
      BlockUpdateIsSane(Abs(), page, Release(block, index));
      var word := block.allocatedFine[coarse][fine := false];
      blocks := blocks[page := Block(block.data, block.allocatedFine[coarse := word],
                                     block.allocatedCoarse[coarse := false], block.blockSize)];
    }
  }

  /** A sound block of the same size may take another's place. */
  lemma BlockUpdateIsSane(h: Heap, page: nat, block: Block)
    requires Sane(h) && page in h.blocks && Sound(block) && block.blockSize == h.blocks[page].blockSize
    ensures Sane(Heap(h.chains, h.blocks[page := block]))
  {
    var t := Heap(h.chains, h.blocks[page := block]);
    assert forall n: nat, p: nat | Chained(h, n, p) :: Chained(t, n, p);
    forall n: nat | n < 12 ensures AllChained(t, n, t.chains[n]) {
      assert AllChained(h, n, h.chains[n]);
    }
  }

  /** No block among the first `n` of the chain had room. */
  ghost predicate SearchContinues(blocks: map<nat, Block>, k: nat, chain: seq<nat>, n: nat) {
    && n <= |chain|
    && (forall i | 0 <= i < |chain| ::
          chain[i] in blocks && Sound(blocks[chain[i]]) && blocks[chain[i]].blockSize == Power2(k))
    && FirstRoom(blocks, chain) == FirstRoom(blocks, chain[n..])
  }

  lemma SearchStarts(h: Heap, k: nat)
    requires Sane(h) && k < 12
    ensures SearchContinues(h.blocks, k, h.chains[k], 0)
  {
    assert AllChained(h, k, h.chains[k]);
    assert h.chains[k][0..] == h.chains[k];
    forall i | 0 <= i < |h.chains[k]|
      ensures var p := h.chains[k][i]; p in h.blocks && Sound(h.blocks[p]) && h.blocks[p].blockSize == Power2(k)
    {
      assert Chained(h, k, h.chains[k][i]);
    }
  }

  /** What the search in block `n` of the chain decides. */
  lemma SearchStep(blocks: map<nat, Block>, k: nat, chain: seq<nat>, n: nat)
    requires SearchContinues(blocks, k, chain, n)
    ensures n == |chain| ==> FirstRoom(blocks, chain) == None
    ensures n < |chain| && FirstFree(blocks[chain[n]]).None? ==> SearchContinues(blocks, k, chain, n + 1)
    ensures n < |chain| && FirstFree(blocks[chain[n]]).Some? ==>
              FirstRoom(blocks, chain) == Some(Place(chain[n], FirstFree(blocks[chain[n]]).value))
  {
    if n < |chain| {
      assert chain[n..][1..] == chain[n + 1..];
    }
  }

  /** The slot and heap of `Slab.Malloc` in terms of the place found. */
  lemma MallocYields(h: Heap, size: nat, newPage: nat, k: nat)
    requires Sane(h) && 1 <= size < SMALL_LIMIT && k == SizeBit(size) <= 10 && newPage !in h.blocks
    ensures match FirstRoom(h.blocks, h.chains[k])
            case Some(place) =>
              && Chained(h, k, place.page) && HasSlot(Power2(k), place.slot)
              && Slab.Malloc(h, size, newPage)
                  == Heap(h.chains, h.blocks[place.page := Reserve(h.blocks[place.page], place.slot)])
              && MallocAddress(h, size, newPage) == AddressOf(place, Power2(k))
            case None =>
              && Sound(FreshBlock(k)) && HasSlot(Power2(k), 0)
              && Slab.Malloc(h, size, newPage)
                 == Heap(h.chains[k := h.chains[k] + [newPage]],
                         h.blocks[newPage := FreshBlock(k)][newPage := Reserve(FreshBlock(k), 0)])
              && MallocAddress(h, size, newPage) == AddressOf(Place(newPage, 0), Power2(k))
  {
    PlaceIsFree(h, k, newPage);
    FreshBlockHasRoom(k);
    FirstFreeIsLowest(FreshBlock(k));
  }

  /** No page is in two places of the chains. */
  ghost predicate Apart(chains: seq<seq<nat>>) {
    forall k: nat, i: nat, m: nat, j: nat |
      k < |chains| && i < |chains[k]| && m < |chains| && j < |chains[m]| && chains[k][i] == chains[m][j] ::
      k == m && i == j
  }

  /** The links follow the pages of a chain in order, in both directions. */
  ghost predicate Linked(head: nat, next: map<nat, nat>, previous: map<nat, nat>, chain: seq<nat>) {
    && head == PageAt(chain, 0)
    && (forall i: nat | i < |chain| :: chain[i] in next && next[chain[i]] == PageAt(chain, i + 1))
    && (forall i: nat | i < |chain| :: chain[i] in previous && previous[chain[i]] == if i > 0 then chain[i - 1] else 0)
  }

  function LastOf(chain: seq<nat>): nat {
    if chain == [] then 0 else chain[|chain| - 1]
  }

  lemma AppendStaysApart(h: Heap, k: nat, page: nat)
    requires Sane(h) && Apart(h.chains) && k < 12 && page !in h.blocks
    ensures Apart(h.chains[k := h.chains[k] + [page]])
    ensures forall n: nat | n < 12 :: page !in h.chains[n]
  {
    forall n: nat, i: nat | n < 12 && i < |h.chains[n]| ensures h.chains[n][i] != page {
      assert AllChained(h, n, h.chains[n]) && Chained(h, n, h.chains[n][i]);
    }
  }

  /** The links after `block` was appended to `chain`. */
  lemma AppendedLinks(head: nat, next: map<nat, nat>, previous: map<nat, nat>, chain: seq<nat>, block: nat)
    requires Linked(head, next, previous, chain) && block !in chain && block != 0 && 0 !in chain
    requires forall i: nat, j: nat | i < j < |chain| :: chain[i] != chain[j]
    ensures chain == [] ==> Linked(block, next[block := 0], previous[block := 0], chain + [block])
    ensures chain != [] ==> Linked(head, next[block := 0][LastOf(chain) := block],
                                   previous[block := 0][block := LastOf(chain)], chain + [block])
  {
  }

  lemma OtherLinks(head: nat, next: map<nat, nat>, previous: map<nat, nat>, chains: seq<seq<nat>>, k: nat, n: nat,
                   block: nat)
    requires k < |chains| && n < |chains| && k != n && Apart(chains) && block !in chains[n]
    requires Linked(head, next, previous, chains[n])
    ensures Linked(head, next[block := 0], previous[block := 0], chains[n])
    ensures chains[k] != [] ==> Linked(head, next[block := 0][LastOf(chains[k]) := block],
                                       previous[block := 0][block := LastOf(chains[k])], chains[n])
  {
    if chains[k] != [] {
      assert forall i: nat | i < |chains[n]| :: chains[n][i] != chains[k][|chains[k]| - 1];
    }
  }

  function PageAt(chain: seq<nat>, i: nat): nat {
    if i < |chain| then chain[i] else 0
  }

  lemma AppendIsSane(h: Heap, k: nat, page: nat)
    requires Sane(h) && 1 <= k <= 10 && page !in h.blocks
    ensures Sane(Heap(h.chains[k := h.chains[k] + [page]], h.blocks[page := FreshBlock(k)]))
  {
    var t := Heap(h.chains[k := h.chains[k] + [page]], h.blocks[page := FreshBlock(k)]);
    FreshBlockHasRoom(k);
    assert forall n: nat, p: nat | Chained(h, n, p) :: Chained(t, n, p);
    forall n: nat | n < 12 ensures AllChained(t, n, t.chains[n]) {
      assert AllChained(h, n, h.chains[n]);
    }
  }
}
