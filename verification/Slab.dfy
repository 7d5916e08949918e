/**
 The slab allocator: per power of two a chain of one-page blocks.  A block holds 3948 bytes of slots, then a bit
 per slot, a summary bit per 32 slots, and links.  Addresses are page * 4096 + offset.
 */
module Slab {
  import opened Optional

  const PAGE_SIZE := 4096

  /** The offset of the metadata in a block. */
  const DATA_SIZE := 3948

  /** Requests from this size on get whole pages. */
  const SMALL_LIMIT := 1024

  /** The word `~0`. */
  predicate IsFull(word: seq<bool>) {
    forall i | 0 <= i < |word| :: word[i]
  }

  const EMPTY: seq<bool> := seq(32, _ => false)

  datatype Block = Block(data: seq<int>, allocatedFine: seq<seq<bool>>, allocatedCoarse: seq<bool>, blockSize: nat)

  /** The chain of pages per size bit, and the block in each page. */
  datatype Heap = Heap(chains: seq<seq<nat>>, blocks: map<nat, Block>)

  // ----- the layout of a block ---------------------------------------------------------------

  /** What stands behind the slots of a block, in order: 32 bitmap words, their summary, and four more words. */
  datatype Field = AllocatedFine(coarse: nat) | AllocatedCoarse | BlockSize | NextLink | PreviousLink | Magic

  predicate IsField(f: Field) {
    f.AllocatedFine? ==> f.coarse < 32
  }

  /** The place of a field among the 37 words. */
  function FieldIndex(f: Field): nat {
    match f
    case AllocatedFine(coarse) => coarse
    case AllocatedCoarse => 32
    case BlockSize => 33
    case NextLink => 34
    case PreviousLink => 35
    case Magic => 36
  }

  /** The offset of a field in its page: the last of the 37 four-byte words ends with the page. */
  function FieldOffset(f: Field): (offset: int)
  {
    4096 - 4 * (37 - FieldIndex(f))
  }

  /** The slots take up all that is left before the first field; the fields follow each other without a gap, do not
      overlap, and end with the page. */
  lemma LayoutFillsPage(f: Field, g: Field)
    requires IsField(f) && IsField(g)
    ensures FieldOffset(AllocatedFine(0)) == DATA_SIZE && FieldOffset(Magic) + 4 == PAGE_SIZE
    ensures DATA_SIZE <= FieldOffset(f) && FieldOffset(f) + 4 <= PAGE_SIZE
    ensures f != g ==> FieldOffset(f) + 4 <= FieldOffset(g) || FieldOffset(g) + 4 <= FieldOffset(f)
  {
  }

  // ----- sizes -------------------------------------------------------------------------------

  function Power2(n: nat): (p: nat)
    ensures p > 0
  {
    if n == 0 then 1 else 2 * Power2(n - 1)
  }

  function Log2(x: nat): nat
    requires x > 0
  {
    if x == 1 then 0 else 1 + Log2(x / 2)
  }

  function SizeBit(size: nat): nat
    requires size > 0
  {
    Log2(size) + 1
  }

  /** A slot is larger than the request, and at most twice as large; and exactly the sizes below 1024 have one of
      the ten slot sizes. */
  lemma {:induction false} SlotFitsRequest(size: nat)
    requires size > 0
    ensures size < Power2(SizeBit(size)) <= 2 * size
    ensures SizeBit(size) <= 10 <==> size < SMALL_LIMIT
  {
    if size > 1 {
      SlotFitsRequest(size / 2);
    }
    PowerTable(SizeBit(size));
  }

  lemma {:induction false} PowerTable(k: nat)
    ensures k <= 10 ==> Power2(k) <= 1024
    ensures k > 10 ==> Power2(k) >= 2048
    ensures k >= 1 ==> Power2(k) >= 2
  {
    if k > 11 {
      PowerTable(k - 1);
    } else {
      assert Power2(1) == 2 && Power2(2) == 4 && Power2(3) == 8 && Power2(4) == 16 && Power2(5) == 32;
      assert Power2(6) == 64 && Power2(7) == 128 && Power2(8) == 256 && Power2(9) == 512 && Power2(10) == 1024;
    }
  }

  // ----- one block ---------------------------------------------------------------------------

  predicate Shaped(b: Block) {
    && |b.data| == DATA_SIZE && |b.allocatedFine| == 32 && |b.allocatedCoarse| == 32
    && (forall c | 0 <= c < 32 :: |b.allocatedFine[c]| == 32)
    && 2 <= b.blockSize <= SMALL_LIMIT
  }

  /** A summary bit is set exactly when its word is full. */
  ghost predicate Indexed(b: Block)
    requires Shaped(b)
  {
    forall c | 0 <= c < 32 :: b.allocatedCoarse[c] <==> IsFull(b.allocatedFine[c])
  }

  ghost predicate Sound(b: Block) {
    Shaped(b) && Indexed(b)
  }

  predicate Bit(b: Block, i: nat)
    requires Shaped(b) && i < 1024
  {
    b.allocatedFine[i / 32][i % 32]
  }

  /** How many slots end before the metadata, of the 1024 that have a bit. */
  predicate HasSlot(blockSize: nat, i: nat) {
    i < 1024 && blockSize * (i + 1) <= DATA_SIZE
  }

  /** A block of slots of this size has as many as fit before the metadata, but no more than the bitmap has bits. */
  lemma SlotCount(blockSize: nat, i: nat)
    requires blockSize > 0
    ensures HasSlot(blockSize, i) <==> i < 32 * 32 && i < FieldOffset(AllocatedFine(0)) / blockSize
  {
    var n := DATA_SIZE / blockSize;
    assert blockSize * n <= DATA_SIZE < blockSize * (n + 1);
    if i < n {
      assert blockSize * (i + 1) <= blockSize * n;
    } else {
      assert blockSize * (n + 1) <= blockSize * (i + 1);
    }
  }

  /** A slot ends before the metadata. */
  lemma SlotEnds(blockSize: nat, i: nat)
    requires HasSlot(blockSize, i)
    ensures blockSize * i + blockSize <= DATA_SIZE
  {
    assert blockSize * (i + 1) == blockSize * i + blockSize;
  }

  /** The lowest free slot from `i` on. */
  function FreeFrom(b: Block, i: nat): (slot: Option<nat>)
    requires Shaped(b)
    decreases 1024 - i
  {
    if !HasSlot(b.blockSize, i) then None else if !Bit(b, i) then Some(i) else FreeFrom(b, i + 1)
  }

  /** The search in one block, which starts with a look at the summary. */
  function FirstFree(b: Block): (slot: Option<nat>)
    requires Shaped(b)
  {
    if IsFull(b.allocatedCoarse) then None else FreeFrom(b, 0)
  }

  function Zeroed(data: seq<int>, from: nat, count: nat): (r: seq<int>)
    requires from + count <= |data|
    ensures |r| == |data|
    ensures forall i | 0 <= i < |r| :: r[i] == if from <= i < from + count then 0 else data[i]
  {
    data[..from] + seq(count, _ => 0) + data[from + count..]
  }

  function WithBit(b: Block, slot: nat, value: bool): seq<bool>
    requires Shaped(b) && slot < 1024
  {
    b.allocatedFine[slot / 32][slot % 32 := value]
  }

  /** `reserveBlock`. */
  function Reserve(b: Block, slot: nat): Block
    requires Shaped(b) && HasSlot(b.blockSize, slot)
  {
    SlotEnds(b.blockSize, slot);
    Block(Zeroed(b.data, b.blockSize * slot, b.blockSize),
          b.allocatedFine[slot / 32 := WithBit(b, slot, true)],
          b.allocatedCoarse[slot / 32 := IsFull(WithBit(b, slot, true))],
          b.blockSize)
  }

  /** The bits that `free` clears. */
  function Release(b: Block, slot: nat): Block
    requires Shaped(b) && slot < 1024
  {
    Block(b.data,
          b.allocatedFine[slot / 32 := WithBit(b, slot, false)],
          b.allocatedCoarse[slot / 32 := false],
          b.blockSize)
  }

  /** A block just after its page was cleared. */
  function FreshBlock(k: nat): Block {
    Block(seq(DATA_SIZE, _ => 0), seq(32, _ => EMPTY), EMPTY, Power2(k))
  }

  lemma {:induction false} FreeFromIsLowest(b: Block, i: nat)
    requires Shaped(b)
    ensures match FreeFrom(b, i)
            case Some(slot) =>
              && i <= slot && HasSlot(b.blockSize, slot) && !Bit(b, slot)
              && forall j: nat | i <= j < slot :: Bit(b, j)
            case None => forall j: nat | i <= j && HasSlot(b.blockSize, j) :: Bit(b, j)
    decreases 1024 - i
  {
    if HasSlot(b.blockSize, i) {
      if Bit(b, i) {
        FreeFromIsLowest(b, i + 1);
      }
    } else {
      forall j: nat | i <= j && HasSlot(b.blockSize, j) ensures false {
        SlotsAreAPrefix(b.blockSize, i, j);
      }
    }
  }

  lemma SlotsAreAPrefix(blockSize: nat, i: nat, j: nat)
    requires i <= j && HasSlot(blockSize, j)
    ensures HasSlot(blockSize, i)
  {
    assert blockSize * (i + 1) <= blockSize * (j + 1);
  }

  /** The look at the summary changes nothing: the search yields the lowest free slot, and fails only on a block in
      which every slot is taken. */
  lemma FirstFreeIsLowest(b: Block)
    requires Sound(b)
    ensures FirstFree(b) == FreeFrom(b, 0)
    ensures match FirstFree(b)
            case Some(slot) => HasSlot(b.blockSize, slot) && !Bit(b, slot) && forall j: nat | j < slot :: Bit(b, j)
            case None => forall j: nat | HasSlot(b.blockSize, j) :: Bit(b, j)
  {
    FreeFromIsLowest(b, 0);
    if FreeFrom(b, 0).Some? {
      var slot := FreeFrom(b, 0).value;
      assert !b.allocatedFine[slot / 32][slot % 32];
      assert !b.allocatedCoarse[slot / 32];
    }
  }

  lemma ReserveEffect(b: Block, slot: nat)
    requires Sound(b) && HasSlot(b.blockSize, slot)
    ensures var r := Reserve(b, slot);
            && Sound(r) && r.blockSize == b.blockSize
            && forall j: nat | j < 1024 :: Bit(r, j) == (j == slot || Bit(b, j))
  {
  }

  lemma ReleaseEffect(b: Block, slot: nat)
    requires Sound(b) && slot < 1024
    ensures var r := Release(b, slot);
            && Sound(r) && r.blockSize == b.blockSize
            && forall j: nat | j < 1024 :: Bit(r, j) == (j != slot && Bit(b, j))
  {
    var r := Release(b, slot);
    assert !r.allocatedFine[slot / 32][slot % 32];
  }

  /** Releasing a slot that was just reserved leaves all bits as they were. */
  lemma ReleaseUndoesReserve(b: Block, slot: nat)
    requires Sound(b) && HasSlot(b.blockSize, slot) && !Bit(b, slot)
    ensures var r := Release(Reserve(b, slot), slot);
            r.allocatedFine == b.allocatedFine && r.allocatedCoarse == b.allocatedCoarse
  {
    var r := Release(Reserve(b, slot), slot);
    assert r.allocatedFine[slot / 32] == b.allocatedFine[slot / 32];
    assert !IsFull(b.allocatedFine[slot / 32]);
  }

  /** A fresh block has room, so the search along a chain ends at the latest there. */
  lemma FreshBlockHasRoom(k: nat)
    requires 1 <= k <= 10
    ensures Sound(FreshBlock(k)) && FirstFree(FreshBlock(k)) == Some(0)
    ensures forall j: nat | j < 1024 :: !Bit(FreshBlock(k), j)
  {
    PowerTable(k);
    assert !FreshBlock(k).allocatedCoarse[0];
    assert forall c | 0 <= c < 32 :: !FreshBlock(k).allocatedFine[c][0];
  }

  // ----- the heap ----------------------------------------------------------------------------

  datatype Place = Place(page: nat, slot: nat)

  ghost predicate Chained(h: Heap, k: nat, page: nat) {
    page in h.blocks && h.blocks[page].blockSize == Power2(k) && Sound(h.blocks[page])
  }

  ghost predicate AllChained(h: Heap, k: nat, chain: seq<nat>) {
    forall i | 0 <= i < |chain| :: Chained(h, k, chain[i])
  }

  /** Every page of a chain holds a sound block of the chain's slot size. */
  ghost predicate Sane(h: Heap) {
    && |h.chains| == 12
    && (forall k: nat | k < 12 :: AllChained(h, k, h.chains[k]))
    && (forall p: nat | p in h.blocks :: Sound(h.blocks[p]))
  }

  /** The first block of a chain with a free slot, and its lowest free slot. */
  function FirstRoom(blocks: map<nat, Block>, chain: seq<nat>): (place: Option<Place>)
    requires forall i | 0 <= i < |chain| :: chain[i] in blocks && Shaped(blocks[chain[i]])
  {
    if chain == [] then None
    else
      match FirstFree(blocks[chain[0]])
      case Some(slot) => Some(Place(chain[0], slot))
      case None => FirstRoom(blocks, chain[1..])
  }

  /** The heap in which `_malloc` finds its slot: with a fresh block in page `newPage` if no block of the chain had
      room. */
  ghost function Grown(h: Heap, k: nat, newPage: nat): Heap
    requires Sane(h) && k < 12
  {
    if FirstRoom(h.blocks, h.chains[k]).Some? then h
    else Heap(h.chains[k := h.chains[k] + [newPage]], h.blocks[newPage := FreshBlock(k)])
  }

  ghost function PlaceFor(h: Heap, k: nat, newPage: nat): Place
    requires Sane(h) && k < 12
  {
    match FirstRoom(h.blocks, h.chains[k]) case Some(place) => place case None => Place(newPage, 0)
  }

  function AddressOf(place: Place, blockSize: nat): nat {
    place.page * PAGE_SIZE + blockSize * place.slot
  }

  lemma {:induction false} FirstRoomIsFree(h: Heap, k: nat, chain: seq<nat>)
    requires AllChained(h, k, chain)
    ensures match FirstRoom(h.blocks, chain)
            case Some(place) =>
              && place.page in chain && Chained(h, k, place.page)
              && HasSlot(Power2(k), place.slot) && !Bit(h.blocks[place.page], place.slot)
            case None =>
              forall p | p in chain ::
                Chained(h, k, p) && forall j: nat | HasSlot(Power2(k), j) :: Bit(h.blocks[p], j)
  {
    if chain != [] {
      assert Chained(h, k, chain[0]);
      FirstFreeIsLowest(h.blocks[chain[0]]);
      if FirstFree(h.blocks[chain[0]]).None? {
        FirstRoomIsFree(h, k, chain[1..]);
      }
    }
  }

  /** Every slot of the block is taken. */
  ghost predicate AllTaken(h: Heap, page: nat) {
    && page in h.blocks && Shaped(h.blocks[page])
    && forall j: nat | HasSlot(h.blocks[page].blockSize, j) :: Bit(h.blocks[page], j)
  }

  /** `place` is the lowest free slot of the first block of `chain` that has one. */
  ghost predicate IsFirstRoom(h: Heap, chain: seq<nat>, place: Place) {
    exists i: nat | i < |chain| ::
      && chain[i] == place.page && (forall j | 0 <= j < i :: AllTaken(h, chain[j]))
      && place.page in h.blocks && Shaped(h.blocks[place.page])
      && HasSlot(h.blocks[place.page].blockSize, place.slot) && !Bit(h.blocks[place.page], place.slot)
      && forall j: nat | j < place.slot :: Bit(h.blocks[place.page], j)
  }

  /** The walk along a chain stops at the first block that is not full, at its lowest free slot. */
  lemma {:induction false} FirstRoomIsFirst(h: Heap, k: nat, chain: seq<nat>)
    requires AllChained(h, k, chain)
    ensures match FirstRoom(h.blocks, chain)
            case Some(place) => IsFirstRoom(h, chain, place)
            case None => forall i | 0 <= i < |chain| :: AllTaken(h, chain[i])
  {
    if chain != [] {
      assert Chained(h, k, chain[0]);
      FirstFreeIsLowest(h.blocks[chain[0]]);
      if FirstFree(h.blocks[chain[0]]).None? {
        assert AllTaken(h, chain[0]);
        FirstRoomIsFirst(h, k, chain[1..]);
        if FirstRoom(h.blocks, chain[1..]).Some? {
          var place := FirstRoom(h.blocks, chain[1..]).value;
          var i: nat :| i < |chain[1..]| && chain[1..][i] == place.page
                     && forall j | 0 <= j < i :: AllTaken(h, chain[1..][j]);
          forall j | 0 <= j < i + 1 ensures AllTaken(h, chain[j]) {
            if j > 0 {
              assert chain[1..][j - 1] == chain[j];
            }
          }
        }
      }
    }
  }

  /** `_malloc` takes the lowest free slot of the first block of the chain that has one, and a fresh page only if every
      slot of every block of the chain is taken. */
  lemma PlaceIsFirst(h: Heap, k: nat, newPage: nat)
    requires Sane(h) && k < 12 && newPage !in h.blocks
    ensures PlaceFor(h, k, newPage).page != newPage ==> IsFirstRoom(h, h.chains[k], PlaceFor(h, k, newPage))
    ensures PlaceFor(h, k, newPage).page == newPage
       <==> forall i | 0 <= i < |h.chains[k]| :: AllTaken(h, h.chains[k][i])
    ensures PlaceFor(h, k, newPage).page == newPage ==> PlaceFor(h, k, newPage).slot == 0
  {
    assert AllChained(h, k, h.chains[k]);
    FirstRoomIsFirst(h, k, h.chains[k]);
  }

  /** The place found is a free slot of a block of the right size, in the heap grown if need be. */
  lemma PlaceIsFree(h: Heap, k: nat, newPage: nat)
    requires Sane(h) && 1 <= k <= 10 && newPage !in h.blocks
    ensures var g, place := Grown(h, k, newPage), PlaceFor(h, k, newPage);
            && Sane(g) && Chained(g, k, place.page)
            && HasSlot(Power2(k), place.slot) && !Bit(g.blocks[place.page], place.slot)
  {
    var g := Grown(h, k, newPage);
    assert AllChained(h, k, h.chains[k]);
    FirstRoomIsFree(h, k, h.chains[k]);
    if FirstRoom(h.blocks, h.chains[k]).None? {
      FreshBlockHasRoom(k);
      FirstFreeIsLowest(FreshBlock(k));
      assert forall n: nat, p: nat | Chained(h, n, p) :: Chained(g, n, p);
      assert Chained(g, k, newPage);
      forall n: nat | n < 12 ensures AllChained(g, n, g.chains[n]) {
        assert AllChained(h, n, h.chains[n]);
      }
    }
  }

  /** `_malloc` for sizes 1 to 1023, with `newPage` the page that `getPage` would yield. */
  ghost function Malloc(h: Heap, size: nat, newPage: nat): Heap
    requires Sane(h) && 1 <= size < SMALL_LIMIT && newPage !in h.blocks
  {
    SlotFitsRequest(size);
    var k := SizeBit(size);
    PlaceIsFree(h, k, newPage);
    var g, place := Grown(h, k, newPage), PlaceFor(h, k, newPage);
    Heap(g.chains, g.blocks[place.page := Reserve(g.blocks[place.page], place.slot)])
  }

  /** The address that `_malloc` returns. */
  ghost function MallocAddress(h: Heap, size: nat, newPage: nat): nat
    requires Sane(h) && 1 <= size < SMALL_LIMIT
  {
    SlotFitsRequest(size);
    AddressOf(PlaceFor(h, SizeBit(size), newPage), Power2(SizeBit(size)))
  }

  /** The slot whose bits `free` clears. */
  function SlotOf(h: Heap, address: nat): nat
    requires address / PAGE_SIZE in h.blocks && h.blocks[address / PAGE_SIZE].blockSize > 0
  {
    address % PAGE_SIZE / h.blocks[address / PAGE_SIZE].blockSize
  }

  /** The address lies in a block, at a slot that has a bit. */
  ghost predicate InBlock(h: Heap, address: nat) {
    address / PAGE_SIZE in h.blocks && Sound(h.blocks[address / PAGE_SIZE]) && SlotOf(h, address) < 1024
  }

  /** `free`; freeing the null address does nothing. */
  ghost function Free(h: Heap, address: nat): Heap
    requires address != 0 ==> InBlock(h, address)
  {
    if address == 0 then h
    else
      var page := address / PAGE_SIZE;
      Heap(h.chains, h.blocks[page := Release(h.blocks[page], SlotOf(h, address))])
  }
}
