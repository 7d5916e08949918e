/**
 Safety of the slab allocator over every run of allocations, releases and writes through live allocations.
 */
module SlabRuns {
  import opened Slab

  /** The heap, and the live allocations with the sizes that were asked for. */
  datatype State = State(heap: Heap, live: map<nat, nat>)

  /** Address `a` is the start of a taken slot with room for `size` bytes, all before the metadata. */
  ghost predicate LiveAt(h: Heap, a: nat, size: nat) {
    && a != 0 && InBlock(h, a)
    && var b := h.blocks[a / PAGE_SIZE];
    && a % PAGE_SIZE == b.blockSize * SlotOf(h, a)
    && HasSlot(b.blockSize, SlotOf(h, a)) && Bit(b, SlotOf(h, a))
    && 1 <= size <= b.blockSize
  }

  /** The bit of slot `slot` of the block in `page`. */
  ghost predicate Taken(h: Heap, page: nat, slot: nat) {
    page in h.blocks && Sound(h.blocks[page]) && slot < 1024 && Bit(h.blocks[page], slot)
  }

  /** The taken slots are exactly the live allocations. */
  ghost predicate Exact(h: Heap, live: map<nat, nat>) {
    && (forall a: nat | a in live :: LiveAt(h, a, live[a]))
    && (forall p: nat, i: nat {:trigger Taken(h, p, i)} | Taken(h, p, i) ::
          HasSlot(h.blocks[p].blockSize, i) && AddressOf(Place(p, i), h.blocks[p].blockSize) in live)
  }

  ghost predicate Inv(s: State) {
    Sane(s.heap) && 0 !in s.heap.blocks && Exact(s.heap, s.live)
  }

  // ----- addresses ---------------------------------------------------------------------------

  /** An address determines its page and its slot: `free` recovers what `_malloc` handed out. */
  lemma AddressParts(place: Place, blockSize: nat)
    requires blockSize > 0 && HasSlot(blockSize, place.slot)
    ensures var a := AddressOf(place, blockSize);
            && a / PAGE_SIZE == place.page && a % PAGE_SIZE == blockSize * place.slot
            && a % PAGE_SIZE / blockSize == place.slot
  {
    var offset := blockSize * place.slot;
    assert 0 <= offset < blockSize * (place.slot + 1) <= DATA_SIZE;
    DivideBack(blockSize, place.slot);
  }

  lemma DivideBack(d: nat, q: nat)
    requires d > 0
    ensures d * q / d == q
  {
    var r := d * q / d;
    if r < q {
      SlotsApart(d, r, q);
    }
  }

  lemma SlotsApart(blockSize: nat, i: nat, j: nat)
    requires i < j
    ensures blockSize * i + blockSize <= blockSize * j
  {
    assert blockSize * (i + 1) <= blockSize * j;
  }

  // ----- allocation --------------------------------------------------------------------------

  /** From `h` to `t`, exactly the slot at `place` has been taken and zeroed, in a block that is new or was there. */
  ghost predicate TookSlot(h: Heap, t: Heap, place: Place, k: nat) {
    && Chained(t, k, place.page)
    && (forall p: nat :: p in t.blocks <==> p in h.blocks || p == place.page)
    && (forall p: nat, i: nat :: Taken(t, p, i) <==> Place(p, i) == place || Taken(h, p, i))
    && (forall p: nat | p in h.blocks :: t.blocks[p].blockSize == h.blocks[p].blockSize)
    && (forall p: nat, i: nat | p in h.blocks && i < DATA_SIZE && Sound(h.blocks[p]) && Sound(t.blocks[p]) ::
          t.blocks[p].data[i] == if p == place.page && InSlot(i, Power2(k), place.slot) then 0 else h.blocks[p].data[i])
    && (forall i: nat | i < DATA_SIZE && InSlot(i, Power2(k), place.slot) :: t.blocks[place.page].data[i] == 0)
  }

  predicate InSlot(offset: nat, blockSize: nat, slot: nat) {
    blockSize * slot <= offset < blockSize * slot + blockSize
  }

  lemma ReserveInHeap(g: Heap, place: Place, k: nat)
    requires Sane(g) && Chained(g, k, place.page) && HasSlot(Power2(k), place.slot)
    ensures var t := Heap(g.chains, g.blocks[place.page := Reserve(g.blocks[place.page], place.slot)]);
            Sane(t) && TookSlot(g, t, place, k)
  {
    var b := g.blocks[place.page];
    ReserveEffect(b, place.slot);
    var t := Heap(g.chains, g.blocks[place.page := Reserve(b, place.slot)]);
    assert forall n: nat, p: nat | Chained(g, n, p) :: Chained(t, n, p);
    forall n: nat | n < 12 ensures AllChained(t, n, t.chains[n]) {
      assert AllChained(g, n, g.chains[n]);
    }
  }

  lemma MallocTakesSlot(h: Heap, size: nat, newPage: nat, k: nat)
    requires Sane(h) && 1 <= size < SMALL_LIMIT && newPage !in h.blocks && k == SizeBit(size) <= 10
    ensures && Sane(Malloc(h, size, newPage))
            && TookSlot(h, Malloc(h, size, newPage), PlaceFor(h, k, newPage), k)
            && !Taken(h, PlaceFor(h, k, newPage).page, PlaceFor(h, k, newPage).slot)
            && HasSlot(Power2(k), PlaceFor(h, k, newPage).slot)
            && PlaceFor(h, k, newPage).page in h.blocks.Keys + {newPage}
  {
    PlaceIsFree(h, k, newPage);
    var g, place := Grown(h, k, newPage), PlaceFor(h, k, newPage);
    ReserveInHeap(g, place, k);
    if place.page !in h.blocks {
      FreshBlockHasRoom(k);
    }
    assert AllChained(h, k, h.chains[k]);
    FirstRoomIsFree(h, k, h.chains[k]);
    assert forall p: nat, i: nat :: Taken(g, p, i) <==> Taken(h, p, i);
  }

  /** A slot that was taken stays taken, at the same address. */
  lemma LiveStays(h: Heap, t: Heap, place: Place, k: nat, a: nat, size: nat)
    requires TookSlot(h, t, place, k) && Sane(t) && LiveAt(h, a, size)
    ensures LiveAt(t, a, size)
  {
    assert Taken(h, a / PAGE_SIZE, SlotOf(h, a));
    assert Taken(t, a / PAGE_SIZE, SlotOf(h, a));
  }

  lemma TookSlotExact(h: Heap, t: Heap, live: map<nat, nat>, place: Place, k: nat, address: nat, size: nat)
    requires Exact(h, live) && Sane(t) && TookSlot(h, t, place, k)
    requires HasSlot(Power2(k), place.slot) && address == AddressOf(place, Power2(k)) && address != 0
    requires 1 <= size <= Power2(k) && !Taken(h, place.page, place.slot)
    ensures address !in live
    ensures Exact(t, live[address := size])
  {
    AddressParts(place, Power2(k));
    forall a: nat | a in live ensures LiveAt(t, a, live[a]) {
      LiveStays(h, t, place, k, a, live[a]);
    }
    assert Taken(t, place.page, place.slot);
    assert LiveAt(t, address, size);
    forall p: nat, i: nat | Taken(t, p, i)
      ensures HasSlot(t.blocks[p].blockSize, i)
              && AddressOf(Place(p, i), t.blocks[p].blockSize) in live[address := size]
    {
      assert Place(p, i) == place || Taken(h, p, i);
    }
  }

  /** The `n` bytes from address `a` on are the same in `h` and `t`. */
  ghost predicate SameBytes(h: Heap, t: Heap, a: nat, n: nat) {
    var page, offset := a / PAGE_SIZE, a % PAGE_SIZE;
    && page in h.blocks && page in t.blocks
    && |h.blocks[page].data| == |t.blocks[page].data| == DATA_SIZE && offset + n <= DATA_SIZE
    && h.blocks[page].data[offset..offset + n] == t.blocks[page].data[offset..offset + n]
  }

  lemma LiveBytes(h: Heap, a: nat, size: nat)
    requires LiveAt(h, a, size)
    ensures a % PAGE_SIZE + size <= a % PAGE_SIZE + h.blocks[a / PAGE_SIZE].blockSize <= DATA_SIZE
  {
    var b := h.blocks[a / PAGE_SIZE];
    assert b.blockSize * (SlotOf(h, a) + 1) == b.blockSize * SlotOf(h, a) + b.blockSize;
  }

  /** Two live allocations have no byte in common. */
  lemma LiveDisjoint(h: Heap, a: nat, n: nat, b: nat, m: nat)
    requires LiveAt(h, a, n) && LiveAt(h, b, m) && a < b
    ensures a + n <= b
  {
    LiveBytes(h, a, n);
    if a / PAGE_SIZE == b / PAGE_SIZE {
      var blockSize := h.blocks[a / PAGE_SIZE].blockSize;
      var i, j := SlotOf(h, a), SlotOf(h, b);
      if j < i {
        SlotsApart(blockSize, j, i);
      } else if i < j {
        SlotsApart(blockSize, i, j);
      }
    }
  }

  // ----- steps -------------------------------------------------------------------------------

  /** A program asks for memory, gives an allocation back, or writes a byte of an allocation of its own. */
  datatype Step =
    | Allocate(size: nat, newPage: nat)
    | Deallocate(address: nat)
    | Write(address: nat, index: nat, value: int)

  ghost predicate Enabled(s: State, step: Step) {
    match step
    case Allocate(size, newPage) =>
      1 <= size < SMALL_LIMIT && newPage != 0 && newPage !in s.heap.blocks
    case Deallocate(address) => address in s.live
    case Write(address, index, _) => address in s.live && index < s.live[address]
  }

  function WriteByte(h: Heap, page: nat, offset: nat, value: int): Heap
    requires page in h.blocks && offset < |h.blocks[page].data|
  {
    var b := h.blocks[page];
    Heap(h.chains, h.blocks[page := Block(b.data[offset := value], b.allocatedFine, b.allocatedCoarse, b.blockSize)])
  }

  ghost function Take(s: State, step: Step): State
    requires Inv(s) && Enabled(s, step)
  {
    match step
    case Allocate(size, newPage) =>
      State(Malloc(s.heap, size, newPage), s.live[MallocAddress(s.heap, size, newPage) := size])
    case Deallocate(address) =>
      assert LiveAt(s.heap, address, s.live[address]);
      State(Free(s.heap, address), s.live - {address})
    case Write(address, index, value) =>
      assert LiveAt(s.heap, address, s.live[address]);
      LiveBytes(s.heap, address, s.live[address]);
      State(WriteByte(s.heap, address / PAGE_SIZE, address % PAGE_SIZE + index, value), s.live)
  }

  /** A fresh allocation was not live, is zeroed, and no byte outside its slot has changed. */
  lemma AllocateIsSound(s: State, size: nat, newPage: nat)
    requires Inv(s) && Enabled(s, Allocate(size, newPage))
    ensures var t, a := Take(s, Allocate(size, newPage)), MallocAddress(s.heap, size, newPage);
            && Inv(t) && a !in s.live && LiveAt(t.heap, a, size)
            && var blockSize := t.heap.blocks[a / PAGE_SIZE].blockSize;
            && size < blockSize <= 2 * size
            && LiveAt(t.heap, a, blockSize)
            && (forall i: nat | a % PAGE_SIZE <= i < a % PAGE_SIZE + blockSize && i < DATA_SIZE ::
                  t.heap.blocks[a / PAGE_SIZE].data[i] == 0)
            && (forall p: nat, i: nat | p in s.heap.blocks && i < DATA_SIZE
                                     && !(p == a / PAGE_SIZE && a % PAGE_SIZE <= i < a % PAGE_SIZE + blockSize) ::
                  t.heap.blocks[p].data[i] == s.heap.blocks[p].data[i])
  {
    SlotFitsRequest(size);
    var k := SizeBit(size);
    var h, t, a := s.heap, Take(s, Allocate(size, newPage)), MallocAddress(s.heap, size, newPage);
    var place := PlaceFor(h, k, newPage);
    MallocTakesSlot(h, size, newPage, k);
    AddressParts(place, Power2(k));
    TookSlotExact(h, t.heap, s.live, place, k, a, size);
    assert forall i: nat :: InSlot(i, Power2(k), place.slot) <==> a % PAGE_SIZE <= i < a % PAGE_SIZE + Power2(k);
  }

  /** From `h` to `t`, exactly the bit of the slot at `place` has been cleared. */
  ghost predicate ClearedSlot(h: Heap, t: Heap, place: Place) {
    && t.blocks.Keys == h.blocks.Keys
    && (forall p: nat, i: nat :: Taken(t, p, i) <==> Taken(h, p, i) && Place(p, i) != place)
    && (forall p: nat | p in h.blocks ::
          t.blocks[p].blockSize == h.blocks[p].blockSize && t.blocks[p].data == h.blocks[p].data)
  }

  lemma ReleaseInHeap(h: Heap, page: nat, slot: nat)
    requires Sane(h) && page in h.blocks && slot < 1024
    ensures var t := Heap(h.chains, h.blocks[page := Release(h.blocks[page], slot)]);
            Sane(t) && ClearedSlot(h, t, Place(page, slot))
  {
    ReleaseEffect(h.blocks[page], slot);
    var t := Heap(h.chains, h.blocks[page := Release(h.blocks[page], slot)]);
    assert forall n: nat, p: nat | Chained(h, n, p) :: Chained(t, n, p);
    forall n: nat | n < 12 ensures AllChained(t, n, t.chains[n]) {
      assert AllChained(h, n, h.chains[n]);
    }
  }

  /** Other allocations survive a release. */
  lemma LiveSurvives(h: Heap, t: Heap, place: Place, a: nat, size: nat)
    requires ClearedSlot(h, t, place) && Sane(t) && LiveAt(h, a, size) && Place(a / PAGE_SIZE, SlotOf(h, a)) != place
    ensures LiveAt(t, a, size)
  {
    assert Taken(h, a / PAGE_SIZE, SlotOf(h, a));
    assert Taken(t, a / PAGE_SIZE, SlotOf(h, a));
  }

  lemma ClearedSlotExact(h: Heap, t: Heap, live: map<nat, nat>, address: nat)
    requires Exact(h, live) && address in live && Sane(t)
    requires InBlock(h, address) && ClearedSlot(h, t, Place(address / PAGE_SIZE, SlotOf(h, address)))
    ensures Exact(t, live - {address})
  {
    var place := Place(address / PAGE_SIZE, SlotOf(h, address));
    assert LiveAt(h, address, live[address]);
    forall a: nat | a in live && a != address ensures LiveAt(t, a, live[a]) {
      assert LiveAt(h, a, live[a]);
      LiveSurvives(h, t, place, a, live[a]);
    }
    forall p: nat, i: nat | Taken(t, p, i)
      ensures HasSlot(t.blocks[p].blockSize, i) && AddressOf(Place(p, i), t.blocks[p].blockSize) in live - {address}
    {
      assert Taken(h, p, i);
      AddressParts(Place(p, i), h.blocks[p].blockSize);
    }
  }

  /** `free` of a live allocation clears exactly its own slot. */
  lemma DeallocateIsSound(s: State, address: nat)
    requires Inv(s) && Enabled(s, Deallocate(address))
    ensures var t := Take(s, Deallocate(address));
            && Inv(t)
            && forall p: nat | p in s.heap.blocks ::
                 p in t.heap.blocks && t.heap.blocks[p].data == s.heap.blocks[p].data
  {
    assert LiveAt(s.heap, address, s.live[address]);
    ReleaseInHeap(s.heap, address / PAGE_SIZE, SlotOf(s.heap, address));
    ClearedSlotExact(s.heap, Take(s, Deallocate(address)).heap, s.live, address);
  }

  /** What is written to a byte touches no bit, no size and no chain. */
  lemma WriteInHeap(h: Heap, page: nat, offset: nat, value: int)
    requires Sane(h) && page in h.blocks && offset < DATA_SIZE
    ensures var t := WriteByte(h, page, offset, value);
            && Sane(t) && t.blocks.Keys == h.blocks.Keys
            && (forall p: nat, i: nat :: Taken(t, p, i) <==> Taken(h, p, i))
            && (forall p: nat | p in h.blocks :: t.blocks[p].blockSize == h.blocks[p].blockSize)
  {
    var t := WriteByte(h, page, offset, value);
    assert forall n: nat, p: nat | Chained(h, n, p) :: Chained(t, n, p);
    forall n: nat | n < 12 ensures AllChained(t, n, t.chains[n]) {
      assert AllChained(h, n, h.chains[n]);
    }
  }

  lemma SameBitsExact(h: Heap, t: Heap, live: map<nat, nat>)
    requires Sane(t) && t.blocks.Keys == h.blocks.Keys && Exact(h, live)
    requires forall p: nat, i: nat :: Taken(t, p, i) <==> Taken(h, p, i)
    requires forall p: nat | p in h.blocks :: t.blocks[p].blockSize == h.blocks[p].blockSize
    ensures Exact(t, live)
  {
    forall a: nat | a in live ensures LiveAt(t, a, live[a]) {
      assert LiveAt(h, a, live[a]);
      assert Taken(t, a / PAGE_SIZE, SlotOf(h, a));
    }
  }

  lemma WriteKeepsExact(h: Heap, live: map<nat, nat>, page: nat, offset: nat, value: int)
    requires Sane(h) && page in h.blocks && offset < DATA_SIZE && Exact(h, live)
    ensures var t := WriteByte(h, page, offset, value);
            Sane(t) && t.blocks.Keys == h.blocks.Keys && Exact(t, live)
  {
    WriteInHeap(h, page, offset, value);
    SameBitsExact(h, WriteByte(h, page, offset, value), live);
  }

  lemma WriteIsSound(s: State, address: nat, index: nat, value: int)
    requires Inv(s) && Enabled(s, Write(address, index, value))
    ensures Inv(Take(s, Write(address, index, value)))
  {
    assert LiveAt(s.heap, address, s.live[address]);
    LiveBytes(s.heap, address, s.live[address]);
    WriteKeepsExact(s.heap, s.live, address / PAGE_SIZE, address % PAGE_SIZE + index, value);
  }

  lemma StepKeepsInv(s: State, step: Step)
    requires Inv(s) && Enabled(s, step)
    ensures Inv(Take(s, step))
  {
    match step
    case Allocate(size, newPage) => AllocateIsSound(s, size, newPage);
    case Deallocate(address) => DeallocateIsSound(s, address);
    case Write(address, index, value) => WriteIsSound(s, address, index, value);
  }

  /** Offsets of two live allocations in one page. */
  lemma LiveAway(h: Heap, a: nat, n: nat, b: nat, m: nat)
    requires LiveAt(h, a, n) && LiveAt(h, b, m) && a != b
    ensures a / PAGE_SIZE == b / PAGE_SIZE ==>
              a % PAGE_SIZE + n <= b % PAGE_SIZE || b % PAGE_SIZE + m <= a % PAGE_SIZE
  {
    if a < b {
      LiveDisjoint(h, a, n, b, m);
    } else {
      LiveDisjoint(h, b, m, a, n);
    }
  }

  /** If only the bytes of a live slot at `b` change, those of another allocation stay. */
  lemma ContentsAway(h: Heap, t: Heap, a: nat, n: nat, b: nat, m: nat)
    requires LiveAt(h, a, n) && LiveAt(t, a, n) && LiveAt(t, b, m) && a != b
    requires forall p: nat, i: nat | p in h.blocks && p in t.blocks && i < |h.blocks[p].data| && i < |t.blocks[p].data|
                                  && !(p == b / PAGE_SIZE && b % PAGE_SIZE <= i < b % PAGE_SIZE + m) ::
               t.blocks[p].data[i] == h.blocks[p].data[i]
    ensures SameBytes(h, t, a, n)
  {
    LiveBytes(h, a, n);
    LiveAway(t, a, n, b, m);
  }

  lemma AllocateKeepsContents(s: State, size: nat, newPage: nat, a: nat)
    requires Inv(s) && Enabled(s, Allocate(size, newPage)) && a in s.live
    ensures SameBytes(s.heap, Malloc(s.heap, size, newPage), a, s.live[a])
  {
    var t, n := Take(s, Allocate(size, newPage)), s.live[a];
    AllocateIsSound(s, size, newPage);
    var b := MallocAddress(s.heap, size, newPage);
    assert LiveAt(s.heap, a, n) && LiveAt(t.heap, a, n) by {
      assert t.live[a] == n;
    }
    ContentsAway(s.heap, t.heap, a, n, b, t.heap.blocks[b / PAGE_SIZE].blockSize);
  }

  lemma WriteKeepsContents(h: Heap, address: nat, m: nat, index: nat, value: int, a: nat, n: nat)
    requires LiveAt(h, address, m) && LiveAt(h, a, n) && a != address && index < m
    ensures address % PAGE_SIZE + index < DATA_SIZE
    ensures SameBytes(h, WriteByte(h, address / PAGE_SIZE, address % PAGE_SIZE + index, value), a, n)
  {
    LiveBytes(h, a, n);
    LiveBytes(h, address, m);
    LiveAway(h, a, n, address, m);
  }

  /** A live allocation and its bytes change only by a step on that very allocation. */
  lemma StepKeepsContents(s: State, step: Step, a: nat)
    requires Inv(s) && Enabled(s, step) && a in s.live && (step.Allocate? || step.address != a)
    ensures var t := Take(s, step);
            a in t.live && t.live[a] == s.live[a] && SameBytes(s.heap, t.heap, a, s.live[a])
  {
    assert LiveAt(s.heap, a, s.live[a]);
    match step
    case Allocate(size, newPage) =>
      AllocateIsSound(s, size, newPage);
      AllocateKeepsContents(s, size, newPage, a);
    case Deallocate(address) =>
      DeallocateIsSound(s, address);
      LiveBytes(s.heap, a, s.live[a]);
    case Write(address, index, value) =>
      assert LiveAt(s.heap, address, s.live[address]);
      WriteKeepsContents(s.heap, address, s.live[address], index, value, a, s.live[a]);
  }

  // ----- runs --------------------------------------------------------------------------------

  ghost predicate Takes(s: State, step: Step, t: State) {
    Inv(s) ==> Enabled(s, step) && t == Take(s, step)
  }

  /** A run from the empty heap. */
  ghost predicate IsRun(run: seq<State>, steps: seq<Step>) {
    && |run| == |steps| + 1
    && run[0] == State(Heap(seq(12, _ => []), map[]), map[])
    && forall i | 0 <= i < |steps| :: Takes(run[i], steps[i], run[i + 1])
  }

  lemma {:induction false} InvOverRuns(run: seq<State>, steps: seq<Step>, n: nat)
    requires IsRun(run, steps) && n < |run|
    ensures Inv(run[n])
    decreases n
  {
    if n > 0 {
      InvOverRuns(run, steps, n - 1);
      assert Takes(run[n - 1], steps[n - 1], run[n]);
      StepKeepsInv(run[n - 1], steps[n - 1]);
    }
  }

  /** In every state of every run, a live allocation is as long as it was asked for and does not reach the metadata of
      its page. */
  lemma AllocationsInBounds(run: seq<State>, steps: seq<Step>, n: nat, a: nat)
    requires IsRun(run, steps) && n < |run| && a in run[n].live
    ensures a % PAGE_SIZE + run[n].live[a] <= DATA_SIZE && LiveAt(run[n].heap, a, run[n].live[a])
  {
    InvOverRuns(run, steps, n);
    assert LiveAt(run[n].heap, a, run[n].live[a]);
    LiveBytes(run[n].heap, a, run[n].live[a]);
  }

  /** In every state of every run, no byte of a live allocation, nor of the slot around it that is cleared when it is
      handed out, lies in a bitmap word, the summary, the size, a link or the magic word of its block. */
  lemma AllocationsAvoidMetadata(run: seq<State>, steps: seq<Step>, n: nat, a: nat, f: Field, byte: nat)
    requires IsRun(run, steps) && n < |run| && a in run[n].live && IsField(f)
    ensures a / PAGE_SIZE in run[n].heap.blocks
    ensures run[n].live[a] <= run[n].heap.blocks[a / PAGE_SIZE].blockSize
    ensures a <= byte < a + run[n].heap.blocks[a / PAGE_SIZE].blockSize ==>
              byte / PAGE_SIZE == a / PAGE_SIZE && !(FieldOffset(f) <= byte % PAGE_SIZE < FieldOffset(f) + 4)
  {
    AllocationsInBounds(run, steps, n, a);
    LiveBytes(run[n].heap, a, run[n].live[a]);
    LayoutFillsPage(f, f);
  }

  /** In every state of every run the live allocations are pairwise disjoint. */
  lemma AllocationsDisjoint(run: seq<State>, steps: seq<Step>, n: nat, a: nat, b: nat)
    requires IsRun(run, steps) && n < |run| && a in run[n].live && b in run[n].live && a < b
    ensures a + run[n].live[a] <= b
  {
    AllocationsInBounds(run, steps, n, a);
    AllocationsInBounds(run, steps, n, b);
    LiveDisjoint(run[n].heap, a, run[n].live[a], b, run[n].live[b]);
  }

  /** Over every run, an allocation keeps its contents until its owner writes to it or frees it. */
  lemma {:induction false} ContentsAreStable(run: seq<State>, steps: seq<Step>, start: nat, end: nat, a: nat)
    requires IsRun(run, steps) && start <= end < |run| && a in run[start].live
    requires forall i | start <= i < end :: steps[i].Allocate? || steps[i].address != a
    ensures a in run[end].live && run[end].live[a] == run[start].live[a]
    ensures SameBytes(run[start].heap, run[end].heap, a, run[start].live[a])
    decreases end
  {
    if start == end {
      InvOverRuns(run, steps, start);
      SameBytesHere(run[start], a);
    } else {
      ContentsAreStable(run, steps, start, end - 1, a);
      InvOverRuns(run, steps, end - 1);
      assert Takes(run[end - 1], steps[end - 1], run[end]);
      StepKeepsContents(run[end - 1], steps[end - 1], a);
    }
  }

  lemma SameBytesHere(s: State, a: nat)
    requires Inv(s) && a in s.live
    ensures SameBytes(s.heap, s.heap, a, s.live[a])
  {
    assert LiveAt(s.heap, a, s.live[a]);
    LiveBytes(s.heap, a, s.live[a]);
  }

  /** Freeing what was just allocated restores every bit of every block that was there before. */
  lemma FreeUndoesMalloc(s: State, size: nat, newPage: nat, p: nat)
    requires Inv(s) && Enabled(s, Allocate(size, newPage)) && p in s.heap.blocks
    ensures var a, t := MallocAddress(s.heap, size, newPage), Malloc(s.heap, size, newPage);
            && a != 0 && InBlock(t, a)
            && var u := Free(t, a);
            && p in u.blocks
            && u.blocks[p].allocatedFine == s.heap.blocks[p].allocatedFine
            && u.blocks[p].allocatedCoarse == s.heap.blocks[p].allocatedCoarse
  {
    SlotFitsRequest(size);
    var k := SizeBit(size);
    AllocateIsSound(s, size, newPage);
    var place := PlaceFor(s.heap, k, newPage);
    PlaceIsFree(s.heap, k, newPage);
    AddressParts(place, Power2(k));
    if p == place.page {
      ReleaseUndoesReserve(s.heap.blocks[p], place.slot);
    }
  }
}
