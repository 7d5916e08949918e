/**
 The page operations of the kernel as they change the bitmaps and page tables in place, proved to take the steps of
 `VirtualMemory`.
 */
module AddressSpaces {
  import opened Optional
  import opened VirtualMemory
  import opened Paging

  /** `setupFullPageTable`: the table in frame `table` maps 1024 frames from `first` on. */
  method FillTable(table: nat, first: nat) returns (entries: map<(nat, nat), Entry>)
    ensures IsFullTable(entries, table, first)
  {
    entries := map[];
    for i := 0 to TABLE_SIZE
      invariant forall k :: k in entries <==> k.0 == table && k.1 < i
      invariant forall k | k in entries :: entries[k] == Entry(true, first + k.1)
    {
      entries := entries[(table, i) := Entry(true, first + i)];
    }
  }

  ghost predicate IsFullTable(entries: map<(nat, nat), Entry>, table: nat, first: nat) {
    && (forall k :: k in entries <==> k.0 == table && k.1 < TABLE_SIZE)
    && (forall k | k in entries :: entries[k] == Entry(true, first + k.1))
  }

  lemma FullTablesAreBoot(m: Memory, data: map<(nat, nat), Entry>, code: map<(nat, nat), Entry>)
    requires forall f: nat :: f in m.frames <==> f < FIRST_FRAME
    requires IsFullTable(data, 0x501, 0x500) && IsFullTable(code, 0x502, 0x100) && m.entries == data + code
    requires m.directories == map[(0, 0x3FE) := 0x501, (0, 0x3FF) := 0x502]
    ensures IsBoot(m)
    ensures forall k | k in m.entries :: m.entries[k].target < FRAME_COUNT
  {
  }

  method ReservedUntil(endPageId: nat) returns (info: PagingInfo)
    requires endPageId <= PAGE_COUNT
    ensures info.Valid() && fresh(info.Repr) && info.Indexed() && info.pageSearchStart == endPageId
    ensures forall p: nat | p < PAGE_COUNT :: info.Allocated(p) == (p < endPageId)
  {
    info := new PagingInfo(0, endPageId);
    info.ReservePagesCount(0, endPageId);
  }

  method KernelPages() returns (info: PagingInfo)
    ensures info.Valid() && fresh(info.Repr) && info.Indexed() && info.pageSearchStart == 0 && info.pageDirectory == 0
    ensures forall p: nat | p < PAGE_COUNT :: info.Allocated(p) == (p == 0 || p >= 0xFF800)
  {
    info := new PagingInfo(0, 0);
    info.ReservePagesCount(0, 1);
    info.ReservePagesCount(0xFF800, 0x800);
  }

  // ----- free frames -------------------------------------------------------------------------

  ghost function FreeFrames(m: Memory): (free: set<nat>) {
    set f: nat | f < FRAME_COUNT && Available(m, f)
  }

  lemma SomeFrameFree(m: Memory)
    requires |FreeFrames(m)| > 0
    ensures exists f: nat :: Available(m, f)
  {
    var f :| f in FreeFrames(m);
    assert Available(m, f);
  }

  /** Allocating the frames of `taken` leaves all the others free. */
  lemma FreeAfterReserving(m: Memory, t: Memory, taken: set<nat>)
    requires t.frames <= m.frames + taken
    ensures |FreeFrames(t)| >= |FreeFrames(m)| - |taken|
  {
    var free, left := FreeFrames(m), FreeFrames(t);
    assert free <= left + taken;
    SubsetCard(free, left + taken);
    assert |left + taken| <= |left| + |taken|;
  }

  lemma {:induction false} SubsetCard(a: set<nat>, b: set<nat>)
    requires a <= b
    ensures |a| <= |b|
  {
    if a != {} {
      var x :| x in a;
      SubsetCard(a - {x}, b - {x});
    }
  }

  /** From `m` to `t`, the pages of `space` from `start` on have been mapped to `frames`: distinct frames that were
      free, with no other translation changed in any space. */
  ghost predicate RunMapped(m: Memory, t: Memory, space: nat, start: nat, frames: seq<nat>) {
    && (forall i | 0 <= i < |frames| :: Available(m, frames[i]) && frames[i] in t.frames)
    && (forall i, j | 0 <= i < j < |frames| :: frames[i] != frames[j])
    && (forall s: nat, p: nat :: Target(t, s, p)
          == if s == space && start <= p < start + |frames| then Some(frames[p - start]) else Target(m, s, p))
    && m.frames <= t.frames
  }

  /** From `m` to `t`, `count` pages from `address` on have been mapped to `frames`. */
  ghost predicate Requested(m: Memory, t: Memory, space: nat, address: nat, frames: seq<nat>, count: nat) {
    && address % PAGE_SIZE == 0 && |frames| == count && address / PAGE_SIZE + count <= PAGE_COUNT
    && RunMapped(m, t, space, address / PAGE_SIZE, frames)
  }

  /** A state in the middle of the loop: `frames` are mapped, and `left` pages are still to be mapped. */
  ghost predicate RunState(m: Memory, t: Memory, space: nat, start: nat, frames: seq<nat>, left: nat) {
    Exclusive(t) && RunMapped(m, t, space, start, frames) && |FreeFrames(t)| >= 2 * left
  }

  lemma RunStarts(m: Memory, space: nat, start: nat, left: nat)
    requires Exclusive(m) && |FreeFrames(m)| >= 2 * left
    ensures RunState(m, m, space, start, [], left)
  {
  }

  lemma RunExtends(m: Memory, t: Memory, u: Memory, space: nat, start: nat, frames: seq<nat>, left: nat,
                   frame: nat, newTable: nat)
    requires left > 0 && RunState(m, t, space, start, frames, left)
    requires Takes(t, Map(space, start + |frames|, frame, newTable), u)
    ensures RunState(m, u, space, start, frames + [frame], left - 1)
  {
    var step := Map(space, start + |frames|, frame, newTable);
    StepKeepsExclusive(t, step);
    assert RunMapped(m, u, space, start, frames + [frame]) && u.frames <= t.frames + {frame, newTable} by {
      MapFreshEffect(t, space, start + |frames|, frame, newTable);
    }
    FreeAfterReserving(t, u, {frame, newTable});
  }

  class AddressSpaces {
    const kernelPhysicalPages: PagingInfo
    const kernelVirtualPages: PagingInfo
    var entries: map<(nat, nat), Entry>
    var directories: map<(nat, nat), nat>

    ghost predicate Valid()
      reads this, kernelPhysicalPages, kernelPhysicalPages.Repr
    {
      && kernelPhysicalPages.Valid() && kernelPhysicalPages.Indexed()
      && kernelPhysicalPages.pageSearchStart == FIRST_FRAME
      && this !in kernelPhysicalPages.Repr
    }

    /** Table entries hold 20-bit frame numbers, and so do directory slots. */
    ghost predicate Narrow()
      reads this
    {
      && (forall k | k in entries :: entries[k].target < FRAME_COUNT)
      && (forall k | k in directories :: directories[k] < FRAME_COUNT)
    }

    /** `info` describes an address space, and not the frames. */
    ghost predicate Describes(info: PagingInfo)
      reads this, info, info.Repr
    {
      info.Valid() && info.Indexed() && info.Repr !! kernelPhysicalPages.Repr && this !in info.Repr
    }

    ghost function Frames(): (frames: set<nat>)
      requires Valid()
      reads this, kernelPhysicalPages, kernelPhysicalPages.Repr
    {
      set f: nat | f < PAGE_COUNT && kernelPhysicalPages.Allocated(f)
    }

    ghost function Abs(): Memory
      requires Valid()
      reads this, kernelPhysicalPages, kernelPhysicalPages.Repr
    {
      Memory(Frames(), entries, directories)
    }

    /** `reservePagesUntilPhysical(0x900)`, over the two page tables that the boot code has filled. */
    constructor ()
      ensures Valid() && Narrow() && Describes(kernelVirtualPages) && IsBoot(Abs())
      ensures forall f: nat :: f in Abs().frames <==> f < 0x900
      ensures fresh(kernelPhysicalPages.Repr) && fresh(kernelVirtualPages.Repr)
      ensures kernelVirtualPages.pageDirectory == 0
      ensures forall p: nat | p < PAGE_COUNT :: kernelVirtualPages.Allocated(p) == (p == 0 || p >= 0xFF800)
    {
      var physical := ReservedUntil(FIRST_FRAME);
      var virtual := KernelPages();
      kernelPhysicalPages, kernelVirtualPages := physical, virtual;
      var data := FillTable(0x501, 0x500);
      var code := FillTable(0x502, 0x100);
      entries := data + code;
      directories := map[(0, 0x3FE) := 0x501, (0, 0x3FF) := 0x502];
      new;
      assert Valid() && Describes(kernelVirtualPages);
      assert forall f: nat :: f in Frames() <==> f < FIRST_FRAME;
      FullTablesAreBoot(Abs(), data, code);
    }

    /** `findPage(kernelPhysicalPages)`: the lowest available frame. */
    method FindFrame() returns (frame: nat)
      requires Valid() && exists f: nat :: Available(Abs(), f)
      ensures Available(Abs(), frame)
      ensures 0x800 <= frame < 0x10_0000 && frame !in Abs().frames
      ensures forall f: nat | 0x800 <= f < frame :: f in Abs().frames
    {
      var info := kernelPhysicalPages;
      forall f: nat ensures Available(Abs(), f) <==> info.Fits(f, 1) {
        info.FitsIsPlainScan(f, 1);
      }
      ghost var f: nat :| Available(Abs(), f);
      assert info.Fits(f, 1);
      frame := info.FindMultiplePages(1);
      forall g: nat | 0x800 <= g < frame ensures g in Abs().frames {
        assert !Available(Abs(), g);
      }
    }

    /** A frame is found and reserved. */
    method ReserveFrame() returns (frame: nat)
      requires Valid() && exists f: nat :: Available(Abs(), f)
      modifies kernelPhysicalPages.Repr
      ensures Valid() && Available(old(Abs()), frame)
      ensures forall f: nat | Available(old(Abs()), f) :: frame <= f
      ensures Abs() == old(Abs()).(frames := old(Abs().frames) + {frame})
    {
      frame := FindFrame();
      kernelPhysicalPages.ReservePage(frame);
    }

    /** A frame is found and reserved, and another one is left for a table. */
    method ReserveFirstOfTwo() returns (frame: nat)
      requires Valid() && |FreeFrames(Abs())| >= 2
      modifies kernelPhysicalPages.Repr
      ensures Valid() && Available(old(Abs()), frame)
      ensures Abs() == old(Abs()).(frames := old(Abs().frames) + {frame})
      ensures exists f: nat :: Available(Abs(), f)
    {
      SomeFrameFree(Abs());
      frame := ReserveFrame();
      FreeAfterReserving(old(Abs()), Abs(), {frame});
      SomeFrameFree(Abs());
    }

    /** `mapPage`: an empty directory slot gets the lowest available frame as its table. */
    method MapPage(info: PagingInfo, frame: nat, page: nat) returns (ghost newTable: nat)
      requires Valid() && Describes(info) && page < PAGE_COUNT
      requires TableOf(Abs(), info.pageDirectory, Slot(page)).None? ==> exists f: nat :: Available(Abs(), f)
      modifies `entries, `directories, kernelPhysicalPages.Repr
      ensures Valid()
      ensures TableOf(old(Abs()), info.pageDirectory, Slot(page)).None? ==>
                Available(old(Abs()), newTable) && forall f: nat | Available(old(Abs()), f) :: newTable <= f
      ensures Abs() == VirtualMemory.MapPage(old(Abs()), info.pageDirectory, frame, page, newTable)
      ensures old(Narrow()) && frame < FRAME_COUNT ==> Narrow()
    {
      var slot := (info.pageDirectory, Slot(page));
      if slot !in directories {
        var table := ReserveFrame();
        entries := map k | k in entries && k.0 != table :: entries[k];
        directories := directories[slot := table];
        newTable := table;
      } else {
        newTable := 0;
      }
      entries := entries[(directories[slot], Index(page)) := Entry(true, frame)];
    }

    /** One page of the loops below: a frame is found, reserved and mapped. */
    method MapFreshPage(info: PagingInfo, page: nat) returns (ghost frame: nat, ghost newTable: nat)
      requires Valid() && Describes(info) && Narrow() && page < PAGE_COUNT && |FreeFrames(Abs())| >= 2
      modifies `entries, `directories, kernelPhysicalPages.Repr
      ensures Valid() && Narrow()
      ensures Takes(old(Abs()), Map(info.pageDirectory, page, frame, newTable), Abs())
    {
      var physical := ReserveFirstOfTwo();
      frame := physical;
      newTable := MapPage(info, physical, page);
    }

    /** The loop of `getPagesCount` and of an anonymous memory request. */
    method MapRun(info: PagingInfo, start: nat, count: nat) returns (ghost frames: seq<nat>)
      requires Valid() && Describes(info) && Narrow() && start + count <= PAGE_COUNT
      requires Exclusive(Abs()) && |FreeFrames(Abs())| >= 2 * count
      modifies `entries, `directories, kernelPhysicalPages.Repr
      ensures Valid() && Narrow() && Exclusive(Abs()) && |frames| == count
      ensures RunMapped(old(Abs()), Abs(), info.pageDirectory, start, frames)
    {
      frames := [];
      ghost var m := Abs();
      RunStarts(m, info.pageDirectory, start, count);
      for i := 0 to count
        invariant Valid() && Narrow() && Describes(info) && Abs() == m
        invariant |frames| == i && RunState(old(Abs()), m, info.pageDirectory, start, frames, count - i)
      {
        ghost var frame := MapNext(info, start + i, start, frames, count - i, old(Abs()));
        frames := frames + [frame];
        m := Abs();
      }
    }

    /** One turn of the loop, after `frames` have been mapped since `before`. */
    method MapNext(info: PagingInfo, page: nat, ghost start: nat, ghost frames: seq<nat>, ghost left: nat,
                   ghost before: Memory) returns (ghost frame: nat)
      requires Valid() && Describes(info) && Narrow() && left > 0 && page == start + |frames| < PAGE_COUNT
      requires RunState(before, Abs(), info.pageDirectory, start, frames, left)
      modifies `entries, `directories, kernelPhysicalPages.Repr
      ensures Valid() && Narrow()
      ensures RunState(before, Abs(), info.pageDirectory, start, frames + [frame], left - 1)
    {
      ghost var m, newTable := Abs(), 0;
      frame, newTable := MapFreshPage(info, page);
      RunExtends(before, m, Abs(), info.pageDirectory, start, frames, left, frame, newTable);
    }

    /** The lowest fitting run of free pages is found and reserved; no frame or table is touched. */
    method ReserveFreeRun(info: PagingInfo, count: nat) returns (start: nat)
      requires Valid() && Describes(info) && exists p: nat :: info.Fits(p, count)
      modifies info.Repr
      ensures Valid() && Describes(info) && Abs() == old(Abs()) && start + count <= PAGE_COUNT
      ensures old(info.RunFree(start, count) && info.NoFitBelow(start, count))
      ensures forall p: nat | p < PAGE_COUNT ::
                info.Allocated(p) == (start <= p < start + count || old(info.Allocated(p)))
    {
      start := info.FindMultiplePages(count);
      info.ReservePagesCount(start, count);
    }

    /** The two searches of `getPage`. */
    method ReserveFrameAndPage() returns (frame: nat, page: nat)
      requires Valid() && Describes(kernelVirtualPages) && |FreeFrames(Abs())| >= 2
      requires exists p: nat :: kernelVirtualPages.Fits(p, 1)
      modifies kernelPhysicalPages.Repr, kernelVirtualPages.Repr
      ensures Valid() && Describes(kernelVirtualPages)
      ensures Available(old(Abs()), frame) && exists f: nat :: Available(Abs(), f)
      ensures Abs() == old(Abs()).(frames := old(Abs().frames) + {frame})
      ensures page < PAGE_COUNT && !old(kernelVirtualPages.Allocated(page))
      ensures forall p: nat | p < PAGE_COUNT ::
                kernelVirtualPages.Allocated(p) == (p == page || old(kernelVirtualPages.Allocated(p)))
    {
      ghost var fit: nat :| kernelVirtualPages.Fits(fit, 1);
      frame := ReserveFirstOfTwo();
      assert kernelVirtualPages.Fits(fit, 1);
      page := ReserveFreeRun(kernelVirtualPages, 1);
    }

    /** `getPage`: a free kernel page, mapped to a frame that nothing else uses. */
    method GetPage() returns (address: nat, ghost frame: nat, ghost newTable: nat)
      requires Valid() && Describes(kernelVirtualPages) && Narrow() && |FreeFrames(Abs())| >= 2
      requires exists p: nat :: kernelVirtualPages.Fits(p, 1)
      modifies `entries, `directories, kernelPhysicalPages.Repr, kernelVirtualPages.Repr
      ensures Valid() && Narrow() && Describes(kernelVirtualPages)
      ensures var page := address / PAGE_SIZE;
              && address % PAGE_SIZE == 0 && page < PAGE_COUNT && !old(kernelVirtualPages.Allocated(page))
              && (forall p: nat | p < PAGE_COUNT ::
                    kernelVirtualPages.Allocated(p) == (p == page || old(kernelVirtualPages.Allocated(p))))
              && Takes(old(Abs()), Map(kernelVirtualPages.pageDirectory, page, frame, newTable), Abs())
    {
      var physical, page := ReserveFrameAndPage();
      frame := physical;
      newTable := MapPage(kernelVirtualPages, physical, page);
      address := page * PAGE_SIZE;
    }

    /** `getPagesCount`: free kernel pages in a row, mapped to distinct fresh frames. */
    method GetPagesCount(count: nat) returns (address: nat, ghost start: nat, ghost frames: seq<nat>)
      requires Valid() && Describes(kernelVirtualPages) && Narrow()
      requires Exclusive(Abs()) && |FreeFrames(Abs())| >= 2 * count
      requires exists p: nat :: kernelVirtualPages.Fits(p, count)
      modifies `entries, `directories, kernelPhysicalPages.Repr, kernelVirtualPages.Repr
      ensures Valid() && Narrow() && Describes(kernelVirtualPages) && Exclusive(Abs()) && |frames| == count
      ensures address == start * PAGE_SIZE && start + count <= PAGE_COUNT
      ensures old(kernelVirtualPages.RunFree(start, count) && kernelVirtualPages.NoFitBelow(start, count))
      ensures forall p: nat | p < PAGE_COUNT ::
                kernelVirtualPages.Allocated(p) == (start <= p < start + count || old(kernelVirtualPages.Allocated(p)))
      ensures RunMapped(old(Abs()), Abs(), kernelVirtualPages.pageDirectory, start, frames)
    {
      var virtualPageId := ReserveFreeRun(kernelVirtualPages, count);
      start := virtualPageId;
      frames := MapRun(kernelVirtualPages, virtualPageId, count);
      address := virtualPageId * PAGE_SIZE;
    }

    /** The pages of a memory request, from the given start or at the lowest fitting run, are reserved. */
    method ReserveChosenRun(info: PagingInfo, target: nat, count: nat) returns (start: nat)
      requires Valid() && Describes(info)
      requires if target / PAGE_SIZE == 0 then exists p: nat :: info.Fits(p, count)
               else target / PAGE_SIZE + count <= PAGE_COUNT
      modifies info.Repr
      ensures Valid() && Describes(info) && Abs() == old(Abs()) && start + count <= PAGE_COUNT
      ensures if target / PAGE_SIZE == 0 then old(info.Fits(start, count) && info.NoFitBelow(start, count))
              else start == target / PAGE_SIZE
      ensures forall p: nat | p < PAGE_COUNT ::
                info.Allocated(p) == (start <= p < start + count || old(info.Allocated(p)))
    {
      start := target / PAGE_SIZE;
      if start == 0 {
        start := info.FindMultiplePages(count);
      }
      info.ReservePagesCount(start, count);
    }

    /** A memory request whose pages lie inside the address space. */
    method RequestRange(info: PagingInfo, pageCount: nat, target: nat)
      returns (returnValue: nat, ghost frames: seq<nat>)
      requires Valid() && Describes(info) && Narrow()
      requires Exclusive(Abs()) && |FreeFrames(Abs())| >= 2 * pageCount
      requires if target / PAGE_SIZE == 0 then exists p: nat :: info.Fits(p, pageCount)
               else target / PAGE_SIZE + pageCount <= PAGE_COUNT
      modifies `entries, `directories, kernelPhysicalPages.Repr, info.Repr
      ensures Valid() && Narrow() && Describes(info) && Exclusive(Abs()) && |frames| == pageCount
      ensures var start := returnValue / PAGE_SIZE;
              && returnValue % PAGE_SIZE == 0 && start + pageCount <= PAGE_COUNT
              && (if target / PAGE_SIZE == 0 then old(info.Fits(start, pageCount) && info.NoFitBelow(start, pageCount))
                  else start == target / PAGE_SIZE)
              && (forall p: nat | p < PAGE_COUNT :: info.Allocated(p)
                    == (start <= p < start + pageCount || old(info.Allocated(p))))
              && RunMapped(old(Abs()), Abs(), info.pageDirectory, start, frames)
    {
      var start := ReserveChosenRun(info, target, pageCount);
      frames := MapRun(info, start, pageCount);
      returnValue := start * PAGE_SIZE;
    }

    /** `handleRequestMemorySyscall` without a physical address: `pageCount` pages from the chosen start on are
        mapped to distinct fresh frames.  An explicit range that leaves the address space, which the code does not
        look for, makes it write past the end of its bitmap; then there is no result, and nothing is said of what the
        bitmaps and tables hold. */
    method RequestMemory(info: PagingInfo, pageCount: nat, target: nat)
      returns (returnValue: Option<nat>, ghost frames: seq<nat>)
      requires Valid() && Describes(info) && Narrow()
      requires Exclusive(Abs()) && |FreeFrames(Abs())| >= 2 * pageCount
      requires target / PAGE_SIZE == 0 ==> exists p: nat :: info.Fits(p, pageCount)
      modifies `entries, `directories, kernelPhysicalPages.Repr, info.Repr
      ensures returnValue.None? <==> target / PAGE_SIZE != 0 && target / PAGE_SIZE + pageCount > PAGE_COUNT
      ensures returnValue.Some? ==> Valid() && Narrow() && Describes(info) && Exclusive(Abs())
      ensures returnValue.Some?
              ==> Requested(old(Abs()), Abs(), info.pageDirectory, returnValue.value, frames, pageCount)
      ensures returnValue.Some? ==>
                var start := returnValue.value / PAGE_SIZE;
                && (if target / PAGE_SIZE == 0
                    then old(info.Fits(start, pageCount) && info.NoFitBelow(start, pageCount))
                    else start == target / PAGE_SIZE)
                && (forall p: nat | p < PAGE_COUNT :: info.Allocated(p)
                      == (start <= p < start + pageCount || old(info.Allocated(p))))
    {
      if target / PAGE_SIZE != 0 && target / PAGE_SIZE + pageCount > PAGE_COUNT {
        return None, [];
      }
      var address: nat;
      address, frames := RequestRange(info, pageCount, target);
      returnValue := Some(address);
    }

    /** The table entry of a page, and the frame that `getPhysicalAddress` finds in it. */
    method EntryOf(directory: nat, page: nat) returns (key: (nat, nat), frame: nat)
      requires Valid() && Narrow()
      ensures key == (TableOrZero(Abs(), directory, Slot(page)), Index(page))
      ensures frame == Released(Abs(), directory, page) < FRAME_COUNT
    {
      var slot := (directory, Slot(page));
      var table := if slot in directories then directories[slot] else 0;
      key := (table, Index(page));
      frame := if key in entries then entries[key].target else 0;
    }

    method FreeFrame(frame: nat)
      requires Valid() && frame < FRAME_COUNT
      modifies kernelPhysicalPages.Repr
      ensures Valid() && Abs() == old(Abs()).(frames := old(Abs().frames) - {frame})
    {
      kernelPhysicalPages.MarkPageFree(frame / 32, frame % 32);
    }

    /** One round of `giveUpPage`. */
    method ReleasePage(info: PagingInfo, page: nat)
      requires Valid() && Describes(info) && Narrow() && page < PAGE_COUNT
      modifies `entries, kernelPhysicalPages.Repr, info.Repr
      ensures Valid() && Narrow() && Describes(info)
      ensures Abs() == GiveUp(old(Abs()), info.pageDirectory, page)
      ensures forall p: nat | p < PAGE_COUNT :: info.Allocated(p) == (p != page && old(info.Allocated(p)))
      ensures forall p: nat | p < PAGE_COUNT :: info.Connected(p) == (p != page && old(info.Connected(p)))
    {
      var key, physicalId := EntryOf(info.pageDirectory, page);
      FreeFrame(physicalId);
      info.MarkPageFree(page / 32, page % 32);
      entries := entries[key := ZERO_ENTRY];
    }

    /** `giveUpPage`: whatever pages are connected, exactly one page is released, because the first round clears
        the bit that the loop tests. */
    method GiveUpPage(info: PagingInfo, pageId: nat)
      requires Valid() && Describes(info) && Narrow() && pageId < PAGE_COUNT
      modifies `entries, kernelPhysicalPages.Repr, info.Repr
      ensures Valid() && Narrow() && Describes(info)
      ensures Abs() == GiveUp(old(Abs()), info.pageDirectory, pageId)
      ensures forall p: nat | p < PAGE_COUNT :: info.Allocated(p) == (p != pageId && old(info.Allocated(p)))
      ensures forall p: nat | p < PAGE_COUNT :: info.Connected(p) == (p != pageId && old(info.Connected(p)))
    {
      var current, more := pageId, true;
      while more
        invariant Valid() && Narrow() && Describes(info)
        invariant more ==> current == pageId && Abs() == old(Abs())
        invariant more ==> forall p: nat | p < PAGE_COUNT ::
                    info.Allocated(p) == old(info.Allocated(p)) && info.Connected(p) == old(info.Connected(p))
        invariant !more ==> Abs() == GiveUp(old(Abs()), info.pageDirectory, pageId)
        invariant !more ==> forall p: nat | p < PAGE_COUNT ::
                    && info.Allocated(p) == (p != pageId && old(info.Allocated(p)))
                    && info.Connected(p) == (p != pageId && old(info.Connected(p)))
        decreases more
      {
        ReleasePage(info, current);
        more := info.isPageConnectedToNext[current / 32][current % 32];
        assert more == info.Connected(current);
        current := current + 1;
      }
    }
  }
}
