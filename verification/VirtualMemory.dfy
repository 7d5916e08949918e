/**
 Two-level page tables over a pool of frames from which the tables themselves are taken.

 The frame search is left open here: a step may take any free frame from the search start on.  The search of
 `Paging` picks the lowest one, so every run of the kernel is a run of this machine.
 */
module VirtualMemory {
  import opened Optional

  const FRAME_COUNT := 0x10_0000
  const TABLE_SIZE := 0x400
  const PAGE_SIZE := 0x1000

  /** Frames below this one are reserved at boot and may be shared; the frame search starts at 0x800. */
  const FIRST_FRAME := 0x900
  const SEARCH_START := 0x800

  /** An entry of a page table: its present bit and its frame number. */
  datatype Entry = Entry(present: bool, target: nat)

  const ZERO_ENTRY := Entry(false, 0)

  /** The allocated frames; the nonzero table entries that frames hold, by frame and index; and the present slots
      of all directories, by address space and slot.  Space 0 is the kernel's. */
  datatype Memory = Memory(
    frames: set<nat>,
    entries: map<(nat, nat), Entry>,
    directories: map<(nat, nat), nat>)

  /** The table that directory slot `slot` of `space` points to. */
  function TableOf(m: Memory, space: nat, slot: nat): Option<nat> {
    if (space, slot) in m.directories then Some(m.directories[(space, slot)]) else None
  }

  function ReadEntry(m: Memory, frame: nat, index: nat): Entry {
    if (frame, index) in m.entries then m.entries[(frame, index)] else ZERO_ENTRY
  }

  function Slot(page: nat): nat {
    page / TABLE_SIZE
  }

  function Index(page: nat): nat {
    page % TABLE_SIZE
  }

  /** The frame that a page is mapped to. */
  function Target(m: Memory, space: nat, page: nat): Option<nat> {
    match TableOf(m, space, Slot(page))
    case None => None
    case Some(table) =>
      var entry := ReadEntry(m, table, Index(page));
      if entry.present then Some(entry.target) else None
  }

  /** `getPhysicalAddress`, which looks at no present bit: an absent slot has table number 0. */
  function PhysicalAddress(m: Memory, space: nat, address: nat): nat {
    var page := address / PAGE_SIZE;
    ReadEntry(m, TableOrZero(m, space, Slot(page)), Index(page)).target * PAGE_SIZE + address % PAGE_SIZE
  }

  // ----- steps -------------------------------------------------------------------------------

  function WriteEntry(m: Memory, frame: nat, index: nat, entry: Entry): Memory {
    m.(entries := m.entries[(frame, index) := entry])
  }

  function Zeroed(m: Memory, frame: nat): Memory {
    m.(entries := map k | k in m.entries && k.0 != frame :: m.entries[k])
  }

  /** The first part of `mapPage`: an empty directory slot gets the reserved and zeroed table `newTable`. */
  function PrepareSlot(m: Memory, space: nat, slot: nat, newTable: nat): Memory {
    if TableOf(m, space, slot).Some? then m
    else
      Zeroed(m, newTable).(frames := m.frames + {newTable}, directories := m.directories[(space, slot) := newTable])
  }

  /** `mapPage`, with `newTable` the frame that the search yields if the directory slot is empty. */
  function MapPage(m: Memory, space: nat, frame: nat, page: nat, newTable: nat): Memory {
    var prepared := PrepareSlot(m, space, Slot(page), newTable);
    WriteEntry(prepared, prepared.directories[(space, Slot(page))], Index(page), Entry(true, frame))
  }

  /** One page of `getPage`, `getPagesCount` or an anonymous memory request: a free frame is reserved and mapped. */
  function MapFresh(m: Memory, space: nat, page: nat, frame: nat, newTable: nat): Memory {
    MapPage(m.(frames := m.frames + {frame}), space, frame, page, newTable)
  }

  /** The table that `getPhysicalAddress` and `unmapSinglePageFrom` look into, whether or not the slot is present. */
  function TableOrZero(m: Memory, space: nat, slot: nat): nat {
    match TableOf(m, space, slot) case None => 0 case Some(table) => table
  }

  /** The frame that `giveUpPage` releases. */
  function Released(m: Memory, space: nat, page: nat): nat {
    PhysicalAddress(m, space, page * PAGE_SIZE) / PAGE_SIZE
  }

  /** `giveUpPage`. */
  function GiveUp(m: Memory, space: nat, page: nat): Memory {
    WriteEntry(m.(frames := m.frames - {Released(m, space, page)}),
               TableOrZero(m, space, Slot(page)), Index(page), ZERO_ENTRY)
  }

  /** A program writes to a page of its own: the frame it is mapped to now holds something else at `index`. */
  function Store(m: Memory, space: nat, page: nat, index: nat, entry: Entry): Memory
    requires Target(m, space, page).Some?
  {
    WriteEntry(m, Target(m, space, page).value, index, entry)
  }

  /** The table that slot `slot` points to in a directory that lies in `frame`. */
  function Held(m: Memory, frame: nat, slot: nat): Option<nat> {
    var entry := ReadEntry(m, frame, slot);
    if entry.present then Some(entry.target) else None
  }

  /** The frame that a directory in `frame` leads page `page` to. */
  function HeldTarget(m: Memory, frame: nat, page: nat): Option<nat> {
    match Held(m, frame, Slot(page))
    case None => None
    case Some(table) => Held(m, table, Index(page))
  }

  /** `loadElf` makes an address space of a page that it got from `malloc(0x1000)` and does not clear: the directory
      begins with what `frame` holds. */
  function Create(m: Memory, space: nat, frame: nat): Memory {
    m.(directories := m.directories
        + map k | k in m.entries && k.0 == frame && m.entries[k].present :: (space, k.1) := m.entries[k].target)
  }

  // ----- the invariant -----------------------------------------------------------------------

  /** Directory slots in use point to distinct, allocated frames other than frame 0. */
  ghost predicate TablesExclusive(m: Memory) {
    && (forall s: nat, d: nat | TableOf(m, s, d).Some? ::
          TableOf(m, s, d).value in m.frames && TableOf(m, s, d).value != 0)
    && (forall s: nat, d: nat, s': nat, d': nat | TableOf(m, s, d).Some? && TableOf(m, s, d) == TableOf(m, s', d') ::
          s == s' && d == d')
  }

  /** Page `page` of `space` is mapped to a frame that was handed out after boot. */
  predicate MapsPooled(m: Memory, space: nat, page: nat) {
    Target(m, space, page).Some? && Target(m, space, page).value >= FIRST_FRAME
  }

  /** Pooled frames that pages are mapped to are allocated, are no tables, and each has one page. */
  ghost predicate TargetsExclusive(m: Memory) {
    && (forall s: nat, p: nat | MapsPooled(m, s, p) :: Target(m, s, p).value in m.frames)
    && (forall s: nat, p: nat, s': nat, d: nat | MapsPooled(m, s, p) && TableOf(m, s', d).Some? ::
          TableOf(m, s', d).value != Target(m, s, p).value)
    && (forall s: nat, p: nat, s': nat, p': nat | MapsPooled(m, s, p) && MapsPooled(m, s', p')
                                               && Target(m, s, p).value == Target(m, s', p').value ::
          s == s' && p == p')
  }

  /** The frames between the search start and the pool stay reserved, and absent entries of tables are zero. */
  ghost predicate Tidy(m: Memory) {
    && (forall f: nat | SEARCH_START <= f < FIRST_FRAME :: f in m.frames)
    && (forall s: nat, d: nat, i: nat | TableOf(m, s, d).Some? && !ReadEntry(m, TableOf(m, s, d).value, i).present ::
          ReadEntry(m, TableOf(m, s, d).value, i).target == 0)
  }

  ghost predicate Exclusive(m: Memory) {
    TablesExclusive(m) && TargetsExclusive(m) && Tidy(m)
  }

  /** A frame that the search may yield. */
  predicate Available(m: Memory, frame: nat) {
    SEARCH_START <= frame < FRAME_COUNT && frame !in m.frames
  }

  // ----- what one step changes ---------------------------------------------------------------

  lemma SameEntrySamePage(p: nat, q: nat)
    requires Slot(p) == Slot(q) && Index(p) == Index(q)
    ensures p == q
  {
  }

  /** Preparing a slot adds a table to that slot and changes no translation. */
  lemma PrepareSlotEffect(m: Memory, space: nat, slot: nat, newTable: nat)
    requires TablesExclusive(m) && (TableOf(m, space, slot).None? ==> newTable !in m.frames)
    ensures var t := PrepareSlot(m, space, slot, newTable);
            && (forall s: nat, d: nat :: TableOf(t, s, d)
                  == if s == space && d == slot && TableOf(m, s, d).None? then Some(newTable) else TableOf(m, s, d))
            && (forall s: nat, p: nat :: Target(t, s, p) == Target(m, s, p))
  {
    var t := PrepareSlot(m, space, slot, newTable);
    forall s: nat, p: nat ensures Target(t, s, p) == Target(m, s, p) {
      if TableOf(m, space, slot).None? {
        assert TableOf(m, s, Slot(p)).Some? ==> TableOf(m, s, Slot(p)).value != newTable;
      }
    }
  }

  /** Writing through a directory slot changes the translation of one page in one space. */
  lemma WriteEntryEffect(m: Memory, space: nat, page: nat, entry: Entry)
    requires TablesExclusive(m) && TableOf(m, space, Slot(page)).Some?
    ensures var t := WriteEntry(m, m.directories[(space, Slot(page))], Index(page), entry);
            && (forall s: nat, d: nat :: TableOf(t, s, d) == TableOf(m, s, d))
            && (forall s: nat, p: nat :: Target(t, s, p)
                  == if s == space && p == page then (if entry.present then Some(entry.target) else None)
                     else Target(m, s, p))
  {
    var t := WriteEntry(m, m.directories[(space, Slot(page))], Index(page), entry);
    forall s: nat, p: nat ensures Target(t, s, p)
         == if s == space && p == page then (if entry.present then Some(entry.target) else None) else Target(m, s, p) {
      assert TableOf(t, s, Slot(p)) == TableOf(m, s, Slot(p));
      if TableOf(m, s, Slot(p)) == TableOf(m, space, Slot(page)) && Index(p) == Index(page) {
        SameEntrySamePage(p, page);
      }
    }
  }

  /** After `mapPage` the page leads to the given frame, and every other page of every address space leads where it
      did, also when a new table is taken from the pool and zeroed on the way. */
  lemma MapPageEffect(m: Memory, space: nat, frame: nat, page: nat, newTable: nat)
    requires TablesExclusive(m)
    requires TableOf(m, space, Slot(page)).None? ==> newTable !in m.frames && newTable != 0
    ensures var t := MapPage(m, space, frame, page, newTable);
            && TablesExclusive(t)
            && (forall s: nat, p: nat ::
                  Target(t, s, p) == if s == space && p == page then Some(frame) else Target(m, s, p))
            && (forall s: nat, d: nat :: TableOf(t, s, d)
                  == if s == space && d == Slot(page) && TableOf(m, s, d).None? then Some(newTable)
                     else TableOf(m, s, d))
  {
    PrepareSlotEffect(m, space, Slot(page), newTable);
    var prepared := PrepareSlot(m, space, Slot(page), newTable);
    PreparedTables(m, space, Slot(page), newTable);
    WriteEntryEffect(prepared, space, page, Entry(true, frame));
    var t := MapPage(m, space, frame, page, newTable);
    assert forall s: nat, d: nat :: TableOf(t, s, d) == TableOf(prepared, s, d);
  }

  lemma PreparedTables(m: Memory, space: nat, slot: nat, newTable: nat)
    requires TablesExclusive(m) && (TableOf(m, space, slot).None? ==> newTable !in m.frames && newTable != 0)
    ensures TablesExclusive(PrepareSlot(m, space, slot, newTable))
  {
    PrepareSlotEffect(m, space, slot, newTable);
  }

  /** `getPhysicalAddress` of any address in a mapped page is its frame plus the offset. */
  lemma PhysicalAddressOfMapped(m: Memory, space: nat, address: nat)
    requires Target(m, space, address / PAGE_SIZE).Some?
    ensures PhysicalAddress(m, space, address)
         == Target(m, space, address / PAGE_SIZE).value * PAGE_SIZE + address % PAGE_SIZE
  {
  }

  /** The translation of addresses after `mapPage`. */
  lemma AddressesAfterMapPage(m: Memory, space: nat, frame: nat, page: nat, newTable: nat, s: nat, address: nat)
    requires TablesExclusive(m)
    requires TableOf(m, space, Slot(page)).None? ==> newTable !in m.frames && newTable != 0
    ensures var t := MapPage(m, space, frame, page, newTable);
            && (s == space && address / PAGE_SIZE == page ==>
                  PhysicalAddress(t, s, address) == frame * PAGE_SIZE + address % PAGE_SIZE)
            && (!(s == space && address / PAGE_SIZE == page) && Target(m, s, address / PAGE_SIZE).Some? ==>
                  PhysicalAddress(t, s, address) == PhysicalAddress(m, s, address))
  {
    MapPageEffect(m, space, frame, page, newTable);
    var t := MapPage(m, space, frame, page, newTable);
    if Target(t, s, address / PAGE_SIZE).Some? {
      PhysicalAddressOfMapped(t, s, address);
    }
    if Target(m, s, address / PAGE_SIZE).Some? {
      PhysicalAddressOfMapped(m, s, address);
    }
  }

  // ----- every step keeps the invariant ------------------------------------------------------

  /** A reserved frame that nothing refers to yet. */
  lemma ReserveFrame(m: Memory, frame: nat)
    requires Exclusive(m)
    ensures Exclusive(m.(frames := m.frames + {frame}))
  {
    var t := m.(frames := m.frames + {frame});
    assert forall s: nat, d: nat :: TableOf(t, s, d) == TableOf(m, s, d);
    assert forall s: nat, p: nat :: Target(t, s, p) == Target(m, s, p);
    assert forall f: nat, i: nat :: ReadEntry(t, f, i) == ReadEntry(m, f, i);
  }

  lemma MapFreshTidy(m: Memory, space: nat, frame: nat, page: nat, newTable: nat)
    requires TablesExclusive(m) && Tidy(m)
    requires TableOf(m, space, Slot(page)).None? ==> newTable !in m.frames && newTable != 0
    ensures Tidy(MapPage(m, space, frame, page, newTable))
  {
    var prepared := PrepareSlot(m, space, Slot(page), newTable);
    PrepareSlotEffect(m, space, Slot(page), newTable);
    assert forall s: nat, d: nat, i: nat | TableOf(m, s, d).Some? ::
        ReadEntry(prepared, TableOf(m, s, d).value, i) == ReadEntry(m, TableOf(m, s, d).value, i);
    var t := MapPage(m, space, frame, page, newTable);
    assert forall s: nat, d: nat :: TableOf(t, s, d) == TableOf(prepared, s, d);
    assert forall f: nat, i: nat ::
             ReadEntry(t, f, i) == ReadEntry(prepared, f, i) || ReadEntry(t, f, i) == Entry(true, frame);
  }

  /** How the mappings of `t` differ from those of `m` when a fresh frame is mapped. */
  ghost predicate MappedFresh(m: Memory, t: Memory, space: nat, page: nat, frame: nat, newTable: nat) {
    && (forall s: nat, p: nat :: Target(t, s, p) == if s == space && p == page then Some(frame) else Target(m, s, p))
    && (forall s: nat, d: nat :: TableOf(t, s, d)
          == if s == space && d == Slot(page) && TableOf(m, s, d).None? then Some(newTable) else TableOf(m, s, d))
    && t.frames == m.frames + {frame} + if TableOf(m, space, Slot(page)).None? then {newTable} else {}
  }

  lemma MapFreshEffect(m: Memory, space: nat, page: nat, frame: nat, newTable: nat)
    requires Exclusive(m)
    requires TableOf(m, space, Slot(page)).None? ==> newTable !in m.frames + {frame} && newTable != 0
    ensures MappedFresh(m, MapFresh(m, space, page, frame, newTable), space, page, frame, newTable)
    ensures TablesExclusive(MapFresh(m, space, page, frame, newTable))
            && Tidy(MapFresh(m, space, page, frame, newTable))
  {
    var reserved := m.(frames := m.frames + {frame});
    ReserveFrame(m, frame);
    MapPageEffect(reserved, space, frame, page, newTable);
    MapFreshTidy(reserved, space, frame, page, newTable);
    assert forall s: nat, p: nat :: Target(reserved, s, p) == Target(m, s, p);
    assert forall s: nat, d: nat :: TableOf(reserved, s, d) == TableOf(m, s, d);
  }

  lemma FreshTargets(m: Memory, t: Memory, space: nat, page: nat, frame: nat, newTable: nat)
    requires TablesExclusive(m) && TargetsExclusive(m) && frame !in m.frames
    requires TableOf(m, space, Slot(page)).None? ==> newTable !in m.frames + {frame}
    requires MappedFresh(m, t, space, page, frame, newTable)
    ensures TargetsExclusive(t)
  {
    assert forall s: nat, p: nat | MapsPooled(t, s, p) && !(s == space && p == page) ::
        MapsPooled(m, s, p) && Target(m, s, p) == Target(t, s, p);
  }

  /** A fresh frame is mapped, with or without a fresh table. */
  lemma MapFreshKeepsExclusive(m: Memory, space: nat, page: nat, frame: nat, newTable: nat)
    requires Exclusive(m) && Available(m, frame)
    requires TableOf(m, space, Slot(page)).None? ==> Available(m, newTable) && newTable != frame
    ensures Exclusive(MapFresh(m, space, page, frame, newTable))
  {
    MapFreshEffect(m, space, page, frame, newTable);
    FreshTargets(m, MapFresh(m, space, page, frame, newTable), space, page, frame, newTable);
  }

  /** Nothing but page `page` of `space` depends on the frame that giving the page up releases. */
  ghost predicate OnlyUse(m: Memory, space: nat, page: nat) {
    var frame := Released(m, space, page);
    && !(SEARCH_START <= frame < FIRST_FRAME)
    && (forall s: nat, d: nat :: TableOf(m, s, d) != Some(frame))
    && (forall s: nat, p: nat | MapsPooled(m, s, p) && Target(m, s, p).value == frame :: s == space && p == page)
  }

  /** Giving a page up unmaps it and changes no other translation. */
  lemma GiveUpEffect(m: Memory, space: nat, page: nat)
    requires TablesExclusive(m)
    ensures var t := GiveUp(m, space, page);
            && (forall s: nat, d: nat :: TableOf(t, s, d) == TableOf(m, s, d))
            && (forall s: nat, p: nat :: Target(t, s, p) == if s == space && p == page then None else Target(m, s, p))
  {
    var t := GiveUp(m, space, page);
    assert forall s: nat, d: nat :: TableOf(t, s, d) == TableOf(m, s, d);
    if TableOf(m, space, Slot(page)).Some? {
      WriteEntryEffect(m, space, page, ZERO_ENTRY);
      var w := WriteEntry(m, m.directories[(space, Slot(page))], Index(page), ZERO_ENTRY);
      assert forall s: nat, p: nat :: Target(t, s, p) == Target(w, s, p);
    } else {
      forall s: nat, p: nat ensures Target(t, s, p) == Target(m, s, p) {
        assert TableOf(m, s, Slot(p)) != Some(0);
      }
    }
  }

  /** Giving a page up keeps the invariant exactly when no other use depends on the released frame. */
  lemma GiveUpKeepsExclusiveIff(m: Memory, space: nat, page: nat)
    requires Exclusive(m)
    ensures Exclusive(GiveUp(m, space, page)) <==> OnlyUse(m, space, page)
  {
    var t := GiveUp(m, space, page);
    var frame := Released(m, space, page);
    GiveUpEffect(m, space, page);
    assert t.frames == m.frames - {frame};
    assert forall f: nat, i: nat :: ReadEntry(t, f, i) == ReadEntry(m, f, i) || ReadEntry(t, f, i) == ZERO_ENTRY;
    if Exclusive(t) {
      forall s: nat, d: nat ensures TableOf(m, s, d) != Some(frame) {
        assert TableOf(t, s, d) == TableOf(m, s, d);
      }
      forall s: nat, p: nat | MapsPooled(m, s, p) && Target(m, s, p).value == frame ensures s == space && p == page {
        assert !MapsPooled(t, s, p);
      }
    }
    if OnlyUse(m, space, page) {
      assert TablesExclusive(t);
      assert TargetsExclusive(t) by {
        assert forall s: nat, p: nat | MapsPooled(t, s, p) :: MapsPooled(m, s, p) && Target(m, s, p) == Target(t, s, p);
      }
    }
  }

  /** A page that is mapped to a pooled frame may be given up, and so may a page of a present table that is not
      mapped at all. */
  lemma MappedPageIsOnlyUse(m: Memory, space: nat, page: nat)
    requires Exclusive(m)
    requires MapsPooled(m, space, page)
          || (TableOf(m, space, Slot(page)).Some? && Target(m, space, page).None?)
    ensures OnlyUse(m, space, page)
    ensures MapsPooled(m, space, page) ==> Released(m, space, page) == Target(m, space, page).value
  {
    var table := TableOf(m, space, Slot(page)).value;
    assert Released(m, space, page) == ReadEntry(m, table, Index(page)).target;
  }

  /** The condition does fail: with no table for the page, the frame number is read from frame 0, and whatever is
      stored there is released, here the kernel's own table. */
  lemma GiveUpWithoutTable(boot: Memory)
    requires IsBoot(boot)
    ensures var m := WriteEntry(boot, 0, 0, Entry(false, 0x501));
            IsBoot(m) && Exclusive(m) && !Exclusive(GiveUp(m, 1, 0))
  {
    var m := WriteEntry(boot, 0, 0, Entry(false, 0x501));
    assert IsBoot(m) by {
      assert forall f: nat, i: nat | f != 0 || i != 0 :: ReadEntry(m, f, i) == ReadEntry(boot, f, i);
    }
    BootExclusive(m);
    assert TableOf(m, 0, 0x3FE) == Some(0x501);
    GiveUpKeepsExclusiveIff(m, 1, 0);
  }

  /** What a program stores in a page of its own reaches no page table: all translations stay. */
  lemma StoreIsIsolated(m: Memory, space: nat, page: nat, index: nat, entry: Entry)
    requires Exclusive(m) && MapsPooled(m, space, page)
    ensures var t := Store(m, space, page, index, entry);
            && Exclusive(t)
            && (forall s: nat, d: nat :: TableOf(t, s, d) == TableOf(m, s, d))
            && (forall s: nat, p: nat :: Target(t, s, p) == Target(m, s, p))
  {
    var t := Store(m, space, page, index, entry);
    var frame := Target(m, space, page).value;
    assert forall s: nat, d: nat :: TableOf(t, s, d) == TableOf(m, s, d);
    forall s: nat, d: nat, i: nat | TableOf(m, s, d).Some?
      ensures ReadEntry(t, TableOf(m, s, d).value, i) == ReadEntry(m, TableOf(m, s, d).value, i)
    {
      assert TableOf(m, s, d).value != frame;
    }
    assert forall s: nat, p: nat :: Target(t, s, p) == Target(m, s, p);
  }

  // ----- new address spaces ------------------------------------------------------------------

  /** No directory slot of the space is in use. */
  ghost predicate Unused(m: Memory, space: nat) {
    forall d: nat :: TableOf(m, space, d).None?
  }

  /** The tables that `frame` names are allocated, are all different, are nobody else's tables or pages, and have no
      absent entry with a frame number. */
  ghost predicate TablesUsable(m: Memory, frame: nat) {
    && (forall d: nat | Held(m, frame, d).Some? ::
          Held(m, frame, d).value in m.frames && Held(m, frame, d).value != 0)
    && (forall d: nat, d': nat | Held(m, frame, d).Some? && Held(m, frame, d) == Held(m, frame, d') :: d == d')
    && (forall d: nat, s: nat, d': nat | Held(m, frame, d).Some? :: TableOf(m, s, d') != Held(m, frame, d))
    && (forall d: nat, s: nat, p: nat | Held(m, frame, d).Some? && MapsPooled(m, s, p) ::
          Target(m, s, p) != Held(m, frame, d))
    && (forall d: nat, i: nat | Held(m, frame, d).Some? && Held(m, Held(m, frame, d).value, i).None? ::
          ReadEntry(m, Held(m, frame, d).value, i).target == 0)
  }

  predicate HoldsPooled(m: Memory, frame: nat, page: nat) {
    HeldTarget(m, frame, page).Some? && HeldTarget(m, frame, page).value >= FIRST_FRAME
  }

  /** The pooled frames to which those tables lead are allocated, are no tables, and have no other page. */
  ghost predicate PagesUsable(m: Memory, frame: nat) {
    && (forall p: nat | HoldsPooled(m, frame, p) :: HeldTarget(m, frame, p).value in m.frames)
    && (forall p: nat, s: nat, d: nat | HoldsPooled(m, frame, p) :: TableOf(m, s, d) != HeldTarget(m, frame, p))
    && (forall p: nat, d: nat | HoldsPooled(m, frame, p) :: Held(m, frame, d) != HeldTarget(m, frame, p))
    && (forall p: nat, s: nat, q: nat | HoldsPooled(m, frame, p) && MapsPooled(m, s, q) ::
          Target(m, s, q) != HeldTarget(m, frame, p))
    && (forall p: nat, q: nat | HoldsPooled(m, frame, p) && HeldTarget(m, frame, p) == HeldTarget(m, frame, q) ::
          p == q)
  }

  /** How the mappings of `t` differ from those of `m` when `space` gets the directory in `frame`. */
  ghost predicate Created(m: Memory, t: Memory, space: nat, frame: nat) {
    && Unused(m, space) && t.frames == m.frames && t.entries == m.entries
    && (forall s: nat, d: nat :: TableOf(t, s, d) == if s == space then Held(m, frame, d) else TableOf(m, s, d))
    && (forall s: nat, p: nat ::
          Target(t, s, p) == if s == space then HeldTarget(m, frame, p) else Target(m, s, p))
  }

  lemma CreateEffect(m: Memory, space: nat, frame: nat)
    requires Unused(m, space)
    ensures Created(m, Create(m, space, frame), space, frame)
  {
    var t := Create(m, space, frame);
    forall s: nat, d: nat ensures TableOf(t, s, d) == if s == space then Held(m, frame, d) else TableOf(m, s, d) {
      assert TableOf(m, space, d).None?;
    }
  }

  lemma TablesUsableIf(m: Memory, t: Memory, space: nat, frame: nat)
    requires Created(m, t, space, frame) && Exclusive(m) && Exclusive(t)
    ensures TablesUsable(m, frame)
  {
    assert forall d: nat :: TableOf(t, space, d) == Held(m, frame, d);
    forall d: nat, s: nat, d': nat | Held(m, frame, d).Some? ensures TableOf(m, s, d') != Held(m, frame, d) {
      assert TableOf(m, s, d').Some? ==> s != space && TableOf(t, s, d') == TableOf(m, s, d');
    }
    forall d: nat, s: nat, p: nat | Held(m, frame, d).Some? && MapsPooled(m, s, p)
      ensures Target(m, s, p) != Held(m, frame, d)
    {
      StaysPooled(m, t, space, frame, s, p);
    }
    forall d: nat, i: nat | Held(m, frame, d).Some? && Held(m, Held(m, frame, d).value, i).None?
      ensures ReadEntry(m, Held(m, frame, d).value, i).target == 0
    {
      assert TableOf(t, space, d).Some? && !ReadEntry(t, TableOf(t, space, d).value, i).present;
    }
  }

  lemma StaysPooled(m: Memory, t: Memory, space: nat, frame: nat, s: nat, page: nat)
    requires Created(m, t, space, frame) && MapsPooled(m, s, page)
    ensures s != space && MapsPooled(t, s, page) && Target(t, s, page) == Target(m, s, page)
  {
    assert TableOf(m, s, Slot(page)).Some?;
  }

  lemma BecomesPooled(m: Memory, t: Memory, space: nat, frame: nat, page: nat)
    requires Created(m, t, space, frame)
    ensures MapsPooled(t, space, page) <==> HoldsPooled(m, frame, page)
    ensures Target(t, space, page) == HeldTarget(m, frame, page)
  {
  }

  lemma PagesUsableIf(m: Memory, t: Memory, space: nat, frame: nat)
    requires Created(m, t, space, frame) && TargetsExclusive(t)
    ensures PagesUsable(m, frame)
  {
    forall p: nat | HoldsPooled(m, frame, p) ensures HeldTarget(m, frame, p).value in m.frames {
      BecomesPooled(m, t, space, frame, p);
    }
    forall p: nat, s: nat, d: nat | HoldsPooled(m, frame, p) ensures TableOf(m, s, d) != HeldTarget(m, frame, p) {
      BecomesPooled(m, t, space, frame, p);
      assert TableOf(m, s, d).Some? ==> s != space && TableOf(t, s, d) == TableOf(m, s, d);
    }
    forall p: nat, d: nat | HoldsPooled(m, frame, p) ensures Held(m, frame, d) != HeldTarget(m, frame, p) {
      BecomesPooled(m, t, space, frame, p);
      assert TableOf(t, space, d) == Held(m, frame, d);
    }
    forall p: nat, s: nat, q: nat | HoldsPooled(m, frame, p) && MapsPooled(m, s, q)
      ensures Target(m, s, q) != HeldTarget(m, frame, p)
    {
      BecomesPooled(m, t, space, frame, p);
      StaysPooled(m, t, space, frame, s, q);
    }
    forall p: nat, q: nat | HoldsPooled(m, frame, p) && HeldTarget(m, frame, p) == HeldTarget(m, frame, q)
      ensures p == q
    {
      BecomesPooled(m, t, space, frame, p);
      BecomesPooled(m, t, space, frame, q);
    }
  }

  lemma CreatedTables(m: Memory, t: Memory, space: nat, frame: nat)
    requires Created(m, t, space, frame) && TablesExclusive(m) && Tidy(m) && TablesUsable(m, frame)
    ensures TablesExclusive(t) && Tidy(t)
  {
    assert forall f: nat, i: nat :: ReadEntry(t, f, i) == ReadEntry(m, f, i);
    forall s: nat, d: nat, i: nat | TableOf(t, s, d).Some? && !ReadEntry(t, TableOf(t, s, d).value, i).present
      ensures ReadEntry(t, TableOf(t, s, d).value, i).target == 0
    {
      if s == space {
        assert Held(m, Held(m, frame, d).value, i).None?;
      }
    }
  }

  lemma CreatedTargets(m: Memory, t: Memory, space: nat, frame: nat)
    requires Created(m, t, space, frame) && TargetsExclusive(m) && TablesUsable(m, frame) && PagesUsable(m, frame)
    ensures TargetsExclusive(t)
  {
    forall s: nat, p: nat | MapsPooled(t, s, p)
      ensures if s == space then HoldsPooled(m, frame, p) && Target(t, s, p) == HeldTarget(m, frame, p)
              else MapsPooled(m, s, p) && Target(t, s, p) == Target(m, s, p)
    {
    }
  }

  /** A new address space keeps frames exclusive if and only if what its directory's frame holds is usable. */
  lemma CreateKeepsExclusiveIff(m: Memory, space: nat, frame: nat)
    requires Exclusive(m) && Unused(m, space)
    ensures Exclusive(Create(m, space, frame)) <==> TablesUsable(m, frame) && PagesUsable(m, frame)
  {
    var t := Create(m, space, frame);
    CreateEffect(m, space, frame);
    if Exclusive(t) {
      TablesUsableIf(m, t, space, frame);
      PagesUsableIf(m, t, space, frame);
    }
    if TablesUsable(m, frame) && PagesUsable(m, frame) {
      CreatedTables(m, t, space, frame);
      CreatedTargets(m, t, space, frame);
    }
  }

  /** A frame without present entries is always usable. */
  lemma ClearedIsUsable(m: Memory, frame: nat)
    requires forall d: nat :: Held(m, frame, d).None?
    ensures TablesUsable(m, frame) && PagesUsable(m, frame)
  {
    assert forall p: nat :: HeldTarget(m, frame, p).None?;
  }

  /** The condition does fail: memory may hold anything when the machine starts, and the first frame that the kernel
      takes for a directory may name the kernel's own table. */
  lemma StaleDirectory(boot: Memory)
    requires IsBoot(boot) && ReadEntry(boot, 0x900, 0) == Entry(true, 0x501)
    ensures var got := Map(0, 0, 0x900, 0x901);
            && Enabled(boot, got)
            && Exclusive(Take(boot, got)) && Target(Take(boot, got), 0, 0) == Some(0x900)
            && Unused(Take(boot, got), 1) && !Exclusive(Create(Take(boot, got), 1, 0x900))
  {
    var got := Map(0, 0, 0x900, 0x901);
    BootExclusive(boot);
    StepKeepsExclusive(boot, got);
    MapFreshEffect(boot, 0, 0, 0x900, 0x901);
    var m := Take(boot, got);
    assert Held(m, 0x900, 0) == Some(0x501);
    assert TableOf(m, 0, 0x3FE) == TableOf(boot, 0, 0x3FE) == Some(0x501);
    CreateKeepsExclusiveIff(m, 1, 0x900);
  }

  // ----- runs --------------------------------------------------------------------------------

  datatype Step =
    | Map(space: nat, page: nat, frame: nat, newTable: nat)
    | Unmap(space: nat, page: nat)
    | Write(space: nat, page: nat, index: nat, entry: Entry)
    | NewSpace(space: nat, home: nat)

  /** What the frame search yields, which pages programs write to and give back, and what the kernel's page `home`
      holds when it becomes the directory of a new space. */
  ghost predicate Enabled(m: Memory, step: Step) {
    match step
    case Map(space, page, frame, newTable) =>
      && Available(m, frame)
      && (TableOf(m, space, Slot(page)).None? ==> Available(m, newTable) && newTable != frame)
    case Unmap(space, page) =>
      MapsPooled(m, space, page) || (TableOf(m, space, Slot(page)).Some? && Target(m, space, page).None?)
    case Write(space, page, _, _) => MapsPooled(m, space, page)
    case NewSpace(space, home) =>
      && MapsPooled(m, 0, home) && Unused(m, space)
      && TablesUsable(m, Target(m, 0, home).value) && PagesUsable(m, Target(m, 0, home).value)
  }

  ghost function Take(m: Memory, step: Step): Memory
    requires Enabled(m, step)
  {
    match step
    case Map(space, page, frame, newTable) => MapFresh(m, space, page, frame, newTable)
    case Unmap(space, page) => GiveUp(m, space, page)
    case Write(space, page, index, entry) => Store(m, space, page, index, entry)
    case NewSpace(space, home) => Create(m, space, Target(m, 0, home).value)
  }

  /** The memory as the boot code leaves it: the first 0x900 frames are reserved, and the two top slots of the
      kernel's directory map the kernel's code and data.  Other frames hold anything. */
  ghost predicate IsBoot(m: Memory) {
    && (forall f: nat :: f in m.frames <==> f < FIRST_FRAME)
    && m.directories == map[(0, 0x3FE) := 0x501, (0, 0x3FF) := 0x502]
    && (forall i: nat | i < TABLE_SIZE :: ReadEntry(m, 0x501, i) == Entry(true, 0x500 + i))
    && (forall i: nat | i < TABLE_SIZE :: ReadEntry(m, 0x502, i) == Entry(true, 0x100 + i))
    && (forall f: nat, i: nat | i >= TABLE_SIZE :: ReadEntry(m, f, i) == ZERO_ENTRY)
  }

  /** After boot the kernel finds its data from 0xFF800000 on at 0x500000, and its code from 0xFFC00000 on at 0x100000,
      4 MB each. */
  lemma BootAddresses(m: Memory, offset: nat)
    requires IsBoot(m) && offset < 0x40_0000
    ensures Target(m, 0, 0xFF800 + offset / 0x1000) == Some(0x500 + offset / 0x1000)
    ensures Target(m, 0, 0xFFC00 + offset / 0x1000) == Some(0x100 + offset / 0x1000)
    ensures PhysicalAddress(m, 0, 0xFF80_0000 + offset) == 0x50_0000 + offset
    ensures PhysicalAddress(m, 0, 0xFFC0_0000 + offset) == 0x10_0000 + offset
  {
    PhysicalAddressOfMapped(m, 0, 0xFF80_0000 + offset);
    PhysicalAddressOfMapped(m, 0, 0xFFC0_0000 + offset);
  }

  /** `kernelGetVirtualAddress`, in 32 bits. */
  function KernelVirtualAddress(address: nat): nat {
    if address < 0x10_0000 then 0
    else if address <= 0x50_0000 then (address + 0xFFC0_0000 - 0x10_0000) % 0x1_0000_0000
    else if address <= 0x90_0000 then address + 0xFF80_0000 - 0x50_0000
    else 0
  }

  lemma PageOf(base: nat, offset: nat)
    ensures (base * 0x1000 + offset) / 0x1000 == base + offset / 0x1000
  {
  }

  lemma KernelAddressLeadsBack(m: Memory, address: nat)
    requires IsBoot(m) && 0x10_0000 <= address < 0x90_0000 && address != 0x50_0000
    ensures Target(m, 0, KernelVirtualAddress(address) / 0x1000) == Some(address / 0x1000)
    ensures PhysicalAddress(m, 0, KernelVirtualAddress(address)) == address
  {
    var base, page := if address < 0x50_0000 then 0x100 else 0x500, if address < 0x50_0000 then 0xFFC00 else 0xFF800;
    var offset := address - base * 0x1000;
    assert KernelVirtualAddress(address) == page * 0x1000 + offset;
    PageOf(page, offset);
    PageOf(base, offset);
    BootAddresses(m, offset);
  }

  /** The kernel has no page at the null address. */
  lemma NullIsUnmapped(m: Memory)
    requires IsBoot(m)
    ensures Target(m, 0, 0) == None
  {
  }

  /** After boot, the address that the kernel computes for a physical one leads back to it exactly between 0x100000 and
      0x900000, except at 0x500000: there the sum wraps around to the null address. */
  lemma KernelAddressLeadsBackIff(m: Memory, address: nat)
    requires IsBoot(m) && address < 0x1_0000_0000
    ensures Target(m, 0, KernelVirtualAddress(address) / 0x1000) == Some(address / 0x1000)
       <==> 0x10_0000 <= address < 0x90_0000 && address != 0x50_0000
    ensures 0x10_0000 <= address < 0x90_0000 && address != 0x50_0000 ==>
              PhysicalAddress(m, 0, KernelVirtualAddress(address)) == address
  {
    if 0x10_0000 <= address < 0x90_0000 && address != 0x50_0000 {
      KernelAddressLeadsBack(m, address);
    } else if address == 0x90_0000 {
      BootAddresses(m, 0);
    } else {
      NullIsUnmapped(m);
    }
  }

  lemma BootExclusive(m: Memory)
    requires IsBoot(m)
    ensures Exclusive(m)
  {
    assert TablesExclusive(m);
    forall s: nat, p: nat ensures !MapsPooled(m, s, p) {
      if TableOf(m, s, Slot(p)).Some? {
        var entry := ReadEntry(m, TableOf(m, s, Slot(p)).value, Index(p));
        assert entry.target < FIRST_FRAME;
      }
    }
  }

  ghost predicate Takes(m: Memory, step: Step, next: Memory) {
    Enabled(m, step) && next == Take(m, step)
  }

  ghost predicate Follows(run: seq<Memory>, steps: seq<Step>, i: nat)
    requires i < |steps| < |run|
  {
    Takes(run[i], steps[i], run[i + 1])
  }

  ghost predicate IsRun(run: seq<Memory>, steps: seq<Step>) {
    && |run| == |steps| + 1
    && IsBoot(run[0])
    && forall i: nat | i < |steps| :: Follows(run, steps, i)
  }

  lemma StepKeepsExclusive(m: Memory, step: Step)
    requires Exclusive(m) && Enabled(m, step)
    ensures Exclusive(Take(m, step))
  {
    match step
    case Map(space, page, frame, newTable) => MapFreshKeepsExclusive(m, space, page, frame, newTable);
    case Unmap(space, page) =>
      MappedPageIsOnlyUse(m, space, page);
      GiveUpKeepsExclusiveIff(m, space, page);
    case Write(space, page, index, entry) => StoreIsIsolated(m, space, page, index, entry);
    case NewSpace(space, home) => CreateKeepsExclusiveIff(m, space, Target(m, 0, home).value);
  }

  lemma NextIsExclusive(run: seq<Memory>, steps: seq<Step>, i: nat)
    requires IsRun(run, steps) && i < |steps| && Exclusive(run[i])
    ensures Exclusive(run[i + 1])
  {
    assert Follows(run, steps, i);
    StepKeepsExclusive(run[i], steps[i]);
  }

  /** In every state of every run, over any number of address spaces that begin with an empty or usable
      directory: no pooled frame is mapped twice, none is both a table and a page, and all in use are allocated. */
  lemma {:induction false} FramesAreExclusive(run: seq<Memory>, steps: seq<Step>, n: nat)
    requires IsRun(run, steps) && n < |run|
    ensures Exclusive(run[n])
    decreases n
  {
    if n == 0 {
      BootExclusive(run[0]);
    } else {
      FramesAreExclusive(run, steps, n - 1);
      NextIsExclusive(run, steps, n - 1);
    }
  }

  /** The step maps or gives up this page, or makes its address space. */
  predicate Concerns(step: Step, space: nat, page: nat) {
    step.space == space && !step.Write? && (step.NewSpace? || step.page == page)
  }

  /** A page keeps its frame until a step maps or gives up that very page, or makes its address space. */
  lemma {:induction false} TranslationIsStable(run: seq<Memory>, steps: seq<Step>, start: nat, end: nat, space: nat,
                                               page: nat)
    requires IsRun(run, steps) && start <= end < |run|
    requires forall i | start <= i < end :: !Concerns(steps[i], space, page)
    ensures Target(run[end], space, page) == Target(run[start], space, page)
    decreases end
  {
    if start < end {
      TranslationIsStable(run, steps, start, end - 1, space, page);
      NextHasSameTarget(run, steps, end - 1, space, page);
    }
  }

  lemma NextHasSameTarget(run: seq<Memory>, steps: seq<Step>, i: nat, space: nat, page: nat)
    requires IsRun(run, steps) && i < |steps| && !Concerns(steps[i], space, page)
    ensures Target(run[i + 1], space, page) == Target(run[i], space, page)
  {
    FramesAreExclusive(run, steps, i);
    assert Follows(run, steps, i);
    StepSparesOtherPages(run[i], steps[i], space, page);
  }

  lemma StepSparesOtherPages(m: Memory, step: Step, space: nat, page: nat)
    requires Exclusive(m) && Enabled(m, step) && !Concerns(step, space, page)
    ensures Target(Take(m, step), space, page) == Target(m, space, page)
  {
    match step
    case Map(s, p, frame, newTable) =>
      MapFreshEffect(m, s, p, frame, newTable);
    case Unmap(s, p) => GiveUpEffect(m, s, p);
    case Write(s, p, index, entry) => StoreIsIsolated(m, s, p, index, entry);
    case NewSpace(s, home) => CreateEffect(m, s, Target(m, 0, home).value);
  }
}
