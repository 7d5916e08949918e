/**
 The page bitmaps of the kernel: one bit per page, and one summary bit per 32-page word that says whether the
 word is full.  A 32-bit word of the bitmap is modelled as its 32 bits, lowest first.
 */
module Paging {
  type Word = w: seq<bool> | |w| == 32 witness seq(32, _ => false)

  const PAGE_COUNT := 0x10_0000
  const WORD_COUNT := 0x8000
  const COARSE_COUNT := 0x400

  /** The word `~0`. */
  const FULL: Word := seq(32, _ => true)

  class PagingInfo {
    /** Which page directory belongs to these pages. */
    const pageDirectory: nat
    const isPageAllocated: array<Word>
    const isPageConnectedToNext: array<Word>
    const isPageAllocatedCoarse: array<Word>
    var pageSearchStart: nat

    ghost const Repr: set<object>

    ghost predicate Valid()
      reads this, Repr
    {
      && Repr == {this, isPageAllocated, isPageConnectedToNext, isPageAllocatedCoarse}
      && isPageAllocated.Length == isPageConnectedToNext.Length == WORD_COUNT
      && isPageAllocatedCoarse.Length == COARSE_COUNT
      && isPageAllocated != isPageConnectedToNext
      && isPageAllocated != isPageAllocatedCoarse && isPageConnectedToNext != isPageAllocatedCoarse
    }

    /** All bits clear, as after the kernel's `memset`. */
    constructor (directory: nat, start: nat)
      ensures Valid() && fresh(Repr) && Indexed() && pageDirectory == directory && pageSearchStart == start
      ensures forall p: nat | p < PAGE_COUNT :: !Allocated(p) && !Connected(p)
    {
      var fine := new Word[WORD_COUNT](_ => seq(32, _ => false));
      var connected := new Word[WORD_COUNT](_ => seq(32, _ => false));
      var coarse := new Word[COARSE_COUNT](_ => seq(32, _ => false));
      isPageAllocated, isPageConnectedToNext, isPageAllocatedCoarse := fine, connected, coarse;
      pageDirectory, pageSearchStart := directory, start;
      Repr := {this, fine, connected, coarse};
      new;
      forall w | 0 <= w < WORD_COUNT ensures isPageAllocated[w] != FULL {
        assert !isPageAllocated[w][0] && FULL[0];
      }
    }

    predicate Allocated(page: nat)
      requires Valid() && page < PAGE_COUNT
      reads this, Repr
    {
      isPageAllocated[page / 32][page % 32]
    }

    predicate Connected(page: nat)
      requires Valid() && page < PAGE_COUNT
      reads this, Repr
    {
      isPageConnectedToNext[page / 32][page % 32]
    }

    /** The summary bit of word `w`. */
    predicate MarkedFull(w: nat)
      requires Valid() && w < WORD_COUNT
      reads this, Repr
    {
      isPageAllocatedCoarse[w / 32][w % 32]
    }

    /** A summary bit is set exactly when its word is full. */
    ghost predicate Indexed()
      requires Valid()
      reads this, Repr
    {
      forall w: nat | w < WORD_COUNT :: MarkedFull(w) <==> isPageAllocated[w] == FULL
    }

    method ReservePage(pageId: nat)
      requires Valid() && pageId < PAGE_COUNT
      modifies isPageAllocated, isPageAllocatedCoarse
      ensures forall p: nat | p < PAGE_COUNT :: Allocated(p) == (p == pageId || old(Allocated(p)))
      ensures old(Indexed()) ==> Indexed()
    {
      var coarse := pageId / 32;
      isPageAllocated[coarse] := isPageAllocated[coarse][pageId % 32 := true];
      if isPageAllocated[coarse] == FULL {
        isPageAllocatedCoarse[coarse / 32] := isPageAllocatedCoarse[coarse / 32][coarse % 32 := true];
      }
      if old(isPageAllocated[coarse]) == FULL {
        assert isPageAllocated[coarse] == FULL;
      }
    }

    method MarkPageFree(coarse: nat, fine: nat)
      requires Valid() && coarse < WORD_COUNT && fine < 32
      modifies isPageAllocated, isPageConnectedToNext, isPageAllocatedCoarse
      ensures forall p: nat | p < PAGE_COUNT :: Allocated(p) == (p != 32 * coarse + fine && old(Allocated(p)))
      ensures forall p: nat | p < PAGE_COUNT :: Connected(p) == (p != 32 * coarse + fine && old(Connected(p)))
      ensures old(Indexed()) ==> Indexed()
    {
      isPageAllocated[coarse] := isPageAllocated[coarse][fine := false];
      isPageConnectedToNext[coarse] := isPageConnectedToNext[coarse][fine := false];
      isPageAllocatedCoarse[coarse / 32] := isPageAllocatedCoarse[coarse / 32][coarse % 32 := false];
      assert isPageAllocated[coarse] != FULL by {
        assert !isPageAllocated[coarse][fine] && FULL[fine];
      }
    }

    method ReservePagesCount(startPageId: nat, count: nat)
      requires Valid() && startPageId + count <= PAGE_COUNT
      modifies isPageAllocated, isPageAllocatedCoarse
      ensures forall p: nat | p < PAGE_COUNT ::
                Allocated(p) == (startPageId <= p < startPageId + count || old(Allocated(p)))
      ensures old(Indexed()) ==> Indexed()
    {
      for i := 0 to count
        invariant forall p: nat | p < PAGE_COUNT ::
                    Allocated(p) == (startPageId <= p < startPageId + i || old(Allocated(p)))
        invariant old(Indexed()) ==> Indexed()
      {
        ReservePage(startPageId + i);
      }
    }

    // ----- the search ------------------------------------------------------------------------

    /** The search starts at the first page of the 1024-page group that `pageSearchStart` lies in. */
    function RoundedStart(): nat
      reads this
    {
      pageSearchStart / 1024 * 1024
    }

    ghost predicate RunFree(page: nat, size: nat)
      requires Valid() && page + size <= PAGE_COUNT
      reads this, Repr
    {
      forall p: nat | page <= p < page + size :: !Allocated(p)
    }

    /** A run of `size` free pages inside the bitmap that starts, in a word with room, at or after the search
        start.  For a nonempty run the word of its first page has room anyway. */
    ghost predicate Fits(page: nat, size: nat)
      requires Valid()
      reads this, Repr
    {
      && RoundedStart() <= page < PAGE_COUNT && page + size <= PAGE_COUNT
      && !MarkedFull(page / 32) && RunFree(page, size)
    }

    /** No page below `bound` starts a fitting run. */
    ghost predicate NoFitBelow(bound: nat, size: nat)
      requires Valid()
      reads this, Repr
    {
      forall q: nat | q < bound :: !Fits(q, size)
    }

    /** The innermost loop: whether the `size` pages from `page` on are free. */
    method CheckRun(page: nat, size: nat) returns (free: bool)
      requires Valid() && page + size <= PAGE_COUNT
      ensures free <==> RunFree(page, size)
    {
      for check := 0 to size
        invariant RunFree(page, check)
      {
        if isPageAllocated[(page + check) / 32][(page + check) % 32] {
          assert Allocated(page + check);
          return false;
        }
      }
      return true;
    }

    /** The search for a run inside word `w`, whose summary bit is clear. */
    method SearchWord(w: nat, size: nat, ghost fit: nat) returns (found: bool, page: nat)
      requires Valid() && w < WORD_COUNT && RoundedStart() <= 32 * w && !MarkedFull(w)
      requires NoFitBelow(32 * w, size) && Fits(fit, size)
      ensures found ==> Fits(page, size) && NoFitBelow(page, size)
      ensures !found ==> NoFitBelow(32 * (w + 1), size)
    {
      for fine := 0 to 32
        invariant NoFitBelow(32 * w + fine, size)
      {
        page := 32 * w + fine;
        assert page <= fit;
        var free := CheckRun(page, size);
        if free {
          assert Fits(page, size);
          return true, page;
        }
      }
      return false, 0;
    }

    /** `findMultiplePages`: whenever a fitting run exists, the search stays inside the bitmap, ends, and yields
        the lowest one. */
    method FindMultiplePages(size: nat) returns (page: nat)
      requires Valid() && exists p: nat :: Fits(p, size)
      ensures Fits(page, size) && NoFitBelow(page, size)
    {
      ghost var fit: nat :| Fits(fit, size);
      var veryCoarse := pageSearchStart / 1024;
      while true
        invariant RoundedStart() <= 1024 * veryCoarse && NoFitBelow(1024 * veryCoarse, size)
        decreases fit - 1024 * veryCoarse
      {
        assert 1024 * veryCoarse <= fit;
        if isPageAllocatedCoarse[veryCoarse] == FULL {
          forall q: nat | 1024 * veryCoarse <= q < 1024 * (veryCoarse + 1) ensures !Fits(q, size) {
            SkipFullGroup(veryCoarse, q, size);
          }
          veryCoarse := veryCoarse + 1;
          continue;
        }
        var coarse := 0;
        while coarse < 32
          invariant coarse <= 32 && NoFitBelow(1024 * veryCoarse + 32 * coarse, size)
        {
          var w := 32 * veryCoarse + coarse;
          if isPageAllocatedCoarse[veryCoarse][coarse] {
            assert MarkedFull(w);
            assert forall q: nat | 32 * w <= q < 32 * (w + 1) :: q / 32 == w;
          } else {
            var found, candidate := SearchWord(w, size, fit);
            if found {
              return candidate;
            }
          }
          coarse := coarse + 1;
        }
        veryCoarse := veryCoarse + 1;
      }
    }

    lemma SkipFullGroup(group: nat, q: nat, size: nat)
      requires Valid() && group < COARSE_COUNT && isPageAllocatedCoarse[group] == FULL
      requires 1024 * group <= q < 1024 * (group + 1)
      ensures !Fits(q, size)
    {
      assert q / 32 / 32 == group;
      assert FULL[q / 32 % 32];
    }

    /** For a nonempty run the summary bits do not matter: the search yields what a plain scan over the page bits
        from the rounded start would. */
    lemma FitsIsPlainScan(page: nat, size: nat)
      requires Valid() && Indexed() && size > 0
      ensures Fits(page, size)
         <==> RoundedStart() <= page && page + size <= PAGE_COUNT && RunFree(page, size)
    {
      if RoundedStart() <= page && page + size <= PAGE_COUNT && RunFree(page, size) {
        assert !Allocated(page);
        assert !isPageAllocated[page / 32][page % 32] && FULL[page % 32];
      }
    }
  }
}
