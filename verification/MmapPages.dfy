/**
 * The mmap driver: aligning an allocation to a page, marking its pages reserved and unmarking
 * them, and mapping the buffer page by page or in one piece.
 */
module MmapPages {

  const PAGE_SIZE := 4096
  const BUF_LEN := 16 * 1024
  const ADDRESSES := 0x1_0000_0000_0000_0000

  // ---------------------------------------------------------------- alignment

  /** `(p + PAGE_SIZE - 1) & PAGE_MASK` on 64-bit addresses: the mask clears the low twelve bits. */
  function PageUp(p: nat): nat {
    var w := (p + PAGE_SIZE - 1) % ADDRESSES;
    w - w % PAGE_SIZE
  }

  /** The bit trick yields the least page boundary at or above the address exactly when the addition does not wrap. */
  lemma PageUpIsLeast(p: nat, q: nat)
    requires p < ADDRESSES
    ensures PageUp(p) % PAGE_SIZE == 0
    ensures PageUp(p) >= p <==> p + PAGE_SIZE - 1 < ADDRESSES
    ensures PageUp(p) >= p && q % PAGE_SIZE == 0 && q >= p ==> q >= PageUp(p)
  {
    if p + PAGE_SIZE - 1 < ADDRESSES {
      assert PageUp(p) >= p;
      if q % PAGE_SIZE == 0 && q >= p { NoBoundaryBetween(p, q); }
    } else {
      assert p + PAGE_SIZE - 1 - ADDRESSES < PAGE_SIZE;
      assert PageUp(p) == 0;
    }
  }

  lemma NoBoundaryBetween(p: nat, q: nat)
    requires q % PAGE_SIZE == 0 && q >= p
    ensures var w := p + PAGE_SIZE - 1; q >= w - w % PAGE_SIZE >= p
  {
    var w := p + PAGE_SIZE - 1;
    assert w == w / PAGE_SIZE * PAGE_SIZE + w % PAGE_SIZE;
    assert q == q / PAGE_SIZE * PAGE_SIZE;
    assert q / PAGE_SIZE >= w / PAGE_SIZE;
  }

  /** The aligned buffer lies inside an allocation of two pages more than its length. */
  lemma BufferFits(p: nat)
    requires p + BUF_LEN + 2 * PAGE_SIZE <= ADDRESSES
    ensures p <= PageUp(p) && PageUp(p) + BUF_LEN <= p + (BUF_LEN + 2 * PAGE_SIZE)
  {
  }

  // ---------------------------------------------------------------- reserved pages

  /** The first `n` pages of the buffer; `pageOf` is the kernel's translation of an address to its page. */
  function Pages(area: nat, n: nat, pageOf: nat -> nat): set<nat> {
    if n == 0 then {} else Pages(area, n - 1, pageOf) + {pageOf(area + (n - 1) * PAGE_SIZE)}
  }

  function AreaPages(area: nat, pageOf: nat -> nat): set<nat> {
    Pages(area, BUF_LEN / PAGE_SIZE, pageOf)
  }

  lemma {:induction false} PagesAre(area: nat, n: nat, pageOf: nat -> nat, x: nat)
    ensures x in Pages(area, n, pageOf) <==> exists k :: 0 <= k < n && FrameOf(area, k, pageOf) == x
  {
    if n > 0 {
      PagesAre(area, n - 1, pageOf, x);
      assert FrameOf(area, n - 1, pageOf) == pageOf(area + (n - 1) * PAGE_SIZE);
    }
  }

  /** Clearing undoes reserving exactly when no page of the buffer was reserved before. */
  lemma CleanupUndoesInit(before: set<nat>, area: nat, pageOf: nat -> nat)
    ensures before + AreaPages(area, pageOf) - AreaPages(area, pageOf) == before
            <==> forall k | 0 <= k < BUF_LEN / PAGE_SIZE :: FrameOf(area, k, pageOf) !in before
  {
    var pages := AreaPages(area, pageOf);
    assert before + pages - pages == before - pages;
    forall x ensures x in pages <==> exists k :: 0 <= k < BUF_LEN / PAGE_SIZE && FrameOf(area, k, pageOf) == x {
      PagesAre(area, BUF_LEN / PAGE_SIZE, pageOf, x);
    }
    if forall k | 0 <= k < BUF_LEN / PAGE_SIZE :: FrameOf(area, k, pageOf) !in before {
      assert before - pages == before;
    } else {
      var k :| 0 <= k < BUF_LEN / PAGE_SIZE && FrameOf(area, k, pageOf) in before;
      assert FrameOf(area, k, pageOf) !in before - pages;
    }
  }

  class Buffer {
    var area: nat
    var reserved: set<nat>

    /** Aligns the allocation and reserves its pages. */
    method Init(ptr: nat, pageOf: nat -> nat)
      requires ptr + BUF_LEN + 2 * PAGE_SIZE <= ADDRESSES
      modifies this
      ensures area == PageUp(ptr) && reserved == old(reserved) + AreaPages(area, pageOf)
    {
      area := PageUp(ptr);
      Reserve(pageOf);
    }

    method Reserve(pageOf: nat -> nat)
      modifies this`reserved
      ensures reserved == old(reserved) + AreaPages(area, pageOf)
    {
      var virt := area;
      ghost var k: nat := 0;
      while virt < area + BUF_LEN
        invariant k <= 4 && virt == area + k * PAGE_SIZE
        invariant reserved == old(reserved) + Pages(area, k, pageOf)
      {
        reserved := reserved + {pageOf(virt)};
        virt := virt + PAGE_SIZE;
        k := k + 1;
      }
    }

    /** Clears the mark of each page of the buffer. */
    method Cleanup(pageOf: nat -> nat)
      modifies this`reserved
      ensures reserved == old(reserved) - AreaPages(area, pageOf)
    {
      var virt := area;
      ghost var k: nat := 0;
      while virt < area + BUF_LEN
        invariant k <= 4 && virt == area + k * PAGE_SIZE
        invariant reserved == old(reserved) - Pages(area, k, pageOf)
      {
        reserved := reserved - {pageOf(virt)};
        virt := virt + PAGE_SIZE;
        k := k + 1;
      }
    }

    /**
     * Loading and unloading the module leaves the reserved pages as they were exactly when none of
     * the buffer's was reserved.
     */
    method InitThenCleanup(ptr: nat, pageOf: nat -> nat)
      requires ptr + BUF_LEN + 2 * PAGE_SIZE <= ADDRESSES
      modifies this
      ensures area == PageUp(ptr)
      ensures reserved == old(reserved)
              <==> forall k | 0 <= k < BUF_LEN / PAGE_SIZE :: FrameOf(area, k, pageOf) !in old(reserved)
    {
      hide AreaPages, PageUp;
      Init(ptr, pageOf);
      Cleanup(pageOf);
      CleanupUndoesInit(old(reserved), area, pageOf);
    }
  }

  // ---------------------------------------------------------------- mappings

  /** User page number to page frame number. */
  type PageTable = map<nat, nat>

  datatype Outcome = Ok | TooLong | RemapFailed

  /** The table after `n` remap calls of one page each. */
  function Mapped(pt: PageTable, u0: nat, area: nat, n: nat, pfnOf: nat -> nat): PageTable {
    if n == 0 then pt
    else Mapped(pt, u0, area, n - 1, pfnOf)[u0 + n - 1 := pfnOf(area + (n - 1) * PAGE_SIZE)]
  }

  /** The table after one remap call of `n` pages with consecutive frames. */
  function MappedWhole(pt: PageTable, u0: nat, pfn: nat, n: nat): PageTable {
    if n == 0 then pt else MappedWhole(pt, u0, pfn, n - 1)[u0 + n - 1 := pfn + n - 1]
  }

  /** User page `u0 + j` shows buffer page `j`, for each `j` below `n`; every other page is as before. */
  lemma {:induction false} MappedExactly(pt: PageTable, u0: nat, area: nat, n: nat, pfnOf: nat -> nat, u: nat)
    ensures var m := Mapped(pt, u0, area, n, pfnOf);
            if u0 <= u < u0 + n then u in m && m[u] == pfnOf(area + (u - u0) * PAGE_SIZE)
            else (u in m <==> u in pt) && (u in m ==> m[u] == pt[u])
  {
    if n > 0 { MappedExactly(pt, u0, area, n - 1, pfnOf, u); }
  }

  /** When the buffer's frames are consecutive, mapping page by page and in one piece are the same. */
  lemma {:induction false} PieceByPiece(pt: PageTable, u0: nat, area: nat, n: nat, pfnOf: nat -> nat)
    requires forall j | 0 <= j < n :: FrameOf(area, j, pfnOf) == pfnOf(area) + j
    ensures Mapped(pt, u0, area, n, pfnOf) == MappedWhole(pt, u0, pfnOf(area), n)
  {
    if n > 0 {
      PieceByPiece(pt, u0, area, n - 1, pfnOf);
      assert FrameOf(area, n - 1, pfnOf) == pfnOf(area) + (n - 1);
    }
  }

  /** The frame of buffer page `j`. */
  function FrameOf(area: nat, j: nat, pfnOf: nat -> nat): nat {
    pfnOf(area + j * PAGE_SIZE)
  }

  /** The remap call for page `k` was the first to fail. */
  ghost predicate StoppedAt(k: nat, pt: PageTable, u0: nat, area: nat, pfnOf: nat -> nat, remapOk: nat -> bool,
                            pt': PageTable)
  {
    && !remapOk(u0 + k)
    && (forall u | u0 <= u < u0 + k :: remapOk(u))
    && pt' == Mapped(pt, u0, area, k, pfnOf)
  }

  /** Maps the buffer page by page; `remapOk` tells for which user pages the remap call succeeds. */
  method MmapVmem(pt: PageTable, start: nat, length: nat, area: nat, pfnOf: nat -> nat, remapOk: nat -> bool)
    returns (out: Outcome, pt': PageTable)
    requires start % PAGE_SIZE == 0 && length % PAGE_SIZE == 0
    ensures out.TooLong? <==> length > BUF_LEN * PAGE_SIZE
    ensures out.TooLong? ==> pt' == pt
    ensures var u0, n := start / PAGE_SIZE, length / PAGE_SIZE;
            && (out.Ok? ==> pt' == Mapped(pt, u0, area, n, pfnOf) && forall u | u0 <= u < u0 + n :: remapOk(u))
            && (out.RemapFailed? ==> exists k: nat :: k < n && StoppedAt(k, pt, u0, area, pfnOf, remapOk, pt'))
  {
    pt' := pt;
    if length > BUF_LEN * PAGE_SIZE { return TooLong, pt; }
    var left, at, ptr := length, start, area;
    ghost var u0, n := start / PAGE_SIZE, length / PAGE_SIZE;
    ghost var k: nat := 0;
    while left > 0
      invariant k <= n && left == (n - k) * PAGE_SIZE
      invariant at == (u0 + k) * PAGE_SIZE && ptr == area + k * PAGE_SIZE
      invariant pt' == Mapped(pt, u0, area, k, pfnOf)
      invariant forall u | u0 <= u < u0 + k :: remapOk(u)
      decreases left
    {
      if !remapOk(at / PAGE_SIZE) {
        assert StoppedAt(k, pt, u0, area, pfnOf, remapOk, pt');
        return RemapFailed, pt';
      }
      pt' := pt'[at / PAGE_SIZE := pfnOf(ptr)];
      at := at + PAGE_SIZE;
      ptr := ptr + PAGE_SIZE;
      left := left - PAGE_SIZE;
      k := k + 1;
    }
    out := Ok;
  }
}
