/**
  The page-flag table of the guest address space (core/src/guest_memory.cpp).

  Host mmap and mprotect are success/failure choices, given as a `hostOk` argument. Only the three
  protection bits of a PROT_* value matter to the table.
*/
module GuestMemory {
  const PAGE := 4096
  const SPACE := 0x1_0000_0000
  const PAGES := 0x10_0000
  const LOWEST_ALLOC_PAGE := 16

  datatype Prot = Prot(read: bool, write: bool, exec: bool)

  /** The flag byte of a page; a page is in use iff it is not NONE. */
  datatype Flags = Flags(read: bool, write: bool, exec: bool, mapped: bool)

  const NONE := Flags(false, false, false, false)

  function FlagsFromProt(p: Prot): Flags { Flags(p.read, p.write, p.exec, true) }

  function Union(p: Prot, q: Prot): Prot { Prot(p.read || q.read, p.write || q.write, p.exec || q.exec) }

  function PageRoundUp(v: nat): (r: nat)
    ensures r % PAGE == 0 && v <= r < v + PAGE
  {
    (v + PAGE - 1) / PAGE * PAGE
  }

  /** Every page has the flag byte that some set of protections gives it, or none. */
  type Table = seq<Flags>

  ghost predicate WellFormed(t: Table) {
    |t| == PAGES && forall i :: 0 <= i < PAGES ==> t[i] == NONE || t[i].mapped
  }

  function Fill(t: Table, lo: nat, hi: nat, f: Flags): (r: Table)
    ensures |r| == |t|
  {
    seq(|t|, i requires 0 <= i < |t| => if lo <= i < hi then f else t[i])
  }

  predicate RangeValid(addr: nat, len: nat) { len != 0 && addr % PAGE == 0 && addr + len <= SPACE }

  ghost predicate AllFree(t: Table, lo: nat, hi: nat)
    requires hi <= |t|
  {
    forall i :: lo <= i < hi ==> t[i] == NONE
  }

  predicate Has(f: Flags, need: Prot) {
    f.mapped && (need.read ==> f.read) && (need.write ==> f.write) && (need.exec ==> f.exec)
  }

  const ANY := Prot(false, false, false)
  const READ := Prot(true, false, false)
  const WRITE := Prot(false, true, false)

  ghost predicate AllHave(t: Table, lo: nat, hi: nat, need: Prot)
    requires hi <= |t|
  {
    forall i :: lo <= i < hi ==> Has(t[i], need)
  }

  // ---- What the operations do to the table ----

  predicate MapOk(addr: nat, len: nat, hostOk: bool) { RangeValid(addr, PageRoundUp(len)) && hostOk }

  function Map(t: Table, addr: nat, len: nat, f: Flags, hostOk: bool): Table {
    if MapOk(addr, len, hostOk) then Fill(t, addr / PAGE, (addr + PageRoundUp(len)) / PAGE, f) else t
  }

  /** Every page touched by [addr, addr + len) is mapped with all the flags in `need`. */
  ghost predicate Accessible(t: Table, addr: nat, len: nat, need: Prot)
    requires |t| == PAGES
  {
    len == 0 || (addr + len <= SPACE && AllHave(t, addr / PAGE, (addr + len - 1) / PAGE + 1, need))
  }

  ghost predicate ProtectOk(t: Table, addr: nat, len: nat, hostOk: bool)
    requires |t| == PAGES
  {
    MapOk(addr, len, hostOk) && Accessible(t, addr, PageRoundUp(len), ANY)
  }

  ghost function Protect(t: Table, addr: nat, len: nat, p: Prot, hostOk: bool): Table
    requires |t| == PAGES
  {
    if ProtectOk(t, addr, len, hostOk)
    then Fill(t, addr / PAGE, (addr + PageRoundUp(len)) / PAGE, FlagsFromProt(p)) else t
  }

  ghost predicate RangeFree(t: Table, addr: nat, len: nat)
    requires |t| == PAGES
  {
    RangeValid(addr, PageRoundUp(len)) && AllFree(t, addr / PAGE, (addr + PageRoundUp(len)) / PAGE)
  }

  /** Page `start` begins a wholly free run of `pages` pages inside [LOWEST_ALLOC_PAGE, top). */
  ghost predicate Fits(t: Table, start: nat, pages: nat, top: nat)
    requires top <= |t|
  {
    LOWEST_ALLOC_PAGE <= start && start + pages <= top && AllFree(t, start, start + pages)
  }

  /** What find_free promises: the highest fitting run, or 0 iff there is none. */
  ghost predicate IsFindFree(t: Table, len: nat, limit: nat, at: nat)
    requires |t| == PAGES && limit < SPACE
  {
    var pages, top := PageRoundUp(len) / PAGE, limit / PAGE;
    if pages == 0 then at == 0
    else if at == 0 then forall s :: !Fits(t, s, pages, top)
    else at % PAGE == 0 && Fits(t, at / PAGE, pages, top) && forall s :: s > at / PAGE ==> !Fits(t, s, pages, top)
  }

  class Memory {
    const pages: array<Flags>

    ghost predicate Valid()
      reads pages
    {
      WellFormed(pages[..])
    }

    constructor ()
      ensures Valid() && fresh(pages) && forall i :: 0 <= i < PAGES ==> pages[i] == NONE
    {
      pages := new Flags[PAGES](_ => NONE);
    }

    method SetFlags(first: nat, count: nat, f: Flags)
      requires first + count <= pages.Length
      modifies pages
      ensures pages[..] == Fill(old(pages[..]), first, first + count, f)
    {
      for i := 0 to count
        invariant pages[..] == Fill(old(pages[..]), first, first + i, f)
      {
        pages[first + i] := f;
      }
    }

    /** map_anon and map_file, which treat the table alike. */
    method MapPages(addr: nat, len: nat, prot: Prot, hostOk: bool) returns (ok: bool)
      requires Valid()
      modifies pages
      ensures Valid() && ok == MapOk(addr, len, hostOk)
      ensures pages[..] == Map(old(pages[..]), addr, len, FlagsFromProt(prot), hostOk)
    {
      var size := PageRoundUp(len);
      if !RangeValid(addr, size) || !hostOk { return false; }
      SetFlags(addr / PAGE, size / PAGE, FlagsFromProt(prot));
      return true;
    }

    method Unmap(addr: nat, len: nat, hostOk: bool) returns (ok: bool)
      requires Valid()
      modifies pages
      ensures Valid() && ok == MapOk(addr, len, hostOk)
      ensures pages[..] == Map(old(pages[..]), addr, len, NONE, hostOk)
    {
      var size := PageRoundUp(len);
      if !RangeValid(addr, size) || !hostOk { return false; }
      SetFlags(addr / PAGE, size / PAGE, NONE);
      return true;
    }

    method ProtectPages(addr: nat, len: nat, prot: Prot, hostOk: bool) returns (ok: bool)
      requires Valid()
      modifies pages
      ensures Valid() && ok == ProtectOk(old(pages[..]), addr, len, hostOk)
      ensures pages[..] == Protect(old(pages[..]), addr, len, prot, hostOk)
    {
      var size := PageRoundUp(len);
      var mapped := IsAccessible(addr, size, ANY);
      if !RangeValid(addr, size) || !mapped || !hostOk { return false; }
      SetFlags(addr / PAGE, size / PAGE, FlagsFromProt(prot));
      return true;
    }

    method FindFree(len: nat, limit: nat) returns (at: nat)
      requires Valid() && limit < SPACE
      ensures IsFindFree(pages[..], len, limit, at)
    {
      var count := PageRoundUp(len) / PAGE;
      var top := limit / PAGE;
      if count == 0 || top < LOWEST_ALLOC_PAGE || top - LOWEST_ALLOC_PAGE < count { return 0; }
      var run := 0;
      var i := top;
      while i > LOWEST_ALLOC_PAGE
        invariant LOWEST_ALLOC_PAGE <= i <= top && run < count && i + run <= top
        invariant AllFree(pages[..], i, i + run)
        invariant i + run < top ==> pages[i + run] != NONE
        invariant forall s :: s >= i ==> !Fits(pages[..], s, count, top)
      {
        i := i - 1;
        if pages[i] == NONE {
          run := run + 1;
          if run == count { return i * PAGE; }
          if i + count <= top { assert pages[..][i + run] != NONE; }
        } else {
          run := 0;
        }
      }
      return 0;
    }

    method IsRangeFree(addr: nat, len: nat) returns (free: bool)
      requires Valid()
      ensures free == RangeFree(pages[..], addr, len)
    {
      var size := PageRoundUp(len);
      if !RangeValid(addr, size) { return false; }
      var i, end := addr / PAGE, (addr + size) / PAGE;
      while i < end
        invariant addr / PAGE <= i <= end
        invariant AllFree(pages[..], addr / PAGE, i)
      {
        if pages[i] != NONE { return false; }
        i := i + 1;
      }
      return true;
    }

    method IsAccessible(addr: nat, len: nat, need: Prot) returns (r: bool)
      requires Valid()
      ensures r == Accessible(pages[..], addr, len, need)
    {
      if len == 0 { return true; }
      if addr + len > SPACE { return false; }
      var i, last := addr / PAGE, (addr + len - 1) / PAGE;
      while i <= last
        invariant addr / PAGE <= i <= last + 1
        invariant AllHave(pages[..], addr / PAGE, i, need)
      {
        if !Has(pages[i], need) { return false; }
        i := i + 1;
      }
      return true;
    }
  }

  /** find_free determines its result: at most one address meets its promise. */
  lemma FindFreeUnique(t: Table, len: nat, limit: nat, a: nat, b: nat)
    requires |t| == PAGES && limit < SPACE
    requires IsFindFree(t, len, limit, a) && IsFindFree(t, len, limit, b)
    ensures a == b
  {
  }
}
