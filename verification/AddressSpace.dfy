/**
  The guest address space: mmap2, munmap, mprotect, brk and the sealing of text relocations, with the
  side tables they keep beside the page flags (core/src/syscalls.cpp, core/src/process.cpp).

  `Space` is the value of the whole address space and the functions on it are the meaning of one call
  each; `Process` is the object the source updates, proved against them. Queries of the file
  system (guest_executable_allowed, elf_has_textrel_marker) and host results are arguments.
*/
module AddressSpace {
  import opened Words
  import opened GuestMemory

  /** A record of a range of addresses: a FileMapping with its path, a TextrelRange with its protection. */
  datatype Range<T> = Range(start: u32, length: u32, info: T)
  {
    predicate Overlaps(from: nat, size: nat) { start < from + size && start + length > from }
    predicate CoversPage(i: nat) { start <= i * PAGE < start + length }
  }

  datatype Space = Space(
    pages: Table,
    eligible: seq<bool>,           // exec_eligible_
    files: seq<Range<int>>,         // file_mappings_
    textrels: seq<Range<Prot>>,    // textrel_ranges_
    brkStart: u32,
    brkCurrent: u32,
    limit: u32                     // mmap_limit
  )

  /** The errors the calls return themselves, and those they pass on from the host. */
  datatype Errno = EINVAL | ENOMEM | EEXIST | ENOEXEC | EACCES | Host(code: nat)

  datatype Outcome = Value(v: nat) | Error(e: Errno)

  /** Arguments of one mmap2 call and what the host says about the file behind fd. */
  datatype Mmap = Mmap(
    addr: u32, len: u32, prot: Prot, fixed: bool, noreplace: bool, anonymous: bool,
    path: int, allowed: bool, marker: bool, hostOk: bool, hostErrno: nat)

  /** What a failed host mapping reports. */
  function MapError(m: Mmap): Errno { if m.hostErrno == 0 then ENOMEM else Host(m.hostErrno) }

  // ---- Side tables ----

  function Keep<T>(ranges: seq<Range<T>>, from: nat, size: nat): seq<Range<T>> {
    if ranges == [] then []
    else (if ranges[0].Overlaps(from, size) then [] else [ranges[0]]) + Keep(ranges[1..], from, size)
  }

  function Forget(s: Space, from: nat, size: nat): Space {
    s.(files := Keep(s.files, from, size), textrels := Keep(s.textrels, from, size))
  }

  function SetEligible(e: seq<bool>, from: nat, size: nat, allowed: bool): (r: seq<bool>)
    ensures |r| == |e|
  {
    if from + PageRoundUp(size) > SPACE then e
    else seq(|e|, i requires 0 <= i < |e| =>
           if from / PAGE <= i < (from + PageRoundUp(size)) / PAGE then allowed else e[i])
  }

  ghost predicate MayExecute(s: Space, from: nat, size: nat)
    requires |s.eligible| == PAGES
  {
    from + PageRoundUp(size) <= SPACE &&
    forall i :: from / PAGE <= i < (from + PageRoundUp(size)) / PAGE ==> s.eligible[i]
  }

  // ---- mmap2 ----

  /** Whether the hint address of a non-fixed mapping is used as it is. */
  ghost predicate HintUsable(s: Space, m: Mmap)
    requires |s.pages| == PAGES
  {
    m.addr >= 0x10000 && m.addr % PAGE == 0 && m.addr + PageRoundUp(m.len) <= s.limit &&
    RangeFree(s.pages, m.addr, PageRoundUp(m.len))
  }

  /** Where mmap2 places the mapping, or why it does not; `free` is what find_free returned. */
  ghost function Placement(s: Space, m: Mmap, free: nat): Outcome
    requires |s.pages| == PAGES
  {
    var size := PageRoundUp(m.len);
    if m.len == 0 then Error(EINVAL)
    else if m.fixed || m.noreplace then
      if m.addr % PAGE != 0 then Error(EINVAL)
      else if m.addr + size > SPACE then Error(ENOMEM)
      else if m.noreplace && !RangeFree(s.pages, m.addr, size) then Error(EEXIST)
      else Value(m.addr)
    else if HintUsable(s, m) then Value(m.addr)
    else if free == 0 then Error(ENOMEM) else Value(free)
  }

  predicate Executable(m: Mmap) { m.anonymous || m.allowed }
  predicate IsTextrel(m: Mmap) { !m.anonymous && m.prot.exec && m.marker }

  function EffectiveProt(m: Mmap): Prot {
    if IsTextrel(m) then m.prot.(write := true) else m.prot
  }

  /** The length a file mapping or text relocation record keeps: 32 bits of the size. */
  function Truncated(size: nat): u32 { size % SPACE }

  function Recorded(s: Space, m: Mmap, at: u32): Space {
    var size := PageRoundUp(m.len);
    if m.anonymous then Forget(s, at, size)
    else
      var f := Forget(s, at, Truncated(size));
      f.(files := f.files + [Range(at, Truncated(size), m.path)],
         textrels := f.textrels + if IsTextrel(m) then [Range(at, Truncated(size), m.prot)] else [])
  }

  ghost function Mmap2(s: Space, m: Mmap, free: nat): (Space, Outcome)
    requires |s.pages| == PAGES && free < SPACE
  {
    var place := Placement(s, m, free);
    if place.Error? then (s, place)
    else if m.prot.exec && !Executable(m) then (s, Error(ENOEXEC))
    else
      var at, size := place.v, PageRoundUp(m.len);
      if !MapOk(at, size, m.hostOk) then (s, Error(MapError(m)))
      else
        (Recorded(s.(pages := Map(s.pages, at, size, FlagsFromProt(EffectiveProt(m)), true),
                     eligible := SetEligible(s.eligible, at, size, Executable(m))), m, at), Value(at))
  }

  // ---- munmap, mprotect, brk, seal ----

  ghost function Munmap(s: Space, addr: u32, len: u32, hostOk: bool): (Space, Outcome) {
    var size := PageRoundUp(len);
    if addr % PAGE != 0 || len == 0 || addr + size > SPACE || !MapOk(addr, size, hostOk) then (s, Error(EINVAL))
    else (Forget(s.(pages := Map(s.pages, addr, size, NONE, true),
                    eligible := SetEligible(s.eligible, addr, size, true)), addr, size), Value(0))
  }

  ghost function Mprotect(s: Space, addr: u32, len: u32, prot: Prot, hostOk: bool): (Space, Outcome)
    requires |s.pages| == PAGES && |s.eligible| == PAGES
  {
    var size := PageRoundUp(len);
    if addr % PAGE != 0 then (s, Error(EINVAL))
    else if len == 0 then (s, Value(0))
    else if !Accessible(s.pages, addr, size, ANY) then (s, Error(ENOMEM))
    else if prot.exec && !MayExecute(s, addr, size) then (s, Error(ENOEXEC))
    else if !ProtectOk(s.pages, addr, size, hostOk) then (s, Error(EACCES))
    else (s.(pages := Protect(s.pages, addr, size, prot, true)), Value(0))
  }

  ghost function Brk(s: Space, want: u32, hostOk: bool): (Space, Outcome)
    requires |s.pages| == PAGES
  {
    var oldTop, newTop := PageRoundUp(s.brkCurrent), PageRoundUp(want);
    if want < s.brkStart then (s, Value(s.brkCurrent))
    else if newTop > oldTop then
      if newTop > s.limit || !RangeFree(s.pages, oldTop, newTop - oldTop) || !MapOk(oldTop, newTop - oldTop, hostOk)
      then (s, Value(s.brkCurrent))
      else (s.(pages := Map(s.pages, oldTop, newTop - oldTop, FlagsFromProt(Prot(true, true, false)), true),
               brkCurrent := want), Value(want))
    else if newTop < oldTop then
      (s.(pages := Map(s.pages, newTop, oldTop - newTop, NONE, hostOk), brkCurrent := want), Value(want))
    else (s.(brkCurrent := want), Value(want))
  }

  /** The page table after protecting the first n ranges; stops at the first that fails. */
  ghost function Sealed(t: Table, ranges: seq<Range<Prot>>, host: seq<bool>): (Table, bool)
    requires |t| == PAGES && |host| == |ranges|
    decreases ranges
  {
    if ranges == [] then (t, true)
    else if !ProtectOk(t, ranges[0].start, ranges[0].length, host[0]) then (t, false)
    else Sealed(Protect(t, ranges[0].start, ranges[0].length, ranges[0].info, true), ranges[1..], host[1..])
  }

  ghost function Seal(s: Space, host: seq<bool>): (Space, bool)
    requires |s.pages| == PAGES && |host| == |s.textrels|
  {
    var (t, ok) := Sealed(s.pages, s.textrels, host);
    if ok then (s.(pages := t, textrels := []), true) else (s.(pages := t), false)
  }

  // ---- The invariant ----

  ghost predicate Disjoint<T>(ranges: seq<Range<T>>) {
    forall i, j :: 0 <= i < j < |ranges| ==> !ranges[i].Overlaps(ranges[j].start, ranges[j].length)
  }

  ghost predicate Aligned(r: Range<Prot>) {
    r.start % PAGE == 0 && r.length % PAGE == 0 && r.start + r.length <= SPACE
  }

  ghost predicate Sized(s: Space) { WellFormed(s.pages) && |s.eligible| == PAGES }

  /** Every executable page is eligible. */
  ghost predicate ExecInv(s: Space)
    requires Sized(s)
  {
    forall i :: 0 <= i < PAGES && s.pages[i].exec ==> s.eligible[i]
  }

  /** Every page of a text relocation range is eligible. */
  ghost predicate TextrelInv(s: Space)
    requires Sized(s)
  {
    forall r :: r in s.textrels ==> Aligned(r) && RangeEligible(s.eligible, r)
  }

  ghost predicate RangeEligible(eligible: seq<bool>, r: Range<Prot>) {
    forall i :: 0 <= i < |eligible| && r.CoversPage(i) ==> eligible[i]
  }

  ghost predicate Inv(s: Space) {
    Sized(s) && ExecInv(s) && TextrelInv(s) && Disjoint(s.files) && Disjoint(s.textrels)
  }

  /** Keep removes exactly the overlapping ranges. */
  lemma KeepHas<T(!new)>(ranges: seq<Range<T>>, from: nat, size: nat)
    ensures forall r :: r in Keep(ranges, from, size) <==> r in ranges && !r.Overlaps(from, size)
    ensures Disjoint(ranges) ==> Disjoint(Keep(ranges, from, size))
  {
    if ranges != [] {
      KeepHas(ranges[1..], from, size);
      var rest := Keep(ranges[1..], from, size);
      assert ranges == [ranges[0]] + ranges[1..];
      assert forall r :: r in rest ==> r in ranges[1..];
      if Disjoint(ranges) { HeadIsDisjoint(ranges, rest); }
    }
  }

  lemma HeadIsDisjoint<T(!new)>(ranges: seq<Range<T>>, rest: seq<Range<T>>)
    requires ranges != [] && Disjoint(ranges) && forall r :: r in rest ==> r in ranges[1..]
    ensures Disjoint(ranges[1..])
    ensures forall j :: 0 <= j < |rest| ==> !ranges[0].Overlaps(rest[j].start, rest[j].length)
  {
    forall j | 0 <= j < |rest| ensures !ranges[0].Overlaps(rest[j].start, rest[j].length) {
      assert rest[j] in rest;
      var k :| 0 <= k < |ranges[1..]| && ranges[1..][k] == rest[j];
      assert ranges[k + 1] == rest[j];
    }
  }

  lemma AddDisjoint<T>(ranges: seq<Range<T>>, r: Range<T>)
    requires Disjoint(ranges) && forall q :: q in ranges ==> !q.Overlaps(r.start, r.length)
    ensures Disjoint(ranges + [r])
  {
  }

  lemma ForgetKeepsInv(s: Space, from: nat, size: nat)
    requires Inv(s)
    ensures Inv(Forget(s, from, size))
  {
    KeepHas(s.files, from, size);
    KeepHas(s.textrels, from, size);
  }

  /** A range that does not overlap an aligned area keeps its pages outside it. */
  lemma OutsideArea(r: Range<Prot>, from: nat, size: nat, i: nat)
    requires from % PAGE == 0 && size % PAGE == 0 && r.CoversPage(i) && !r.Overlaps(from, size)
    ensures !(from / PAGE <= i < (from + size) / PAGE)
  {
  }

  lemma MunmapKeepsInv(s: Space, addr: u32, len: u32, hostOk: bool)
    requires Inv(s)
    ensures Inv(Munmap(s, addr, len, hostOk).0)
  {
    var size := PageRoundUp(len);
    if Munmap(s, addr, len, hostOk).1.Value? {
      var s1 := s.(pages := Map(s.pages, addr, size, NONE, true), eligible := SetEligible(s.eligible, addr, size, true));
      assert Inv(s1);
      ForgetKeepsInv(s1, addr, size);
    }
  }

  lemma MprotectKeepsInv(s: Space, addr: u32, len: u32, prot: Prot, hostOk: bool)
    requires Inv(s)
    ensures Inv(Mprotect(s, addr, len, prot, hostOk).0)
  {
  }

  lemma BrkKeepsInv(s: Space, want: u32, hostOk: bool)
    requires Inv(s)
    ensures Inv(Brk(s, want, hostOk).0)
  {
  }

  lemma ProtectRange(t: Table, r: Range<Prot>, i: nat)
    requires WellFormed(t) && Aligned(r) && ProtectOk(t, r.start, r.length, true) && i < PAGES
    ensures Protect(t, r.start, r.length, r.info, true)[i] == if r.CoversPage(i) then FlagsFromProt(r.info) else t[i]
  {
    assert PageRoundUp(r.length) == r.length;
  }

  /** t' is t with the protection of its range on every covered page, for as far as the sealing got. */
  ghost predicate SealEffect(t: Table, t': Table, ranges: seq<Range<Prot>>, ok: bool)
    requires |t| == PAGES && |t'| == PAGES
  {
    forall i :: 0 <= i < PAGES ==> PageEffect(t[i], t'[i], ranges, i, ok)
  }

  ghost predicate PageEffect(f: Flags, f': Flags, ranges: seq<Range<Prot>>, i: nat, ok: bool) {
    && (f' == f || exists r :: r in ranges && r.CoversPage(i) && f' == FlagsFromProt(r.info))
    && (ok ==> forall r :: r in ranges && r.CoversPage(i) ==> f' == FlagsFromProt(r.info))
  }

  lemma SealedPages(t: Table, ranges: seq<Range<Prot>>, host: seq<bool>)
    requires WellFormed(t) && |host| == |ranges| && Disjoint(ranges)
    requires forall r :: r in ranges ==> Aligned(r)
    ensures var (t', ok) := Sealed(t, ranges, host); WellFormed(t') && SealEffect(t, t', ranges, ok)
    decreases ranges
  {
    if ranges != [] && ProtectOk(t, ranges[0].start, ranges[0].length, host[0]) {
      var r0 := ranges[0];
      var t1 := Protect(t, r0.start, r0.length, r0.info, true);
      SealedPages(t1, ranges[1..], host[1..]);
      var (t', ok) := Sealed(t1, ranges[1..], host[1..]);
      forall i | 0 <= i < PAGES ensures PageEffect(t[i], t'[i], ranges, i, ok) {
        ProtectRange(t, r0, i);
        assert PageEffect(t1[i], t'[i], ranges[1..], i, ok);
        OneRangePerPage(ranges, i);
      }
    }
  }

  lemma OneRangePerPage(ranges: seq<Range<Prot>>, i: nat)
    requires Disjoint(ranges) && ranges != []
    ensures ranges[0].CoversPage(i) ==> forall r :: r in ranges[1..] ==> !r.CoversPage(i)
  {
    forall k | 0 <= k < |ranges[1..]| && ranges[0].CoversPage(i) ensures !ranges[1..][k].CoversPage(i) {
      assert !ranges[0].Overlaps(ranges[k + 1].start, ranges[k + 1].length);
    }
  }

  /**
    A seal that succeeds leaves every page of every recorded range with its original protection, no
    other page changed, and no ranges; a seal that fails keeps the ranges. Both keep the invariant.
  */
  lemma SealRestores(s: Space, host: seq<bool>)
    requires Inv(s) && |host| == |s.textrels|
    ensures Inv(Seal(s, host).0)
    ensures var (s', ok) := Seal(s, host);
            && s'.textrels == (if ok then [] else s.textrels)
            && (ok ==> forall i, r :: 0 <= i < PAGES && r in s.textrels && r.CoversPage(i) ==>
                  s'.pages[i] == FlagsFromProt(r.info))
            && (forall i :: 0 <= i < PAGES && (forall r :: r in s.textrels ==> !r.CoversPage(i)) ==>
                  s'.pages[i] == s.pages[i])
  {
    SealedPages(s.pages, s.textrels, host);
    assert forall i :: 0 <= i < PAGES ==> PageEffect(s.pages[i], Seal(s, host).0.pages[i], s.textrels, i, Seal(s, host).1);
  }

  // ---- mmap2 ----

  /**
    The one way mmap2 breaks the invariant, see Mmap2KeepsInvIff: a fixed request for all 4 GiB, which
    the host grants, of a file that the guest may not execute, while text relocations are recorded.
  */
  ghost predicate LosesEligibility(s: Space, m: Mmap)
    requires |s.pages| == PAGES
  {
    && (m.fixed || m.noreplace) && m.addr == 0 && m.len > 0xFFFF_F000 && (m.noreplace ==> AllFree(s.pages, 0, PAGES))
    && m.hostOk && !m.anonymous && !m.allowed && !m.prot.exec && exists r :: r in s.textrels && r.length != 0
  }

  /** free is the result of find_free where mmap2 asks for it. */
  ghost predicate Asked(s: Space, m: Mmap, free: nat)
    requires |s.pages| == PAGES
  {
    IsFindFree(s.pages, PageRoundUp(m.len), s.limit, free)
  }

  lemma PlacementFits(s: Space, m: Mmap, free: nat)
    requires Sized(s) && free < SPACE && Asked(s, m, free) && Placement(s, m, free).Value?
    ensures Placement(s, m, free).v % PAGE == 0 && m.len != 0
    ensures Placement(s, m, free).v + PageRoundUp(m.len) <= SPACE
    ensures !m.fixed ==> RangeFree(s.pages, Placement(s, m, free).v, PageRoundUp(m.len))
  {
    var size := PageRoundUp(m.len);
    assert PageRoundUp(size) == size;
  }

  /** A mapping that is not MAP_FIXED never changes the flags of a page already in use. */
  lemma NonFixedMmapKeepsUsedPages(s: Space, m: Mmap, free: nat, i: nat)
    requires Sized(s) && free < SPACE && Asked(s, m, free) && !m.fixed
    requires i < PAGES && s.pages[i] != NONE
    ensures Mmap2(s, m, free).0.pages[i] == s.pages[i]
  {
    if Placement(s, m, free).Value? { PlacementFits(s, m, free); }
  }

  /** The tables right after the pages are mapped and before the records are updated. */
  ghost function Mapped(s: Space, m: Mmap, at: nat): Space
    requires |s.pages| == PAGES
  {
    var size := PageRoundUp(m.len);
    s.(pages := Map(s.pages, at, size, FlagsFromProt(EffectiveProt(m)), true),
       eligible := SetEligible(s.eligible, at, size, Executable(m)))
  }

  lemma MappedKeepsExec(s: Space, m: Mmap, at: u32)
    requires Inv(s) && at % PAGE == 0 && m.len != 0 && at + PageRoundUp(m.len) <= SPACE
    requires m.prot.exec ==> Executable(m)
    ensures Sized(Mapped(s, m, at)) && ExecInv(Mapped(s, m, at))
    ensures forall i | 0 <= i < PAGES :: Mapped(s, m, at).eligible[i] ==
              (if at / PAGE <= i < (at + PageRoundUp(m.len)) / PAGE then Executable(m) else s.eligible[i])
  {
    assert PageRoundUp(PageRoundUp(m.len)) == PageRoundUp(m.len);
  }

  lemma KeptRangesStayEligible(s: Space, m: Mmap, at: u32, r: Range<Prot>)
    requires Inv(s) && at % PAGE == 0 && m.len != 0 && at + PageRoundUp(m.len) <= SPACE
    requires m.prot.exec ==> Executable(m)
    requires r in s.textrels && (Executable(m) || !r.Overlaps(at, PageRoundUp(m.len)) || r.length == 0)
    ensures RangeEligible(Mapped(s, m, at).eligible, r)
  {
    MappedKeepsExec(s, m, at);
    forall i | 0 <= i < PAGES && r.CoversPage(i) ensures Mapped(s, m, at).eligible[i] {
      if !Executable(m) { OutsideArea(r, at, PageRoundUp(m.len), i); }
    }
  }

  /** Below 4 GiB the records that are left lie outside the new mapping. */
  lemma RecordedKeepsInv(s: Space, m: Mmap, at: u32)
    requires Inv(s) && at % PAGE == 0 && m.len != 0 && at + PageRoundUp(m.len) <= SPACE
    requires m.prot.exec ==> Executable(m)
    requires Executable(m) || PageRoundUp(m.len) < SPACE || forall r :: r in s.textrels ==> r.length == 0
    ensures Inv(Recorded(Mapped(s, m, at), m, at))
  {
    var size := PageRoundUp(m.len);
    var area := if m.anonymous then size else Truncated(size);
    var s1 := Mapped(s, m, at);
    var s2 := Forget(s1, at, area);
    MappedKeepsExec(s, m, at);
    KeepHas(s.files, at, area);
    KeepHas(s.textrels, at, area);
    forall r | r in s2.textrels ensures Aligned(r) && RangeEligible(s1.eligible, r) {
      KeptRangesStayEligible(s, m, at, r);
    }
    assert Inv(s2);
    if !m.anonymous { NewRecordKeepsInv(s, m, at, s2); }
  }

  lemma {:induction false} NewRecordKeepsInv(s: Space, m: Mmap, at: u32, s2: Space)
    requires Inv(s) && at % PAGE == 0 && m.len != 0 && at + PageRoundUp(m.len) <= SPACE && (m.prot.exec ==> Executable(m))
    requires !m.anonymous && s2 == Forget(Mapped(s, m, at), at, Truncated(PageRoundUp(m.len))) && Inv(s2)
    ensures Inv(Recorded(Mapped(s, m, at), m, at))
  {
    var area := Truncated(PageRoundUp(m.len));
    MappedKeepsExec(s, m, at);
    KeepHas(s.files, at, area);
    KeepHas(s.textrels, at, area);
    AddDisjoint(s2.files, Range(at, area, m.path));
    if IsTextrel(m) {
      AddDisjoint(s2.textrels, Range(at, area, m.prot));
      assert RangeEligible(s2.eligible, Range(at, area, m.prot));
    }
  }

  /**
    mmap2 keeps the invariant except in one case, which the caller can see beforehand: a file the
    guest may not execute mapped over the whole 4 GiB while text relocation ranges are recorded. The
    size does not fit the 32-bit length of the record, so the ranges it replaced are not forgotten.
  */
  lemma Mmap2KeepsInvIff(s: Space, m: Mmap, free: nat)
    requires Inv(s) && free < SPACE && Asked(s, m, free)
    ensures Inv(Mmap2(s, m, free).0) <==> !LosesEligibility(s, m)
  {
    var size := PageRoundUp(m.len);
    assert PageRoundUp(size) == size;
    if LosesEligibility(s, m) {
      LosesIt(s, m, free);
    } else if Mmap2(s, m, free).1.Value? {
      PlacementFits(s, m, free);
      if size == SPACE { WholeSpacePlacement(s, m, free); }
      RecordedKeepsInv(s, m, Placement(s, m, free).v);
    }
  }

  /** Only a fixed request at 0 can be placed if it wants all 4 GiB. */
  lemma {:induction false} WholeSpacePlacement(s: Space, m: Mmap, free: nat)
    requires Sized(s) && free < SPACE && Asked(s, m, free) && Placement(s, m, free).Value? && PageRoundUp(m.len) == SPACE
    ensures (m.fixed || m.noreplace) && m.addr == 0 && (m.noreplace ==> AllFree(s.pages, 0, PAGES))
  {
    PlacementFits(s, m, free);
    assert PageRoundUp(SPACE) == SPACE;
  }

  lemma {:induction false} LosesIt(s: Space, m: Mmap, free: nat)
    requires Inv(s) && free < SPACE && Asked(s, m, free) && LosesEligibility(s, m)
    ensures Mmap2(s, m, free).1 == Value(0) && !Inv(Mmap2(s, m, free).0)
  {
    assert PageRoundUp(m.len) == SPACE && PageRoundUp(SPACE) == SPACE && Truncated(SPACE) == 0;
    assert Placement(s, m, free) == Value(0);
    var r :| r in s.textrels && r.length != 0;
    KeepHas(s.textrels, 0, 0);
    MappedKeepsExec(s, m, 0);
    var s' := Mmap2(s, m, free).0;
    assert r in s'.textrels && r.CoversPage(r.start / PAGE) && !s'.eligible[r.start / PAGE];
  }

  // ---- A run that breaks the invariant ----

  /** The address space before the first call. */
  ghost function Start(limit: u32): Space {
    Space(seq(PAGES, _ => NONE), seq(PAGES, _ => true), [], [], 0, 0, limit)
  }

  /** find_free has an answer for every table. */
  lemma {:induction false} FindFreeAnswers(t: Table, len: nat, limit: u32, n: nat) returns (at: nat)
    requires |t| == PAGES && n <= PAGES && forall s :: s >= n ==> !Fits(t, s, PageRoundUp(len) / PAGE, limit / PAGE)
    ensures at < SPACE && IsFindFree(t, len, limit, at)
    decreases n
  {
    var pages, top := PageRoundUp(len) / PAGE, limit / PAGE;
    if n == 0 || pages == 0 {
      at := 0;
    } else if Fits(t, n - 1, pages, top) {
      at := (n - 1) * PAGE;
    } else {
      at := FindFreeAnswers(t, len, limit, n - 1);
    }
  }

  /** A library with text relocations at 64 KiB, and then a data file over everything. */
  const LIBRARY := Mmap(0x10000, 4096, Prot(true, false, true), true, false, false, 1, true, true, true, 0)
  const EVERYTHING := Mmap(0, 0xFFFF_FFFF, Prot(true, false, false), true, false, false, 2, false, false, true, 0)

  /** From the start: the first call records the library's range, the second takes its eligibility away. */
  lemma {:induction false} EligibilityLost(limit: u32) returns (free: nat, free': nat, s: Space, s': Space)
    ensures Inv(Start(limit)) && free < SPACE && Asked(Start(limit), LIBRARY, free)
    ensures s == Mmap2(Start(limit), LIBRARY, free).0 && Inv(s) && s.textrels == [Range(0x10000, 4096, LIBRARY.prot)]
    ensures free' < SPACE && Asked(s, EVERYTHING, free') && s' == Mmap2(s, EVERYTHING, free').0
    ensures Mmap2(s, EVERYTHING, free').1 == Value(0) && !Inv(s')
  {
    var start := Start(limit);
    assert Inv(start);
    free := FindFreeAnswers(start.pages, PageRoundUp(LIBRARY.len), limit, PAGES);
    s := Mmap2(start, LIBRARY, free).0;
    assert PageRoundUp(4096) == 4096 && Truncated(4096) == 4096;
    Mmap2KeepsInvIff(start, LIBRARY, free);
    assert s.textrels == [Range(0x10000, 4096, LIBRARY.prot)];
    assert s.textrels[0].length != 0;
    free' := FindFreeAnswers(s.pages, PageRoundUp(EVERYTHING.len), limit, PAGES);
    LosesIt(s, EVERYTHING, free');
    s' := Mmap2(s, EVERYTHING, free').0;
  }

  // ---- Any sequence of calls ----

  datatype Op =
    | DoMmap(m: Mmap, free: nat)
    | DoMunmap(addr: u32, len: u32, hostOk: bool)
    | DoMprotect(addr: u32, len: u32, prot: Prot, hostOk: bool)
    | DoBrk(want: u32, hostOk: bool)
    | DoSeal(host: seq<bool>)

  /** The call can be made in s, with find_free's own answer, and is not the one that loses eligibility. */
  ghost predicate CanRun(s: Space, op: Op) {
    Sized(s) &&
    match op
    case DoMmap(m, free) => free < SPACE && Asked(s, m, free) && !LosesEligibility(s, m)
    case DoSeal(host) => |host| == |s.textrels|
    case _ => true
  }

  ghost function Run(s: Space, op: Op): Space
    requires CanRun(s, op)
  {
    match op
    case DoMmap(m, free) => Mmap2(s, m, free).0
    case DoMunmap(addr, len, hostOk) => Munmap(s, addr, len, hostOk).0
    case DoMprotect(addr, len, prot, hostOk) => Mprotect(s, addr, len, prot, hostOk).0
    case DoBrk(want, hostOk) => Brk(s, want, hostOk).0
    case DoSeal(host) => Seal(s, host).0
  }

  ghost predicate CanRunAll(s: Space, ops: seq<Op>)
    decreases ops
  {
    ops == [] || (CanRun(s, ops[0]) && CanRunAll(Run(s, ops[0]), ops[1..]))
  }

  ghost function RunAll(s: Space, ops: seq<Op>): Space
    requires CanRunAll(s, ops)
    decreases ops
  {
    if ops == [] then s else RunAll(Run(s, ops[0]), ops[1..])
  }

  lemma {:induction false} AnyCallsKeepInv(s: Space, ops: seq<Op>)
    requires Inv(s) && CanRunAll(s, ops)
    ensures Inv(RunAll(s, ops))
    decreases ops
  {
    if ops != [] {
      match ops[0] {
        case DoMmap(m, free) => Mmap2KeepsInvIff(s, m, free);
        case DoMunmap(addr, len, hostOk) => MunmapKeepsInv(s, addr, len, hostOk);
        case DoMprotect(addr, len, prot, hostOk) => MprotectKeepsInv(s, addr, len, prot, hostOk);
        case DoBrk(want, hostOk) => BrkKeepsInv(s, want, hostOk);
        case DoSeal(host) => SealRestores(s, host);
      }
      AnyCallsKeepInv(Run(s, ops[0]), ops[1..]);
    }
  }

  // ---- The object the source updates ----

  /** std::erase_if over a vector of records. */
  method EraseOverlapping<T>(ranges: seq<Range<T>>, from: nat, size: nat) returns (kept: seq<Range<T>>)
    ensures kept == Keep(ranges, from, size)
  {
    kept := [];
    for i := 0 to |ranges|
      invariant kept + Keep(ranges[i..], from, size) == Keep(ranges, from, size)
    {
      assert ranges[i..][1..] == ranges[i + 1..];
      if !ranges[i].Overlaps(from, size) { kept := kept + [ranges[i]]; }
    }
    assert ranges[|ranges|..] == [];
  }

  class Process {
    const mem: Memory
    const eligible: array<bool>
    var files: seq<Range<int>>
    var textrels: seq<Range<Prot>>
    var brkStart: u32
    var brkCurrent: u32
    const limit: u32

    ghost predicate Valid()
      reads mem.pages
    {
      mem.Valid() && eligible.Length == PAGES
    }

    ghost function View(): Space
      reads this, mem.pages, eligible
    {
      Space(mem.pages[..], eligible[..], files, textrels, brkStart, brkCurrent, limit)
    }

    constructor (limit: u32)
      ensures Valid() && View() == Start(limit) && fresh(mem.pages) && fresh(eligible)
    {
      mem := new Memory();
      eligible := new bool[PAGES](_ => true);
      files, textrels, brkStart, brkCurrent := [], [], 0, 0;
      this.limit := limit;
    }

    method ForgetMappings(from: nat, size: nat)
      requires Valid()
      modifies `files, `textrels
      ensures View() == Forget(old(View()), from, size)
    {
      files := EraseOverlapping(files, from, size);
      textrels := EraseOverlapping(textrels, from, size);
    }

    method SetExecEligibility(from: nat, size: nat, allowed: bool)
      requires Valid() && from % PAGE == 0
      modifies eligible
      ensures eligible[..] == SetEligible(old(eligible[..]), from, size, allowed)
    {
      var end := from + PageRoundUp(size);
      if end > SPACE { return; }
      for i := from / PAGE to end / PAGE
        invariant eligible[..] == seq(PAGES, k requires 0 <= k < PAGES =>
                    if from / PAGE <= k < i then allowed else old(eligible[..])[k])
      {
        eligible[i] := allowed;
      }
    }

    method MayExecuteRange(from: nat, size: nat) returns (r: bool)
      requires Valid() && from % PAGE == 0
      ensures r == MayExecute(View(), from, size)
    {
      var end := from + PageRoundUp(size);
      if end > SPACE { return false; }
      for i := from / PAGE to end / PAGE
        invariant forall k :: from / PAGE <= k < i ==> eligible[k]
      {
        if !eligible[i] { return false; }
      }
      return true;
    }

    method Place(m: Mmap) returns (r: Outcome, ghost free: nat)
      requires Valid()
      ensures free < SPACE && Asked(View(), m, free) && r == Placement(View(), m, free)
    {
      var size := PageRoundUp(m.len);
      assert PageRoundUp(size) == size;
      var found := mem.FindFree(size, limit);
      free := found;
      if m.len == 0 { return Error(EINVAL), free; }
      var usable := mem.IsRangeFree(m.addr, size);
      if m.fixed || m.noreplace {
        if m.addr % PAGE != 0 { return Error(EINVAL), free; }
        if m.addr + size > SPACE { return Error(ENOMEM), free; }
        if m.noreplace && !usable { return Error(EEXIST), free; }
        return Value(m.addr), free;
      }
      if m.addr >= 0x10000 && m.addr % PAGE == 0 && m.addr + size <= limit && usable { return Value(m.addr), free; }
      return if found == 0 then Error(ENOMEM) else Value(found), free;
    }

    method RecordMapping(m: Mmap, at: u32)
      requires Valid()
      modifies `files, `textrels
      ensures View() == Recorded(old(View()), m, at)
    {
      var size := PageRoundUp(m.len);
      if m.anonymous {
        ForgetMappings(at, size);
      } else {
        ForgetMappings(at, Truncated(size));
        files := files + [Range(at, Truncated(size), m.path)];
        if IsTextrel(m) { textrels := textrels + [Range(at, Truncated(size), m.prot)]; }
      }
    }

    method SysMmap2(m: Mmap) returns (r: Outcome, ghost free: nat)
      requires Valid()
      modifies this, mem.pages, eligible
      ensures Valid() && free < SPACE && Asked(old(View()), m, free)
      ensures View() == Mmap2(old(View()), m, free).0 && r == Mmap2(old(View()), m, free).1
    {
      r, free := Place(m);
      if r.Error? { return; }
      if m.prot.exec && !Executable(m) { return Error(ENOEXEC), free; }
      PlacementFits(View(), m, free);
      var size := PageRoundUp(m.len);
      assert PageRoundUp(size) == size;
      var ok := mem.MapPages(r.v, size, EffectiveProt(m), m.hostOk);
      if !ok { return Error(MapError(m)), free; }
      SetExecEligibility(r.v, size, Executable(m));
      RecordMapping(m, r.v);
    }

    method SysMunmap(addr: u32, len: u32, hostOk: bool) returns (r: Outcome)
      requires Valid()
      modifies this, mem.pages, eligible
      ensures Valid() && View() == Munmap(old(View()), addr, len, hostOk).0
      ensures r == Munmap(old(View()), addr, len, hostOk).1
    {
      if addr % PAGE != 0 || len == 0 { return Error(EINVAL); }
      var size := PageRoundUp(len);
      assert PageRoundUp(size) == size;
      if addr + size > SPACE { return Error(EINVAL); }
      var ok := mem.Unmap(addr, size, hostOk);
      if !ok { return Error(EINVAL); }
      SetExecEligibility(addr, size, true);
      ForgetMappings(addr, size);
      return Value(0);
    }

    method SysMprotect(addr: u32, len: u32, prot: Prot, hostOk: bool) returns (r: Outcome)
      requires Valid()
      modifies mem.pages
      ensures Valid() && View() == Mprotect(old(View()), addr, len, prot, hostOk).0
      ensures r == Mprotect(old(View()), addr, len, prot, hostOk).1
    {
      if addr % PAGE != 0 { return Error(EINVAL); }
      if len == 0 { return Value(0); }
      var size := PageRoundUp(len);
      var mapped := mem.IsAccessible(addr, size, ANY);
      if !mapped { return Error(ENOMEM); }
      var may := MayExecuteRange(addr, size);
      if prot.exec && !may { return Error(ENOEXEC); }
      var ok := mem.ProtectPages(addr, size, prot, hostOk);
      if !ok { return Error(EACCES); }
      return Value(0);
    }

    method SysBrk(want: u32, hostOk: bool) returns (r: Outcome)
      requires Valid()
      modifies this, mem.pages
      ensures Valid() && View() == Brk(old(View()), want, hostOk).0 && r == Brk(old(View()), want, hostOk).1
    {
      if want < brkStart { return Value(brkCurrent); }
      var oldTop, newTop := PageRoundUp(brkCurrent), PageRoundUp(want);
      if newTop > oldTop {
        var free := mem.IsRangeFree(oldTop, newTop - oldTop);
        if newTop > limit || !free { return Value(brkCurrent); }
        var ok := mem.MapPages(oldTop, newTop - oldTop, Prot(true, true, false), hostOk);
        if !ok { return Value(brkCurrent); }
      } else if newTop < oldTop {
        var _ := mem.Unmap(newTop, oldTop - newTop, hostOk);
      }
      brkCurrent := want;
      return Value(want);
    }

    method SealTextrelRanges(host: seq<bool>) returns (ok: bool)
      requires Valid() && |host| == |textrels|
      modifies this, mem.pages
      ensures Valid() && View() == Seal(old(View()), host).0 && ok == Seal(old(View()), host).1
    {
      var n := |textrels|;
      for i := 0 to n
        invariant Valid() && textrels == old(textrels) && n == |textrels|
        invariant View() == old(View()).(pages := mem.pages[..])
        invariant Sealed(mem.pages[..], textrels[i..], host[i..]) == Sealed(old(mem.pages[..]), textrels, host)
      {
        assert textrels[i..][1..] == textrels[i + 1..] && host[i..][1..] == host[i + 1..];
        var done := mem.ProtectPages(textrels[i].start, textrels[i].length, textrels[i].info, host[i]);
        if !done { return false; }
      }
      assert textrels[n..] == [];
      textrels := [];
      return true;
    }
  }
}
