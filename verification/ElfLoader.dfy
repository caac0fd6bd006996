/**
  load_elf after the file header is accepted: segment validation, load bias, page permissions, the
  coalesced application of the permissions and the rollback (core/src/elf_loader.cpp).

  Host results are arguments: `mapOk` for the reservation, `runOk(i)` for the run that starts at page
  i of the span, `rollbackOk` for the unmap that undoes a failed load.
*/
module ElfLoader {
  import opened Wrappers
  import opened Words
  import opened GuestMemory

  datatype Kind = Load | Interp | HeaderTable | Other

  datatype Phdr = Phdr(kind: Kind, offset: u32, vaddr: u32, filesz: u32, memsz: u32, prot: Prot, align: u32)

  const PHDR_SIZE := 32

  datatype Elf = Elf(dyn: bool, entry: u32, phoff: u32, phdrs: seq<Phdr>, data: seq<byte>)

  /** LoadedElf. The bias and both ends of the image are whole pages and are counted in pages. */
  datatype Loaded = Loaded(bias: nat, start: nat, end: nat, entry: u32, phdr: u32)

  datatype Result =
    | Success(image: Loaded)
    | Rejected     // nothing was mapped
    | RolledBack   // failed after the span was mapped

  // ---- Segments ----

  predicate PowerOfTwo(n: nat) {
    n == 1 || (n > 1 && n % 2 == 0 && PowerOfTwo(n / 2))
  }

  ghost predicate InterpOk(p: Phdr, data: seq<byte>) {
    p.filesz >= 2 && p.offset + p.filesz <= |data| && data[p.offset + p.filesz - 1] == 0 &&
    forall i :: p.offset <= i < p.offset + p.filesz - 1 ==> data[i] != 0
  }

  predicate LoadOk(p: Phdr, size: nat) {
    p.filesz <= p.memsz && p.offset + p.filesz <= size && p.vaddr + p.memsz < SPACE &&
    (p.align != 0 ==> PowerOfTwo(p.align)) &&
    (p.align > 1 ==> p.offset % p.align == p.vaddr % p.align)
  }

  /** A PT_LOAD that occupies memory. */
  predicate Occupies(p: Phdr) { p.kind.Load? && p.memsz != 0 }

  function FirstPage(p: Phdr): nat { p.vaddr / PAGE }
  function EndPage(p: Phdr): nat { PageRoundUp(p.vaddr + p.memsz) / PAGE }

  predicate Touches(p: Phdr, page: int) { Occupies(p) && FirstPage(p) <= page < EndPage(p) }

  ghost predicate HeaderOk(p: Phdr, data: seq<byte>) {
    (p.kind.Load? ==> LoadOk(p, |data|)) && (p.kind.Interp? ==> InterpOk(p, data))
  }

  function Interps(phdrs: seq<Phdr>, n: nat): nat
    requires n <= |phdrs|
  {
    if n == 0 then 0 else Interps(phdrs, n - 1) + if phdrs[n - 1].kind.Interp? then 1 else 0
  }

  /** The first n headers pass the validation loop. */
  ghost predicate HeadersOk(elf: Elf, n: nat)
    requires n <= |elf.phdrs|
  {
    Interps(elf.phdrs, n) <= 1 && forall i :: 0 <= i < n ==> HeaderOk(elf.phdrs[i], elf.data)
  }

  datatype Span = Span(lo: nat, hi: nat)
  {
    function Size(): nat { if lo < hi then (hi - lo) * PAGE else 0 }
  }

  function Widen(s: Option<Span>, p: Phdr): Option<Span> {
    if !Occupies(p) then s
    else if s.None? then Some(Span(FirstPage(p), EndPage(p)))
    else Some(Span(if FirstPage(p) < s.value.lo then FirstPage(p) else s.value.lo,
                   if EndPage(p) > s.value.hi then EndPage(p) else s.value.hi))
  }

  function SpanOf(phdrs: seq<Phdr>, n: nat): Option<Span>
    requires n <= |phdrs|
  {
    if n == 0 then None else Widen(SpanOf(phdrs, n - 1), phdrs[n - 1])
  }

  /** The span holds every occupying segment, and its first page belongs to one of them. */
  lemma {:induction false} SpanHolds(phdrs: seq<Phdr>, n: nat)
    requires n <= |phdrs|
    ensures SpanOf(phdrs, n).None? <==> forall i :: 0 <= i < n ==> !Occupies(phdrs[i])
    ensures SpanOf(phdrs, n).Some? ==>
              && SpanOf(phdrs, n).value.lo < SpanOf(phdrs, n).value.hi
              && (forall i :: 0 <= i < n && Occupies(phdrs[i]) ==>
                    SpanOf(phdrs, n).value.lo <= FirstPage(phdrs[i]) && EndPage(phdrs[i]) <= SpanOf(phdrs, n).value.hi)
              && (exists i :: 0 <= i < n && Touches(phdrs[i], SpanOf(phdrs, n).value.lo))
  {
    if n > 0 {
      SpanHolds(phdrs, n - 1);
      var p := phdrs[n - 1];
      if Occupies(p) {
        assert FirstPage(p) < EndPage(p);
        if SpanOf(phdrs, n - 1).None? || FirstPage(p) < SpanOf(phdrs, n - 1).value.lo {
          assert Touches(phdrs[n - 1], SpanOf(phdrs, n).value.lo);
        }
      }
    }
  }

  method CheckInterp(p: Phdr, data: seq<byte>) returns (ok: bool)
    ensures ok == InterpOk(p, data)
  {
    if p.filesz < 2 || p.offset + p.filesz > |data| || data[p.offset + p.filesz - 1] != 0 { return false; }
    for i := p.offset to p.offset + p.filesz - 1
      invariant forall k :: p.offset <= k < i ==> data[k] != 0
    {
      if data[i] == 0 { return false; }
    }
    return true;
  }

  method CheckHeader(p: Phdr, data: seq<byte>) returns (ok: bool)
    ensures ok == HeaderOk(p, data)
  {
    if p.kind.Interp? { ok := CheckInterp(p, data); } else { ok := p.kind.Load? ==> LoadOk(p, |data|); }
  }

  /** The validation loop: the page span of the image, or None when a header is not acceptable. */
  method FindSpan(elf: Elf) returns (r: Option<Span>)
    ensures var span := SpanOf(elf.phdrs, |elf.phdrs|);
            r == if HeadersOk(elf, |elf.phdrs|) && span.Some? && span.value.hi < PAGES then span else None
  {
    var span, interps: nat := None, 0;
    for i := 0 to |elf.phdrs|
      invariant HeadersOk(elf, i)
      invariant interps == Interps(elf.phdrs, i) && span == SpanOf(elf.phdrs, i)
    {
      var p := elf.phdrs[i];
      var ok := CheckHeader(p, elf.data);
      interps := interps + if p.kind.Interp? then 1 else 0;
      if !ok || interps > 1 {
        InterpsGrow(elf.phdrs, i + 1, |elf.phdrs|);
        return None;
      }
      span := Widen(span, p);
    }
    if span.None? || span.value.hi >= PAGES { return None; }
    return span;
  }

  lemma InterpsGrow(phdrs: seq<Phdr>, m: nat, n: nat)
    requires m <= n <= |phdrs|
    ensures Interps(phdrs, m) <= Interps(phdrs, n)
  {
  }

  // ---- Permissions ----

  /** The union of the permissions of the PT_LOADs among the first n that touch a page. */
  function UnionAt(phdrs: seq<Phdr>, n: nat, page: int): Option<Prot>
    requires n <= |phdrs|
  {
    if n == 0 then None else Add(UnionAt(phdrs, n - 1, page), phdrs[n - 1], page)
  }

  function Add(have: Option<Prot>, p: Phdr, page: int): Option<Prot> {
    if !Touches(p, page) then have
    else if have.None? then Some(p.prot)
    else Some(Union(have.value, p.prot))
  }

  datatype Right = Read | Write | Exec

  predicate Grants(p: Prot, r: Right) {
    match r case Read => p.read case Write => p.write case Exec => p.exec
  }

  lemma {:induction false} TouchedExactly(phdrs: seq<Phdr>, n: nat, page: int)
    requires n <= |phdrs|
    ensures UnionAt(phdrs, n, page).Some? <==> exists i :: 0 <= i < n && Touches(phdrs[i], page)
  {
    if n > 0 {
      TouchedExactly(phdrs, n - 1, page);
      assert Touches(phdrs[n - 1], page) || UnionAt(phdrs, n, page) == UnionAt(phdrs, n - 1, page);
    }
  }

  /** A page has a union iff a segment touches it, and a right is in the union iff such a segment grants it. */
  lemma {:induction false} UnionIsExact(phdrs: seq<Phdr>, n: nat, page: int, r: Right)
    requires n <= |phdrs|
    ensures UnionAt(phdrs, n, page).Some? <==> exists i :: 0 <= i < n && Touches(phdrs[i], page)
    ensures UnionAt(phdrs, n, page).Some? && Grants(UnionAt(phdrs, n, page).value, r) <==>
            exists i :: 0 <= i < n && Touches(phdrs[i], page) && Grants(phdrs[i].prot, r)
  {
    TouchedExactly(phdrs, n, page);
    if n > 0 {
      UnionIsExact(phdrs, n - 1, page, r);
      assert Touches(phdrs[n - 1], page) || UnionAt(phdrs, n, page) == UnionAt(phdrs, n - 1, page);
    }
  }

  function FlagsOf(p: Option<Prot>): Flags { if p.None? then NONE else FlagsFromProt(p.value) }

  /** page_prot: one entry per page of the span, filled segment by segment. */
  method PagePermissions(phdrs: seq<Phdr>, span: Span) returns (prot: array<Option<Prot>>)
    requires SpanOf(phdrs, |phdrs|) == Some(span)
    ensures fresh(prot) && prot.Length == span.hi - span.lo
    ensures forall k :: 0 <= k < prot.Length ==> prot[k] == UnionAt(phdrs, |phdrs|, span.lo + k)
  {
    SpanHolds(phdrs, |phdrs|);
    prot := new Option<Prot>[span.hi - span.lo](_ => None);
    for i := 0 to |phdrs|
      invariant forall k :: 0 <= k < prot.Length ==> prot[k] == UnionAt(phdrs, i, span.lo + k)
    {
      var p := phdrs[i];
      if Occupies(p) {
        var first, last := FirstPage(p) - span.lo, EndPage(p) - span.lo;
        for j := first to last
          invariant forall k :: 0 <= k < prot.Length ==>
                      prot[k] == UnionAt(phdrs, if first <= k < j then i + 1 else i, span.lo + k)
        {
          prot[j] := if prot[j].None? then Some(p.prot) else Some(Union(prot[j].value, p.prot));
        }
      }
    }
  }

  /** A maximal run of equal permissions starts at i. */
  predicate StartsRun(prot: seq<Option<Prot>>, i: nat)
    requires i < |prot|
  {
    i == 0 || prot[i] != prot[i - 1]
  }

  /**
    The run loop: maximal runs of equal permissions are protected or unmapped together. Where it
    succeeds, that is the same as setting every page on its own.
  */
  method ApplyRuns(mem: Memory, prot: array<Option<Prot>>, first: nat, runOk: nat -> bool) returns (ok: bool)
    requires mem.Valid() && first + prot.Length <= PAGES
    requires forall k :: first <= k < first + prot.Length ==> mem.pages[k].mapped
    modifies mem.pages
    ensures mem.Valid() && SameOutside(old(mem.pages[..]), mem.pages[..], first, first + prot.Length)
    ensures ok <==> forall i :: 0 <= i < prot.Length && StartsRun(prot[..], i) ==> runOk(i)
    ensures ok ==> forall k :: first <= k < first + prot.Length ==> mem.pages[k] == FlagsOf(prot[k - first])
    ensures !ok ==> forall k :: first <= k < first + prot.Length && prot[k - first].Some? ==> mem.pages[k].mapped
  {
    var i := 0;
    while i < prot.Length
      invariant 0 <= i <= prot.Length && mem.Valid()
      invariant SameOutside(old(mem.pages[..]), mem.pages[..], first, first + prot.Length)
      invariant forall k :: first <= k < first + i ==> mem.pages[k] == FlagsOf(prot[k - first])
      invariant forall k :: first + i <= k < first + prot.Length ==> mem.pages[k].mapped
      invariant i < prot.Length ==> StartsRun(prot[..], i)
      invariant forall k :: 0 <= k < i && StartsRun(prot[..], k) ==> runOk(k)
    {
      var next := i + 1;
      while next < prot.Length && prot[next] == prot[i]
        invariant i < next <= prot.Length
        invariant forall k :: i <= k < next ==> prot[k] == prot[i]
        invariant forall k :: i < k < next ==> !StartsRun(prot[..], k)
      {
        next := next + 1;
      }
      var at, length := (first + i) * PAGE, (next - i) * PAGE;
      ok := ApplyRun(mem, at, length, prot[i], runOk(i));
      if !ok { return; }
      i := next;
    }
    ok := true;
  }

  method ApplyRun(mem: Memory, at: nat, length: nat, p: Option<Prot>, hostOk: bool) returns (ok: bool)
    requires mem.Valid() && at % PAGE == 0 && length % PAGE == 0 && length != 0 && at + length <= SPACE
    requires forall k :: at / PAGE <= k < (at + length) / PAGE ==> mem.pages[k].mapped
    modifies mem.pages
    ensures mem.Valid() && ok == hostOk
    ensures mem.pages[..] == if ok then Fill(old(mem.pages[..]), at / PAGE, (at + length) / PAGE, FlagsOf(p))
                             else old(mem.pages[..])
  {
    assert PageRoundUp(length) == length;
    if p.None? { ok := mem.Unmap(at, length, hostOk); } else { ok := mem.ProtectPages(at, length, p.value, hostOk); }
  }

  // ---- File contents ----

  /** The file part of a PT_LOAD holds this address. */
  predicate Supplies(p: Phdr, address: int) { p.kind.Load? && p.vaddr <= address < p.vaddr + p.filesz }

  /** The byte at an unbiased address after the first n headers are copied: the last supplier's, else zero. */
  function ContentAt(elf: Elf, n: nat, address: int): byte
    requires n <= |elf.phdrs| && HeadersOk(elf, |elf.phdrs|)
  {
    if n == 0 then 0
    else
      var p := elf.phdrs[n - 1];
      assert HeaderOk(p, elf.data);
      if Supplies(p, address) then elf.data[p.offset + (address - p.vaddr)] else ContentAt(elf, n - 1, address)
  }

  /** A byte is the file's where the last PT_LOAD that holds its address says so, and zero where none does. */
  lemma {:induction false} ContentIsLast(elf: Elf, n: nat, address: int, i: nat)
    requires n <= |elf.phdrs| && HeadersOk(elf, |elf.phdrs|) && i < n && Supplies(elf.phdrs[i], address)
    requires forall k :: i < k < n ==> !Supplies(elf.phdrs[k], address)
    ensures HeaderOk(elf.phdrs[i], elf.data)
    ensures ContentAt(elf, n, address) == elf.data[elf.phdrs[i].offset + (address - elf.phdrs[i].vaddr)]
  {
    assert HeaderOk(elf.phdrs[i], elf.data);
    if i < n - 1 { ContentIsLast(elf, n - 1, address, i); }
  }

  /** The span holds what the file supplies, and zeros elsewhere. */
  ghost predicate Filled(b: seq<byte>, elf: Elf, n: nat, lo: nat, hi: nat, bias: nat)
    requires n <= |elf.phdrs| && HeadersOk(elf, |elf.phdrs|)
  {
    hi <= |b| && forall a :: lo <= a < hi ==> b[a] == ContentAt(elf, n, a - bias)
  }

  /** A fresh anonymous mapping reads as zeros; then the segments are copied in order. */
  method FillImage(bytes: array<byte>, elf: Elf, span: Span, bias: nat)
    requires bytes.Length == SPACE && HeadersOk(elf, |elf.phdrs|) && SpanOf(elf.phdrs, |elf.phdrs|) == Some(span)
    requires span.lo < span.hi && span.hi + bias < PAGES
    modifies bytes
    ensures SameOutside(old(bytes[..]), bytes[..], (span.lo + bias) * PAGE, (span.hi + bias) * PAGE)
    ensures Filled(bytes[..], elf, |elf.phdrs|, (span.lo + bias) * PAGE, (span.hi + bias) * PAGE, bias * PAGE)
  {
    var lo, hi := (span.lo + bias) * PAGE, (span.hi + bias) * PAGE;
    for a := lo to hi
      invariant SameOutside(old(bytes[..]), bytes[..], lo, hi)
      invariant forall k :: lo <= k < a ==> bytes[k] == 0
    {
      bytes[a] := 0;
    }
    for i := 0 to |elf.phdrs|
      invariant SameOutside(old(bytes[..]), bytes[..], lo, hi) && Filled(bytes[..], elf, i, lo, hi, bias * PAGE)
    {
      var p := elf.phdrs[i];
      assert HeaderOk(p, elf.data);
      if p.kind.Load? && p.filesz != 0 {
        SegmentInside(elf.phdrs, span, i);
        CopyIn(bytes, p.vaddr + bias * PAGE, elf.data[p.offset..p.offset + p.filesz]);
      }
    }
  }

  lemma {:induction false} SegmentInside(phdrs: seq<Phdr>, span: Span, i: nat)
    requires SpanOf(phdrs, |phdrs|) == Some(span) && i < |phdrs| && Occupies(phdrs[i])
    ensures span.lo * PAGE <= phdrs[i].vaddr && phdrs[i].vaddr + phdrs[i].memsz <= span.hi * PAGE
  {
    SpanHolds(phdrs, |phdrs|);
  }

  // ---- The whole load ----

  function EvenEntry(elf: Elf): u32 { elf.entry - elf.entry % 2 }

  ghost predicate EntryOk(elf: Elf) {
    exists i :: 0 <= i < |elf.phdrs| && InExecutable(elf.phdrs[i], EvenEntry(elf))
  }

  predicate InExecutable(p: Phdr, entry: nat) {
    p.kind.Load? && p.prot.exec && p.vaddr <= entry < p.vaddr + p.memsz
  }

  method CheckEntry(elf: Elf) returns (ok: bool)
    ensures ok == EntryOk(elf)
  {
    for i := 0 to |elf.phdrs|
      invariant forall k :: 0 <= k < i ==> !InExecutable(elf.phdrs[k], EvenEntry(elf))
    {
      if InExecutable(elf.phdrs[i], EvenEntry(elf)) { return true; }
    }
    return false;
  }

  /** The address of the last PT_PHDR among the first n headers, or 0. */
  function TableAddress(phdrs: seq<Phdr>, n: nat, bias: nat): nat
    requires n <= |phdrs|
  {
    if n == 0 then 0
    else if phdrs[n - 1].kind.HeaderTable? && phdrs[n - 1].vaddr + bias < SPACE then phdrs[n - 1].vaddr + bias
    else TableAddress(phdrs, n - 1, bias)
  }

  predicate HoldsHeaders(p: Phdr, phoff: nat) { p.kind.Load? && p.offset <= phoff < p.offset + p.filesz }

  /** The first PT_LOAD from i on that holds this file offset. */
  function FirstHolder(phdrs: seq<Phdr>, phoff: nat, i: nat): (r: Option<nat>)
    requires i <= |phdrs|
    ensures r.Some? ==> i <= r.value < |phdrs| && HoldsHeaders(phdrs[r.value], phoff)
    ensures forall k :: i <= k < |phdrs| && (r.None? || k < r.value) ==> !HoldsHeaders(phdrs[k], phoff)
    decreases |phdrs| - i
  {
    if i == |phdrs| then None
    else if HoldsHeaders(phdrs[i], phoff) then Some(i)
    else FirstHolder(phdrs, phoff, i + 1)
  }

  /** Where the program headers are: PT_PHDR, else in the first PT_LOAD that holds e_phoff, else 0. */
  function HeaderAddress(elf: Elf, bias: nat): nat {
    var table, holder := TableAddress(elf.phdrs, |elf.phdrs|, bias), FirstHolder(elf.phdrs, elf.phoff, 0);
    if table != 0 then table
    else if holder.None? then 0
    else elf.phdrs[holder.value].vaddr + (elf.phoff - elf.phdrs[holder.value].offset) + bias
  }

  method LocateHeaders(elf: Elf, bias: nat) returns (at: nat)
    ensures at == HeaderAddress(elf, bias)
  {
    at := 0;
    for i := 0 to |elf.phdrs|
      invariant at == TableAddress(elf.phdrs, i, bias)
    {
      var p := elf.phdrs[i];
      if p.kind.HeaderTable? && p.vaddr + bias < SPACE { at := p.vaddr + bias; }
    }
    if at != 0 { return; }
    for i := 0 to |elf.phdrs|
      invariant FirstHolder(elf.phdrs, elf.phoff, 0) == FirstHolder(elf.phdrs, elf.phoff, i)
    {
      var p := elf.phdrs[i];
      if HoldsHeaders(p, elf.phoff) { return p.vaddr + (elf.phoff - p.offset) + bias; }
    }
  }

  /** The image in page table t: each page has exactly the union of its segments, gaps are unmapped. */
  ghost predicate ImageMapped(elf: Elf, image: Loaded, t: Table)
    requires |t| == PAGES
  {
    && image.bias <= image.start < image.end < PAGES
    && SpanOf(elf.phdrs, |elf.phdrs|) == Some(Span(image.start - image.bias, image.end - image.bias))
    && forall i :: image.start <= i < image.end ==> t[i] == FlagsOf(UnionAt(elf.phdrs, |elf.phdrs|, i - image.bias))
  }

  /** The program headers lie inside the image and are readable. */
  ghost predicate HeadersMapped(elf: Elf, image: Loaded, t: Table)
    requires |t| == PAGES
  {
    && image.phdr == HeaderAddress(elf, image.bias * PAGE) && image.start * PAGE <= image.phdr
    && image.phdr + |elf.phdrs| * PHDR_SIZE <= image.end * PAGE
    && Accessible(t, image.phdr, |elf.phdrs| * PHDR_SIZE, READ)
  }

  /** The image can go `bias` pages up: it stays at its own free address, or goes where find_free says. */
  ghost predicate IsBias(t: Table, elf: Elf, span: Span, dynLimit: u32, bias: nat)
    requires |t| == PAGES
  {
    span.hi + bias < PAGES &&
    if elf.dyn then IsFindFree(t, span.Size(), dynLimit, (span.lo + bias) * PAGE) && span.lo + bias > 0
    else bias == 0 && AllFree(t, span.lo, span.hi)
  }

  lemma {:induction false} BiasIsFindFree(t: Table, elf: Elf, span: Span, dynLimit: u32, at: u32)
    requires |t| == PAGES && span.lo < span.hi < PAGES && elf.dyn && IsFindFree(t, span.Size(), dynLimit, at)
    ensures forall b :: IsBias(t, elf, span, dynLimit, b) ==> at == (span.lo + b) * PAGE > 0 && span.hi + b < PAGES
  {
    forall b | IsBias(t, elf, span, dynLimit, b) ensures at == (span.lo + b) * PAGE > 0 {
      FindFreeUnique(t, span.Size(), dynLimit, at, (span.lo + b) * PAGE);
    }
  }

  /** Where the image goes, in pages: at its own address, or in the highest free run below dynLimit. */
  method ChooseBias(mem: Memory, elf: Elf, span: Span, dynLimit: u32) returns (bias: Option<nat>)
    requires mem.Valid() && span.lo < span.hi < PAGES
    ensures bias.Some? ==> IsBias(mem.pages[..], elf, span, dynLimit, bias.value)
    ensures bias.Some? ==> AllFree(mem.pages[..], span.lo + bias.value, span.hi + bias.value)
    ensures bias.None? ==> forall b :: !IsBias(mem.pages[..], elf, span, dynLimit, b)
  {
    var size := (span.hi - span.lo) * PAGE;
    assert PageRoundUp(size) == size;
    if elf.dyn {
      var at := mem.FindFree(size, dynLimit);
      BiasIsFindFree(mem.pages[..], elf, span, dynLimit, at);
      if at == 0 || at < span.lo * PAGE || at + size >= SPACE { return None; }
      return Some(at / PAGE - span.lo);
    }
    var free := mem.IsRangeFree(span.lo * PAGE, size);
    return if free then Some(0) else None;
  }

  lemma {:induction false} BiasUnique(t: Table, elf: Elf, span: Span, dynLimit: u32, a: nat, b: nat)
    requires |t| == PAGES && IsBias(t, elf, span, dynLimit, a) && IsBias(t, elf, span, dynLimit, b)
    ensures a == b
  {
    if elf.dyn {
      FindFreeUnique(t, span.Size(), dynLimit, (span.lo + a) * PAGE, (span.lo + b) * PAGE);
    }
  }

  function UnionIn(elf: Elf, page: int): Option<Prot> { UnionAt(elf.phdrs, |elf.phdrs|, page) }

  predicate RunStart(elf: Elf, span: Span, i: nat) { i == 0 || UnionIn(elf, span.lo + i) != UnionIn(elf, span.lo + i - 1) }

  /** The host grants every run of equal permissions in the span. */
  ghost predicate RunsOk(elf: Elf, span: Span, runOk: nat -> bool) {
    forall i :: 0 <= i < span.hi - span.lo && RunStart(elf, span, i) ==> runOk(i)
  }

  /** Page i is readable once the image is `bias` pages up. */
  predicate ReadableAt(elf: Elf, bias: nat, i: int) { UnionIn(elf, i - bias).Some? && UnionIn(elf, i - bias).value.read }

  /** Some segment makes every page of the program headers readable, inside the span. */
  ghost predicate HeadersReadable(elf: Elf, span: Span, bias: nat) {
    var at, end := HeaderAddress(elf, bias * PAGE), HeaderAddress(elf, bias * PAGE) + |elf.phdrs| * PHDR_SIZE;
    && at != 0 && (span.lo + bias) * PAGE <= at && end <= (span.hi + bias) * PAGE
    && forall i :: at / PAGE <= i < (end - 1) / PAGE + 1 ==> ReadableAt(elf, bias, i)
  }

  lemma {:induction false} ReadableIff(t: Table, elf: Elf, span: Span, bias: nat, at: nat, length: nat)
    requires |t| == PAGES && length > 0 && span.lo < span.hi && span.hi + bias < PAGES
    requires (span.lo + bias) * PAGE <= at && at + length <= (span.hi + bias) * PAGE
    requires forall i :: span.lo + bias <= i < span.hi + bias ==> t[i] == FlagsOf(UnionIn(elf, i - bias))
    ensures Accessible(t, at, length, READ) <==>
            forall i :: at / PAGE <= i < (at + length - 1) / PAGE + 1 ==> ReadableAt(elf, bias, i)
  {
    forall i | at / PAGE <= i < (at + length - 1) / PAGE + 1
      ensures Has(t[i], READ) <==> ReadableAt(elf, bias, i)
    {
      assert span.lo + bias <= i < span.hi + bias;
    }
  }

  /** load_elf can load the file here. */
  ghost predicate Loadable(t: Table, elf: Elf, dynLimit: u32, mapOk: bool, runOk: nat -> bool)
    requires |t| == PAGES
  {
    var span := SpanOf(elf.phdrs, |elf.phdrs|);
    && HeadersOk(elf, |elf.phdrs|) && EntryOk(elf) && span.Some? && span.value.hi < PAGES && mapOk && RunsOk(elf, span.value, runOk)
    && exists bias: nat :: IsBias(t, elf, span.value, dynLimit, bias) && EvenEntry(elf) + bias * PAGE < SPACE &&
                      HeadersReadable(elf, span.value, bias)
  }

  /**
    load_elf succeeds exactly if the file is Loadable. On success the image is mapped as ImageMapped
    says, over pages that were free, and no other page changes. On failure no page changes, provided the
    rollback's own host call succeeds; when that call fails, some page does differ.
  */
  method LoadElf(mem: Memory, bytes: array<byte>, elf: Elf, dynLimit: u32, mapOk: bool, runOk: nat -> bool, rollbackOk: bool)
    returns (r: Result)
    requires mem.Valid() && bytes.Length == SPACE
    modifies mem.pages, bytes
    ensures mem.Valid()
    ensures r.Success? <==> Loadable(old(mem.pages[..]), elf, dynLimit, mapOk, runOk)
    ensures r.Success? ==> IsBias(old(mem.pages[..]), elf, SpanOf(elf.phdrs, |elf.phdrs|).value, dynLimit, r.image.bias)
    ensures r.Success? ==> r.image.entry == elf.entry + r.image.bias * PAGE
    ensures r.Success? ==> ImageMapped(elf, r.image, mem.pages[..]) && HeadersMapped(elf, r.image, mem.pages[..])
    ensures r.Success? ==> Filled(bytes[..], elf, |elf.phdrs|, r.image.start * PAGE, r.image.end * PAGE, r.image.bias * PAGE)
    ensures r.Success? ==> SameOutside(old(bytes[..]), bytes[..], r.image.start * PAGE, r.image.end * PAGE)
    ensures r.Success? ==> AllFree(old(mem.pages[..]), r.image.start, r.image.end)
    ensures r.Success? ==> SameOutside(old(mem.pages[..]), mem.pages[..], r.image.start, r.image.end)
    ensures r.Rejected? ==> mem.pages[..] == old(mem.pages[..])
    ensures r.RolledBack? ==> (mem.pages[..] == old(mem.pages[..]) <==> rollbackOk)
  {
    var span := FindSpan(elf);
    if span.None? { return Rejected; }
    SpanHolds(elf.phdrs, |elf.phdrs|);
    var bias := ChooseBias(mem, elf, span.value, dynLimit);
    if bias.None? { return Rejected; }
    var entryOk := CheckEntry(elf);
    forall b | IsBias(mem.pages[..], elf, span.value, dynLimit, b) ensures b == bias.value {
      BiasUnique(mem.pages[..], elf, span.value, dynLimit, b, bias.value);
    }
    if EvenEntry(elf) + bias.value * PAGE >= SPACE || !entryOk { return Rejected; }
    r := Install(mem, bytes, elf, span.value, bias.value, mapOk, runOk, rollbackOk);
  }

  /** The failure path: unmap the span. It restores the table exactly if the host lets it. */
  method RollBack(mem: Memory, ghost before: Table, first: nat, n: nat, rollbackOk: bool) returns (r: Result)
    requires mem.Valid() && n > 0 && first + n < PAGES && WellFormed(before)
    requires SameOutside(before, mem.pages[..], first, first + n) && AllFree(before, first, first + n)
    requires mem.pages[first].mapped
    modifies mem.pages
    ensures mem.Valid() && r == RolledBack && (mem.pages[..] == before <==> rollbackOk)
  {
    assert PageRoundUp(n * PAGE) == n * PAGE;
    var _ := mem.Unmap(first * PAGE, n * PAGE, rollbackOk);
    assert mem.pages[first] == mem.pages[..][first];
    return RolledBack;
  }

  /** Reserves the span and gives every page its permissions. */
  method MapImage(mem: Memory, bytes: array<byte>, elf: Elf, span: Span, first: nat, mapOk: bool, runOk: nat -> bool)
    returns (reserved: bool, ok: bool)
    requires mem.Valid() && SpanOf(elf.phdrs, |elf.phdrs|) == Some(span) && bytes.Length == SPACE && HeadersOk(elf, |elf.phdrs|)
    requires span.lo < span.hi && span.lo <= first && first + (span.hi - span.lo) < PAGES
    modifies mem.pages, bytes
    ensures reserved ==> Filled(bytes[..], elf, |elf.phdrs|, first * PAGE, (first + (span.hi - span.lo)) * PAGE, (first - span.lo) * PAGE)
    ensures reserved ==> SameOutside(old(bytes[..]), bytes[..], first * PAGE, (first + (span.hi - span.lo)) * PAGE)
    ensures mem.Valid() && (ok ==> reserved) && (!reserved ==> mem.pages[..] == old(mem.pages[..]))
    ensures SameOutside(old(mem.pages[..]), mem.pages[..], first, first + (span.hi - span.lo))
    ensures reserved ==> mem.pages[first].mapped
    ensures ok <==> mapOk && RunsOk(elf, span, runOk)
    ensures ok ==> forall i :: first <= i < first + (span.hi - span.lo) ==>
              mem.pages[i] == FlagsOf(UnionAt(elf.phdrs, |elf.phdrs|, i - (first - span.lo)))
  {
    var n := span.hi - span.lo;
    assert PageRoundUp(n * PAGE) == n * PAGE;
    reserved := mem.MapPages(first * PAGE, n * PAGE, Prot(true, true, false), mapOk);
    if !reserved { return false, false; }
    FillImage(bytes, elf, span, first - span.lo);
    var prot := PagePermissions(elf.phdrs, span);
    ok := ApplyRuns(mem, prot, first, runOk);
    FirstPageStays(elf.phdrs, span);
    assert prot[first - first].Some?;
  }

  /** From the reservation of the span on: the bias is known and the span is free. */
  method Install(mem: Memory, bytes: array<byte>, elf: Elf, span: Span, bias: nat, mapOk: bool, runOk: nat -> bool, rollbackOk: bool)
    returns (r: Result)
    requires mem.Valid() && SpanOf(elf.phdrs, |elf.phdrs|) == Some(span) && bytes.Length == SPACE && HeadersOk(elf, |elf.phdrs|)
    requires span.lo < span.hi && span.hi + bias < PAGES && EvenEntry(elf) + bias * PAGE < SPACE
    requires AllFree(mem.pages[..], span.lo + bias, span.hi + bias)
    modifies mem.pages, bytes
    ensures mem.Valid()
    ensures r.Success? <==> mapOk && RunsOk(elf, span, runOk) && HeadersReadable(elf, span, bias)
    ensures r.Success? ==> ImageMapped(elf, r.image, mem.pages[..]) && HeadersMapped(elf, r.image, mem.pages[..])
    ensures r.Success? ==> r.image.start == span.lo + bias && r.image.end == span.hi + bias && r.image.bias == bias
    ensures r.Success? ==> r.image.entry == elf.entry + bias * PAGE
    ensures r.Success? ==> Filled(bytes[..], elf, |elf.phdrs|, (span.lo + bias) * PAGE, (span.hi + bias) * PAGE, bias * PAGE)
    ensures r.Success? ==> SameOutside(old(bytes[..]), bytes[..], (span.lo + bias) * PAGE, (span.hi + bias) * PAGE)
    ensures r.Success? ==> SameOutside(old(mem.pages[..]), mem.pages[..], span.lo + bias, span.hi + bias)
    ensures r.Rejected? ==> mem.pages[..] == old(mem.pages[..])
    ensures r.RolledBack? ==> (mem.pages[..] == old(mem.pages[..]) <==> rollbackOk)
  {
    ghost var before := mem.pages[..];
    var first, n := span.lo + bias, span.hi - span.lo;
    var reserved, ok := MapImage(mem, bytes, elf, span, first, mapOk, runOk);
    if !reserved { return Rejected; }
    var phdr := 0;
    if ok { phdr, ok := CheckMappedHeaders(mem, elf, span, bias); }
    if !ok {
      r := RollBack(mem, before, first, n, rollbackOk);
      return;
    }
    var entry := EvenEntry(elf) + bias * PAGE + elf.entry % 2;
    EntryFits(elf, bias);
    return Success(Loaded(bias, first, first + n, entry, phdr));
  }

  lemma {:induction false} EntryFits(elf: Elf, bias: nat)
    requires EvenEntry(elf) + bias * PAGE < SPACE
    ensures elf.entry + bias * PAGE == EvenEntry(elf) + bias * PAGE + elf.entry % 2 < SPACE
  {
    assert (EvenEntry(elf) + bias * PAGE) % 2 == 0;
  }

  /** Finds the program headers in the mapped image. */
  method CheckMappedHeaders(mem: Memory, elf: Elf, span: Span, bias: nat) returns (phdr: nat, ok: bool)
    requires mem.Valid() && SpanOf(elf.phdrs, |elf.phdrs|) == Some(span) && span.lo < span.hi && span.hi + bias < PAGES
    requires forall i :: span.lo + bias <= i < span.hi + bias ==> mem.pages[i] == FlagsOf(UnionIn(elf, i - bias))
    ensures phdr == HeaderAddress(elf, bias * PAGE) && (ok <==> HeadersReadable(elf, span, bias))
    ensures ok ==> (span.lo + bias) * PAGE <= phdr && phdr + |elf.phdrs| * PHDR_SIZE <= (span.hi + bias) * PAGE
    ensures ok ==> Accessible(mem.pages[..], phdr, |elf.phdrs| * PHDR_SIZE, READ)
  {
    phdr := LocateHeaders(elf, bias * PAGE);
    var length := |elf.phdrs| * PHDR_SIZE;
    SpanHolds(elf.phdrs, |elf.phdrs|);
    if phdr == 0 || phdr < (span.lo + bias) * PAGE || phdr + length > (span.hi + bias) * PAGE { return phdr, false; }
    ok := mem.IsAccessible(phdr, length, READ);
    ReadableIff(mem.pages[..], elf, span, bias, phdr, length);
  }

  lemma FirstPageStays(phdrs: seq<Phdr>, span: Span)
    requires SpanOf(phdrs, |phdrs|) == Some(span)
    ensures UnionAt(phdrs, |phdrs|, span.lo).Some?
  {
    SpanHolds(phdrs, |phdrs|);
    TouchedExactly(phdrs, |phdrs|, span.lo);
  }
}
