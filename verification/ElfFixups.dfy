/**
  The in-place fixups of old ARM libraries and the text-relocation marker detector
  (core/src/elf_fixups.cpp), on the bytes of the file.
*/
module ElfFixups {
  import opened Wrappers
  import opened Words

  const DT_NULL := 0
  const DT_NEEDED := 1
  const DT_STRTAB := 5
  const DT_STRSZ := 10
  const DT_TEXTREL := 22
  const DT_FLAGS := 30
  const DF_TEXTREL := 4
  const DT_ZB_TEXTREL := 0x6000_5A42
  const PT_LOAD := 1
  const PT_DYNAMIC := 2
  const EHDR_SIZE := 52
  const PHDR_SIZE := 32
  const DYN_SIZE := 8
  const MAX_DYNAMIC_SIZE := 0x1_0000

  // ---- Program headers ----

  datatype Phdr = Phdr(kind: u32, offset: u32, vaddr: u32, filesz: u32)

  function PhdrAt(b: seq<byte>, at: nat): Phdr
    requires at + PHDR_SIZE <= |b|
  {
    Phdr(At32(b, at), At32(b, at + 4), At32(b, at + 8), At32(b, at + 16))
  }

  predicate RangeFits(offset: nat, size: nat, total: nat) { offset + size <= total }

  predicate DynamicOk(p: Phdr, total: nat) {
    p.filesz != 0 && p.filesz <= MAX_DYNAMIC_SIZE && p.filesz % DYN_SIZE == 0 && RangeFits(p.offset, p.filesz, total)
  }

  /** What the program headers say: the PT_LOADs in order, and the one PT_DYNAMIC if any. */
  datatype Layout = Layout(loads: seq<Phdr>, dynamic: Option<Phdr>)

  /** The first n program headers, or None where the scan reports an error. */
  function Scan(b: seq<byte>, phoff: nat, n: nat): (r: Option<Layout>)
    requires phoff + n * PHDR_SIZE <= |b|
    ensures r.Some? && r.value.dynamic.Some? ==> DynamicOk(r.value.dynamic.value, |b|)
  {
    if n == 0 then Some(Layout([], None))
    else
      var before := Scan(b, phoff, n - 1);
      var p := PhdrAt(b, phoff + (n - 1) * PHDR_SIZE);
      if before.None? then None else AddHeader(before.value, p, |b|)
  }

  function AddHeader(l: Layout, p: Phdr, total: nat): Option<Layout> {
    if p.kind == PT_LOAD then
      if RangeFits(p.offset, p.filesz, total) then Some(l.(loads := l.loads + [p])) else None
    else if p.kind == PT_DYNAMIC then
      if l.dynamic.None? && DynamicOk(p, total) then Some(l.(dynamic := Some(p))) else None
    else Some(l)
  }

  datatype Status = Unchanged | Changed | Skipped | Error

  predicate HasMagic(b: seq<byte>) { |b| >= 4 && b[0] == 0x7F && b[1] == 0x45 && b[2] == 0x4C && b[3] == 0x46 }

  predicate IsArm32(b: seq<byte>)
    requires |b| >= EHDR_SIZE
  {
    b[4] == 1 && b[5] == 1 && At16(b, 18) == 40
  }

  function Phoff(b: seq<byte>): u32
    requires |b| >= EHDR_SIZE
  {
    At32(b, 28)
  }

  function Phnum(b: seq<byte>): u16
    requires |b| >= EHDR_SIZE
  {
    At16(b, 44)
  }

  predicate HeaderOk(b: seq<byte>)
    requires |b| >= EHDR_SIZE
  {
    b[6] == 1 && At32(b, 20) == 1 && At16(b, 42) == PHDR_SIZE && 0 < Phnum(b) <= 1024 &&
    RangeFits(Phoff(b), Phnum(b) * PHDR_SIZE, |b|)
  }

  // ---- The dynamic table ----

  datatype Dyn = Dyn(tag: u32, val: u32)

  /** Where the dynamic table is and how many slots it has. */
  datatype Table = Table(at: nat, slots: nat)
  {
    predicate Fits(b: seq<byte>) { at + slots * DYN_SIZE <= |b| }
    function Offset(i: nat): nat { at + i * DYN_SIZE }
  }

  function EntryAt(b: seq<byte>, t: Table, i: nat): Dyn
    requires t.Fits(b) && i < t.slots
  {
    Dyn(At32(b, t.Offset(i)), At32(b, t.Offset(i) + 4))
  }

  function Encoded(e: Dyn): (r: seq<byte>)
    ensures |r| == DYN_SIZE
  {
    Le32(e.tag) + Le32(e.val)
  }

  function PutEntry(b: seq<byte>, t: Table, i: nat, e: Dyn): (r: seq<byte>)
    requires t.Fits(b) && i < t.slots
    ensures |r| == |b|
  {
    b[..t.Offset(i)] + Encoded(e) + b[t.Offset(i) + DYN_SIZE..]
  }

  /** The index of the first DT_NULL among the slots from i on. */
  function Terminator(b: seq<byte>, t: Table, i: nat): (r: Option<nat>)
    requires t.Fits(b) && i <= t.slots
    ensures r.Some? ==> i <= r.value < t.slots && EntryAt(b, t, r.value).tag == DT_NULL
    ensures r.Some? ==> forall k :: i <= k < r.value ==> EntryAt(b, t, k).tag != DT_NULL
    ensures r.None? ==> forall k :: i <= k < t.slots ==> EntryAt(b, t, k).tag != DT_NULL
    decreases t.slots - i
  {
    if i == t.slots then None
    else if EntryAt(b, t, i).tag == DT_NULL then Some(i)
    else Terminator(b, t, i + 1)
  }

  /** DT_NEEDED seen, last DT_STRTAB, last DT_STRSZ. */
  datatype Info = Info(needed: bool, strtab: Option<u32>, strsz: Option<u32>)

  function Note(i: Info, e: Dyn): Info {
    if e.tag == DT_NEEDED then i.(needed := true)
    else if e.tag == DT_STRTAB then i.(strtab := Some(e.val))
    else if e.tag == DT_STRSZ then i.(strsz := Some(e.val))
    else i
  }

  function InfoOf(b: seq<byte>, t: Table, n: nat): Info
    requires t.Fits(b) && n <= t.slots
  {
    if n == 0 then Info(false, None, None) else Note(InfoOf(b, t, n - 1), EntryAt(b, t, n - 1))
  }

  // ---- The string table ----

  /** A part of the file. */
  datatype Area = Area(at: nat, size: nat)
  {
    predicate Fits(b: seq<byte>) { at + size <= |b| }
  }

  function Bytes(b: seq<byte>, a: Area): seq<byte>
    requires a.Fits(b)
  {
    b[a.at..a.at + a.size]
  }

  /** vaddr_to_offset: the rest of the first PT_LOAD whose file part holds the address. */
  function Locate(loads: seq<Phdr>, address: u32, total: nat): Option<Area> {
    if loads == [] then None
    else if loads[0].vaddr <= address < loads[0].vaddr + loads[0].filesz then
      var at := loads[0].offset + (address - loads[0].vaddr);
      if RangeFits(at, 1, total) then Some(Area(at, loads[0].vaddr + loads[0].filesz - address)) else None
    else Locate(loads[1..], address, total)
  }

  function StringTable(l: Layout, i: Info, total: nat): Option<Area> {
    if !i.needed then Some(Area(0, 0))
    else if i.strtab.None? then None
    else
      var found := Locate(l.loads, i.strtab.value, total);
      if found.None? || i.strsz.None? then found
      else if i.strsz.value == 0 || i.strsz.value > found.value.size then None
      else Some(found.value.(size := i.strsz.value))
  }

  /** The bytes of a string up to its NUL; None if the table ends first. */
  function StringAt(st: seq<byte>, i: nat): (r: Option<seq<byte>>)
    requires i <= |st|
    ensures r.Some? ==> i + |r.value| < |st| && r.value == st[i..i + |r.value|] && st[i + |r.value|] == 0
    ensures r.Some? ==> forall k :: 0 <= k < |r.value| ==> r.value[k] != 0
    decreases |st| - i
  {
    if i == |st| then None
    else if st[i] == 0 then Some([])
    else
      var rest := StringAt(st, i + 1);
      if rest.None? then None else Some([st[i]] + rest.value)
  }

  predicate IsSeparator(c: byte) { c == 0x2F || c == 0x5C }

  /** One past the last separator, 0 if there is none. */
  function Cut(name: seq<byte>): (r: nat)
    ensures r <= |name| && (r > 0 ==> IsSeparator(name[r - 1]))
    ensures forall k :: r <= k < |name| ==> !IsSeparator(name[k])
  {
    if name == [] then 0
    else if IsSeparator(name[|name| - 1]) then |name|
    else Cut(name[..|name| - 1])
  }

  function Basename(name: seq<byte>): seq<byte> { name[Cut(name)..] }

  predicate ValidBasename(name: seq<byte>) { name != [] && name != [0x2E] && name != [0x2E, 0x2E] }

  // ---- The fixup of one entry ----

  /** The entry that replaces e, or None where the fixup reports an error; st is the string table. */
  function FixEntry(e: Dyn, st: seq<byte>): Option<Dyn> {
    if e.tag == DT_NEEDED then
      if e.val >= |st| then None
      else
        var name := StringAt(st, e.val);
        if name.None? then None
        else if Cut(name.value) == 0 then Some(e)
        else if !ValidBasename(Basename(name.value)) then None
        else if e.val + Cut(name.value) >= 0x1_0000_0000 then None
        else Some(Dyn(DT_NEEDED, e.val + Cut(name.value)))
    else if e.tag == DT_TEXTREL then Some(Dyn(DT_ZB_TEXTREL, 1))
    else if HasTextrelFlag(e) then Some(Dyn(DT_FLAGS, e.val - DF_TEXTREL))
    else Some(e)
  }

  predicate HasTextrelFlag(e: Dyn) { e.tag == DT_FLAGS && e.val / DF_TEXTREL % 2 == 1 }

  predicate IsTextrel(e: Dyn) { e.tag == DT_TEXTREL || HasTextrelFlag(e) }

  predicate LeavesMarker(e: Dyn) { e.tag == DT_TEXTREL || e.tag == DT_ZB_TEXTREL }

  lemma StringTail(st: seq<byte>, i: nat, k: nat)
    requires i < |st| && StringAt(st, i).Some? && k <= |StringAt(st, i).value|
    ensures StringAt(st, i + k).Some? && StringAt(st, i + k).value == StringAt(st, i).value[k..]
    decreases k
  {
    if k > 0 {
      StringTail(st, i + 1, k - 1);
      assert StringAt(st, i).value[1..] == StringAt(st, i + 1).value;
    }
  }

  lemma NoSeparatorNoCut(name: seq<byte>)
    requires forall k :: 0 <= k < |name| ==> !IsSeparator(name[k])
    ensures Cut(name) == 0
  {
  }

  /** The name a DT_NEEDED entry means. */
  function Needed(e: Dyn, st: seq<byte>): Option<seq<byte>> {
    if e.tag == DT_NEEDED && e.val < |st| then StringAt(st, e.val) else None
  }

  /** A fixed DT_NEEDED resolves to the old name's basename. */
  lemma {:induction false} NeededBecomesBasename(e: Dyn, st: seq<byte>)
    requires e.tag == DT_NEEDED && FixEntry(e, st).Some?
    ensures Needed(e, st).Some? && Needed(FixEntry(e, st).value, st) == Some(Basename(Needed(e, st).value))
  {
    var name := StringAt(st, e.val).value;
    StringTail(st, e.val, Cut(name));
    assert name[0..] == name;
  }

  /** Fixing is idempotent entry by entry. */
  lemma FixEntryTwice(e: Dyn, st: seq<byte>)
    requires FixEntry(e, st).Some?
    ensures FixEntry(FixEntry(e, st).value, st) == FixEntry(e, st)
    ensures !IsTextrel(FixEntry(e, st).value)
  {
    if e.tag == DT_NEEDED {
      NeededBecomesBasename(e, st);
      NoSeparatorNoCut(Basename(StringAt(st, e.val).value));
    }
  }

  // ---- The whole fixup ----

  datatype Plan = Plan(table: Table, last: nat, strings: Area)
  {
    predicate Fits(b: seq<byte>) { table.Fits(b) && last < table.slots && strings.Fits(b) }
  }

  datatype Prepared = Stop(status: Status) | Go(plan: Plan)

  lemma LocateFits(loads: seq<Phdr>, address: u32, total: nat)
    requires forall p :: p in loads ==> RangeFits(p.offset, p.filesz, total)
    ensures Locate(loads, address, total).Some? ==>
              Locate(loads, address, total).value.at + Locate(loads, address, total).value.size <= total
  {
  }

  lemma ScanLoadsFit(b: seq<byte>, phoff: nat, n: nat)
    requires phoff + n * PHDR_SIZE <= |b|
    ensures Scan(b, phoff, n).Some? ==> forall p :: p in Scan(b, phoff, n).value.loads ==> RangeFits(p.offset, p.filesz, |b|)
  {
  }

  datatype Headers = Refused(status: Status) | Read(layout: Layout)

  /** The ELF header and the program headers. */
  function ReadHeaders(b: seq<byte>): (r: Headers)
    ensures r.Read? ==> |b| >= EHDR_SIZE && r.layout.dynamic.Some? && DynamicOk(r.layout.dynamic.value, |b|)
    ensures r.Read? ==> forall p :: p in r.layout.loads ==> RangeFits(p.offset, p.filesz, |b|)
  {
    if !HasMagic(b) then Refused(Skipped)
    else if |b| < EHDR_SIZE then Refused(Error)
    else if !IsArm32(b) then Refused(Skipped)
    else if !HeaderOk(b) then Refused(Error)
    else
      var layout := Scan(b, Phoff(b), Phnum(b));
      if layout.None? then Refused(Error)
      else if layout.value.dynamic.None? then Refused(Skipped)
      else
        ScanLoadsFit(b, Phoff(b), Phnum(b));
        Read(layout.value)
  }

  function TableOf(l: Layout): Table
    requires l.dynamic.Some?
  {
    Table(l.dynamic.value.offset, l.dynamic.value.filesz / DYN_SIZE)
  }

  lemma StringTableFits(l: Layout, i: Info, total: nat)
    requires forall p :: p in l.loads ==> RangeFits(p.offset, p.filesz, total)
    ensures StringTable(l, i, total).Some? ==>
              StringTable(l, i, total).value.at + StringTable(l, i, total).value.size <= total
  {
    if i.strtab.Some? { LocateFits(l.loads, i.strtab.value, total); }
  }

  /** The terminator and the string table of the dynamic table. */
  function PlanOf(b: seq<byte>, l: Layout): (r: Prepared)
    requires l.dynamic.Some? && DynamicOk(l.dynamic.value, |b|)
    requires forall p :: p in l.loads ==> RangeFits(p.offset, p.filesz, |b|)
    ensures r.Go? ==> r.plan.Fits(b) && r.plan.table == TableOf(l) && Terminated(b, r.plan)
  {
    var table := TableOf(l);
    var last := Terminator(b, table, 0);
    if last.None? then Stop(Error)
    else
      var strings := StringTable(l, InfoOf(b, table, last.value), |b|);
      StringTableFits(l, InfoOf(b, table, last.value), |b|);
      if strings.None? then Stop(Error) else Go(Plan(table, last.value, strings.value))
  }

  /** The plan's last entry is the first DT_NULL of the table. */
  ghost predicate Terminated(b: seq<byte>, p: Plan)
    requires p.Fits(b)
  {
    EntryAt(b, p.table, p.last).tag == DT_NULL && forall i :: 0 <= i < p.last ==> EntryAt(b, p.table, i).tag != DT_NULL
  }

  /** Everything fix_guest_library checks before it touches an entry. */
  function Prepare(b: seq<byte>): (r: Prepared)
    ensures r.Go? ==> |b| >= EHDR_SIZE && r.plan.Fits(b) && Terminated(b, r.plan)
  {
    var h := ReadHeaders(b);
    if h.Refused? then Stop(h.status) else PlanOf(b, h.layout)
  }

  /** The bytes after some entries are fixed, and what the loop remembers. */
  datatype Progress = Progress(bytes: seq<byte>, textrel: bool, marker: bool, changed: bool)

  function FixUpTo(b: seq<byte>, p: Plan, n: nat): (r: Option<Progress>)
    requires p.Fits(b) && n <= p.last
    ensures r.Some? ==> |r.value.bytes| == |b|
  {
    if n == 0 then Some(Progress(b, false, false, false))
    else
      var before := FixUpTo(b, p, n - 1);
      if before.None? then None else FixOne(before.value, p, n - 1)
  }

  function FixOne(q: Progress, p: Plan, i: nat): (r: Option<Progress>)
    requires p.Fits(q.bytes) && i < p.last
    ensures r.Some? ==> |r.value.bytes| == |q.bytes|
  {
    var e := EntryAt(q.bytes, p.table, i);
    var f := FixEntry(e, Bytes(q.bytes, p.strings));
    if f.None? then None
    else Some(Progress(if f.value == e then q.bytes else PutEntry(q.bytes, p.table, i, f.value),
                       q.textrel || IsTextrel(e), q.marker || LeavesMarker(e), q.changed || f.value != e))
  }

  function AppendMarker(b: seq<byte>, p: Plan): (r: seq<byte>)
    requires p.Fits(b) && p.last + 1 < p.table.slots
    ensures |r| == |b|
  {
    PutEntry(PutEntry(b, p.table, p.last, Dyn(DT_ZB_TEXTREL, 1)), p.table, p.last + 1, Dyn(DT_NULL, 0))
  }

  /** fix_guest_library: the status and the bytes of the file afterwards. */
  function Fix(b: seq<byte>): (Status, seq<byte>) {
    var prepared := Prepare(b);
    if prepared.Stop? then (prepared.status, b)
    else
      var p := prepared.plan;
      var q := FixUpTo(b, p, p.last);
      if q.None? then (Error, b)
      else if q.value.textrel && !q.value.marker then
        if p.last + 1 >= p.table.slots then (Error, b) else (Changed, AppendMarker(q.value.bytes, p))
      else if q.value.changed then (Changed, q.value.bytes)
      else (Unchanged, b)
  }

  // ---- The loops of fix_guest_library ----

  method ScanHeaders(b: seq<byte>, phoff: nat, n: nat) returns (r: Option<Layout>)
    requires phoff + n * PHDR_SIZE <= |b|
    ensures r == Scan(b, phoff, n)
  {
    var l := Layout([], None);
    for i := 0 to n
      invariant Scan(b, phoff, i) == Some(l)
    {
      var next := AddHeader(l, PhdrAt(b, phoff + i * PHDR_SIZE), |b|);
      if next.None? {
        ScanStaysNone(b, phoff, i + 1, n);
        return None;
      }
      l := next.value;
    }
    return Some(l);
  }

  lemma ScanStaysNone(b: seq<byte>, phoff: nat, m: nat, n: nat)
    requires m <= n && phoff + n * PHDR_SIZE <= |b| && Scan(b, phoff, m).None?
    ensures Scan(b, phoff, n).None?
  {
  }

  method FindTerminator(b: seq<byte>, t: Table) returns (r: Option<nat>)
    requires t.Fits(b)
    ensures r == Terminator(b, t, 0)
  {
    for i := 0 to t.slots
      invariant Terminator(b, t, 0) == Terminator(b, t, i)
    {
      if EntryAt(b, t, i).tag == DT_NULL { return Some(i); }
    }
    return None;
  }

  method CollectInfo(b: seq<byte>, t: Table, n: nat) returns (r: Info)
    requires t.Fits(b) && n <= t.slots
    ensures r == InfoOf(b, t, n)
  {
    r := Info(false, None, None);
    for i := 0 to n
      invariant r == InfoOf(b, t, i)
    {
      r := Note(r, EntryAt(b, t, i));
    }
  }

  method MakePlan(b: seq<byte>) returns (r: Prepared)
    ensures r == Prepare(b)
  {
    if !HasMagic(b) { return Stop(Skipped); }
    if |b| < EHDR_SIZE { return Stop(Error); }
    if !IsArm32(b) { return Stop(Skipped); }
    if !HeaderOk(b) { return Stop(Error); }
    var layout := ScanHeaders(b, Phoff(b), Phnum(b));
    if layout.None? { return Stop(Error); }
    if layout.value.dynamic.None? { return Stop(Skipped); }
    var table := TableOf(layout.value);
    var last := FindTerminator(b, table);
    if last.None? { return Stop(Error); }
    var info := CollectInfo(b, table, last.value);
    var strings := StringTable(layout.value, info, |b|);
    if strings.None? { return Stop(Error); }
    return Go(Plan(table, last.value, strings.value));
  }

  predicate InEntry(k: nat, offset: nat) { offset <= k < offset + DYN_SIZE }

  /** Every byte in which a and c differ is in one of the changed entries. */
  ghost predicate Covered(a: seq<byte>, c: seq<byte>, changed: seq<nat>) {
    && |a| == |c|
    && (forall j :: 0 <= j < |changed| ==> changed[j] + DYN_SIZE <= |a|)
    && (forall k :: 0 <= k < |a| && a[k] != c[k] ==> exists j :: 0 <= j < |changed| && InEntry(k, changed[j]))
  }

  lemma PutCovered(a: seq<byte>, c: seq<byte>, changed: seq<nat>, t: Table, i: nat, e: Dyn)
    requires t.Fits(a) && i < t.slots && Covered(a, c, changed)
    ensures Covered(a, PutEntry(c, t, i, e), changed + [t.Offset(i)])
  {
    var d, now := PutEntry(c, t, i, e), changed + [t.Offset(i)];
    forall k | 0 <= k < |a| && a[k] != d[k]
      ensures exists j :: 0 <= j < |now| && InEntry(k, now[j])
    {
      if t.Offset(i) <= k < t.Offset(i) + DYN_SIZE {
        assert now[|changed|] == t.Offset(i);
      } else {
        assert d[k] == c[k];
        var j :| 0 <= j < |changed| && InEntry(k, changed[j]);
        assert now[j] == changed[j];
      }
    }
  }

  lemma AppendCovered(a: seq<byte>, c: seq<byte>, changed: seq<nat>, p: Plan)
    requires p.Fits(a) && p.last + 1 < p.table.slots && Covered(a, c, changed)
    ensures Covered(a, AppendMarker(c, p), changed + [p.table.Offset(p.last)] + [p.table.Offset(p.last + 1)])
  {
    PutCovered(a, c, changed, p.table, p.last, Dyn(DT_ZB_TEXTREL, 1));
    PutCovered(a, PutEntry(c, p.table, p.last, Dyn(DT_ZB_TEXTREL, 1)), changed + [p.table.Offset(p.last)],
               p.table, p.last + 1, Dyn(DT_NULL, 0));
  }

  /** The entries that changed are written back to the file; that is enough. */
  method WriteBack(file: array<byte>, bytes: seq<byte>, changed: seq<nat>)
    requires Covered(file[..], bytes, changed)
    modifies file
    ensures file[..] == bytes
  {
    for j := 0 to |changed|
      invariant Covered(file[..], bytes, changed[j..])
    {
      var at := changed[j..][0];
      ghost var before := file[..];
      for m := 0 to DYN_SIZE
        invariant forall k :: 0 <= k < file.Length ==> file[k] == if at <= k < at + m then bytes[k] else before[k]
      {
        file[at + m] := bytes[at + m];
      }
      ghost var owed, rest := changed[j..], changed[j + 1..];
      forall k | 0 <= k < file.Length && file[k] != bytes[k]
        ensures exists i :: 0 <= i < |rest| && InEntry(k, rest[i])
      {
        var i :| 0 <= i < |owed| && InEntry(k, owed[i]);
        assert owed[i] == rest[i - 1];
      }
    }
    assert file[..] == bytes;
  }

  lemma FixStaysNone(b: seq<byte>, p: Plan, m: nat, n: nat)
    requires p.Fits(b) && m <= n <= p.last && FixUpTo(b, p, m).None?
    ensures FixUpTo(b, p, n).None?
  {
  }

  /** The loop over the entries, on a copy of the file. */
  method FixEntries(b: seq<byte>, p: Plan) returns (r: Option<Progress>, changed: seq<nat>)
    requires p.Fits(b)
    ensures r == FixUpTo(b, p, p.last)
    ensures r.Some? ==> Covered(b, r.value.bytes, changed) && (r.value.changed <==> changed != [])
  {
    var q := Progress(b, false, false, false);
    changed := [];
    for i := 0 to p.last
      invariant FixUpTo(b, p, i) == Some(q) && |q.bytes| == |b|
      invariant Covered(b, q.bytes, changed) && (q.changed <==> changed != [])
    {
      var e := EntryAt(q.bytes, p.table, i);
      var f := FixEntry(e, Bytes(q.bytes, p.strings));
      if f.None? {
        FixStaysNone(b, p, i + 1, p.last);
        return None, changed;
      }
      var bytes := q.bytes;
      if f.value != e {
        PutCovered(b, bytes, changed, p.table, i, f.value);
        bytes := PutEntry(bytes, p.table, i, f.value);
        changed := changed + [p.table.Offset(i)];
      }
      q := Progress(bytes, q.textrel || IsTextrel(e), q.marker || LeavesMarker(e), q.changed || f.value != e);
    }
    return Some(q), changed;
  }

  /** fix_guest_library on the file's bytes: only changed entries are written back. */
  method FixGuestLibrary(file: array<byte>) returns (status: Status)
    modifies file
    ensures (status, file[..]) == Fix(old(file[..]))
  {
    var b := file[..];
    var prepared := MakePlan(b);
    if prepared.Stop? { return prepared.status; }
    var p := prepared.plan;
    var q, changed := FixEntries(b, p);
    if q.None? { return Error; }
    var bytes := q.value.bytes;
    if q.value.textrel && !q.value.marker {
      if p.last + 1 >= p.table.slots { return Error; }
      AppendCovered(b, bytes, changed, p);
      bytes := AppendMarker(bytes, p);
      changed := changed + [p.table.Offset(p.last)] + [p.table.Offset(p.last + 1)];
    }
    if changed == [] { return Unchanged; }
    WriteBack(file, bytes, changed);
    return Changed;
  }

  // ---- The detector ----

  /** The entries before the first DT_NULL include the marker with value 1. */
  ghost predicate TableHasMarker(b: seq<byte>, t: Table)
    requires t.Fits(b)
  {
    exists k :: 0 <= k < t.slots && EntryAt(b, t, k) == Dyn(DT_ZB_TEXTREL, 1) &&
                forall j :: 0 <= j < k ==> EntryAt(b, t, j).tag != DT_NULL
  }

  predicate Searchable(p: Phdr, total: nat) {
    p.kind == PT_DYNAMIC && p.filesz <= MAX_DYNAMIC_SIZE && p.filesz % DYN_SIZE == 0 && RangeFits(p.offset, p.filesz, total)
  }

  predicate Detectable(b: seq<byte>) {
    HasMagic(b) && |b| >= EHDR_SIZE && IsArm32(b) && At16(b, 42) == PHDR_SIZE && 0 < Phnum(b) <= 64 &&
    RangeFits(Phoff(b), Phnum(b) * PHDR_SIZE, |b|)
  }

  ghost predicate HasMarker(b: seq<byte>) {
    Detectable(b) && exists i :: 0 <= i < Phnum(b) && MarkedHeader(b, i)
  }

  ghost predicate MarkedHeader(b: seq<byte>, i: nat)
    requires Detectable(b) && i < Phnum(b)
  {
    var p := PhdrAt(b, Phoff(b) + i * PHDR_SIZE);
    Searchable(p, |b|) && TableHasMarker(b, Table(p.offset, p.filesz / DYN_SIZE))
  }

  /** elf_has_textrel_marker. */
  method DetectMarker(b: seq<byte>) returns (r: bool)
    ensures r == HasMarker(b)
  {
    if !Detectable(b) { return false; }
    for i := 0 to Phnum(b)
      invariant forall k :: 0 <= k < i ==> !MarkedHeader(b, k)
    {
      var p := PhdrAt(b, Phoff(b) + i * PHDR_SIZE);
      if Searchable(p, |b|) {
        var found := SearchTable(b, Table(p.offset, p.filesz / DYN_SIZE));
        assert found == MarkedHeader(b, i);
        if found { return true; }
      }
    }
    return false;
  }

  method SearchTable(b: seq<byte>, t: Table) returns (r: bool)
    requires t.Fits(b)
    ensures r == TableHasMarker(b, t)
  {
    for i := 0 to t.slots
      invariant forall k :: 0 <= k < i ==> EntryAt(b, t, k).tag != DT_NULL && EntryAt(b, t, k) != Dyn(DT_ZB_TEXTREL, 1)
    {
      if EntryAt(b, t, i).tag == DT_NULL { return false; }
      if EntryAt(b, t, i) == Dyn(DT_ZB_TEXTREL, 1) { return true; }
    }
    return false;
  }

  // ---- Frames ----

  lemma PutReadsBack(b: seq<byte>, t: Table, i: nat, e: Dyn)
    requires t.Fits(b) && i < t.slots
    ensures EntryAt(PutEntry(b, t, i, e), t, i) == e
  {
    var c, o := PutEntry(b, t, i, e), t.Offset(i);
    assert c[o..o + DYN_SIZE] == Encoded(e);
    assert c[o..o + 4] == c[o..o + DYN_SIZE][..4] == Le32(e.tag) == Le32(e.tag)[0..4];
    assert c[o + 4..o + 8] == c[o..o + DYN_SIZE][4..8] == Le32(e.val) == Le32(e.val)[0..4];
    SameWord(c, o, Le32(e.tag), 0);
    SameWord(c, o + 4, Le32(e.val), 0);
    ReadBack32(e.tag);
    ReadBack32(e.val);
  }

  lemma PutLeavesOthers(b: seq<byte>, t: Table, i: nat, e: Dyn, k: nat)
    requires t.Fits(b) && i < t.slots && k < t.slots && k != i
    ensures EntryAt(PutEntry(b, t, i, e), t, k) == EntryAt(b, t, k)
  {
    var c, o := PutEntry(b, t, i, e), t.Offset(k);
    assert c[o..o + 4] == b[o..o + 4];
    assert c[o + 4..o + 8] == b[o + 4..o + 8];
    SameWord(c, o, b, o);
    SameWord(c, o + 4, b, o + 4);
  }

  /** Writing an entry changes no other entry of the table. */
  lemma PutEffect(b: seq<byte>, t: Table, i: nat, e: Dyn)
    requires t.Fits(b) && i < t.slots
    ensures forall k | 0 <= k < t.slots :: EntryAt(PutEntry(b, t, i, e), t, k) == (if k == i then e else EntryAt(b, t, k))
  {
    PutReadsBack(b, t, i, e);
    forall k | 0 <= k < t.slots && k != i ensures EntryAt(PutEntry(b, t, i, e), t, k) == EntryAt(b, t, k) {
      PutLeavesOthers(b, t, i, e, k);
    }
  }

  /** The fixup writes entry i: its own fix changes it, or the marker or the new terminator goes there. */
  ghost predicate Rewrites(b: seq<byte>, p: Plan, i: nat)
    requires p.Fits(b) && i < p.table.slots
  {
    if i < p.last then FixEntry(EntryAt(b, p.table, i), Bytes(b, p.strings)) != Some(EntryAt(b, p.table, i))
    else NeedsMarker(b, p) && i <= p.last + 1
  }

  ghost function Written(b: seq<byte>, p: Plan): set<nat>
    requires p.Fits(b)
  {
    set i | 0 <= i < p.table.slots && Rewrites(b, p, i)
  }

  /** None of these entries shares a byte with this part of the file. */
  ghost predicate Untouched(t: Table, ws: set<nat>, at: nat, size: nat) {
    forall i :: i in ws ==> t.Offset(i) + DYN_SIZE <= at || at + size <= t.Offset(i)
  }

  /** The loop writes no other entry than these, and they hold no byte of the strings. */
  ghost predicate Clear(b: seq<byte>, p: Plan, ws: set<nat>)
    requires p.Fits(b)
  {
    && (forall i :: 0 <= i < p.last && i !in ws ==> FixEntry(EntryAt(b, p.table, i), Bytes(b, p.strings)) == Some(EntryAt(b, p.table, i)))
    && Untouched(p.table, ws, p.strings.at, p.strings.size)
  }

  /** b and c differ at most in these entries. */
  ghost predicate OnlyIn(b: seq<byte>, c: seq<byte>, t: Table, ws: set<nat>) {
    && |b| == |c|
    && forall k :: 0 <= k < |b| && b[k] != c[k] ==> exists i :: i in ws && InEntry(k, t.Offset(i))
  }

  lemma {:induction false} PutKeeps(b: seq<byte>, c: seq<byte>, t: Table, ws: set<nat>, i: nat, e: Dyn)
    requires t.Fits(b) && OnlyIn(b, c, t, ws) && i < t.slots && i in ws
    ensures OnlyIn(b, PutEntry(c, t, i, e), t, ws)
  {
    var d := PutEntry(c, t, i, e);
    forall k | 0 <= k < |b| && b[k] != d[k]
      ensures exists i :: i in ws && InEntry(k, t.Offset(i))
    {
      if !InEntry(k, t.Offset(i)) { assert d[k] == c[k]; }
    }
  }

  /** The assumption of the results below: the entries that are written hold no byte of the headers and the strings. */
  ghost predicate Separate(b: seq<byte>, p: Plan)
    requires |b| >= EHDR_SIZE && p.Fits(b)
  {
    var ws := Written(b, p);
    Untouched(p.table, ws, 0, EHDR_SIZE) && Untouched(p.table, ws, Phoff(b), Phnum(b) * PHDR_SIZE) && StringsUntouched(b, p)
  }

  ghost predicate StringsUntouched(b: seq<byte>, p: Plan)
    requires p.Fits(b)
  {
    Untouched(p.table, Written(b, p), p.strings.at, p.strings.size)
  }

  ghost predicate SameIn(b: seq<byte>, c: seq<byte>, at: nat, size: nat) {
    |b| == |c| && forall k :: at <= k < at + size && k < |b| ==> b[k] == c[k]
  }

  lemma UntouchedSame(b: seq<byte>, c: seq<byte>, t: Table, ws: set<nat>, at: nat, size: nat)
    requires OnlyIn(b, c, t, ws) && Untouched(t, ws, at, size)
    ensures SameIn(b, c, at, size)
  {
  }

  lemma SameBytes(b: seq<byte>, c: seq<byte>, a: Area)
    requires a.Fits(b) && SameIn(b, c, a.at, a.size)
    ensures a.Fits(c) && Bytes(b, a) == Bytes(c, a)
  {
  }

  lemma SameHeader(b: seq<byte>, c: seq<byte>)
    requires |b| >= EHDR_SIZE && SameIn(b, c, 0, EHDR_SIZE)
    ensures HasMagic(b) == HasMagic(c) && IsArm32(b) == IsArm32(c) && HeaderOk(b) == HeaderOk(c)
    ensures Phoff(b) == Phoff(c) && Phnum(b) == Phnum(c) && At16(b, 42) == At16(c, 42)
  {
    assert forall k :: 0 <= k < EHDR_SIZE ==> b[k] == c[k];
  }

  lemma SamePhdr(b: seq<byte>, c: seq<byte>, at: nat)
    requires at + PHDR_SIZE <= |b| && SameIn(b, c, at, PHDR_SIZE)
    ensures PhdrAt(b, at) == PhdrAt(c, at)
  {
    assert forall k :: at <= k < at + PHDR_SIZE ==> b[k] == c[k];
  }

  lemma {:induction false} SameScan(b: seq<byte>, c: seq<byte>, phoff: nat, n: nat)
    requires phoff + n * PHDR_SIZE <= |b| && SameIn(b, c, phoff, n * PHDR_SIZE)
    ensures Scan(b, phoff, n) == Scan(c, phoff, n)
  {
    if n > 0 {
      SameScan(b, c, phoff, n - 1);
      SamePhdr(b, c, phoff + (n - 1) * PHDR_SIZE);
    }
  }

  // ---- What a run does to the entries ----

  /** The entries after n of them are fixed. */
  ghost predicate FixedUpTo(b: seq<byte>, c: seq<byte>, p: Plan, n: nat)
    requires p.Fits(b) && p.Fits(c) && n <= p.last
  {
    && (forall i :: 0 <= i < n ==> FixEntry(EntryAt(b, p.table, i), Bytes(b, p.strings)) == Some(EntryAt(c, p.table, i)))
    && (forall i :: n <= i < p.table.slots ==> EntryAt(c, p.table, i) == EntryAt(b, p.table, i))
  }

  lemma OneFix(b: seq<byte>, q: Progress, p: Plan, ws: set<nat>, n: nat)
    requires p.Fits(b) && p.Fits(q.bytes) && n < p.last && FixedUpTo(b, q.bytes, p, n) && OnlyIn(b, q.bytes, p.table, ws)
    requires Clear(b, p, ws) && FixOne(q, p, n).Some?
    ensures FixedUpTo(b, FixOne(q, p, n).value.bytes, p, n + 1) && OnlyIn(b, FixOne(q, p, n).value.bytes, p.table, ws)
    ensures FixOne(q, p, n).value.textrel == (q.textrel || IsTextrel(EntryAt(b, p.table, n)))
    ensures FixOne(q, p, n).value.marker == (q.marker || LeavesMarker(EntryAt(b, p.table, n)))
  {
    UntouchedSame(b, q.bytes, p.table, ws, p.strings.at, p.strings.size);
    SameBytes(b, q.bytes, p.strings);
    var e := EntryAt(q.bytes, p.table, n);
    var f := FixEntry(e, Bytes(b, p.strings)).value;
    PutEffect(q.bytes, p.table, n, f);
    if f != e { PutKeeps(b, q.bytes, p.table, ws, n, f); }
  }

  lemma {:induction false} NoneFixed(b: seq<byte>, p: Plan, ws: set<nat>)
    requires p.Fits(b)
    ensures FixedUpTo(b, b, p, 0) && OnlyIn(b, b, p.table, ws)
  {
  }

  ghost predicate AnyTextrel(b: seq<byte>, t: Table, n: nat)
    requires t.Fits(b) && n <= t.slots
  {
    exists i :: 0 <= i < n && IsTextrel(EntryAt(b, t, i))
  }

  ghost predicate AnyMarker(b: seq<byte>, t: Table, n: nat)
    requires t.Fits(b) && n <= t.slots
  {
    exists i :: 0 <= i < n && LeavesMarker(EntryAt(b, t, i))
  }

  lemma {:induction false} AnyGrows(b: seq<byte>, t: Table, n: nat)
    requires t.Fits(b) && n < t.slots
    ensures AnyTextrel(b, t, n + 1) == (AnyTextrel(b, t, n) || IsTextrel(EntryAt(b, t, n)))
    ensures AnyMarker(b, t, n + 1) == (AnyMarker(b, t, n) || LeavesMarker(EntryAt(b, t, n)))
  {
  }

  /** Where the loop is after n entries. */
  ghost predicate Reached(b: seq<byte>, q: Progress, p: Plan, ws: set<nat>, n: nat)
    requires p.Fits(b) && n <= p.last
  {
    && |q.bytes| == |b| && FixedUpTo(b, q.bytes, p, n) && OnlyIn(b, q.bytes, p.table, ws) && (!q.changed ==> q.bytes == b)
    && q.textrel == AnyTextrel(b, p.table, n) && q.marker == AnyMarker(b, p.table, n)
  }

  lemma {:induction false} StartReached(b: seq<byte>, p: Plan, ws: set<nat>)
    requires p.Fits(b)
    ensures Reached(b, Progress(b, false, false, false), p, ws, 0)
  {
    NoneFixed(b, p, ws);
  }

  lemma {:induction false} NextReached(b: seq<byte>, q: Progress, r: Progress, p: Plan, ws: set<nat>, n: nat, next: nat)
    requires p.Fits(b) && p.Fits(q.bytes) && n < next == n + 1 <= p.last && Clear(b, p, ws) && FixOne(q, p, n) == Some(r) && Reached(b, q, p, ws, n)
    ensures Reached(b, r, p, ws, next)
  {
    OneFix(b, q, p, ws, n);
    AnyGrows(b, p.table, n);
  }

  /** What holds at the start and is kept by every step holds after the loop. */
  lemma {:induction false} LoopKeeps(b: seq<byte>, p: Plan, n: nat, q: Progress, inv: (Progress, nat) -> bool)
    requires p.Fits(b) && n <= p.last && FixUpTo(b, p, n) == Some(q) && inv(Progress(b, false, false, false), 0)
    requires forall x: Progress, y: Progress, k: nat ::
               k < n && inv(x, k) && |x.bytes| == |b| && FixOne(x, p, k) == Some(y) ==> inv(y, k + 1)
    ensures inv(q, n)
  {
    if n > 0 {
      var before := FixUpTo(b, p, n - 1).value;
      LoopKeeps(b, p, n - 1, before, inv);
      assert FixOne(before, p, n - 1) == Some(q);
    }
  }

  lemma {:induction false} LoopReaches(b: seq<byte>, p: Plan, ws: set<nat>, n: nat, q: Progress)
    requires p.Fits(b) && n <= p.last && Clear(b, p, ws) && FixUpTo(b, p, n) == Some(q)
    ensures Reached(b, q, p, ws, n)
  {
    var inv := (x: Progress, k: nat) => k <= p.last && Reached(b, x, p, ws, k);
    StartReached(b, p, ws);
    forall x: Progress, y: Progress, k: nat | k < n && inv(x, k) && |x.bytes| == |b| && FixOne(x, p, k) == Some(y) ensures inv(y, k + 1) {
      NextReached(b, x, y, p, ws, k, k + 1);
    }
    LoopKeeps(b, p, n, q, inv);
  }

  lemma {:induction false} LoopFixes(b: seq<byte>, p: Plan, ws: set<nat>, n: nat)
    requires p.Fits(b) && n <= p.last && Clear(b, p, ws) && FixUpTo(b, p, n).Some?
    ensures FixedUpTo(b, FixUpTo(b, p, n).value.bytes, p, n) && OnlyIn(b, FixUpTo(b, p, n).value.bytes, p.table, ws)
    ensures FixUpTo(b, p, n).value.textrel <==> exists i :: 0 <= i < n && IsTextrel(EntryAt(b, p.table, i))
    ensures FixUpTo(b, p, n).value.marker <==> exists i :: 0 <= i < n && LeavesMarker(EntryAt(b, p.table, i))
    ensures !FixUpTo(b, p, n).value.changed ==> FixUpTo(b, p, n).value.bytes == b
  {
    LoopReaches(b, p, ws, n, FixUpTo(b, p, n).value);
  }

  // ---- The results ----

  /** The loop changes a text relocation entry and leaves no marker, so one is appended. */
  ghost predicate NeedsMarker(b: seq<byte>, p: Plan)
    requires p.Fits(b)
  {
    (exists i :: 0 <= i < p.last && IsTextrel(EntryAt(b, p.table, i))) &&
    !exists i :: 0 <= i < p.last && LeavesMarker(EntryAt(b, p.table, i))
  }

  ghost function NewLast(b: seq<byte>, p: Plan): nat
    requires p.Fits(b)
  {
    if NeedsMarker(b, p) then p.last + 1 else p.last
  }

  /** c is b with every entry before the terminator fixed and, where needed, the marker appended. */
  ghost predicate IsFixed(b: seq<byte>, c: seq<byte>, p: Plan)
    requires p.Fits(b) && |b| == |c|
  {
    && NewLast(b, p) < p.table.slots
    && (forall i :: 0 <= i < p.last ==> FixEntry(EntryAt(b, p.table, i), Bytes(b, p.strings)) == Some(EntryAt(c, p.table, i)))
    && EntryAt(c, p.table, NewLast(b, p)).tag == DT_NULL
    && (NeedsMarker(b, p) ==> EntryAt(c, p.table, p.last) == Dyn(DT_ZB_TEXTREL, 1))
    && (forall i :: NewLast(b, p) < i < p.table.slots ==> EntryAt(c, p.table, i) == EntryAt(b, p.table, i))
  }

  /** fix_guest_library accepts b: it is a library and no fixup is refused. */
  ghost predicate Accepts(b: seq<byte>) { Fix(b).0.Changed? || Fix(b).0.Unchanged? }

  ghost predicate SeparatePlan(b: seq<byte>) { Prepare(b).Go? && Separate(b, Prepare(b).plan) }

  lemma StringsClear(b: seq<byte>, p: Plan)
    requires p.Fits(b) && StringsUntouched(b, p)
    ensures Clear(b, p, Written(b, p))
  {
  }

  lemma LoopResult(b: seq<byte>, p: Plan)
    requires p.Fits(b) && Terminated(b, p) && StringsUntouched(b, p)
    requires FixUpTo(b, p, p.last).Some? && !NeedsMarker(b, p)
    ensures IsFixed(b, FixUpTo(b, p, p.last).value.bytes, p) && OnlyIn(b, FixUpTo(b, p, p.last).value.bytes, p.table, Written(b, p))
  {
    StringsClear(b, p);
    LoopFixes(b, p, Written(b, p), p.last);
  }

  /** The marker takes the terminator's slot and the terminator moves up one. */
  lemma AppendEffect(c: seq<byte>, p: Plan)
    requires p.Fits(c) && p.last + 1 < p.table.slots
    ensures EntryAt(AppendMarker(c, p), p.table, p.last) == Dyn(DT_ZB_TEXTREL, 1)
    ensures EntryAt(AppendMarker(c, p), p.table, p.last + 1) == Dyn(DT_NULL, 0)
    ensures forall k | 0 <= k < p.table.slots && k != p.last && k != p.last + 1 ::
              EntryAt(AppendMarker(c, p), p.table, k) == EntryAt(c, p.table, k)
  {
    PutEffect(c, p.table, p.last, Dyn(DT_ZB_TEXTREL, 1));
    PutEffect(PutEntry(c, p.table, p.last, Dyn(DT_ZB_TEXTREL, 1)), p.table, p.last + 1, Dyn(DT_NULL, 0));
  }

  lemma AppendKeeps(b: seq<byte>, c: seq<byte>, p: Plan)
    requires p.Fits(b) && OnlyIn(b, c, p.table, Written(b, p)) && NeedsMarker(b, p) && p.last + 1 < p.table.slots
    ensures OnlyIn(b, AppendMarker(c, p), p.table, Written(b, p))
  {
    PutKeeps(b, c, p.table, Written(b, p), p.last, Dyn(DT_ZB_TEXTREL, 1));
    PutKeeps(b, PutEntry(c, p.table, p.last, Dyn(DT_ZB_TEXTREL, 1)), p.table, Written(b, p), p.last + 1, Dyn(DT_NULL, 0));
  }

  lemma MarkerFixes(b: seq<byte>, c: seq<byte>, d: seq<byte>, p: Plan)
    requires p.Fits(b) && p.Fits(c) && NeedsMarker(b, p) && p.last + 1 < p.table.slots && FixedUpTo(b, c, p, p.last)
    requires |b| == |c| == |d|
    requires EntryAt(d, p.table, p.last) == Dyn(DT_ZB_TEXTREL, 1) && EntryAt(d, p.table, p.last + 1) == Dyn(DT_NULL, 0)
    requires forall k | 0 <= k < p.table.slots && k != p.last && k != p.last + 1 :: EntryAt(d, p.table, k) == EntryAt(c, p.table, k)
    ensures IsFixed(b, d, p)
  {
  }

  lemma MarkerResult(b: seq<byte>, p: Plan)
    requires p.Fits(b) && StringsUntouched(b, p)
    requires FixUpTo(b, p, p.last).Some? && NeedsMarker(b, p) && p.last + 1 < p.table.slots
    ensures var d := AppendMarker(FixUpTo(b, p, p.last).value.bytes, p); IsFixed(b, d, p) && OnlyIn(b, d, p.table, Written(b, p))
  {
    StringsClear(b, p);
    LoopFixes(b, p, Written(b, p), p.last);
    var c := FixUpTo(b, p, p.last).value.bytes;
    AppendEffect(c, p);
    AppendKeeps(b, c, p);
    MarkerFixes(b, c, AppendMarker(c, p), p);
  }

  lemma {:induction false} AcceptedIs(b: seq<byte>, p: Plan)
    requires Prepare(b) == Go(p) && Accepts(b) && StringsUntouched(b, p)
    ensures FixUpTo(b, p, p.last).Some? && NewLast(b, p) < p.table.slots
    ensures var c := FixUpTo(b, p, p.last).value.bytes; Fix(b).1 == if NeedsMarker(b, p) then AppendMarker(c, p) else c
  {
    StringsClear(b, p);
    LoopFixes(b, p, Written(b, p), p.last);
  }

  /**
    What an accepted library becomes if its strings hold no entry that is written: only such entries
    change, every entry is fixed on its own and the table stays terminated. A refused library is left
    as it was.
  */
  lemma FixResult(b: seq<byte>)
    ensures Accepts(b) ==> Prepare(b).Go?
    ensures Accepts(b) && StringsUntouched(b, Prepare(b).plan) ==>
              |Fix(b).1| == |b| && IsFixed(b, Fix(b).1, Prepare(b).plan) && OnlyIn(b, Fix(b).1, Prepare(b).plan.table, Written(b, Prepare(b).plan))
    ensures !Accepts(b) ==> Fix(b).1 == b
  {
    if Accepts(b) && StringsUntouched(b, Prepare(b).plan) {
      var p := Prepare(b).plan;
      AcceptedIs(b, p);
      if NeedsMarker(b, p) { MarkerResult(b, p); } else { LoopResult(b, p); }
    }
  }

  lemma TerminatorIs(c: seq<byte>, t: Table, last: nat)
    requires t.Fits(c) && last < t.slots && EntryAt(c, t, last).tag == DT_NULL
    requires forall k :: 0 <= k < last ==> EntryAt(c, t, k).tag != DT_NULL
    ensures Terminator(c, t, 0) == Some(last)
  {
  }

  lemma FixKeepsNonNull(e: Dyn, st: seq<byte>)
    requires FixEntry(e, st).Some?
    ensures FixEntry(e, st).value.tag == DT_NULL <==> e.tag == DT_NULL
    ensures forall i :: Note(i, FixEntry(e, st).value) == Note(i, e)
  {
  }

  lemma {:induction false} SameInfo(b: seq<byte>, c: seq<byte>, p: Plan, n: nat)
    requires p.Fits(b) && |b| == |c| && n <= p.last && IsFixed(b, c, p)
    ensures InfoOf(c, p.table, n) == InfoOf(b, p.table, n)
  {
    if n > 0 {
      SameInfo(b, c, p, n - 1);
      FixKeepsNonNull(EntryAt(b, p.table, n - 1), Bytes(b, p.strings));
    }
  }

  lemma TerminatorMoves(b: seq<byte>, c: seq<byte>, p: Plan)
    requires p.Fits(b) && |b| == |c| && Terminated(b, p) && IsFixed(b, c, p)
    ensures Terminator(c, p.table, 0) == Some(NewLast(b, p))
  {
    forall k | 0 <= k < NewLast(b, p) ensures EntryAt(c, p.table, k).tag != DT_NULL {
      if k < p.last { FixKeepsNonNull(EntryAt(b, p.table, k), Bytes(b, p.strings)); }
    }
    TerminatorIs(c, p.table, NewLast(b, p));
  }

  lemma SameHeaders(b: seq<byte>, c: seq<byte>)
    requires |b| >= EHDR_SIZE && ReadHeaders(b).Read? && SameIn(b, c, 0, EHDR_SIZE) && SameIn(b, c, Phoff(b), Phnum(b) * PHDR_SIZE)
    ensures ReadHeaders(c) == ReadHeaders(b)
  {
    SameHeader(b, c);
    SameScan(b, c, Phoff(b), Phnum(b));
  }

  lemma MarkerIsNoInfo(c: seq<byte>, t: Table, n: nat)
    requires t.Fits(c) && n < t.slots && EntryAt(c, t, n) == Dyn(DT_ZB_TEXTREL, 1)
    ensures InfoOf(c, t, n + 1) == InfoOf(c, t, n)
  {
  }

  lemma {:induction false} InfoAgain(b: seq<byte>, c: seq<byte>, p: Plan)
    requires p.Fits(b) && |b| == |c| && IsFixed(b, c, p)
    ensures InfoOf(c, p.table, NewLast(b, p)) == InfoOf(b, p.table, p.last)
  {
    SameInfo(b, c, p, p.last);
    if NeedsMarker(b, p) { MarkerIsNoInfo(c, p.table, p.last); }
  }

  lemma PlanAgain(b: seq<byte>, c: seq<byte>, l: Layout, p: Plan)
    requires l.dynamic.Some? && DynamicOk(l.dynamic.value, |b|)
    requires forall h :: h in l.loads ==> RangeFits(h.offset, h.filesz, |b|)
    requires PlanOf(b, l) == Go(p) && |b| == |c| && IsFixed(b, c, p)
    ensures PlanOf(c, l) == Go(p.(last := NewLast(b, p)))
  {
    TerminatorMoves(b, c, p);
    InfoAgain(b, c, p);
  }

  /** The fixed library is prepared the same way, with the terminator where it now is. */
  lemma PrepareAgain(b: seq<byte>, c: seq<byte>, p: Plan)
    requires Prepare(b) == Go(p) && Separate(b, p) && OnlyIn(b, c, p.table, Written(b, p)) && IsFixed(b, c, p)
    ensures Prepare(c) == Go(p.(last := NewLast(b, p)))
  {
    UntouchedSame(b, c, p.table, Written(b, p), 0, EHDR_SIZE);
    UntouchedSame(b, c, p.table, Written(b, p), Phoff(b), Phnum(b) * PHDR_SIZE);
    SameHeaders(b, c);
    PlanAgain(b, c, ReadHeaders(b).layout, p);
  }

  /** An entry of the fixed table is not changed by another run. */
  lemma FixedEntryStays(b: seq<byte>, c: seq<byte>, p: Plan, i: nat)
    requires p.Fits(b) && |b| == |c| && IsFixed(b, c, p) && i < NewLast(b, p)
    ensures var e := EntryAt(c, p.table, i); FixEntry(e, Bytes(b, p.strings)) == Some(e) && !IsTextrel(e)
  {
    if i < p.last { FixEntryTwice(EntryAt(b, p.table, i), Bytes(b, p.strings)); }
  }

  lemma IdleStep(q: Progress, p: Plan, i: nat)
    requires p.Fits(q.bytes) && i < p.last
    requires var e := EntryAt(q.bytes, p.table, i); FixEntry(e, Bytes(q.bytes, p.strings)) == Some(e) && !IsTextrel(e)
    ensures var r := FixOne(q, p, i); r.Some? && r.value.bytes == q.bytes && r.value.textrel == q.textrel && r.value.changed == q.changed
  {
  }

  lemma {:induction false} IdleLoop(c: seq<byte>, p: Plan, n: nat)
    requires p.Fits(c) && n <= p.last
    requires forall i | 0 <= i < n ::
               FixEntry(EntryAt(c, p.table, i), Bytes(c, p.strings)) == Some(EntryAt(c, p.table, i)) && !IsTextrel(EntryAt(c, p.table, i))
    ensures var q := FixUpTo(c, p, n); q.Some? && q.value.bytes == c && !q.value.textrel && !q.value.changed
  {
    if n > 0 {
      IdleLoop(c, p, n - 1);
      IdleStep(FixUpTo(c, p, n - 1).value, p, n - 1);
    }
  }

  lemma SecondRunIdle(b: seq<byte>, c: seq<byte>, p: Plan)
    requires p.Fits(b) && OnlyIn(b, c, p.table, Written(b, p)) && IsFixed(b, c, p) && StringsUntouched(b, p)
    ensures p.(last := NewLast(b, p)).Fits(c)
    ensures var q := FixUpTo(c, p.(last := NewLast(b, p)), NewLast(b, p));
            q.Some? && q.value.bytes == c && !q.value.textrel && !q.value.changed
  {
    UntouchedSame(b, c, p.table, Written(b, p), p.strings.at, p.strings.size);
    SameBytes(b, c, p.strings);
    forall i | 0 <= i < NewLast(b, p)
      ensures FixEntry(EntryAt(c, p.table, i), Bytes(c, p.strings)) == Some(EntryAt(c, p.table, i)) && !IsTextrel(EntryAt(c, p.table, i))
    {
      FixedEntryStays(b, c, p, i);
    }
    IdleLoop(c, p.(last := NewLast(b, p)), NewLast(b, p));
  }

  /** A second run of fix_guest_library on an accepted library reports Unchanged. */
  lemma FixIsIdempotent(b: seq<byte>)
    requires SeparatePlan(b) && Accepts(b)
    ensures Fix(Fix(b).1) == (Unchanged, Fix(b).1)
  {
    FixResult(b);
    PrepareAgain(b, Fix(b).1, Prepare(b).plan);
    SecondRunIdle(b, Fix(b).1, Prepare(b).plan);
  }

  // ---- A library whose names lie in its dynamic table ----

  /** The ELF header, in whose unused fields the name "/x" stands. */
  const EHDR: seq<byte> :=
    [0x7F, 0x45, 0x4C, 0x46, 1, 1, 1, 0] + [0, 0, 0, 0, 0, 0, 0, 0] + [3, 0, 40, 0, 1, 0, 0, 0] + [0, 0, 0, 0, 52, 0, 0, 0] +
    [0, 0, 0, 0, 0, 0, 0, 0] + [52, 0, 32, 0, 2, 0, 0x2F, 0x78] + [0, 0, 0, 0]

  /** A PT_LOAD of the whole file at address 0, and the PT_DYNAMIC. */
  const PHDRS: seq<byte> :=
    ([1, 0, 0, 0, 0, 0, 0, 0] + [0, 0, 0, 0, 0, 0, 0, 0] + [148, 0, 0, 0, 148, 0, 0, 0] + [4, 0, 0, 0, 0, 0, 0, 0]) +
    ([2, 0, 0, 0, 116, 0, 0, 0] + [116, 0, 0, 0, 116, 0, 0, 0] + [32, 0, 0, 0, 32, 0, 0, 0] + [4, 0, 0, 0, 4, 0, 0, 0])

  /** Names at 128 and at v, where 128 is the offset of v itself; then the string table and the end. */
  function Dynamic(v: byte): seq<byte> {
    [1, 0, 0, 0, 128, 0, 0, 0] + [1, 0, 0, 0, v, 0, 0, 0] + [5, 0, 0, 0, 0, 0, 0, 0] + [0, 0, 0, 0, 0, 0, 0, 0]
  }

  function Library(v: byte): (b: seq<byte>)
    ensures |b| == 148
  {
    EHDR + PHDRS + Dynamic(v)
  }

  lemma {:induction false} LibraryHeader(b: seq<byte>, v: byte)
    requires b == Library(v)
    ensures HasMagic(b) && IsArm32(b) && HeaderOk(b) && Phoff(b) == 52 && Phnum(b) == 2
  {
    assert b[..52] == EHDR;
    assert forall k :: 0 <= k < 52 ==> b[k] == EHDR[k];
  }

  lemma {:induction false} LibraryPhdrs(b: seq<byte>, v: byte)
    requires b == Library(v)
    ensures PhdrAt(b, 52) == Phdr(PT_LOAD, 0, 0, 148) && PhdrAt(b, 84) == Phdr(PT_DYNAMIC, 116, 116, 32)
  {
    assert b[52..116] == PHDRS;
    assert forall k :: 0 <= k < 64 ==> b[52 + k] == PHDRS[k];
  }

  lemma {:induction false} LibraryEntries(b: seq<byte>, v: byte, t: Table)
    requires b == Library(v) && t == Table(116, 4)
    ensures EntryAt(b, t, 0) == Dyn(DT_NEEDED, 128) && EntryAt(b, t, 1) == Dyn(DT_NEEDED, v)
    ensures EntryAt(b, t, 2) == Dyn(DT_STRTAB, 0) && EntryAt(b, t, 3) == Dyn(DT_NULL, 0)
    ensures b[128] == v && b[129] == 0 && b[46] == 0x2F && b[47] == 0x78 && b[48] == 0
  {
    assert b[116..] == Dynamic(v);
    assert forall k :: 0 <= k < 32 ==> b[116 + k] == Dynamic(v)[k];
    assert forall k :: 0 <= k < 52 ==> b[k] == EHDR[k];
  }

  const NAMES := Plan(Table(116, 4), 3, Area(0, 148))

  lemma {:induction false} LibraryScan(b: seq<byte>, v: byte)
    requires b == Library(v)
    ensures Scan(b, 52, 2) == Some(Layout([Phdr(PT_LOAD, 0, 0, 148)], Some(Phdr(PT_DYNAMIC, 116, 116, 32))))
  {
    LibraryPhdrs(b, v);
    assert Scan(b, 52, 0) == Some(Layout([], None));
    assert Scan(b, 52, 1) == Some(Layout([Phdr(PT_LOAD, 0, 0, 148)], None)) by {
      assert [] + [Phdr(PT_LOAD, 0, 0, 148)] == [Phdr(PT_LOAD, 0, 0, 148)];
    }
  }

  lemma {:induction false} LibraryInfo(b: seq<byte>, v: byte, t: Table)
    requires b == Library(v) && t == Table(116, 4)
    ensures Terminator(b, t, 0) == Some(3) && InfoOf(b, t, 3) == Info(true, Some(0), None)
  {
    LibraryEntries(b, v, t);
    assert Terminator(b, t, 3) == Some(3);
    assert Terminator(b, t, 2) == Some(3);
    assert Terminator(b, t, 1) == Some(3);
    assert InfoOf(b, t, 0) == Info(false, None, None);
    assert InfoOf(b, t, 1) == Info(true, None, None);
    assert InfoOf(b, t, 2) == Info(true, None, None);
  }

  lemma {:induction false} LibraryPlan(b: seq<byte>, v: byte)
    requires b == Library(v)
    ensures Prepare(b) == Go(NAMES)
  {
    LibraryHeader(b, v);
    LibraryScan(b, v);
    LibraryInfo(b, v, NAMES.table);
    var l := Layout([Phdr(PT_LOAD, 0, 0, 148)], Some(Phdr(PT_DYNAMIC, 116, 116, 32)));
    assert ReadHeaders(b) == Read(l);
    assert Locate(l.loads, 0, 148) == Some(Area(0, 148));
  }

  lemma NameThere(st: seq<byte>, i: nat, rest: seq<byte>)
    requires i < |st| && st[i] != 0 && StringAt(st, i + 1) == Some(rest)
    ensures StringAt(st, i) == Some([st[i]] + rest)
  {
  }

  lemma {:induction false} LibraryNames(b: seq<byte>, v: byte)
    requires b == Library(v) && v != 0
    ensures StringAt(b, 128) == Some([v]) && StringAt(b, 46) == Some([0x2F, 0x78]) && Bytes(b, NAMES.strings) == b
  {
    LibraryEntries(b, v, NAMES.table);
    assert StringAt(b, 129) == Some([]) && StringAt(b, 48) == Some([]);
    NameThere(b, 128, []);
    assert [v] + [] == [v];
    NameThere(b, 47, []);
    assert [b[47]] + [] == [0x78];
    NameThere(b, 46, [0x78]);
    assert [b[46]] + [0x78] == [0x2F, 0x78];
  }

  lemma {:induction false} Cuts()
    ensures Cut([46]) == 0 && Cut([0x2F]) == 1 && Cut([0x2F, 0x78]) == 1
  {
    assert [46][..0] == [] && [0x2F, 0x78][..1] == [0x2F];
  }

  /** How the names at 128 and at v are fixed. */
  lemma {:induction false} NamesFixed(b: seq<byte>, v: byte)
    requires b == Library(v) && (v == 46 || v == 47)
    ensures FixEntry(Dyn(DT_NEEDED, 128), b) == if v == 46 then Some(Dyn(DT_NEEDED, 128)) else None
    ensures v == 46 ==> FixEntry(Dyn(DT_NEEDED, v), b) == Some(Dyn(DT_NEEDED, 47))
  {
    LibraryNames(b, v);
    Cuts();
    assert [0x2F, 0x78][1..] == [0x78];
  }

  /** A run over two names and another entry, of which the second name changes. */
  lemma {:induction false} ThreeSteps(b: seq<byte>, c: seq<byte>, p: Plan, e: Dyn, f: Dyn, f': Dyn, g: Dyn)
    requires p.Fits(b) && p.last == 3 && e.tag == f.tag == f'.tag == DT_NEEDED && g.tag == DT_STRTAB && f != f'
    requires EntryAt(b, p.table, 0) == e && EntryAt(b, p.table, 1) == f && FixEntry(e, Bytes(b, p.strings)) == Some(e)
    requires FixEntry(f, Bytes(b, p.strings)) == Some(f') && PutEntry(b, p.table, 1, f') == c && EntryAt(c, p.table, 2) == g
    ensures FixUpTo(b, p, 3) == Some(Progress(c, false, false, true))
  {
    assert FixUpTo(b, p, 0) == Some(Progress(b, false, false, false));
    assert FixUpTo(b, p, 1) == Some(Progress(b, false, false, false));
    assert FixUpTo(b, p, 2) == Some(Progress(c, false, false, true));
  }

  lemma {:induction false} LibraryChanges(b: seq<byte>, c: seq<byte>)
    requires b == Library(46) && c == Library(47)
    ensures PutEntry(b, NAMES.table, 1, Dyn(DT_NEEDED, 47)) == c
  {
    var d := Encoded(Dyn(DT_NEEDED, 47));
    assert d == [1, 0, 0, 0, 47, 0, 0, 0];
    assert b[..124] == c[..124] && b[132..] == c[132..] && c[124..132] == d;
    assert c == c[..124] + c[124..132] + c[132..];
  }

  /** The first run advances the second name past its slash: 46 becomes 47, which is a slash. */
  lemma {:induction false} FirstRun(b: seq<byte>, c: seq<byte>)
    requires b == Library(46) && c == Library(47)
    ensures Fix(b) == (Changed, c)
  {
    LibraryPlan(b, 46);
    LibraryEntries(b, 46, NAMES.table);
    LibraryEntries(c, 47, NAMES.table);
    LibraryNames(b, 46);
    NamesFixed(b, 46);
    LibraryChanges(b, c);
    ThreeSteps(b, c, NAMES, Dyn(DT_NEEDED, 128), Dyn(DT_NEEDED, 46), Dyn(DT_NEEDED, 47), Dyn(DT_STRTAB, 0));
  }

  lemma {:induction false} FirstFails(c: seq<byte>, p: Plan)
    requires p.Fits(c) && p.last > 0 && FixEntry(EntryAt(c, p.table, 0), Bytes(c, p.strings)).None?
    ensures FixUpTo(c, p, p.last).None?
  {
    assert FixUpTo(c, p, 0) == Some(Progress(c, false, false, false));
    assert FixUpTo(c, p, 1).None?;
    FixStaysNone(c, p, 1, p.last);
  }

  lemma {:induction false} SecondRun(c: seq<byte>)
    requires c == Library(47)
    ensures Fix(c) == (Error, c)
  {
    LibraryPlan(c, 47);
    LibraryEntries(c, 47, NAMES.table);
    LibraryNames(c, 47);
    NamesFixed(c, 47);
    FirstFails(c, NAMES);
  }

  /** A library that the first run changes and the second run refuses. */
  lemma {:induction false} SecondRunFails() returns (b: seq<byte>)
    ensures Fix(b).0 == Changed && Fix(Fix(b).1).0 == Error && !SeparatePlan(b)
  {
    b := Library(46);
    if SeparatePlan(b) && Accepts(b) { FixIsIdempotent(b); }
    FirstRun(b, Library(47));
    SecondRun(Library(47));
  }

  // ---- Agreement with the detector ----

  lemma {:induction false} ScanFindsDynamic(b: seq<byte>, phoff: nat, n: nat)
    requires phoff + n * PHDR_SIZE <= |b| && Scan(b, phoff, n).Some?
    ensures forall i :: 0 <= i < n && PhdrAt(b, phoff + i * PHDR_SIZE).kind == PT_DYNAMIC ==>
              Scan(b, phoff, n).value.dynamic == Some(PhdrAt(b, phoff + i * PHDR_SIZE))
    ensures Scan(b, phoff, n).value.dynamic.Some? ==>
              exists i :: 0 <= i < n && Scan(b, phoff, n).value.dynamic.value == PhdrAt(b, phoff + i * PHDR_SIZE) &&
                          PhdrAt(b, phoff + i * PHDR_SIZE).kind == PT_DYNAMIC
  {
    if n > 0 { ScanFindsDynamic(b, phoff, n - 1); }
  }

  lemma MarkerBeforeEnd(b: seq<byte>, p: Plan)
    requires p.Fits(b) && Terminated(b, p)
    ensures TableHasMarker(b, p.table) <==>
            exists i :: 0 <= i < p.last && EntryAt(b, p.table, i) == Dyn(DT_ZB_TEXTREL, 1)
  {
  }

  /** Among the headers the scan accepts, the detector searches exactly the one dynamic table. */
  lemma DetectorFindsTable(b: seq<byte>, l: Layout)
    requires |b| >= EHDR_SIZE && ReadHeaders(b) == Read(l) && Phnum(b) <= 64
    ensures TableOf(l).Fits(b) && (HasMarker(b) <==> TableHasMarker(b, TableOf(l)))
  {
    ScanFindsDynamic(b, Phoff(b), Phnum(b));
    var d := l.dynamic.value;
    var i :| 0 <= i < Phnum(b) && d == PhdrAt(b, Phoff(b) + i * PHDR_SIZE) && d.kind == PT_DYNAMIC;
    assert MarkedHeader(b, i) <==> TableHasMarker(b, TableOf(l));
  }

  lemma DetectorLooksAtTable(b: seq<byte>)
    requires Prepare(b).Go? && Phnum(b) <= 64
    ensures HasMarker(b) <==> exists i :: 0 <= i < Prepare(b).plan.last &&
                                          EntryAt(b, Prepare(b).plan.table, i) == Dyn(DT_ZB_TEXTREL, 1)
  {
    DetectorFindsTable(b, ReadHeaders(b).layout);
    MarkerBeforeEnd(b, Prepare(b).plan);
  }

  /** An entry before the terminator had DT_TEXTREL, or already was the marker the detector wants. */
  ghost predicate KeepsMarker(b: seq<byte>, p: Plan)
    requires p.Fits(b)
  {
    exists i :: 0 <= i < p.last && BecomesMarker(EntryAt(b, p.table, i))
  }

  ghost predicate BecomesMarker(e: Dyn) { e.tag == DT_TEXTREL || e == Dyn(DT_ZB_TEXTREL, 1) }

  lemma FixMakesMarker(e: Dyn, st: seq<byte>)
    requires FixEntry(e, st).Some?
    ensures FixEntry(e, st).value == Dyn(DT_ZB_TEXTREL, 1) <==> BecomesMarker(e)
  {
  }

  lemma MarkersAfter(b: seq<byte>, c: seq<byte>, p: Plan)
    requires p.Fits(b) && |b| == |c| && IsFixed(b, c, p)
    ensures (exists i :: 0 <= i < NewLast(b, p) && EntryAt(c, p.table, i) == Dyn(DT_ZB_TEXTREL, 1)) <==>
            KeepsMarker(b, p) || NeedsMarker(b, p)
  {
    forall i | 0 <= i < p.last
      ensures EntryAt(c, p.table, i) == Dyn(DT_ZB_TEXTREL, 1) <==> BecomesMarker(EntryAt(b, p.table, i))
    {
      FixMakesMarker(EntryAt(b, p.table, i), Bytes(b, p.strings));
    }
  }

  /**
    After the fixup the marker is detected exactly if the library had DT_TEXTREL, or a marker with
    value 1, or DF_TEXTREL and no marker entry at all, and has at most 64 program headers: with more,
    up to 1024, it is fixed but the detector does not look.
  */
  lemma MarkerMeansTextrel(b: seq<byte>)
    requires SeparatePlan(b) && Accepts(b)
    ensures HasMarker(Fix(b).1) <==> Phnum(b) <= 64 && (KeepsMarker(b, Prepare(b).plan) || NeedsMarker(b, Prepare(b).plan))
  {
    var p := Prepare(b).plan;
    var c := Fix(b).1;
    FixResult(b);
    PrepareAgain(b, c, p);
    UntouchedSame(b, c, p.table, Written(b, p), 0, EHDR_SIZE);
    SameHeader(b, c);
    if Phnum(b) <= 64 {
      DetectorLooksAtTable(c);
      MarkersAfter(b, c, p);
    }
  }

  /** Without a marker entry to begin with, that is: exactly if DT_TEXTREL or DF_TEXTREL was present. */
  lemma DetectedIffTextrel(b: seq<byte>)
    requires SeparatePlan(b) && Accepts(b)
    requires var p := Prepare(b).plan; forall i :: 0 <= i < p.last ==> EntryAt(b, p.table, i).tag != DT_ZB_TEXTREL
    ensures HasMarker(Fix(b).1) <==>
            Phnum(b) <= 64 && exists i :: 0 <= i < Prepare(b).plan.last && IsTextrel(EntryAt(b, Prepare(b).plan.table, i))
  {
    MarkerMeansTextrel(b);
    MarkerWithoutPrior(b, Prepare(b).plan);
  }

  lemma MarkerWithoutPrior(b: seq<byte>, p: Plan)
    requires p.Fits(b) && forall i :: 0 <= i < p.last ==> EntryAt(b, p.table, i).tag != DT_ZB_TEXTREL
    ensures KeepsMarker(b, p) || NeedsMarker(b, p) <==> exists i :: 0 <= i < p.last && IsTextrel(EntryAt(b, p.table, i))
  {
    if KeepsMarker(b, p) {
      var i :| 0 <= i < p.last && BecomesMarker(EntryAt(b, p.table, i));
      assert IsTextrel(EntryAt(b, p.table, i));
    }
    if exists i :: 0 <= i < p.last && LeavesMarker(EntryAt(b, p.table, i)) {
      var i :| 0 <= i < p.last && LeavesMarker(EntryAt(b, p.table, i));
      assert BecomesMarker(EntryAt(b, p.table, i));
    }
  }
}
