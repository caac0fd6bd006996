/** Symbol counts from ELF hash tables (core/src/elf_symbols.cpp). */
module GnuHash {
  import opened Wrappers
  import opened Words

  const MAX_SYMBOLS := 0x10_0000

  /** A part of the file, as map_address returns it: it lies inside the bytes. */
  datatype FileRange = FileRange(offset: nat, size: nat)

  datatype Phdr = Phdr(vaddr: u32, offset: u32, filesz: u32)

  /** map_address: the rest of the first PT_LOAD that holds the address, if it lies inside the file. */
  function MapAddress(loads: seq<Phdr>, address: u32, fileSize: nat): (r: Option<FileRange>)
    ensures r.Some? ==> r.value.offset + r.value.size <= fileSize && r.value.size > 0
  {
    if loads == [] then None
    else if loads[0].vaddr <= address < loads[0].vaddr + loads[0].filesz then
      var offset, available := loads[0].offset + (address - loads[0].vaddr), loads[0].vaddr + loads[0].filesz - address;
      if offset + available <= fileSize then Some(FileRange(offset, available)) else None
    else MapAddress(loads[1..], address, fileSize)
  }

  function WordAt(bytes: seq<byte>, r: FileRange, word: nat): Option<u32>
    requires r.offset + r.size <= |bytes|
  {
    if 4 * word + 4 <= r.size then Some(At32(bytes, r.offset + 4 * word)) else None
  }

  /** A hash section whose header is readable and within the limits. */
  datatype Table = Table(bytes: seq<byte>, range: FileRange, buckets: nat, symbolOffset: nat, bloom: nat)
  {
    predicate Valid() {
      range.offset + range.size <= |bytes| && symbolOffset <= MAX_SYMBOLS && 4 * (4 + bloom + buckets) <= range.size
    }

    function Bucket(i: nat): u32
      requires Valid() && i < buckets
    {
      WordAt(bytes, range, 4 + bloom + i).value
    }

    /** The chain word of a symbol, if the section is long enough. */
    function ChainWord(symbol: nat): Option<u32>
      requires Valid() && symbolOffset <= symbol
    {
      WordAt(bytes, range, 4 + bloom + buckets + (symbol - symbolOffset))
    }
  }

  /** The checks both versions share: sizes within the limits and the buckets inside the section. */
  function Header(bytes: seq<byte>, r: FileRange): (t: Option<Table>)
    requires r.offset + r.size <= |bytes|
    ensures t.Some? ==> t.value.Valid() && t.value.bytes == bytes && t.value.range == r
  {
    if WordAt(bytes, r, 0).None? || WordAt(bytes, r, 1).None? || WordAt(bytes, r, 2).None? || WordAt(bytes, r, 3).None?
    then None
    else
      var buckets, symbols, bloom := WordAt(bytes, r, 0).value, WordAt(bytes, r, 1).value, WordAt(bytes, r, 2).value;
      if buckets > MAX_SYMBOLS || symbols > MAX_SYMBOLS || bloom == 0 || bloom > MAX_SYMBOLS then None
      else if 4 + bloom + buckets > r.size / 4 then None
      else Some(Table(bytes, r, buckets, symbols, bloom))
  }

  // ---- The simple version: walk every bucket's chain ----

  /** One past the last symbol of the chain that starts at a symbol; None if it does not end properly. */
  function Chain(t: Table, symbol: nat): Option<nat>
    requires t.Valid() && t.symbolOffset <= symbol < MAX_SYMBOLS
    decreases MAX_SYMBOLS - symbol
  {
    var w := t.ChainWord(symbol);
    if w.None? then None
    else if w.value % 2 == 1 then Some(symbol + 1)
    else if symbol + 1 >= MAX_SYMBOLS then None
    else Chain(t, symbol + 1)
  }

  /** How many chain words a walk from a symbol reads. */
  function Length(t: Table, symbol: nat): nat
    requires t.Valid() && t.symbolOffset <= symbol < MAX_SYMBOLS
    decreases MAX_SYMBOLS - symbol
  {
    var w := t.ChainWord(symbol);
    if w.None? || w.value % 2 == 1 || symbol + 1 >= MAX_SYMBOLS then 1 else 1 + Length(t, symbol + 1)
  }

  predicate BucketOk(t: Table, symbol: nat) { symbol == 0 || t.symbolOffset <= symbol < MAX_SYMBOLS }

  function Larger(a: Option<nat>, b: Option<nat>): Option<nat> {
    if a.None? || b.None? then None else if a.value < b.value then b else a
  }

  /** The count over the first n buckets: the largest chain end, and no less than symbolOffset. */
  function Naive(t: Table, n: nat): Option<nat>
    requires t.Valid() && n <= t.buckets
  {
    if n == 0 then Some(t.symbolOffset)
    else
      var symbol := t.Bucket(n - 1);
      if !BucketOk(t, symbol) then None
      else if symbol == 0 then Naive(t, n - 1)
      else Larger(Naive(t, n - 1), Chain(t, symbol))
  }

  // ---- Chains are consecutive runs ----

  lemma ChainEndsLater(t: Table, s: nat)
    requires t.Valid() && t.symbolOffset <= s < MAX_SYMBOLS
    ensures Chain(t, s).Some? ==> Chain(t, s).value > s
    decreases MAX_SYMBOLS - s
  {
  }

  /** A chain that starts lower ends before the higher one starts, or it is the same from there on. */
  lemma {:induction false} ChainsMerge(t: Table, s: nat, u: nat)
    requires t.Valid() && t.symbolOffset <= s <= u < MAX_SYMBOLS
    ensures Chain(t, s) == Chain(t, u) || (Chain(t, s).Some? && Chain(t, s).value <= u)
    decreases u - s
  {
    if s < u && t.ChainWord(s).Some? && t.ChainWord(s).value % 2 == 0 {
      ChainsMerge(t, s + 1, u);
    }
  }

  /** What the fast version knows after n valid buckets with highest start. */
  ghost predicate Agrees(t: Table, n: nat, start: nat)
    requires t.Valid() && n <= t.buckets && (start != 0 ==> t.symbolOffset <= start < MAX_SYMBOLS)
  {
    Naive(t, n) == if start == 0 then Some(t.symbolOffset) else Chain(t, start)
  }

  lemma AddBucket(t: Table, n: nat, start: nat)
    requires t.Valid() && n < t.buckets && (start != 0 ==> t.symbolOffset <= start < MAX_SYMBOLS)
    requires Agrees(t, n, start) && BucketOk(t, t.Bucket(n))
    ensures Agrees(t, n + 1, if t.Bucket(n) > start then t.Bucket(n) else start)
  {
    var symbol := t.Bucket(n);
    if symbol != 0 {
      ChainEndsLater(t, symbol);
      if start != 0 {
        ChainEndsLater(t, start);
        if symbol > start { ChainsMerge(t, start, symbol); } else { ChainsMerge(t, symbol, start); }
      }
    }
  }

  lemma {:induction false} InvalidBucketFails(t: Table, i: nat, n: nat)
    requires t.Valid() && i < n <= t.buckets && !BucketOk(t, t.Bucket(i))
    ensures Naive(t, n).None?
    decreases n
  {
    if i + 1 < n { InvalidBucketFails(t, i, n - 1); }
  }

  /**
    gnu_symbol_count: validates every bucket, walks only the chain with the highest start, and agrees
    with the simple version in result and in failure. It reads each bucket once and one chain.
  */
  method GnuSymbolCount(bytes: seq<byte>, r: FileRange) returns (count: Option<nat>, steps: nat, start: nat)
    requires r.offset + r.size <= |bytes|
    ensures var t := Header(bytes, r); count == if t.None? then None else Naive(t.value, t.value.buckets)
    ensures Header(bytes, r).None? ==> steps == 0
    ensures Header(bytes, r).Some? && start == 0 ==> steps <= Header(bytes, r).value.buckets
    ensures Header(bytes, r).Some? && start != 0 ==>
              Header(bytes, r).value.symbolOffset <= start < MAX_SYMBOLS &&
              steps <= Header(bytes, r).value.buckets + Length(Header(bytes, r).value, start)
  {
    steps, start := 0, 0;
    var header := Header(bytes, r);
    if header.None? { return None, 0, 0; }
    var t := header.value;
    for i := 0 to t.buckets
      invariant steps == i && (start != 0 ==> t.symbolOffset <= start < MAX_SYMBOLS)
      invariant Agrees(t, i, start)
    {
      var symbol := t.Bucket(i);
      steps := steps + 1;
      if !BucketOk(t, symbol) {
        InvalidBucketFails(t, i, t.buckets);
        return None, steps, 0;
      }
      AddBucket(t, i, start);
      if symbol > start { start := symbol; }
    }
    if start == 0 { return Some(t.symbolOffset), steps, start; }
    var symbol := start;
    while true
      invariant t.symbolOffset <= start <= symbol < MAX_SYMBOLS
      invariant Chain(t, symbol) == Chain(t, start)
      invariant steps + Length(t, symbol) == t.buckets + Length(t, start)
      decreases MAX_SYMBOLS - symbol
    {
      var w := t.ChainWord(symbol);
      steps := steps + 1;
      if w.None? { return None, steps, start; }
      if w.value % 2 == 1 { return Some(symbol + 1), steps, start; }
      if symbol + 1 >= MAX_SYMBOLS { return None, steps, start; }
      symbol := symbol + 1;
    }
  }
}
