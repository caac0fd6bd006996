/**
  The initial process stack (core/src/initial_stack.cpp): strings pushed downwards from the stack top,
  then the table of argc, argv, envp and auxv, and a reader that decodes them again.

  The sixteen random bytes are an argument. A host string is any sequence of bytes, NUL included.
*/
module InitialStack {
  import opened Wrappers
  import opened Words
  import opened GuestMemory

  const MAX_STACK_DATA := 0x4_0000
  const AT_NULL := 0
  const AT_PLATFORM := 15
  const AT_RANDOM := 25
  const AT_EXECFN := 31
  /** "v8l" */
  const PLATFORM: seq<byte> := [0x76, 0x38, 0x6C]

  datatype Aux = Aux(kind: u32, value: u32)

  // ---- The reader ----

  function CStringAt(m: seq<byte>, at: nat): seq<byte>
    decreases |m| - at
  {
    if at >= |m| || m[at] == 0 then [] else [m[at]] + CStringAt(m, at + 1)
  }

  /** The nonzero words from `at` up to a zero. */
  function PointersAt(m: seq<byte>, at: nat): seq<u32>
    decreases |m| - at
  {
    if at + 4 > |m| || At32(m, at) == 0 then [] else [At32(m, at)] + PointersAt(m, at + 4)
  }

  /** The entries from `at` up to AT_NULL. */
  function AuxvAt(m: seq<byte>, at: nat): seq<Aux>
    decreases |m| - at
  {
    if at + 8 > |m| || At32(m, at) == AT_NULL then []
    else [Aux(At32(m, at), At32(m, at + 4))] + AuxvAt(m, at + 8)
  }

  // ---- What can be read back ----

  function UpToNul(s: seq<byte>): seq<byte> { if s == [] || s[0] == 0 then [] else [s[0]] + UpToNul(s[1..]) }

  function UpToNull(a: seq<Aux>): seq<Aux> { if a == [] || a[0].kind == AT_NULL then [] else [a[0]] + UpToNull(a[1..]) }

  /** A string is read back whole exactly if it has no NUL in it. */
  lemma {:induction false} WholeStringIff(s: seq<byte>)
    ensures UpToNul(s) == s <==> 0 !in s
  {
    if s != [] && s[0] != 0 {
      WholeStringIff(s[1..]);
      assert s == [s[0]] + s[1..];
    }
  }

  /** The auxiliary vector is read back whole exactly if no given entry is AT_NULL. */
  lemma {:induction false} WholeAuxvIff(a: seq<Aux>)
    ensures UpToNull(a) == a <==> forall i :: 0 <= i < |a| ==> a[i].kind != AT_NULL
  {
    if a != [] && a[0].kind != AT_NULL {
      WholeAuxvIff(a[1..]);
      assert a == [a[0]] + a[1..];
    }
  }

  lemma {:induction false} StringReads(m: seq<byte>, at: nat, s: seq<byte>)
    requires at + |s| < |m| && m[at..at + |s| + 1] == s + [0]
    ensures CStringAt(m, at) == UpToNul(s)
    decreases |s|
  {
    var x := m[at..at + |s| + 1];
    assert m[at] == x[0];
    if s != [] && s[0] != 0 {
      assert m[at + 1..at + 1 + |s[1..]| + 1] == x[1..] == s[1..] + [0];
      StringReads(m, at + 1, s[1..]);
    }
  }

  ghost predicate WordsAt(m: seq<byte>, at: nat, ws: seq<u32>) {
    at + 4 * |ws| <= |m| && forall k :: 0 <= k < |ws| ==> At32(m, at + 4 * k) == ws[k]
  }

  lemma WordsAtPart(m: seq<byte>, at: nat, a: seq<u32>, b: seq<u32>)
    requires WordsAt(m, at, a + b)
    ensures WordsAt(m, at, a) && WordsAt(m, at + 4 * |a|, b)
  {
    forall k | 0 <= k < |a| ensures At32(m, at + 4 * k) == a[k] { assert (a + b)[k] == a[k]; }
    forall k | 0 <= k < |b| ensures At32(m, at + 4 * |a| + 4 * k) == b[k] { assert (a + b)[|a| + k] == b[k]; }
  }

  lemma {:induction false} PointersRead(m: seq<byte>, at: nat, ps: seq<u32>)
    requires WordsAt(m, at, ps + [0]) && 0 !in ps
    ensures PointersAt(m, at) == ps
    decreases |ps|
  {
    assert At32(m, at + 4 * 0) == (ps + [0])[0];
    if ps != [] {
      WordsAtPart(m, at, [ps[0]], ps[1..] + [0]) by { assert [ps[0]] + (ps[1..] + [0]) == ps + [0]; }
      PointersRead(m, at + 4, ps[1..]);
    }
  }

  function AuxWords(a: seq<Aux>): (ws: seq<u32>)
    ensures |ws| == 2 * |a|
  {
    if a == [] then [] else [a[0].kind, a[0].value] + AuxWords(a[1..])
  }

  lemma {:induction false} AuxvReads(m: seq<byte>, at: nat, a: seq<Aux>)
    requires WordsAt(m, at, AuxWords(a + [Aux(AT_NULL, 0)]))
    ensures AuxvAt(m, at) == UpToNull(a)
    decreases |a|
  {
    var all := a + [Aux(AT_NULL, 0)];
    var first := [all[0].kind, all[0].value];
    WordsAtPart(m, at, first, AuxWords(all[1..]));
    assert At32(m, at + 4 * 0) == first[0] && At32(m, at + 4 * 1) == first[1];
    if a != [] {
      assert all[1..] == a[1..] + [Aux(AT_NULL, 0)];
      if a[0].kind != AT_NULL { AuxvReads(m, at + 8, a[1..]); }
    }
  }

  // ---- Room ----

  /** A stack top near address 0 is all right if page 0 cannot be written. A top of 2^32 is the source's 0. */
  ghost predicate TopOk(t: Table, top: nat)
    requires |t| == PAGES
  {
    0 < top <= SPACE && (MAX_STACK_DATA < top || !Has(t[0], WRITE))
  }

  /** That many bytes can be pushed below the top. */
  ghost predicate Room(t: Table, top: nat, want: nat)
    requires |t| == PAGES
  {
    want <= MAX_STACK_DATA && want <= top && Accessible(t, top - want, want, WRITE)
  }

  lemma RoomGrows(t: Table, top: nat, want: nat, n: nat)
    requires |t| == PAGES && TopOk(t, top) && n > 0
    ensures Room(t, top, want + n) <==>
            Room(t, top, want) && want + n <= MAX_STACK_DATA && want + n <= top && Accessible(t, top - want - n, n, WRITE)
  {
    if want + n <= MAX_STACK_DATA && want > 0 && want + n <= top {
      PagesJoin(t, top - want - n, top - want, top);
    }
  }

  /** A wrapped address is not accessible, and neither is one in page 0 where that matters. */
  lemma {:induction false} PushedInside(t: Table, top: nat, cursor: nat, n: nat)
    requires |t| == PAGES && TopOk(t, top) && 0 < cursor <= top && 0 < n && top - cursor + n <= MAX_STACK_DATA
    ensures Accessible(t, Wrap(cursor - n), n, WRITE) <==> n <= cursor && Accessible(t, cursor - n, n, WRITE)
    ensures n <= cursor ==> Wrap(cursor - n) == cursor - n
    ensures n <= cursor && Accessible(t, cursor - n, n, WRITE) ==> n < cursor && (MAX_STACK_DATA < top || PAGE <= cursor - n)
  {
  }

  /** The tests of a push decide whether there is still room for everything. */
  lemma {:induction false} PushDecides(t: Table, top: nat, cursor: nat, want: nat, overflow: bool, n: nat)
    requires |t| == PAGES && TopOk(t, top) && 0 < cursor <= top && 0 < n
    requires (overflow <==> !Room(t, top, want)) && (!overflow ==> cursor == top - want)
    ensures Room(t, top, want + n) <==> !overflow && top - cursor + n <= MAX_STACK_DATA && Accessible(t, Wrap(cursor - n), n, WRITE)
  {
    RoomGrows(t, top, want, n);
    if top - cursor + n <= MAX_STACK_DATA { PushedInside(t, top, cursor, n); }
  }

  lemma PagesJoin(t: Table, a: nat, b: nat, c: nat)
    requires |t| == PAGES && a < b < c <= SPACE
    ensures Accessible(t, a, c - a, WRITE) <==> Accessible(t, a, b - a, WRITE) && Accessible(t, b, c - b, WRITE)
  {
    assert (b - 1) / PAGE <= b / PAGE <= (b - 1) / PAGE + 1;
    assert a / PAGE <= (b - 1) / PAGE && b / PAGE <= (c - 1) / PAGE;
  }

  // ---- Pushing ----

  /** The data is at this address, inside [cursor, top). */
  ghost predicate Placed(m: seq<byte>, cursor: nat, top: nat, at: nat, data: seq<byte>) {
    cursor <= at && at + |data| <= top <= |m| && m[at..at + |data|] == data
  }

  ghost predicate SameAbove(m: seq<byte>, n: seq<byte>, cursor: nat) {
    |m| == |n| && forall k :: cursor <= k < |m| ==> n[k] == m[k]
  }

  lemma StaysPlaced(m: seq<byte>, n: seq<byte>, cursor: nat, lower: nat, top: nat, at: nat, data: seq<byte>)
    requires Placed(m, cursor, top, at, data) && lower <= cursor && SameAbove(m, n, cursor)
    ensures Placed(n, lower, top, at, data)
  {
  }

  method PutBytes(bytes: array<byte>, at: nat, data: seq<byte>)
    requires at + |data| <= bytes.Length
    modifies bytes
    ensures bytes[..][at..at + |data|] == data && SameOutside(old(bytes[..]), bytes[..], at, at + |data|)
  {
    CopyIn(bytes, at, data);
    OverwriteReads(old(bytes[..]), at, data);
  }

  class StackBuilder {
    const memory: Memory
    const bytes: array<byte>
    const top: nat
    var cursor: nat
    var overflow: bool
    /** The length of everything handed to PushBytes. */
    ghost var want: nat

    ghost predicate Valid()
      reads this, memory, memory.pages, bytes
    {
      && memory.Valid() && bytes.Length == SPACE && TopOk(memory.pages[..], top)
      && 0 < cursor <= top <= cursor + MAX_STACK_DATA && (cursor < top ==> MAX_STACK_DATA < top || PAGE <= cursor)
      && (overflow <==> !Room(memory.pages[..], top, want)) && (!overflow ==> cursor == top - want)
    }

    constructor (memory: Memory, bytes: array<byte>, top: nat)
      requires memory.Valid() && bytes.Length == SPACE && TopOk(memory.pages[..], top)
      ensures Valid() && this.memory == memory && this.bytes == bytes && this.top == top
      ensures cursor == top && !overflow && want == 0
    {
      this.memory, this.bytes, this.top := memory, bytes, top;
      cursor, overflow, want := top, false, 0;
    }

    /** Pushes the data; a push that does not fit makes overflow stick. */
    method PushBytes(data: seq<byte>) returns (at: nat)
      requires Valid() && data != []
      modifies this, bytes
      ensures Valid() && want == old(want) + |data| && cursor <= old(cursor) && (old(overflow) ==> overflow)
      ensures SameOutside(old(bytes[..]), bytes[..], cursor, old(cursor))
      ensures !overflow ==> at == cursor == old(cursor) - |data| && Placed(bytes[..], cursor, top, at, data)
    {
      ghost var t := memory.pages[..];
      PushDecides(t, top, cursor, want, overflow, |data|);
      want := want + |data|;
      if |data| > MAX_STACK_DATA || top - cursor + |data| > MAX_STACK_DATA {
        overflow := true;
        return 0;
      }
      PushedInside(t, top, cursor, |data|);
      at := Wrap(cursor - |data|);
      var fits := memory.IsAccessible(at, |data|, WRITE);
      if !fits {
        overflow := true;
        return 0;
      }
      cursor := at;
      PutBytes(bytes, at, data);
      assert memory.pages[..] == t;
    }

    /** Pushes each string with its NUL. */
    method PushStrings(ss: seq<seq<byte>>) returns (addresses: seq<nat>)
      requires Valid()
      modifies this, bytes
      ensures Valid() && want == old(want) + Total(ss) && cursor <= old(cursor) && (old(overflow) ==> overflow)
      ensures SameOutside(old(bytes[..]), bytes[..], cursor, old(cursor))
      ensures !overflow ==> AllPlaced(bytes[..], cursor, top, addresses, ss)
    {
      addresses := [];
      for i := 0 to |ss|
        invariant Valid() && want == old(want) + Total(ss[..i]) && cursor <= old(cursor) && (old(overflow) ==> overflow)
        invariant SameOutside(old(bytes[..]), bytes[..], cursor, old(cursor))
        invariant !overflow ==> AllPlaced(bytes[..], cursor, top, addresses, ss[..i])
      {
        ghost var before, was, cut := bytes[..], overflow, cursor;
        var at := PushBytes(ss[i] + [0]);
        assert ss[..i + 1][..i] == ss[..i];
        if !overflow { PlacedAnother(before, bytes[..], cut, cursor, top, addresses, ss[..i], at, ss[i]); }
        addresses := addresses + [at];
        assert ss[..i] + [ss[i]] == ss[..i + 1];
      }
      assert ss[..|ss|] == ss;
    }

    /** Pushes the two fixed strings, execfn first. */
    method PushNames(execfn: seq<byte>) returns (platformAt: nat, execfnAt: nat)
      requires Valid()
      modifies this, bytes
      ensures Valid() && want == old(want) + |execfn| + 1 + |PLATFORM| + 1 && cursor <= old(cursor) && (old(overflow) ==> overflow)
      ensures SameOutside(old(bytes[..]), bytes[..], cursor, old(cursor))
      ensures !overflow ==> AllPlaced(bytes[..], cursor, top, [platformAt, execfnAt], [PLATFORM, execfn])
    {
      execfnAt := PushBytes(execfn + [0]);
      ghost var before, cut := bytes[..], cursor;
      platformAt := PushBytes(PLATFORM + [0]);
      if !overflow { StaysPlaced(before, bytes[..], cut, cursor, top, execfnAt, execfn + [0]); }
    }

    /** Pushes everything but the table. */
    method PushInput(i: Input) returns (a: Addresses)
      requires Valid() && i.random != []
      modifies this, bytes
      ensures Valid() && want == old(want) + i.Want() && cursor <= old(cursor) && (old(overflow) ==> overflow)
      ensures SameOutside(old(bytes[..]), bytes[..], cursor, old(cursor))
      ensures !overflow ==> InputPlaced(bytes[..], cursor, top, i, a)
    {
      var platform, execfn := PushNames(i.execfn);
      ghost var m1, c1 := bytes[..], cursor;
      var envs := PushStrings(i.envp);
      ghost var m2, c2 := bytes[..], cursor;
      var args := PushStrings(i.argv);
      ghost var m3, c3 := bytes[..], cursor;
      var random := PushBytes(i.random);
      a := Addresses(platform, execfn, envs, args, random);
      if !overflow {
        AllStayPlaced(m1, bytes[..], c1, cursor, top, [platform, execfn], [PLATFORM, i.execfn]);
        AllStayPlaced(m2, bytes[..], c2, cursor, top, envs, i.envp);
        AllStayPlaced(m3, bytes[..], c3, cursor, top, args, i.argv);
      }
    }
  }

  /** Where the strings went. */
  datatype Addresses = Addresses(platform: nat, execfn: nat, envs: seq<nat>, args: seq<nat>, random: nat)

  ghost predicate InputPlaced(m: seq<byte>, cursor: nat, top: nat, i: Input, a: Addresses) {
    && AllPlaced(m, cursor, top, [a.platform, a.execfn], [PLATFORM, i.execfn]) && AllPlaced(m, cursor, top, a.envs, i.envp)
    && AllPlaced(m, cursor, top, a.args, i.argv) && Placed(m, cursor, top, a.random, i.random)
  }

  lemma InputStaysPlaced(m: seq<byte>, n: seq<byte>, cursor: nat, low: nat, top: nat, i: Input, a: Addresses)
    requires InputPlaced(m, cursor, top, i, a) && low <= cursor && SameAbove(m, n, cursor)
    ensures InputPlaced(n, low, top, i, a)
  {
    AllStayPlaced(m, n, cursor, low, top, [a.platform, a.execfn], [PLATFORM, i.execfn]);
    AllStayPlaced(m, n, cursor, low, top, a.envs, i.envp);
    AllStayPlaced(m, n, cursor, low, top, a.args, i.argv);
    StaysPlaced(m, n, cursor, low, top, a.random, i.random);
  }

  /** The addresses are nonzero 32-bit words. */
  lemma InputAddresses(m: seq<byte>, cursor: nat, top: nat, i: Input, a: Addresses)
    requires InputPlaced(m, cursor, top, i, a) && top <= SPACE && i.random != []
    ensures a.platform < SPACE && a.execfn < SPACE && a.random < SPACE
    ensures forall k :: 0 <= k < |a.args| ==> a.args[k] < SPACE
    ensures forall k :: 0 <= k < |a.envs| ==> a.envs[k] < SPACE
  {
    assert Placed(m, cursor, top, [a.platform, a.execfn][0], PLATFORM + [0]);
    assert Placed(m, cursor, top, [a.platform, a.execfn][1], i.execfn + [0]);
    forall k | 0 <= k < |a.args| ensures a.args[k] < SPACE { assert Placed(m, cursor, top, a.args[k], i.argv[k] + [0]); }
    forall k | 0 <= k < |a.envs| ensures a.envs[k] < SPACE { assert Placed(m, cursor, top, a.envs[k], i.envp[k] + [0]); }
  }

  /** The bytes of the strings, each with its NUL. */
  function Total(ss: seq<seq<byte>>): nat { if ss == [] then 0 else Total(ss[..|ss| - 1]) + |ss[|ss| - 1]| + 1 }

  ghost predicate AllPlaced(m: seq<byte>, cursor: nat, top: nat, addresses: seq<nat>, ss: seq<seq<byte>>) {
    |addresses| == |ss| && forall i :: 0 <= i < |ss| ==> Placed(m, cursor, top, addresses[i], ss[i] + [0])
  }

  lemma PlacedAnother(m: seq<byte>, n: seq<byte>, cursor: nat, lower: nat, top: nat, addresses: seq<nat>, ss: seq<seq<byte>>,
                      at: nat, s: seq<byte>)
    requires AllPlaced(m, cursor, top, addresses, ss) && lower <= cursor && SameAbove(m, n, cursor)
    requires Placed(n, lower, top, at, s + [0])
    ensures AllPlaced(n, lower, top, addresses + [at], ss + [s])
  {
    forall i | 0 <= i < |ss| ensures Placed(n, lower, top, addresses[i], ss[i] + [0]) {
      StaysPlaced(m, n, cursor, lower, top, addresses[i], ss[i] + [0]);
    }
  }

  lemma AllStayPlaced(m: seq<byte>, n: seq<byte>, cursor: nat, lower: nat, top: nat, addresses: seq<nat>, ss: seq<seq<byte>>)
    requires AllPlaced(m, cursor, top, addresses, ss) && lower <= cursor && SameAbove(m, n, cursor)
    ensures AllPlaced(n, lower, top, addresses, ss)
  {
    forall i | 0 <= i < |ss| ensures Placed(n, lower, top, addresses[i], ss[i] + [0]) {
      StaysPlaced(m, n, cursor, lower, top, addresses[i], ss[i] + [0]);
    }
  }

  // ---- The whole stack ----

  /** What the caller hands over. */
  datatype Input = Input(argv: seq<seq<byte>>, envp: seq<seq<byte>>, auxv: seq<Aux>, execfn: seq<byte>, random: seq<byte>)
  {
    /** Bytes of all the strings and the random bytes. */
    function Want(): nat { |execfn| + 1 + |PLATFORM| + 1 + Total(envp) + Total(argv) + |random| }
    function TableWords(): nat { 1 + (|argv| + 1) + (|envp| + 1) + 2 * (|auxv| + 4) }
    function EnvAt(sp: nat): nat { sp + 4 * (|argv| + 2) }
    function AuxAt(sp: nat): nat { EnvAt(sp) + 4 * (|envp| + 1) }
  }

  function Down16(n: int): int { n - n % 16 }

  function StackPointer(top: nat, i: Input): int { Down16(top - i.Want() - 4 * i.TableWords()) }

  /** Everything fits below the top. */
  ghost predicate Fits(t: Table, top: nat, i: Input)
    requires |t| == PAGES
  {
    var sp := StackPointer(top, i);
    Room(t, top, i.Want()) && 0 <= sp && top - sp <= MAX_STACK_DATA && Accessible(t, sp, 4 * i.TableWords(), WRITE)
  }

  /** The pointers lead to the strings, all of them in [low, top). */
  ghost predicate LeadTo(m: seq<byte>, ps: seq<u32>, ss: seq<seq<byte>>, low: nat, top: nat) {
    |ps| == |ss| && forall k :: 0 <= k < |ss| ==> low <= ps[k] && ps[k] + |ss[k]| < top && CStringAt(m, ps[k]) == UpToNul(ss[k])
  }

  /** The auxiliary vector is the given one with the addresses of the random bytes, platform and file name. */
  ghost predicate AuxvIs(m: seq<byte>, at: nat, i: Input, low: nat, top: nat, random: u32, platform: u32, execfn: u32) {
    && AuxvAt(m, at) == UpToNull(i.auxv + [Aux(AT_RANDOM, random), Aux(AT_PLATFORM, platform), Aux(AT_EXECFN, execfn)])
    && Placed(m, low, top, random, i.random)
    && LeadTo(m, [platform, execfn], [PLATFORM, i.execfn], low, top)
  }

  /** What a reader that starts at sp finds. */
  ghost predicate Decodes(m: seq<byte>, sp: nat, top: nat, i: Input) {
    var low := sp + 4 * i.TableWords();
    && sp % 16 == 0 && low <= |m| && At32(m, sp) == |i.argv|
    && LeadTo(m, PointersAt(m, sp + 4), i.argv, low, top)
    && LeadTo(m, PointersAt(m, i.EnvAt(sp)), i.envp, low, top)
    && exists r, p, e :: AuxvIs(m, i.AuxAt(sp), i, low, top, r, p, e)
  }

  /**
    Without a NUL in a string or an AT_NULL in the given vector, the reader gets back exactly argv,
    envp, the given vector and the three entries behind it.
  */
  lemma {:induction false} DecodesExactly(m: seq<byte>, sp: nat, top: nat, i: Input)
    requires Decodes(m, sp, top, i)
    requires 0 !in i.execfn && (forall s | s in i.argv + i.envp :: 0 !in s) && (forall a | a in i.auxv :: a.kind != AT_NULL)
    ensures Strings(m, PointersAt(m, sp + 4)) == i.argv && Strings(m, PointersAt(m, i.EnvAt(sp))) == i.envp
    ensures exists r, p, e :: AuxvExactly(m, i.AuxAt(sp), i, r, p, e)
  {
    var low := sp + 4 * i.TableWords();
    WholeStrings(m, PointersAt(m, sp + 4), i.argv, low, top);
    WholeStrings(m, PointersAt(m, i.EnvAt(sp)), i.envp, low, top);
    var r, p, e :| AuxvIs(m, i.AuxAt(sp), i, low, top, r, p, e);
    WholeAuxv(m, i.AuxAt(sp), i, low, top, r, p, e);
  }

  ghost predicate AuxvExactly(m: seq<byte>, at: nat, i: Input, random: u32, platform: u32, execfn: u32) {
    && AuxvAt(m, at) == i.auxv + [Aux(AT_RANDOM, random), Aux(AT_PLATFORM, platform), Aux(AT_EXECFN, execfn)]
    && random + |i.random| <= |m| && m[random..random + |i.random|] == i.random
    && CStringAt(m, platform) == PLATFORM && CStringAt(m, execfn) == i.execfn
  }

  lemma WholeAuxv(m: seq<byte>, at: nat, i: Input, low: nat, top: nat, r: u32, p: u32, e: u32)
    requires AuxvIs(m, at, i, low, top, r, p, e) && 0 !in i.execfn && forall a | a in i.auxv :: a.kind != AT_NULL
    ensures AuxvExactly(m, at, i, r, p, e)
  {
    var all := i.auxv + [Aux(AT_RANDOM, r), Aux(AT_PLATFORM, p), Aux(AT_EXECFN, e)];
    WholeAuxvIff(all);
    WholeStrings(m, [p, e], [PLATFORM, i.execfn], low, top);
    assert Strings(m, [p, e])[0] == CStringAt(m, p) && Strings(m, [p, e])[1] == CStringAt(m, e);
  }

  function Strings(m: seq<byte>, ps: seq<u32>): (r: seq<seq<byte>>)
    ensures |r| == |ps|
  {
    seq(|ps|, k requires 0 <= k < |ps| => CStringAt(m, ps[k]))
  }

  lemma WholeStrings(m: seq<byte>, ps: seq<u32>, ss: seq<seq<byte>>, low: nat, top: nat)
    requires LeadTo(m, ps, ss, low, top) && forall s | s in ss :: 0 !in s
    ensures Strings(m, ps) == ss
  {
    forall k | 0 <= k < |ss| ensures CStringAt(m, ps[k]) == ss[k] { WholeStringIff(ss[k]); }
  }

  lemma PlacedLeads(m: seq<byte>, cursor: nat, top: nat, ps: seq<u32>, ss: seq<seq<byte>>)
    requires AllPlaced(m, cursor, top, ps, ss)
    ensures LeadTo(m, ps, ss, cursor, top)
  {
    forall k | 0 <= k < |ss| ensures CStringAt(m, ps[k]) == UpToNul(ss[k]) {
      assert Placed(m, cursor, top, ps[k], ss[k] + [0]);
      StringReads(m, ps[k], ss[k]);
    }
  }

  function TableOf(i: Input, args: seq<u32>, envs: seq<u32>, r: u32, p: u32, e: u32): seq<u32>
    requires |i.argv| < 0x1_0000_0000
  {
    [|i.argv|] + (args + [0]) + (envs + [0]) +
    AuxWords(i.auxv + [Aux(AT_RANDOM, r), Aux(AT_PLATFORM, p), Aux(AT_EXECFN, e), Aux(AT_NULL, 0)])
  }

  lemma {:induction false} TableLength(i: Input, args: seq<u32>, envs: seq<u32>, r: u32, p: u32, e: u32)
    requires |args| == |i.argv| < 0x1_0000_0000 && |envs| == |i.envp|
    ensures |TableOf(i, args, envs, r, p, e)| == i.TableWords()
  {
  }

  /** The parts of the table, where the reader looks for them. */
  lemma TableParts(m: seq<byte>, sp: nat, i: Input, args: seq<u32>, envs: seq<u32>, r: u32, p: u32, e: u32)
    requires |i.argv| < 0x1_0000_0000 && |args| == |i.argv| && |envs| == |i.envp|
    requires WordsAt(m, sp, TableOf(i, args, envs, r, p, e))
    ensures WordsAt(m, sp, [|i.argv|]) && WordsAt(m, sp + 4, args + [0]) && WordsAt(m, i.EnvAt(sp), envs + [0])
    ensures WordsAt(m, i.AuxAt(sp), AuxWords(i.auxv + [Aux(AT_RANDOM, r), Aux(AT_PLATFORM, p), Aux(AT_EXECFN, e), Aux(AT_NULL, 0)]))
  {
    var aux := AuxWords(i.auxv + [Aux(AT_RANDOM, r), Aux(AT_PLATFORM, p), Aux(AT_EXECFN, e), Aux(AT_NULL, 0)]);
    WordsAtPart(m, sp, [|i.argv|] + (args + [0]) + (envs + [0]), aux);
    WordsAtPart(m, sp, [|i.argv|] + (args + [0]), envs + [0]);
    WordsAtPart(m, sp, [|i.argv|], args + [0]);
  }

  lemma TableDecodes(m: seq<byte>, sp: nat, top: nat, i: Input, args: seq<u32>, envs: seq<u32>, r: u32, p: u32, e: u32)
    requires sp > 0 && sp % 16 == 0 && sp + 4 * i.TableWords() <= |m|
    requires |i.argv| < 0x1_0000_0000 && WordsAt(m, sp, TableOf(i, args, envs, r, p, e))
    requires var low := sp + 4 * i.TableWords();
             && AllPlaced(m, low, top, args, i.argv) && AllPlaced(m, low, top, envs, i.envp)
             && Placed(m, low, top, r, i.random) && AllPlaced(m, low, top, [p, e], [PLATFORM, i.execfn])
    ensures Decodes(m, sp, top, i)
  {
    var low := sp + 4 * i.TableWords();
    TableParts(m, sp, i, args, envs, r, p, e);
    NotNull(m, low, top, args, i.argv);
    NotNull(m, low, top, envs, i.envp);
    PointersRead(m, sp + 4, args);
    PointersRead(m, i.EnvAt(sp), envs);
    PlacedLeads(m, low, top, args, i.argv);
    PlacedLeads(m, low, top, envs, i.envp);
    PlacedLeads(m, low, top, [p, e], [PLATFORM, i.execfn]);
    assert At32(m, sp + 4 * 0) == [|i.argv|][0];
    AuxvDecodes(m, sp, i, r, p, e);
    assert AuxvIs(m, i.AuxAt(sp), i, low, top, r, p, e);
  }

  lemma AllDecodes(m: seq<byte>, n: seq<byte>, cursor: nat, sp: nat, top: nat, i: Input, a: Addresses)
    requires InputPlaced(m, cursor, top, i, a) && top <= SPACE && i.random != [] && SameAbove(m, n, cursor) && |i.argv| < 0x1_0000_0000
    requires sp > 0 && sp % 16 == 0 && sp + 4 * i.TableWords() <= cursor <= |n|
    requires WordsAt(n, sp, InputTable(m, cursor, top, i, a))
    ensures Decodes(n, sp, top, i)
  {
    InputAddresses(m, cursor, top, i, a);
    InputStaysPlaced(m, n, cursor, sp + 4 * i.TableWords(), top, i, a);
    TableDecodes(n, sp, top, i, a.args, a.envs, a.random, a.platform, a.execfn);
  }

  ghost function InputTable(m: seq<byte>, cursor: nat, top: nat, i: Input, a: Addresses): (ws: seq<u32>)
    requires InputPlaced(m, cursor, top, i, a) && top <= SPACE && i.random != [] && |i.argv| < 0x1_0000_0000
    ensures |ws| == i.TableWords()
  {
    InputAddresses(m, cursor, top, i, a);
    TableOf(i, a.args, a.envs, a.random, a.platform, a.execfn)
  }

  lemma NotNull(m: seq<byte>, low: nat, top: nat, ps: seq<u32>, ss: seq<seq<byte>>)
    requires AllPlaced(m, low, top, ps, ss) && low > 0
    ensures 0 !in ps
  {
    forall k | 0 <= k < |ps| ensures ps[k] != 0 { assert Placed(m, low, top, ps[k], ss[k] + [0]); }
  }

  lemma AuxvDecodes(m: seq<byte>, sp: nat, i: Input, r: u32, p: u32, e: u32)
    requires WordsAt(m, i.AuxAt(sp), AuxWords(i.auxv + [Aux(AT_RANDOM, r), Aux(AT_PLATFORM, p), Aux(AT_EXECFN, e), Aux(AT_NULL, 0)]))
    ensures AuxvAt(m, i.AuxAt(sp)) == UpToNull(i.auxv + [Aux(AT_RANDOM, r), Aux(AT_PLATFORM, p), Aux(AT_EXECFN, e)])
  {
    var a := i.auxv + [Aux(AT_RANDOM, r), Aux(AT_PLATFORM, p), Aux(AT_EXECFN, e)];
    assert a + [Aux(AT_NULL, 0)] == i.auxv + [Aux(AT_RANDOM, r), Aux(AT_PLATFORM, p), Aux(AT_EXECFN, e), Aux(AT_NULL, 0)];
    AuxvReads(m, i.AuxAt(sp), a);
  }

  lemma FlatIsWords(m: seq<byte>, at: nat, ws: seq<u32>)
    requires at + 4 * |ws| <= |m| && m[at..at + 4 * |ws|] == Flat(ws)
    ensures WordsAt(m, at, ws)
  {
    forall k | 0 <= k < |ws| ensures At32(m, at + 4 * k) == ws[k] { WordsReadBack(m, at, ws, k); }
  }

  /** How far down the stack can go. */
  function Low(top: nat): nat { if top > MAX_STACK_DATA then top - MAX_STACK_DATA else 0 }

  ghost predicate AboveZero(top: nat, want: nat) { 0 < want < top && (MAX_STACK_DATA < top || 16 <= top - want) }

  /** The 32-bit arithmetic of the stack pointer agrees with the plain one wherever both checks pass. */
  lemma WrappedPointer(top: nat, want: nat, table: nat)
    requires AboveZero(top, want) && top <= SPACE && want <= MAX_STACK_DATA && table < 0xFFC0_0000
    ensures var sp := Wrap(top - want - table) - Wrap(top - want - table) % 16;
            if Down16(top - want - table) < 0 then Wrap(top - sp) > MAX_STACK_DATA || sp + table > SPACE
            else sp == Down16(top - want - table) && Wrap(top - sp) == top - sp
  {
  }

  method WriteTable(bytes: array<byte>, sp: nat, table: seq<u32>)
    requires sp + 4 * |table| <= bytes.Length
    modifies bytes
    ensures WordsAt(bytes[..], sp, table) && SameOutside(old(bytes[..]), bytes[..], sp, sp + 4 * |table|)
  {
    PutBytes(bytes, sp, Flat(table));
    FlatIsWords(bytes[..], sp, table);
  }

  /** Writes the table below the cursor, if it fits. */
  method PlaceTable(memory: Memory, bytes: array<byte>, top: nat, i: Input, table: seq<u32>, cursor: nat) returns (sp: nat)
    requires memory.Valid() && bytes.Length == SPACE && TopOk(memory.pages[..], top) && Room(memory.pages[..], top, i.Want()) && AboveZero(top, i.Want())
    requires cursor == top - i.Want() && |table| == i.TableWords() < 0x3FF0_0000
    modifies bytes
    ensures sp != 0 <==> Fits(memory.pages[..], top, i)
    ensures sp != 0 ==> sp == StackPointer(top, i) && sp + 4 * |table| <= cursor && WordsAt(bytes[..], sp, table)
    ensures SameOutside(old(bytes[..]), bytes[..], Low(top), cursor) && SameAbove(old(bytes[..]), bytes[..], cursor)
  {
    sp := Wrap(cursor - Wrap(4 * |table|));
    sp := sp - sp % 16;
    WrappedPointer(top, i.Want(), 4 * |table|);
    if Wrap(top - sp) > MAX_STACK_DATA { return 0; }
    var fits := memory.IsAccessible(sp, 4 * |table|, WRITE);
    if !fits { return 0; }
    WriteTable(bytes, sp, table);
  }

  /** Puts the table below strings that are all in place. */
  method PutTable(memory: Memory, bytes: array<byte>, top: nat, i: Input, a: Addresses, cursor: nat) returns (sp: nat)
    requires memory.Valid() && bytes.Length == SPACE && TopOk(memory.pages[..], top) && Room(memory.pages[..], top, i.Want()) && AboveZero(top, i.Want())
    requires cursor == top - i.Want() && i.TableWords() < 0x3FF0_0000 && i.random != [] && InputPlaced(bytes[..], cursor, top, i, a)
    modifies bytes
    ensures sp != 0 <==> Fits(memory.pages[..], top, i)
    ensures sp != 0 ==> sp == StackPointer(top, i) && Decodes(bytes[..], sp, top, i)
    ensures SameOutside(old(bytes[..]), bytes[..], Low(top), cursor)
  {
    InputAddresses(bytes[..], cursor, top, i, a);
    assert |a.args| == |i.argv| && |a.envs| == |i.envp|;
    var table := TableOf(i, a.args, a.envs, a.random, a.platform, a.execfn);
    TableLength(i, a.args, a.envs, a.random, a.platform, a.execfn);
    sp := PlaceTable(memory, bytes, top, i, table, cursor);
    if sp != 0 { AllDecodes(old(bytes[..]), bytes[..], cursor, sp, top, i, a); }
  }

  /** The address behind the stack; a stack top of 0 is the end of the address space. */
  function TopOf(stackTop: u32): nat { if stackTop == 0 then SPACE else stackTop }

  /**
    build_initial_stack: the result is 0 exactly if something does not fit; otherwise it is a 16-byte
    aligned stack pointer from which everything can be decoded. Only the 256 KiB below the top change.
  */
  method BuildInitialStack(memory: Memory, bytes: array<byte>, stackTop: u32, i: Input) returns (sp: nat)
    requires memory.Valid() && bytes.Length == SPACE && TopOk(memory.pages[..], TopOf(stackTop))
    requires |i.random| == 16 && i.TableWords() < 0x3FF0_0000
    modifies bytes
    ensures sp != 0 <==> Fits(memory.pages[..], TopOf(stackTop), i)
    ensures sp != 0 ==> sp == StackPointer(TopOf(stackTop), i) && Decodes(bytes[..], sp, TopOf(stackTop), i)
    ensures SameOutside(old(bytes[..]), bytes[..], Low(TopOf(stackTop)), TopOf(stackTop))
  {
    var b := new StackBuilder(memory, bytes, TopOf(stackTop));
    var a := b.PushInput(i);
    if b.overflow { return 0; }
    sp := PutTable(memory, bytes, TopOf(stackTop), i, a, b.cursor);
  }
}
