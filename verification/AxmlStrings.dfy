/**
  The string pool of binary AXML: make_pool of tools/axml_inject.py writes it, string_pool of
  tools/apk_preflight.py reads it. A Python str without surrogates is a Dafny string; every exception
  is None.
*/
module AxmlStrings {
  import opened Wrappers
  import opened Words

  // ---- UTF-8 ----

  function EncodeChar(c: char): (b: seq<byte>)
    ensures 1 <= |b| <= 4
  {
    var n := c as int;
    if n < 0x80 then [n]
    else if n < 0x800 then [0xC0 + n / 64, 0x80 + n % 64]
    else if n < 0x1_0000 then [0xE0 + n / 4096, 0x80 + n / 64 % 64, 0x80 + n % 64]
    else [0xF0 + n / 262144, 0x80 + n / 4096 % 64, 0x80 + n / 64 % 64, 0x80 + n % 64]
  }

  function Encode(s: string): seq<byte> { if s == "" then [] else EncodeChar(s[0]) + Encode(s[1..]) }

  predicate IsTail(b: seq<byte>, i: nat) { i < |b| && 0x80 <= b[i] < 0xC0 }

  function Tail(b: seq<byte>, i: nat): nat
    requires IsTail(b, i)
  {
    b[i] - 0x80
  }

  /** A code point that needs this many bytes, if it is one. */
  function Scalar(n: nat, least: nat, size: nat): Option<(char, nat)> {
    if least <= n && (n < 0xD800 || 0xE000 <= n < 0x11_0000) then Some((n as char, size)) else None
  }

  /** The first code point and how many bytes it takes; strict, so nothing overlong and no surrogate. */
  function DecodeChar(b: seq<byte>): (r: Option<(char, nat)>)
    requires b != []
    ensures r.Some? ==> 1 <= r.value.1 <= |b|
  {
    if b[0] < 0x80 then Scalar(b[0], 0, 1)
    else if 0xC0 <= b[0] < 0xE0 && IsTail(b, 1) then Scalar((b[0] - 0xC0) * 64 + Tail(b, 1), 0x80, 2)
    else if 0xE0 <= b[0] < 0xF0 && IsTail(b, 1) && IsTail(b, 2) then
      Scalar((b[0] - 0xE0) * 4096 + Tail(b, 1) * 64 + Tail(b, 2), 0x800, 3)
    else if 0xF0 <= b[0] < 0xF8 && IsTail(b, 1) && IsTail(b, 2) && IsTail(b, 3) then
      Scalar((b[0] - 0xF0) * 262144 + Tail(b, 1) * 4096 + Tail(b, 2) * 64 + Tail(b, 3), 0x1_0000, 4)
    else None
  }

  function Decode(b: seq<byte>): Option<string> {
    if b == [] then Some("")
    else
      var first := DecodeChar(b);
      if first.None? then None
      else
        var rest := Decode(b[first.value.1..]);
        if rest.None? then None else Some([first.value.0] + rest.value)
  }

  lemma Digits(n: nat)
    ensures n == n / 64 * 64 + n % 64
    ensures n == n / 4096 * 4096 + n / 64 % 64 * 64 + n % 64
    ensures n == n / 262144 * 262144 + n / 4096 % 64 * 4096 + n / 64 % 64 * 64 + n % 64
  {
    assert n / 64 / 64 == n / 4096 && n / 4096 / 64 == n / 262144;
  }

  lemma CharRoundTrip(c: char, rest: seq<byte>)
    ensures DecodeChar(EncodeChar(c) + rest) == Some((c, |EncodeChar(c)|))
  {
    var n, e := c as int, EncodeChar(c);
    var b := e + rest;
    Digits(n);
    if n < 0x80 {
      assert b[0] == e[0];
    } else if n < 0x800 {
      assert b[0] == e[0] && b[1] == e[1];
    } else if n < 0x1_0000 {
      assert b[0] == e[0] && b[1] == e[1] && b[2] == e[2];
    } else {
      assert b[0] == e[0] && b[1] == e[1] && b[2] == e[2] && b[3] == e[3];
    }
  }

  lemma {:induction false} Utf8RoundTrip(s: string)
    ensures Decode(Encode(s)) == Some(s)
  {
    if s != "" {
      var first, rest := EncodeChar(s[0]), Encode(s[1..]);
      CharRoundTrip(s[0], rest);
      assert (first + rest)[|first|..] == rest;
      Utf8RoundTrip(s[1..]);
      assert [s[0]] + s[1..] == s;
    }
  }

  // ---- UTF-16, for pools that are read only ----

  function DecodeUnits(b: seq<byte>): Option<string>
    requires |b| % 2 == 0
  {
    if b == [] then Some("")
    else
      var high := At16(b, 0);
      if high < 0xD800 || 0xE000 <= high then
        var rest := DecodeUnits(b[2..]);
        if rest.None? then None else Some([high as char] + rest.value)
      else if high >= 0xDC00 || |b| < 4 || At16(b, 2) < 0xDC00 || At16(b, 2) >= 0xE000 then None
      else
        var rest := DecodeUnits(b[4..]);
        if rest.None? then None
        else Some([(0x1_0000 + (high - 0xD800) * 0x400 + (At16(b, 2) - 0xDC00)) as char] + rest.value)
  }

  /** The number of UTF-16 code units. */
  function Units(s: string): nat { if s == "" then 0 else (if s[0] as int >= 0x1_0000 then 2 else 1) + Units(s[1..]) }

  // ---- Lengths ----

  function Length8(n: nat): Option<seq<byte>> {
    if n > 0x7FFF then None else if n > 127 then Some([0x80 + n / 256, n % 256]) else Some([n])
  }

  /** The length at this position and the position behind it. */
  function VarLen8(b: seq<byte>, at: nat): Option<(nat, nat)> {
    if at >= |b| then None
    else
      var first: int := b[at];
      if first < 128 then Some((first, at + 1))
      else if at + 1 >= |b| then None
      else Some(((first - 128) * 256 + b[at + 1], at + 2))
  }

  lemma LengthRoundTrip(n: nat, b: seq<byte>, at: nat)
    requires Length8(n).Some? && at + |Length8(n).value| <= |b| && b[at..at + |Length8(n).value|] == Length8(n).value
    ensures VarLen8(b, at) == Some((n, at + |Length8(n).value|))
  {
    var x := b[at..at + |Length8(n).value|];
    assert b[at] == x[0];
    if n > 127 { assert b[at + 1] == x[1]; }
  }

  // ---- Reading a pool ----

  function Utf8At(b: seq<byte>, at: nat): Option<string> {
    var units := VarLen8(b, at);
    if units.None? then None
    else
      var length := VarLen8(b, units.value.1);
      if length.None? then None
      else
        var from, to := length.value.1, length.value.1 + length.value.0;
        if to >= |b| || b[to] != 0 then None else Decode(b[from..to])
  }

  function Utf16At(b: seq<byte>, at: nat): Option<string> {
    if at + 2 > |b| then None
    else if At16(b, at) < 0x8000 then Utf16Text(b, at + 2, At16(b, at))
    else if at + 4 > |b| then None
    else Utf16Text(b, at + 4, (At16(b, at) - 0x8000) * 0x1_0000 + At16(b, at + 2))
  }

  function Utf16Text(b: seq<byte>, from: nat, length: nat): Option<string> {
    if from + 2 * length + 2 > |b| || At16(b, from + 2 * length) != 0 then None else DecodeUnits(b[from..from + 2 * length])
  }

  const POOL_HEADER := 28
  const MAX_STRINGS := 200000

  predicate PoolOk(b: seq<byte>) {
    && POOL_HEADER <= |b| && POOL_HEADER <= At16(b, 2) <= |b| && At32(b, 8) <= MAX_STRINGS && At32(b, 20) <= |b|
    && At16(b, 2) + 4 * At32(b, 8) <= |b|
  }

  /** String number i of the pool in the chunk b. */
  function PoolString(b: seq<byte>, i: nat): Option<string>
    requires PoolOk(b) && i < At32(b, 8)
  {
    var at := At32(b, 20) + At32(b, At16(b, 2) + 4 * i);
    if at >= |b| then None else if At32(b, 16) / 256 % 2 == 1 then Utf8At(b, at) else Utf16At(b, at)
  }

  /** The first n strings. */
  function PoolStrings(b: seq<byte>, n: nat): (r: Option<seq<string>>)
    requires PoolOk(b) && n <= At32(b, 8)
    ensures r.Some? ==> |r.value| == n
  {
    if n == 0 then Some([])
    else
      var before, last := PoolStrings(b, n - 1), PoolString(b, n - 1);
      if before.None? || last.None? then None else Some(before.value + [last.value])
  }

  /**
    string_pool on a chunk. A read past the chunk's end is None here; in the original it either raises
    as well or is followed by a position check that does.
  */
  function StringPool(b: seq<byte>): (r: Option<seq<string>>)
    ensures r.Some? ==> |r.value| <= MAX_STRINGS
  {
    if PoolOk(b) then PoolStrings(b, At32(b, 8)) else None
  }

  // ---- Writing a pool ----

  /** A string as the pool holds it: two lengths, the bytes, a NUL. */
  function Entry(s: string): Option<seq<byte>> {
    var units, length := Length8(Units(s)), Length8(|Encode(s)|);
    if units.None? || length.None? then None else Some(units.value + length.value + Encode(s) + [0])
  }

  predicate Encodable(ss: seq<string>) { forall s :: s in ss ==> Entry(s).Some? }

  function Payload(ss: seq<string>): seq<byte>
    requires Encodable(ss)
  {
    if ss == [] then [] else Payload(ss[..|ss| - 1]) + Entry(ss[|ss| - 1]).value
  }

  function Pad4(n: nat): (b: seq<byte>)
    ensures |b| < 4 && (n + |b|) % 4 == 0
  {
    seq((4 - n % 4) % 4, _ => 0)
  }

  function PoolSize(ss: seq<string>): nat
    requires Encodable(ss)
  {
    POOL_HEADER + 4 * |ss| + |Payload(ss)| + |Pad4(|Payload(ss)|)|
  }

  /** The pool can be packed into 32-bit fields. */
  predicate Packable(ss: seq<string>) { Encodable(ss) && PoolSize(ss) < 0x1_0000_0000 }

  function Offsets(ss: seq<string>): (ws: seq<u32>)
    requires Packable(ss)
    ensures |ws| == |ss|
  {
    seq(|ss|, i requires 0 <= i < |ss| => OffsetOf(ss, i))
  }

  function OffsetOf(ss: seq<string>, i: nat): u32
    requires Packable(ss) && i < |ss|
  {
    PrefixPayload(ss, i);
    |Payload(ss[..i])|
  }

  lemma {:induction false} PrefixPayload(ss: seq<string>, i: nat)
    requires Encodable(ss) && i <= |ss|
    ensures |Payload(ss[..i])| <= |Payload(ss)| && Payload(ss)[..|Payload(ss[..i])|] == Payload(ss[..i])
    decreases |ss|
  {
    if i == |ss| {
      assert ss[..i] == ss;
    } else {
      PrefixPayload(ss[..|ss| - 1], i);
      assert ss[..|ss| - 1][..i] == ss[..i];
    }
  }

  function PoolHeader(ss: seq<string>): (b: seq<byte>)
    requires Packable(ss)
    ensures |b| == POOL_HEADER
  {
    Le16(1) + Le16(POOL_HEADER) + Flat(HeaderWords(ss))
  }

  /** make_pool. */
  function MakePool(ss: seq<string>): (b: seq<byte>)
    requires Packable(ss)
    ensures |b| == PoolSize(ss)
  {
    PoolHeader(ss) + Flat(Offsets(ss)) + (Payload(ss) + Pad4(|Payload(ss)|))
  }

  lemma NotEncodable(ss: seq<string>, i: nat)
    requires i < |ss| && Entry(ss[i]).None?
    ensures !Encodable(ss)
  {
    assert ss[i] in ss;
  }

  method BuildPayload(ss: seq<string>) returns (ok: bool, offsets: seq<nat>, payload: seq<byte>)
    ensures ok <==> Encodable(ss)
    ensures ok ==> payload == Payload(ss) && |offsets| == |ss| && forall j :: 0 <= j < |ss| ==> offsets[j] == |Payload(ss[..j])|
  {
    offsets, payload := [], [];
    for i := 0 to |ss|
      invariant Encodable(ss[..i]) && payload == Payload(ss[..i]) && |offsets| == i
      invariant forall j :: 0 <= j < i ==> offsets[j] == |Payload(ss[..i][..j])|
    {
      var e := Entry(ss[i]);
      if e.None? {
        NotEncodable(ss, i);
        return false, offsets, payload;
      }
      assert ss[..i + 1][..i] == ss[..i];
      forall j | 0 <= j < i ensures ss[..i + 1][..j] == ss[..i][..j] {}
      offsets, payload := offsets + [|payload|], payload + e.value;
    }
    assert ss[..|ss|] == ss;
    return true, offsets, payload;
  }

  lemma SameMultiple(a: nat, b: nat)
    requires a % 4 == 0 && b % 4 == 0 && a <= b < a + 4
    ensures a == b
  {
  }

  method PadTo4(text: seq<byte>) returns (payload: seq<byte>)
    ensures payload == text + Pad4(|text|)
  {
    payload := text;
    ghost var end := |text| + |Pad4(|text|)|;
    while |payload| % 4 != 0
      invariant |text| <= |payload| <= end && payload == text + seq(|payload| - |text|, _ => 0)
      decreases end - |payload|
    {
      payload := payload + [0];
    }
    SameMultiple(|payload|, end);
  }

  /** make_pool, string by string; None where a length cannot be packed. */
  method BuildPool(ss: seq<string>) returns (r: Option<seq<byte>>)
    ensures r == if Packable(ss) then Some(MakePool(ss)) else None
  {
    var ok, offsets, text := BuildPayload(ss);
    if !ok { return None; }
    var payload := PadTo4(text);
    if POOL_HEADER + 4 * |ss| + |payload| >= 0x1_0000_0000 { return None; }
    assert offsets == Offsets(ss);
    return Some(PoolHeader(ss) + Flat(offsets) + payload);
  }

  // ---- Reading what was written ----

  lemma {:induction false} PayloadHolds(ss: seq<string>, i: nat)
    requires Encodable(ss) && i < |ss|
    ensures var from, e := |Payload(ss[..i])|, Entry(ss[i]).value;
            from + |e| <= |Payload(ss)| && Payload(ss)[from..from + |e|] == e
  {
    PrefixPayload(ss, i + 1);
    var from, e := |Payload(ss[..i])|, Entry(ss[i]).value;
    assert ss[..i + 1][..i] == ss[..i] && ss[..i + 1][i] == ss[i];
    assert Payload(ss[..i + 1]) == Payload(ss[..i]) + e;
    SubSlice(Payload(ss), 0, from + |e|, from, from + |e|);
  }

  lemma {:induction false} EntryParts(s: string)
    requires Entry(s).Some?
    ensures var e, u, l, raw := Entry(s).value, Length8(Units(s)).value, Length8(|Encode(s)|).value, Encode(s);
            var p, q := |u|, |u| + |l|;
            |e| == q + |raw| + 1 && e[0..p] == u && e[p..q] == l && e[q..q + |raw|] == raw && e[q + |raw|] == 0
  {
  }

  /** Two lengths, then text, then a NUL. */
  ghost predicate TextAt(b: seq<byte>, at: nat, units: nat, raw: seq<byte>) {
    && VarLen8(b, at).Some? && VarLen8(b, at).value.0 == units
    && var l := VarLen8(b, VarLen8(b, at).value.1);
       && l.Some? && l.value.0 == |raw| && l.value.1 + |raw| < |b| && b[l.value.1..l.value.1 + |raw|] == raw
       && b[l.value.1 + |raw|] == 0
  }

  lemma {:induction false} TextIsThere(b: seq<byte>, at: nat, u: seq<byte>, l: seq<byte>, units: nat, raw: seq<byte>)
    requires Length8(units) == Some(u) && Length8(|raw|) == Some(l) && at + |u| + |l| + |raw| < |b|
    requires b[at..at + |u|] == u && b[at + |u|..at + |u| + |l|] == l
    requires b[at + |u| + |l|..at + |u| + |l| + |raw|] == raw && b[at + |u| + |l| + |raw|] == 0
    ensures TextAt(b, at, units, raw)
  {
    LengthRoundTrip(units, b, at);
    LengthRoundTrip(|raw|, b, at + |u|);
  }

  lemma {:induction false} EntryReads(b: seq<byte>, at: nat, s: string)
    requires Entry(s).Some? && at + |Entry(s).value| <= |b| && b[at..at + |Entry(s).value|] == Entry(s).value
    ensures TextAt(b, at, Units(s), Encode(s))
  {
    var e, u, l, raw := Entry(s).value, Length8(Units(s)).value, Length8(|Encode(s)|).value, Encode(s);
    var p, q := |u|, |u| + |l|;
    EntryParts(s);
    SubSlice(b, at, |e|, 0, p);
    SubSlice(b, at, |e|, p, q);
    SubSlice(b, at, |e|, q, q + |raw|);
    assert b[at + (q + |raw|)] == b[at..at + |e|][q + |raw|];
    TextIsThere(b, at, u, l, Units(s), raw);
  }

  lemma {:induction false} TextReads(b: seq<byte>, at: nat, units: nat, raw: seq<byte>)
    requires TextAt(b, at, units, raw)
    ensures at < |b| && Utf8At(b, at) == Decode(raw)
  {
  }

  function HeaderWords(ss: seq<string>): seq<u32>
    requires Packable(ss)
  {
    [PoolSize(ss), |ss|, 0, 0x100, POOL_HEADER + 4 * |ss|, 0]
  }

  lemma {:induction false} PoolParts(ss: seq<string>)
    requires Packable(ss)
    ensures var b, start := MakePool(ss), POOL_HEADER + 4 * |ss|;
            && b[0..2] == Le16(1) && b[2..4] == Le16(POOL_HEADER) && b[4..28] == Flat(HeaderWords(ss))
            && b[POOL_HEADER..POOL_HEADER + 4 * |ss|] == Flat(Offsets(ss)) && b[start..start + |Payload(ss)|] == Payload(ss)
  {
  }

  ghost predicate HeaderFits(b: seq<byte>, n: nat) {
    && |b| >= POOL_HEADER && At16(b, 0) == 1 && At16(b, 2) == POOL_HEADER && At32(b, 4) == |b| && At32(b, 8) == n
    && At32(b, 12) == 0 && At32(b, 16) == 0x100 && At32(b, 20) == POOL_HEADER + 4 * n
  }

  lemma {:induction false} HeaderIs(b: seq<byte>, ws: seq<u32>, n: nat)
    requires |b| >= 28 && |ws| == 6 && b[0..2] == Le16(1) && b[2..4] == Le16(POOL_HEADER) && b[4..28] == Flat(ws)
    requires ws[0] == |b| && ws[1] == n && ws[2] == 0 && ws[3] == 0x100 && ws[4] == POOL_HEADER + 4 * n
    ensures HeaderFits(b, n)
  {
    assert b[0] == b[0..2][0] && b[1] == b[0..2][1] && b[2] == b[2..4][0] && b[3] == b[2..4][1];
    WordsReadBack(b, 4, ws, 0);
    WordsReadBack(b, 4, ws, 1);
    WordsReadBack(b, 4, ws, 2);
    WordsReadBack(b, 4, ws, 3);
    WordsReadBack(b, 4, ws, 4);
  }

  lemma {:induction false} HeaderReads(ss: seq<string>)
    requires Packable(ss)
    ensures HeaderFits(MakePool(ss), |ss|)
  {
    PoolParts(ss);
    HeaderIs(MakePool(ss), HeaderWords(ss), |ss|);
  }

  /** Offset and entry of string i are where a reader looks for them. */
  ghost predicate StringIn(b: seq<byte>, ss: seq<string>, i: nat)
    requires i < |ss| && Packable(ss)
  {
    var at, e := POOL_HEADER + 4 * |ss| + OffsetOf(ss, i), Entry(ss[i]).value;
    && POOL_HEADER + 4 * i + 4 <= |b| && At32(b, POOL_HEADER + 4 * i) == OffsetOf(ss, i)
    && at + |e| <= |b| && b[at..at + |e|] == e
  }

  lemma {:induction false} StringIsIn(ss: seq<string>, i: nat)
    requires Packable(ss) && i < |ss|
    ensures StringIn(MakePool(ss), ss, i)
  {
    var b, start, from, e := MakePool(ss), POOL_HEADER + 4 * |ss|, OffsetOf(ss, i), Entry(ss[i]).value;
    PoolParts(ss);
    WordsReadBack(b, POOL_HEADER, Offsets(ss), i);
    PayloadHolds(ss, i);
    SubSlice(b, start, |Payload(ss)|, from, from + |e|);
  }

  lemma {:induction false} StringReads(b: seq<byte>, i: nat, offset: u32, s: string)
    requires PoolOk(b) && i < At32(b, 8) && At16(b, 2) == POOL_HEADER && At32(b, 16) == 0x100
    requires At32(b, POOL_HEADER + 4 * i) == offset && At32(b, 20) + offset < |b| && Utf8At(b, At32(b, 20) + offset) == Some(s)
    ensures PoolString(b, i) == Some(s)
  {
  }

  lemma {:induction false} WrittenStringReads(b: seq<byte>, ss: seq<string>, i: nat)
    requires Packable(ss) && i < |ss| && PoolOk(b) && At32(b, 8) == |ss| && At16(b, 2) == POOL_HEADER
    requires At32(b, 16) == 0x100 && At32(b, 20) == POOL_HEADER + 4 * |ss| && StringIn(b, ss, i)
    ensures PoolString(b, i) == Some(ss[i])
  {
    var at := POOL_HEADER + 4 * |ss| + OffsetOf(ss, i);
    EntryReads(b, at, ss[i]);
    TextReads(b, at, Units(ss[i]), Encode(ss[i]));
    Utf8RoundTrip(ss[i]);
    StringReads(b, i, OffsetOf(ss, i), ss[i]);
  }

  /** string_pool reads back exactly the strings that make_pool wrote. */
  lemma {:induction false} PoolRoundTrip(ss: seq<string>)
    requires Packable(ss) && |ss| <= MAX_STRINGS
    ensures StringPool(MakePool(ss)) == Some(ss)
  {
    var b := MakePool(ss);
    HeaderReads(ss);
    forall i | 0 <= i < |ss| ensures PoolString(b, i) == Some(ss[i]) {
      StringIsIn(ss, i);
      WrittenStringReads(b, ss, i);
    }
    AllStringsRead(b, ss, |ss|);
    assert ss[..|ss|] == ss;
  }

  lemma {:induction false} AllStringsRead(b: seq<byte>, ss: seq<string>, n: nat)
    requires PoolOk(b) && At32(b, 8) == |ss| && n <= |ss| && forall i :: 0 <= i < |ss| ==> PoolString(b, i) == Some(ss[i])
    ensures PoolStrings(b, n) == Some(ss[..n])
  {
    if n > 0 {
      AllStringsRead(b, ss, n - 1);
      assert ss[..n - 1] + [ss[n - 1]] == ss[..n];
    }
  }
}
