/**
  Translation of ancillary data between the guest's layout (12-byte headers, 4-byte alignment) and the
  host's (16-byte headers, 8-byte alignment): control_to_host and control_to_guest in
  core/src/syscalls.cpp. The host walk is that of CMSG_FIRSTHDR and CMSG_NXTHDR, section 20.3 of RFC 3542.
*/
module ControlMessages {
  import opened Wrappers
  import opened Words

  const GUEST_HEADER := 12
  const HOST_HEADER := 16

  datatype Message = Message(level: u32, kind: u32, data: seq<byte>)

  function Align4(n: nat): (r: nat)
    ensures n <= r < n + 4 && r % 4 == 0
  {
    (n + 3) / 4 * 4
  }

  function Align8(n: nat): (r: nat)
    ensures n <= r < n + 8 && r % 8 == 0
  {
    (n + 7) / 8 * 8
  }

  function Min(a: nat, b: nat): nat { if a < b then a else b }

  // ---- The guest's list ----

  /** A whole message starts at this offset. */
  predicate GuestMessage(b: seq<byte>, at: nat) {
    at + GUEST_HEADER <= |b| && GUEST_HEADER <= At32(b, at) && at + At32(b, at) <= |b|
  }

  function MessageAt(b: seq<byte>, at: nat): Message
    requires GuestMessage(b, at)
  {
    Message(At32(b, at + 4), At32(b, at + 8), b[at + GUEST_HEADER..at + At32(b, at)])
  }

  function NextGuest(b: seq<byte>, at: nat): (r: nat)
    requires GuestMessage(b, at)
    ensures r > at
  {
    at + Align4(At32(b, at))
  }

  /** The messages a guest reads, up to the first that is not whole. */
  function GuestDecode(b: seq<byte>, at: nat): seq<Message>
    decreases |b| - at
  {
    if !GuestMessage(b, at) then [] else [MessageAt(b, at)] + GuestDecode(b, NextGuest(b, at))
  }

  /** No length field on the way makes offset + length wrap around 32 bits. The length is the guest's to choose. */
  ghost predicate LengthsSane(b: seq<byte>, at: nat)
    decreases |b| - at
  {
    && (at + GUEST_HEADER <= |b| ==> at + At32(b, at) < 0x1_0000_0000)
    && (GuestMessage(b, at) ==> LengthsSane(b, NextGuest(b, at)))
  }

  /** No message ends so close to 2^32 that the offset behind it wraps around. */
  ghost predicate EndsBelow(b: seq<byte>, at: nat)
    decreases |b| - at
  {
    GuestMessage(b, at) ==> NextGuest(b, at) < 0x1_0000_0000 && EndsBelow(b, NextGuest(b, at))
  }

  /** Guest bytes needed for the messages: all padded but the last. */
  function GuestNeed(ms: seq<Message>): nat {
    if ms == [] then 0
    else if |ms| == 1 then GUEST_HEADER + |ms[0].data|
    else Align4(GUEST_HEADER + |ms[0].data|) + GuestNeed(ms[1..])
  }

  // ---- The host's list ----

  function Zeros(n: nat): (b: seq<byte>)
    ensures |b| == n
  {
    seq(n, _ => 0)
  }

  function Le64(n: nat): (b: seq<byte>)
    requires n < 0x1_0000_0000_0000_0000
    ensures |b| == 8
  {
    Le32(n % 0x1_0000_0000) + Le32(n / 0x1_0000_0000)
  }

  function At64(b: seq<byte>, at: nat): nat
    requires at + 8 <= |b|
  {
    At32(b, at) + 0x1_0000_0000 * At32(b, at + 4)
  }

  /** Data that a 64-bit length can describe. */
  predicate Small(m: Message) { |m.data| < 0x1_0000_0000 }

  predicate AllSmall(ms: seq<Message>) { forall m :: m in ms ==> Small(m) }

  /** CMSG_SPACE of the data. */
  function HostSize(m: Message): nat { HOST_HEADER + Align8(|m.data|) }

  function HostBytes(m: Message): (b: seq<byte>)
    requires Small(m)
    ensures |b| == HostSize(m)
  {
    Le64(HOST_HEADER + |m.data|) + Le32(m.level) + Le32(m.kind) + m.data + Zeros(Align8(|m.data|) - |m.data|)
  }

  function HostEncode(ms: seq<Message>): seq<byte>
    requires AllSmall(ms)
  {
    if ms == [] then [] else HostBytes(ms[0]) + HostEncode(ms[1..])
  }

  predicate HostMessage(b: seq<byte>, at: nat) {
    at + HOST_HEADER <= |b| && HOST_HEADER <= At64(b, at) && at + At64(b, at) <= |b|
  }

  function HostMessageAt(b: seq<byte>, at: nat): Message
    requires HostMessage(b, at)
  {
    Message(At32(b, at + 8), At32(b, at + 12), b[at + HOST_HEADER..at + At64(b, at)])
  }

  function NextHost(b: seq<byte>, at: nat): (r: nat)
    requires HostMessage(b, at)
    ensures r > at
  {
    at + Align8(At64(b, at))
  }

  /** Every header on the way describes a message inside the buffer, as the kernel leaves it. */
  ghost predicate HostOk(b: seq<byte>, at: nat)
    decreases |b| - at
  {
    at + HOST_HEADER <= |b| ==> HostMessage(b, at) && HostOk(b, NextHost(b, at))
  }

  function HostDecode(b: seq<byte>, at: nat): seq<Message>
    decreases |b| - at
  {
    if !HostMessage(b, at) then [] else [HostMessageAt(b, at)] + HostDecode(b, NextHost(b, at))
  }

  // ---- Host encoding and decoding are inverse ----

  lemma Le64ReadsBack(b: seq<byte>, at: nat, n: nat)
    requires n < 0x1_0000_0000_0000_0000 && at + 8 <= |b| && b[at..at + 8] == Le64(n)
    ensures At64(b, at) == n
  {
    var low, high := n % 0x1_0000_0000, n / 0x1_0000_0000;
    assert b[at..at + 4] == b[at..at + 8][..4] == Le32(low) == Le32(low)[0..4];
    assert b[at + 4..at + 8] == b[at..at + 8][4..] == Le32(high) == Le32(high)[0..4];
    SameWord(b, at, Le32(low), 0);
    SameWord(b, at + 4, Le32(high), 0);
    ReadBack32(low);
    ReadBack32(high);
  }

  lemma WordReadsBack(b: seq<byte>, at: nat, w: u32)
    requires at + 4 <= |b| && b[at..at + 4] == Le32(w)
    ensures At32(b, at) == w
  {
    assert Le32(w)[0..4] == Le32(w);
    SameWord(b, at, Le32(w), 0);
    ReadBack32(w);
  }

  lemma HostBytesParts(m: Message)
    requires Small(m)
    ensures var x := HostBytes(m);
            x[0..8] == Le64(HOST_HEADER + |m.data|) && x[8..12] == Le32(m.level) && x[12..16] == Le32(m.kind) &&
            x[16..16 + |m.data|] == m.data
  {
  }

  lemma HostFieldsRead(b: seq<byte>, at: nat, m: Message)
    requires Small(m) && at + HostSize(m) <= |b| && b[at..at + HostSize(m)] == HostBytes(m)
    ensures At64(b, at) == HOST_HEADER + |m.data| && At32(b, at + 8) == m.level && At32(b, at + 12) == m.kind
  {
    var size, n := HostSize(m), |m.data|;
    HostBytesParts(m);
    assert At64(b, at) == HOST_HEADER + n by { SubSlice(b, at, size, 0, 8); Le64ReadsBack(b, at, HOST_HEADER + n); }
    assert At32(b, at + 8) == m.level by { SubSlice(b, at, size, 8, 12); WordReadsBack(b, at + 8, m.level); }
    assert At32(b, at + 12) == m.kind by { SubSlice(b, at, size, 12, 16); WordReadsBack(b, at + 12, m.kind); }
  }

  lemma HostBytesRead(b: seq<byte>, at: nat, m: Message)
    requires Small(m) && at + HostSize(m) <= |b| && b[at..at + HostSize(m)] == HostBytes(m)
    ensures HostMessage(b, at) && HostMessageAt(b, at) == m && NextHost(b, at) == at + HostSize(m)
  {
    HostFieldsRead(b, at, m);
    assert b[at + HOST_HEADER..at + HOST_HEADER + |m.data|] == m.data by {
      HostBytesParts(m);
      SubSlice(b, at, HostSize(m), HOST_HEADER, HOST_HEADER + |m.data|);
    }
    NextAligned(|m.data|);
  }

  lemma NextAligned(n: nat)
    ensures Align8(HOST_HEADER + n) == HOST_HEADER + Align8(n)
  {
  }

  lemma Inside(a: seq<byte>, b: seq<byte>, c: seq<byte>)
    ensures (a + (b + c))[|a|..|a| + |b|] == b && a + (b + c) == (a + b) + c
  {
  }

  lemma HostReadsFirst(before: seq<byte>, m: Message, rest: seq<byte>, b: seq<byte>)
    requires Small(m) && b == before + (HostBytes(m) + rest)
    ensures b == (before + HostBytes(m)) + rest
    ensures HostMessage(b, |before|) && HostMessageAt(b, |before|) == m && NextHost(b, |before|) == |before + HostBytes(m)|
  {
    Inside(before, HostBytes(m), rest);
    HostBytesRead(b, |before|, m);
  }

  lemma {:induction false} HostRoundTrip(before: seq<byte>, ms: seq<Message>, b: seq<byte>)
    requires AllSmall(ms) && b == before + HostEncode(ms)
    ensures HostDecode(b, |before|) == ms && HostOk(b, |before|)
    decreases |ms|
  {
    if ms != [] {
      HostReadsFirst(before, ms[0], HostEncode(ms[1..]), b);
      HostRoundTrip(before + HostBytes(ms[0]), ms[1..], b);
    }
  }

  lemma {:induction false} HostEncodeAppend(ms: seq<Message>, m: Message)
    requires AllSmall(ms) && Small(m)
    ensures HostEncode(ms + [m]) == HostEncode(ms) + HostBytes(m)
  {
    if ms == [] {
      assert HostEncode([m]) == HostBytes(m) + HostEncode([]);
    } else {
      HostEncodeAppend(ms[1..], m);
      assert (ms + [m])[1..] == ms[1..] + [m];
    }
  }

  lemma {:induction false} GuestDecodeSmall(b: seq<byte>, at: nat)
    requires |b| < 0x1_0000_0000
    ensures AllSmall(GuestDecode(b, at))
    decreases |b| - at
  {
    if GuestMessage(b, at) { GuestDecodeSmall(b, NextGuest(b, at)); }
  }

  // ---- The walk of control_to_host, in 32-bit arithmetic ----

  /** (n + 3) & ~3u */
  function RoundUp4(n: u32): u32 { Wrap(n + 3) / 4 * 4 }

  /** The loop takes what stands at this offset for a message. */
  predicate Accepts(b: seq<byte>, at: nat) {
    at + GUEST_HEADER <= |b| && GUEST_HEADER <= At32(b, at) && Wrap(at + At32(b, at)) <= |b|
  }

  function WalkNext(b: seq<byte>, at: nat): u32
    requires at + 4 <= |b|
  {
    Wrap(at + RoundUp4(At32(b, at)))
  }

  /** The offset after n turns of the loop, if it gets that far. */
  function Visited(b: seq<byte>, n: nat): Option<nat> {
    if n == 0 then Some(0)
    else
      var before := Visited(b, n - 1);
      if before.None? || !Accepts(b, before.value) then None else Some(WalkNext(b, before.value))
  }

  /** A message the loop accepts there, if any, lies inside the list. */
  ghost predicate StaysInside(b: seq<byte>, at: nat) { Accepts(b, at) ==> at + At32(b, at) <= |b| }

  /** Where nothing wraps, the loop accepts what the guest meant and goes on to the next message. */
  lemma {:induction false} WalkIsGuests(b: seq<byte>, at: nat)
    requires |b| < 0x1_0000_0000 && at % 4 == 0 && at + GUEST_HEADER <= |b| && at + At32(b, at) < 0x1_0000_0000
    ensures Accepts(b, at) <==> GuestMessage(b, at)
    ensures GuestMessage(b, at) ==> WalkNext(b, at) == Wrap(NextGuest(b, at)) && NextGuest(b, at) <= 0x1_0000_0000
  {
    if GuestMessage(b, at) { NextOffset(at, At32(b, at)); }
  }

  lemma {:induction false} NextOffset(at: nat, len: u32)
    requires at % 4 == 0 && at + len < 0x1_0000_0000
    ensures at + Align4(len) <= 0x1_0000_0000 && (at + Align4(len)) % 4 == 0 && Wrap(at + RoundUp4(len)) == Wrap(at + Align4(len))
  {
    if len + 3 < 0x1_0000_0000 { assert RoundUp4(len) == Align4(len); }
  }

  lemma {:induction false} WrappingIsOutside(b: seq<byte>, at: nat)
    requires |b| < 0x1_0000_0000 && at + GUEST_HEADER <= |b| && at + At32(b, at) >= 0x1_0000_0000
    ensures Accepts(b, at) && !StaysInside(b, at)
  {
  }

  lemma {:induction false} Refused(b: seq<byte>, at: nat)
    requires |b| < 0x1_0000_0000 && !Accepts(b, at)
    ensures !GuestMessage(b, at) && (at + GUEST_HEADER <= |b| ==> at + At32(b, at) < 0x1_0000_0000)
  {
  }

  lemma {:induction false} SaneStep(b: seq<byte>, at: nat)
    requires |b| < 0x1_0000_0000 && at % 4 == 0 && LengthsSane(b, at) && Accepts(b, at)
    ensures WalkNext(b, at) % 4 == 0 && (WalkNext(b, at) == 0 || LengthsSane(b, WalkNext(b, at)))
  {
    WalkIsGuests(b, at);
    NextOffset(at, At32(b, at));
  }

  lemma {:induction false} SaneStays(b: seq<byte>, n: nat)
    requires |b| < 0x1_0000_0000 && LengthsSane(b, 0)
    ensures var v := Visited(b, n); v.Some? ==> v.value % 4 == 0 && LengthsSane(b, v.value)
  {
    if n > 0 {
      SaneStays(b, n - 1);
      var before := Visited(b, n - 1);
      if before.Some? && Accepts(b, before.value) { SaneStep(b, before.value); }
    }
  }

  /** A walk on which some sum wraps comes to a message that is not inside. */
  lemma {:induction false} InsaneLeaves(b: seq<byte>, at: nat, n: nat) returns (k: nat)
    requires |b| < 0x1_0000_0000 && at % 4 == 0 && Visited(b, n) == Some(at) && !LengthsSane(b, at)
    ensures Visited(b, k).Some? && !StaysInside(b, Visited(b, k).value)
    decreases |b| - at
  {
    if at + GUEST_HEADER <= |b| && at + At32(b, at) >= 0x1_0000_0000 {
      WrappingIsOutside(b, at);
      k := n;
    } else {
      WalkIsGuests(b, at);
      NextOffset(at, At32(b, at));
      k := InsaneLeaves(b, NextGuest(b, at), n + 1);
    }
  }

  /** Every message the loop accepts lies inside the list, exactly if no length on the way wraps. */
  lemma {:induction false} WalkStaysInsideIff(b: seq<byte>)
    requires |b| < 0x1_0000_0000
    ensures (forall n :: Visited(b, n).Some? ==> StaysInside(b, Visited(b, n).value)) <==> LengthsSane(b, 0)
  {
    if LengthsSane(b, 0) {
      forall n | Visited(b, n).Some? ensures StaysInside(b, Visited(b, n).value) {
        SaneStays(b, n);
        if Visited(b, n).value + GUEST_HEADER <= |b| { WalkIsGuests(b, Visited(b, n).value); }
      }
    } else {
      var k := InsaneLeaves(b, 0, 0);
    }
  }

  /** A list of two headers, the second of which says it is 2^32 - 8 bytes long. */
  const WRAPPING: seq<byte> := Flat([12, 0, 0]) + Flat([0xFFFF_FFF8, 0, 0])

  /** There the loop takes the second message for whole, and goes on inside the first. */
  lemma {:induction false} WrappingExample(b: seq<byte>)
    requires b == WRAPPING
    ensures |b| == 24 && Visited(b, 1) == Some(12) && Accepts(b, 12) && !StaysInside(b, 12) && Visited(b, 2) == Some(4)
    ensures GuestMessage(b, 0) && !GuestMessage(b, 12) && !LengthsSane(b, 0)
  {
    assert b[0..12] == Flat([12, 0, 0]) && b[12..24] == Flat([0xFFFF_FFF8, 0, 0]);
    WordsReadBack(b, 0, [12, 0, 0], 0);
    WordsReadBack(b, 12, [0xFFFF_FFF8, 0, 0], 0);
    assert At32(b, 0) == 12 && At32(b, 12) == 0xFFFF_FFF8;
    assert Visited(b, 0) == Some(0);
    assert Visited(b, 1) == Some(12);
    assert NextGuest(b, 0) == 12;
  }

  /** The offset behind a message can only wrap in a list of more than 2^32 - 4 bytes. */
  lemma {:induction false} ShortListsEnd(b: seq<byte>, at: nat)
    requires |b| <= 0xFFFF_FFFC && at % 4 == 0
    ensures EndsBelow(b, at)
    decreases |b| - at
  {
    if GuestMessage(b, at) {
      NextOffset(at, At32(b, at));
      ShortListsEnd(b, NextGuest(b, at));
    }
  }

  // ---- control_to_host ----

  /** The host's list; or the loop reads outside the guest's; or it comes back to its start and never ends. */
  datatype Translation = Translated(bytes: seq<byte>) | ReadsOutside | StartsAgain

  lemma DecodeStep(b: seq<byte>, at: nat, done: seq<Message>)
    requires GuestMessage(b, at)
    ensures done + GuestDecode(b, at) == (done + [MessageAt(b, at)]) + GuestDecode(b, NextGuest(b, at))
  {
  }

  ghost predicate SoFar(src: seq<byte>, at: nat, done: seq<Message>, out: seq<byte>) {
    && at % 4 == 0 && (LengthsSane(src, at) <==> LengthsSane(src, 0)) && (EndsBelow(src, at) <==> EndsBelow(src, 0))
    && GuestDecode(src, 0) == done + GuestDecode(src, at) && AllSmall(done) && out == HostEncode(done)
  }

  lemma {:induction false} TranslateOne(src: seq<byte>, at: nat, done: seq<Message>, out: seq<byte>)
    requires |src| < 0x1_0000_0000 && SoFar(src, at, done, out) && GuestMessage(src, at) && NextGuest(src, at) < 0x1_0000_0000
    ensures var m := MessageAt(src, at); Small(m) && SoFar(src, NextGuest(src, at), done + [m], out + HostBytes(m))
  {
    NextOffset(at, At32(src, at));
    HostEncodeAppend(done, MessageAt(src, at));
    DecodeStep(src, at, done);
  }

  lemma {:induction false} TranslatedAll(src: seq<byte>, at: nat, done: seq<Message>, out: seq<byte>)
    requires SoFar(src, at, done, out) && !GuestMessage(src, at) && (at + GUEST_HEADER <= |src| ==> at + At32(src, at) < 0x1_0000_0000)
    ensures LengthsSane(src, 0) && EndsBelow(src, 0)
    ensures AllSmall(GuestDecode(src, 0)) && out == HostEncode(GuestDecode(src, 0))
  {
    assert done + [] == done;
  }

  lemma {:induction false} EndsAtTop(src: seq<byte>, at: nat)
    requires |src| < 0x1_0000_0000 && GuestMessage(src, at) && NextGuest(src, at) >= 0x1_0000_0000
    ensures LengthsSane(src, at) && !EndsBelow(src, at)
  {
  }

  /**
    Exactly the lists on which nothing wraps are translated, and become the host encoding of the
    messages in them; a length that wraps makes the loop read outside the list.
  */
  method ControlToHost(src: seq<byte>) returns (r: Translation)
    requires |src| < 0x1_0000_0000
    ensures r.ReadsOutside? <==> !LengthsSane(src, 0)
    ensures r.Translated? <==> LengthsSane(src, 0) && EndsBelow(src, 0)
    ensures r.Translated? ==> AllSmall(GuestDecode(src, 0)) && r.bytes == HostEncode(GuestDecode(src, 0))
  {
    var out, offset := [], 0;
    ghost var done: seq<Message> := [];
    assert [] + GuestDecode(src, 0) == GuestDecode(src, 0);
    while Accepts(src, offset)
      invariant SoFar(src, offset, done, out)
      decreases |src| - offset
    {
      if offset + At32(src, offset) > |src| { return ReadsOutside; }
      WalkIsGuests(src, offset);
      var next := WalkNext(src, offset);
      if next <= offset {
        EndsAtTop(src, offset);
        return StartsAgain;
      }
      var m := MessageAt(src, offset);
      TranslateOne(src, offset, done, out);
      out := out + HostBytes(m);
      done := done + [m];
      offset := next;
    }
    Refused(src, offset);
    TranslatedAll(src, offset, done, out);
    return Translated(out);
  }

  /** So the host reads the messages the guest meant. */
  lemma HostReadsGuestMessages(src: seq<byte>)
    requires |src| < 0x1_0000_0000
    ensures AllSmall(GuestDecode(src, 0))
    ensures var host := HostEncode(GuestDecode(src, 0)); HostOk(host, 0) && HostDecode(host, 0) == GuestDecode(src, 0)
  {
    GuestDecodeSmall(src, 0);
    var ms := GuestDecode(src, 0);
    assert [] + HostEncode(ms) == HostEncode(ms);
    HostRoundTrip([], ms, HostEncode(ms));
  }

  // ---- control_to_guest ----

  function GuestSize(m: Message): nat { GUEST_HEADER + |m.data| }

  function GuestBytes(m: Message): (b: seq<byte>)
    requires GuestSize(m) < 0x1_0000_0000
    ensures |b| == GuestSize(m)
  {
    Le32(GuestSize(m)) + Le32(m.level) + Le32(m.kind) + m.data
  }

  /** Bytes the messages take with all of them padded. */
  function PaddedSize(ms: seq<Message>): nat {
    if ms == [] then 0 else PaddedSize(ms[..|ms| - 1]) + Align4(GuestSize(ms[|ms| - 1]))
  }

  /** How many of the messages fit, each whole; the padding of the last may be cut off. */
  function FitCount(ms: seq<Message>, room: nat): (k: nat)
    ensures k <= |ms|
  {
    if ms == [] || GuestSize(ms[0]) > room then 0
    else 1 + FitCount(ms[1..], room - Min(room, Align4(GuestSize(ms[0]))))
  }

  /** That is the longest prefix that fits. */
  lemma {:induction false} FitIsLongest(ms: seq<Message>, room: nat)
    ensures GuestNeed(ms[..FitCount(ms, room)]) <= room
    ensures forall k :: FitCount(ms, room) < k <= |ms| ==> GuestNeed(ms[..k]) > room
    decreases |ms|
  {
    if ms != [] {
      var first := Align4(GuestSize(ms[0]));
      if GuestSize(ms[0]) <= room {
        FitIsLongest(ms[1..], room - Min(room, first));
        NeedSplits(ms, FitCount(ms, room));
      }
      forall k | FitCount(ms, room) < k <= |ms| ensures GuestNeed(ms[..k]) > room { NeedSplits(ms, k); }
    }
  }

  lemma NeedSplits(ms: seq<Message>, k: nat)
    requires 0 < k <= |ms|
    ensures GuestNeed(ms[..k]) == if k == 1 then GuestSize(ms[0]) else Align4(GuestSize(ms[0])) + GuestNeed(ms[1..][..k - 1])
    ensures k > 1 ==> GuestNeed(ms[1..][..k - 1]) > 0
  {
    assert ms[..k][1..] == ms[1..][..k - 1];
  }

  /** The messages stand in b from `at` on, and the last one's padding ends at `end` or at the end of b. */
  ghost predicate Laid(b: seq<byte>, at: nat, ms: seq<Message>, end: nat)
    decreases |ms|
  {
    if ms == [] then at == end
    else
      && at + GuestSize(ms[0]) <= |b| < 0x1_0000_0000 && b[at..at + GuestSize(ms[0])] == GuestBytes(ms[0])
      && Laid(b, Min(|b|, at + Align4(GuestSize(ms[0]))), ms[1..], end)
  }

  lemma {:induction false} LaidEnd(b: seq<byte>, at: nat, ms: seq<Message>, end: nat)
    requires Laid(b, at, ms, end)
    ensures at <= end && (ms != [] ==> at + GuestSize(ms[0]) <= end <= |b|)
    decreases |ms|
  {
    if ms != [] { LaidEnd(b, Min(|b|, at + Align4(GuestSize(ms[0]))), ms[1..], end); }
  }

  lemma SameInside(b: seq<byte>, c: seq<byte>, at: nat, n: nat, end: nat)
    requires at + n <= end <= |b| && |c| == |b| && c[..end] == b[..end]
    ensures c[at..at + n] == b[at..at + n]
  {
    assert c[at..at + n] == c[..end][at..at + n] && b[at..at + n] == b[..end][at..at + n];
  }

  lemma {:induction false} LaidAppend(b: seq<byte>, c: seq<byte>, at: nat, ms: seq<Message>, end: nat, m: Message)
    requires Laid(b, at, ms, end) && |c| == |b| < 0x1_0000_0000 && end + GuestSize(m) <= |b|
    requires c[..end] == b[..end] && c[end..end + GuestSize(m)] == GuestBytes(m)
    ensures Laid(c, at, ms + [m], Min(|b|, end + Align4(GuestSize(m))))
    decreases |ms|
  {
    if ms == [] {
      assert ([m])[1..] == [];
      assert [] + [m] == [m];
    } else {
      LaidEnd(b, at, ms, end);
      var n := GuestSize(ms[0]);
      SameInside(b, c, at, n, end);
      LaidAppend(b, c, Min(|b|, at + Align4(n)), ms[1..], end, m);
      assert (ms + [m])[1..] == ms[1..] + [m];
    }
  }

  lemma GuestBytesRead(b: seq<byte>, at: nat, m: Message)
    requires GuestSize(m) < 0x1_0000_0000 && at + GuestSize(m) <= |b| && b[at..at + GuestSize(m)] == GuestBytes(m)
    ensures GuestMessage(b, at) && MessageAt(b, at) == m && NextGuest(b, at) == at + Align4(GuestSize(m))
  {
    var size := GuestSize(m);
    GuestBytesParts(m);
    SubSlice(b, at, size, GUEST_HEADER, size);
    assert At32(b, at) == size by { SubSlice(b, at, size, 0, 4); WordReadsBack(b, at, size); }
    assert At32(b, at + 4) == m.level by { SubSlice(b, at, size, 4, 8); WordReadsBack(b, at + 4, m.level); }
    assert At32(b, at + 8) == m.kind by { SubSlice(b, at, size, 8, 12); WordReadsBack(b, at + 8, m.kind); }
  }

  lemma GuestBytesParts(m: Message)
    requires GuestSize(m) < 0x1_0000_0000
    ensures var x := GuestBytes(m);
            x[0..4] == Le32(GuestSize(m)) && x[4..8] == Le32(m.level) && x[8..12] == Le32(m.kind) && x[12..GuestSize(m)] == m.data
  {
  }

  lemma {:induction false} LaidDecodes(b: seq<byte>, at: nat, ms: seq<Message>, end: nat)
    requires Laid(b, at, ms, end) && end <= |b|
    ensures GuestDecode(b[..end], at) == ms
    decreases |ms|
  {
    if ms != [] {
      LaidEnd(b, at, ms, end);
      var n := GuestSize(ms[0]);
      assert b[..end][at..at + n] == b[at..at + n];
      GuestBytesRead(b[..end], at, ms[0]);
      var next := Min(|b|, at + Align4(n));
      LaidDecodes(b, next, ms[1..], end);
      LaidEnd(b, next, ms[1..], end);
      if next < at + Align4(n) { assert GuestDecode(b[..end], next) == GuestDecode(b[..end], at + Align4(n)) == []; }
    }
  }

  /** The messages stand at the start of b, and `end` is where the next one would go. */
  ghost predicate Written(b: seq<byte>, done: seq<Message>, end: nat) {
    Laid(b, 0, done, end) && end <= |b| && end == Min(|b|, PaddedSize(done))
  }

  lemma WriteOne(b: seq<byte>, c: seq<byte>, done: seq<Message>, end: nat, m: Message)
    requires Written(b, done, end) && |b| < 0x1_0000_0000 && end + GuestSize(m) <= |b|
    requires c == Overwrite(b, end, GuestBytes(m))
    ensures Written(c, done + [m], Min(|b|, end + Align4(GuestSize(m))))
  {
    assert c[end..end + GuestSize(m)] == GuestBytes(m);
    LaidAppend(b, c, 0, done, end, m);
    assert (done + [m])[..|done|] == done;
  }

  /** The unread part of the host's list holds the messages from number i on. */
  ghost predicate Unread(host: seq<byte>, at: nat, ms: seq<Message>, i: nat) {
    i <= |ms| && HostOk(host, at) && HostDecode(host, at) == ms[i..]
  }

  lemma ReadOne(host: seq<byte>, at: nat, ms: seq<Message>, i: nat)
    requires Unread(host, at, ms, i) && at + HOST_HEADER <= |host|
    ensures HostMessage(host, at) && i < |ms| && HostMessageAt(host, at) == ms[i] && Unread(host, NextHost(host, at), ms, i + 1)
  {
    assert ms[i..][1..] == ms[i + 1..];
  }

  lemma ReadAll(host: seq<byte>, at: nat, ms: seq<Message>, i: nat)
    requires Unread(host, at, ms, i) && at + HOST_HEADER > |host|
    ensures i == |ms|
  {
  }

  /**
    The 32-bit sums of the loop are the true ones: a message that fits is followed by an offset below
    2^32, and one that does not fit is refused.
  */
  ghost predicate SumsSane(ms: seq<Message>, used: nat, capacity: nat)
    decreases |ms|
  {
    if ms == [] then true
    else if used + GuestSize(ms[0]) <= capacity then
      used + Align4(GuestSize(ms[0])) < 0x1_0000_0000 &&
      SumsSane(ms[1..], Min(capacity, used + Align4(GuestSize(ms[0]))), capacity)
    else !Taken(ms[0], used, capacity)
  }

  /** The loop takes the message for one that fits. */
  predicate Taken(m: Message, used: nat, capacity: nat) { Wrap(used + Wrap(GuestSize(m))) <= capacity }

  lemma {:induction false} FittingIsTaken(m: Message, used: nat, capacity: nat)
    requires used + GuestSize(m) <= capacity < 0x1_0000_0000
    ensures Taken(m, used, capacity)
  {
  }

  lemma {:induction false} SumsStep(ms: seq<Message>, i: nat, used: nat, capacity: nat)
    requires i < |ms|
    ensures SumsSane(ms[i..], used, capacity) <==>
            if used + GuestSize(ms[i]) <= capacity then
              used + Align4(GuestSize(ms[i])) < 0x1_0000_0000 && SumsSane(ms[i + 1..], Min(capacity, used + Align4(GuestSize(ms[i]))), capacity)
            else !Taken(ms[i], used, capacity)
  {
    assert ms[i..][1..] == ms[i + 1..];
  }

  /** A message of exactly 2^32 bytes in the guest's layout is taken for an empty one. */
  lemma {:induction false} BigMessageOverruns(m: Message, capacity: nat)
    requires GuestSize(m) == 0x1_0000_0000 && capacity < 0x1_0000_0000
    ensures !SumsSane([m], 0, capacity)
  {
  }

  /** The total of the messages, all padded, counted from the front. */
  function Total(ms: seq<Message>): nat { if ms == [] then 0 else Align4(GuestSize(ms[0])) + Total(ms[1..]) }

  /** Messages that need less than 2^32 bytes together are no problem in any buffer. */
  lemma {:induction false} SmallTotalIsSane(ms: seq<Message>, used: nat, capacity: nat)
    requires used + Total(ms) < 0x1_0000_0000
    ensures SumsSane(ms, used, capacity)
    decreases |ms|
  {
    if ms != [] { SmallTotalIsSane(ms[1..], Min(capacity, used + Align4(GuestSize(ms[0]))), capacity); }
  }

  lemma {:induction false} HostTotal(host: seq<byte>, at: nat)
    ensures Total(HostDecode(host, at)) <= if at <= |host| then |host| - at else 0
    decreases |host| - at
  {
    if HostMessage(host, at) { HostTotal(host, NextHost(host, at)); }
  }

  /** A host list below 2^31 bytes, the most the kernel takes, is always sane. */
  lemma {:induction false} KernelListsAreSane(host: seq<byte>, capacity: nat)
    requires |host| < 0x8000_0000
    ensures SumsSane(HostDecode(host, 0), 0, capacity)
  {
    HostTotal(host, 0);
    SmallTotalIsSane(HostDecode(host, 0), 0, capacity);
  }

  /** Laid messages fit, and if the next one does not, they are all that fit. */
  lemma {:induction false} LaidIsFit(b: seq<byte>, at: nat, ms: seq<Message>, i: nat, end: nat)
    requires i <= |ms| && Laid(b, at, ms[..i], end) && end <= |b| && (i < |ms| ==> end + GuestSize(ms[i]) > |b|)
    ensures at <= |b| && FitCount(ms, |b| - at) == i
    decreases i
  {
    LaidEnd(b, at, ms[..i], end);
    if i > 0 {
      assert ms[..i][1..] == ms[1..][..i - 1];
      LaidIsFit(b, Min(|b|, at + Align4(GuestSize(ms[0]))), ms[1..], i - 1, end);
    }
  }

  ghost predicate SameFrom(b: seq<byte>, c: seq<byte>, at: nat) {
    |b| == |c| && forall i :: at <= i < |b| ==> c[i] == b[i]
  }

  /** What control_to_guest leaves in a buffer that held `was`. */
  ghost predicate Received(ms: seq<Message>, was: seq<byte>, b: seq<byte>, used: nat, truncated: bool) {
    var k := FitCount(ms, |b|);
    && used == Min(|b|, PaddedSize(ms[..k])) && GuestDecode(b[..used], 0) == ms[..k]
    && truncated == (k < |ms|) && SameFrom(was, b, used)
  }

  lemma ReceivedThese(ms: seq<Message>, i: nat, was: seq<byte>, b: seq<byte>, used: nat)
    requires i <= |ms| && Written(b, ms[..i], used) && SameFrom(was, b, used)
    requires i < |ms| ==> used + GuestSize(ms[i]) > |b|
    ensures Received(ms, was, b, used, i < |ms|)
  {
    LaidIsFit(b, 0, ms, i, used);
    LaidDecodes(b, 0, ms[..i], used);
  }

  method PutMessage(dst: array<byte>, used: nat, m: Message, ghost was: seq<byte>, ghost done: seq<Message>) returns (next: nat)
    requires dst.Length < 0x1_0000_0000 && used + GuestSize(m) <= dst.Length
    requires Written(dst[..], done, used) && SameFrom(was, dst[..], used)
    modifies dst
    ensures next == Min(dst.Length, used + Align4(GuestSize(m)))
    ensures Written(dst[..], done + [m], next) && SameFrom(was, dst[..], next)
  {
    CopyIn(dst, used, GuestBytes(m));
    WriteOne(old(dst[..]), dst[..], done, used, m);
    next := Min(dst.Length, used + Align4(GuestSize(m)));
  }

  /** How control_to_guest ends: with these results, or with a 32-bit sum that wrapped. */
  datatype Delivery = Got(used: nat, truncated: bool) | Wraps

  /** One turn of its loop: the message is moved, does not fit, or is taken although it does not. */
  datatype Turn = Moved(next: nat) | Full | WrapsNow

  /** The first i messages are moved, and whether a sum wraps depends on the others only. */
  ghost predicate Moving(host: seq<byte>, at: nat, ms: seq<Message>, i: nat, was: seq<byte>, b: seq<byte>, used: nat) {
    && Unread(host, at, ms, i) && (SumsSane(ms[i..], used, |b|) <==> SumsSane(ms, 0, |b|))
    && Written(b, ms[..i], used) && SameFrom(was, b, used)
  }

  method MoveOne(host: seq<byte>, at: nat, dst: array<byte>, used: nat, ghost ms: seq<Message>, ghost i: nat, ghost was: seq<byte>)
    returns (r: Turn)
    requires Moving(host, at, ms, i, was, dst[..], used) && at + HOST_HEADER <= |host| && dst.Length < 0x1_0000_0000
    modifies dst
    ensures HostMessage(host, at)
    ensures r.Full? ==> SumsSane(ms, 0, dst.Length) && Received(ms, was, dst[..], used, true)
    ensures r.WrapsNow? ==> !SumsSane(ms, 0, dst.Length)
    ensures r.Moved? ==> Moving(host, NextHost(host, at), ms, i + 1, was, dst[..], r.next)
  {
    ReadOne(host, at, ms, i);
    var m := HostMessageAt(host, at);
    SumsStep(ms, i, used, dst.Length);
    if used + GuestSize(m) <= dst.Length { FittingIsTaken(m, used, dst.Length); }
    if !Taken(m, used, dst.Length) {
      ReceivedThese(ms, i, was, dst[..], used);
      return Full;
    }
    if used + GuestSize(m) > dst.Length || used + Align4(GuestSize(m)) >= 0x1_0000_0000 { return WrapsNow; }
    var next := PutMessage(dst, used, m, was, ms[..i]);
    assert ms[..i] + [m] == ms[..i + 1];
    return Moved(next);
  }

  /**
    Exactly if its sums are sane, the guest reads the longest prefix of the host's messages that fits,
    whole messages only, and MSG_CTRUNC says whether any are missing.
  */
  method ControlToGuest(host: seq<byte>, dst: array<byte>) returns (r: Delivery)
    requires HostOk(host, 0) && dst.Length < 0x1_0000_0000
    modifies dst
    ensures r.Got? <==> SumsSane(HostDecode(host, 0), 0, dst.Length)
    ensures r.Got? ==> Received(HostDecode(host, 0), old(dst[..]), dst[..], r.used, r.truncated)
  {
    ghost var ms, was, i := HostDecode(host, 0), dst[..], 0;
    var at := 0;
    var used: nat := 0;
    while at + HOST_HEADER <= |host|
      invariant Moving(host, at, ms, i, was, dst[..], used)
      decreases |host| - at
    {
      var turn := MoveOne(host, at, dst, used, ms, i, was);
      match turn {
        case Full => return Got(used, true);
        case WrapsNow => return Wraps;
        case Moved(next) => used := next;
      }
      i, at := i + 1, NextHost(host, at);
    }
    MovedAll(host, at, ms, i, was, dst[..], used);
    return Got(used, false);
  }

  lemma {:induction false} MovedAll(host: seq<byte>, at: nat, ms: seq<Message>, i: nat, was: seq<byte>, b: seq<byte>, used: nat)
    requires Moving(host, at, ms, i, was, b, used) && at + HOST_HEADER > |host|
    ensures SumsSane(ms, 0, |b|) && Received(ms, was, b, used, false)
  {
    ReadAll(host, at, ms, i);
    ReceivedThese(ms, i, was, b, used);
  }

  // ---- Round trip and sizing ----

  /** One message takes at most twice its unpadded guest size on the host. */
  lemma HostAtMostDouble(n: nat)
    ensures HOST_HEADER + Align8(n) <= 2 * (GUEST_HEADER + n)
  {
  }

  lemma {:induction false} GuestTotal(src: seq<byte>, at: nat)
    requires EndsBelow(src, at) && at < 0x1_0000_0000
    ensures at + Total(GuestDecode(src, at)) < 0x1_0000_0000
    decreases |src| - at
  {
    if GuestMessage(src, at) { GuestTotal(src, NextGuest(src, at)); }
  }

  /**
    Guest to host and back to a guest buffer of any size: exactly for the lists on which nothing wraps,
    the same messages, or the longest prefix that fits.
  */
  method RoundTrip(src: seq<byte>, dst: array<byte>) returns (r: Delivery)
    requires |src| < 0x1_0000_0000 && dst.Length < 0x1_0000_0000
    modifies dst
    ensures r.Got? <==> LengthsSane(src, 0) && EndsBelow(src, 0)
    ensures r.Got? ==> Received(GuestDecode(src, 0), old(dst[..]), dst[..], r.used, r.truncated)
    ensures r.Got? ==> (!r.truncated <==> GuestNeed(GuestDecode(src, 0)) <= dst.Length)
    ensures r.Got? && !r.truncated ==> GuestDecode(dst[..r.used], 0) == GuestDecode(src, 0)
  {
    var host := ControlToHost(src);
    if !host.Translated? { return Wraps; }
    ghost var ms := GuestDecode(src, 0);
    HostReadsGuestMessages(src);
    GuestTotal(src, 0);
    SmallTotalIsSane(ms, 0, dst.Length);
    r := ControlToGuest(host.bytes, dst);
    FitsIff(ms, dst.Length);
    assert ms[..|ms|] == ms;
    assert dst[..][..r.used] == dst[..r.used];
  }

  lemma FitsIff(ms: seq<Message>, room: nat)
    ensures FitCount(ms, room) == |ms| <==> GuestNeed(ms) <= room
  {
    FitIsLongest(ms, room);
    assert ms[..|ms|] == ms;
  }

  /** A list that fits msg_controllen in the guest's layout fits the buffer recvmsg gives the host. */
  lemma {:induction false} HostBufferSuffices(ms: seq<Message>, controllen: nat)
    requires AllSmall(ms) && GuestNeed(ms) <= controllen
    ensures |HostEncode(ms)| <= 2 * controllen + 64
    decreases |ms|
  {
    if ms != [] {
      HostAtMostDouble(|ms[0].data|);
      if |ms| > 1 {
        HostBufferSuffices(ms[1..], controllen - Align4(GuestSize(ms[0])));
      }
    }
  }
}
