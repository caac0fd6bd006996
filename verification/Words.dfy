/** Little-endian words in byte sequences, shared by the binary-format modules. */
module Words {
  type byte = n: int | 0 <= n < 256
  type u16 = n: int | 0 <= n < 0x1_0000
  type u32 = n: int | 0 <= n < 0x1_0000_0000

  function Le16(w: u16): (b: seq<byte>)
    ensures |b| == 2
  {
    [w % 256, w / 256]
  }

  function Le32(w: u32): (b: seq<byte>)
    ensures |b| == 4
  {
    Le16(w % 0x1_0000) + Le16(w / 0x1_0000)
  }

  function At16(b: seq<byte>, at: nat): u16
    requires at + 2 <= |b|
  {
    var low: int, high: int := b[at], b[at + 1];
    low + 0x100 * high
  }

  function At32(b: seq<byte>, at: nat): u32
    requires at + 4 <= |b|
  {
    var low: int, high: int := At16(b, at), At16(b, at + 2);
    low + 0x1_0000 * high
  }

  lemma ReadBack16(w: u16)
    ensures At16(Le16(w), 0) == w
  {
  }

  lemma ReadBack32(w: u32)
    ensures At32(Le32(w), 0) == w
  {
    ReadBack16(w % 0x1_0000);
    ReadBack16(w / 0x1_0000);
  }

  /** A word depends only on its own four bytes. */
  lemma SameWord(a: seq<byte>, i: nat, b: seq<byte>, j: nat)
    requires i + 4 <= |a| && j + 4 <= |b| && a[i..i + 4] == b[j..j + 4]
    ensures At32(a, i) == At32(b, j) && At16(a, i) == At16(b, j)
  {
    var x, y := a[i..i + 4], b[j..j + 4];
    assert a[i] == x[0] && a[i + 1] == x[1] && a[i + 2] == x[2] && a[i + 3] == x[3];
    assert b[j] == y[0] && b[j + 1] == y[1] && b[j + 2] == y[2] && b[j + 3] == y[3];
  }

  lemma SubSlice(b: seq<byte>, at: nat, n: nat, i: nat, j: nat)
    requires at + n <= |b| && i <= j <= n
    ensures b[at..at + n][i..j] == b[at + i..at + j]
  {
    var x := b[at..at + n];
    forall k | 0 <= k < j - i ensures x[i..j][k] == b[at + i..at + j][k] {
      assert x[i..j][k] == x[i + k] == b[at + (i + k)];
    }
  }

  /** The bytes of a sequence of words. */
  function Flat(ws: seq<u32>): (b: seq<byte>)
    ensures |b| == 4 * |ws|
  {
    if ws == [] then [] else Le32(ws[0]) + Flat(ws[1..])
  }

  lemma {:induction false} FlatAt(ws: seq<u32>, k: nat)
    requires k < |ws|
    ensures At32(Flat(ws), 4 * k) == ws[k]
  {
    if k == 0 {
      ReadBack32(ws[0]);
    } else {
      FlatAt(ws[1..], k - 1);
      SameWord(Flat(ws), 4 * k, Flat(ws[1..]), 4 * (k - 1));
    }
  }

  lemma {:induction false} PartWord(m: seq<byte>, at: nat, x: seq<byte>, o: nat)
    requires at + |x| <= |m| && m[at..at + |x|] == x && o + 4 <= |x|
    ensures At32(m, at + o) == At32(x, o)
  {
    assert x[o] == m[at + o] && x[o + 1] == m[at + o + 1] && x[o + 2] == m[at + o + 2] && x[o + 3] == m[at + o + 3];
  }

  /** Words written somewhere can be read there. */
  lemma {:induction false} WordsReadBack(m: seq<byte>, at: nat, ws: seq<u32>, k: nat)
    requires at + 4 * |ws| <= |m| && m[at..at + 4 * |ws|] == Flat(ws) && k < |ws|
    ensures At32(m, at + 4 * k) == ws[k]
  {
    FlatAt(ws, k);
    PartWord(m, at, Flat(ws), 4 * k);
  }

  /** A sum or difference in 32 bits. */
  function Wrap(n: int): u32 { if 0 <= n < 0x1_0000_0000 then n else n % 0x1_0000_0000 }

  function Overwrite(b: seq<byte>, at: nat, bs: seq<byte>): (r: seq<byte>)
    requires at + |bs| <= |b|
    ensures |r| == |b|
    ensures forall k :: 0 <= k < |b| ==> r[k] == if at <= k < at + |bs| then bs[k - at] else b[k]
  {
    b[..at] + bs + b[at + |bs|..]
  }

  lemma {:induction false} OverwriteReads(b: seq<byte>, at: nat, bs: seq<byte>)
    requires at + |bs| <= |b|
    ensures Overwrite(b, at, bs)[at..at + |bs|] == bs
  {
  }

  method CopyIn(dst: array<byte>, at: nat, bs: seq<byte>)
    requires at + |bs| <= dst.Length
    modifies dst
    ensures dst[..] == Overwrite(old(dst[..]), at, bs)
  {
    for i := 0 to |bs|
      invariant forall k :: 0 <= k < dst.Length ==> dst[k] == if at <= k < at + i then bs[k - at] else old(dst[..])[k]
    {
      dst[at + i] := bs[i];
    }
  }
}
