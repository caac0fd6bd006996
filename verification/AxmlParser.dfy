/** The binary manifest parser, binary_manifest of tools/apk_preflight.py. Every exception is None. */
module AxmlParser {
  import opened Wrappers
  import opened Words
  import opened AxmlStrings

  const NO_INDEX := 0xFFFF_FFFF
  const POOL := 1
  const RESOURCE_MAP := 0x180
  const START := 0x102
  const END := 0x103

  /** A dictionary of attributes, as the element tree holds it. */
  datatype Element = Element(tag: string, attrs: map<string, string>, children: seq<Element>)

  /** The strings, the open elements with the outermost first, and the root once it is closed. */
  datatype Parser = Parser(strings: Option<seq<string>>, stack: seq<Element>, root: Option<Element>)

  // ---- Attributes ----

  function Digit(n: nat): char
    requires n < 16
  {
    "0123456789abcdef"[n]
  }

  function Decimal(n: nat): string { if n < 10 then [Digit(n)] else Decimal(n / 10) + [Digit(n % 10)] }

  function Hex(n: nat, width: nat): string { if width == 0 then "" else Hex(n / 16, width - 1) + [Digit(n % 16)] }

  function Lookup(ss: seq<string>, i: u32): Option<string> {
    if i == NO_INDEX then Some("") else if i >= |ss| then None else Some(ss[i])
  }

  function KeyOf(ss: seq<string>, ns: u32, name: u32): Option<string> {
    var n := Lookup(ss, name);
    if ns == NO_INDEX then n
    else
      var space := Lookup(ss, ns);
      if space.None? || n.None? then None else Some("{" + space.value + "}" + n.value)
  }

  function ValueOf(ss: seq<string>, raw: u32, kind: byte, value: u32): Option<string> {
    if raw != NO_INDEX then Lookup(ss, raw)
    else if kind == 3 then Lookup(ss, value)
    else if kind == 18 then Some(if value != 0 then "true" else "false")
    else if kind == 16 || kind == 17 then Some(Decimal(value))
    else Some("@0x" + Hex(value, 8))
  }

  /** Key and value of the attribute at this offset. */
  function AttributeAt(b: seq<byte>, at: nat, ss: seq<string>): Option<(string, string)>
    requires at + 20 <= |b|
  {
    var key, value := KeyOf(ss, At32(b, at), At32(b, at + 4)), ValueOf(ss, At32(b, at + 8), b[at + 15], At32(b, at + 16));
    if key.None? || value.None? then None else Some((key.value, value.value))
  }

  function AttrStart(b: seq<byte>): nat
    requires |b| >= 36
  {
    At16(b, 24)
  }

  function AttrSize(b: seq<byte>): nat
    requires |b| >= 36
  {
    At16(b, 26)
  }

  function AttrCount(b: seq<byte>): nat
    requires |b| >= 36
  {
    At16(b, 28)
  }

  function AttrPos(b: seq<byte>, i: nat): nat
    requires |b| >= 36
  {
    16 + AttrStart(b) + Scale(i, AttrSize(b))
  }

  predicate AttrsFit(b: seq<byte>) {
    |b| >= 36 && AttrSize(b) >= 20 && AttrCount(b) <= 4096 && AttrPos(b, AttrCount(b)) <= |b|
  }

  lemma AttrInside(b: seq<byte>, i: nat)
    requires AttrsFit(b) && i < AttrCount(b)
    ensures AttrPos(b, i) + AttrSize(b) == AttrPos(b, i + 1) <= AttrPos(b, AttrCount(b)) <= |b|
  {
    Times(i, AttrCount(b), AttrSize(b));
  }

  /** i * size. */
  function Scale(i: nat, size: nat): nat { if i == 0 then 0 else Scale(i - 1, size) + size }

  lemma {:induction false} ScaleIsTimes(i: nat, size: nat)
    ensures Scale(i, size) == i * size
  {
    if i > 0 { ScaleIsTimes(i - 1, size); }
  }

  lemma {:induction false} Times(i: nat, n: nat, size: nat)
    requires i < n
    ensures Scale(i, size) + size == Scale(i + 1, size) <= Scale(n, size)
  {
    if i + 1 < n { Times(i, n - 1, size); }
  }

  /** Every attribute of a start chunk, in order. */
  function KeyValues(b: seq<byte>, ss: seq<string>): (kvs: seq<Option<(string, string)>>)
    requires AttrsFit(b)
    ensures |kvs| == AttrCount(b)
  {
    seq(AttrCount(b), i requires 0 <= i < AttrCount(b) => KeyValue(b, i, ss))
  }

  function KeyValue(b: seq<byte>, i: nat, ss: seq<string>): Option<(string, string)>
    requires AttrsFit(b) && i < AttrCount(b)
  {
    AttrInside(b, i);
    AttributeAt(b, AttrPos(b, i), ss)
  }

  /** The dictionary of the attributes; a repeated key is an error. */
  function Collect(kvs: seq<Option<(string, string)>>): Option<map<string, string>> {
    if kvs == [] then Some(map[]) else AddAttribute(Collect(kvs[..|kvs| - 1]), kvs[|kvs| - 1])
  }

  function AddAttribute(m: Option<map<string, string>>, kv: Option<(string, string)>): Option<map<string, string>> {
    if m.None? || kv.None? || kv.value.0 in m.value then None else Some(m.value[kv.value.0 := kv.value.1])
  }

  /** The element that a start chunk opens. */
  function StartTag(b: seq<byte>, ss: seq<string>): Option<Element>
    requires |b| >= 8
  {
    if At16(b, 2) != 16 || |b| < 36 then None
    else
      var tag := Lookup(ss, At32(b, 20));
      if tag.None? || !AttrsFit(b) then None
      else
        var attrs := Collect(KeyValues(b, ss));
        if attrs.None? then None else Some(Element(tag.value, attrs.value, []))
  }

  // ---- Chunks ----

  /** A chunk header at the start of b whose chunk lies inside b. */
  predicate ChunkOk(b: seq<byte>) {
    |b| >= 8 && 8 <= At16(b, 2) <= At32(b, 4) <= |b|
  }

  function Open(p: Parser, e: Element): Option<Parser> {
    if p.stack == [] && p.root.Some? then None else Some(p.(stack := p.stack + [e]))
  }

  function AddChild(parent: Element, e: Element): Element { parent.(children := parent.children + [e]) }

  /** Closes the innermost element: it becomes a child of the next, or the root. */
  function Close(p: Parser): Parser
    requires p.stack != []
  {
    var n := |p.stack| - 1;
    if n == 0 then p.(stack := [], root := Some(p.stack[0]))
    else p.(stack := p.stack[..n - 1] + [AddChild(p.stack[n - 1], p.stack[n])])
  }

  /** An end chunk reads its name 20 bytes on, even if that is past its own end. */
  function EndTag(p: Parser, b: seq<byte>): Option<Parser> {
    if p.stack == [] || p.strings.None? || |b| < 24 || At32(b, 20) >= |p.strings.value| then None
    else if p.stack[|p.stack| - 1].tag != p.strings.value[At32(b, 20)] then None
    else Some(Close(p))
  }

  /** One chunk; `rest` is the file from the chunk on. */
  function Step(p: Parser, chunk: seq<byte>, rest: seq<byte>): Option<Parser>
    requires |chunk| >= 8
  {
    var kind := At16(chunk, 0);
    if kind == POOL then
      var ss := StringPool(chunk);
      if ss.None? then None else Some(p.(strings := ss))
    else if kind == START then
      if p.strings.None? then None
      else
        var e := StartTag(chunk, p.strings.value);
        if e.None? then None else Open(p, e.value)
    else if kind == END then EndTag(p, rest)
    else Some(p)
  }

  function Walk(rest: seq<byte>, p: Parser): Option<Parser> {
    if rest == [] then Some(p)
    else if !ChunkOk(rest) then None
    else
      var size := At32(rest, 4);
      var next := Step(p, rest[..size], rest);
      if next.None? then None else Walk(rest[size..], next.value)
  }

  predicate FileOk(data: seq<byte>) {
    |data| >= 8 && At16(data, 0) == 3 && At16(data, 2) == 8 && At32(data, 4) == |data|
  }

  const EMPTY := Parser(None, [], None)

  function Finish(p: Option<Parser>): Option<Element> { if p.None? || p.value.stack != [] then None else p.value.root }

  /** binary_manifest. */
  function Parse(data: seq<byte>): Option<Element> {
    if !FileOk(data) then None else Finish(Walk(data[8..], EMPTY))
  }

  // ---- The loops of binary_manifest ----

  method ReadAttributes(b: seq<byte>, ss: seq<string>) returns (r: Option<map<string, string>>)
    requires AttrsFit(b)
    ensures r == Collect(KeyValues(b, ss))
  {
    ghost var kvs := KeyValues(b, ss);
    var attrs: map<string, string> := map[];
    for i := 0 to AttrCount(b)
      invariant Collect(kvs[..i]) == Some(attrs)
    {
      var kv := KeyValue(b, i, ss);
      assert kvs[..i + 1][..i] == kvs[..i];
      if kv.None? || kv.value.0 in attrs {
        CollectStaysNone(kvs, i + 1);
        return None;
      }
      attrs := attrs[kv.value.0 := kv.value.1];
    }
    assert kvs[..|kvs|] == kvs;
    return Some(attrs);
  }

  lemma {:induction false} CollectStaysNone(kvs: seq<Option<(string, string)>>, n: nat)
    requires n <= |kvs| && Collect(kvs[..n]).None?
    ensures Collect(kvs).None?
    decreases |kvs|
  {
    if n == |kvs| {
      assert kvs[..n] == kvs;
    } else {
      assert kvs[..|kvs| - 1][..n] == kvs[..n];
      CollectStaysNone(kvs[..|kvs| - 1], n);
    }
  }

  method ReadStartTag(b: seq<byte>, ss: seq<string>) returns (r: Option<Element>)
    requires |b| >= 8
    ensures r == StartTag(b, ss)
  {
    if At16(b, 2) != 16 || |b| < 36 { return None; }
    var tag := Lookup(ss, At32(b, 20));
    if tag.None? || !AttrsFit(b) { return None; }
    var attrs := ReadAttributes(b, ss);
    if attrs.None? { return None; }
    return Some(Element(tag.value, attrs.value, []));
  }

  lemma {:induction false} WalkNext(rest: seq<byte>, p: Parser)
    requires ChunkOk(rest)
    ensures var size := At32(rest, 4); var next := Step(p, rest[..size], rest);
            Walk(rest, p) == if next.None? then None else Walk(rest[size..], next.value)
  {
  }

  method BinaryManifest(data: seq<byte>) returns (r: Option<Element>)
    ensures r == Parse(data)
  {
    if !FileOk(data) { return None; }
    var p, pos := EMPTY, 8;
    while pos < |data|
      invariant 8 <= pos <= |data|
      invariant Walk(data[8..], EMPTY) == Walk(data[pos..], p)
    {
      var rest := data[pos..];
      if !ChunkOk(rest) { return None; }
      WalkNext(rest, p);
      var size := At32(rest, 4);
      var next := TakeStep(p, rest[..size], rest);
      if next.None? { return None; }
      assert rest[size..] == data[pos + size..];
      p, pos := next.value, pos + size;
    }
    return Finish(Some(p));
  }

  method TakeStep(p: Parser, chunk: seq<byte>, rest: seq<byte>) returns (r: Option<Parser>)
    requires |chunk| >= 8
    ensures r == Step(p, chunk, rest)
  {
    var kind := At16(chunk, 0);
    if kind == POOL {
      var ss := StringPool(chunk);
      return if ss.None? then None else Some(p.(strings := ss));
    }
    if kind == START {
      if p.strings.None? { return None; }
      var e := ReadStartTag(chunk, p.strings.value);
      if e.None? { return None; }
      return Open(p, e.value);
    }
    if kind == END { return EndTag(p, rest); }
    return Some(p);
  }

  // ---- A file as a list of chunks ----

  /** A whole chunk, long enough to hold its own name if it is an end chunk. */
  predicate Whole(b: seq<byte>) { ChunkOk(b) && At32(b, 4) == |b| && (At16(b, 0) == END ==> |b| >= 24) }

  predicate AllWhole(cs: seq<seq<byte>>) { forall i :: 0 <= i < |cs| ==> Whole(cs[i]) }

  function Concat(cs: seq<seq<byte>>): seq<byte> { if cs == [] then [] else cs[0] + Concat(cs[1..]) }

  function Fold(p: Parser, cs: seq<seq<byte>>): Option<Parser>
    requires AllWhole(cs)
    decreases |cs|
  {
    if cs == [] then Some(p)
    else
      var next := Step(p, cs[0], cs[0]);
      if next.None? then None else Fold(next.value, cs[1..])
  }

  lemma SameHead(b: seq<byte>, c: seq<byte>)
    requires Whole(b)
    ensures ChunkOk(b + c) && At32(b + c, 4) == |b| && (|b| >= 24 ==> At32(b + c, 20) == At32(b, 20))
  {
  }

  lemma StepOnWhole(p: Parser, b: seq<byte>, c: seq<byte>)
    requires Whole(b)
    ensures Step(p, b, b + c) == Step(p, b, b)
  {
    SameHead(b, c);
  }

  /** Walking over whole chunks is folding over the list of them. */
  lemma {:induction false} WalkIsFold(p: Parser, cs: seq<seq<byte>>)
    requires AllWhole(cs)
    ensures Walk(Concat(cs), p) == Fold(p, cs)
    decreases |cs|
  {
    if cs != [] {
      var rest := Concat(cs[1..]);
      SameHead(cs[0], rest);
      assert (cs[0] + rest)[..|cs[0]|] == cs[0] && (cs[0] + rest)[|cs[0]|..] == rest;
      StepOnWhole(p, cs[0], rest);
      if Step(p, cs[0], cs[0]).Some? { WalkIsFold(Step(p, cs[0], cs[0]).value, cs[1..]); }
    }
  }
}
