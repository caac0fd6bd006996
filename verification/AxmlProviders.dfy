/** The strings and the provider elements that tools/axml_inject.py adds to a manifest. */
module AxmlProviders {
  import opened Wrappers
  import opened Words
  import opened AxmlStrings
  import opened AxmlParser
  import opened AxmlEdit

  // ---- Strings ----

  function BootstrapClass(i: nat): string { "com.zettabridge.bootstrap.BootstrapProvider" + (if i == 0 then "" else Decimal(i)) }

  function Authority(package: string, i: nat): string {
    package + ".zettabridge.bootstrap" + (if i == 0 then "" else "." + Decimal(i))
  }

  /** The attribute names whose resource ids the map must hold, with those ids. */
  const ATTRIBUTES: seq<(string, u32)> :=
    [("name", 16842755), ("exported", 16842768), ("process", 16842769), ("authorities", 16842776),
     ("initOrder", 16842778), ("extractNativeLibs", 16844010)]

  function Classes(n: nat): seq<string> { seq(n, i requires 0 <= i < n => BootstrapClass(i)) }

  function Authorities(package: string, n: nat): seq<string> { seq(n, i requires 0 <= i < n => Authority(package, i)) }

  function Named(ps: seq<Option<string>>): seq<string> {
    if ps == [] then [] else (if ps[0].None? then [] else [ps[0].value]) + Named(ps[1..])
  }

  /** Every string that the new chunks refer to. */
  function Wanted(package: string, ps: seq<Option<string>>): seq<string> {
    ["provider"] + Classes(|ps|) + Authorities(package, |ps|) + Named(ps) +
    ["name", "exported", "process", "authorities", "initOrder", "extractNativeLibs"]
  }

  function AddMissing(ss: seq<string>, wanted: seq<string>): seq<string>
    decreases |wanted|
  {
    if wanted == [] then ss else AddMissing(if wanted[0] in ss then ss else ss + [wanted[0]], wanted[1..])
  }

  /** The first position of a string. */
  function Index(ss: seq<string>, s: string): (i: nat)
    requires s in ss
    ensures i < |ss| && ss[i] == s && s !in ss[..i]
  {
    if ss[0] == s then 0 else 1 + Index(ss[1..], s)
  }

  lemma {:induction false} MissingAdded(ss: seq<string>, wanted: seq<string>)
    ensures var more := AddMissing(ss, wanted); |ss| <= |more| && more[..|ss|] == ss
    ensures forall w :: w in wanted ==> w in AddMissing(ss, wanted)
    decreases |wanted|
  {
    if wanted != [] {
      var next := if wanted[0] in ss then ss else ss + [wanted[0]];
      MissingAdded(next, wanted[1..]);
      var more := AddMissing(ss, wanted);
      assert more[..|ss|] == more[..|next|][..|ss|];
      assert wanted[0] in more[..|next|];
    }
  }

  lemma {:induction false} NamedHas(ps: seq<Option<string>>, i: nat)
    requires i < |ps| && ps[i].Some?
    ensures ps[i].value in Named(ps)
  {
    if i > 0 { NamedHas(ps[1..], i - 1); }
  }

  // ---- The provider elements ----

  /** All the strings of a provider are in the pool. */
  predicate HasStrings(ss: seq<string>, class_: string, authority: string, process: Option<string>) {
    && |ss| <= MAX_STRINGS && "provider" in ss && ANDROID_URI in ss && "name" in ss && "exported" in ss && "process" in ss
    && "authorities" in ss && "initOrder" in ss && class_ in ss && authority in ss && (process.Some? ==> process.value in ss)
  }

  function TextSpec(ss: seq<string>, name: string, value: string): Spec
    requires |ss| <= MAX_STRINGS && ANDROID_URI in ss && name in ss && value in ss
  {
    Spec(Index(ss, ANDROID_URI), Index(ss, name), Index(ss, value), 3, Index(ss, value))
  }

  function NumberSpec(ss: seq<string>, name: string, kind: byte, value: u32): Spec
    requires |ss| <= MAX_STRINGS && ANDROID_URI in ss && name in ss
  {
    Spec(Index(ss, ANDROID_URI), Index(ss, name), NO_INDEX, kind, value)
  }

  function ProviderSpecs(ss: seq<string>, class_: string, authority: string, process: Option<string>): (r: seq<Spec>)
    requires HasStrings(ss, class_, authority, process)
    ensures |r| == if process.Some? then 5 else 4
  {
    [TextSpec(ss, "name", class_)] + [NumberSpec(ss, "exported", 18, 0)] +
    (if process.Some? then [TextSpec(ss, "process", process.value)] else []) +
    [TextSpec(ss, "authorities", authority)] + [NumberSpec(ss, "initOrder", 16, 0x7FFF_FFFF)]
  }

  /** provider_chunks: the start and the end chunk. */
  function ProviderChunks(ss: seq<string>, class_: string, authority: string, process: Option<string>): seq<seq<byte>>
    requires HasStrings(ss, class_, authority, process)
  {
    [StartBytes(Index(ss, "provider"), ProviderSpecs(ss, class_, authority, process)), EndBytes(Index(ss, "provider"))]
  }

  /** The element a reader finds there. */
  function ProviderElement(class_: string, authority: string, process: Option<string>): Element {
    var base := map[Android("name") := class_, Android("exported") := "false"];
    var own := if process.Some? then base[Android("process") := process.value] else base;
    Element("provider", own[Android("authorities") := authority][Android("initOrder") := Decimal(0x7FFF_FFFF)], [])
  }

  lemma TextSpecReads(ss: seq<string>, name: string, value: string)
    requires |ss| <= MAX_STRINGS && ANDROID_URI in ss && name in ss && value in ss
    ensures TextSpec(ss, name, value).KeyValue(ss) == Some((Android(name), value))
  {
  }

  lemma NumberSpecReads(ss: seq<string>, name: string, kind: byte, value: u32)
    requires |ss| <= MAX_STRINGS && ANDROID_URI in ss && name in ss && (kind == 18 || kind == 16)
    ensures NumberSpec(ss, name, kind, value).KeyValue(ss) ==
            Some((Android(name), if kind == 16 then Decimal(value) else if value != 0 then "true" else "false"))
  {
  }

  lemma {:induction false} CollectLast(kvs: seq<Option<(string, string)>>, kv: Option<(string, string)>)
    ensures Collect(kvs + [kv]) == AddAttribute(Collect(kvs), kv)
  {
    assert (kvs + [kv])[..|kvs|] == kvs;
  }

  lemma AndroidDiffers(a: string, b: string)
    requires |a| != |b|
    ensures Android(a) != Android(b)
  {
    assert |Android(a)| == |ANDROID_URI| + 2 + |a| && |Android(b)| == |ANDROID_URI| + 2 + |b|;
  }

  function Pairs(class_: string, authority: string, process: Option<string>): seq<Option<(string, string)>> {
    [Some((Android("name"), class_))] + [Some((Android("exported"), "false"))] +
    (if process.Some? then [Some((Android("process"), process.value))] else []) +
    [Some((Android("authorities"), authority))] + [Some((Android("initOrder"), Decimal(0x7FFF_FFFF)))]
  }

  lemma {:induction false} PairsCollect(class_: string, authority: string, process: Option<string>)
    ensures Collect(Pairs(class_, authority, process)) == Some(ProviderElement(class_, authority, process).attrs)
  {
    var a: seq<Option<(string, string)>> := [Some((Android("name"), class_))];
    var b := a + [Some((Android("exported"), "false"))];
    var c := if process.Some? then b + [Some((Android("process"), process.value))] else b;
    var d := c + [Some((Android("authorities"), authority))];
    assert a == [] + a;
    CollectLast([], a[0]);
    CollectLast(a, Some((Android("exported"), "false")));
    if process.Some? { CollectLast(b, Some((Android("process"), process.value))); }
    CollectLast(c, Some((Android("authorities"), authority)));
    CollectLast(d, Some((Android("initOrder"), Decimal(0x7FFF_FFFF))));
    AndroidDiffers("name", "exported");
    AndroidDiffers("process", "name");
    AndroidDiffers("process", "exported");
    AndroidDiffers("authorities", "name");
    AndroidDiffers("authorities", "exported");
    AndroidDiffers("authorities", "process");
    AndroidDiffers("initOrder", "name");
    AndroidDiffers("initOrder", "exported");
    AndroidDiffers("initOrder", "process");
    AndroidDiffers("initOrder", "authorities");
    assert Pairs(class_, authority, process) == d + [Some((Android("initOrder"), Decimal(0x7FFF_FFFF)))];
  }

  lemma {:induction false} ReadConcat(a: seq<Spec>, b: seq<Spec>, ss: seq<string>)
    ensures ReadSpecs(a + b, ss) == ReadSpecs(a, ss) + ReadSpecs(b, ss)
  {
  }

  lemma {:induction false} ReadOne(s: Spec, ss: seq<string>)
    ensures ReadSpecs([s], ss) == [s.KeyValue(ss)]
  {
  }

  lemma {:induction false} SpecsArePairs(ss: seq<string>, class_: string, authority: string, process: Option<string>)
    requires HasStrings(ss, class_, authority, process)
    ensures ReadSpecs(ProviderSpecs(ss, class_, authority, process), ss) == Pairs(class_, authority, process)
  {
    var n, e := TextSpec(ss, "name", class_), NumberSpec(ss, "exported", 18, 0);
    var p: seq<Spec> := if process.Some? then [TextSpec(ss, "process", process.value)] else [];
    var a, o := TextSpec(ss, "authorities", authority), NumberSpec(ss, "initOrder", 16, 0x7FFF_FFFF);
    ReadConcat([n] + [e] + p + [a], [o], ss);
    ReadConcat([n] + [e] + p, [a], ss);
    ReadConcat([n] + [e], p, ss);
    ReadConcat([n], [e], ss);
    ReadOne(n, ss);
    ReadOne(e, ss);
    ReadOne(a, ss);
    ReadOne(o, ss);
    TextSpecReads(ss, "name", class_);
    NumberSpecReads(ss, "exported", 18, 0);
    if process.Some? {
      ReadOne(TextSpec(ss, "process", process.value), ss);
      TextSpecReads(ss, "process", process.value);
    }
    TextSpecReads(ss, "authorities", authority);
    NumberSpecReads(ss, "initOrder", 16, 0x7FFF_FFFF);
  }

  /** The parser reads the provider's start chunk as that element. */
  lemma {:induction false} ProviderReads(ss: seq<string>, class_: string, authority: string, process: Option<string>)
    requires HasStrings(ss, class_, authority, process)
    ensures StartTag(ProviderChunks(ss, class_, authority, process)[0], ss) == Some(ProviderElement(class_, authority, process))
  {
    SpecsArePairs(ss, class_, authority, process);
    PairsCollect(class_, authority, process);
    StartBytesRead(Index(ss, "provider"), ProviderSpecs(ss, class_, authority, process), ss);
  }
}
