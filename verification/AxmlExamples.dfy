/**
  Two manifests that tools/axml_inject.py accepts: one that it preserves, and one whose application
  element has attributes inside its own header, of which it changes one.
*/
module AxmlExamples {
  import opened Wrappers
  import opened Words
  import opened AxmlStrings
  import opened AxmlParser
  import opened AxmlEdit
  import opened AxmlProviders
  import opened AxmlInject
  import opened AxmlPreserves
  import P = AxmlProcesses

  // ---- The files ----

  function Strings(): seq<string> { EXAMPLE_STRINGS + ["manifest", "package", "p.q"] }

  const PACKAGE := Spec(NO_INDEX, 7, 8, 3, 8)

  /** <manifest package="p.q"> with the given start chunk of the application inside. */
  function Parts(old_: seq<string>, app: seq<byte>): (cs: seq<seq<byte>>)
    requires Packable(old_)
    ensures |cs| == 5
  {
    [MakePool(old_), StartBytes(6, [PACKAGE]), app, EndBytes(0), EndBytes(6)]
  }

  function File(cs: seq<seq<byte>>): (data: seq<byte>)
    requires 8 + |Concat(cs)| < 0x1_0000_0000
    ensures |data| == 8 + |Concat(cs)|
  {
    Le16(3) + Le16(8) + Le32(8 + |Concat(cs)|) + Concat(cs)
  }

  // ---- Pools of short strings ----

  lemma {:induction false} EncodeLength(s: string)
    ensures |Encode(s)| <= 4 * |s| && Units(s) <= 2 * |s|
  {
    if s != "" { EncodeLength(s[1..]); }
  }

  ghost predicate Short(ss: seq<string>) { forall i :: 0 <= i < |ss| ==> |ss[i]| <= 100 }

  lemma {:induction false} ShortEntry(s: string)
    requires |s| <= 100
    ensures Entry(s).Some? && |Entry(s).value| <= 410
  {
    EncodeLength(s);
  }

  lemma {:induction false} ShortPayload(ss: seq<string>)
    requires Short(ss)
    ensures Encodable(ss) && |Payload(ss)| <= 410 * |ss|
    decreases |ss|
  {
    forall s | s in ss ensures Entry(s).Some? { ShortEntry(s); }
    if ss != [] {
      ShortPayload(ss[..|ss| - 1]);
      ShortEntry(ss[|ss| - 1]);
    }
  }

  lemma {:induction false} ShortPool(ss: seq<string>)
    requires Short(ss) && |ss| <= 1000
    ensures Packable(ss) && PoolSize(ss) <= 1_000_000
  {
    ShortPayload(ss);
  }

  lemma {:induction false} AddedShort(ss: seq<string>, wanted: seq<string>)
    requires Short(ss) && Short(wanted)
    ensures Short(AddMissing(ss, wanted)) && |AddMissing(ss, wanted)| <= |ss| + |wanted|
    decreases |wanted|
  {
    if wanted != [] { AddedShort(if wanted[0] in ss then ss else ss + [wanted[0]], wanted[1..]); }
  }

  // ---- Facts about any manifest with distinct strings ----

  lemma {:induction false} NoneThere(ss: seq<string>, s: string)
    requires s !in ss
    ensures Occurrences(ss, s) == 0
  {
    if ss != [] { NoneThere(ss[1..], s); }
  }

  lemma {:induction false} AtMostOnce(ss: seq<string>, s: string)
    requires Distinct(ss)
    ensures Occurrences(ss, s) <= 1
  {
    if ss != [] {
      if ss[0] == s { NoneThere(ss[1..], s); } else { AtMostOnce(ss[1..], s); }
    }
  }

  lemma {:induction false} ChunksOfConcat(cs: seq<seq<byte>>)
    requires AllWhole(cs)
    ensures Chunks(Concat(cs)) == Some(cs)
    decreases |cs|
  {
    if cs != [] {
      var rest := Concat(cs[1..]);
      ChunksOfConcat(cs[1..]);
      SameHead(cs[0], rest);
      assert (cs[0] + rest)[..|cs[0]|] == cs[0] && (cs[0] + rest)[|cs[0]|..] == rest;
      assert [cs[0]] + cs[1..] == cs;
    }
  }

  lemma {:induction false} OwnIndex(ss: seq<string>, s: string, i: nat)
    requires Distinct(ss) && i < |ss| && ss[i] == s
    ensures s in ss && Index(ss, s) == i
  {
  }

  /** A string keeps its index when the pool grows. */
  lemma {:induction false} IndexStays(ss: seq<string>, more: seq<string>, i: nat)
    requires Distinct(ss) && Extends(ss, more) && i < |ss|
    ensures more[i] == ss[i] && ss[i] in more && Index(more, ss[i]) == i
  {
    assert more[i] == more[..|ss|][i];
    var r := Index(more, ss[i]);
    assert more[r] == more[..|ss|][r];
  }

  lemma {:induction false} FreshIds(ss: seq<string>, ids: seq<u32>, k: nat)
    requires k <= |ATTRIBUTES| && |ss| <= |ids| && (forall i :: 0 <= i < |ids| ==> ids[i] == 0)
    requires forall j :: 0 <= j < |ATTRIBUTES| ==> ATTRIBUTES[j].0 in ss
    ensures EnterIds(ids, ss, k).Some?
  {
    if k > 0 {
      FreshIds(ss, ids, k - 1);
      OtherIdsStay(ids, ss, k - 1);
      var r, i := EnterIds(ids, ss, k - 1).value, Index(ss, ATTRIBUTES[k - 1].0);
      if r[i] != 0 {
        var j :| 0 <= j < |ATTRIBUTES| && ss[i] == ATTRIBUTES[j].0 && r[i] == ATTRIBUTES[j].1;
        if j < k - 1 { LengthsDiffer(j, k - 1); } else if j > k - 1 { LengthsDiffer(k - 1, j); }
      }
    }
  }

  lemma {:induction false} FileReads(cs: seq<seq<byte>>)
    requires 8 + |Concat(cs)| < 0x1_0000_0000
    ensures FileOk(File(cs)) && File(cs)[8..] == Concat(cs)
  {
    var b := File(cs);
    assert b[0..2] == Le16(3) && b[2..4] == Le16(8) && b[4..8] == Le32(8 + |Concat(cs)|);
    HalfIs(b, 0, 3);
    HalfIs(b, 2, 8);
    WordThere(b, 4, 8 + |Concat(cs)|);
  }

  lemma {:induction false} OutputReads(data: seq<byte>, cs: seq<seq<byte>>)
    requires FileOk(data) && 8 + |Concat(cs)| < 0x1_0000_0000
    ensures Output(data, cs).Some? && FileOk(Output(data, cs).value) && Output(data, cs).value[8..] == Concat(cs)
  {
    var out, n := Output(data, cs).value, 8 + |Concat(cs)|;
    assert out[4..8] == Le32(n);
    WordThere(out, 4, n);
    assert out[0] == data[0] && out[1] == data[1] && out[2] == data[2] && out[3] == data[3];
  }

  // ---- The example's strings ----

  /** Strings that are told apart by their length, or else by their first character. */
  lemma {:induction false} DistinctByLook(ss: seq<string>)
    requires forall i, j :: 0 <= i < j < |ss| ==> |ss[i]| != |ss[j]| || (|ss[i]| > 0 && ss[i][0] != ss[j][0])
    ensures Distinct(ss)
  {
  }

  lemma {:induction false} StringsAre()
    ensures var ss := Strings();
            && |ss| == 9 && Short(ss) && Distinct(ss) && Packable(ss) && PoolSize(ss) <= 1_000_000
            && ss[0] == "application" && ss[3] == ANDROID_URI && ss[4] == "extractNativeLibs" && ss[6] == "manifest"
            && ss[7] == "package" && ss[8] == "p.q" && ss[..6] == EXAMPLE_STRINGS
  {
    var ss := Strings();
    assert ss[0] == "application" && ss[1] == "a" && ss[2] == "b" && ss[3] == ANDROID_URI && ss[4] == "extractNativeLibs";
    assert ss[5] == "x" && ss[6] == "manifest" && ss[7] == "package" && ss[8] == "p.q";
    DistinctByLook(ss);
    ShortPool(ss);
  }

  const ONE: seq<Option<string>> := [None]

  /** The strings after the missing ones are added. */
  function More(): seq<string> { AddMissing(Strings(), Wanted("p.q", ONE)) }

  lemma {:induction false} WantedList(w: seq<string>, class_: string, authority: string)
    requires w == ["provider", class_, authority, "name", "exported", "process", "authorities", "initOrder", "extractNativeLibs"]
    requires |class_| <= 100 && |authority| <= 100
    ensures Short(w) && w[0] == "provider" && w[1] == class_ && w[2] == authority
    ensures forall j :: 0 <= j < |ATTRIBUTES| ==> ATTRIBUTES[j].0 in w
  {
    assert w[3] == "name" && w[4] == "exported" && w[5] == "process" && w[6] == "authorities" && w[7] == "initOrder" && w[8] == "extractNativeLibs";
  }

  lemma {:induction false} WantedIs()
    ensures var w := Wanted("p.q", ONE);
            && |w| == 9 && Short(w) && "provider" in w && BootstrapClass(0) in w && Authority("p.q", 0) in w
            && forall j :: 0 <= j < |ATTRIBUTES| ==> ATTRIBUTES[j].0 in w
  {
    var w := Wanted("p.q", ONE);
    assert AxmlProviders.Named(ONE) == [] by { assert ONE[1..] == []; }
    assert Classes(1) == [BootstrapClass(0)] && Authorities("p.q", 1) == [Authority("p.q", 0)];
    WantedList(w, BootstrapClass(0), Authority("p.q", 0));
  }

  /** What the input's strings have to offer. */
  ghost predicate OldPool(old_: seq<string>, package: string) {
    && |old_| == 9 && Short(old_) && Distinct(old_) && Packable(old_) && PoolSize(old_) <= 1_000_000
    && old_[0] == "application" && old_[3] == ANDROID_URI && old_[4] == "extractNativeLibs" && old_[6] == "manifest"
    && old_[7] == "package" && old_[8] == package
  }

  ghost predicate NewPool(ss: seq<string>) {
    && 9 <= |ss| <= 18 && Packable(ss) && PoolSize(ss) <= 1_000_000
    && Distinct(ss) && ss[0] == "application" && ss[3] == ANDROID_URI && ss[4] == "extractNativeLibs" && ss[6] == "manifest"
  }

  lemma {:induction false} PoolGrows(old_: seq<string>, package: string, w: seq<string>, ss: seq<string>)
    requires OldPool(old_, package) && |w| == 9 && Short(w) && ss == AddMissing(old_, w)
    ensures Extends(old_, ss) && NewPool(ss) && forall x :: x in w ==> x in ss
  {
    MissingAdded(old_, w);
    DistinctGrows(old_, w);
    AddedShort(old_, w);
    ShortPool(ss);
    IndexStays(old_, ss, 0);
    IndexStays(old_, ss, 3);
    IndexStays(old_, ss, 4);
    IndexStays(old_, ss, 6);
  }

  lemma {:induction false} AllStrings(w: seq<string>, ss: seq<string>, class_: string, authority: string)
    requires |ss| <= MAX_STRINGS && (forall x :: x in w ==> x in ss) && ANDROID_URI in ss
    requires "provider" in w && class_ in w && authority in w && forall j :: 0 <= j < |ATTRIBUTES| ==> ATTRIBUTES[j].0 in w
    ensures HasStrings(ss, class_, authority, None) && forall j :: 0 <= j < |ATTRIBUTES| ==> ATTRIBUTES[j].0 in ss
  {
    AttributeNames(w);
  }

  lemma {:induction false} AttributeNames(ss: seq<string>)
    requires forall j :: 0 <= j < |ATTRIBUTES| ==> ATTRIBUTES[j].0 in ss
    ensures "name" in ss && "exported" in ss && "process" in ss && "authorities" in ss && "initOrder" in ss
  {
    assert ATTRIBUTES[0].0 == "name" && ATTRIBUTES[1].0 == "exported" && ATTRIBUTES[2].0 == "process";
    assert ATTRIBUTES[3].0 == "authorities" && ATTRIBUTES[4].0 == "initOrder";
  }

  lemma {:induction false} ThePools()
    ensures OldPool(Strings(), "p.q") && Extends(Strings(), More()) && NewPool(More())
    ensures HasStrings(More(), BootstrapClass(0), Authority("p.q", 0), None) && forall j :: 0 <= j < |ATTRIBUTES| ==> ATTRIBUTES[j].0 in More()
  {
    StringsAre();
    WantedIs();
    var w := Wanted("p.q", ONE);
    PoolGrows(Strings(), "p.q", w, More());
    AllStrings(w, More(), BootstrapClass(0), Authority("p.q", 0));
  }

  // ---- Reading the input ----

  function Manifest(package: string): Element { Element("manifest", map["package" := package], []) }

  lemma {:induction false} ManifestTag(old_: seq<string>, package: string)
    requires |old_| == 9 && old_[6] == "manifest" && old_[7] == "package" && old_[8] == package
    ensures var b := StartBytes(6, [PACKAGE]); |b| >= 8 && StartTag(b, old_) == Some(Manifest(package))
  {
    var kvs := ReadSpecs([PACKAGE], old_);
    assert kvs == [Some(("package", package))];
    assert kvs[..0] == [];
    assert Collect(kvs) == Some(map["package" := package]);
    StartBytesRead(6, [PACKAGE], old_);
  }

  ghost predicate PartKinds(cs: seq<seq<byte>>) {
    && |cs| == 5 && AllWhole(cs) && Kind(cs[0]) == POOL && Kind(cs[1]) == START && Kind(cs[2]) == START && Kind(cs[3]) == END && Kind(cs[4]) == END
    && |cs[1]| >= 36 && |cs[2]| >= 36 && At32(cs[1], 20) == 6 && At32(cs[2], 20) == 0 && At32(cs[3], 20) == 0 && At32(cs[4], 20) == 6
  }

  lemma {:induction false} PartsAre(old_: seq<string>, b: seq<byte>)
    requires Packable(old_) && Whole(b) && |b| >= 36 && At16(b, 0) == START && At32(b, 20) == 0
    ensures PartKinds(Parts(old_, b))
  {
    HeaderReads(old_);
    StartBytesFit(6, [PACKAGE]);
    EndBytesRead(0);
    EndBytesRead(6);
  }

  lemma {:induction false} FoldCons(q: Parser, c: seq<byte>, cs: seq<seq<byte>>)
    requires Whole(c) && AllWhole(cs)
    ensures AllWhole([c] + cs) && Fold(q, [c] + cs) == if Step(q, c, c).None? then None else Fold(Step(q, c, c).value, cs)
  {
    assert ([c] + cs)[1..] == cs;
  }

  lemma {:induction false} StepStart(q: Parser, b: seq<byte>, ss: seq<string>, e: Element)
    requires Whole(b) && Kind(b) == START && q.strings == Some(ss) && StartTag(b, ss) == Some(e) && (q.stack != [] || q.root.None?)
    ensures Step(q, b, b) == Some(q.(stack := q.stack + [e]))
  {
  }

  lemma {:induction false} StepEnd(q: Parser, b: seq<byte>, ss: seq<string>)
    requires Whole(b) && Kind(b) == END && q.strings == Some(ss) && q.stack != [] && At32(b, 20) < |ss|
    requires q.stack[|q.stack| - 1].tag == ss[At32(b, 20)]
    ensures Step(q, b, b) == Some(Close(q))
  {
  }

  /** Start tag, application, and both ends, read with a pool in which index 0 and 6 are their names. */
  lemma {:induction false} FoldElements(q: Parser, ss: seq<string>, cs: seq<seq<byte>>, m: Element, e: Element)
    requires PartKinds(cs) && q == Parser(Some(ss), [], None) && |ss| > 6 && ss[0] == e.tag && ss[6] == m.tag
    requires StartTag(cs[1], ss) == Some(m) && StartTag(cs[2], ss) == Some(e)
    ensures AllWhole(cs[1..]) && Fold(q, cs[1..]) == Some(Parser(Some(ss), [], Some(AddChild(m, e))))
  {
    var q1, q2, q3 := q.(stack := [m]), q.(stack := [m, e]), q.(stack := [AddChild(m, e)]);
    assert cs[1..] == [cs[1]] + ([cs[2]] + ([cs[3]] + [cs[4]]));
    StepStart(q, cs[1], ss, m);
    assert [] + [m] == [m] && [m] + [e] == [m, e];
    StepStart(q1, cs[2], ss, e);
    StepEnd(q2, cs[3], ss);
    assert Close(q2) == q3 by { assert [m, e][..0] + [AddChild(m, e)] == [AddChild(m, e)]; }
    StepEnd(q3, cs[4], ss);
    FoldOne(q3, cs[4]);
    FoldCons(q2, cs[3], [cs[4]]);
    FoldCons(q1, cs[2], [cs[3]] + [cs[4]]);
    FoldCons(q, cs[1], [cs[2]] + ([cs[3]] + [cs[4]]));
  }

  lemma {:induction false} StepPool(q: Parser, ss: seq<string>)
    requires Packable(ss) && |ss| <= MAX_STRINGS
    ensures Whole(MakePool(ss)) && Kind(MakePool(ss)) == POOL && Step(q, MakePool(ss), MakePool(ss)) == Some(q.(strings := Some(ss)))
  {
    HeaderReads(ss);
    PoolRoundTrip(ss);
  }

  /** A pool and the four chunks. */
  lemma {:induction false} FoldParts(old_: seq<string>, cs: seq<seq<byte>>, m: Element, e: Element)
    requires PartKinds(cs) && Packable(old_) && |old_| == 9 && cs[0] == MakePool(old_) && old_[0] == e.tag && old_[6] == m.tag
    requires StartTag(cs[1], old_) == Some(m) && StartTag(cs[2], old_) == Some(e)
    ensures Fold(EMPTY, cs) == Some(Parser(Some(old_), [], Some(AddChild(m, e))))
  {
    StepPool(EMPTY, old_);
    FoldElements(Parser(Some(old_), [], None), old_, cs, m, e);
    assert cs == [cs[0]] + cs[1..];
    FoldCons(EMPTY, cs[0], cs[1..]);
  }

  lemma {:induction false} ConcatLength(cs: seq<seq<byte>>, each: nat)
    requires forall i :: 0 <= i < |cs| ==> |cs[i]| <= each
    ensures |Concat(cs)| <= |cs| * each
    decreases |cs|
  {
    if cs != [] { ConcatLength(cs[1..], each); }
  }

  /** The parts of the input are read as a manifest with the application in it. */
  ghost predicate Input(cs: seq<seq<byte>>, old_: seq<string>, package: string, e: Element) {
    && PartKinds(cs) && Packable(old_) && |old_| == 9 && cs[0] == MakePool(old_) && old_[0] == e.tag && old_[6] == "manifest"
    && StartTag(cs[1], old_) == Some(Manifest(package)) && StartTag(cs[2], old_) == Some(e) && forall i :: 0 <= i < 5 ==> |cs[i]| <= 1_000_000
  }

  lemma {:induction false} IsInput(old_: seq<string>, package: string, b: seq<byte>, e: Element)
    requires OldPool(old_, package) && Whole(b) && 36 <= |b| <= 1000 && At16(b, 0) == START && At32(b, 20) == 0
    requires StartTag(b, old_) == Some(e) && e.tag == "application"
    ensures Input(Parts(old_, b), old_, package, e)
  {
    PartsAre(old_, b);
    ManifestTag(old_, package);
  }

  lemma {:induction false} InputParses(cs: seq<seq<byte>>, old_: seq<string>, package: string, e: Element)
    requires Input(cs, old_, package, e)
    ensures |Concat(cs)| <= 5_000_000 && FileOk(File(cs)) && Parse(File(cs)) == Some(AddChild(Manifest(package), e)) && Chunks(File(cs)[8..]) == Some(cs)
  {
    FoldParts(old_, cs, Manifest(package), e);
    ConcatLength(cs, 1_000_000);
    FileReads(cs);
    ParseIsFold(File(cs), cs);
    ChunksOfConcat(cs);
  }

  // ---- The plan ----

  lemma {:induction false} OneProcess(e: Element, package: string)
    requires e.tag == "application" && e.children == [] && Android("hasCode") !in e.attrs && Android("directBootAware") !in e.attrs
    ensures P.BootstrapProcesses(e, package) == Some(ONE) && NoCollision(e, package, 1)
  {
    assert P.ScanComponents([], P.DefaultProcess(e, package), package).value.processes == [None];
  }

  lemma {:induction false} CountCons(c: seq<byte>, cs: seq<seq<byte>>, kind: nat)
    ensures CountKind([c] + cs, kind) == (if Kind(c) == kind then 1 else 0) + CountKind(cs, kind)
  {
    assert ([c] + cs)[1..] == cs;
  }

  lemma {:induction false} PartCount(cs: seq<seq<byte>>, kind: nat)
    requires PartKinds(cs) && (kind == POOL || kind == RESOURCE_MAP)
    ensures CountKind(cs, kind) == if kind == POOL then 1 else 0
  {
    assert cs == [cs[0]] + ([cs[1]] + ([cs[2]] + ([cs[3]] + ([cs[4]] + []))));
    CountCons(cs[4], [], kind);
    CountCons(cs[3], [cs[4]] + [], kind);
    CountCons(cs[2], [cs[3]] + ([cs[4]] + []), kind);
    CountCons(cs[1], [cs[2]] + ([cs[3]] + ([cs[4]] + [])), kind);
    CountCons(cs[0], [cs[1]] + ([cs[2]] + ([cs[3]] + ([cs[4]] + []))), kind);
  }

  lemma {:induction false} PartPlaces(cs: seq<seq<byte>>, ss: seq<string>)
    requires PartKinds(cs) && |ss| > 6 && ss[0] == "application" && ss[6] == "manifest"
    ensures Locate(cs, 5, ss) == Some(Place([], Some(2), Some(3)))
  {
    assert Locate(cs, 0, ss) == Some(Place([], None, None));
    assert Locate(cs, 1, ss) == Some(Place([], None, None));
    assert Locate(cs, 2, ss) == Some(Place(["manifest"], None, None)) by { assert [] + ["manifest"] == ["manifest"]; }
    assert Locate(cs, 3, ss) == Some(Place(["manifest", "application"], Some(2), None)) by {
      assert ["manifest"] + ["application"] == ["manifest", "application"];
    }
    assert Locate(cs, 4, ss) == Some(Place(["manifest"], Some(2), Some(3))) by {
      assert ["manifest", "application"][..1] == ["manifest"];
    }
  }

  lemma {:induction false} BlankIds(cs: seq<seq<byte>>, ss: seq<string>) returns (blank: seq<u32>, ids: seq<u32>)
    requires CountKind(cs, RESOURCE_MAP) == 0 && forall j :: 0 <= j < |ATTRIBUTES| ==> ATTRIBUTES[j].0 in ss
    ensures OldIds(cs, |ss|) == Some(blank) && EnterIds(blank, ss, |ATTRIBUTES|) == Some(ids) && |ids| == |ss|
  {
    blank := OldIds(cs, |ss|).value;
    FreshIds(ss, blank, |ATTRIBUTES|);
    OtherIdsStay(blank, ss, |ATTRIBUTES|);
    ids := EnterIds(blank, ss, |ATTRIBUTES|).value;
  }

  lemma {:induction false} UnambiguousHere(ss: seq<string>)
    requires Distinct(ss)
    ensures Unambiguous(ss)
  {
    AtMostOnce(ss, ANDROID_URI);
    forall i | 0 <= i < |ATTRIBUTES| ensures Occurrences(ss, ATTRIBUTES[i].0) <= 1 { AtMostOnce(ss, ATTRIBUTES[i].0); }
  }

  lemma {:induction false} PlanFromFacts(cs: seq<seq<byte>>, package: string, ps: seq<Option<string>>, pool: seq<byte>, old_: seq<string>,
                                         ss: seq<string>, blank: seq<u32>, ids: seq<u32>, place: Place)
    requires CountKind(cs, POOL) == 1 && CountKind(cs, RESOURCE_MAP) <= 1 && FirstOf(cs, POOL) == pool && StringPool(pool) == Some(old_)
    requires |pool| >= 16 && At32(pool, 12) == 0 && ANDROID_URI in old_ && Unambiguous(old_) && AddMissing(old_, Wanted(package, ps)) == ss
    requires OldIds(cs, |ss|) == Some(blank) && EnterIds(blank, ss, |ATTRIBUTES|) == Some(ids)
    requires Locate(cs, |cs|, ss) == Some(place) && place.start.Some? && place.end.Some?
    ensures PlanOn(cs, package, ps) == Some(Plan(package, ps, cs, ss, ids, place.start.value))
  {
  }

  lemma {:induction false} PlanOfParts(cs: seq<seq<byte>>, old_: seq<string>, ss: seq<string>, package: string, ps: seq<Option<string>>)
    returns (ids: seq<u32>)
    requires PartKinds(cs) && Packable(old_) && cs[0] == MakePool(old_) && |old_| <= 9 && Distinct(old_) && ANDROID_URI in old_
    requires ss == AddMissing(old_, Wanted(package, ps)) && |ss| > 6 && ss[0] == "application" && ss[6] == "manifest"
    requires forall j :: 0 <= j < |ATTRIBUTES| ==> ATTRIBUTES[j].0 in ss
    ensures PlanOn(cs, package, ps) == Some(Plan(package, ps, cs, ss, ids, 2)) && |ids| == |ss|
  {
    PartCount(cs, POOL);
    PartCount(cs, RESOURCE_MAP);
    PoolOfParts(cs, old_);
    UnambiguousHere(old_);
    var blank;
    blank, ids := BlankIds(cs, ss);
    PartPlaces(cs, ss);
    PlanFromFacts(cs, package, ps, FirstOf(cs, POOL), old_, ss, blank, ids, Place([], Some(2), Some(3)));
  }

  lemma {:induction false} PoolOfParts(cs: seq<seq<byte>>, old_: seq<string>)
    requires PartKinds(cs) && Packable(old_) && cs[0] == MakePool(old_) && |old_| <= 9 && CountKind(cs, POOL) == 1
    ensures var pool := FirstOf(cs, POOL); StringPool(pool) == Some(old_) && |pool| >= 16 && At32(pool, 12) == 0
  {
    OnlyOne(cs, POOL, 0);
    HeaderReads(old_);
    PoolRoundTrip(old_);
  }

  // ---- The output ----

  lemma {:induction false} ProvidersOf(ss: seq<string>, package: string)
    requires HasStrings(ss, BootstrapClass(0), Authority(package, 0), None)
    ensures Providers(ss, package, ONE, 0) == Some(ProviderChunks(ss, BootstrapClass(0), Authority(package, 0), None))
  {
    var prov := ProviderChunks(ss, BootstrapClass(0), Authority(package, 0), None);
    assert Providers(ss, package, ONE, 1) == Some([]);
    assert prov + [] == prov;
  }

  /** What the chunks are replaced by: pool and map, start, edited start and provider, and both ends. */
  function Row(pool: seq<byte>, map_: seq<byte>, start: seq<byte>, c: seq<byte>, prov: seq<seq<byte>>, end1: seq<byte>, end2: seq<byte>): seq<seq<byte>> {
    ([pool] + [map_]) + [start] + ([c] + prov) + [end1] + [end2]
  }

  lemma {:induction false} FivePieces(plan: Plan, a: seq<seq<byte>>, b: seq<seq<byte>>, c: seq<seq<byte>>, d: seq<seq<byte>>, e: seq<seq<byte>>)
    requires |plan.parts| == 5 && Pieces(plan, 0) == Some(a) && Pieces(plan, 1) == Some(b) && Pieces(plan, 2) == Some(c)
    requires Pieces(plan, 3) == Some(d) && Pieces(plan, 4) == Some(e)
    ensures AllPieces(plan, 5) == Some(a + b + c + d + e)
  {
    assert AllPieces(plan, 0) == Some([]);
    assert [] + a == a;
    assert AllPieces(plan, 1) == Some(a);
    assert AllPieces(plan, 2) == Some(a + b);
    assert AllPieces(plan, 3) == Some(a + b + c);
    assert AllPieces(plan, 4) == Some(a + b + c + d);
  }

  lemma {:induction false} FirstPiece(plan: Plan)
    requires |plan.parts| == 5 && PartKinds(plan.parts) && Packable(plan.strings) && |plan.ids| <= 18
    ensures Pieces(plan, 0) == Some([MakePool(plan.strings)] + [MakeMap(plan.ids)])
  {
    PartCount(plan.parts, RESOURCE_MAP);
  }

  lemma {:induction false} OtherPieces(plan: Plan)
    requires |plan.parts| == 5 && PartKinds(plan.parts) && plan.start == 2
    ensures Pieces(plan, 1) == Some([plan.parts[1]]) && Pieces(plan, 3) == Some([plan.parts[3]]) && Pieces(plan, 4) == Some([plan.parts[4]])
  {
  }

  lemma {:induction false} Indices(ss: seq<string>)
    requires NewPool(ss)
    ensures ANDROID_URI in ss && Index(ss, ANDROID_URI) == 3 && "extractNativeLibs" in ss && Index(ss, "extractNativeLibs") == 4
  {
    OwnIndex(ss, ANDROID_URI, 3);
    OwnIndex(ss, "extractNativeLibs", 4);
  }

  lemma {:induction false} StartPiece(plan: Plan, b: seq<byte>, c: seq<byte>, prov: seq<seq<byte>>)
    requires AttrsFit(b) && |plan.strings| <= MAX_STRINGS && ANDROID_URI in plan.strings && "extractNativeLibs" in plan.strings
    requires SetExtract(b, Index(plan.strings, ANDROID_URI), Index(plan.strings, "extractNativeLibs")) == Some(c)
    requires Providers(plan.strings, plan.package, plan.processes, 0) == Some(prov)
    ensures NewStart(plan, b) == Some([c] + prov)
  {
  }

  lemma {:induction false} AppPiece(plan: Plan)
    requires |plan.parts| == 5 && Kind(plan.parts[2]) == START && plan.start == 2
    ensures Pieces(plan, 2) == NewStart(plan, plan.parts[2])
  {
  }

  lemma {:induction false} RowWhole(pool: seq<byte>, map_: seq<byte>, start: seq<byte>, c: seq<byte>, prov: seq<seq<byte>>, end1: seq<byte>, end2: seq<byte>)
    requires Whole(pool) && Whole(map_) && Whole(start) && Whole(c) && AllWhole(prov) && Whole(end1) && Whole(end2)
    ensures AllWhole(prov + ([end1] + [end2])) && AllWhole([c] + (prov + ([end1] + [end2]))) && AllWhole([start] + ([c] + (prov + ([end1] + [end2]))))
    ensures AllWhole([map_] + ([start] + ([c] + (prov + ([end1] + [end2])))))
    ensures Row(pool, map_, start, c, prov, end1, end2) == [pool] + ([map_] + ([start] + ([c] + (prov + ([end1] + [end2])))))
    ensures AllWhole(Row(pool, map_, start, c, prov, end1, end2))
  {
    WholeConcat(prov, [end1] + [end2]);
    WholeConcat([c], prov + ([end1] + [end2]));
    WholeConcat([start], [c] + (prov + ([end1] + [end2])));
    WholeConcat([map_], [start] + ([c] + (prov + ([end1] + [end2]))));
    WholeConcat([pool], [map_] + ([start] + ([c] + (prov + ([end1] + [end2])))));
  }

  /** Where each of them leaves the parser. */
  lemma {:induction false} RowFolds(pool: seq<byte>, map_: seq<byte>, start: seq<byte>, c: seq<byte>, prov: seq<seq<byte>>, end1: seq<byte>, end2: seq<byte>,
                                    q: Parser, q1: Parser, q2: Parser, q3: Parser, q4: Parser, q5: Parser)
    requires Whole(pool) && Whole(map_) && Whole(start) && Whole(c) && AllWhole(prov) && Whole(end1) && Whole(end2)
    requires Step(EMPTY, pool, pool) == Some(q) && Step(q, map_, map_) == Some(q) && Step(q, start, start) == Some(q1) && Step(q1, c, c) == Some(q2)
    requires Fold(q2, prov) == Some(q3) && Step(q3, end1, end1) == Some(q4) && Step(q4, end2, end2) == Some(q5)
    ensures AllWhole(Row(pool, map_, start, c, prov, end1, end2)) && Fold(EMPTY, Row(pool, map_, start, c, prov, end1, end2)) == Some(q5)
  {
    RowWhole(pool, map_, start, c, prov, end1, end2);
    FoldOne(q4, end2);
    FoldCons(q3, end1, [end2]);
    FoldSplit(q2, prov, [end1] + [end2]);
    FoldCons(q1, c, prov + ([end1] + [end2]));
    FoldCons(q, start, [c] + (prov + ([end1] + [end2])));
    FoldCons(q, map_, [start] + ([c] + (prov + ([end1] + [end2]))));
    FoldCons(EMPTY, pool, [map_] + ([start] + ([c] + (prov + ([end1] + [end2])))));
  }

  lemma {:induction false} RowLength(pool: seq<byte>, map_: seq<byte>, start: seq<byte>, c: seq<byte>, prov: seq<seq<byte>>, end1: seq<byte>, end2: seq<byte>)
    requires |pool| <= 1_000_000 && |map_| <= 1_000_000 && |start| <= 1_000_000 && |c| <= 1_000_000 && |end1| <= 1_000_000 && |end2| <= 1_000_000
    requires |prov| == 2 && |prov[0]| <= 1_000_000 && |prov[1]| <= 1_000_000
    ensures |Concat(Row(pool, map_, start, c, prov, end1, end2))| <= 8_000_000
  {
    ConcatLength(Row(pool, map_, start, c, prov, end1, end2), 1_000_000);
  }

  /** The parser after the application's start, with the provider in it, and after its end. */
  lemma {:induction false} StatesAfter(ss: seq<string>, m: Element, e: Element, p: Element, end1: seq<byte>, end2: seq<byte>)
    requires Whole(end1) && Whole(end2) && Kind(end1) == END && Kind(end2) == END && At32(end1, 20) == 0 && At32(end2, 20) == 6
    requires |ss| > 6 && ss[0] == e.tag && ss[6] == m.tag
    ensures var f := e.(children := e.children + [p]); var q2, q3, q4 := Parser(Some(ss), [m, e], None), Parser(Some(ss), [m, f], None), Parser(Some(ss), [AddChild(m, f)], None);
            && AddChildren(q2, [p]) == q3 && Step(q3, end1, end1) == Some(q4)
            && Step(q4, end2, end2) == Some(Parser(Some(ss), [], Some(AddChild(m, f))))
  {
    var f := e.(children := e.children + [p]);
    var q3, q4 := Parser(Some(ss), [m, f], None), Parser(Some(ss), [AddChild(m, f)], None);
    StepEnd(q3, end1, ss);
    assert [m, f][..0] + [AddChild(m, f)] == [AddChild(m, f)];
    StepEnd(q4, end2, ss);
  }

  lemma {:induction false} OutputFolds(cs: seq<seq<byte>>, ss: seq<string>, ids: seq<u32>, c: seq<byte>, prov: seq<seq<byte>>, m: Element, e: Element, p: Element)
    requires PartKinds(cs) && Packable(ss) && 6 < |ss| <= MAX_STRINGS && |ids| <= 18 && ss[0] == e.tag && ss[6] == m.tag
    requires Whole(c) && Kind(c) == START && StartTag(cs[1], ss) == Some(m) && StartTag(c, ss) == Some(e)
    requires AllWhole(prov) && Fold(Parser(Some(ss), [m, e], None), prov) == Some(AddChildren(Parser(Some(ss), [m, e], None), [p]))
    ensures var row := Row(MakePool(ss), MakeMap(ids), cs[1], c, prov, cs[3], cs[4]); AllWhole(row) && Finish(Fold(EMPTY, row)) == Some(AddChild(m, AddChild(e, p)))
  {
    var q, q1, q2 := Parser(Some(ss), [], None), Parser(Some(ss), [m], None), Parser(Some(ss), [m, e], None);
    StepPool(EMPTY, ss);
    StepMap(q, ids);
    StepStart(q, cs[1], ss, m);
    assert [] + [m] == [m] && [m] + [e] == [m, e];
    StepStart(q1, c, ss, e);
    StatesAfter(ss, m, e, p, cs[3], cs[4]);
    var f := e.(children := e.children + [p]);
    RowFolds(MakePool(ss), MakeMap(ids), cs[1], c, prov, cs[3], cs[4], q, q1, q2, Parser(Some(ss), [m, f], None),
             Parser(Some(ss), [AddChild(m, f)], None), Parser(Some(ss), [], Some(AddChild(m, f))));
  }

  lemma {:induction false} StepMap(q: Parser, ids: seq<u32>)
    requires 8 + 4 * |ids| < 0x1_0000_0000
    ensures Whole(MakeMap(ids)) && Step(q, MakeMap(ids), MakeMap(ids)) == Some(q)
  {
    MakeMapReads(ids);
  }

  // ---- inject accepts the file ----

  lemma {:induction false} FromPlan(data: seq<byte>, package: string, root: Element, plan: Plan, all: seq<seq<byte>>)
    requires |data| >= 8 && Parse(data) == Some(root) && PlanFor(data, root, package) == Some(plan) && AllPieces(plan, |plan.parts|) == Some(all)
    requires Output(data, all).Some? && Parse(Output(data, all).value).Some?
    ensures Rewrite(data, package) == Output(data, all)
  {
  }

  lemma {:induction false} PlanForFile(data: seq<byte>, package: string, e: Element, cs: seq<seq<byte>>, plan: Plan)
    requires |data| >= 8 && Chunks(data[8..]) == Some(cs) && PlanOn(cs, package, ONE) == Some(plan)
    requires e.tag == "application" && e.children == [] && Android("hasCode") !in e.attrs && Android("directBootAware") !in e.attrs
    ensures PlanFor(data, AddChild(Manifest(package), e), package) == Some(plan)
  {
    var root := AddChild(Manifest(package), e);
    assert root.children == [e];
    assert FindChild(root.children, "application") == Some(0);
    OneProcess(e, package);
  }

  /** A start chunk that the example's application can have, and what the edit makes of it. */
  ghost predicate AppChunk(b: seq<byte>, e: Element, c: seq<byte>, f: Element, old_: seq<string>, ss: seq<string>) {
    && Whole(b) && 36 <= |b| <= 1000 && At16(b, 0) == START && AttrsFit(b) && At32(b, 20) == 0 && StartTag(b, old_) == Some(e)
    && e.tag == "application" && e.children == [] && Android("hasCode") !in e.attrs && Android("directBootAware") !in e.attrs
    && SetExtract(b, 3, 4) == Some(c) && |c| <= 1_000_000 && StartTag(c, ss) == Some(f)
  }

  lemma {:induction false} EditedChunk(b: seq<byte>, c: seq<byte>, f: Element, ss: seq<string>)
    requires Whole(b) && At16(b, 0) == START && AttrsFit(b) && At32(b, 20) == 0 && SetExtract(b, 3, 4) == Some(c)
    requires 0 < |ss| < NO_INDEX && |c| >= 8 && StartTag(c, ss) == Some(f)
    ensures Whole(c) && Kind(c) == START && f.tag == ss[0]
  {
    SetExtractWhole(b, 3, 4);
    SetExtractName(b, 3, 4);
  }

  /** Two chunks that add the element p to the innermost open element. */
  ghost predicate Adds(prov: seq<seq<byte>>, ss: seq<string>, p: Element) {
    && AllWhole(prov) && |prov| == 2 && |prov[0]| <= 1000 && |prov[1]| <= 1000
    && forall q: Parser :: q.strings == Some(ss) && q.stack != [] ==> Fold(q, prov) == Some(AddChildren(q, [p]))
  }

  lemma {:induction false} ProviderAdds(ss: seq<string>, class_: string, authority: string)
    requires HasStrings(ss, class_, authority, None)
    ensures Adds(ProviderChunks(ss, class_, authority, None), ss, ProviderElement(class_, authority, None))
  {
    var prov := ProviderChunks(ss, class_, authority, None);
    OneProvider(Parser(Some(ss), [ProviderElement(class_, authority, None)], None), ss, class_, authority, None);
    forall q: Parser | q.strings == Some(ss) && q.stack != []
      ensures Fold(q, prov) == Some(AddChildren(q, [ProviderElement(class_, authority, None)]))
    {
      OneProvider(q, ss, class_, authority, None);
    }
  }

  lemma {:induction false} OutputParses(data: seq<byte>, cs: seq<seq<byte>>, ss: seq<string>, ids: seq<u32>, c: seq<byte>, m: Element, f: Element,
                                        prov: seq<seq<byte>>, p: Element)
    requires FileOk(data) && PartKinds(cs) && |ids| == |ss| && 9 <= |ss| <= 18 && Packable(ss) && PoolSize(ss) <= 1_000_000
    requires Adds(prov, ss, p) && StartTag(cs[1], ss) == Some(m) && Whole(c) && Kind(c) == START && StartTag(c, ss) == Some(f)
    requires ss[6] == m.tag && ss[0] == f.tag && |c| <= 1_000_000 && forall i :: 0 <= i < 5 ==> |cs[i]| <= 1_000_000
    ensures var out := Output(data, Row(MakePool(ss), MakeMap(ids), cs[1], c, prov, cs[3], cs[4]));
            out.Some? && Parse(out.value) == Some(AddChild(m, AddChild(f, p)))
  {
    var row := Row(MakePool(ss), MakeMap(ids), cs[1], c, prov, cs[3], cs[4]);
    OutputFolds(cs, ss, ids, c, prov, m, f, p);
    RowLength(MakePool(ss), MakeMap(ids), cs[1], c, prov, cs[3], cs[4]);
    OutputReads(data, row);
    ParseIsFold(Output(data, row).value, row);
  }

  lemma {:induction false} PlanPieces(plan: Plan, c: seq<byte>, prov: seq<seq<byte>>)
    requires |plan.parts| == 5 && PartKinds(plan.parts) && plan.start == 2 && |plan.ids| == |plan.strings| && NewPool(plan.strings)
    requires Providers(plan.strings, plan.package, plan.processes, 0) == Some(prov)
    requires AttrsFit(plan.parts[2]) && SetExtract(plan.parts[2], 3, 4) == Some(c)
    ensures AllPieces(plan, 5) == Some(Row(MakePool(plan.strings), MakeMap(plan.ids), plan.parts[1], c, prov, plan.parts[3], plan.parts[4]))
  {
    FirstPiece(plan);
    OtherPieces(plan);
    AppPiece(plan);
    Indices(plan.strings);
    StartPiece(plan, plan.parts[2], c, prov);
    FivePieces(plan, [MakePool(plan.strings)] + [MakeMap(plan.ids)], [plan.parts[1]], [c] + prov, [plan.parts[3]], [plan.parts[4]]);
  }

  /** The strings before and after. */
  ghost predicate Pools(old_: seq<string>, package: string, ss: seq<string>) {
    && OldPool(old_, package) && Extends(old_, ss) && NewPool(ss) && ss == AddMissing(old_, Wanted(package, ONE))
    && forall j :: 0 <= j < |ATTRIBUTES| ==> ATTRIBUTES[j].0 in ss
  }

  lemma {:induction false} PlanOfFile(b: seq<byte>, e: Element, c: seq<byte>, f: Element, old_: seq<string>, package: string,
                                      ss: seq<string>, cs: seq<seq<byte>>) returns (plan: Plan)
    requires Pools(old_, package, ss) && AppChunk(b, e, c, f, old_, ss) && Input(cs, old_, package, e) && |Concat(cs)| <= 5_000_000
    requires Chunks(File(cs)[8..]) == Some(cs)
    ensures PlanFor(File(cs), AddChild(Manifest(package), e), package) == Some(plan)
    ensures plan == Plan(package, ONE, cs, ss, plan.ids, 2) && |plan.ids| == |ss|
  {
    var ids := PlanOfParts(cs, old_, ss, package, ONE);
    plan := Plan(package, ONE, cs, ss, ids, 2);
    PlanForFile(File(cs), package, e, cs, plan);
  }

  lemma {:induction false} PiecesOfFile(data: seq<byte>, plan: Plan, old_: seq<string>, c: seq<byte>, m: Element, f: Element,
                                        prov: seq<seq<byte>>, p: Element)
    requires FileOk(data) && |plan.parts| == 5 && PartKinds(plan.parts) && plan.start == 2 && |plan.ids| == |plan.strings|
    requires Extends(old_, plan.strings) && NewPool(plan.strings) && Adds(prov, plan.strings, p) && Providers(plan.strings, plan.package, plan.processes, 0) == Some(prov)
    requires AttrsFit(plan.parts[2]) && At32(plan.parts[2], 20) == 0 && SetExtract(plan.parts[2], 3, 4) == Some(c)
    requires 8 <= |c| <= 1_000_000 && StartTag(c, plan.strings) == Some(f)
    requires StartTag(plan.parts[1], old_) == Some(m) && m.tag == plan.strings[6] && forall i :: 0 <= i < 5 ==> |plan.parts[i]| <= 1_000_000
    ensures AllPieces(plan, 5).Some? && var out := Output(data, AllPieces(plan, 5).value); out.Some? && Parse(out.value) == Some(AddChild(m, AddChild(f, p)))
  {
    StartTagExtends(plan.parts[1], old_, plan.strings);
    EditedChunk(plan.parts[2], c, f, plan.strings);
    PlanPieces(plan, c, prov);
    OutputParses(data, plan.parts, plan.strings, plan.ids, c, m, f, prov, p);
  }

  lemma OneChild(parent: Element, e: Element)
    requires parent.children == []
    ensures AddChild(parent, e).children == [e]
  {
  }

  /** inject accepts a manifest with such an application. */
  lemma {:induction false} Accepted(b: seq<byte>, e: Element, c: seq<byte>, f: Element, old_: seq<string>, package: string, ss: seq<string>,
                                    prov: seq<seq<byte>>, p: Element)
    requires Pools(old_, package, ss) && AppChunk(b, e, c, f, old_, ss) && Providers(ss, package, ONE, 0) == Some(prov) && Adds(prov, ss, p)
    ensures |Concat(Parts(old_, b))| <= 5_000_000
    ensures var data := File(Parts(old_, b));
            && Parse(data) == Some(AddChild(Manifest(package), e)) && Rewrite(data, package).Some?
            && Parse(Rewrite(data, package).value).Some? && Parse(Rewrite(data, package).value).value.children == [AddChild(f, p)]
            && var plan := PlanOf(data, package); PartKinds(plan.parts) && plan.parts[0] == MakePool(old_) && plan.parts[2] == b && plan.strings == ss && plan.start == 2
  {
    var cs := Parts(old_, b);
    IsInput(old_, package, b, e);
    InputParses(cs, old_, package, e);
    var plan := PlanOfFile(b, e, c, f, old_, package, ss, cs);
    PiecesOfFile(File(cs), plan, old_, c, Manifest(package), f, prov, p);
    FromPlan(File(cs), package, AddChild(Manifest(package), e), plan, AllPieces(plan, 5).value);
    OneChild(Manifest(package), AddChild(f, p));
    assert cs[0] == MakePool(old_) && cs[2] == b;
  }

  /** The provider that the examples get. */
  lemma {:induction false} TheProvider() returns (prov: seq<seq<byte>>, p: Element)
    ensures Pools(Strings(), "p.q", More()) && Providers(More(), "p.q", ONE, 0) == Some(prov) && Adds(prov, More(), p)
  {
    ThePools();
    ProvidersOf(More(), "p.q");
    prov, p := ProviderChunks(More(), BootstrapClass(0), Authority("p.q", 0), None), ProviderElement(BootstrapClass(0), Authority("p.q", 0), None);
    ProviderAdds(More(), BootstrapClass(0), Authority("p.q", 0));
  }

  // ---- The two application elements ----

  lemma {:induction false} CollectOne(kvs: seq<Option<(string, string)>>, k: string, v: string)
    requires kvs == [Some((k, v))]
    ensures Collect(kvs) == Some(map[k := v])
  {
    assert kvs[..0] == [];
  }

  lemma {:induction false} CollectTwo(kvs: seq<Option<(string, string)>>, k: string, v: string, l: string, w: string)
    requires kvs == [Some((k, v))] + [Some((l, w))] && k != l
    ensures Collect(kvs) == Some(map[k := v, l := w])
  {
    assert kvs[..1] == [Some((k, v))];
    CollectOne(kvs[..1], k, v);
  }

  /** How a start chunk with one attribute is read before and after one is appended. */
  lemma {:induction false} OneThenTwo(b: seq<byte>, c: seq<byte>, ss: seq<string>, k: string, k': string, v: string, ext: string)
    requires AttrsFit(b) && AttrsFit(c) && AttrCount(b) == 1 && At16(b, 2) == 16 && At16(c, 2) == 16 && At32(b, 20) == 0 && At32(c, 20) == 0
    requires 0 < |ss| && KeyValues(b, ss) == [Some((k, v))] && KeyValues(c, ss) == [Some((k', v))] + [Some((ext, "true"))] && k' != ext
    ensures StartTag(b, ss) == Some(Element(ss[0], map[k := v], [])) && StartTag(c, ss) == Some(Element(ss[0], map[k' := v, ext := "true"], []))
  {
    CollectOne(KeyValues(b, ss), k, v);
    CollectTwo(KeyValues(c, ss), k', v, ext, "true");
  }

  function App(key: string): Element { Element("application", map[key := "x"], []) }

  function EditedApp(key: string): Element { Element("application", map[key := "x", Android("extractNativeLibs") := "true"], []) }

  lemma {:induction false} OverlapReads() returns (c: seq<byte>)
    ensures var b := OVERLAPPING; Whole(b) && |b| == 48 && At16(b, 0) == START && AttrsFit(b) && At32(b, 20) == 0 && SetExtract(b, 3, 4) == Some(c)
    ensures |c| == 68 && StartTag(OVERLAPPING, EXAMPLE_STRINGS) == Some(App("{a}x")) && StartTag(c, EXAMPLE_STRINGS) == Some(EditedApp("{b}x"))
    ensures !Undisturbed(OVERLAPPING, 3, 4)
  {
    var b, ss, ext := OVERLAPPING, EXAMPLE_STRINGS, Android("extractNativeLibs");
    b, c := OverlapExample();
    OverlapFields(b);
    AppendTrueFields(b, 3, 4);
    assert KeyOf(ss, 3, 4) == Some(ext);
    DisturbedKeyValues(b, 3, 4, ss, ext);
    assert KeyValues(b, ss) == [Some(("{a}x", "x"))];
    assert KeyValues(c, ss) == [Some(("{b}x", "x"))] + [Some((ext, "true"))];
    assert |ext| > 4;
    OneThenTwo(b, c, ss, "{a}x", "{b}x", "x", ext);
  }

  lemma {:induction false} AppIsPlain(key: string)
    requires |key| <= |ANDROID_URI| + 3
    ensures Android("hasCode") !in App(key).attrs && Android("directBootAware") !in App(key).attrs
  {
    assert |Android("hasCode")| > |key| && |Android("directBootAware")| > |key|;
  }

  /** A chunk that reads with some first strings of the pools is one for the example. */
  lemma {:induction false} IsAppChunk(b: seq<byte>, key: string, c: seq<byte>, f: Element, first: seq<string>, old_: seq<string>, ss: seq<string>)
    requires Whole(b) && 36 <= |b| <= 1000 && At16(b, 0) == START && AttrsFit(b) && At32(b, 20) == 0 && StartTag(b, first) == Some(App(key))
    requires |key| <= |ANDROID_URI| + 3 && SetExtract(b, 3, 4) == Some(c) && |c| <= 1000 && StartTag(c, first) == Some(f)
    requires Extends(first, old_) && Extends(first, ss)
    ensures AppChunk(b, App(key), c, f, old_, ss)
  {
    AppIsPlain(key);
    StartTagExtends(b, first, old_);
    StartTagExtends(c, first, ss);
  }

  lemma {:induction false} FirstStrings(first: seq<string>, old_: seq<string>, ss: seq<string>)
    requires |first| <= |old_| && old_[..|first|] == first && Extends(old_, ss)
    ensures Extends(first, old_) && Extends(first, ss)
  {
    assert ss[..|first|] == ss[..|old_|][..|first|];
  }

  const ATTRIBUTE := Spec(3, 5, 5, 3, 5)

  /** An attribute of the application in the android namespace, behind the header. */
  lemma {:induction false} PlainReads(ss: seq<string>) returns (b: seq<byte>, c: seq<byte>)
    requires 6 <= |ss| <= MAX_STRINGS && ss[0] == "application" && ss[3] == ANDROID_URI && ss[4] == "extractNativeLibs" && ss[5] == "x"
    ensures b == StartBytes(0, [ATTRIBUTE]) && Whole(b) && At16(b, 0) == START && AttrsFit(b) && At32(b, 20) == 0 && Undisturbed(b, 3, 4)
    ensures SetExtract(b, 3, 4) == Some(c) && |c| == 76 && StartTag(b, ss) == Some(App(Android("x"))) && StartTag(c, ss) == Some(EditedApp(Android("x")))
  {
    var key, ext := Android("x"), Android("extractNativeLibs");
    b := StartBytes(0, [ATTRIBUTE]);
    assert b[..36] == StartHeader(0, 1);
    StartHeaderReads(b, 0, 1);
    StartBytesFit(0, [ATTRIBUTE]);
    assert b[36..56] == ATTRIBUTE.Bytes();
    FieldsRead(b, 36, 3, 5, 5, 3, 5);
    assert !IsExtract(b, 0, 3, 4);
    assert Scale(1, 20) == 20 by { ScaleIsTimes(1, 20); }
    c := AppendTrue(b, 3, 4);
    AppendTrueFields(b, 3, 4);
    AppendTrueKeyValues(b, 3, 4, ss, ext);
    StartBytesKeyValues(0, [ATTRIBUTE], ss);
    assert KeyValues(b, ss) == [Some((key, "x"))];
    assert |key| < |ext|;
    OneThenTwo(b, c, ss, key, key, "x", ext);
  }

  lemma {:induction false} OverlapIsApp(old_: seq<string>, ss: seq<string>) returns (c: seq<byte>)
    requires Extends(EXAMPLE_STRINGS, old_) && Extends(EXAMPLE_STRINGS, ss)
    ensures AppChunk(OVERLAPPING, App("{a}x"), c, EditedApp("{b}x"), old_, ss) && !Undisturbed(OVERLAPPING, 3, 4)
  {
    c := OverlapReads();
    IsAppChunk(OVERLAPPING, "{a}x", c, EditedApp("{b}x"), EXAMPLE_STRINGS, old_, ss);
  }

  lemma {:induction false} PlainIsApp(first: seq<string>, old_: seq<string>, ss: seq<string>) returns (b: seq<byte>, c: seq<byte>)
    requires first == EXAMPLE_STRINGS && Extends(first, old_) && Extends(first, ss)
    ensures b == StartBytes(0, [ATTRIBUTE]) && AppChunk(b, App(Android("x")), c, EditedApp(Android("x")), old_, ss) && Undisturbed(b, 3, 4)
  {
    b, c := PlainReads(first);
    IsAppChunk(b, Android("x"), c, EditedApp(Android("x")), first, old_, ss);
  }

  // ---- The results ----

  lemma {:induction false} SafeHere(plan: Plan)
    requires |plan.parts| > 2 && plan.start == 2 && NewPool(plan.strings) && Editable(plan)
    ensures Safe(plan) <==> Undisturbed(plan.parts[2], 3, 4)
  {
    Indices(plan.strings);
  }

  lemma {:induction false} Exactly(data: seq<byte>, package: string, old_: seq<string>, ss: seq<string>)
    requires Inject(data, package).Some? && PartKinds(PlanOf(data, package).parts) && PlanOf(data, package).strings == ss && PlanOf(data, package).start == 2
    requires Packable(old_) && |old_| == 9 && Distinct(old_) && PlanOf(data, package).parts[0] == MakePool(old_) && NewPool(ss)
    ensures var plan := PlanOf(data, package);
            && Editable(plan) && AttrsFit(plan.parts[2]) && (Safe(plan) <==> Undisturbed(plan.parts[2], 3, 4))
            && (Parse(Inject(data, package).value) == Rewritten(Parse(data).value, package) <==> Undisturbed(plan.parts[2], 3, 4))
  {
    var plan := PlanOf(data, package);
    PartCount(plan.parts, POOL);
    PoolOfParts(plan.parts, old_);
    InjectPreservesIff(data, package);
    SafeHere(plan);
  }

  /** inject accepts the file, and preserves it exactly if the application's chunk is undisturbed. */
  lemma {:induction false} Outcome(b: seq<byte>, e: Element, c: seq<byte>, f: Element, old_: seq<string>, package: string, ss: seq<string>,
                                   prov: seq<seq<byte>>, p: Element) returns (data: seq<byte>, out: seq<byte>)
    requires Pools(old_, package, ss) && AppChunk(b, e, c, f, old_, ss) && Providers(ss, package, ONE, 0) == Some(prov) && Adds(prov, ss, p)
    ensures Parse(data) == Some(AddChild(Manifest(package), e)) && Inject(data, package) == Some(out)
    ensures Parse(out).Some? && Parse(out).value.children == [AddChild(f, p)] && Editable(PlanOf(data, package))
    ensures Safe(PlanOf(data, package)) <==> Undisturbed(b, 3, 4)
    ensures Parse(out) == Rewritten(Parse(data).value, package) <==> Undisturbed(b, 3, 4)
  {
    Accepted(b, e, c, f, old_, package, ss, prov, p);
    data := File(Parts(old_, b));
    RecheckPasses(data, package);
    out := Inject(data, package).value;
    Exactly(data, package, old_, ss);
  }

  /**
    A manifest whose application element has its one attribute inside the chunk's header: inject
    accepts it, and the attribute {a}x comes out as {b}x.
  */
  lemma {:induction false} OverlappingManifest() returns (data: seq<byte>, out: seq<byte>)
    ensures Inject(data, "p.q") == Some(out) && Editable(PlanOf(data, "p.q")) && !Safe(PlanOf(data, "p.q"))
    ensures Parse(data) == Some(AddChild(Manifest("p.q"), App("{a}x")))
    ensures exists p :: Parse(out).Some? && Parse(out).value.children == [AddChild(EditedApp("{b}x"), p)]
    ensures Parse(out) != Rewritten(Parse(data).value, "p.q")
  {
    var prov, p := TheProvider();
    StringsAre();
    FirstStrings(EXAMPLE_STRINGS, Strings(), More());
    var c := OverlapIsApp(Strings(), More());
    data, out := Outcome(OVERLAPPING, App("{a}x"), c, EditedApp("{b}x"), Strings(), "p.q", More(), prov, p);
  }

  /** The same manifest with the attribute behind the header: inject accepts it and preserves it. */
  lemma {:induction false} PlainManifest() returns (data: seq<byte>, out: seq<byte>)
    ensures Inject(data, "p.q") == Some(out) && Editable(PlanOf(data, "p.q")) && Safe(PlanOf(data, "p.q"))
    ensures Parse(data) == Some(AddChild(Manifest("p.q"), App(Android("x"))))
    ensures Parse(out) == Rewritten(Parse(data).value, "p.q")
  {
    var prov, p := TheProvider();
    StringsAre();
    FirstStrings(EXAMPLE_STRINGS, Strings(), More());
    var b, c := PlainIsApp(EXAMPLE_STRINGS, Strings(), More());
    data, out := Outcome(b, App(Android("x")), c, EditedApp(Android("x")), Strings(), "p.q", More(), prov, p);
  }
}
