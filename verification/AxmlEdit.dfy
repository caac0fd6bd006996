/**
  The chunks that tools/axml_inject.py writes or edits: attributes, the application's start chunk,
  the provider elements and the resource map, and how the parser reads them.
*/
module AxmlEdit {
  import opened Wrappers
  import opened Words
  import opened AxmlStrings
  import opened AxmlParser

  const ANDROID_URI := "http://schemas.android.com/apk/res/android"

  /** The key under which the parser files an android attribute. */
  function Android(name: string): string { "{" + ANDROID_URI + "}" + name }

  // ---- Attributes ----

  function AttributeBytes(ns: u32, name: u32, raw: u32, kind: byte, value: u32): (b: seq<byte>)
    ensures |b| == 20
  {
    Le32(ns) + Le32(name) + Le32(raw) + Le16(8) + [0, kind] + Le32(value)
  }

  lemma {:induction false} FieldsRead(b: seq<byte>, at: nat, ns: u32, name: u32, raw: u32, kind: byte, value: u32)
    requires at + 20 <= |b| && b[at..at + 20] == AttributeBytes(ns, name, raw, kind, value)
    ensures At32(b, at) == ns && At32(b, at + 4) == name && At32(b, at + 8) == raw && b[at + 15] == kind && At32(b, at + 16) == value
  {
    var x := AttributeBytes(ns, name, raw, kind, value);
    assert b[at + 15] == b[at..at + 20][15] == x[15];
    WordIs(b, at, x, 0, ns);
    WordIs(b, at, x, 4, name);
    WordIs(b, at, x, 8, raw);
    WordIs(b, at, x, 16, value);
  }

  lemma {:induction false} WordIs(b: seq<byte>, at: nat, x: seq<byte>, o: nat, w: u32)
    requires at + |x| <= |b| && b[at..at + |x|] == x && o + 4 <= |x| && x[o..o + 4] == Le32(w)
    ensures At32(b, at + o) == w
  {
    PartWord(b, at, x, o);
    assert Le32(w)[0..4] == Le32(w);
    SameWord(x, o, Le32(w), 0);
    ReadBack32(w);
  }

  /** The bytes of an attribute that the parser looks at. */
  ghost predicate SameAttribute(b: seq<byte>, c: seq<byte>, at: nat) {
    && at + 20 <= |b| && at + 20 <= |c|
    && (forall k :: at <= k < at + 12 ==> b[k] == c[k]) && (forall k :: at + 15 <= k < at + 20 ==> b[k] == c[k])
  }

  lemma {:induction false} SameAttributeReads(b: seq<byte>, c: seq<byte>, at: nat, ss: seq<string>)
    requires SameAttribute(b, c, at)
    ensures AttributeAt(b, at, ss) == AttributeAt(c, at, ss)
    ensures At32(b, at) == At32(c, at) && At32(b, at + 4) == At32(c, at + 4)
  {
  }

  // ---- A longer string pool ----

  ghost predicate Extends(ss: seq<string>, more: seq<string>) { |ss| <= |more| < NO_INDEX && more[..|ss|] == ss }

  lemma LookupExtends(ss: seq<string>, more: seq<string>, i: u32)
    requires Extends(ss, more) && Lookup(ss, i).Some?
    ensures Lookup(more, i) == Lookup(ss, i)
  {
    if i != NO_INDEX { assert more[i] == more[..|ss|][i]; }
  }

  lemma {:induction false} AttributeExtends(b: seq<byte>, at: nat, ss: seq<string>, more: seq<string>)
    requires at + 20 <= |b| && Extends(ss, more) && AttributeAt(b, at, ss).Some?
    ensures AttributeAt(b, at, more) == AttributeAt(b, at, ss)
  {
    LookupExtends(ss, more, At32(b, at + 4));
    if At32(b, at) != NO_INDEX { LookupExtends(ss, more, At32(b, at)); }
    if At32(b, at + 8) != NO_INDEX { LookupExtends(ss, more, At32(b, at + 8)); }
    else if b[at + 15] == 3 { LookupExtends(ss, more, At32(b, at + 16)); }
  }

  lemma {:induction false} CollectSome(kvs: seq<Option<(string, string)>>)
    requires Collect(kvs).Some?
    ensures forall i :: 0 <= i < |kvs| ==> kvs[i].Some?
    decreases |kvs|
  {
    if kvs != [] { CollectSome(kvs[..|kvs| - 1]); }
  }

  lemma {:induction false} KeyValuesExtend(b: seq<byte>, ss: seq<string>, more: seq<string>)
    requires AttrsFit(b) && Extends(ss, more) && Collect(KeyValues(b, ss)).Some?
    ensures KeyValues(b, more) == KeyValues(b, ss)
  {
    CollectSome(KeyValues(b, ss));
    forall i | 0 <= i < AttrCount(b) ensures KeyValue(b, i, more) == KeyValue(b, i, ss) {
      assert KeyValues(b, ss)[i] == KeyValue(b, i, ss);
      AttrInside(b, i);
      AttributeExtends(b, AttrPos(b, i), ss, more);
    }
  }

  /** Old indices mean the same with more strings in the pool. */
  lemma {:induction false} StartTagExtends(b: seq<byte>, ss: seq<string>, more: seq<string>)
    requires |b| >= 8 && Extends(ss, more) && StartTag(b, ss).Some?
    ensures StartTag(b, more) == StartTag(b, ss)
  {
    LookupExtends(ss, more, At32(b, 20));
    KeyValuesExtend(b, ss, more);
  }

  // ---- extractNativeLibs in the application's start chunk ----

  predicate IsExtract(b: seq<byte>, i: nat, ns: u32, name: u32)
    requires AttrsFit(b) && i < AttrCount(b)
  {
    AttrInside(b, i);
    At32(b, AttrPos(b, i)) == ns && At32(b, AttrPos(b, i) + 4) == name
  }

  /** The first attribute from i on with this namespace and name. */
  function FindExtract(b: seq<byte>, i: nat, ns: u32, name: u32): (r: Option<nat>)
    requires AttrsFit(b) && i <= AttrCount(b)
    ensures r.Some? ==> i <= r.value < AttrCount(b) && IsExtract(b, r.value, ns, name)
    ensures forall k :: i <= k < AttrCount(b) && (r.None? || k < r.value) ==> !IsExtract(b, k, ns, name)
    decreases AttrCount(b) - i
  {
    if i == AttrCount(b) then None
    else if IsExtract(b, i, ns, name) then Some(i)
    else FindExtract(b, i + 1, ns, name)
  }

  /** The last twelve bytes of an attribute that is the boolean true. */
  const TRUE_TAIL: seq<byte> := [0xFF, 0xFF, 0xFF, 0xFF, 8, 0, 0, 18, 1, 0, 0, 0]

  function SetTrue(b: seq<byte>, i: nat): (r: seq<byte>)
    requires AttrsFit(b) && i < AttrCount(b)
    ensures |r| == |b|
  {
    AttrInside(b, i);
    Overwrite(b, AttrPos(b, i) + 8, TRUE_TAIL)
  }

  predicate CanAppend(b: seq<byte>)
    requires AttrsFit(b)
  {
    AttrSize(b) == 20 && AttrPos(b, AttrCount(b)) == |b| && |b| + 20 < 0x1_0000_0000
  }

  function AppendTrue(b: seq<byte>, ns: u32, name: u32): (r: seq<byte>)
    requires AttrsFit(b) && CanAppend(b)
    ensures |r| == |b| + 20
  {
    var longer := b + AttributeBytes(ns, name, NO_INDEX, 18, 1);
    Overwrite(Overwrite(longer, 28, Le16(AttrCount(b) + 1)), 4, Le32(|longer|))
  }

  /** The application's start chunk with extractNativeLibs set, or None where the layout is refused. */
  function SetExtract(b: seq<byte>, ns: u32, name: u32): (r: Option<seq<byte>>)
    requires AttrsFit(b)
    ensures r.Some? ==> |r.value| >= |b|
  {
    var found := FindExtract(b, 0, ns, name);
    if found.Some? then Some(SetTrue(b, found.value))
    else if CanAppend(b) then Some(AppendTrue(b, ns, name))
    else None
  }

  /**
    The rewrite does not run over an attribute: extractNativeLibs is there to be overwritten, or there
    is no attribute at all, or the new attribute count does not change a byte of the first one. It can,
    because nothing keeps the attributes from starting inside the chunk's own header.
  */
  predicate Undisturbed(b: seq<byte>, ns: u32, name: u32)
    requires AttrsFit(b)
  {
    FindExtract(b, 0, ns, name).Some? || AttrCount(b) == 0 || CountApart(b)
  }

  predicate CountApart(b: seq<byte>)
    requires AttrsFit(b)
  {
    AttrStart(b) == 0 || AttrStart(b) >= 14 || (AttrStart(b) == 13 && AttrCount(b) % 256 != 255)
  }

  // ---- How the edited chunk is read ----

  /** The header fields of a start chunk other than the attribute count. */
  ghost predicate SameFields(b: seq<byte>, c: seq<byte>) {
    && |b| >= 36 && |c| >= 36 && At16(b, 0) == At16(c, 0) && At16(b, 2) == At16(c, 2) && At32(b, 20) == At32(c, 20)
    && AttrStart(b) == AttrStart(c) && AttrSize(b) == AttrSize(c)
  }

  lemma {:induction false} SetTrueFields(b: seq<byte>, i: nat)
    requires AttrsFit(b) && i < AttrCount(b) && AttrPos(b, i) + 8 >= 30
    ensures var c := SetTrue(b, i); SameFields(b, c) && AttrCount(c) == AttrCount(b) && AttrsFit(c) && At32(c, 4) == At32(b, 4)
  {
    AttrInside(b, i);
  }

  lemma {:induction false} OtherAttributesStay(b: seq<byte>, i: nat, j: nat)
    requires AttrsFit(b) && i < AttrCount(b) && j < AttrCount(b) && j != i
    ensures SameAttribute(b, SetTrue(b, i), AttrPos(b, j))
  {
    AttrInside(b, i);
    AttrInside(b, j);
    if j < i { Times(j, i, AttrSize(b)); } else { Times(i, j, AttrSize(b)); }
  }

  lemma {:induction false} ThisAttributeIsTrue(b: seq<byte>, i: nat, ss: seq<string>)
    requires AttrsFit(b) && i < AttrCount(b)
    ensures AttrPos(b, i) + 20 <= |b|
    ensures var kv := AttributeAt(SetTrue(b, i), AttrPos(b, i), ss); var key := KeyOf(ss, At32(b, AttrPos(b, i)), At32(b, AttrPos(b, i) + 4));
            if key.None? then kv.None? else kv == Some((key.value, "true"))
  {
    AttrInside(b, i);
    var c, at := SetTrue(b, i), AttrPos(b, i);
    assert c[at + 8] == TRUE_TAIL[0] && c[at + 9] == TRUE_TAIL[1] && c[at + 10] == TRUE_TAIL[2] && c[at + 11] == TRUE_TAIL[3];
    assert c[at + 15] == TRUE_TAIL[7];
    assert c[at + 16] == TRUE_TAIL[8] && c[at + 17] == TRUE_TAIL[9] && c[at + 18] == TRUE_TAIL[10] && c[at + 19] == TRUE_TAIL[11];
  }

  /** Making one attribute true makes it true in the dictionary. */
  lemma {:induction false} CollectChanged(kvs: seq<Option<(string, string)>>, i: nat, key: string)
    requires i < |kvs| && Collect(kvs).Some? && kvs[i].Some? && kvs[i].value.0 == key
    ensures key in Collect(kvs).value && Collect(kvs[i := Some((key, "true"))]) == Some(Collect(kvs).value[key := "true"])
    decreases |kvs|
  {
    var n, changed := |kvs| - 1, kvs[i := Some((key, "true"))];
    var m := Collect(kvs[..n]).value;
    if i == n {
      assert changed[..n] == kvs[..n];
      assert m[key := kvs[n].value.1][key := "true"] == m[key := "true"];
    } else {
      CollectChanged(kvs[..n], i, key);
      assert changed[..n] == kvs[..n][i := Some((key, "true"))];
      var kv := kvs[n].value;
      assert m[key := "true"][kv.0 := kv.1] == m[kv.0 := kv.1][key := "true"];
    }
  }

  lemma {:induction false} SetTrueKeyValues(b: seq<byte>, i: nat, ss: seq<string>, key: string)
    requires AttrsFit(b) && i < AttrCount(b) && AttrPos(b, i) + 8 >= 30
    requires AttrPos(b, i) + 20 <= |b| && KeyOf(ss, At32(b, AttrPos(b, i)), At32(b, AttrPos(b, i) + 4)) == Some(key)
    ensures AttrsFit(SetTrue(b, i)) && KeyValues(SetTrue(b, i), ss) == KeyValues(b, ss)[i := Some((key, "true"))]
  {
    var c := SetTrue(b, i);
    SetTrueFields(b, i);
    ThisAttributeIsTrue(b, i, ss);
    forall j | 0 <= j < AttrCount(b) && j != i ensures KeyValue(c, j, ss) == KeyValue(b, j, ss) {
      OtherAttributesStay(b, i, j);
      SameAttributeReads(b, c, AttrPos(b, j), ss);
    }
  }

  /** An attribute found inside the header's own fields leaves a chunk that the parser refuses. */
  lemma {:induction false} EarlyFound(b: seq<byte>, i: nat, ns: u32, name: u32)
    requires AttrsFit(b) && i < AttrCount(b) && IsExtract(b, i, ns, name) && AttrPos(b, i) + 8 < 30
    requires At32(b, 20) != name && name < 0x100_0000
    ensures !AttrsFit(SetTrue(b, i))
  {
    AttrInside(b, i);
    var a := AttrStart(b);
    assert i == 0 && a < 6;
    if a >= 2 { assert SetTrue(b, i)[29] == 0xFF; }
  }

  lemma {:induction false} AppendTrueFields(b: seq<byte>, ns: u32, name: u32)
    requires AttrsFit(b) && CanAppend(b)
    ensures var c := AppendTrue(b, ns, name);
            SameFields(b, c) && AttrCount(c) == AttrCount(b) + 1 && At32(c, 4) == |c| && AttrPos(c, AttrCount(c)) == |c| &&
            c[|b|..|b| + 20] == AttributeBytes(ns, name, NO_INDEX, 18, 1)
  {
    var longer := b + AttributeBytes(ns, name, NO_INDEX, 18, 1);
    var count := Le16(AttrCount(b) + 1);
    var c := AppendTrue(b, ns, name);
    assert c[28] == count[0] && c[29] == count[1];
    assert c[4..8] == Le32(|longer|);
    WordIs(c, 4, Le32(|longer|), 0, |longer|) by { assert Le32(|longer|)[0..4] == Le32(|longer|); }
    assert c[|b|..|b| + 20] == longer[|b|..];
  }

  lemma {:induction false} OldAttributesStay(b: seq<byte>, ns: u32, name: u32, j: nat)
    requires AttrsFit(b) && CanAppend(b) && j < AttrCount(b) && (j > 0 || CountApart(b))
    ensures SameAttribute(b, AppendTrue(b, ns, name), AttrPos(b, j))
  {
    AttrInside(b, j);
    if j > 0 { Times(0, j, 20); }
    CountBytes(b, ns, name);
  }

  /** c is b from byte 8 on, as far as b goes, except that the two bytes of the count are one more. */
  ghost predicate Recounted(b: seq<byte>, c: seq<byte>)
    requires |b| >= 36
  {
    && |c| >= |b| && (forall k :: 8 <= k < |b| && k != 28 && k != 29 ==> c[k] == b[k])
    && c[28] == (AttrCount(b) + 1) % 256 && c[29] == (AttrCount(b) + 1) / 256
    && b[28] == AttrCount(b) % 256 && b[29] == AttrCount(b) / 256
  }

  /** The two bytes of the count are the only ones of the old attributes that can change. */
  lemma {:induction false} CountBytes(b: seq<byte>, ns: u32, name: u32)
    requires AttrsFit(b) && CanAppend(b)
    ensures Recounted(b, AppendTrue(b, ns, name))
  {
    var count := Le16(AttrCount(b) + 1);
    var c := AppendTrue(b, ns, name);
    assert c[28] == count[0] && c[29] == count[1];
  }

  lemma {:induction false} LastKeyValue(c: seq<byte>, n: nat, ns: u32, name: u32, ss: seq<string>, key: string)
    requires AttrsFit(c) && AttrCount(c) == n + 1 && KeyOf(ss, ns, name) == Some(key)
    requires AttrPos(c, n) + 20 <= |c| && c[AttrPos(c, n)..AttrPos(c, n) + 20] == AttributeBytes(ns, name, NO_INDEX, 18, 1)
    ensures KeyValue(c, n, ss) == Some((key, "true"))
  {
    FieldsRead(c, AttrPos(c, n), ns, name, NO_INDEX, 18, 1);
  }

  lemma {:induction false} OldKeyValue(b: seq<byte>, c: seq<byte>, j: nat, ss: seq<string>)
    requires AttrsFit(b) && AttrsFit(c) && SameFields(b, c) && j < AttrCount(b) && j < AttrCount(c)
    requires SameAttribute(b, c, AttrPos(b, j))
    ensures KeyValue(c, j, ss) == KeyValue(b, j, ss)
  {
    SameAttributeReads(b, c, AttrPos(b, j), ss);
  }

  lemma {:induction false} AppendTrueKeyValues(b: seq<byte>, ns: u32, name: u32, ss: seq<string>, key: string)
    requires AttrsFit(b) && CanAppend(b) && (AttrCount(b) == 0 || CountApart(b))
    requires KeyOf(ss, ns, name) == Some(key) && AttrsFit(AppendTrue(b, ns, name))
    ensures KeyValues(AppendTrue(b, ns, name), ss) == KeyValues(b, ss) + [Some((key, "true"))]
  {
    var c, n := AppendTrue(b, ns, name), AttrCount(b);
    AppendTrueFields(b, ns, name);
    assert KeyValue(c, n, ss) == Some((key, "true")) by { LastKeyValue(c, n, ns, name, ss, key); }
    forall j | 0 <= j < n ensures KeyValue(c, j, ss) == KeyValue(b, j, ss) {
      OldAttributesStay(b, ns, name, j);
      OldKeyValue(b, c, j, ss);
    }
    SameKeyValues(b, c, ss, Some((key, "true")));
  }

  lemma {:induction false} SameKeyValues(b: seq<byte>, c: seq<byte>, ss: seq<string>, last: Option<(string, string)>)
    requires AttrsFit(b) && AttrsFit(c) && AttrCount(c) == AttrCount(b) + 1 && KeyValue(c, AttrCount(b), ss) == last
    requires forall j :: 0 <= j < AttrCount(b) ==> KeyValue(c, j, ss) == KeyValue(b, j, ss)
    ensures KeyValues(c, ss) == KeyValues(b, ss) + [last]
  {
  }

  lemma {:induction false} SetExtractWhole(b: seq<byte>, ns: u32, name: u32)
    requires AttrsFit(b) && Whole(b) && At16(b, 0) == START && SetExtract(b, ns, name).Some?
    ensures Whole(SetExtract(b, ns, name).value) && At16(SetExtract(b, ns, name).value, 0) == START
  {
    var found := FindExtract(b, 0, ns, name);
    if found.Some? { AttrInside(b, found.value); } else { AppendTrueFields(b, ns, name); }
  }

  /** The edit leaves the element's name alone. */
  lemma {:induction false} SetExtractName(b: seq<byte>, ns: u32, name: u32)
    requires AttrsFit(b) && SetExtract(b, ns, name).Some?
    ensures At32(SetExtract(b, ns, name).value, 20) == At32(b, 20)
  {
    var found := FindExtract(b, 0, ns, name);
    if found.Some? { SetTrueName(b, found.value); } else { AppendTrueFields(b, ns, name); }
  }

  lemma {:induction false} SetTrueName(b: seq<byte>, i: nat)
    requires AttrsFit(b) && i < AttrCount(b)
    ensures At32(SetTrue(b, i), 20) == At32(b, 20)
  {
    AttrInside(b, i);
    NameStays(b, AttrPos(b, i) + 8, TRUE_TAIL);
  }

  lemma {:induction false} NameStays(b: seq<byte>, at: nat, bs: seq<byte>)
    requires 24 <= at && at + |bs| <= |b|
    ensures At32(Overwrite(b, at, bs), 20) == At32(b, 20)
  {
  }

  /** The indices of the android namespace and of extractNativeLibs. */
  ghost predicate ExtractIndices(ss: seq<string>, ns: u32, name: u32) {
    |ss| <= MAX_STRINGS && ns < |ss| && ss[ns] == ANDROID_URI && name < |ss| && ss[name] == "extractNativeLibs"
  }

  lemma {:induction false} FoundReads(b: seq<byte>, ss: seq<string>, ns: u32, name: u32, i: nat)
    requires ExtractIndices(ss, ns, name) && |b| >= 8 && StartTag(b, ss).Some? && At32(b, 20) != name
    requires i < AttrCount(b) && IsExtract(b, i, ns, name) && StartTag(SetTrue(b, i), ss).Some?
    ensures var e := StartTag(b, ss).value;
            StartTag(SetTrue(b, i), ss) == Some(e.(attrs := e.attrs[Android("extractNativeLibs") := "true"]))
  {
    if AttrPos(b, i) + 8 < 30 {
      EarlyFound(b, i, ns, name);
      assert false;
    }
    AttrInside(b, i);
    SetTrueFields(b, i);
    SetTrueKeyValues(b, i, ss, Android("extractNativeLibs"));
    CollectSome(KeyValues(b, ss));
    assert KeyValues(b, ss)[i] == KeyValue(b, i, ss);
    CollectChanged(KeyValues(b, ss), i, Android("extractNativeLibs"));
  }

  lemma {:induction false} AppendedReads(b: seq<byte>, ss: seq<string>, ns: u32, name: u32)
    requires ExtractIndices(ss, ns, name) && |b| >= 8 && StartTag(b, ss).Some? && CanAppend(b)
    requires AttrCount(b) == 0 || CountApart(b)
    requires StartTag(AppendTrue(b, ns, name), ss).Some?
    ensures var e := StartTag(b, ss).value;
            StartTag(AppendTrue(b, ns, name), ss) == Some(e.(attrs := e.attrs[Android("extractNativeLibs") := "true"]))
  {
    AppendTrueFields(b, ns, name);
    AppendTrueKeyValues(b, ns, name, ss, Android("extractNativeLibs"));
    var kvs := KeyValues(b, ss);
    assert (kvs + [Some((Android("extractNativeLibs"), "true"))])[..|kvs|] == kvs;
  }

  /** The edited start chunk opens the same element with extractNativeLibs true and nothing else changed. */
  lemma {:induction false} SetExtractReads(b: seq<byte>, ss: seq<string>, ns: u32, name: u32)
    requires ExtractIndices(ss, ns, name) && |b| >= 8 && StartTag(b, ss).Some? && At32(b, 20) != name
    requires Undisturbed(b, ns, name) && SetExtract(b, ns, name).Some? && StartTag(SetExtract(b, ns, name).value, ss).Some?
    ensures var e := StartTag(b, ss).value;
            StartTag(SetExtract(b, ns, name).value, ss) == Some(e.(attrs := e.attrs[Android("extractNativeLibs") := "true"]))
  {
    var found := FindExtract(b, 0, ns, name);
    if found.Some? { FoundReads(b, ss, ns, name, found.value); } else { AppendedReads(b, ss, ns, name); }
  }

  // ---- What goes wrong otherwise ----

  ghost predicate Distinct(ss: seq<string>) { forall i, j :: 0 <= i < j < |ss| ==> ss[i] != ss[j] }

  lemma {:induction false} KeyDiffers(x: string, y: string, name: string)
    requires x != y
    ensures "{" + x + "}" + name != "{" + y + "}" + name
  {
    var a, b := "{" + x + "}" + name, "{" + y + "}" + name;
    assert |a| == |x| + 2 + |name| && |b| == |y| + 2 + |name|;
    assert a[1..1 + |x|] == x && b[1..1 + |y|] == y;
  }

  /** Another namespace index gives another key. */
  lemma {:induction false} OtherNamespace(b: seq<byte>, c: seq<byte>, at: nat, ss: seq<string>)
    requires at + 20 <= |b| && at + 20 <= |c| && |ss| <= MAX_STRINGS && Distinct(ss)
    requires At32(b, at) != At32(c, at) && At32(b, at) != NO_INDEX && At32(c, at) != NO_INDEX && At32(b, at + 4) == At32(c, at + 4)
    requires AttributeAt(b, at, ss).Some? && AttributeAt(c, at, ss).Some?
    ensures AttributeAt(b, at, ss) != AttributeAt(c, at, ss)
  {
    KeyDiffers(ss[At32(b, at)], ss[At32(c, at)], Lookup(ss, At32(b, at + 4)).value);
  }

  /** An index out of range is an error. */
  lemma {:induction false} NoSuchIndex(b: seq<byte>, at: nat, ss: seq<string>)
    requires at + 20 <= |b| && |ss| <= MAX_STRINGS
    requires MAX_STRINGS <= At32(b, at) < NO_INDEX || MAX_STRINGS <= At32(b, at + 4) < NO_INDEX
    ensures AttributeAt(b, at, ss).None?
  {
  }

  /** Where attributes that start inside the header would put an index out of range. */
  lemma {:induction false} StartsThatFail(b: seq<byte>, c: seq<byte>, ss: seq<string>)
    requires |b| >= 36 && Recounted(b, c) && |ss| <= MAX_STRINGS && 1 <= AttrStart(b) <= 9 && AttrStart(b) != 2 && AttrSize(b) == 20
    requires AttrStart(b) + 36 <= |b|
    ensures AttributeAt(b, 16 + AttrStart(b), ss).None? || AttributeAt(c, 16 + AttrStart(b), ss).None?
  {
    var a := AttrStart(b);
    assert b[24] == a && b[25] == 0 && b[26] == 20 && b[27] == 0;
    if a == 9 {
      if b[28] == 0 { NoSuchIndex(c, 25, ss); } else { NoSuchIndex(b, 25, ss); }
    } else {
      NoSuchIndex(b, 16 + a, ss);
    }
  }

  /** Otherwise the first attribute gets another namespace or another value. */
  lemma {:induction false} StartsThatChange(b: seq<byte>, c: seq<byte>, ss: seq<string>)
    requires AttrsFit(b) && Recounted(b, c) && |ss| <= MAX_STRINGS && Distinct(ss) && AttrSize(b) == 20 && AttrStart(b) + 36 <= |b|
    requires AttrStart(b) == 2 || 10 <= AttrStart(b) <= 12 || (AttrStart(b) == 13 && AttrCount(b) % 256 == 255)
    requires AttributeAt(b, 16 + AttrStart(b), ss).Some? && AttributeAt(c, 16 + AttrStart(b), ss).Some?
    ensures AttributeAt(b, 16 + AttrStart(b), ss) != AttributeAt(c, 16 + AttrStart(b), ss)
  {
    var a := AttrStart(b);
    assert b[24] == a && b[25] == 0 && b[26] == 20 && b[27] == 0;
    if a == 2 {
      assert At32(b, 26) == 20 + 0x1_0000 * AttrCount(b) && At32(c, 26) == 20 + 0x1_0000 * (AttrCount(b) + 1);
    } else {
      OtherNamespace(b, c, 16 + a, ss);
    }
  }

  /** With distinct strings, a disturbed first attribute is read differently. */
  lemma {:induction false} DisturbedDiffers(b: seq<byte>, ns: u32, name: u32, ss: seq<string>)
    requires AttrsFit(b) && CanAppend(b) && AttrCount(b) > 0 && !CountApart(b) && |ss| <= MAX_STRINGS && Distinct(ss)
    requires AttrsFit(AppendTrue(b, ns, name)) && KeyValue(b, 0, ss).Some? && KeyValue(AppendTrue(b, ns, name), 0, ss).Some?
    ensures KeyValue(b, 0, ss) != KeyValue(AppendTrue(b, ns, name), 0, ss)
  {
    var c := AppendTrue(b, ns, name);
    AppendTrueFields(b, ns, name);
    CountBytes(b, ns, name);
    FirstAttribute(b, ss);
    FirstAttribute(c, ss);
    FirstDiffers(b, c, ss);
  }

  lemma {:induction false} FirstDiffers(b: seq<byte>, c: seq<byte>, ss: seq<string>)
    requires AttrsFit(b) && Recounted(b, c) && !CountApart(b) && |ss| <= MAX_STRINGS && Distinct(ss) && AttrSize(b) == 20
    requires AttrStart(b) + 36 <= |b|
    requires AttributeAt(b, 16 + AttrStart(b), ss).Some? && AttributeAt(c, 16 + AttrStart(b), ss).Some?
    ensures AttributeAt(b, 16 + AttrStart(b), ss) != AttributeAt(c, 16 + AttrStart(b), ss)
  {
    if AttrStart(b) == 2 || AttrStart(b) >= 10 { StartsThatChange(b, c, ss); } else { StartsThatFail(b, c, ss); }
  }

  lemma {:induction false} FirstAttribute(b: seq<byte>, ss: seq<string>)
    requires AttrsFit(b) && AttrCount(b) > 0
    ensures 36 + AttrStart(b) <= |b| && KeyValue(b, 0, ss) == AttributeAt(b, 16 + AttrStart(b), ss)
  {
    AttrInside(b, 0);
  }

  /** The dictionary holds exactly the attributes, and no key twice. */
  lemma {:induction false} CollectMeans(kvs: seq<Option<(string, string)>>)
    requires Collect(kvs).Some?
    ensures forall i :: 0 <= i < |kvs| ==> kvs[i].Some? && kvs[i].value.0 in Collect(kvs).value && Collect(kvs).value[kvs[i].value.0] == kvs[i].value.1
    ensures forall k :: k in Collect(kvs).value ==> exists i :: 0 <= i < |kvs| && kvs[i].Some? && kvs[i].value.0 == k
    ensures forall i, j :: 0 <= i < j < |kvs| && kvs[i].Some? && kvs[j].Some? ==> kvs[i].value.0 != kvs[j].value.0
    decreases |kvs|
  {
    if kvs != [] {
      var front := kvs[..|kvs| - 1];
      CollectMeans(front);
      assert forall i :: 0 <= i < |front| ==> kvs[i] == front[i];
    }
  }

  /** Another first attribute gives another dictionary. */
  lemma {:induction false} DictionaryDiffers(kvs: seq<Option<(string, string)>>, first: Option<(string, string)>, key: string)
    requires kvs != [] && Collect(kvs).Some? && first != kvs[0] && Collect(kvs[0 := first] + [Some((key, "true"))]).Some?
    ensures Collect(kvs[0 := first] + [Some((key, "true"))]).value != Collect(kvs).value[key := "true"]
  {
    var now := kvs[0 := first] + [Some((key, "true"))];
    CollectMeans(kvs);
    CollectMeans(now);
    assert now[0] == first && now[|kvs|] == Some((key, "true"));
    assert forall i :: 1 <= i < |kvs| ==> now[i] == kvs[i];
    var k := first.value.0;
    assert k != key;
    if k in Collect(kvs).value {
      var i :| 0 <= i < |kvs| && kvs[i].Some? && kvs[i].value.0 == k;
      assert i == 0;
    }
  }

  lemma {:induction false} DisturbedKeyValues(b: seq<byte>, ns: u32, name: u32, ss: seq<string>, key: string)
    requires AttrsFit(b) && CanAppend(b) && AttrCount(b) > 0 && KeyOf(ss, ns, name) == Some(key) && AttrsFit(AppendTrue(b, ns, name))
    ensures AttrCount(AppendTrue(b, ns, name)) > 0
    ensures KeyValues(AppendTrue(b, ns, name), ss) == KeyValues(b, ss)[0 := KeyValue(AppendTrue(b, ns, name), 0, ss)] + [Some((key, "true"))]
  {
    var c, n := AppendTrue(b, ns, name), AttrCount(b);
    AppendTrueFields(b, ns, name);
    assert KeyValue(c, n, ss) == Some((key, "true")) by { LastKeyValue(c, n, ns, name, ss, key); }
    forall j | 1 <= j < n ensures KeyValue(c, j, ss) == KeyValue(b, j, ss) {
      OldAttributesStay(b, ns, name, j);
      OldKeyValue(b, c, j, ss);
    }
    FirstKeyValueDiffers(b, c, ss, Some((key, "true")));
  }

  lemma {:induction false} FirstKeyValueDiffers(b: seq<byte>, c: seq<byte>, ss: seq<string>, last: Option<(string, string)>)
    requires AttrsFit(b) && AttrsFit(c) && AttrCount(b) > 0 && AttrCount(c) == AttrCount(b) + 1 && KeyValue(c, AttrCount(b), ss) == last
    requires forall j :: 1 <= j < AttrCount(b) ==> KeyValue(c, j, ss) == KeyValue(b, j, ss)
    ensures KeyValues(c, ss) == KeyValues(b, ss)[0 := KeyValue(c, 0, ss)] + [last]
  {
  }

  /** With distinct strings, a disturbed chunk that can still be read opens another element. */
  lemma {:induction false} DisturbedReads(b: seq<byte>, ss: seq<string>, ns: u32, name: u32)
    requires ExtractIndices(ss, ns, name) && Distinct(ss) && |b| >= 8 && StartTag(b, ss).Some? && CanAppend(b)
    requires AttrCount(b) > 0 && !CountApart(b) && StartTag(AppendTrue(b, ns, name), ss).Some?
    ensures StartTag(AppendTrue(b, ns, name), ss).value.attrs != StartTag(b, ss).value.attrs[Android("extractNativeLibs") := "true"]
  {
    var c, kvs := AppendTrue(b, ns, name), KeyValues(b, ss);
    DisturbedKeyValues(b, ns, name, ss, Android("extractNativeLibs"));
    CollectSome(kvs);
    CollectSome(KeyValues(c, ss));
    assert kvs[0] == KeyValue(b, 0, ss) && KeyValues(c, ss)[0] == KeyValue(c, 0, ss);
    DisturbedDiffers(b, ns, name, ss);
    DictionaryDiffers(kvs, KeyValue(c, 0, ss), Android("extractNativeLibs"));
  }

  /** With distinct strings, the edited start chunk opens the intended element exactly if it is undisturbed. */
  lemma {:induction false} SetExtractIff(b: seq<byte>, ss: seq<string>, ns: u32, name: u32)
    requires ExtractIndices(ss, ns, name) && Distinct(ss) && |b| >= 8 && StartTag(b, ss).Some? && At32(b, 20) != name
    requires SetExtract(b, ns, name).Some? && StartTag(SetExtract(b, ns, name).value, ss).Some?
    ensures Undisturbed(b, ns, name) <==>
            StartTag(SetExtract(b, ns, name).value, ss).value.attrs == StartTag(b, ss).value.attrs[Android("extractNativeLibs") := "true"]
  {
    if Undisturbed(b, ns, name) { SetExtractReads(b, ss, ns, name); } else { DisturbedReads(b, ss, ns, name); }
  }

  /** A start chunk whose one attribute begins twelve bytes into the header, at the attribute count. */
  const OVERLAPPING: seq<byte> :=
    [2, 1, 16, 0, 48, 0, 0, 0] + [0, 0, 0, 0, 255, 255, 255, 255] + [255, 255, 255, 255, 0, 0, 0, 0] +
    [12, 0, 20, 0, 1, 0, 0, 0] + [5, 0, 0, 0, 5, 0, 0, 0] + [8, 0, 0, 3, 5, 0, 0, 0]

  const EXAMPLE_STRINGS: seq<string> := ["application", "a", "b", ANDROID_URI, "extractNativeLibs", "x"]

  lemma {:induction false} OverlapFields(b: seq<byte>)
    requires b == OVERLAPPING
    ensures |b| == 48 && At16(b, 0) == START && At16(b, 2) == 16 && At32(b, 4) == 48 && At32(b, 20) == 0
    ensures AttrStart(b) == 12 && AttrSize(b) == 20 && AttrCount(b) == 1
    ensures At32(b, 28) == 1 && At32(b, 32) == 5 && At32(b, 36) == 5
  {
  }

  lemma {:induction false} OverlapEdited(c: seq<byte>)
    requires |c| == 68 && c[28] == 2 && c[29] == 0 && forall k :: 8 <= k < 48 && k != 28 && k != 29 ==> c[k] == OVERLAPPING[k]
    ensures At32(c, 28) == 2 && At32(c, 32) == 5 && At32(c, 36) == 5
  {
  }

  lemma {:induction false} ExampleAttribute(b: seq<byte>, ns: u32)
    requires |b| >= 48 && At32(b, 28) == ns && 1 <= ns <= 2 && At32(b, 32) == 5 && At32(b, 36) == 5
    ensures AttributeAt(b, 28, EXAMPLE_STRINGS) == Some((if ns == 1 then "{a}x" else "{b}x", "x"))
  {
    assert EXAMPLE_STRINGS[1] == "a" && EXAMPLE_STRINGS[2] == "b" && EXAMPLE_STRINGS[5] == "x";
    assert "{" + "a" + "}" + "x" == "{a}x" && "{" + "b" + "}" + "x" == "{b}x";
  }

  /** There the edit turns the attribute {a}x into {b}x. */
  lemma {:induction false} OverlapExample() returns (b: seq<byte>, c: seq<byte>)
    ensures b == OVERLAPPING && Whole(b) && At16(b, 0) == START && AttrsFit(b) && AttrCount(b) == 1 && CanAppend(b)
    ensures SetExtract(b, 3, 4) == Some(c) && c == AppendTrue(b, 3, 4) && AttrsFit(c) && AttrCount(c) == 2
    ensures KeyValue(b, 0, EXAMPLE_STRINGS) == Some(("{a}x", "x")) && KeyValue(c, 0, EXAMPLE_STRINGS) == Some(("{b}x", "x"))
  {
    b := OVERLAPPING;
    OverlapFields(b);
    ExampleAttribute(b, 1);
    assert !IsExtract(b, 0, 3, 4);
    AppendTrueFields(b, 3, 4);
    CountBytes(b, 3, 4);
    c := AppendTrue(b, 3, 4);
    OverlapEdited(c);
    ExampleAttribute(c, 2);
  }

  // ---- New elements ----

  datatype Spec = Spec(ns: u32, name: u32, raw: u32, kind: byte, value: u32)
  {
    function Bytes(): (b: seq<byte>)
      ensures |b| == 20
    {
      AttributeBytes(ns, name, raw, kind, value)
    }
    function KeyValue(ss: seq<string>): Option<(string, string)> {
      var key, v := KeyOf(ss, ns, name), ValueOf(ss, raw, kind, value);
      if key.None? || v.None? then None else Some((key.value, v.value))
    }
  }

  function SpecBytes(specs: seq<Spec>): (b: seq<byte>)
    ensures |b| == 20 * |specs|
  {
    if specs == [] then [] else specs[0].Bytes() + SpecBytes(specs[1..])
  }

  lemma {:induction false} SpecIsThere(specs: seq<Spec>, i: nat)
    requires i < |specs|
    ensures SpecBytes(specs)[20 * i..20 * i + 20] == specs[i].Bytes()
  {
    if i > 0 {
      SpecIsThere(specs[1..], i - 1);
      var rest := SpecBytes(specs[1..]);
      assert SpecBytes(specs)[20 * i..20 * i + 20] == rest[20 * (i - 1)..20 * (i - 1) + 20];
    }
  }

  function StartHeader(name: u32, count: nat): (b: seq<byte>)
    requires count <= 4096
    ensures |b| == 36
  {
    Le16(START) + Le16(16) + Le32(36 + 20 * count) + Le32(0) + Le32(NO_INDEX) + Le32(NO_INDEX) + Le32(name) +
    (Le16(20) + Le16(20) + Le16(count) + Le16(0) + Le16(0) + Le16(0))
  }

  /** The start chunk of an element. */
  function StartBytes(name: u32, specs: seq<Spec>): (b: seq<byte>)
    requires |specs| <= 4096
    ensures |b| == 36 + 20 * |specs|
  {
    StartHeader(name, |specs|) + SpecBytes(specs)
  }

  function EndBytes(name: u32): (b: seq<byte>)
    ensures |b| == 24
  {
    Le16(END) + Le16(16) + Le32(24) + Le32(0) + Le32(NO_INDEX) + Le32(NO_INDEX) + Le32(name)
  }

  lemma {:induction false} HalfIs(b: seq<byte>, at: nat, w: u16)
    requires at + 2 <= |b| && b[at..at + 2] == Le16(w)
    ensures At16(b, at) == w
  {
    assert b[at] == b[at..at + 2][0] && b[at + 1] == b[at..at + 2][1];
  }

  lemma {:induction false} WordThere(b: seq<byte>, at: nat, w: u32)
    requires at + 4 <= |b| && b[at..at + 4] == Le32(w)
    ensures At32(b, at) == w
  {
    assert Le32(w)[0..4] == Le32(w);
    SameWord(b, at, Le32(w), 0);
    ReadBack32(w);
  }

  lemma {:induction false} StartHeaderReads(b: seq<byte>, name: u32, count: nat)
    requires count <= 4096 && |b| >= 36 && b[..36] == StartHeader(name, count)
    ensures At16(b, 0) == START && At16(b, 2) == 16 && At32(b, 4) == 36 + 20 * count && At32(b, 20) == name
    ensures AttrStart(b) == 20 && AttrSize(b) == 20 && AttrCount(b) == count
  {
    var h := StartHeader(name, count);
    assert h[0..2] == Le16(START) && h[2..4] == Le16(16) && h[4..8] == Le32(36 + 20 * count) && h[20..24] == Le32(name);
    assert h[24..26] == Le16(20) && h[26..28] == Le16(20) && h[28..30] == Le16(count);
    assert forall i, j | 0 <= i <= j <= 36 :: b[i..j] == b[..36][i..j];
    HalfIs(b, 0, START);
    HalfIs(b, 2, 16);
    WordThere(b, 4, 36 + 20 * count);
    WordThere(b, 20, name);
    HalfIs(b, 24, 20);
    HalfIs(b, 26, 20);
    HalfIs(b, 28, count);
  }

  lemma {:induction false} StartBytesFit(name: u32, specs: seq<Spec>)
    requires |specs| <= 4096
    ensures var b := StartBytes(name, specs);
            Whole(b) && At16(b, 0) == START && At16(b, 2) == 16 && At32(b, 20) == name && AttrsFit(b) && AttrCount(b) == |specs| &&
            forall i :: 0 <= i < |specs| ==> AttrPos(b, i) == 36 + 20 * i
  {
    var b := StartBytes(name, specs);
    assert b[..36] == StartHeader(name, |specs|);
    StartHeaderReads(b, name, |specs|);
    ScaleIsTimes(|specs|, 20);
    forall i | 0 <= i < |specs| ensures AttrPos(b, i) == 36 + 20 * i { ScaleIsTimes(i, 20); }
  }

  lemma {:induction false} SpecInChunk(b: seq<byte>, specs: seq<Spec>, i: nat)
    requires i < |specs| && |b| == 36 + 20 * |specs| && b[36..] == SpecBytes(specs)
    ensures b[36 + 20 * i..36 + 20 * i + 20] == specs[i].Bytes()
  {
    SpecIsThere(specs, i);
    assert b[36..36 + 20 * |specs|] == b[36..];
    SubSlice(b, 36, 20 * |specs|, 20 * i, 20 * i + 20);
  }

  lemma {:induction false} StartBytesKeyValue(b: seq<byte>, specs: seq<Spec>, i: nat, ss: seq<string>)
    requires AttrsFit(b) && AttrCount(b) == |specs| && i < |specs| && AttrPos(b, i) == 36 + 20 * i
    requires |b| == 36 + 20 * |specs| && b[36..] == SpecBytes(specs)
    ensures KeyValue(b, i, ss) == specs[i].KeyValue(ss)
  {
    SpecInChunk(b, specs, i);
    FieldsRead(b, 36 + 20 * i, specs[i].ns, specs[i].name, specs[i].raw, specs[i].kind, specs[i].value);
  }

  /** What the parser reads in the attributes. */
  function ReadSpecs(specs: seq<Spec>, ss: seq<string>): (kvs: seq<Option<(string, string)>>)
    ensures |kvs| == |specs|
  {
    seq(|specs|, i requires 0 <= i < |specs| => specs[i].KeyValue(ss))
  }

  lemma {:induction false} StartBytesKeyValues(name: u32, specs: seq<Spec>, ss: seq<string>)
    requires |specs| <= 4096
    ensures AttrsFit(StartBytes(name, specs)) && KeyValues(StartBytes(name, specs), ss) == ReadSpecs(specs, ss)
  {
    var b := StartBytes(name, specs);
    StartBytesFit(name, specs);
    assert b[36..] == SpecBytes(specs);
    forall i | 0 <= i < |specs| ensures KeyValues(b, ss)[i] == specs[i].KeyValue(ss) {
      StartBytesKeyValue(b, specs, i, ss);
    }
  }

  lemma {:induction false} StartBytesRead(name: u32, specs: seq<Spec>, ss: seq<string>)
    requires |specs| <= 4096 && name < |ss| < NO_INDEX && Collect(ReadSpecs(specs, ss)).Some?
    ensures StartTag(StartBytes(name, specs), ss) == Some(Element(ss[name], Collect(ReadSpecs(specs, ss)).value, []))
  {
    StartBytesFit(name, specs);
    StartBytesKeyValues(name, specs, ss);
  }

  lemma {:induction false} EndBytesRead(name: u32)
    ensures Whole(EndBytes(name)) && At16(EndBytes(name), 0) == END && At32(EndBytes(name), 20) == name
  {
    var b := EndBytes(name);
    assert b[0..2] == Le16(END) && b[2..4] == Le16(16) && b[4..8] == Le32(24) && b[20..24] == Le32(name);
    HalfIs(b, 0, END);
    HalfIs(b, 2, 16);
    WordThere(b, 4, 24);
    WordThere(b, 20, name);
  }

  // ---- The resource map ----

  function MakeMap(ids: seq<u32>): (b: seq<byte>)
    requires 8 + 4 * |ids| < 0x1_0000_0000
    ensures |b| == 8 + 4 * |ids|
  {
    Le16(RESOURCE_MAP) + Le16(8) + Le32(8 + 4 * |ids|) + Flat(ids)
  }

  lemma {:induction false} MakeMapReads(ids: seq<u32>)
    requires 8 + 4 * |ids| < 0x1_0000_0000
    ensures Whole(MakeMap(ids)) && At16(MakeMap(ids), 0) == RESOURCE_MAP
  {
    var b := MakeMap(ids);
    assert b[0..2] == Le16(RESOURCE_MAP) && b[2..4] == Le16(8) && b[4..8] == Le32(8 + 4 * |ids|);
    HalfIs(b, 0, RESOURCE_MAP);
    HalfIs(b, 2, 8);
    WordThere(b, 4, 8 + 4 * |ids|);
  }
}
