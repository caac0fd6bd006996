/**
  inject of tools/axml_inject.py: the manifest gets extractNativeLibs="true" and one provider for each
  process, and parses to the same tree otherwise. Every exception is None.
*/
module AxmlInject {
  import opened Wrappers
  import opened Words
  import opened AxmlStrings
  import opened AxmlParser
  import opened AxmlEdit
  import opened AxmlProviders
  import P = AxmlProcesses

  // ---- Finding things ----

  /** The chunks of the file behind its header. */
  function Chunks(rest: seq<byte>): Option<seq<seq<byte>>> {
    if rest == [] then Some([])
    else if !ChunkOk(rest) then None
    else
      var size := At32(rest, 4);
      var others := Chunks(rest[size..]);
      if others.None? then None else Some([rest[..size]] + others.value)
  }

  function Kind(b: seq<byte>): nat { if |b| < 2 then 0 else At16(b, 0) }

  function CountKind(parts: seq<seq<byte>>, kind: nat): nat {
    if parts == [] then 0 else (if Kind(parts[0]) == kind then 1 else 0) + CountKind(parts[1..], kind)
  }

  /** The first chunk of this kind. */
  function FirstOf(parts: seq<seq<byte>>, kind: nat): (r: seq<byte>)
    requires CountKind(parts, kind) > 0
    ensures r in parts && Kind(r) == kind
  {
    if Kind(parts[0]) == kind then parts[0] else FirstOf(parts[1..], kind)
  }

  function Occurrences(ss: seq<string>, s: string): nat {
    if ss == [] then 0 else (if ss[0] == s then 1 else 0) + Occurrences(ss[1..], s)
  }

  predicate Unambiguous(ss: seq<string>) {
    Occurrences(ss, ANDROID_URI) <= 1 && forall i :: 0 <= i < |ATTRIBUTES| ==> Occurrences(ss, ATTRIBUTES[i].0) <= 1
  }

  function FindChild(es: seq<Element>, tag: string): (r: Option<nat>)
    ensures r.Some? ==> r.value < |es| && es[r.value].tag == tag && forall k :: 0 <= k < r.value ==> es[k].tag != tag
    ensures r.None? ==> forall k :: 0 <= k < |es| ==> es[k].tag != tag
  {
    if es == [] then None
    else if es[0].tag == tag then Some(0)
    else
      var r := FindChild(es[1..], tag);
      if r.None? then None else Some(r.value + 1)
  }

  /** s.split(";") */
  function Split(s: string): seq<string> {
    if s == "" then [""]
    else
      var rest := Split(s[1..]);
      if s[0] == ';' then [""] + rest else if rest == [] then [[s[0]]] else [[s[0]] + rest[0]] + rest[1..]
  }

  /** No provider of the application has a name or an authority that the new ones will have. */
  predicate NoCollision(app: Element, package: string, n: nat) {
    forall k :: 0 <= k < |app.children| && app.children[k].tag == "provider" ==> !Collides(app.children[k], package, n)
  }

  predicate Collides(e: Element, package: string, n: nat) {
    var name, authorities := P.Attr(e, "name"), P.Attr(e, "authorities");
    || (name.Some? && name.value in Classes(P.MAX_BOOTSTRAP_PROCESSES))
    || exists a :: a in Split(if authorities.None? then "" else authorities.value) && a in Authorities(package, n)
  }

  // ---- The resource map ----

  /** The ids in the map, padded for the new strings. */
  function OldIds(parts: seq<seq<byte>>, n: nat): Option<seq<u32>> {
    var ids := if CountKind(parts, RESOURCE_MAP) == 0 then Some([]) else IdsOf(FirstOf(parts, RESOURCE_MAP));
    if ids.None? then None
    else Some(ids.value + seq(if n > |ids.value| then n - |ids.value| else 0, _ => 0))
  }

  function IdsOf(b: seq<byte>): Option<seq<u32>> {
    if |b| < 8 || |b| % 4 != 0 then None
    else Some(seq((|b| - 8) / 4, i requires 0 <= i < (|b| - 8) / 4 => At32(b, 8 + 4 * i)))
  }

  /** Enters the ids of the first k attributes; None if one of them has another id. */
  function EnterIds(ids: seq<u32>, ss: seq<string>, k: nat): Option<seq<u32>>
    requires k <= |ATTRIBUTES|
  {
    if k == 0 then Some(ids)
    else
      var before := EnterIds(ids, ss, k - 1);
      var (name, id) := ATTRIBUTES[k - 1];
      if before.None? || name !in ss || Index(ss, name) >= |before.value| then None
      else
        var i := Index(ss, name);
        if before.value[i] != 0 && before.value[i] != id then None else Some(before.value[i := id])
  }

  // ---- The application's chunks ----

  /** The names of the open elements and where the application starts and ends. */
  datatype Place = Place(stack: seq<string>, start: Option<nat>, end: Option<nat>)

  function LocateStep(l: Place, i: nat, b: seq<byte>, ss: seq<string>): Option<Place> {
    if Kind(b) == START then
      if |b| < 24 || At32(b, 20) >= |ss| then None
      else
        var name := ss[At32(b, 20)];
        if l.stack == [] && name != "manifest" then None
        else if l.stack == ["manifest"] && name == "application" then
          if l.start.Some? then None else Some(l.(stack := l.stack + [name], start := Some(i)))
        else Some(l.(stack := l.stack + [name]))
    else if Kind(b) == END then
      if l.stack == [] || |b| < 24 || At32(b, 20) >= |ss| || l.stack[|l.stack| - 1] != ss[At32(b, 20)] then None
      else Some(Place(l.stack[..|l.stack| - 1], l.start, if l.stack == ["manifest", "application"] then Some(i) else l.end))
    else Some(l)
  }

  function Locate(parts: seq<seq<byte>>, n: nat, ss: seq<string>): (r: Option<Place>)
    requires n <= |parts|
    ensures r.Some? && r.value.start.Some? ==> r.value.start.value < n && Kind(parts[r.value.start.value]) == START
  {
    if n == 0 then Some(Place([], None, None))
    else
      var before := Locate(parts, n - 1, ss);
      if before.None? then None else LocateStep(before.value, n - 1, parts[n - 1], ss)
  }

  // ---- The plan ----

  /** All that inject works out before it writes. */
  datatype Plan = Plan(package: string, processes: seq<Option<string>>, parts: seq<seq<byte>>, strings: seq<string>,
                       ids: seq<u32>, start: nat)

  function PlanFor(data: seq<byte>, root: Element, package: string): Option<Plan>
    requires |data| >= 8
  {
    var k := FindChild(root.children, "application");
    if "package" !in root.attrs || root.attrs["package"] != package || k.None? then None
    else
      var app := root.children[k.value];
      var processes := P.BootstrapProcesses(app, package);
      if processes.None? || !NoCollision(app, package, |processes.value|) then None
      else
        var parts := Chunks(data[8..]);
        if parts.None? then None else PlanOn(parts.value, package, processes.value)
  }

  function PlanOn(parts: seq<seq<byte>>, package: string, processes: seq<Option<string>>): Option<Plan> {
    if CountKind(parts, POOL) != 1 || CountKind(parts, RESOURCE_MAP) > 1 then None
    else
      var pool := FirstOf(parts, POOL);
      var old_ := StringPool(pool);
      if old_.None? || |pool| < 16 || At32(pool, 12) != 0 then None
      else if ANDROID_URI !in old_.value || !Unambiguous(old_.value) then None
      else
        var ss := AddMissing(old_.value, Wanted(package, processes));
        var blank := OldIds(parts, |ss|);
        if blank.None? then None
        else
          var ids, place := EnterIds(blank.value, ss, |ATTRIBUTES|), Locate(parts, |parts|, ss);
          if ids.None? || place.None? || place.value.start.None? || place.value.end.None? then None
          else Some(Plan(package, processes, parts, ss, ids.value, place.value.start.value))
  }

  // ---- The output ----

  /** The provider chunks from process i on. */
  function Providers(ss: seq<string>, package: string, processes: seq<Option<string>>, i: nat): Option<seq<seq<byte>>>
    requires i <= |processes|
    decreases |processes| - i
  {
    if i == |processes| then Some([])
    else if !HasStrings(ss, BootstrapClass(i), Authority(package, i), processes[i]) then None
    else
      var rest := Providers(ss, package, processes, i + 1);
      if rest.None? then None
      else Some(ProviderChunks(ss, BootstrapClass(i), Authority(package, i), processes[i]) + rest.value)
  }

  /** The application's start chunk with extractNativeLibs, and the providers. */
  function NewStart(p: Plan, b: seq<byte>): Option<seq<seq<byte>>> {
    if !AttrsFit(b) || ANDROID_URI !in p.strings || "extractNativeLibs" !in p.strings || |p.strings| > MAX_STRINGS then None
    else
      var changed := SetExtract(b, Index(p.strings, ANDROID_URI), Index(p.strings, "extractNativeLibs"));
      var providers := Providers(p.strings, p.package, p.processes, 0);
      if changed.None? || providers.None? then None else Some([changed.value] + providers.value)
  }

  /** The chunks that take the place of chunk i. */
  function Pieces(p: Plan, i: nat): Option<seq<seq<byte>>>
    requires i < |p.parts|
  {
    var b := p.parts[i];
    if Kind(b) == POOL then
      if !Packable(p.strings) || 8 + 4 * |p.ids| >= 0x1_0000_0000 then None
      else Some([MakePool(p.strings)] + if CountKind(p.parts, RESOURCE_MAP) == 0 then [MakeMap(p.ids)] else [])
    else if Kind(b) == RESOURCE_MAP then
      if 8 + 4 * |p.ids| >= 0x1_0000_0000 then None else Some([MakeMap(p.ids)])
    else if i == p.start then NewStart(p, b)
    else Some([b])
  }

  function AllPieces(p: Plan, n: nat): Option<seq<seq<byte>>>
    requires n <= |p.parts|
  {
    if n == 0 then Some([])
    else
      var before, now := AllPieces(p, n - 1), Pieces(p, n - 1);
      if before.None? || now.None? then None else Some(before.value + now.value)
  }

  function Output(data: seq<byte>, chunks: seq<seq<byte>>): Option<seq<byte>>
    requires |data| >= 8
  {
    var longer := data[..8] + Concat(chunks);
    if |longer| >= 0x1_0000_0000 then None else Some(Overwrite(longer, 4, Le32(|longer|)))
  }

  /** The rewritten file, if it can be parsed. */
  function Rewrite(data: seq<byte>, package: string): Option<seq<byte>> {
    var root := Parse(data);
    if root.None? then None
    else
      var plan := PlanFor(data, root.value, package);
      if plan.None? then None
      else
        var chunks := AllPieces(plan.value, |plan.value.parts|);
        var out := if chunks.None? then None else Output(data, chunks.value);
        if out.None? || Parse(out.value).None? then None else out
  }

  // ---- The final recheck ----

  predicate HasClass(e: Element, classes: seq<string>) {
    e.tag == "provider" && P.Attr(e, "name").Some? && P.Attr(e, "name").value in classes
  }

  function CountClasses(es: seq<Element>, classes: seq<string>): nat {
    if es == [] then 0 else (if HasClass(es[0], classes) then 1 else 0) + CountClasses(es[1..], classes)
  }

  /** The provider for process i, with everything it should say. */
  predicate IsProvider(e: Element, package: string, i: nat, process: Option<string>) {
    && e.tag == "provider" && P.Is(e, "name", BootstrapClass(i)) && P.Is(e, "authorities", Authority(package, i))
    && P.Is(e, "exported", "false") && P.Attr(e, "process") == process && P.Is(e, "initOrder", Decimal(0x7FFF_FFFF))
  }

  predicate Recheck(checked: Element, package: string, processes: seq<Option<string>>) {
    var k := FindChild(checked.children, "application");
    && "package" in checked.attrs && checked.attrs["package"] == package
    && k.Some? && P.Is(checked.children[k.value], "extractNativeLibs", "true")
    && var es := checked.children[k.value].children;
       && CountClasses(es, Classes(|processes|)) == |processes|
       && forall i :: 0 <= i < |processes| ==> exists j :: 0 <= j < |es| && IsProvider(es[j], package, i, processes[i])
  }

  /** inject: rewrite the manifest and look at the result. */
  function Inject(data: seq<byte>, package: string): Option<seq<byte>> {
    var out := Rewrite(data, package);
    if out.None? then None
    else
      var processes := PlanFor(data, Parse(data).value, package).value.processes;
      if Recheck(Parse(out.value).value, package, processes) then out else None
  }

  // ---- The resource ids ----

  /** An id of the attributes that string i names. */
  ghost predicate OwnId(ss: seq<string>, i: nat, id: u32) {
    i < |ss| && exists j :: 0 <= j < |ATTRIBUTES| && ss[i] == ATTRIBUTES[j].0 && id == ATTRIBUTES[j].1
  }

  lemma {:induction false} OtherIdsStay(ids: seq<u32>, ss: seq<string>, k: nat)
    requires k <= |ATTRIBUTES| && EnterIds(ids, ss, k).Some?
    ensures var r := EnterIds(ids, ss, k).value;
            |r| == |ids| && forall i :: 0 <= i < |ids| ==> r[i] == ids[i] || (ids[i] == 0 && OwnId(ss, i, r[i]))
  {
    if k > 0 { OtherIdsStay(ids, ss, k - 1); }
  }

  lemma LengthsDiffer(j: nat, k: nat)
    requires j < k < |ATTRIBUTES|
    ensures ATTRIBUTES[j].0 != ATTRIBUTES[k].0
  {
  }

  lemma {:induction false} AttributesHaveIds(ids: seq<u32>, ss: seq<string>, k: nat, j: nat)
    requires j < k <= |ATTRIBUTES| && EnterIds(ids, ss, k).Some?
    ensures var r, name := EnterIds(ids, ss, k).value, ATTRIBUTES[j].0; name in ss && Index(ss, name) < |r| && r[Index(ss, name)] == ATTRIBUTES[j].1
  {
    if j < k - 1 {
      AttributesHaveIds(ids, ss, k - 1, j);
      LengthsDiffer(j, k - 1);
    }
  }

  /** Every id is as it was, or was blank and is that of an attribute; the attributes have their ids. */
  lemma {:induction false} IdsEntered(ids: seq<u32>, ss: seq<string>)
    requires EnterIds(ids, ss, |ATTRIBUTES|).Some?
    ensures var r := EnterIds(ids, ss, |ATTRIBUTES|).value;
            && |r| == |ids| && (forall i :: 0 <= i < |ids| ==> r[i] == ids[i] || (ids[i] == 0 && OwnId(ss, i, r[i])))
            && forall j :: 0 <= j < |ATTRIBUTES| ==>
                 ATTRIBUTES[j].0 in ss && Index(ss, ATTRIBUTES[j].0) < |r| && r[Index(ss, ATTRIBUTES[j].0)] == ATTRIBUTES[j].1
  {
    OtherIdsStay(ids, ss, |ATTRIBUTES|);
    forall j | 0 <= j < |ATTRIBUTES|
      ensures var r := EnterIds(ids, ss, |ATTRIBUTES|).value;
              ATTRIBUTES[j].0 in ss && Index(ss, ATTRIBUTES[j].0) < |r| && r[Index(ss, ATTRIBUTES[j].0)] == ATTRIBUTES[j].1
    {
      AttributesHaveIds(ids, ss, |ATTRIBUTES|, j);
    }
  }

  // ---- The loops of inject ----

  method AddStrings(old_: seq<string>, wanted: seq<string>) returns (ss: seq<string>)
    ensures ss == AddMissing(old_, wanted)
  {
    ss := old_;
    for i := 0 to |wanted|
      invariant AddMissing(ss, wanted[i..]) == AddMissing(old_, wanted)
    {
      assert wanted[i..][1..] == wanted[i + 1..];
      if wanted[i] !in ss { ss := ss + [wanted[i]]; }
    }
  }

  lemma {:induction false} EnterStaysNone(ids: seq<u32>, ss: seq<string>, m: nat, n: nat)
    requires m <= n <= |ATTRIBUTES| && EnterIds(ids, ss, m).None?
    ensures EnterIds(ids, ss, n).None?
  {
    if m < n { EnterStaysNone(ids, ss, m, n - 1); }
  }

  method EnterAllIds(blank: seq<u32>, ss: seq<string>) returns (r: Option<seq<u32>>)
    ensures r == EnterIds(blank, ss, |ATTRIBUTES|)
  {
    var ids := blank;
    for k := 0 to |ATTRIBUTES|
      invariant EnterIds(blank, ss, k) == Some(ids)
    {
      var (name, id) := ATTRIBUTES[k];
      if name !in ss || Index(ss, name) >= |ids| || (ids[Index(ss, name)] != 0 && ids[Index(ss, name)] != id) {
        EnterStaysNone(blank, ss, k + 1, |ATTRIBUTES|);
        return None;
      }
      ids := ids[Index(ss, name) := id];
    }
    return Some(ids);
  }

  lemma {:induction false} LocateStaysNone(parts: seq<seq<byte>>, m: nat, n: nat, ss: seq<string>)
    requires m <= n <= |parts| && Locate(parts, m, ss).None?
    ensures Locate(parts, n, ss).None?
  {
    if m < n { LocateStaysNone(parts, m, n - 1, ss); }
  }

  method FindApplication(parts: seq<seq<byte>>, ss: seq<string>) returns (r: Option<Place>)
    ensures r == Locate(parts, |parts|, ss)
  {
    var l := Place([], None, None);
    for i := 0 to |parts|
      invariant Locate(parts, i, ss) == Some(l)
    {
      var next := LocateStep(l, i, parts[i], ss);
      if next.None? {
        LocateStaysNone(parts, i + 1, |parts|, ss);
        return None;
      }
      l := next.value;
    }
    return Some(l);
  }

  method EditStart(b: seq<byte>, ns: u32, name: u32) returns (r: Option<seq<byte>>)
    requires AttrsFit(b)
    ensures r == SetExtract(b, ns, name)
  {
    for i := 0 to AttrCount(b)
      invariant FindExtract(b, 0, ns, name) == FindExtract(b, i, ns, name)
    {
      if IsExtract(b, i, ns, name) { return Some(SetTrue(b, i)); }
    }
    if !CanAppend(b) { return None; }
    return Some(AppendTrue(b, ns, name));
  }

  method ReplaceChunk(p: Plan, i: nat) returns (r: Option<seq<seq<byte>>>)
    requires i < |p.parts|
    ensures r == Pieces(p, i)
  {
    var b := p.parts[i];
    if Kind(b) == POOL || Kind(b) == RESOURCE_MAP || i != p.start { return Pieces(p, i); }
    if !AttrsFit(b) || ANDROID_URI !in p.strings || "extractNativeLibs" !in p.strings || |p.strings| > MAX_STRINGS { return None; }
    var changed := EditStart(b, Index(p.strings, ANDROID_URI), Index(p.strings, "extractNativeLibs"));
    var providers := Providers(p.strings, p.package, p.processes, 0);
    return if changed.None? || providers.None? then None else Some([changed.value] + providers.value);
  }

  lemma {:induction false} PiecesStayNone(p: Plan, m: nat, n: nat)
    requires m <= n <= |p.parts| && AllPieces(p, m).None?
    ensures AllPieces(p, n).None?
  {
    if m < n { PiecesStayNone(p, m, n - 1); }
  }

  method ReplaceChunks(p: Plan) returns (r: Option<seq<seq<byte>>>)
    ensures r == AllPieces(p, |p.parts|)
  {
    var out: seq<seq<byte>> := [];
    for i := 0 to |p.parts|
      invariant AllPieces(p, i) == Some(out)
    {
      var now := ReplaceChunk(p, i);
      if now.None? {
        PiecesStayNone(p, i + 1, |p.parts|);
        return None;
      }
      out := out + now.value;
    }
    return Some(out);
  }

  method MakePlan(parts: seq<seq<byte>>, package: string, processes: seq<Option<string>>) returns (r: Option<Plan>)
    ensures r == PlanOn(parts, package, processes)
  {
    if CountKind(parts, POOL) != 1 || CountKind(parts, RESOURCE_MAP) > 1 { return None; }
    var pool := FirstOf(parts, POOL);
    var old_ := StringPool(pool);
    if old_.None? || |pool| < 16 || At32(pool, 12) != 0 { return None; }
    if ANDROID_URI !in old_.value || !Unambiguous(old_.value) { return None; }
    var ss := AddStrings(old_.value, Wanted(package, processes));
    var blank := OldIds(parts, |ss|);
    if blank.None? { return None; }
    var ids := EnterAllIds(blank.value, ss);
    var place := FindApplication(parts, ss);
    if ids.None? || place.None? || place.value.start.None? || place.value.end.None? { return None; }
    return Some(Plan(package, processes, parts, ss, ids.value, place.value.start.value));
  }

  /** inject up to the parse of what was written. */
  method RewriteManifest(data: seq<byte>, package: string)
    returns (out: Option<seq<byte>>, checked: Option<Element>, processes: seq<Option<string>>)
    ensures out == Rewrite(data, package)
    ensures out.Some? ==> checked == Parse(out.value) && processes == PlanFor(data, Parse(data).value, package).value.processes
  {
    out, checked, processes := None, None, [];
    var root := BinaryManifest(data);
    if root.None? { return; }
    var plan := MakeWholePlan(data, root.value, package);
    if plan.None? { return; }
    processes := plan.value.processes;
    var chunks := ReplaceChunks(plan.value);
    if chunks.None? { return; }
    out := Output(data, chunks.value);
    if out.None? { return; }
    checked := BinaryManifest(out.value);
    if checked.None? { out := None; }
  }

  method MakeWholePlan(data: seq<byte>, root: Element, package: string) returns (r: Option<Plan>)
    requires |data| >= 8
    ensures r == PlanFor(data, root, package)
  {
    var k := FindChild(root.children, "application");
    if "package" !in root.attrs || root.attrs["package"] != package || k.None? { return None; }
    var app := root.children[k.value];
    var processes := P.FindProcesses(app, package);
    if processes.None? || !NoCollision(app, package, |processes.value|) { return None; }
    var parts := Chunks(data[8..]);
    if parts.None? { return None; }
    r := MakePlan(parts.value, package, processes.value);
  }

  /** inject. */
  method InjectManifest(data: seq<byte>, package: string) returns (r: Option<seq<byte>>)
    ensures r == Inject(data, package)
  {
    var out, checked, processes := RewriteManifest(data, package);
    if out.None? || !Recheck(checked.value, package, processes) { return None; }
    return out;
  }
}
