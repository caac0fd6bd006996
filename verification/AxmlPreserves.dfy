/**
  Injection preserves the manifest: a step-by-step simulation between parsing the input and parsing the
  output of tools/axml_inject.py.
*/
module AxmlPreserves {
  import opened Wrappers
  import opened Words
  import opened AxmlStrings
  import opened AxmlParser
  import opened AxmlEdit
  import opened AxmlProviders
  import opened AxmlInject
  import P = AxmlProcesses

  // ---- The intended tree ----

  /** What becomes of the application: its attributes before and after, and its new first children. */
  datatype Change = Change(before: map<string, string>, attrs: map<string, string>, providers: seq<Element>)

  function Patch(app: Element, ch: Change): Element { Element(app.tag, ch.attrs, ch.providers + app.children) }

  function PatchChild(e: Element, k: nat, ch: Change): Element
    requires k < |e.children|
  {
    e.(children := e.children[k := Patch(e.children[k], ch)])
  }

  /** One provider element for each process. */
  function NewProviders(package: string, processes: seq<Option<string>>, i: nat): seq<Element>
    requires i <= |processes|
    decreases |processes| - i
  {
    if i == |processes| then []
    else [ProviderElement(BootstrapClass(i), Authority(package, i), processes[i])] + NewProviders(package, processes, i + 1)
  }

  // ---- The two parsers side by side ----

  function Names(es: seq<Element>): (r: seq<string>)
    ensures |r| == |es| && forall i :: 0 <= i < |es| ==> r[i] == es[i].tag
  {
    seq(|es|, i requires 0 <= i < |es| => es[i].tag)
  }

  ghost predicate NoApp(es: seq<Element>) { forall k :: 0 <= k < |es| ==> es[k].tag != "application" }

  ghost predicate FirstApp(es: seq<Element>, k: nat, ch: Change) {
    k < |es| && es[k].tag == "application" && es[k].attrs == ch.before && forall j :: 0 <= j < k ==> es[j].tag != "application"
  }

  /** The application has not been seen. */
  ghost predicate Before(p: Parser, q: Parser) {
    && q.stack == p.stack && q.root == p.root
    && (p.stack != [] ==> NoApp(p.stack[0].children)) && (|p.stack| >= 2 ==> p.stack[1].tag != "application")
  }

  /** The application is open. */
  ghost predicate Inside(p: Parser, q: Parser, ch: Change) {
    && |p.stack| >= 2 && NoApp(p.stack[0].children) && p.stack[1].tag == "application" && p.stack[1].attrs == ch.before
    && q.stack == p.stack[1 := Patch(p.stack[1], ch)] && q.root == p.root
  }

  /** The application is child k of the open manifest. */
  ghost predicate Behind(p: Parser, q: Parser, k: nat, ch: Change) {
    && p.stack != [] && FirstApp(p.stack[0].children, k, ch)
    && q.stack == p.stack[0 := PatchChild(p.stack[0], k, ch)] && q.root == p.root
    && (|p.stack| >= 2 ==> p.stack[1].tag != "application")
  }

  /** The manifest is closed. */
  ghost predicate Closed(p: Parser, q: Parser, k: nat, ch: Change) {
    && p.stack == [] && q.stack == [] && p.root.Some? && FirstApp(p.root.value.children, k, ch)
    && q.root == Some(PatchChild(p.root.value, k, ch))
  }

  ghost predicate Seen(p: Parser, q: Parser, ch: Change) {
    Inside(p, q, ch) || (exists k :: Behind(p, q, k, ch)) || exists k :: Closed(p, q, k, ch)
  }

  ghost predicate Shape(p: Parser, q: Parser, seen: bool, ch: Change) {
    && (p.stack != [] ==> p.root.None?)
    && if seen then Seen(p, q, ch) else Before(p, q)
  }

  // ---- Opening and closing ----

  lemma {:induction false} OpenKeeps(p: Parser, q: Parser, e: Element, seen: bool, ch: Change)
    requires Shape(p, q, seen, ch) && Open(p, e).Some? && e.children == []
    requires |p.stack| == 1 ==> e.tag != "application"
    ensures Open(q, e).Some? && Shape(Open(p, e).value, Open(q, e).value, seen, ch)
  {
    var p', q' := p.(stack := p.stack + [e]), q.(stack := q.stack + [e]);
    if seen {
      if k :| Behind(p, q, k, ch) { assert Behind(p', q', k, ch); }
    }
  }

  lemma {:induction false} OpenAppKeeps(p: Parser, q: Parser, e: Element, ch: Change)
    requires Shape(p, q, false, ch) && |p.stack| == 1 && e.tag == "application" && e.attrs == ch.before && Open(p, e).Some?
    ensures Shape(Open(p, e).value, q.(stack := q.stack + [Patch(e, ch)]), true, ch)
  {
    assert Inside(Open(p, e).value, q.(stack := q.stack + [Patch(e, ch)]), ch);
  }

  lemma AddedInside(app: Element, e: Element, ch: Change)
    ensures AddChild(Patch(app, ch), e) == Patch(AddChild(app, e), ch)
  {
    assert ch.providers + app.children + [e] == ch.providers + (app.children + [e]);
  }

  lemma AddedBehind(m: Element, e: Element, k: nat, ch: Change)
    requires k < |m.children|
    ensures AddChild(PatchChild(m, k, ch), e) == PatchChild(AddChild(m, e), k, ch)
  {
  }

  lemma AddedApp(m: Element, app: Element, ch: Change)
    ensures AddChild(m, Patch(app, ch)) == PatchChild(AddChild(m, app), |m.children|, ch)
  {
  }

  lemma {:induction false} CloseBefore(p: Parser, q: Parser)
    requires Before(p, q) && p.stack != []
    ensures Before(Close(p), Close(q))
  {
  }

  lemma {:induction false} CloseInside(p: Parser, q: Parser, ch: Change)
    requires Inside(p, q, ch)
    ensures Seen(Close(p), Close(q), ch)
  {
    var n := |p.stack| - 1;
    if n == 1 {
      AddedApp(p.stack[0], p.stack[1], ch);
      assert Behind(Close(p), Close(q), |p.stack[0].children|, ch);
    } else {
      AddedInside(p.stack[1], p.stack[n], ch);
      assert Inside(Close(p), Close(q), ch);
    }
  }

  lemma {:induction false} CloseBehind(p: Parser, q: Parser, k: nat, ch: Change)
    requires Behind(p, q, k, ch)
    ensures Seen(Close(p), Close(q), ch)
  {
    var n := |p.stack| - 1;
    if n == 0 {
      assert Closed(Close(p), Close(q), k, ch);
    } else {
      AddedBehind(p.stack[0], p.stack[n], k, ch);
      assert Behind(Close(p), Close(q), k, ch);
    }
  }

  lemma {:induction false} CloseKeeps(p: Parser, q: Parser, seen: bool, ch: Change)
    requires Shape(p, q, seen, ch) && p.stack != []
    ensures q.stack != [] && Shape(Close(p), Close(q), seen, ch)
  {
    if !seen {
      CloseBefore(p, q);
    } else if Inside(p, q, ch) {
      CloseInside(p, q, ch);
    } else {
      var k :| Behind(p, q, k, ch);
      CloseBehind(p, q, k, ch);
    }
  }

  // ---- The change to the application ----

  /** The two indices SetExtract works with. */
  function UriIndex(plan: Plan): u32
    requires |plan.strings| <= MAX_STRINGS && ANDROID_URI in plan.strings
  {
    Index(plan.strings, ANDROID_URI)
  }

  function ExtractIndex(plan: Plan): u32
    requires |plan.strings| <= MAX_STRINGS && "extractNativeLibs" in plan.strings
  {
    Index(plan.strings, "extractNativeLibs")
  }

  /** The application's start chunk can be edited. */
  predicate Editable(plan: Plan) {
    && plan.start < |plan.parts| && AttrsFit(plan.parts[plan.start]) && |plan.strings| <= MAX_STRINGS
    && ANDROID_URI in plan.strings && "extractNativeLibs" in plan.strings
    && SetExtract(plan.parts[plan.start], UriIndex(plan), ExtractIndex(plan)).Some?
  }

  function Edited(plan: Plan): (r: seq<byte>)
    requires Editable(plan)
    ensures |r| >= 36
  {
    SetExtract(plan.parts[plan.start], UriIndex(plan), ExtractIndex(plan)).value
  }

  function AttrsOf(e: Option<Element>): map<string, string> { if e.None? then map[] else e.value.attrs }

  /** The application's attributes as read from the old and from the edited chunk, and the providers. */
  function ChangeOf(plan: Plan, old_: seq<string>): Change
    requires Editable(plan)
  {
    Change(AttrsOf(StartTag(plan.parts[plan.start], old_)), AttrsOf(StartTag(Edited(plan), plan.strings)),
           NewProviders(plan.package, plan.processes, 0))
  }

  // ---- One chunk of the input and the chunks that replace it ----

  ghost predicate Rel(p: Parser, q: Parser, l: Place, old_: seq<string>, plan: Plan, ch: Change) {
    && Shape(p, q, l.start.Some?, ch) && Names(p.stack) == l.stack && (l.stack != [] ==> l.stack[0] == "manifest")
    && if p.strings.None? then q.strings.None? else p.strings == Some(old_) && q.strings == Some(plan.strings)
  }

  /** What is known about the plan. */
  ghost predicate Planned(plan: Plan, old_: seq<string>, ch: Change) {
    && |plan.strings| <= MAX_STRINGS && Extends(old_, plan.strings)
    && (forall i :: 0 <= i < |plan.parts| && Kind(plan.parts[i]) == POOL ==> StringPool(plan.parts[i]) == Some(old_))
    && AllWhole(plan.parts) && Editable(plan) && ch == ChangeOf(plan, old_)
  }

  lemma {:induction false} FoldOne(q: Parser, b: seq<byte>)
    requires Whole(b)
    ensures AllWhole([b]) && Fold(q, [b]) == Step(q, b, b)
  {
    assert [b][1..] == [];
  }

  lemma {:induction false} FoldTwo(q: Parser, a: seq<byte>, b: seq<byte>)
    requires Whole(a) && Whole(b)
    ensures AllWhole([a, b])
    ensures Fold(q, [a, b]) == if Step(q, a, a).None? then None else Step(Step(q, a, a).value, b, b)
  {
    assert [a, b][1..] == [b];
    if Step(q, a, a).Some? { FoldOne(Step(q, a, a).value, b); }
  }

  lemma {:induction false} FoldSplit(q: Parser, a: seq<seq<byte>>, b: seq<seq<byte>>)
    requires AllWhole(a) && AllWhole(b)
    ensures AllWhole(a + b)
    ensures Fold(q, a + b) == if Fold(q, a).None? then None else Fold(Fold(q, a).value, b)
    decreases |a|
  {
    if a == [] {
      assert a + b == b;
    } else {
      assert (a + b)[1..] == a[1..] + b;
      var next := Step(q, a[0], a[0]);
      if next.Some? { FoldSplit(next.value, a[1..], b); }
    }
  }

  lemma {:induction false} PoolPiece(q: Parser, plan: Plan, i: nat)
    requires i < |plan.parts| && Kind(plan.parts[i]) == POOL && Pieces(plan, i).Some? && |plan.strings| <= MAX_STRINGS
    ensures AllWhole(Pieces(plan, i).value) && Fold(q, Pieces(plan, i).value) == Some(q.(strings := Some(plan.strings)))
  {
    var pool, map_ := MakePool(plan.strings), MakeMap(plan.ids);
    HeaderReads(plan.strings);
    PoolRoundTrip(plan.strings);
    assert Whole(pool) && Step(q, pool, pool) == Some(q.(strings := Some(plan.strings)));
    MakeMapReads(plan.ids);
    FoldOne(q, pool);
    FoldTwo(q, pool, map_);
    assert [pool] + [map_] == [pool, map_] && [pool] + [] == [pool];
  }

  lemma {:induction false} MapPiece(q: Parser, plan: Plan, i: nat)
    requires i < |plan.parts| && Kind(plan.parts[i]) == RESOURCE_MAP && Pieces(plan, i).Some?
    ensures AllWhole(Pieces(plan, i).value) && Fold(q, Pieces(plan, i).value) == Some(q)
  {
    MakeMapReads(plan.ids);
    FoldOne(q, MakeMap(plan.ids));
  }

  lemma {:induction false} StartMeans(b: seq<byte>, old_: seq<string>, ss: seq<string>)
    requires |b| >= 24 && Extends(old_, ss) && |ss| <= MAX_STRINGS && At32(b, 20) < |ss| && StartTag(b, old_).Some?
    ensures StartTag(b, ss) == StartTag(b, old_) && StartTag(b, ss).value.tag == ss[At32(b, 20)] && StartTag(b, ss).value.children == []
  {
    StartTagExtends(b, old_, ss);
  }

  lemma NamesGrow(es: seq<Element>, e: Element)
    ensures Names(es + [e]) == Names(es) + [e.tag]
  {
  }

  lemma {:induction false} StartStep(p: Parser, q: Parser, l: Place, i: nat, old_: seq<string>, plan: Plan, ch: Change)
    requires Planned(plan, old_, ch) && i < |plan.parts| && Kind(plan.parts[i]) == START && Rel(p, q, l, old_, plan, ch)
    requires Step(p, plan.parts[i], plan.parts[i]).Some? && LocateStep(l, i, plan.parts[i], plan.strings).Some?
    requires LocateStep(l, i, plan.parts[i], plan.strings).value.start == l.start
    ensures var b := plan.parts[i];
            Step(q, b, b).Some? && Rel(Step(p, b, b).value, Step(q, b, b).value, LocateStep(l, i, b, plan.strings).value, old_, plan, ch)
  {
    var b := plan.parts[i];
    StartMeans(b, old_, plan.strings);
    var e := StartTag(b, old_).value;
    if |p.stack| == 1 { assert l.stack == ["manifest"]; }
    OpenKeeps(p, q, e, l.start.Some?, ch);
    NamesGrow(p.stack, e);
  }

  lemma NamesShrink(p: Parser)
    requires p.stack != []
    ensures Names(Close(p).stack) == Names(p.stack)[..|p.stack| - 1]
  {
  }

  lemma {:induction false} EndStep(p: Parser, q: Parser, l: Place, i: nat, old_: seq<string>, plan: Plan, ch: Change)
    requires Planned(plan, old_, ch) && i < |plan.parts| && Kind(plan.parts[i]) == END && Rel(p, q, l, old_, plan, ch)
    requires Step(p, plan.parts[i], plan.parts[i]).Some? && LocateStep(l, i, plan.parts[i], plan.strings).Some?
    requires Step(q, plan.parts[i], plan.parts[i]).Some?
    ensures var b := plan.parts[i];
            Rel(Step(p, b, b).value, Step(q, b, b).value, LocateStep(l, i, b, plan.strings).value, old_, plan, ch)
  {
    CloseKeeps(p, q, l.start.Some?, ch);
    NamesShrink(p);
  }

  // ---- The application's start chunk ----

  function AddChildren(q: Parser, es: seq<Element>): Parser
    requires q.stack != []
  {
    var n := |q.stack| - 1;
    q.(stack := q.stack[n := q.stack[n].(children := q.stack[n].children + es)])
  }

  lemma {:induction false} OneProvider(q: Parser, ss: seq<string>, class_: string, authority: string, process: Option<string>)
    requires q.strings == Some(ss) && q.stack != [] && HasStrings(ss, class_, authority, process)
    ensures var cs := ProviderChunks(ss, class_, authority, process);
            AllWhole(cs) && Fold(q, cs) == Some(AddChildren(q, [ProviderElement(class_, authority, process)]))
  {
    var e, name := ProviderElement(class_, authority, process), Index(ss, "provider");
    var start, end := StartBytes(name, ProviderSpecs(ss, class_, authority, process)), EndBytes(name);
    ProviderReads(ss, class_, authority, process);
    StartBytesFit(name, ProviderSpecs(ss, class_, authority, process));
    EndBytesRead(name);
    FoldTwo(q, start, end);
    var inner := q.(stack := q.stack + [e]);
    assert Step(q, start, start) == Some(inner);
    CloseProvider(q, e);
  }

  lemma {:induction false} CloseProvider(q: Parser, e: Element)
    requires q.stack != []
    ensures Close(q.(stack := q.stack + [e])) == AddChildren(q, [e])
  {
    var n := |q.stack| - 1;
    assert (q.stack + [e])[..n] + [AddChild(q.stack[n], e)] == AddChildren(q, [e]).stack;
  }

  lemma AddTwice(q: Parser, e: Element, es: seq<Element>)
    requires q.stack != []
    ensures AddChildren(AddChildren(q, [e]), es) == AddChildren(q, [e] + es)
  {
    var n := |q.stack| - 1;
    assert q.stack[n].children + [e] + es == q.stack[n].children + ([e] + es);
  }

  lemma {:induction false} AllProviders(q: Parser, ss: seq<string>, package: string, processes: seq<Option<string>>, i: nat)
    requires q.strings == Some(ss) && q.stack != [] && i <= |processes| && Providers(ss, package, processes, i).Some?
    ensures var cs := Providers(ss, package, processes, i).value;
            AllWhole(cs) && Fold(q, cs) == Some(AddChildren(q, NewProviders(package, processes, i)))
    decreases |processes| - i
  {
    if i < |processes| {
      var e := ProviderElement(BootstrapClass(i), Authority(package, i), processes[i]);
      var first := ProviderChunks(ss, BootstrapClass(i), Authority(package, i), processes[i]);
      OneProvider(q, ss, BootstrapClass(i), Authority(package, i), processes[i]);
      AllProviders(AddChildren(q, [e]), ss, package, processes, i + 1);
      FoldSplit(q, first, Providers(ss, package, processes, i + 1).value);
      AddTwice(q, e, NewProviders(package, processes, i + 1));
    } else {
      AddNone(q);
    }
  }

  lemma AddNone(q: Parser)
    requires q.stack != []
    ensures AddChildren(q, []) == q
  {
    var n := |q.stack| - 1;
    assert q.stack[n].children + [] == q.stack[n].children;
  }

  lemma {:induction false} AppPiecesWhole(plan: Plan, q: Parser)
    requires plan.start < |plan.parts| && Whole(plan.parts[plan.start]) && Kind(plan.parts[plan.start]) == START
    requires Pieces(plan, plan.start).Some?
    ensures AllWhole(Pieces(plan, plan.start).value)
  {
    var b := plan.parts[plan.start];
    SetExtractWhole(b, UriIndex(plan), ExtractIndex(plan));
    var changed := SetExtract(b, UriIndex(plan), ExtractIndex(plan)).value;
    var others := Providers(plan.strings, plan.package, plan.processes, 0).value;
    AllProviders(Parser(Some(plan.strings), [Element("", map[], [])], None), plan.strings, plan.package, plan.processes, 0);
    FoldOne(q, changed);
    FoldSplit(q, [changed], others);
  }

  lemma {:induction false} EditedTag(plan: Plan, old_: seq<string>, ch: Change)
    requires Planned(plan, old_, ch) && Kind(plan.parts[plan.start]) == START
    requires var b := plan.parts[plan.start];
             At32(b, 20) < |plan.strings| && plan.strings[At32(b, 20)] == "application" && StartTag(b, old_).Some?
    requires StartTag(Edited(plan), plan.strings).Some?
    ensures StartTag(Edited(plan), plan.strings) == Some(Element("application", ch.attrs, []))
    ensures Patch(StartTag(plan.parts[plan.start], old_).value, ch) == Element("application", ch.attrs, ch.providers)
  {
    var b := plan.parts[plan.start];
    StartMeans(b, old_, plan.strings);
    SetExtractName(b, UriIndex(plan), ExtractIndex(plan));
    assert ch.providers + [] == ch.providers;
  }

  /** The new start chunk and the providers leave the patched application open. */
  lemma {:induction false} AppPieces(plan: Plan, q: Parser, old_: seq<string>, ch: Change)
    requires Planned(plan, old_, ch) && Kind(plan.parts[plan.start]) == START
    requires Pieces(plan, plan.start).Some? && q.strings == Some(plan.strings) && |q.stack| == 1
    requires var b := plan.parts[plan.start];
             At32(b, 20) < |plan.strings| && plan.strings[At32(b, 20)] == "application" && StartTag(b, old_).Some?
    requires AllWhole(Pieces(plan, plan.start).value) && Fold(q, Pieces(plan, plan.start).value).Some?
    ensures var e := StartTag(plan.parts[plan.start], old_).value;
            Fold(q, Pieces(plan, plan.start).value) == Some(q.(stack := q.stack + [Patch(e, ch)]))
  {
    var b, cs := plan.parts[plan.start], Providers(plan.strings, plan.package, plan.processes, 0).value;
    assert Pieces(plan, plan.start).value == [Edited(plan)] + cs;
    SetExtractWhole(b, UriIndex(plan), ExtractIndex(plan));
    FirstTag(q, Edited(plan), cs, plan.strings);
    EditedTag(plan, old_, ch);
    TagAndProviders(q, Edited(plan), cs, Element("application", ch.attrs, []), plan);
  }

  lemma {:induction false} FirstTag(q: Parser, b: seq<byte>, cs: seq<seq<byte>>, ss: seq<string>)
    requires AllWhole([b] + cs) && Kind(b) == START && q.strings == Some(ss) && Fold(q, [b] + cs).Some?
    ensures |b| >= 8 && StartTag(b, ss).Some?
  {
    assert ([b] + cs)[0] == b;
  }

  lemma {:induction false} TagAndProviders(q: Parser, b: seq<byte>, cs: seq<seq<byte>>, e: Element, plan: Plan)
    requires AllWhole([b] + cs) && Kind(b) == START && q.strings == Some(plan.strings) && |q.stack| == 1
    requires Whole(b) && StartTag(b, plan.strings) == Some(e) && e.children == []
    requires Providers(plan.strings, plan.package, plan.processes, 0) == Some(cs)
    ensures Fold(q, [b] + cs) == Some(q.(stack := q.stack + [e.(children := NewProviders(plan.package, plan.processes, 0))]))
  {
    var inner := q.(stack := q.stack + [e]);
    assert Fold(q, [b]) == Some(inner) by { FoldOne(q, b); }
    AllProviders(inner, plan.strings, plan.package, plan.processes, 0);
    FoldSplit(q, [b], cs);
    AddToOpened(q, e, NewProviders(plan.package, plan.processes, 0));
  }

  lemma {:induction false} AddToOpened(q: Parser, e: Element, es: seq<Element>)
    requires e.children == []
    ensures AddChildren(q.(stack := q.stack + [e]), es) == q.(stack := q.stack + [e.(children := es)])
  {
    assert e.children + es == es;
    assert (q.stack + [e])[|q.stack| := e.(children := es)] == q.stack + [e.(children := es)];
  }

  lemma {:induction false} AppStep(p: Parser, q: Parser, l: Place, old_: seq<string>, plan: Plan, ch: Change)
    requires Planned(plan, old_, ch) && Kind(plan.parts[plan.start]) == START && Rel(p, q, l, old_, plan, ch)
    requires Step(p, plan.parts[plan.start], plan.parts[plan.start]).Some? && LocateStep(l, plan.start, plan.parts[plan.start], plan.strings).Some?
    requires l.start.None? && LocateStep(l, plan.start, plan.parts[plan.start], plan.strings).value.start == Some(plan.start)
    requires Pieces(plan, plan.start).Some? && AllWhole(Pieces(plan, plan.start).value) && Fold(q, Pieces(plan, plan.start).value).Some?
    ensures var b := plan.parts[plan.start];
            Rel(Step(p, b, b).value, Fold(q, Pieces(plan, plan.start).value).value, LocateStep(l, plan.start, b, plan.strings).value,
                old_, plan, ch)
  {
    var b := plan.parts[plan.start];
    StartMeans(b, old_, plan.strings);
    var e := StartTag(b, old_).value;
    assert |p.stack| == |l.stack| == 1;
    AppPieces(plan, q, old_, ch);
    OpenAppKeeps(p, q, e, ch);
    NamesGrow(p.stack, e);
  }

  // ---- Every chunk ----

  lemma {:induction false} PiecesWhole(plan: Plan, i: nat)
    requires i < |plan.parts| && AllWhole(plan.parts) && |plan.strings| <= MAX_STRINGS && Pieces(plan, i).Some?
    requires plan.start < |plan.parts| && Kind(plan.parts[plan.start]) == START
    ensures AllWhole(Pieces(plan, i).value)
  {
    if Kind(plan.parts[i]) == POOL {
      PoolPiece(EMPTY, plan, i);
    } else if Kind(plan.parts[i]) == RESOURCE_MAP {
      MapPiece(EMPTY, plan, i);
    } else if i == plan.start {
      AppPiecesWhole(plan, EMPTY);
    } else {
      FoldOne(EMPTY, plan.parts[i]);
    }
  }

  /** The application starts at this chunk exactly if it is the plan's. */
  ghost predicate StartsThere(l: Place, next: Place, i: nat, plan: Plan) {
    if i == plan.start then l.start.None? && next.start == Some(i) else next.start == l.start
  }

  lemma {:induction false} ShapeIgnoresStrings(p: Parser, q: Parser, p': Parser, q': Parser, seen: bool, ch: Change)
    requires Shape(p, q, seen, ch) && p'.stack == p.stack && p'.root == p.root && q'.stack == q.stack && q'.root == q.root
    ensures Shape(p', q', seen, ch)
  {
    if seen && !Inside(p, q, ch) {
      if k :| Behind(p, q, k, ch) {
        assert Behind(p', q', k, ch);
      } else {
        var k :| Closed(p, q, k, ch);
        assert Closed(p', q', k, ch);
      }
    }
  }

  lemma {:induction false} PoolStep(p: Parser, q: Parser, l: Place, i: nat, old_: seq<string>, plan: Plan, ch: Change)
    requires Planned(plan, old_, ch) && i < |plan.parts| && Kind(plan.parts[i]) == POOL && Rel(p, q, l, old_, plan, ch)
    requires Step(p, plan.parts[i], plan.parts[i]).Some? && Pieces(plan, i).Some? && AllWhole(Pieces(plan, i).value)
    ensures Fold(q, Pieces(plan, i).value).Some?
    ensures Rel(Step(p, plan.parts[i], plan.parts[i]).value, Fold(q, Pieces(plan, i).value).value, l, old_, plan, ch)
  {
    PoolPiece(q, plan, i);
    ShapeIgnoresStrings(p, q, p.(strings := Some(old_)), q.(strings := Some(plan.strings)), l.start.Some?, ch);
  }

  lemma {:induction false} OtherStep(p: Parser, q: Parser, l: Place, i: nat, old_: seq<string>, plan: Plan, ch: Change)
    requires Planned(plan, old_, ch) && i < |plan.parts| && Kind(plan.parts[i]) !in {POOL, RESOURCE_MAP} && i != plan.start
    requires Rel(p, q, l, old_, plan, ch)
    requires Step(p, plan.parts[i], plan.parts[i]).Some? && LocateStep(l, i, plan.parts[i], plan.strings).Some?
    requires LocateStep(l, i, plan.parts[i], plan.strings).value.start == l.start
    requires AllWhole([plan.parts[i]]) && Fold(q, [plan.parts[i]]).Some?
    ensures Rel(Step(p, plan.parts[i], plan.parts[i]).value, Fold(q, [plan.parts[i]]).value,
                LocateStep(l, i, plan.parts[i], plan.strings).value, old_, plan, ch)
  {
    FoldOne(q, plan.parts[i]);
    if Kind(plan.parts[i]) == START {
      StartStep(p, q, l, i, old_, plan, ch);
    } else if Kind(plan.parts[i]) == END {
      EndStep(p, q, l, i, old_, plan, ch);
    }
  }

  lemma {:induction false} PieceStep(p: Parser, q: Parser, l: Place, i: nat, old_: seq<string>, plan: Plan, ch: Change)
    requires Planned(plan, old_, ch) && i < |plan.parts| && Kind(plan.parts[plan.start]) == START
    requires Rel(p, q, l, old_, plan, ch)
    requires Ready(plan, i, p, q, l)
    ensures Rel(Step(p, plan.parts[i], plan.parts[i]).value, Fold(q, Pieces(plan, i).value).value,
                LocateStep(l, i, plan.parts[i], plan.strings).value, old_, plan, ch)
  {
    var b := plan.parts[i];
    if Kind(b) == POOL {
      PoolStep(p, q, l, i, old_, plan, ch);
    } else if Kind(b) == RESOURCE_MAP {
      MapPiece(q, plan, i);
    } else if i == plan.start {
      AppStep(p, q, l, old_, plan, ch);
    } else {
      OtherStep(p, q, l, i, old_, plan, ch);
    }
  }

  // ---- Prefixes ----

  lemma {:induction false} FoldPrefix(q: Parser, cs: seq<seq<byte>>, n: nat)
    requires AllWhole(cs) && n <= |cs| && Fold(q, cs).Some?
    ensures AllWhole(cs[..n]) && Fold(q, cs[..n]).Some?
  {
    FoldSplit(q, cs[..n], cs[n..]);
    assert cs[..n] + cs[n..] == cs;
  }

  lemma {:induction false} FoldNext(q: Parser, cs: seq<seq<byte>>, n: nat)
    requires AllWhole(cs) && n < |cs| && Fold(q, cs).Some?
    ensures AllWhole(cs[..n]) && AllWhole(cs[..n + 1]) && Fold(q, cs[..n]).Some? && Fold(q, cs[..n + 1]).Some?
    ensures Fold(q, cs[..n + 1]) == Step(Fold(q, cs[..n]).value, cs[n], cs[n])
  {
    FoldPrefix(q, cs, n);
    FoldPrefix(q, cs, n + 1);
    FoldSplit(q, cs[..n], [cs[n]]);
    assert cs[..n] + [cs[n]] == cs[..n + 1];
    FoldOne(Fold(q, cs[..n]).value, cs[n]);
  }

  lemma {:induction false} AllPiecesWhole(plan: Plan, m: nat)
    requires m <= |plan.parts| && AllPieces(plan, m).Some?
    requires AllWhole(plan.parts) && |plan.strings| <= MAX_STRINGS && plan.start < |plan.parts| && Kind(plan.parts[plan.start]) == START
    ensures AllWhole(AllPieces(plan, m).value)
  {
    if m > 0 {
      NextPieces(plan, m - 1);
      AllPiecesWhole(plan, m - 1);
      PiecesWhole(plan, m - 1);
      WholeConcat(AllPieces(plan, m - 1).value, Pieces(plan, m - 1).value);
    }
  }

  lemma WholeConcat(a: seq<seq<byte>>, b: seq<seq<byte>>)
    requires AllWhole(a) && AllWhole(b)
    ensures AllWhole(a + b)
  {
  }

  lemma PrefixOfLonger(a: seq<seq<byte>>, b: seq<seq<byte>>, c: seq<seq<byte>>)
    requires |a| <= |b| && b[..|a|] == a
    ensures |a| <= |b + c| && (b + c)[..|a|] == a
  {
    assert (b + c)[..|a|] == b[..|a|];
  }

  lemma {:induction false} PiecesPrefix(plan: Plan, n: nat, m: nat)
    requires n <= m <= |plan.parts| && AllPieces(plan, m).Some?
    ensures AllPieces(plan, n).Some?
    ensures var a, b := AllPieces(plan, n).value, AllPieces(plan, m).value; |a| <= |b| && b[..|a|] == a
    decreases m
  {
    if n < m {
      PiecesPrefix(plan, n, m - 1);
      PrefixOfLonger(AllPieces(plan, n).value, AllPieces(plan, m - 1).value, Pieces(plan, m - 1).value);
    }
  }

  lemma {:induction false} LocatePrefix(parts: seq<seq<byte>>, ss: seq<string>, n: nat, m: nat)
    requires n <= m <= |parts| && Locate(parts, m, ss).Some?
    ensures Locate(parts, n, ss).Some?
    ensures var a, b := Locate(parts, n, ss).value.start, Locate(parts, m, ss).value.start;
            b == a || (a.None? && b.value >= n)
    decreases m
  {
    if n < m { LocatePrefix(parts, ss, n, m - 1); }
  }

  /** Nothing fails on the way, so the two parsers stay together. */
  ghost predicate Runs(plan: Plan, old_: seq<string>, ch: Change) {
    && Planned(plan, old_, ch) && Kind(plan.parts[plan.start]) == START
    && Fold(EMPTY, plan.parts).Some?
    && AllPieces(plan, |plan.parts|).Some? && AllWhole(AllPieces(plan, |plan.parts|).value)
    && Fold(EMPTY, AllPieces(plan, |plan.parts|).value).Some?
    && Locate(plan.parts, |plan.parts|, plan.strings).Some?
    && Locate(plan.parts, |plan.parts|, plan.strings).value.start == Some(plan.start)
  }

  ghost predicate Together(plan: Plan, old_: seq<string>, ch: Change, n: nat)
    requires n <= |plan.parts|
  {
    && AllWhole(plan.parts[..n]) && Fold(EMPTY, plan.parts[..n]).Some? && Locate(plan.parts, n, plan.strings).Some?
    && AllPieces(plan, n).Some? && AllWhole(AllPieces(plan, n).value) && Fold(EMPTY, AllPieces(plan, n).value).Some?
    && Rel(Fold(EMPTY, plan.parts[..n]).value, Fold(EMPTY, AllPieces(plan, n).value).value,
           Locate(plan.parts, n, plan.strings).value, old_, plan, ch)
  }

  lemma {:induction false} OutputPrefix(plan: Plan, old_: seq<string>, ch: Change, n: nat)
    requires Runs(plan, old_, ch) && n <= |plan.parts|
    ensures AllPieces(plan, n).Some? && AllWhole(AllPieces(plan, n).value) && Fold(EMPTY, AllPieces(plan, n).value).Some?
  {
    PiecesPrefix(plan, n, |plan.parts|);
    FoldPrefix(EMPTY, AllPieces(plan, |plan.parts|).value, |AllPieces(plan, n).value|);
  }

  lemma {:induction false} NextPieces(plan: Plan, n: nat)
    requires n < |plan.parts| && AllPieces(plan, n + 1).Some?
    ensures AllPieces(plan, n).Some? && Pieces(plan, n).Some?
    ensures AllPieces(plan, n + 1).value == AllPieces(plan, n).value + Pieces(plan, n).value
  {
  }

  lemma {:induction false} FoldPieces(plan: Plan, n: nat)
    requires n < |plan.parts| && AllPieces(plan, n + 1).Some?
    requires AllWhole(plan.parts) && |plan.strings| <= MAX_STRINGS && plan.start < |plan.parts| && Kind(plan.parts[plan.start]) == START
    ensures AllPieces(plan, n).Some? && AllWhole(AllPieces(plan, n).value) && Pieces(plan, n).Some? && AllWhole(Pieces(plan, n).value)
    ensures AllWhole(AllPieces(plan, n + 1).value)
    ensures Fold(EMPTY, AllPieces(plan, n + 1).value) ==
            if Fold(EMPTY, AllPieces(plan, n).value).None? then None
            else Fold(Fold(EMPTY, AllPieces(plan, n).value).value, Pieces(plan, n).value)
  {
    NextPieces(plan, n);
    AllPiecesWhole(plan, n);
    PiecesWhole(plan, n);
    FoldSplit(EMPTY, AllPieces(plan, n).value, Pieces(plan, n).value);
  }

  lemma {:induction false} OutputNext(plan: Plan, old_: seq<string>, ch: Change, n: nat)
    requires Runs(plan, old_, ch) && n < |plan.parts|
    requires AllPieces(plan, n).Some? && AllWhole(AllPieces(plan, n).value) && Fold(EMPTY, AllPieces(plan, n).value).Some?
    ensures AllPieces(plan, n + 1).Some? && AllWhole(AllPieces(plan, n + 1).value)
    ensures Pieces(plan, n).Some? && AllWhole(Pieces(plan, n).value) && Fold(EMPTY, AllPieces(plan, n + 1).value).Some?
    ensures Fold(EMPTY, AllPieces(plan, n + 1).value) == Fold(Fold(EMPTY, AllPieces(plan, n).value).value, Pieces(plan, n).value)
  {
    OutputPrefix(plan, old_, ch, n + 1);
    FoldPieces(plan, n);
  }

  /** Chunk i and the chunks that replace it can be read next. */
  ghost predicate Ready(plan: Plan, i: nat, p: Parser, q: Parser, l: Place)
    requires i < |plan.parts| && AllWhole(plan.parts)
  {
    && Step(p, plan.parts[i], plan.parts[i]).Some? && LocateStep(l, i, plan.parts[i], plan.strings).Some?
    && StartsThere(l, LocateStep(l, i, plan.parts[i], plan.strings).value, i, plan)
    && Pieces(plan, i).Some? && AllWhole(Pieces(plan, i).value) && Fold(q, Pieces(plan, i).value).Some?
  }

  lemma {:induction false} IsReady(plan: Plan, old_: seq<string>, ch: Change, n: nat, p: Parser, q: Parser, l: Place)
    requires Runs(plan, old_, ch) && n < |plan.parts| && Together(plan, old_, ch, n)
    requires Fold(EMPTY, plan.parts[..n]) == Some(p) && Fold(EMPTY, AllPieces(plan, n).value) == Some(q)
    requires Locate(plan.parts, n, plan.strings) == Some(l)
    ensures Ready(plan, n, p, q, l)
  {
    FoldNext(EMPTY, plan.parts, n);
    OutputNext(plan, old_, ch, n);
    LocatePrefix(plan.parts, plan.strings, n, |plan.parts|);
    LocatePrefix(plan.parts, plan.strings, n + 1, |plan.parts|);
  }

  lemma {:induction false} StepTogether(plan: Plan, old_: seq<string>, ch: Change, n: nat, next: nat)
    requires Runs(plan, old_, ch) && n < next == n + 1 <= |plan.parts| && Together(plan, old_, ch, n)
    ensures Together(plan, old_, ch, next)
  {
    var p, q := Fold(EMPTY, plan.parts[..n]).value, Fold(EMPTY, AllPieces(plan, n).value).value;
    var l := Locate(plan.parts, n, plan.strings).value;
    IsReady(plan, old_, ch, n, p, q, l);
    PieceStep(p, q, l, n, old_, plan, ch);
    FoldNext(EMPTY, plan.parts, n);
    OutputNext(plan, old_, ch, n);
  }

  lemma {:induction false} StayTogether(plan: Plan, old_: seq<string>, ch: Change, n: nat)
    requires Runs(plan, old_, ch) && n <= |plan.parts|
    ensures Together(plan, old_, ch, n)
  {
    if n == 0 {
      StartTogether(plan, old_, ch);
    } else {
      StayTogether(plan, old_, ch, n - 1);
      StepTogether(plan, old_, ch, n - 1, n);
    }
  }

  lemma {:induction false} StartTogether(plan: Plan, old_: seq<string>, ch: Change)
    ensures Together(plan, old_, ch, 0)
  {
    assert plan.parts[..0] == [];
  }

  // ---- From files to chunks ----

  lemma {:induction false} ChunksConcat(rest: seq<byte>)
    requires Chunks(rest).Some?
    ensures Concat(Chunks(rest).value) == rest
    ensures forall i :: 0 <= i < |Chunks(rest).value| ==> ChunkOk(Chunks(rest).value[i]) && At32(Chunks(rest).value[i], 4) == |Chunks(rest).value[i]|
    decreases |rest|
  {
    if rest != [] {
      var size := At32(rest, 4);
      ChunksConcat(rest[size..]);
      var cs := Chunks(rest).value;
      assert cs[1..] == Chunks(rest[size..]).value;
      assert rest[..size] + rest[size..] == rest;
      forall i | 0 <= i < |cs| ensures ChunkOk(cs[i]) && At32(cs[i], 4) == |cs[i]| {
        if i > 0 { assert cs[i] == cs[1..][i - 1]; }
      }
    }
  }

  lemma {:induction false} EndsAreLong(parts: seq<seq<byte>>, n: nat, ss: seq<string>)
    requires n <= |parts| && Locate(parts, n, ss).Some?
    ensures forall i :: 0 <= i < n && Kind(parts[i]) == END ==> |parts[i]| >= 24
  {
    if n > 0 { EndsAreLong(parts, n - 1, ss); }
  }

  lemma {:induction false} OnlyOne(parts: seq<seq<byte>>, kind: nat, i: nat)
    requires CountKind(parts, kind) == 1 && i < |parts| && Kind(parts[i]) == kind
    ensures parts[i] == FirstOf(parts, kind)
  {
    if Kind(parts[0]) == kind {
      if i > 0 { SomeCounted(parts[1..], kind, i - 1); }
    } else {
      OnlyOne(parts[1..], kind, i - 1);
    }
  }

  lemma {:induction false} SomeCounted(parts: seq<seq<byte>>, kind: nat, i: nat)
    requires i < |parts| && Kind(parts[i]) == kind
    ensures CountKind(parts, kind) > 0
  {
    if i > 0 { SomeCounted(parts[1..], kind, i - 1); }
  }

  /** The strings of the input's pool. */
  function OldStrings(parts: seq<seq<byte>>): seq<string>
    requires CountKind(parts, POOL) == 1
  {
    var r := StringPool(FirstOf(parts, POOL));
    if r.None? then [] else r.value
  }

  lemma {:induction false} PlanIsPlanned(parts: seq<seq<byte>>, package: string, processes: seq<Option<string>>)
    requires PlanOn(parts, package, processes).Some? && Editable(PlanOn(parts, package, processes).value)
    requires forall i :: 0 <= i < |parts| ==> ChunkOk(parts[i]) && At32(parts[i], 4) == |parts[i]|
    ensures CountKind(parts, POOL) == 1
    ensures var plan := PlanOn(parts, package, processes).value;
            && plan.parts == parts && plan.package == package && plan.processes == processes
            && Planned(plan, OldStrings(parts), ChangeOf(plan, OldStrings(parts)))
  {
    var plan, old_ := PlanOn(parts, package, processes).value, OldStrings(parts);
    MissingAdded(old_, Wanted(package, processes));
    EndsAreLong(parts, |parts|, plan.strings);
    forall i | 0 <= i < |parts| && Kind(parts[i]) == POOL ensures StringPool(parts[i]) == Some(old_) { OnlyOne(parts, POOL, i); }
  }

  lemma {:induction false} ParseIsFold(data: seq<byte>, cs: seq<seq<byte>>)
    requires FileOk(data) && AllWhole(cs) && data[8..] == Concat(cs)
    ensures Parse(data) == Finish(Fold(EMPTY, cs))
  {
    WalkIsFold(EMPTY, cs);
  }

  lemma {:induction false} OutputBody(data: seq<byte>, cs: seq<seq<byte>>)
    requires |data| >= 8 && Output(data, cs).Some?
    ensures Output(data, cs).value[8..] == Concat(cs)
  {
  }

  /** Two parsers that finish together finish with the patched tree. */
  lemma {:induction false} FinishTogether(p: Parser, q: Parser, l: Place, old_: seq<string>, plan: Plan, ch: Change, root: Element)
    requires Rel(p, q, l, old_, plan, ch) && l.start.Some? && p.stack == [] && p.root == Some(root)
    ensures var k := FindChild(root.children, "application"); k.Some? && q.stack == [] && q.root == Some(PatchChild(root, k.value, ch)) && root.children[k.value].attrs == ch.before
  {
    var k: nat :| Closed(p, q, k, ch);
    assert FindChild(root.children, "application") == Some(k);
  }

  lemma {:induction false} PiecesAll(plan: Plan, i: nat, m: nat)
    requires i < m <= |plan.parts| && AllPieces(plan, m).Some?
    ensures Pieces(plan, i).Some?
    decreases m
  {
    if i < m - 1 { PiecesAll(plan, i, m - 1); }
  }

  /** The plan that inject makes for an input on which it succeeds. */
  function PlanOf(data: seq<byte>, package: string): (plan: Plan)
    requires Rewrite(data, package).Some?
    ensures plan.start < |plan.parts| && Kind(plan.parts[plan.start]) == START
  {
    PlanFor(data, Parse(data).value, package).value
  }

  lemma {:induction false} PlanRuns(data: seq<byte>, package: string, parts: seq<seq<byte>>, plan: Plan)
    requires Parse(data).Some? && |data| >= 8 && Chunks(data[8..]) == Some(parts) && PlanOn(parts, package, plan.processes) == Some(plan)
    requires AllPieces(plan, |parts|).Some? && Output(data, AllPieces(plan, |parts|).value).Some?
    requires Parse(Output(data, AllPieces(plan, |parts|).value).value).Some?
    ensures CountKind(parts, POOL) == 1 && plan.parts == parts && Editable(plan)
    ensures Runs(plan, OldStrings(parts), ChangeOf(plan, OldStrings(parts)))
    ensures Parse(data) == Finish(Fold(EMPTY, parts))
    ensures Parse(Output(data, AllPieces(plan, |parts|).value).value) == Finish(Fold(EMPTY, AllPieces(plan, |parts|).value))
  {
    PlanPlace(parts, package, plan.processes);
    PiecesAll(plan, plan.start, |parts|);
    StartEditable(plan);
    InputRuns(data, package, parts, plan);
    OutputRuns(data, plan);
    AllRuns(plan, OldStrings(parts), ChangeOf(plan, OldStrings(parts)));
  }

  lemma {:induction false} PlanPlace(parts: seq<seq<byte>>, package: string, processes: seq<Option<string>>)
    requires PlanOn(parts, package, processes).Some?
    ensures var plan := PlanOn(parts, package, processes).value;
            && plan.parts == parts && plan.start < |parts| && Kind(parts[plan.start]) == START
            && Locate(parts, |parts|, plan.strings).Some? && Locate(parts, |parts|, plan.strings).value.start == Some(plan.start)
  {
  }

  lemma {:induction false} StartEditable(plan: Plan)
    requires plan.start < |plan.parts| && Kind(plan.parts[plan.start]) == START && Pieces(plan, plan.start).Some?
    ensures Editable(plan)
  {
  }

  lemma {:induction false} AllRuns(plan: Plan, old_: seq<string>, ch: Change)
    requires Planned(plan, old_, ch) && Kind(plan.parts[plan.start]) == START && Finish(Fold(EMPTY, plan.parts)).Some?
    requires AllPieces(plan, |plan.parts|).Some? && AllWhole(AllPieces(plan, |plan.parts|).value)
    requires Finish(Fold(EMPTY, AllPieces(plan, |plan.parts|).value)).Some?
    requires Locate(plan.parts, |plan.parts|, plan.strings).Some?
    requires Locate(plan.parts, |plan.parts|, plan.strings).value.start == Some(plan.start)
    ensures Runs(plan, old_, ch)
  {
  }

  lemma {:induction false} InputRuns(data: seq<byte>, package: string, parts: seq<seq<byte>>, plan: Plan)
    requires Parse(data).Some? && |data| >= 8 && Chunks(data[8..]) == Some(parts) && PlanOn(parts, package, plan.processes) == Some(plan)
    requires Editable(plan)
    ensures CountKind(parts, POOL) == 1 && plan.parts == parts
    ensures Planned(plan, OldStrings(parts), ChangeOf(plan, OldStrings(parts)))
    ensures Parse(data) == Finish(Fold(EMPTY, parts))
  {
    ChunksConcat(data[8..]);
    PlanIsPlanned(parts, package, plan.processes);
    ParseIsFold(data, parts);
  }

  lemma {:induction false} OutputRuns(data: seq<byte>, plan: Plan)
    requires |data| >= 8 && AllPieces(plan, |plan.parts|).Some? && Output(data, AllPieces(plan, |plan.parts|).value).Some?
    requires AllWhole(plan.parts) && |plan.strings| <= MAX_STRINGS && plan.start < |plan.parts| && Kind(plan.parts[plan.start]) == START
    requires Parse(Output(data, AllPieces(plan, |plan.parts|).value).value).Some?
    ensures AllWhole(AllPieces(plan, |plan.parts|).value)
    ensures Parse(Output(data, AllPieces(plan, |plan.parts|).value).value) == Finish(Fold(EMPTY, AllPieces(plan, |plan.parts|).value))
  {
    var cs := AllPieces(plan, |plan.parts|).value;
    AllPiecesWhole(plan, |plan.parts|);
    OutputBody(data, cs);
    ParseIsFold(Output(data, cs).value, cs);
  }

  lemma {:induction false} RunsFinish(plan: Plan, old_: seq<string>, ch: Change, root: Element)
    requires Runs(plan, old_, ch) && Finish(Fold(EMPTY, plan.parts)) == Some(root)
    ensures var k := FindChild(root.children, "application");
            && k.Some? && root.children[k.value].attrs == ch.before
            && Finish(Fold(EMPTY, AllPieces(plan, |plan.parts|).value)) == Some(PatchChild(root, k.value, ch))
  {
    var n := |plan.parts|;
    StayTogether(plan, old_, ch, n);
    assert plan.parts[..n] == plan.parts;
    FinishTogether(Fold(EMPTY, plan.parts).value, Fold(EMPTY, AllPieces(plan, n).value).value,
                   Locate(plan.parts, n, plan.strings).value, old_, plan, ch, root);
  }

  /**
    Whenever inject succeeds, what it wrote parses to the input's tree, except that the application has
    the attributes of the edited start chunk, and one provider for each process before its children.
  */
  lemma {:induction false} InjectTree(data: seq<byte>, package: string)
    requires Rewrite(data, package).Some?
    ensures var plan, root := PlanOf(data, package), Parse(data).value;
            && CountKind(plan.parts, POOL) == 1 && Editable(plan)
            && var k, ch := FindChild(root.children, "application"), ChangeOf(plan, OldStrings(plan.parts));
               k.Some? && root.children[k.value].attrs == ch.before && Parse(Rewrite(data, package).value) == Some(PatchChild(root, k.value, ch))
  {
    var root := Parse(data).value;
    var plan := PlanOf(data, package);
    PlanRuns(data, package, plan.parts, plan);
    var old_ := OldStrings(plan.parts);
    var ch := ChangeOf(plan, old_);
    RunsFinish(plan, old_, ch, root);
  }

  // ---- The attributes ----

  /** Both start chunks of the application are read, and name it. */
  ghost predicate Named(plan: Plan, old_: seq<string>)
    requires Editable(plan)
  {
    var b := plan.parts[plan.start];
    && At32(b, 20) < |plan.strings| && plan.strings[At32(b, 20)] == "application"
    && StartTag(b, old_).Some? && StartTag(Edited(plan), plan.strings).Some?
  }

  lemma {:induction false} AppIsNamed(plan: Plan, old_: seq<string>, ch: Change)
    requires Runs(plan, old_, ch)
    ensures Named(plan, old_)
  {
    var n := plan.start;
    StayTogether(plan, old_, ch, n);
    var p, q := Fold(EMPTY, plan.parts[..n]).value, Fold(EMPTY, AllPieces(plan, n).value).value;
    var l := Locate(plan.parts, n, plan.strings).value;
    IsReady(plan, old_, ch, n, p, q, l);
    NamedThere(plan, old_, ch, p, q, l);
  }

  lemma {:induction false} NamedThere(plan: Plan, old_: seq<string>, ch: Change, p: Parser, q: Parser, l: Place)
    requires Planned(plan, old_, ch) && Kind(plan.parts[plan.start]) == START && Rel(p, q, l, old_, plan, ch)
    requires Ready(plan, plan.start, p, q, l)
    ensures Named(plan, old_)
  {
    SetExtractWhole(plan.parts[plan.start], UriIndex(plan), ExtractIndex(plan));
    FirstTag(q, Edited(plan), Providers(plan.strings, plan.package, plan.processes, 0).value, plan.strings);
  }

  lemma {:induction false} NamedIndices(plan: Plan, old_: seq<string>)
    requires Editable(plan) && Extends(old_, plan.strings) && Named(plan, old_)
    ensures ExtractIndices(plan.strings, UriIndex(plan), ExtractIndex(plan)) && At32(plan.parts[plan.start], 20) != ExtractIndex(plan)
    ensures StartTag(plan.parts[plan.start], plan.strings) == StartTag(plan.parts[plan.start], old_)
  {
    StartMeans(plan.parts[plan.start], old_, plan.strings);
  }

  /** The edit does not run over an attribute. */
  predicate Safe(plan: Plan)
    requires Editable(plan)
  {
    Undisturbed(plan.parts[plan.start], UriIndex(plan), ExtractIndex(plan))
  }

  /** The change that inject is meant to make. */
  ghost predicate Intended(ch: Change) { ch.attrs == ch.before[Android("extractNativeLibs") := "true"] }

  lemma {:induction false} SafeIsIntended(plan: Plan, old_: seq<string>)
    requires Editable(plan) && Extends(old_, plan.strings) && Named(plan, old_) && Safe(plan)
    ensures Intended(ChangeOf(plan, old_))
  {
    NamedIndices(plan, old_);
    SetExtractReads(plan.parts[plan.start], plan.strings, UriIndex(plan), ExtractIndex(plan));
  }

  lemma {:induction false} SafeIffIntended(plan: Plan, old_: seq<string>)
    requires Editable(plan) && Extends(old_, plan.strings) && Named(plan, old_) && Distinct(plan.strings)
    ensures Safe(plan) <==> Intended(ChangeOf(plan, old_))
  {
    NamedIndices(plan, old_);
    SetExtractIff(plan.parts[plan.start], plan.strings, UriIndex(plan), ExtractIndex(plan));
  }

  // ---- The results ----

  /** The input tree with extractNativeLibs true and a provider for each process. */
  function Rewritten(root: Element, package: string): Option<Element> {
    var k := FindChild(root.children, "application");
    if k.None? then None
    else
      var app := root.children[k.value];
      var processes := P.BootstrapProcesses(app, package);
      if processes.None? then None
      else
        var attrs := app.attrs[Android("extractNativeLibs") := "true"];
        Some(PatchChild(root, k.value, Change(app.attrs, attrs, NewProviders(package, processes.value, 0))))
  }

  lemma {:induction false} SamePatch(root: Element, k: nat, a: Change, b: Change)
    requires k < |root.children| && a.providers == b.providers
    ensures PatchChild(root, k, a) == PatchChild(root, k, b) <==> a.attrs == b.attrs
  {
    assert PatchChild(root, k, a).children[k] == Patch(root.children[k], a);
    assert PatchChild(root, k, b).children[k] == Patch(root.children[k], b);
  }

  /** The output is the intended tree exactly if the attributes are the intended ones. */
  lemma {:induction false} RewrittenIff(data: seq<byte>, package: string)
    requires Rewrite(data, package).Some?
    ensures var plan := PlanOf(data, package);
            && CountKind(plan.parts, POOL) == 1 && Editable(plan) && Rewritten(Parse(data).value, package).Some?
            && (Parse(Rewrite(data, package).value) == Rewritten(Parse(data).value, package) <==>
                Intended(ChangeOf(plan, OldStrings(plan.parts))))
  {
    InjectTree(data, package);
    var plan, root := PlanOf(data, package), Parse(data).value;
    var k, ch := FindChild(root.children, "application").value, ChangeOf(plan, OldStrings(plan.parts));
    var app := root.children[k];
    SamePatch(root, k, ch, Change(app.attrs, app.attrs[Android("extractNativeLibs") := "true"], ch.providers));
  }

  lemma {:induction false} PlanIsNamed(data: seq<byte>, package: string)
    requires Rewrite(data, package).Some?
    ensures var plan := PlanOf(data, package);
            CountKind(plan.parts, POOL) == 1 && Editable(plan) && Named(plan, OldStrings(plan.parts)) && Extends(OldStrings(plan.parts), plan.strings)
  {
    var plan := PlanOf(data, package);
    PlanRuns(data, package, plan.parts, plan);
    AppIsNamed(plan, OldStrings(plan.parts), ChangeOf(plan, OldStrings(plan.parts)));
  }

  /**
    Whenever inject succeeds, and the edit of the application's start chunk does not run over an
    attribute, what it wrote parses to the input's tree with only the application changed:
    extractNativeLibs is true, and one provider for each process comes before its children.
  */
  lemma {:induction false} InjectPreserves(data: seq<byte>, package: string)
    requires Inject(data, package).Some?
    ensures Editable(PlanOf(data, package)) && Rewritten(Parse(data).value, package).Some?
    ensures Safe(PlanOf(data, package)) ==> Parse(Inject(data, package).value) == Rewritten(Parse(data).value, package)
  {
    var plan := PlanOf(data, package);
    PlanIsNamed(data, package);
    RewrittenIff(data, package);
    if Safe(plan) { SafeIsIntended(plan, OldStrings(plan.parts)); }
  }

  lemma {:induction false} DistinctGrows(ss: seq<string>, wanted: seq<string>)
    requires Distinct(ss)
    ensures Distinct(AddMissing(ss, wanted))
    decreases |wanted|
  {
    if wanted != [] { DistinctGrows(if wanted[0] in ss then ss else ss + [wanted[0]], wanted[1..]); }
  }

  lemma {:induction false} StringsGrow(data: seq<byte>, package: string)
    requires Rewrite(data, package).Some? && CountKind(PlanOf(data, package).parts, POOL) == 1
    requires Distinct(OldStrings(PlanOf(data, package).parts))
    ensures Distinct(PlanOf(data, package).strings)
  {
    var plan := PlanOf(data, package);
    assert PlanOn(plan.parts, package, plan.processes) == Some(plan);
    DistinctGrows(OldStrings(plan.parts), Wanted(package, plan.processes));
  }

  /** If no string is twice in the manifest's pool, that condition is exact. */
  lemma {:induction false} InjectPreservesIff(data: seq<byte>, package: string)
    requires Inject(data, package).Some? && CountKind(PlanOf(data, package).parts, POOL) == 1
    requires Distinct(OldStrings(PlanOf(data, package).parts))
    ensures Editable(PlanOf(data, package)) && Rewritten(Parse(data).value, package).Some?
    ensures Parse(Inject(data, package).value) == Rewritten(Parse(data).value, package) <==> Safe(PlanOf(data, package))
  {
    var plan := PlanOf(data, package);
    PlanIsNamed(data, package);
    RewrittenIff(data, package);
    StringsGrow(data, package);
    SafeIffIntended(plan, OldStrings(plan.parts));
  }

  // ---- The recheck ----

  /** Whatever else the edit does, extractNativeLibs is true in the edited chunk. */
  lemma {:induction false} EditedIsTrue(plan: Plan, old_: seq<string>)
    requires Editable(plan) && Extends(old_, plan.strings) && Named(plan, old_)
    ensures var m := ChangeOf(plan, old_).attrs; Android("extractNativeLibs") in m && m[Android("extractNativeLibs")] == "true"
  {
    NamedIndices(plan, old_);
    var b, ss, ns, name := plan.parts[plan.start], plan.strings, UriIndex(plan), ExtractIndex(plan);
    var found := FindExtract(b, 0, ns, name);
    if found.Some? { FoundReads(b, ss, ns, name, found.value); } else { AppendedIsTrue(b, ss, ns, name); }
  }

  lemma {:induction false} AppendedIsTrue(b: seq<byte>, ss: seq<string>, ns: u32, name: u32)
    requires ExtractIndices(ss, ns, name) && AttrsFit(b) && CanAppend(b) && StartTag(AppendTrue(b, ns, name), ss).Some?
    ensures var m := StartTag(AppendTrue(b, ns, name), ss).value.attrs; var key := Android("extractNativeLibs"); key in m && m[key] == "true"
  {
    var c, n := AppendTrue(b, ns, name), AttrCount(b);
    AppendTrueFields(b, ns, name);
    LastKeyValue(c, n, ns, name, ss, Android("extractNativeLibs"));
    CollectMeans(KeyValues(c, ss));
    assert KeyValues(c, ss)[n] == KeyValue(c, n, ss);
  }

  lemma {:induction false} FiveKeys(n: string, e: string, p: string, a: string, o: string, class_: string, authority: string,
                                    process: Option<string>, order: string)
    requires n != e && n != p && n != a && n != o && e != p && e != a && e != o && p != a && p != o && a != o
    ensures var base := map[n := class_, e := "false"];
            var m := (if process.Some? then base[p := process.value] else base)[a := authority][o := order];
            && n in m && m[n] == class_ && e in m && m[e] == "false" && a in m && m[a] == authority && o in m && m[o] == order
            && (p in m <==> process.Some?) && (p in m ==> m[p] == process.value)
  {
  }

  lemma {:induction false} ProviderIsRight(package: string, i: nat, process: Option<string>)
    ensures IsProvider(ProviderElement(BootstrapClass(i), Authority(package, i), process), package, i, process)
  {
    AndroidDiffers("name", "exported");
    AndroidDiffers("name", "process");
    AndroidDiffers("name", "authorities");
    AndroidDiffers("name", "initOrder");
    AndroidDiffers("exported", "process");
    AndroidDiffers("exported", "authorities");
    AndroidDiffers("exported", "initOrder");
    AndroidDiffers("process", "authorities");
    AndroidDiffers("process", "initOrder");
    AndroidDiffers("authorities", "initOrder");
    FiveKeys(Android("name"), Android("exported"), Android("process"), Android("authorities"), Android("initOrder"),
             BootstrapClass(i), Authority(package, i), process, Decimal(0x7FFF_FFFF));
  }

  function ProviderFor(package: string, ps: seq<Option<string>>, i: nat): Element
    requires i < |ps|
  {
    ProviderElement(BootstrapClass(i), Authority(package, i), ps[i])
  }

  /** New provider number i - from is the one for process i. */
  lemma {:induction false} ProvidersFrom(package: string, ps: seq<Option<string>>, from: nat, i: nat)
    requires from <= i < |ps|
    ensures |NewProviders(package, ps, from)| == |ps| - from && NewProviders(package, ps, from)[i - from] == ProviderFor(package, ps, i)
    decreases |ps| - from
  {
    ProviderCount(package, ps, from);
    if from < i { ProvidersFrom(package, ps, from + 1, i); }
  }

  lemma {:induction false} ProviderCount(package: string, ps: seq<Option<string>>, from: nat)
    requires from <= |ps|
    ensures |NewProviders(package, ps, from)| == |ps| - from
    decreases |ps| - from
  {
    if from < |ps| { ProviderCount(package, ps, from + 1); }
  }

  lemma {:induction false} CountJoined(a: seq<Element>, b: seq<Element>, classes: seq<string>)
    ensures CountClasses(a + b, classes) == CountClasses(a, classes) + CountClasses(b, classes)
    decreases |a|
  {
    if a == [] {
      assert a + b == b;
    } else {
      CountJoined(a[1..], b, classes);
      assert (a + b)[1..] == a[1..] + b;
    }
  }

  lemma {:induction false} NewCounted(package: string, ps: seq<Option<string>>, from: nat)
    requires from <= |ps|
    ensures CountClasses(NewProviders(package, ps, from), Classes(|ps|)) == |ps| - from
    decreases |ps| - from
  {
    if from < |ps| {
      ProviderIsRight(package, from, ps[from]);
      NewCounted(package, ps, from + 1);
      assert Classes(|ps|)[from] == BootstrapClass(from);
      var es := NewProviders(package, ps, from);
      assert es[1..] == NewProviders(package, ps, from + 1);
    }
  }

  lemma {:induction false} ClassesGrow(n: nat, m: nat, c: string)
    requires n <= m && c in Classes(n)
    ensures c in Classes(m)
  {
    var i :| 0 <= i < n && Classes(n)[i] == c;
    assert Classes(m)[i] == c;
  }

  lemma {:induction false} OldNotCounted(es: seq<Element>, package: string, n: nat)
    requires n <= P.MAX_BOOTSTRAP_PROCESSES && forall k :: 0 <= k < |es| && es[k].tag == "provider" ==> !Collides(es[k], package, n)
    ensures CountClasses(es, Classes(n)) == 0
    decreases |es|
  {
    if es != [] {
      OldNotCounted(es[1..], package, n);
      forall c | c in Classes(n) ensures c in Classes(P.MAX_BOOTSTRAP_PROCESSES) { ClassesGrow(n, P.MAX_BOOTSTRAP_PROCESSES, c); }
      assert es[0].tag == "provider" ==> !Collides(es[0], package, n);
    }
  }

  lemma {:induction false} PatchedRechecks(root: Element, k: nat, package: string, ps: seq<Option<string>>, ch: Change)
    requires FindChild(root.children, "application") == Some(k) && "package" in root.attrs && root.attrs["package"] == package
    requires Android("extractNativeLibs") in ch.attrs && ch.attrs[Android("extractNativeLibs")] == "true"
    requires ch.providers == NewProviders(package, ps, 0) && |ps| <= P.MAX_BOOTSTRAP_PROCESSES && NoCollision(root.children[k], package, |ps|)
    ensures Recheck(PatchChild(root, k, ch), package, ps)
  {
    FindStays(root, k, ch);
    ChildrenRecheck(package, ps, root.children[k].children);
  }

  lemma {:induction false} FindStays(root: Element, k: nat, ch: Change)
    requires FindChild(root.children, "application") == Some(k)
    ensures FindChild(PatchChild(root, k, ch).children, "application") == Some(k)
    ensures PatchChild(root, k, ch).children[k] == Patch(root.children[k], ch)
  {
  }

  lemma {:induction false} ChildrenRecheck(package: string, ps: seq<Option<string>>, others: seq<Element>)
    requires |ps| <= P.MAX_BOOTSTRAP_PROCESSES
    requires forall k :: 0 <= k < |others| && others[k].tag == "provider" ==> !Collides(others[k], package, |ps|)
    ensures var es := NewProviders(package, ps, 0) + others;
            && CountClasses(es, Classes(|ps|)) == |ps|
            && forall i :: 0 <= i < |ps| ==> exists j :: 0 <= j < |es| && IsProvider(es[j], package, i, ps[i])
  {
    CountJoined(NewProviders(package, ps, 0), others, Classes(|ps|));
    NewCounted(package, ps, 0);
    OldNotCounted(others, package, |ps|);
    forall i | 0 <= i < |ps|
      ensures var es := NewProviders(package, ps, 0) + others; exists j :: 0 <= j < |es| && IsProvider(es[j], package, i, ps[i])
    {
      NewIsThere(package, ps, others, i);
    }
  }

  lemma {:induction false} NewIsThere(package: string, ps: seq<Option<string>>, others: seq<Element>, i: nat)
    requires i < |ps|
    ensures var es := NewProviders(package, ps, 0) + others; i < |es| && IsProvider(es[i], package, i, ps[i])
  {
    ProvidersFrom(package, ps, 0, i);
    ProviderIsRight(package, i, ps[i]);
  }

  /** The final recheck never fails: inject returns whatever was rewritten and parses. */
  lemma {:induction false} RecheckPasses(data: seq<byte>, package: string)
    requires Rewrite(data, package).Some?
    ensures Inject(data, package) == Rewrite(data, package)
  {
    var plan, root := PlanOf(data, package), Parse(data).value;
    InjectTree(data, package);
    PlanIsNamed(data, package);
    EditedIsTrue(plan, OldStrings(plan.parts));
    var k := FindChild(root.children, "application").value;
    PlanKeeps(data, package);
    P.ProcessesExact(root.children[k], package);
    PatchedRechecks(root, k, package, plan.processes, ChangeOf(plan, OldStrings(plan.parts)));
  }

  lemma {:induction false} PlanKeeps(data: seq<byte>, package: string)
    requires Rewrite(data, package).Some?
    ensures var plan, root := PlanOf(data, package), Parse(data).value; var k := FindChild(root.children, "application");
            && plan.package == package && k.Some? && P.BootstrapProcesses(root.children[k.value], package) == Some(plan.processes)
            && NoCollision(root.children[k.value], package, |plan.processes|) && "package" in root.attrs && root.attrs["package"] == package
  {
  }
}
