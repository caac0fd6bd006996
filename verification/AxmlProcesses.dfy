/** bootstrap_processes of tools/axml_inject.py: which Android processes need a bootstrap provider. */
module AxmlProcesses {
  import opened Wrappers
  import opened AxmlParser
  import opened AxmlEdit

  const MAX_BOOTSTRAP_PROCESSES := 8

  function Attr(e: Element, name: string): Option<string> {
    if Android(name) in e.attrs then Some(e.attrs[Android(name)]) else None
  }

  predicate Is(e: Element, name: string, value: string) { Attr(e, name) == Some(value) }

  /** A process name that starts with a colon is private to the package. */
  function Resolve(package: string, raw: string): string {
    if raw != "" && raw[0] == ':' then package + raw else raw
  }

  function DefaultProcess(app: Element, package: string): string {
    var own := Attr(app, "process");
    Resolve(package, if own.None? || own.value == "" then package else own.value)
  }

  predicate IsComponent(e: Element) { e.tag in {"activity", "activity-alias", "service", "receiver", "provider"} }

  /** No reason to refuse the component. */
  predicate Usable(e: Element) {
    && !Is(e, "directBootAware", "true") && !(e.tag == "provider" && Is(e, "multiprocess", "true"))
    && !(e.tag == "service" && (Is(e, "isolatedProcess", "true") || Is(e, "externalService", "true")))
  }

  /** The process a component names; an alias names none. */
  function Declared(e: Element): Option<string> {
    if IsComponent(e) && e.tag != "activity-alias" then Attr(e, "process") else None
  }

  /** The processes found so far, the default one as None, and their resolved names. */
  datatype Found = Found(processes: seq<Option<string>>, seen: set<string>)

  function AddComponent(f: Found, e: Element, package: string): Option<Found> {
    if !IsComponent(e) then Some(f)
    else if !Usable(e) then None
    else if Declared(e).None? then Some(f)
    else
      var raw := Declared(e).value;
      var g := if Resolve(package, raw) in f.seen then f
               else Found(f.processes + [Some(raw)], f.seen + {Resolve(package, raw)});
      if |g.processes| > MAX_BOOTSTRAP_PROCESSES then None else Some(g)
  }

  function ScanComponents(es: seq<Element>, default: string, package: string): Option<Found> {
    if es == [] then Some(Found([None], {default}))
    else
      var before := ScanComponents(es[..|es| - 1], default, package);
      if before.None? then None else AddComponent(before.value, es[|es| - 1], package)
  }

  function BootstrapProcesses(app: Element, package: string): Option<seq<Option<string>>> {
    if Is(app, "hasCode", "false") || Is(app, "directBootAware", "true") then None
    else
      var f := ScanComponents(app.children, DefaultProcess(app, package), package);
      if f.None? then None else Some(f.value.processes)
  }

  method FindProcesses(app: Element, package: string) returns (r: Option<seq<Option<string>>>)
    ensures r == BootstrapProcesses(app, package)
  {
    if Is(app, "hasCode", "false") || Is(app, "directBootAware", "true") { return None; }
    var f := Found([None], {DefaultProcess(app, package)});
    ghost var es, default := app.children, DefaultProcess(app, package);
    for i := 0 to |app.children|
      invariant ScanComponents(es[..i], default, package) == Some(f)
    {
      var g := AddComponent(f, app.children[i], package);
      assert es[..i + 1][..i] == es[..i];
      if g.None? {
        ScanStaysNone(es, i + 1, default, package);
        return None;
      }
      f := g.value;
    }
    assert es[..|es|] == es;
    return Some(f.processes);
  }

  lemma {:induction false} ScanStaysNone(es: seq<Element>, n: nat, default: string, package: string)
    requires n <= |es| && ScanComponents(es[..n], default, package).None?
    ensures ScanComponents(es, default, package).None?
    decreases |es|
  {
    if n == |es| {
      assert es[..n] == es;
    } else {
      assert es[..|es| - 1][..n] == es[..n];
      ScanStaysNone(es[..|es| - 1], n, default, package);
    }
  }

  // ---- One provider for each process ----

  /** The process a provider with this attribute runs in. */
  function RunsIn(p: Option<string>, default: string, package: string): string {
    if p.None? then default else Resolve(package, p.value)
  }

  ghost predicate Distinct(ps: seq<Option<string>>, default: string, package: string) {
    forall i, j :: 0 <= i < j < |ps| ==> RunsIn(ps[i], default, package) != RunsIn(ps[j], default, package)
  }

  /** Some component, or none in particular, needs this process. */
  ghost predicate Needed(es: seq<Element>, default: string, package: string, name: string) {
    name == default || exists i :: 0 <= i < |es| && Declared(es[i]).Some? && Resolve(package, Declared(es[i]).value) == name
  }

  ghost predicate Covers(f: Found, es: seq<Element>, default: string, package: string) {
    && 1 <= |f.processes| <= MAX_BOOTSTRAP_PROCESSES && f.processes[0].None?
    && (forall i :: 1 <= i < |f.processes| ==> f.processes[i].Some?)
    && Distinct(f.processes, default, package)
    && (forall name :: name in f.seen <==> Needed(es, default, package, name))
    && (forall name :: name in f.seen <==> exists i :: 0 <= i < |f.processes| && RunsIn(f.processes[i], default, package) == name)
  }

  lemma {:induction false} NeededGrows(es: seq<Element>, default: string, package: string, name: string)
    requires es != []
    ensures Needed(es, default, package, name) <==>
            Needed(es[..|es| - 1], default, package, name) ||
            (Declared(es[|es| - 1]).Some? && Resolve(package, Declared(es[|es| - 1]).value) == name)
  {
    var n, front := |es| - 1, es[..|es| - 1];
    if Needed(front, default, package, name) && name != default {
      var i :| 0 <= i < |front| && Declared(front[i]).Some? && Resolve(package, Declared(front[i]).value) == name;
      assert es[i] == front[i];
    }
    if Needed(es, default, package, name) && name != default {
      var i :| 0 <= i < |es| && Declared(es[i]).Some? && Resolve(package, Declared(es[i]).value) == name;
      if i < n { assert es[i] == front[i]; }
    }
  }

  lemma {:induction false} AddKeepsCover(f: Found, es: seq<Element>, default: string, package: string)
    requires es != [] && Covers(f, es[..|es| - 1], default, package) && AddComponent(f, es[|es| - 1], package).Some?
    ensures Covers(AddComponent(f, es[|es| - 1], package).value, es, default, package)
  {
    var e, g := es[|es| - 1], AddComponent(f, es[|es| - 1], package).value;
    forall name ensures Needed(es, default, package, name) <==>
                        Needed(es[..|es| - 1], default, package, name) ||
                        (Declared(e).Some? && Resolve(package, Declared(e).value) == name)
    {
      NeededGrows(es, default, package, name);
    }
    if g != f {
      var n := |f.processes|;
      assert forall i :: 0 <= i < n ==> g.processes[i] == f.processes[i];
      forall name ensures name in g.seen <==> exists i :: 0 <= i < |g.processes| && RunsIn(g.processes[i], default, package) == name {
        if name in f.seen {
          var i :| 0 <= i < n && RunsIn(f.processes[i], default, package) == name;
          assert RunsIn(g.processes[i], default, package) == name;
        } else if name in g.seen {
          assert RunsIn(g.processes[n], default, package) == name;
        }
      }
      forall i | 0 <= i < n ensures RunsIn(g.processes[i], default, package) != RunsIn(g.processes[n], default, package) {
        assert RunsIn(f.processes[i], default, package) in f.seen;
      }
    }
  }

  lemma {:induction false} ScanCovers(es: seq<Element>, default: string, package: string)
    requires ScanComponents(es, default, package).Some?
    ensures Covers(ScanComponents(es, default, package).value, es, default, package)
    decreases |es|
  {
    if es == [] {
      var ps := ScanComponents(es, default, package).value.processes;
      assert RunsIn(ps[0], default, package) == default;
    } else {
      ScanCovers(es[..|es| - 1], default, package);
      AddKeepsCover(ScanComponents(es[..|es| - 1], default, package).value, es, default, package);
    }
  }

  /**
    The processes are at most eight, the default one first, no two of them run in the same process,
    and they are exactly those that the application or one of its components names.
  */
  lemma {:induction false} ProcessesExact(app: Element, package: string)
    requires BootstrapProcesses(app, package).Some?
    ensures var ps, default := BootstrapProcesses(app, package).value, DefaultProcess(app, package);
            && 1 <= |ps| <= MAX_BOOTSTRAP_PROCESSES && ps[0].None? && Distinct(ps, default, package)
            && forall name :: Needed(app.children, default, package, name) <==>
                              exists i :: 0 <= i < |ps| && RunsIn(ps[i], default, package) == name
  {
    ScanCovers(app.children, DefaultProcess(app, package), package);
  }
}
