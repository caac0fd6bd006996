/**
  /proc/self/maps as the guest sees it: Process::build_maps (core/src/proc_files.cpp), up to the
  printing of the lines.
*/
module ProcMaps {
  import opened GuestMemory

  const STACK_LOW := 0xFE80_0000   // kStackTop - kStackSize
  const STACK_TOP := 0xFF00_0000
  const KUSER_PAGE := 0xFFFF_0000

  /** A file_mappings_ record. */
  datatype Mapping = Mapping(start: nat, length: nat, offset: nat, path: string, offsetIsVaddr: bool)

  datatype Name = Name(text: string, offset: nat)

  predicate Contains(m: Mapping, addr: nat) { m.start <= addr < m.start + m.length }

  function FileName(files: seq<Mapping>, addr: nat): Name {
    if files == [] then Name("", 0)
    else if Contains(files[0], addr) then
      Name(files[0].path, if files[0].offsetIsVaddr then 0 else files[0].offset + (addr - files[0].start))
    else FileName(files[1..], addr)
  }

  /** name_at for the first address of a page. */
  function NameAt(files: seq<Mapping>, page: nat): Name {
    var addr := page * PAGE;
    if STACK_LOW <= addr < STACK_TOP then Name("[stack]", 0)
    else if addr == KUSER_PAGE then Name("[vectors]", 0)
    else FileName(files, addr)
  }

  /** One line, in pages. */
  datatype Line = Line(start: nat, end: nat, flags: Flags, name: string, offset: nat)

  /** Page i belongs on line l: inside it, with the line's own flags and name. */
  ghost predicate Describes(t: Table, files: seq<Mapping>, l: Line, i: nat)
    requires i < |t|
  {
    t[i].mapped && t[i] == l.flags && NameAt(files, i).text == l.name
  }

  ghost predicate LineOk(t: Table, files: seq<Mapping>, l: Line) {
    && l.start < l.end <= |t| && l.offset == NameAt(files, l.start).offset
    && forall i :: l.start <= i < l.end ==> Describes(t, files, l, i)
  }

  ghost predicate Covered(lines: seq<Line>, i: nat) {
    exists k :: 0 <= k < |lines| && lines[k].start <= i < lines[k].end
  }

  /** Lines ascend without overlap, and lines that touch differ in flags or name. */
  ghost predicate Ascending(lines: seq<Line>) {
    forall k :: 0 < k < |lines| ==> Follows(lines[k - 1], lines[k])
  }

  ghost predicate Follows(a: Line, b: Line) {
    a.end <= b.start && (a.end == b.start ==> a.flags != b.flags || a.name != b.name)
  }

  /** The lines are an exact run-length encoding of the first n pages of the table. */
  ghost predicate Encodes(t: Table, files: seq<Mapping>, n: nat, lines: seq<Line>)
    requires n <= |t|
  {
    && Ascending(lines)
    && (forall k :: 0 <= k < |lines| ==> LineOk(t, files, lines[k]) && lines[k].end <= n)
    && (forall i :: 0 <= i < n && t[i].mapped ==> Covered(lines, i))
  }

  /** The inner loop: the first page from `page` on that does not belong to the same line. */
  method EndOfRun(mem: Memory, files: seq<Mapping>, page: nat) returns (end: nat)
    requires mem.Valid() && page < PAGES
    ensures page < end <= PAGES
    ensures forall i :: page <= i < end ==>
              mem.pages[i] == mem.pages[page] && NameAt(files, i).text == NameAt(files, page).text
    ensures end < PAGES ==> mem.pages[end] != mem.pages[page] || NameAt(files, end).text != NameAt(files, page).text
  {
    end := page + 1;
    while end < PAGES && mem.pages[end] == mem.pages[page]
      invariant page < end <= PAGES
      invariant forall i :: page <= i < end ==>
                  mem.pages[i] == mem.pages[page] && NameAt(files, i).text == NameAt(files, page).text
    {
      if NameAt(files, end).text != NameAt(files, page).text { return; }
      end := end + 1;
    }
  }

  lemma AppendLine(t: Table, files: seq<Mapping>, n: nat, lines: seq<Line>, l: Line)
    requires n <= |t| && Encodes(t, files, n, lines) && LineOk(t, files, l) && l.start == n
    requires lines != [] ==> Follows(lines[|lines| - 1], l)
    ensures Encodes(t, files, l.end, lines + [l])
  {
    var more := lines + [l];
    assert more[|lines|] == l;
    forall i | 0 <= i < l.end && t[i].mapped ensures Covered(more, i) {
      if i < n {
        var k :| 0 <= k < |lines| && lines[k].start <= i < lines[k].end;
        assert more[k] == lines[k];
      }
    }
  }

  /** build_maps: the outer loop. */
  method BuildMaps(mem: Memory, files: seq<Mapping>) returns (lines: seq<Line>)
    requires mem.Valid()
    ensures Encodes(mem.pages[..], files, PAGES, lines)
  {
    ghost var t := mem.pages[..];
    lines := [];
    var page := 0;
    while page < PAGES
      invariant 0 <= page <= PAGES && Encodes(t, files, page, lines)
      invariant lines != [] && lines[|lines| - 1].end == page && page < PAGES ==>
                  !t[page].mapped || t[page] != lines[|lines| - 1].flags ||
                  NameAt(files, page).text != lines[|lines| - 1].name
    {
      if !mem.pages[page].mapped {
        page := page + 1;
      } else {
        var end := EndOfRun(mem, files, page);
        var name := NameAt(files, page);
        var l := Line(page, end, mem.pages[page], name.text, name.offset);
        AppendLine(t, files, page, lines, l);
        lines := lines + [l];
        page := end;
      }
    }
  }

  // ---- The encoding is determined by the table ----

  lemma Ordered(lines: seq<Line>, t: Table, files: seq<Mapping>, n: nat, j: nat, k: nat)
    requires n <= |t| && Encodes(t, files, n, lines) && j < k < |lines|
    ensures lines[j].end <= lines[k].start
  {
    assert Follows(lines[k - 1], lines[k]);
    if j < k - 1 {
      Ordered(lines, t, files, n, j, k - 1);
      assert LineOk(t, files, lines[k - 1]);
    }
  }

  /** A mapped page past the first k lines of an encoding lies on line k or later. */
  lemma LaterLine(t: Table, files: seq<Mapping>, n: nat, lines: seq<Line>, k: nat, i: nat) returns (j: nat)
    requires n <= |t| && Encodes(t, files, n, lines) && i < n && t[i].mapped && k <= |lines|
    requires k > 0 ==> lines[k - 1].end <= i
    ensures k <= j < |lines| && lines[j].start <= i < lines[j].end
    ensures lines[k].start <= i
  {
    j :| 0 <= j < |lines| && lines[j].start <= i < lines[j].end;
    if j < k {
      assert LineOk(t, files, lines[k - 1]);
      if j < k - 1 { Ordered(lines, t, files, n, j, k - 1); }
      assert false;
    }
    if k < j { Ordered(lines, t, files, n, k, j); assert LineOk(t, files, lines[k]); }
  }

  /** The page after a line does not belong on it. */
  lemma PageAfterLine(t: Table, files: seq<Mapping>, n: nat, lines: seq<Line>, k: nat)
    requires n <= |t| && Encodes(t, files, n, lines) && k < |lines| && lines[k].end < n
    ensures !Describes(t, files, lines[k], lines[k].end)
  {
    var i := lines[k].end;
    if t[i].mapped {
      var _ := LaterLine(t, files, n, lines, k + 1, i);
      assert Follows(lines[k], lines[k + 1]);
      assert LineOk(t, files, lines[k + 1]) && Describes(t, files, lines[k + 1], i);
    }
  }

  /** Two encodings do not end a line that starts at the same page at different places. */
  lemma EndIsLeast(t: Table, files: seq<Mapping>, n: nat, a: seq<Line>, b: seq<Line>, k: nat)
    requires n <= |t| && Encodes(t, files, n, a) && Encodes(t, files, n, b) && k < |a| && k < |b|
    requires a[k].start == b[k].start
    ensures b[k].end <= a[k].end
  {
    assert LineOk(t, files, a[k]) && LineOk(t, files, b[k]);
    assert Describes(t, files, a[k], a[k].start) && Describes(t, files, b[k], a[k].start);
    assert a[k].end < b[k].end ==> Describes(t, files, b[k], a[k].end);
    if a[k].end < n { PageAfterLine(t, files, n, a, k); }
  }

  /** The table and the names determine the lines: there is only one exact run-length encoding. */
  lemma {:induction false} EncodingIsUnique(t: Table, files: seq<Mapping>, n: nat, a: seq<Line>, b: seq<Line>, k: nat)
    requires n <= |t| && Encodes(t, files, n, a) && Encodes(t, files, n, b)
    requires k <= |a| && k <= |b| && a[..k] == b[..k]
    ensures a == b
    decreases |a| - k
  {
    if k < |a| || k < |b| {
      if k < |a| {
        assert LineOk(t, files, a[k]) && Describes(t, files, a[k], a[k].start);
        if k > 0 { assert Follows(a[k - 1], a[k]) && a[k - 1] == a[..k][k - 1] == b[..k][k - 1]; }
        var _ := LaterLine(t, files, n, b, k, a[k].start);
      }
      if k < |b| {
        assert LineOk(t, files, b[k]) && Describes(t, files, b[k], b[k].start);
        if k > 0 { assert Follows(b[k - 1], b[k]) && a[k - 1] == a[..k][k - 1] == b[..k][k - 1]; }
        var _ := LaterLine(t, files, n, a, k, b[k].start);
      }
      EndIsLeast(t, files, n, a, b, k);
      EndIsLeast(t, files, n, b, a, k);
      assert Describes(t, files, a[k], a[k].start) && Describes(t, files, b[k], a[k].start);
      assert a[k] == b[k];
      assert a[..k + 1] == a[..k] + [a[k]] && b[..k + 1] == b[..k] + [b[k]];
      EncodingIsUnique(t, files, n, a, b, k + 1);
    } else {
      assert a == a[..k] && b == b[..k];
    }
  }
}
