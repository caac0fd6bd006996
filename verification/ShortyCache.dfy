/**
  The lock-free method shorty cache of the guest JNIEnv (guest/zbjni/zbjni.c).

  Any number of callers run zbjni_method_shorty at once; every load, compare-exchange, allocation and
  free is one event, and allocations may fail. Page and string addresses may be reused after a free.
*/
module ShortyCache {
  const PAGE_SIZE := 1024
  const PAGES := 4096

  type PagePtr = nat
  type TextPtr = nat
  type CallId = nat

  import opened Wrappers

  /** What the host answers for a method id: its shorty, or nothing for an unknown id. */
  type Host = nat -> Option<string>

  datatype Result = Null | Buffer | Cached(q: TextPtr)

  /** Program point of one zbjni_method_shorty(id, buffer) call. */
  datatype Pc =
    | Lookup                              // zbjni_cached_shorty, page not loaded yet
    | LookupEntry(p: PagePtr)
    | Ask                                 // not cached: host call to come
    | Store                               // buffer filled; zbjni_cache_shorty begins
    | NoPage                              // page was NULL: calloc to come
    | FreshPage(p: PagePtr)               // private page, compare-exchange to come
    | LostPage(p: PagePtr, cur: PagePtr)  // lost the race: free to come
    | HavePage(p: PagePtr)
    | NoText(p: PagePtr)                  // entry was NULL: strdup to come
    | FreshText(p: PagePtr, q: TextPtr)   // private copy, compare-exchange to come
    | LostText(q: TextPtr, won: TextPtr)  // lost the race: free to come
    | Returned(r: Result)

  datatype Call = Call(id: nat, pc: Pc)

  datatype State = State(
    table: map<nat, PagePtr>,               // zbjni_shorty_pages; absent means NULL
    pages: map<PagePtr, map<nat, TextPtr>>, // allocated pages and their non-NULL entries
    texts: map<TextPtr, string>,            // allocated strings
    calls: map<CallId, Call>
  )

  datatype Event =
    | Begin(c: CallId, id: nat)
    | LoadPage(c: CallId)                   // either load of the page slot
    | LoadEntry(c: CallId)                  // either load of the entry slot
    | AskHost(c: CallId)
    | AllocPage(c: CallId, page: Option<PagePtr>)
    | ExchangePage(c: CallId)
    | FreePage(c: CallId)
    | AllocText(c: CallId, text: Option<TextPtr>)
    | ExchangeEntry(c: CallId)
    | FreeText(c: CallId)

  const Init := State(map[], map[], map[], map[])

  function PageOf(id: nat): nat { id / PAGE_SIZE }
  function SlotOf(id: nat): nat { id % PAGE_SIZE }

  predicate Enabled(s: State, e: Event) {
    match e
    case Begin(c, _) => c !in s.calls
    case LoadPage(c) => c in s.calls && (s.calls[c].pc.Lookup? || s.calls[c].pc.Store?)
    case LoadEntry(c) => c in s.calls && (s.calls[c].pc.LookupEntry? || s.calls[c].pc.HavePage?) &&
                         s.calls[c].pc.p in s.pages
    case AskHost(c) => c in s.calls && s.calls[c].pc.Ask?
    case AllocPage(c, page) => c in s.calls && s.calls[c].pc.NoPage? && (page.Some? ==> page.value !in s.pages)
    case ExchangePage(c) => c in s.calls && s.calls[c].pc.FreshPage?
    case FreePage(c) => c in s.calls && s.calls[c].pc.LostPage?
    case AllocText(c, text) => c in s.calls && s.calls[c].pc.NoText? && (text.Some? ==> text.value !in s.texts)
    case ExchangeEntry(c) => c in s.calls && s.calls[c].pc.FreshText? && s.calls[c].pc.p in s.pages
    case FreeText(c) => c in s.calls && s.calls[c].pc.LostText?
  }

  function Goto(s: State, c: CallId, pc: Pc): State
    requires c in s.calls
  {
    s.(calls := s.calls[c := s.calls[c].(pc := pc)])
  }

  function WithEntry(page: map<nat, TextPtr>, i: nat, q: TextPtr): map<nat, TextPtr> { page[i := q] }

  function Next(host: Host, s: State, e: Event): State
    requires Enabled(s, e)
  {
    match e
    case Begin(c, id) => s.(calls := s.calls[c := Call(id, Lookup)])
    case LoadPage(c) =>
      var k := PageOf(s.calls[c].id);
      if s.calls[c].pc.Lookup? then
        Goto(s, c, if k < PAGES && k in s.table then LookupEntry(s.table[k]) else Ask)
      else
        Goto(s, c, if k >= PAGES then Returned(Buffer) else if k in s.table then HavePage(s.table[k]) else NoPage)
    case LoadEntry(c) =>
      var pc, i := s.calls[c].pc, SlotOf(s.calls[c].id);
      Goto(s, c, if i in s.pages[pc.p] then Returned(Cached(s.pages[pc.p][i]))
                 else if pc.LookupEntry? then Ask else NoText(pc.p))
    case AskHost(c) => Goto(s, c, if host(s.calls[c].id).None? then Returned(Null) else Store)
    case AllocPage(c, page) =>
      if page.None? then Goto(s, c, Returned(Buffer))
      else Goto(s.(pages := s.pages[page.value := map[]]), c, FreshPage(page.value))
    case ExchangePage(c) =>
      var k, p := PageOf(s.calls[c].id), s.calls[c].pc.p;
      if k in s.table then Goto(s, c, LostPage(p, s.table[k]))
      else Goto(s.(table := s.table[k := p]), c, HavePage(p))
    case FreePage(c) => Goto(s.(pages := s.pages - {s.calls[c].pc.p}), c, HavePage(s.calls[c].pc.cur))
    case AllocText(c, text) =>
      var h := host(s.calls[c].id);
      if text.None? then Goto(s, c, Returned(Buffer))
      else Goto(s.(texts := s.texts[text.value := if h.Some? then h.value else ""]), c,
                FreshText(s.calls[c].pc.p, text.value))
    case ExchangeEntry(c) =>
      var p, q, i := s.calls[c].pc.p, s.calls[c].pc.q, SlotOf(s.calls[c].id);
      if i in s.pages[p] then Goto(s, c, LostText(q, s.pages[p][i]))
      else Goto(s.(pages := s.pages[p := WithEntry(s.pages[p], i, q)]), c, Returned(Cached(q)))
    case FreeText(c) => Goto(s.(texts := s.texts - {s.calls[c].pc.q}), c, Returned(Cached(s.calls[c].pc.won)))
  }

  ghost predicate ValidRun(host: Host, s: State, es: seq<Event>)
    decreases es
  {
    es == [] || (Enabled(s, es[0]) && ValidRun(host, Next(host, s, es[0]), es[1..]))
  }

  ghost function After(host: Host, s: State, es: seq<Event>): State
    requires ValidRun(host, s, es)
    decreases es
  {
    if es == [] then s else After(host, Next(host, s, es[0]), es[1..])
  }

  // ---- The invariant ----

  /** The page slot of id holds p. */
  ghost predicate Published(s: State, k: nat, p: PagePtr) { k in s.table && s.table[k] == p }

  /** The entry slot of id holds q. */
  ghost predicate Entry(s: State, id: nat, q: TextPtr) {
    var k := PageOf(id);
    k in s.table && s.table[k] in s.pages && SlotOf(id) in s.pages[s.table[k]] && s.pages[s.table[k]][SlotOf(id)] == q
  }

  /** Published pages are allocated, sit in one slot, and hold the host's shorties. */
  ghost predicate TableOk(host: Host, s: State) {
    && (forall k :: k in s.table ==> k < PAGES && s.table[k] in s.pages)
    && (forall k, l :: k in s.table && l in s.table && s.table[k] == s.table[l] ==> k == l)
    && (forall id, q :: Entry(s, id, q) ==> q in s.texts && host(id) == Some(s.texts[q]))
  }

  predicate PrivatePage(c: Call) { c.pc.FreshPage? || c.pc.LostPage? }
  predicate PrivateText(c: Call) { c.pc.FreshText? || c.pc.LostText? }

  /** What a call knows of the memory it refers to. */
  ghost predicate CallOk(host: Host, s: State, c: Call) {
    var k := PageOf(c.id);
    match c.pc
    case LookupEntry(p) => Published(s, k, p)
    case Store => host(c.id).Some?
    case NoPage => host(c.id).Some? && k < PAGES
    case FreshPage(p) => host(c.id).Some? && k < PAGES && Unpublished(s, p) && s.pages[p] == map[]
    case LostPage(p, cur) => host(c.id).Some? && Unpublished(s, p) && Published(s, k, cur)
    case HavePage(p) => host(c.id).Some? && Published(s, k, p)
    case NoText(p) => host(c.id).Some? && Published(s, k, p)
    case FreshText(p, q) => host(c.id).Some? && Published(s, k, p) && Loose(s, q) && s.texts[q] == host(c.id).value
    case LostText(q, won) => Loose(s, q) && Entry(s, c.id, won)
    case Returned(Cached(q)) => Entry(s, c.id, q)
    case Returned(Buffer) => host(c.id).Some?
    case Returned(Null) => host(c.id).None?
    case _ => true
  }

  /** An allocated page that is in no slot. */
  ghost predicate Unpublished(s: State, p: PagePtr) {
    p in s.pages && forall k :: k in s.table ==> s.table[k] != p
  }

  /** An allocated string that is in no entry. */
  ghost predicate Loose(s: State, q: TextPtr) {
    q in s.texts && forall id :: !Entry(s, id, q)
  }

  ghost predicate CallsOk(host: Host, s: State) {
    forall c :: c in s.calls ==> CallOk(host, s, s.calls[c])
  }

  /** No two calls own the same private page or string. */
  ghost predicate Exclusive(s: State) {
    && (forall c, d | c in s.calls && d in s.calls && PrivatePage(s.calls[c]) && PrivatePage(s.calls[d]) ::
          s.calls[c].pc.p == s.calls[d].pc.p ==> c == d)
    && (forall c, d | c in s.calls && d in s.calls && PrivateText(s.calls[c]) && PrivateText(s.calls[d]) ::
          s.calls[c].pc.q == s.calls[d].pc.q ==> c == d)
  }

  ghost predicate Inv(host: Host, s: State) { TableOk(host, s) && CallsOk(host, s) && Exclusive(s) }

  /** Same memory before and after. */
  predicate SameMemory(s: State, s': State) { s'.table == s.table && s'.pages == s.pages && s'.texts == s.texts }

  predicate Quiet(e: Event) { e.Begin? || e.LoadPage? || e.LoadEntry? || e.AskHost? }

  /** The entries an event leaves: all there were, and at most the one it publishes. */
  lemma StepEntries(host: Host, s: State, e: Event, id: nat, q: TextPtr)
    requires Inv(host, s) && Enabled(s, e)
    ensures Entry(s, id, q) ==> Entry(Next(host, s, e), id, q)
    ensures Entry(Next(host, s, e), id, q) && !Entry(s, id, q) ==>
            e.ExchangeEntry? && id == s.calls[e.c].id && q == s.calls[e.c].pc.q
  {
    if e.c in s.calls { assert CallOk(host, s, s.calls[e.c]); }
    if e.ExchangeEntry? {
      assert id == PageOf(id) * PAGE_SIZE + SlotOf(id);
      assert s.calls[e.c].id == PageOf(s.calls[e.c].id) * PAGE_SIZE + SlotOf(s.calls[e.c].id);
    }
  }

  /** Slots are written once: a page slot keeps its page, and the page stays allocated. */
  lemma StepTable(host: Host, s: State, e: Event)
    requires Inv(host, s) && Enabled(s, e)
    ensures forall k :: k in s.table ==> k in Next(host, s, e).table && Next(host, s, e).table[k] == s.table[k]
    ensures forall k :: k in Next(host, s, e).table && k !in s.table ==>
              e.ExchangePage? && k == PageOf(s.calls[e.c].id) && Next(host, s, e).table[k] == s.calls[e.c].pc.p
    ensures forall k :: k in Next(host, s, e).table ==> k < PAGES && Next(host, s, e).table[k] in Next(host, s, e).pages
  {
    if e.c in s.calls { assert CallOk(host, s, s.calls[e.c]); }
  }

  lemma StepKeepsTable(host: Host, s: State, e: Event)
    requires Inv(host, s) && Enabled(s, e)
    ensures TableOk(host, Next(host, s, e))
  {
    var s' := Next(host, s, e);
    StepTable(host, s, e);
    if e.c in s.calls { assert CallOk(host, s, s.calls[e.c]); }
    forall id, q | Entry(s', id, q) ensures q in s'.texts && host(id) == Some(s'.texts[q]) {
      StepEntries(host, s, e, id, q);
    }
  }

  /** Private memory of a call stays private and unchanged while other calls step. */
  lemma OtherPageStays(host: Host, s: State, e: Event, d: CallId)
    requires Inv(host, s) && Enabled(s, e) && d in s.calls && d != e.c && PrivatePage(s.calls[d])
    ensures var s' := Next(host, s, e); var p := s.calls[d].pc.p;
            Unpublished(s', p) && s'.pages[p] == s.pages[p]
  {
    StepTable(host, s, e);
    assert CallOk(host, s, s.calls[d]);
    if e.c in s.calls { assert CallOk(host, s, s.calls[e.c]); }
  }

  lemma OtherTextStays(host: Host, s: State, e: Event, d: CallId)
    requires Inv(host, s) && Enabled(s, e) && d in s.calls && d != e.c && PrivateText(s.calls[d])
    ensures var s' := Next(host, s, e); var q := s.calls[d].pc.q;
            Loose(s', q) && s'.texts[q] == s.texts[q]
  {
    assert CallOk(host, s, s.calls[d]);
    if e.c in s.calls { assert CallOk(host, s, s.calls[e.c]); }
    forall id ensures !Entry(Next(host, s, e), id, s.calls[d].pc.q) {
      StepEntries(host, s, e, id, s.calls[d].pc.q);
    }
  }

  lemma OtherCallOk(host: Host, s: State, e: Event, d: CallId)
    requires Inv(host, s) && Enabled(s, e) && d in s.calls && d != e.c
    ensures CallOk(host, Next(host, s, e), s.calls[d])
  {
    var c := s.calls[d];
    assert CallOk(host, s, c);
    StepTable(host, s, e);
    if PrivatePage(c) { OtherPageStays(host, s, e, d); }
    if PrivateText(c) { OtherTextStays(host, s, e, d); }
    match c.pc {
      case LostText(_, won) => StepEntries(host, s, e, c.id, won);
      case Returned(Cached(q)) => StepEntries(host, s, e, c.id, q);
      case _ =>
    }
  }

  lemma OwnQuietStepOk(host: Host, s: State, e: Event)
    requires Inv(host, s) && Enabled(s, e) && Quiet(e)
    ensures CallOk(host, Next(host, s, e), Next(host, s, e).calls[e.c])
  {
    if e.c in s.calls { assert CallOk(host, s, s.calls[e.c]); }
  }

  lemma OwnPageStepOk(host: Host, s: State, e: Event)
    requires Inv(host, s) && Enabled(s, e) && (e.AllocPage? || e.ExchangePage? || e.FreePage?)
    ensures CallOk(host, Next(host, s, e), Next(host, s, e).calls[e.c])
  {
    assert CallOk(host, s, s.calls[e.c]);
    StepTable(host, s, e);
  }

  lemma AllocTextOk(host: Host, s: State, e: Event)
    requires Inv(host, s) && Enabled(s, e) && (e.AllocText? || e.FreeText?)
    ensures CallOk(host, Next(host, s, e), Next(host, s, e).calls[e.c])
  {
    assert CallOk(host, s, s.calls[e.c]);
    if e.FreeText? {
      StepEntries(host, s, e, s.calls[e.c].id, s.calls[e.c].pc.won);
    } else if e.text.Some? {
      forall id ensures !Entry(Next(host, s, e), id, e.text.value) { StepEntries(host, s, e, id, e.text.value); }
    }
  }

  lemma ExchangeEntryOk(host: Host, s: State, e: Event)
    requires Inv(host, s) && Enabled(s, e) && e.ExchangeEntry?
    ensures CallOk(host, Next(host, s, e), Next(host, s, e).calls[e.c])
  {
    var s' := Next(host, s, e);
    var c := s.calls[e.c];
    assert CallOk(host, s, c);
    if SlotOf(c.id) in s.pages[c.pc.p] {
      assert SameMemory(s, s');
      forall id ensures !Entry(s', id, c.pc.q) { assert !Entry(s, id, c.pc.q); }
    }
  }

  lemma PagesStayExclusive(host: Host, s: State, e: Event, c: CallId, d: CallId)
    requires d in s.calls
    requires CallOk(host, s, s.calls[d]) && Exclusive(s) && Enabled(s, e)
    requires c in Next(host, s, e).calls && d != e.c && c != d
    requires PrivatePage(Next(host, s, e).calls[c]) && PrivatePage(s.calls[d])
    ensures Next(host, s, e).calls[c].pc.p != s.calls[d].pc.p
  {
    assert c in s.calls && (PrivatePage(s.calls[c]) || (c == e.c && e.AllocPage?));
  }

  lemma TextsStayExclusive(host: Host, s: State, e: Event, c: CallId, d: CallId)
    requires d in s.calls
    requires CallOk(host, s, s.calls[d]) && Exclusive(s) && Enabled(s, e)
    requires c in Next(host, s, e).calls && d != e.c && c != d
    requires PrivateText(Next(host, s, e).calls[c]) && PrivateText(s.calls[d])
    ensures Next(host, s, e).calls[c].pc.q != s.calls[d].pc.q
  {
    assert c in s.calls && (PrivateText(s.calls[c]) || (c == e.c && e.AllocText?));
  }

  lemma StepKeepsExclusive(host: Host, s: State, e: Event)
    requires Inv(host, s) && Enabled(s, e)
    ensures Exclusive(Next(host, s, e))
  {
    var s' := Next(host, s, e);
    assert forall c :: c in s'.calls && c != e.c ==> c in s.calls && s'.calls[c] == s.calls[c];
    forall c, d | c in s'.calls && d in s'.calls && PrivatePage(s'.calls[c]) && PrivatePage(s'.calls[d]) && c != d
      ensures s'.calls[c].pc.p != s'.calls[d].pc.p
    {
      if d != e.c { PagesStayExclusive(host, s, e, c, d); } else { PagesStayExclusive(host, s, e, d, c); }
    }
    forall c, d | c in s'.calls && d in s'.calls && PrivateText(s'.calls[c]) && PrivateText(s'.calls[d]) && c != d
      ensures s'.calls[c].pc.q != s'.calls[d].pc.q
    {
      if d != e.c { TextsStayExclusive(host, s, e, c, d); } else { TextsStayExclusive(host, s, e, d, c); }
    }
  }

  lemma StepKeepsInv(host: Host, s: State, e: Event)
    requires Inv(host, s) && Enabled(s, e)
    ensures Inv(host, Next(host, s, e))
  {
    StepKeepsTable(host, s, e);
    StepKeepsExclusive(host, s, e);
    forall c | c in Next(host, s, e).calls ensures CallOk(host, Next(host, s, e), Next(host, s, e).calls[c]) {
      if c != e.c { OtherCallOk(host, s, e, c); }
      else if Quiet(e) { OwnQuietStepOk(host, s, e); }
      else if e.AllocPage? || e.ExchangePage? || e.FreePage? { OwnPageStepOk(host, s, e); }
      else if e.ExchangeEntry? { ExchangeEntryOk(host, s, e); }
      else { AllocTextOk(host, s, e); }
    }
  }

  lemma {:induction false} RunKeepsInv(host: Host, s: State, es: seq<Event>)
    requires Inv(host, s) && ValidRun(host, s, es)
    ensures Inv(host, After(host, s, es))
    decreases es
  {
    if es != [] {
      StepKeepsInv(host, s, es[0]);
      RunKeepsInv(host, Next(host, s, es[0]), es[1..]);
    }
  }

  // ---- What every run gives ----

  /**
    Every result is the host's: NULL only for an id the host does not know, the caller's buffer (which
    the host filled), or the one cached string of that id, which is allocated and equals the answer.
  */
  lemma ResultIsHosts(host: Host, es: seq<Event>, c: CallId)
    requires ValidRun(host, Init, es) && c in After(host, Init, es).calls
    requires After(host, Init, es).calls[c].pc.Returned?
    ensures var s := After(host, Init, es); var id := s.calls[c].id;
            match s.calls[c].pc.r
            case Null => host(id).None?
            case Buffer => host(id).Some?
            case Cached(q) => q in s.texts && host(id) == Some(s.texts[q]) && Entry(s, id, q)
  {
    RunKeepsInv(host, Init, es);
    assert CallOk(host, After(host, Init, es), After(host, Init, es).calls[c]);
  }

  /**
    Slots are write-once and published memory lives for ever: whatever is published in one state is
    in the same slot, still allocated and unchanged, after any continuation.
  */
  lemma {:induction false} PublishedForever(host: Host, s: State, es: seq<Event>, id: nat, q: TextPtr)
    requires Inv(host, s) && ValidRun(host, s, es) && Entry(s, id, q)
    ensures Entry(After(host, s, es), id, q)
    ensures After(host, s, es).table[PageOf(id)] == s.table[PageOf(id)]
    ensures q in s.texts && q in After(host, s, es).texts && After(host, s, es).texts[q] == s.texts[q]
    decreases es
  {
    if es != [] {
      StepEntries(host, s, es[0], id, q);
      StepTable(host, s, es[0]);
      StepKeepsInv(host, s, es[0]);
      PublishedForever(host, Next(host, s, es[0]), es[1..], id, q);
    }
  }

  /** Only unpublished memory is freed, and nobody else refers to it. */
  lemma OnlyPrivateMemoryFreed(host: Host, es: seq<Event>, e: Event)
    requires ValidRun(host, Init, es) && Enabled(After(host, Init, es), e) && (e.FreePage? || e.FreeText?)
    ensures var s := After(host, Init, es);
            if e.FreePage?
            then Unpublished(s, s.calls[e.c].pc.p) && s.calls[e.c].pc.p != s.calls[e.c].pc.cur &&
                 forall d :: d in s.calls && d != e.c && PrivatePage(s.calls[d]) ==> s.calls[d].pc.p != s.calls[e.c].pc.p
            else Loose(s, s.calls[e.c].pc.q) && s.calls[e.c].pc.q != s.calls[e.c].pc.won &&
                 forall d :: d in s.calls && d != e.c && PrivateText(s.calls[d]) ==> s.calls[d].pc.q != s.calls[e.c].pc.q
  {
    RunKeepsInv(host, Init, es);
    assert CallOk(host, After(host, Init, es), After(host, Init, es).calls[e.c]);
  }
}
