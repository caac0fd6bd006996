/**
  Nested signal handlers: every interleaving of deliver_signal, guest execution, sigprocmask,
  sigaltstack and matching sigreturn on one guest thread (core/src/signals.cpp).

  A world keeps, beside the state, one record for each frame that is still to be returned from. The
  guest is free except that it leaves those frames alone, keeps its stack pointer below them on the
  stack it runs on, and leaves room for the next frame.
*/
module SignalNest {
  import opened Words
  import opened GuestMemory
  import opened SignalFrames

  /** The main stack of the thread: [lo, hi). */
  datatype Main = Main(lo: nat, hi: nat)

  /** A frame not returned from: where it is, on which stack, and the thread that it interrupted. */
  datatype Live = Live(at: nat, rt: bool, alt: bool, info: Siginfo, before: Cpu)
  {
    function End(): nat { at + FrameSize(rt) }
  }

  datatype World = World(s: State, live: seq<Live>)

  /** The alternate stack does not wrap and shares no byte with the main stack. */
  ghost predicate StackOk(a: Stack, main: Main) {
    a.sp + a.size <= SPACE && (a.Usable() ==> a.sp + a.size <= main.lo || main.hi <= a.sp)
  }

  /** A live frame on the alternate stack c uses, or one on the main stack. */
  ghost predicate Belongs(l: Live, c: Cpu, main: Main) {
    if l.alt then l.before.alt.Normal() == c.alt.Normal() && c.alt.sp <= l.at && l.End() <= c.alt.sp + c.alt.size
    else main.lo <= l.at && l.End() <= main.hi
  }

  /** The stack pointer is inside its stack and below the live frames there. */
  ghost predicate Below(l: Live, c: Cpu) {
    if c.OnAlt() then l.alt ==> c.Sp() <= l.at else !l.alt && c.Sp() <= l.at
  }

  /** What the guest keeps to while `live` are the frames it has to return from. */
  ghost predicate Orderly(c: Cpu, live: seq<Live>, main: Main) {
    && StackOk(c.alt, main) && (c.OnAlt() || main.lo <= c.Sp() <= main.hi)
    && forall k :: 0 <= k < |live| ==> Belongs(live[k], c, main) && Below(live[k], c)
  }

  // ---- Room for a frame ----

  predicate UsesAlt(c: Cpu, a: Action) { c.OnAlt() || (Flag(a.flags, SA_ONSTACK) && c.alt.Usable()) }

  function Top(c: Cpu, a: Action): nat { if UsesAlt(c, a) && !c.OnAlt() then c.alt.sp + c.alt.size else c.Sp() }

  function Lowest(c: Cpu, a: Action): int {
    var f := Top(c, a) - FrameSize(Flag(a.flags, SA_SIGINFO));
    f - f % 8
  }

  /** The frame does not run over the low end of the stack it goes to. */
  predicate Room(c: Cpu, a: Action, main: Main) { Lowest(c, a) >= if UsesAlt(c, a) then c.alt.sp else main.lo }

  lemma PlacedInRoom(c: Cpu, a: Action)
    requires c.alt.sp + c.alt.size <= SPACE && Lowest(c, a) >= 0
    ensures FrameAt(c, a) == Lowest(c, a)
  {
    var n := FrameSize(Flag(a.flags, SA_SIGINFO));
    assert FrameTop(c, a) == Wrap(Top(c, a));
    assert 0 <= Top(c, a) - n < SPACE;
    assert Wrap(Wrap(Top(c, a)) - n) == Top(c, a) - n;
  }

  /**
    Without room the next frame can land on a live one: two signals in a row, both wanting the
    alternate stack, get disjoint frames exactly if the first frame fits that stack. sigaltstack
    accepts any size, so nothing else guarantees it.
  */
  lemma NestedOnAltIff(c: Cpu, a: Action, sig: nat, b: Action)
    requires 1 <= sig <= 64 && Flag(a.flags, SA_ONSTACK) && Flag(b.flags, SA_ONSTACK)
    requires c.alt.Usable() && !c.OnAlt() && FrameSize(true) + 7 <= c.alt.sp && c.alt.sp + c.alt.size <= SPACE
    ensures var f, g := FrameAt(c, a), FrameAt(Enter(c, a, sig), b);
            (f + FrameSize(Flag(a.flags, SA_SIGINFO)) <= g || g + FrameSize(Flag(b.flags, SA_SIGINFO)) <= f) <==> c.alt.sp <= f
  {
    PlacedInRoom(c, a);
    var f, d := FrameAt(c, a), Enter(c, a, sig);
    if c.alt.sp <= f { FitsThenBelow(d, b); } else { OverflowsThenAgain(c, a, d, b); }
  }

  lemma FitsThenBelow(d: Cpu, b: Action)
    requires d.alt.Usable() && FrameSize(true) + 7 <= d.alt.sp <= d.Sp() < d.alt.sp + d.alt.size <= SPACE
    ensures FrameAt(d, b) + FrameSize(Flag(b.flags, SA_SIGINFO)) <= d.Sp()
  {
    assert Wrap(d.Sp() - d.alt.sp) == d.Sp() - d.alt.sp;
    PlacedInRoom(d, b);
  }

  lemma OverflowsThenAgain(c: Cpu, a: Action, d: Cpu, b: Action)
    requires Flag(a.flags, SA_ONSTACK) && Flag(b.flags, SA_ONSTACK) && c.alt.Usable() && !c.OnAlt() && d.alt == c.alt
    requires FrameSize(true) + 7 <= c.alt.sp && c.alt.sp + c.alt.size <= SPACE
    requires d.Sp() == FrameAt(c, a) == Lowest(c, a) < c.alt.sp
    ensures var f, g := FrameAt(c, a), FrameAt(d, b);
            f < g + FrameSize(Flag(b.flags, SA_SIGINFO)) && g < f + FrameSize(Flag(a.flags, SA_SIGINFO))
  {
    assert Wrap(d.Sp() - c.alt.sp) == d.Sp() - c.alt.sp + SPACE;
    PlacedInRoom(d, b);
  }

  /** On an alternate stack of 512 bytes the second frame overwrites the first. */
  lemma SmallAltStackOverlaps(c: Cpu, a: Action, sig: nat)
    requires c.alt == Stack(0x2_0000, 0, 512) && c.Sp() == 0x8_0000 && 1 <= sig <= 64 && a.flags == SA_ONSTACK + SA_SIGINFO
    ensures FrameAt(c, a) == FrameAt(Enter(c, a, sig), a)
  {
  }

  // ---- Steps ----

  datatype Event =
    | Deliver(info: Siginfo, forced: bool)
    | Return
    | Run(regs: Registers, vfp: VfpWords, cpsr: Bits32, fpscr: u32, mem: Bytes, pages: Pages, acts: Actions)
    | SetMask(how: u32, setAt: u32, oldAt: u32, size: u32)
    | SetAlt(stack: Stack)

  /** The state after a step. */
  ghost function StateAfter(w: World, e: Event): State {
    match e
    case Deliver(info, forced) => SignalFrames.Deliver(w.s, info, forced).1
    case Return => if w.live == [] then w.s else Sigreturn(w.s, w.live[|w.live| - 1].rt).1
    case Run(regs, vfp, cpsr, fpscr, mem, pages, acts) =>
      State(w.s.cpu.(regs := regs, vfp := vfp, cpsr := cpsr, fpscr := fpscr), mem, pages, acts)
    case SetMask(how, setAt, oldAt, size) => Sigprocmask(w.s, how, setAt, oldAt, size).1
    case SetAlt(stack) => w.s.(cpu := w.s.cpu.(alt := stack))
  }

  /** A delivery that writes a frame. */
  ghost predicate Frames(s: State, info: Siginfo, forced: bool) {
    var d := Decide(s.acts, s.cpu.mask, info[0], forced);
    d.Handle? && Writable(s, d.action)
  }

  function Frame(s: State, info: Siginfo): Live
    requires 1 <= info[0] <= 64
  {
    var a := s.acts[info[0]];
    Live(FrameAt(s.cpu, a), Flag(a.flags, SA_SIGINFO), UsesAlt(s.cpu, a), info, s.cpu)
  }

  ghost function LiveAfter(w: World, e: Event): seq<Live> {
    if e.Deliver? && Frames(w.s, e.info, e.forced) then w.live + [Frame(w.s, e.info)]
    else if e.Return? && w.live != [] then w.live[..|w.live| - 1]
    else w.live
  }

  ghost function Next(w: World, e: Event): World { World(StateAfter(w, e), LiveAfter(w, e)) }

  ghost predicate Untouched(m: Bytes, n: Bytes, l: Live) {
    l.End() <= SPACE && m[l.at..l.End()] == n[l.at..l.End()]
  }

  /** A step of the guest itself keeps to the rules. */
  ghost predicate GuestOk(w: World, s: State, main: Main) {
    Orderly(s.cpu, w.live, main) && forall k :: 0 <= k < |w.live| ==> Untouched(w.s.mem, s.mem, w.live[k])
  }

  ghost predicate Enabled(w: World, e: Event, main: Main) {
    match e
    case Deliver(info, forced) => Frames(w.s, info, forced) ==> Room(w.s.cpu, w.s.acts[info[0]], main)
    case Return =>
      w.live != [] && w.s.cpu.Sp() == w.live[|w.live| - 1].at && Readable(w.s, w.live[|w.live| - 1].rt)
    case _ => GuestOk(w, StateAfter(w, e), main)
  }

  // ---- The invariant ----

  /** Frame k is intact, and its thread was orderly with the older frames. */
  ghost predicate Intact(w: World, k: nat, main: Main)
    requires k < |w.live|
  {
    var l := w.live[k];
    && l.at % 8 == 0 && FrameHolds(w.s.mem, l.at, l.before, l.info, l.rt) && Sane(l.before.mask)
    && (l.before.OnAlt() ==> l.alt) && Orderly(l.before, w.live[..k], main)
  }

  /** Newer frames are lower on the same stack. */
  ghost predicate Stacked(live: seq<Live>) {
    forall i, j :: 0 <= i < j < |live| && live[i].alt == live[j].alt ==> live[j].End() <= live[i].at
  }

  ghost predicate Inv(w: World, main: Main) {
    && Sane(w.s.cpu.mask) && Orderly(w.s.cpu, w.live, main) && Stacked(w.live)
    && forall k :: 0 <= k < |w.live| ==> Intact(w, k, main)
  }

  // ---- Delivery ----

  /** The new frame lies on its stack, below everything live there. */
  lemma NewFrameIsFree(c: Cpu, a: Action, live: seq<Live>, main: Main)
    requires Orderly(c, live, main) && Room(c, a, main)
    ensures var f, n := FrameAt(c, a), FrameSize(Flag(a.flags, SA_SIGINFO));
            && f % 8 == 0 && f + n <= SPACE
            && (if UsesAlt(c, a) then c.alt.sp <= f && f + n <= c.alt.sp + c.alt.size else main.lo <= f && f + n <= main.hi)
            && forall k :: 0 <= k < |live| && live[k].alt == UsesAlt(c, a) ==> f + n <= live[k].at
  {
    PlacedInRoom(c, a);
  }

  /** It overlaps no live frame at all. */
  lemma NewFrameMissesLive(c: Cpu, a: Action, live: seq<Live>, main: Main, k: nat)
    requires Orderly(c, live, main) && Room(c, a, main) && k < |live|
    ensures var f, n := FrameAt(c, a), FrameSize(Flag(a.flags, SA_SIGINFO)); f + n <= live[k].at || live[k].End() <= f
  {
    NewFrameIsFree(c, a, live, main);
    assert Belongs(live[k], c, main) && Below(live[k], c);
  }

  lemma EnterStaysOnStack(c: Cpu, a: Action, sig: nat, main: Main)
    requires 1 <= sig <= 64 && Orderly(c, [], main) && Room(c, a, main)
    ensures var d := Enter(c, a, sig);
            d.Sp() == FrameAt(c, a) && d.alt == c.alt && d.OnAlt() == UsesAlt(c, a) && (!d.OnAlt() ==> main.lo <= d.Sp() <= main.hi)
  {
    NewFrameIsFree(c, a, [], main);
    var f, n := FrameAt(c, a), FrameSize(Flag(a.flags, SA_SIGINFO));
    if UsesAlt(c, a) {
      assert Wrap(f - c.alt.sp) == f - c.alt.sp;
    } else if c.alt.Usable() {
      assert Wrap(f - c.alt.sp) == if f >= c.alt.sp then f - c.alt.sp else f - c.alt.sp + SPACE;
    }
  }

  lemma EnterOrderly(s: State, info: Siginfo, live: seq<Live>, main: Main)
    requires 1 <= info[0] <= 64 && Orderly(s.cpu, live, main) && Room(s.cpu, s.acts[info[0]], main)
    ensures Orderly(Enter(s.cpu, s.acts[info[0]], info[0]), live + [Frame(s, info)], main)
  {
    var a, all := s.acts[info[0]], live + [Frame(s, info)];
    var d := Enter(s.cpu, a, info[0]);
    EnterStaysOnStack(s.cpu, a, info[0], main);
    NewFrameIsFree(s.cpu, a, live, main);
    forall k | 0 <= k < |all| ensures Belongs(all[k], d, main) && Below(all[k], d) {
      if k < |live| { assert Belongs(live[k], s.cpu, main) && Below(live[k], s.cpu); }
    }
  }

  lemma WriteMisses(m: Bytes, at: nat, bs: seq<byte>, lo: nat, hi: nat)
    requires at + |bs| <= SPACE && lo <= hi <= SPACE && (at + |bs| <= lo || hi <= at)
    ensures Overwrite(m, at, bs)[lo..hi] == m[lo..hi]
  {
  }

  lemma WriteHits(m: Bytes, at: nat, bs: seq<byte>)
    requires at + |bs| <= SPACE
    ensures Overwrite(m, at, bs)[at..at + |bs|] == bs
  {
  }

  lemma DeliverKeepsFrame(w: World, info: Siginfo, forced: bool, main: Main, k: nat)
    requires Inv(w, main) && Frames(w.s, info, forced) && Room(w.s.cpu, w.s.acts[info[0]], main) && k < |w.live|
    ensures var l := w.live[k]; FrameHolds(SignalFrames.Deliver(w.s, info, forced).1.mem, l.at, l.before, l.info, l.rt)
  {
    var a, l := w.s.acts[info[0]], w.live[k];
    assert Intact(w, k, main);
    NewFrameIsFree(w.s.cpu, a, w.live, main);
    NewFrameMissesLive(w.s.cpu, a, w.live, main, k);
    WriteMisses(w.s.mem, FrameAt(w.s.cpu, a), Flat(FrameWords(w.s.cpu, info, Flag(a.flags, SA_SIGINFO))), l.at, l.End());
  }

  lemma DeliverWritesFrame(s: State, info: Siginfo, forced: bool, main: Main)
    requires Orderly(s.cpu, [], main) && Frames(s, info, forced) && Room(s.cpu, s.acts[info[0]], main)
    ensures FrameHolds(SignalFrames.Deliver(s, info, forced).1.mem, FrameAt(s.cpu, s.acts[info[0]]), s.cpu, info,
                       Flag(s.acts[info[0]].flags, SA_SIGINFO))
  {
    var a := s.acts[info[0]];
    NewFrameIsFree(s.cpu, a, [], main);
    WriteHits(s.mem, FrameAt(s.cpu, a), Flat(FrameWords(s.cpu, info, Flag(a.flags, SA_SIGINFO))));
  }

  lemma DeliverStacked(s: State, info: Siginfo, live: seq<Live>, main: Main)
    requires 1 <= info[0] <= 64 && Orderly(s.cpu, live, main) && Room(s.cpu, s.acts[info[0]], main) && Stacked(live)
    ensures Stacked(live + [Frame(s, info)])
  {
    NewFrameIsFree(s.cpu, s.acts[info[0]], live, main);
  }

  lemma OrderlyAlone(c: Cpu, live: seq<Live>, main: Main)
    requires Orderly(c, live, main)
    ensures Orderly(c, [], main)
  {
  }

  lemma DeliverKeepsIntact(w: World, info: Siginfo, forced: bool, main: Main, k: nat)
    requires Inv(w, main) && Frames(w.s, info, forced) && Room(w.s.cpu, w.s.acts[info[0]], main) && k <= |w.live|
    ensures Intact(Next(w, Event.Deliver(info, forced)), k, main)
  {
    var v := Next(w, Event.Deliver(info, forced));
    assert v.live[..k] == w.live[..k];
    if k < |w.live| {
      assert Intact(w, k, main);
      DeliverKeepsFrame(w, info, forced, main, k);
    } else {
      assert w.live[..k] == w.live;
      OrderlyAlone(w.s.cpu, w.live, main);
      DeliverWritesFrame(w.s, info, forced, main);
    }
  }

  lemma DeliverKeepsInv(w: World, info: Siginfo, forced: bool, main: Main)
    requires Inv(w, main) && Enabled(w, Event.Deliver(info, forced), main)
    ensures Inv(Next(w, Event.Deliver(info, forced)), main)
  {
    var v := Next(w, Event.Deliver(info, forced));
    if Frames(w.s, info, forced) {
      EnterOrderly(w.s, info, w.live, main);
      DeliverStacked(w.s, info, w.live, main);
      forall k | 0 <= k < |v.live| ensures Intact(v, k, main) { DeliverKeepsIntact(w, info, forced, main, k); }
    } else {
      forall k | 0 <= k < |v.live| ensures Intact(v, k, main) { assert Intact(w, k, main); }
    }
  }

  // ---- Return ----

  /** d is c as far as a signal may give it back. */
  ghost predicate SameThread(c: Cpu, d: Cpu) {
    && d.regs == c.regs && d.vfp == c.vfp && d.fpscr == c.fpscr && d.mask == c.mask && d.cpsr == UserCpsr(c.cpsr)
    && d.alt.Normal() == c.alt.Normal() && (d.alt == c.alt.Normal() || c.OnAlt())
  }

  lemma GivenBackIsSame(c: Cpu, now: Stack)
    requires c.OnAlt() ==> now.Normal() == c.alt.Normal()
    ensures SameThread(c, GivenBack(c, now))
  {
  }

  lemma SameIsOrderly(c: Cpu, d: Cpu, live: seq<Live>, main: Main)
    requires Orderly(c, live, main) && SameThread(c, d)
    ensures Orderly(d, live, main)
  {
    forall k | 0 <= k < |live| ensures Belongs(live[k], d, main) && Below(live[k], d) {
      assert Belongs(live[k], c, main) && Below(live[k], c);
    }
  }

  /** The thread a matching sigreturn gives back is the one its signal interrupted. */
  lemma ReturnRestores(w: World, main: Main)
    requires Inv(w, main) && Enabled(w, Return, main)
    ensures SameThread(w.live[|w.live| - 1].before, Next(w, Return).s.cpu)
    ensures Next(w, Return).s == w.s.(cpu := Next(w, Return).s.cpu)
  {
    var l := w.live[|w.live| - 1];
    assert Intact(w, |w.live| - 1, main);
    assert Belongs(l, w.s.cpu, main);
    SigreturnGivesBack(w.s, l.before, l.info, l.rt);
    GivenBackIsSame(l.before, w.s.cpu.alt);
  }

  /**
    The alternate stack itself comes back exactly if the signal did not interrupt code on it, or the
    handler left it as it was: a frame saved with SS_ONSTACK does not restore it.
  */
  lemma AltRestoredIff(s: State, c: Cpu, info: Siginfo, rt: bool)
    requires FrameHolds(s.mem, s.cpu.Sp(), c, info, rt) && Sane(c.mask) && Readable(s, rt)
    ensures Sigreturn(s, rt).1.cpu.alt.Normal() == c.alt.Normal() <==> !c.OnAlt() || s.cpu.alt.Normal() == c.alt.Normal()
  {
    SigreturnGivesBack(s, c, info, rt);
  }

  lemma ReturnKeepsInv(w: World, main: Main)
    requires Inv(w, main) && Enabled(w, Return, main)
    ensures Inv(Next(w, Return), main)
  {
    var v, n := Next(w, Return), |w.live| - 1;
    ReturnRestores(w, main);
    assert Intact(w, n, main);
    SameIsOrderly(w.live[n].before, v.s.cpu, v.live, main);
    forall k | 0 <= k < n ensures Intact(v, k, main) {
      assert Intact(w, k, main);
      assert v.live[..k] == w.live[..k];
    }
  }

  // ---- Guest steps ----

  lemma GuestKeepsIntact(w: World, s: State, main: Main, k: nat)
    requires Inv(w, main) && GuestOk(w, s, main) && k < |w.live|
    ensures Intact(World(s, w.live), k, main)
  {
    assert Intact(w, k, main);
    assert Untouched(w.s.mem, s.mem, w.live[k]);
  }

  lemma GuestKeepsInv(w: World, s: State, main: Main)
    requires Inv(w, main) && GuestOk(w, s, main) && Sane(s.cpu.mask)
    ensures Inv(World(s, w.live), main)
  {
    forall k | 0 <= k < |w.live| ensures Intact(World(s, w.live), k, main) { GuestKeepsIntact(w, s, main, k); }
  }

  /** No call of rt_sigprocmask blocks SIGKILL or SIGSTOP. */
  lemma SigprocmaskSane(s: State, how: u32, setAt: u32, oldAt: u32, size: u32)
    requires Sane(s.cpu.mask)
    ensures Sane(Sigprocmask(s, how, setAt, oldAt, size).1.cpu.mask)
  {
  }

  lemma StepKeepsInv(w: World, e: Event, main: Main)
    requires Inv(w, main) && Enabled(w, e, main)
    ensures Inv(Next(w, e), main)
  {
    match e
    case Deliver(info, forced) => DeliverKeepsInv(w, info, forced, main);
    case Return => ReturnKeepsInv(w, main);
    case SetMask(how, setAt, oldAt, size) =>
      SigprocmaskSane(w.s, how, setAt, oldAt, size);
      GuestKeepsInv(w, StateAfter(w, e), main);
    case _ => GuestKeepsInv(w, StateAfter(w, e), main);
  }

  // ---- Whole runs ----

  ghost predicate ValidRun(w: World, es: seq<Event>, main: Main)
    decreases es
  {
    es == [] || (Enabled(w, es[0], main) && ValidRun(Next(w, es[0]), es[1..], main))
  }

  ghost function After(w: World, es: seq<Event>): World
    decreases es
  {
    if es == [] then w else After(Next(w, es[0]), es[1..])
  }

  lemma {:induction false} RunKeepsInv(w: World, es: seq<Event>, main: Main)
    requires Inv(w, main) && ValidRun(w, es, main)
    ensures Inv(After(w, es), main)
    decreases es
  {
    if es != [] {
      StepKeepsInv(w, es[0], main);
      RunKeepsInv(Next(w, es[0]), es[1..], main);
    }
  }

  /** Live frames are aligned, pairwise disjoint and intact; the mask never blocks SIGKILL or SIGSTOP. */
  lemma LiveFramesDisjoint(w: World, main: Main)
    requires Inv(w, main)
    ensures Sane(w.s.cpu.mask)
    ensures forall k | 0 <= k < |w.live| :: w.live[k].at % 8 == 0 && w.live[k].End() <= SPACE
    ensures forall i, j | 0 <= i < j < |w.live| :: w.live[i].End() <= w.live[j].at || w.live[j].End() <= w.live[i].at
  {
    forall k | 0 <= k < |w.live| ensures w.live[k].at % 8 == 0 && w.live[k].End() <= SPACE { assert Intact(w, k, main); }
    forall i, j | 0 <= i < j < |w.live| ensures w.live[i].End() <= w.live[j].at || w.live[j].End() <= w.live[i].at {
      assert Belongs(w.live[i], w.s.cpu, main) && Below(w.live[i], w.s.cpu);
      assert Belongs(w.live[j], w.s.cpu, main) && Below(w.live[j], w.s.cpu);
    }
  }

  /** Nothing returns from the oldest n frames during the run. */
  ghost predicate StaysAbove(w: World, es: seq<Event>, n: nat)
    decreases es
  {
    |w.live| >= n && (es == [] || StaysAbove(Next(w, es[0]), es[1..], n))
  }

  lemma {:induction false} OldFramesStay(w: World, es: seq<Event>, main: Main, n: nat)
    requires ValidRun(w, es, main) && StaysAbove(w, es, n)
    ensures |After(w, es).live| >= n && After(w, es).live[..n] == w.live[..n]
    decreases es
  {
    if es != [] { OldFramesStay(Next(w, es[0]), es[1..], main, n); }
  }

  /**
    However handlers nest, when the return that matches a delivery comes the thread is the one that
    delivery interrupted, and the frames live then are those live before it.
  */
  lemma NestRestores(w: World, info: Siginfo, forced: bool, es: seq<Event>, main: Main)
    requires Inv(w, main) && Enabled(w, Event.Deliver(info, forced), main) && Frames(w.s, info, forced)
    requires var v := Next(w, Event.Deliver(info, forced));
             ValidRun(v, es, main) && StaysAbove(v, es, |w.live| + 1) && |After(v, es).live| == |w.live| + 1
    requires Enabled(After(Next(w, Event.Deliver(info, forced)), es), Return, main)
    ensures var end := Next(After(Next(w, Event.Deliver(info, forced)), es), Return);
            SameThread(w.s.cpu, end.s.cpu) && end.live == w.live && Inv(end, main)
  {
    var v := Next(w, Event.Deliver(info, forced));
    var u := After(v, es);
    DeliverKeepsInv(w, info, forced, main);
    RunKeepsInv(v, es, main);
    OldFramesStay(v, es, main, |w.live| + 1);
    assert u.live == u.live[..|w.live| + 1] == v.live[..|w.live| + 1] == v.live;
    ReturnRestores(u, main);
    ReturnKeepsInv(u, main);
    assert v.live[..|w.live|] == w.live;
  }

  // ---- Runs on which the thread does not come back ----

  /** A handler that wants its siginfo, on the alternate stack. */
  function Handler(): Action { Action(0x1000, SA_ONSTACK + SA_SIGINFO, 0, seq(64, _ => false)) }

  /** A thread with this stack pointer and alternate stack; all memory is readable and writable, every signal handled. */
  ghost function Example(sp: u32, alt: Stack): State {
    State(Cpu(seq(16, _ => 0)[13 := sp], seq(64, _ => 0), seq(32, _ => false), 0, seq(64, _ => false), alt),
          seq(SPACE, _ => 0), seq(PAGES, _ => Flags(true, true, false, true)), seq(65, _ => Handler()))
  }

  function Signal(sig: u32): Siginfo { seq(32, _ => 0)[0 := sig] }

  lemma {:induction false} HandlerFlags()
    ensures Flag(Handler().flags, SA_ONSTACK) && Flag(Handler().flags, SA_SIGINFO)
    ensures !Flag(Handler().flags, SA_RESETHAND) && !Flag(Handler().flags, SA_NODEFER) && !Flag(Handler().flags, SA_RESTORER)
  {
  }

  lemma {:induction false} AllAccessible(t: Pages, at: nat, len: nat)
    requires at + len <= SPACE && forall i :: 0 <= i < PAGES ==> t[i] == Flags(true, true, false, true)
    ensures Accessible(t, at, len, READ) && Accessible(t, at, len, WRITE)
  {
  }

  /** Every signal but SIGKILL and SIGSTOP runs the handler in these states. */
  ghost predicate Handles(s: State) {
    && (forall a :: a in s.acts ==> a == Handler()) && (forall i :: 0 <= i < PAGES ==> s.pages[i] == Flags(true, true, false, true))
  }

  lemma {:induction false} Delivered(s: State, sig: u32)
    requires Handles(s) && 1 <= sig <= 64 && sig != SIGKILL && sig != SIGSTOP && FrameAt(s.cpu, Handler()) + FrameSize(true) <= SPACE
    ensures var d := SignalFrames.Deliver(s, Signal(sig), false);
            && d.0 && Handles(d.1) && d.1.cpu == Enter(s.cpu, Handler(), sig) && d.1.cpu.Sp() == FrameAt(s.cpu, Handler())
            && FrameHolds(d.1.mem, FrameAt(s.cpu, Handler()), s.cpu, Signal(sig), true)
  {
    HandlerFlags();
    assert s.acts[sig] in s.acts;
    AllAccessible(s.pages, FrameAt(s.cpu, Handler()), FrameSize(true));
    DeliverHolds(s, Signal(sig), false);
    assert s.acts[sig := Handler()] == s.acts;
  }

  lemma {:induction false} Returned(s: State, c: Cpu, sig: u32)
    requires Handles(s) && FrameHolds(s.mem, s.cpu.Sp(), c, Signal(sig), true) && Sane(c.mask)
    ensures Sigreturn(s, true) == (true, s.(cpu := GivenBack(c, s.cpu.alt)))
  {
    ContextAddressIs(s.cpu, true);
    AllAccessible(s.pages, s.cpu.Sp() + INFO_SIZE, CONTEXT_SIZE);
    SigreturnGivesBack(s, c, Signal(sig), true);
  }

  /**
    Two signals in a row on an alternate stack of 512 bytes, and both handlers return: the thread is
    back at the start of the first handler instead of where it was interrupted.
  */
  lemma {:induction false} SmallAltStackLosesThread() returns (s: State, s1: State, s2: State, s3: State, s4: State)
    ensures s == Example(0x8_0000, Stack(0x2_0000, 0, 512)) && SignalFrames.Deliver(s, Signal(10), false) == (true, s1)
    ensures SignalFrames.Deliver(s1, Signal(12), false) == (true, s2)
    ensures Sigreturn(s2, true) == (true, s3) && Sigreturn(s3, true) == (true, s4)
    ensures s4.cpu.regs != s.cpu.regs && s4.cpu.regs == s1.cpu.regs
  {
    s := Example(0x8_0000, Stack(0x2_0000, 0, 512));
    HandlerFlags();
    SmallAltStackOverlaps(s.cpu, Handler(), 10);
    var f := FrameAt(s.cpu, Handler());
    assert f == 0x1_FE88;
    Delivered(s, 10);
    s1 := SignalFrames.Deliver(s, Signal(10), false).1;
    Delivered(s1, 12);
    s2 := SignalFrames.Deliver(s1, Signal(12), false).1;
    Returned(s2, s1.cpu, 12);
    s3 := Sigreturn(s2, true).1;
    Returned(s3, s1.cpu, 12);
    s4 := Sigreturn(s3, true).1;
  }

  /** A signal interrupts code on the alternate stack, its handler replaces that stack, and it stays replaced. */
  lemma {:induction false} AltStackNotRestored() returns (s: State, s1: State, s2: State)
    ensures s == Example(0x2_1000, Stack(0x2_0000, 0, 0x2000)) && SignalFrames.Deliver(s, Signal(10), false) == (true, s1)
    ensures Sigreturn(s1.(cpu := s1.cpu.(alt := Stack(0x4_0000, 0, 0x2000))), true) == (true, s2)
    ensures s2.cpu.regs == s.cpu.regs && s2.cpu.alt == Stack(0x4_0000, 0, 0x2000) && s2.cpu.alt.Normal() != s.cpu.alt.Normal()
  {
    s := Example(0x2_1000, Stack(0x2_0000, 0, 0x2000));
    HandlerFlags();
    assert s.cpu.OnAlt();
    Delivered(s, 10);
    s1 := SignalFrames.Deliver(s, Signal(10), false).1;
    var t := s1.(cpu := s1.cpu.(alt := Stack(0x4_0000, 0, 0x2000)));
    Returned(t, s.cpu, 10);
    s2 := Sigreturn(t, true).1;
  }
}
