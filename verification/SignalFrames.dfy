/**
  Signal frames in guest memory (core/src/signals.cpp, with the layouts of core/include/zb/guest_abi.h):
  what deliver_signal writes and what sigreturn reads back.

  Words are little-endian; 32-bit wrap-around of addresses is written out with Wrap. The sixty-four
  bits of a mask and the thirty-two bits of the cpsr are sequences of booleans, lowest bit first.
*/
module SignalFrames {
  import opened Words
  import opened GuestMemory

  const SIGKILL := 9
  const SIGSEGV := 11
  const SIGBUS := 7
  const SIGSTOP := 19
  const SA_SIGINFO := 0x0000_0004
  const SA_RESTORER := 0x0400_0000
  const SA_ONSTACK := 0x0800_0000
  const SA_NODEFER := 0x4000_0000
  const SA_RESETHAND := 0x8000_0000
  const SIG_DFL := 0
  const SIG_IGN := 1
  const SS_ONSTACK := 1
  const SS_DISABLE := 2
  const VFP_MAGIC := 0x5A42_5646
  const INFO_SIZE := 128
  const CONTEXT_WORDS := 186
  const CONTEXT_SIZE := 744
  const RETCODE_WORDS := 4

  // ---- Bits ----

  function ToWord(bs: seq<bool>): nat { if bs == [] then 0 else (if bs[0] then 1 else 0) + 2 * ToWord(bs[1..]) }

  function FromWord(w: nat, n: nat): (bs: seq<bool>)
    ensures |bs| == n
  {
    if n == 0 then [] else [w % 2 == 1] + FromWord(w / 2, n - 1)
  }

  lemma {:induction false} BitsRoundTrip(bs: seq<bool>)
    ensures FromWord(ToWord(bs), |bs|) == bs
  {
    if bs != [] { BitsRoundTrip(bs[1..]); }
  }

  function Pow2(n: nat): nat { if n == 0 then 1 else 2 * Pow2(n - 1) }

  lemma {:induction false} WordBound(bs: seq<bool>)
    ensures ToWord(bs) < Pow2(|bs|)
  {
    if bs != [] { WordBound(bs[1..]); }
  }

  lemma Word32(bs: seq<bool>)
    requires |bs| == 32
    ensures ToWord(bs) < 0x1_0000_0000
  {
    WordBound(bs);
    assert Pow2(8) == 16 * Pow2(4) == 0x100;
    assert Pow2(16) == 16 * Pow2(12) == 256 * Pow2(8);
    assert Pow2(24) == 16 * Pow2(20) == 256 * Pow2(16);
    assert Pow2(32) == 16 * Pow2(28) == 256 * Pow2(24);
  }

  function Pack(bs: Bits32): u32 {
    Word32(bs);
    ToWord(bs)
  }

  predicate Flag(w: u32, bit: nat)
    requires bit > 0
  {
    w / bit % 2 == 1
  }

  // ---- The thread ----

  type Bits32 = b: seq<bool> | |b| == 32 witness seq(32, _ => false)
  type Mask = b: seq<bool> | |b| == 64 witness seq(64, _ => false)
  type Registers = r: seq<u32> | |r| == 16 witness seq(16, _ => 0)
  type VfpWords = r: seq<u32> | |r| == 64 witness seq(64, _ => 0)
  type Siginfo = r: seq<u32> | |r| == 32 witness seq(32, _ => 0)
  type Bytes = m: seq<byte> | |m| == SPACE ghost witness seq(SPACE, _ => 0)
  type Pages = t: Table | |t| == PAGES ghost witness seq(PAGES, _ => NONE)

  datatype Stack = Stack(sp: u32, flags: u32, size: u32)
  {
    predicate Usable() { flags != SS_DISABLE && size != 0 }
    predicate Holds(address: u32) { Usable() && Wrap(address - sp) < size }
    /** The same stack with its flags reduced to 0 or SS_DISABLE. */
    function Normal(): Stack { this.(flags := if Usable() then 0 else SS_DISABLE) }
  }

  /** The part of a guest thread that a signal saves and restores. */
  datatype Cpu = Cpu(regs: Registers, vfp: VfpWords, cpsr: Bits32, fpscr: u32, mask: Mask, alt: Stack)
  {
    function Sp(): u32 { regs[13] }
    predicate OnAlt() { alt.Holds(Sp()) }
  }

  datatype Action = Action(handler: u32, flags: u32, restorer: u32, mask: Mask)

  type Actions = a: seq<Action> | |a| == 65 ghost witness seq(65, _ => Action(0, 0, 0, seq(64, _ => false)))

  ghost predicate Blocks(m: Mask, sig: nat)
    requires 1 <= sig <= 64
  {
    m[sig - 1]
  }

  /** No mask blocks SIGKILL or SIGSTOP. */
  ghost predicate Sane(m: Mask) { !Blocks(m, SIGKILL) && !Blocks(m, SIGSTOP) }

  function Unblock(m: seq<bool>): (r: Mask)
    requires |m| == 64
    ensures Sane(r) && forall i :: 0 <= i < 64 && i != SIGKILL - 1 && i != SIGSTOP - 1 ==> r[i] == m[i]
  {
    m[SIGKILL - 1 := false][SIGSTOP - 1 := false]
  }

  lemma SaneStays(m: Mask)
    requires Sane(m)
    ensures Unblock(m) == m
  {
  }

  function Or(a: Mask, b: Mask): Mask { seq(64, i requires 0 <= i < 64 => a[i] || b[i]) }

  function Minus(a: Mask, b: Mask): Mask { seq(64, i requires 0 <= i < 64 => a[i] && !b[i]) }

  // ---- The frame ----

  function FrameSize(rt: bool): nat { (if rt then INFO_SIZE else 0) + CONTEXT_SIZE + 4 * RETCODE_WORDS }

  function ContextOffset(rt: bool): nat { if rt then INFO_SIZE else 0 }

  /** Word i of the ucontext that saves c. */
  function ContextWord(c: Cpu, info: Siginfo, i: nat): u32 {
    if i == 2 then c.alt.sp
    else if i == 3 then (if c.alt.Usable() then (if c.OnAlt() then SS_ONSTACK else 0) else SS_DISABLE)
    else if i == 4 then c.alt.size
    else if i == 7 then Pack(c.mask[..32])
    else if 8 <= i < 24 then c.regs[i - 8]
    else if i == 24 then Pack(c.cpsr)
    else if i == 25 then (if info[0] == SIGSEGV || info[0] == SIGBUS then info[3] else 0)
    else if i == 26 then Pack(c.mask[..32])
    else if i == 27 then Pack(c.mask[32..])
    else if i == 58 then VFP_MAGIC
    else if 59 <= i < 123 then c.vfp[i - 59]
    else if i == 123 then c.fpscr
    else 0
  }

  function Context(c: Cpu, info: Siginfo): (ws: seq<u32>)
    ensures |ws| == CONTEXT_WORDS && forall i :: 0 <= i < CONTEXT_WORDS ==> ws[i] == ContextWord(c, info, i)
  {
    seq(CONTEXT_WORDS, i requires 0 <= i < CONTEXT_WORDS => ContextWord(c, info, i))
  }

  function FrameWords(c: Cpu, info: Siginfo, rt: bool): (ws: seq<u32>)
    ensures 4 * |ws| == FrameSize(rt)
  {
    (if rt then info else []) + Context(c, info) + [0, 0, 0, 0]
  }

  // ---- deliver_signal ----

  predicate DefaultIgnored(sig: u32) { sig == 17 || sig == 18 || sig == 23 || sig == 28 }

  /** Finish with this answer, or run the handler of this action. */
  datatype Decision = Done(ok: bool) | Handle(action: Action)

  function Decide(acts: Actions, mask: Mask, sig: u32, forced: bool): (d: Decision)
    ensures d.Handle? ==> 1 <= sig <= 64 && sig != SIGKILL && sig != SIGSTOP && d.action == acts[sig]
    ensures d.Handle? ==> d.action.handler > SIG_IGN && (forced ==> !mask[sig - 1])
  {
    if sig < 1 || sig > 64 then Done(true)
    else if forced && (acts[sig].handler <= SIG_IGN || mask[sig - 1]) then Done(false)
    else if sig == SIGKILL || sig == SIGSTOP then Done(false)
    else if acts[sig].handler == SIG_IGN then Done(true)
    else if acts[sig].handler == SIG_DFL then Done(DefaultIgnored(sig))
    else Handle(acts[sig])
  }

  function Reset(a: Action): Action {
    if !Flag(a.flags, SA_RESETHAND) then a
    else a.(handler := SIG_DFL, flags := if Flag(a.flags, SA_SIGINFO) then a.flags - SA_SIGINFO else a.flags)
  }

  /** Where the frame goes: the top of the alternate stack if the action asks for it and it is not in use. */
  function FrameTop(c: Cpu, a: Action): u32 {
    if Flag(a.flags, SA_ONSTACK) && c.alt.Usable() && !c.OnAlt() then Wrap(c.alt.sp + c.alt.size) else c.Sp()
  }

  function FrameAt(c: Cpu, a: Action): (f: u32)
    ensures f % 8 == 0
  {
    var f := Wrap(FrameTop(c, a) - FrameSize(Flag(a.flags, SA_SIGINFO)));
    f - f % 8
  }

  /** The bits the handler starts without: T, IT and E. */
  predicate HandlerClears(i: nat) { i == 5 || i == 9 || 10 <= i < 16 || 25 <= i < 27 }

  function HandlerCpsr(cpsr: Bits32, handler: u32): Bits32 {
    seq(32, i requires 0 <= i < 32 => if i == 5 then handler % 2 == 1 else cpsr[i] && !HandlerClears(i))
  }

  function HandlerMask(m: Mask, a: Action, sig: nat): Mask
    requires 1 <= sig <= 64
  {
    var blocked := Or(m, a.mask);
    Unblock(if Flag(a.flags, SA_NODEFER) then blocked else blocked[sig - 1 := true])
  }

  /** The handler runs with exactly these signals blocked. */
  lemma HandlerBlocks(m: Mask, a: Action, sig: nat, k: nat)
    requires 1 <= sig <= 64 && 1 <= k <= 64
    ensures Blocks(HandlerMask(m, a, sig), k) <==>
            k != SIGKILL && k != SIGSTOP &&
            (Blocks(m, k) || Blocks(a.mask, k) || (k == sig && !Flag(a.flags, SA_NODEFER)))
  {
    var blocked := Or(m, a.mask);
    assert blocked[k - 1] == (m[k - 1] || a.mask[k - 1]);
  }

  /** The thread at the first instruction of its handler. */
  function Enter(c: Cpu, a: Action, sig: nat): Cpu
    requires 1 <= sig <= 64
  {
    var frame := FrameAt(c, a);
    var regs := c.regs[0 := sig];
    var args := if Flag(a.flags, SA_SIGINFO) then regs[1 := frame][2 := Wrap(frame + INFO_SIZE)] else regs;
    c.(regs := args[13 := frame][14 := if Flag(a.flags, SA_RESTORER) then a.restorer else 0][15 := a.handler - a.handler % 2],
       cpsr := HandlerCpsr(c.cpsr, a.handler), mask := HandlerMask(c.mask, a, sig))
  }

  datatype State = State(cpu: Cpu, mem: Bytes, pages: Pages, acts: Actions)

  ghost predicate Writable(s: State, a: Action) {
    Accessible(s.pages, FrameAt(s.cpu, a), FrameSize(Flag(a.flags, SA_SIGINFO)), WRITE)
  }

  /** deliver_signal: its answer and the state afterwards. */
  ghost function Deliver(s: State, info: Siginfo, forced: bool): (bool, State) {
    var d := Decide(s.acts, s.cpu.mask, info[0], forced);
    if d.Done? then (d.ok, s)
    else
      var acts := s.acts[info[0] := Reset(d.action)];
      if !Writable(s, d.action) then (false, s.(acts := acts))
      else
        var bytes := Flat(FrameWords(s.cpu, info, Flag(d.action.flags, SA_SIGINFO)));
        (true, s.(cpu := Enter(s.cpu, d.action, info[0]), acts := acts, mem := Overwrite(s.mem, FrameAt(s.cpu, d.action), bytes)))
  }

  // ---- sigreturn ----

  /** NZCVQ, GE, IT and T. */
  predicate UserRestorable(i: nat) { i == 5 || 10 <= i < 20 || 25 <= i < 32 }

  /** What sigreturn makes of a saved cpsr: the user bits of it, in user mode. */
  function UserCpsr(cpsr: Bits32): Bits32 {
    seq(32, i requires 0 <= i < 32 => i == 4 || (cpsr[i] && UserRestorable(i)))
  }

  function ContextAt(m: Bytes, at: nat): (ws: seq<u32>)
    requires at + CONTEXT_SIZE <= SPACE
    ensures |ws| == CONTEXT_WORDS
  {
    seq(CONTEXT_WORDS, i requires 0 <= i < CONTEXT_WORDS => At32(m, at + 4 * i))
  }

  /** The thread whose ucontext is ws; c is the thread that called sigreturn. */
  function Restore(c: Cpu, ws: seq<u32>): Cpu
    requires |ws| == CONTEXT_WORDS
  {
    var vfp := ws[58] == VFP_MAGIC;
    Cpu(ws[8..24], if vfp then ws[59..123] else c.vfp, UserCpsr(FromWord(ws[24], 32)), if vfp then ws[123] else c.fpscr,
        Unblock(FromWord(ws[26], 32) + FromWord(ws[27], 32)),
        if ws[3] == 0 || ws[3] == SS_DISABLE then Stack(ws[2], ws[3], ws[4]) else c.alt)
  }

  function ContextAddress(c: Cpu, rt: bool): u32 { Wrap(c.Sp() + ContextOffset(rt)) }

  lemma ContextAddressIs(c: Cpu, rt: bool)
    requires c.Sp() + ContextOffset(rt) < SPACE
    ensures ContextAddress(c, rt) == c.Sp() + ContextOffset(rt)
  {
  }

  ghost predicate Readable(s: State, rt: bool) {
    Accessible(s.pages, ContextAddress(s.cpu, rt), CONTEXT_SIZE, READ)
  }

  ghost function Sigreturn(s: State, rt: bool): (bool, State) {
    if !Readable(s, rt) then (false, s)
    else (true, s.(cpu := Restore(s.cpu, ContextAt(s.mem, ContextAddress(s.cpu, rt)))))
  }

  // ---- rt_sigprocmask ----

  const EFAULT := 14
  const EINVAL := 22

  function MaskAt(m: Bytes, at: nat): Mask
    requires at + 8 <= SPACE
  {
    FromWord(At32(m, at), 32) + FromWord(At32(m, at + 4), 32)
  }

  function Remask(old_: Mask, how: u32, set_: Mask): Mask {
    if how == 0 then Or(old_, set_) else if how == 1 then Minus(old_, set_) else set_
  }

  /** The mask is set before the old one is written, so a bad oldAt reports EFAULT after the change. */
  ghost function Sigprocmask(s: State, how: u32, setAt: u32, oldAt: u32, size: u32): (int, State) {
    if size != 8 then (-EINVAL, s)
    else if setAt != 0 && !Accessible(s.pages, setAt, 8, READ) then (-EFAULT, s)
    else if setAt != 0 && how > 2 then (-EINVAL, s)
    else
      var t := if setAt == 0 then s else s.(cpu := s.cpu.(mask := Unblock(Remask(s.cpu.mask, how, MaskAt(s.mem, setAt)))));
      if oldAt == 0 then (0, t)
      else if !Accessible(s.pages, oldAt, 8, WRITE) then (-EFAULT, t)
      else (0, t.(mem := Overwrite(s.mem, oldAt, Le32(Pack(s.cpu.mask[..32])) + Le32(Pack(s.cpu.mask[32..])))))
  }

  // ---- A frame that is left alone gives the thread back ----

  ghost predicate FrameHolds(m: Bytes, at: nat, c: Cpu, info: Siginfo, rt: bool) {
    at + FrameSize(rt) <= SPACE && m[at..at + FrameSize(rt)] == Flat(FrameWords(c, info, rt))
  }

  lemma ContextReadsBack(m: Bytes, at: nat, c: Cpu, info: Siginfo, rt: bool)
    requires FrameHolds(m, at, c, info, rt)
    ensures ContextAt(m, at + ContextOffset(rt)) == Context(c, info)
  {
    var ws := FrameWords(c, info, rt);
    var skip := ContextOffset(rt) / 4;
    forall i | 0 <= i < CONTEXT_WORDS ensures At32(m, at + ContextOffset(rt) + 4 * i) == Context(c, info)[i] {
      WordsReadBack(m, at, ws, skip + i);
      assert ws[skip + i] == Context(c, info)[i];
    }
  }

  lemma {:induction false} InfoReadsBack(m: Bytes, at: nat, c: Cpu, info: Siginfo, k: nat)
    requires FrameHolds(m, at, c, info, true) && k < 32
    ensures At32(m, at + 4 * k) == info[k]
  {
    WordsReadBack(m, at, FrameWords(c, info, true), k);
    assert FrameWords(c, info, true)[k] == info[k];
  }

  /** The fields of the context are at the offsets the ABI gives them. */
  lemma {:induction false} ContextLayout(m: Bytes, uc: nat, c: Cpu, info: Siginfo)
    requires uc + CONTEXT_SIZE <= SPACE && ContextAt(m, uc) == Context(c, info)
    ensures At32(m, uc + 8) == c.alt.sp && At32(m, uc + 16) == c.alt.size
    ensures forall i :: 0 <= i < 16 ==> At32(m, uc + 20 + 12 + 4 * i) == c.regs[i]
    ensures At32(m, uc + 20 + 76) == Pack(c.cpsr) && At32(m, uc + 104) == Pack(c.mask[..32]) && At32(m, uc + 108) == Pack(c.mask[32..])
    ensures At32(m, uc + 232) == VFP_MAGIC && forall i :: 0 <= i < 64 ==> At32(m, uc + 236 + 4 * i) == c.vfp[i]
  {
    ContextWordAt(m, uc, c, info, 2);
    ContextWordAt(m, uc, c, info, 4);
    ContextWordAt(m, uc, c, info, 24);
    ContextWordAt(m, uc, c, info, 26);
    ContextWordAt(m, uc, c, info, 27);
    ContextWordAt(m, uc, c, info, 58);
    forall i | 0 <= i < 16 ensures At32(m, uc + 20 + 12 + 4 * i) == c.regs[i] { ContextWordAt(m, uc, c, info, 8 + i); }
    forall i | 0 <= i < 64 ensures At32(m, uc + 236 + 4 * i) == c.vfp[i] { ContextWordAt(m, uc, c, info, 59 + i); }
  }

  lemma {:induction false} ContextWordAt(m: Bytes, uc: nat, c: Cpu, info: Siginfo, i: nat)
    requires uc + CONTEXT_SIZE <= SPACE && ContextAt(m, uc) == Context(c, info) && i < CONTEXT_WORDS
    ensures At32(m, uc + 4 * i) == ContextWord(c, info, i)
  {
    assert ContextAt(m, uc)[i] == Context(c, info)[i];
  }

  /** A delivery that runs a handler leaves the frame in memory. */
  lemma {:induction false} DeliverHolds(s: State, info: Siginfo, forced: bool)
    requires Decide(s.acts, s.cpu.mask, info[0], forced).Handle? && Writable(s, s.acts[info[0]])
    ensures var a := s.acts[info[0]];
            FrameHolds(Deliver(s, info, forced).1.mem, FrameAt(s.cpu, a), s.cpu, info, Flag(a.flags, SA_SIGINFO))
  {
    var a := s.acts[info[0]];
    var at, bs := FrameAt(s.cpu, a), Flat(FrameWords(s.cpu, info, Flag(a.flags, SA_SIGINFO)));
    assert Overwrite(s.mem, at, bs)[at..at + |bs|] == bs;
  }

  /** The context that a frame at sp holds for the handler; with SA_SIGINFO the siginfo is in front of it. */
  ghost predicate Finds(m: Bytes, sp: nat, c: Cpu, info: Siginfo, rt: bool) {
    && sp % 8 == 0 && sp + FrameSize(rt) <= SPACE && ContextAt(m, sp + ContextOffset(rt)) == Context(c, info)
    && (rt ==> forall k :: 0 <= k < 32 ==> At32(m, sp + 4 * k) == info[k])
  }

  /**
    What the handler starts with: the signal in r0, the stack pointer at the frame, with SA_SIGINFO the
    addresses of the siginfo and the context in r1 and r2, the return address in lr, its own first
    instruction in pc, in Thumb state exactly if its address is odd, and every other register as it was.
  */
  ghost predicate Starts(c: Cpu, d: Cpu, a: Action, sig: nat) {
    var r, rt := d.regs, Flag(a.flags, SA_SIGINFO);
    && r[0] == sig && r[13] == FrameAt(c, a) && r[14] == (if Flag(a.flags, SA_RESTORER) then a.restorer else 0)
    && r[15] % 2 == 0 && a.handler == r[15] + (if d.cpsr[5] then 1 else 0)
    && (if rt then r[1] == r[13] && r[2] == r[13] + INFO_SIZE else r[1] == c.regs[1] && r[2] == c.regs[2])
    && forall k :: 3 <= k < 13 ==> r[k] == c.regs[k]
  }

  /** A handler starts with the right registers and finds the thread it interrupted in its frame. */
  lemma {:induction false} HandlerSees(s: State, info: Siginfo, forced: bool)
    requires Decide(s.acts, s.cpu.mask, info[0], forced).Handle? && Writable(s, s.acts[info[0]])
    ensures var a, t := s.acts[info[0]], Deliver(s, info, forced).1;
            Starts(s.cpu, t.cpu, a, info[0]) && Finds(t.mem, t.cpu.Sp(), s.cpu, info, Flag(a.flags, SA_SIGINFO))
  {
    var a, t := s.acts[info[0]], Deliver(s, info, forced).1;
    DeliverHolds(s, info, forced);
    EnterStarts(s.cpu, a, info[0]);
    FrameReads(t.mem, FrameAt(s.cpu, a), s.cpu, info, Flag(a.flags, SA_SIGINFO));
  }

  lemma {:induction false} FrameReads(m: Bytes, at: nat, c: Cpu, info: Siginfo, rt: bool)
    requires FrameHolds(m, at, c, info, rt)
    ensures at % 8 == 0 ==> Finds(m, at, c, info, rt)
  {
    ContextReadsBack(m, at, c, info, rt);
    if rt {
      forall k | 0 <= k < 32 ensures At32(m, at + 4 * k) == info[k] { InfoReadsBack(m, at, c, info, k); }
    }
  }

  lemma {:induction false} EnterStarts(c: Cpu, a: Action, sig: nat)
    requires 1 <= sig <= 64 && FrameAt(c, a) + FrameSize(Flag(a.flags, SA_SIGINFO)) <= SPACE
    ensures Starts(c, Enter(c, a, sig), a, sig)
  {
  }

  /** What a matching sigreturn gives back of the thread c; `now` is the alternate stack at that time. */
  function GivenBack(c: Cpu, now: Stack): Cpu {
    c.(cpsr := UserCpsr(c.cpsr), alt := if c.OnAlt() then now else c.alt.Normal())
  }

  lemma RestoreContext(c: Cpu, d: Cpu, info: Siginfo)
    requires Sane(c.mask)
    ensures Restore(d, Context(c, info)) == GivenBack(c, d.alt)
  {
    var ws := Context(c, info);
    assert ws[8..24] == c.regs;
    assert ws[59..123] == c.vfp;
    BitsRoundTrip(c.cpsr);
    BitsRoundTrip(c.mask[..32]);
    BitsRoundTrip(c.mask[32..]);
    assert c.mask[..32] + c.mask[32..] == c.mask;
    SaneStays(c.mask);
  }

  /** sigreturn on an untouched frame gives back the thread that was interrupted. */
  lemma SigreturnGivesBack(s: State, c: Cpu, info: Siginfo, rt: bool)
    requires FrameHolds(s.mem, s.cpu.Sp(), c, info, rt) && Sane(c.mask) && Readable(s, rt)
    ensures Sigreturn(s, rt) == (true, s.(cpu := GivenBack(c, s.cpu.alt)))
  {
    ContextReadsBack(s.mem, s.cpu.Sp(), c, info, rt);
    ContextAddressIs(s.cpu, rt);
    RestoreContext(c, s.cpu, info);
  }

  // ---- The methods ----

  class Process {
    var regs: Registers
    var vfp: VfpWords
    var cpsr: Bits32
    var fpscr: u32
    var sigmask: Mask
    var altstack: Stack
    var acts: Actions
    const memory: Memory
    const bytes: array<byte>

    ghost predicate Valid()
      reads this, memory, memory.pages, bytes
    {
      memory.Valid() && bytes.Length == SPACE
    }

    constructor (memory: Memory, bytes: array<byte>, acts: Actions)
      requires memory.Valid() && bytes.Length == SPACE
      ensures Valid() && this.memory == memory && this.bytes == bytes && this.acts == acts
      ensures sigmask == seq(64, _ => false) && altstack == Stack(0, SS_DISABLE, 0)
    {
      this.memory, this.bytes, this.acts := memory, bytes, acts;
      regs, vfp, fpscr := seq(16, _ => 0), seq(64, _ => 0), 0;
      cpsr, sigmask, altstack := seq(32, _ => false), seq(64, _ => false), Stack(0, SS_DISABLE, 0);
    }

    function Thread(): Cpu
      reads this
    {
      Cpu(regs, vfp, cpsr, fpscr, sigmask, altstack)
    }

    ghost function Now(): State
      requires Valid()
      reads this, memory, memory.pages, bytes
    {
      State(Thread(), bytes[..], memory.pages[..], acts)
    }

    /** deliver_signal: false means the guest dies of the signal. */
    method DeliverSignal(info: Siginfo, forced: bool) returns (ok: bool)
      requires Valid()
      modifies this, bytes
      ensures Valid() && (ok, Now()) == Deliver(old(Now()), info, forced)
    {
      var d := Decide(acts, sigmask, info[0], forced);
      if d.Done? { return d.ok; }
      var sig, a := info[0], d.action;
      acts := acts[sig := Reset(a)];
      var rt := Flag(a.flags, SA_SIGINFO);
      var frame := FrameAt(Thread(), a);
      var words := FrameWords(Thread(), info, rt);
      var writable := memory.IsAccessible(frame, FrameSize(rt), WRITE);
      if !writable { return false; }
      CopyIn(bytes, frame, Flat(words));
      EnterHandler(a, sig, frame);
      return true;
    }

    method EnterHandler(a: Action, sig: nat, frame: u32)
      requires 1 <= sig <= 64 && frame == FrameAt(Thread(), a)
      modifies this
      ensures Thread() == Enter(old(Thread()), a, sig) && acts == old(acts)
    {
      sigmask := HandlerMask(sigmask, a, sig);
      regs := regs[0 := sig];
      if Flag(a.flags, SA_SIGINFO) { regs := regs[1 := frame][2 := Wrap(frame + INFO_SIZE)]; }
      regs := regs[13 := frame];
      regs := regs[14 := if Flag(a.flags, SA_RESTORER) then a.restorer else 0];
      regs := regs[15 := a.handler - a.handler % 2];
      cpsr := HandlerCpsr(cpsr, a.handler);
    }

    /** sigreturn; false if the context cannot be read. */
    method SigReturn(rt: bool) returns (ok: bool)
      requires Valid()
      modifies this
      ensures Valid() && (ok, Now()) == Sigreturn(old(Now()), rt)
    {
      var at := ContextAddress(Thread(), rt);
      ok := memory.IsAccessible(at, CONTEXT_SIZE, READ);
      if ok { Load(ContextAt(bytes[..], at)); }
    }

    method Load(ws: seq<u32>)
      requires |ws| == CONTEXT_WORDS
      modifies this
      ensures Thread() == Restore(old(Thread()), ws) && acts == old(acts)
    {
      regs := ws[8..24];
      cpsr := UserCpsr(FromWord(ws[24], 32));
      sigmask := Unblock(FromWord(ws[26], 32) + FromWord(ws[27], 32));
      if ws[58] == VFP_MAGIC {
        vfp := ws[59..123];
        fpscr := ws[123];
      }
      if ws[3] == 0 || ws[3] == SS_DISABLE { altstack := Stack(ws[2], ws[3], ws[4]); }
    }

    /** rt_sigprocmask. */
    method SysRtSigprocmask(how: u32, setAt: u32, oldAt: u32, size: u32) returns (res: int)
      requires Valid()
      modifies this, bytes
      ensures Valid() && (res, Now()) == Sigprocmask(old(Now()), how, setAt, oldAt, size)
    {
      if size != 8 { return -EINVAL; }
      var before := sigmask;
      if setAt != 0 {
        var readable := memory.IsAccessible(setAt, 8, READ);
        if !readable { return -EFAULT; }
        if how > 2 { return -EINVAL; }
        sigmask := Unblock(Remask(before, how, MaskAt(bytes[..], setAt)));
      }
      if oldAt != 0 {
        var writable := memory.IsAccessible(oldAt, 8, WRITE);
        if !writable { return -EFAULT; }
        CopyIn(bytes, oldAt, Le32(Pack(before[..32])) + Le32(Pack(before[32..])));
      }
      return 0;
    }
  }
}
