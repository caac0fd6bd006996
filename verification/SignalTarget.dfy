/**
  Forwarding of host signals to guest threads and retirement of the process signal target
  (core/src/signals.cpp, core/src/process.cpp).

  Every atomic operation of a forwarding handler and of its competitors is one event. Any number of
  host threads and of handler activations take part; handlers interrupt their host thread, so the
  normal code of a host thread moves only while no handler activation is running on it.
*/
module SignalTarget {
  type Tid = nat
  type HostId = nat
  type FrameId = nat

  import opened Wrappers

  /** Where one activation of forward_host_signal stands. */
  datatype Pc =
    | Entered         // t_current_thread not read yet
    | Own(t: Tid)     // posting to the guest thread this host thread runs
    | Fetching        // no own guest thread; g_target_readers not incremented yet
    | Counted         // counted as a reader, target not loaded yet
    | Holds(t: Tid)   // loaded t from g_process_signal_target and is posting to it
    | Leaving         // g_target_readers still to be decremented
  {
    predicate InSection() { Counted? || Holds? || Leaving? }
  }

  datatype Frame = Frame(host: HostId, pc: Pc)

  /** Normal-context progress of a host thread through clear_process_signal_target. */
  datatype Op =
    | NoOp
    | Waiting(t: Tid)  // unpublished t, in the loop that waits for readers
    | Cleared(t: Tid)  // clear_process_signal_target(t) has returned, t not freed yet

  datatype Host = Host(current: Option<Tid>, op: Op)

  datatype State = State(
    target: Option<Tid>,           // g_process_signal_target
    readers: nat,                  // g_target_readers
    hosts: map<HostId, Host>,      // t_current_thread and the clearing code of each host thread
    frames: map<FrameId, Frame>,   // running handler activations
    owner: map<Tid, HostId>,       // host thread that created each guest thread, past or present
    live: set<Tid>                 // guest threads that are not freed
  )

  datatype Event =
    | Attach(h: HostId)
    | Start(h: HostId, t: Tid)
    | SetCurrent(h: HostId, next: Option<Tid>)
    | Publish(h: HostId, t: Tid)
    | ClearExchange(h: HostId, t: Tid)
    | ClearPoll(h: HostId)
    | Free(h: HostId)
    | Enter(f: FrameId, h: HostId)
    | ReadCurrent(f: FrameId)
    | CountReader(f: FrameId)
    | LoadTarget(f: FrameId)
    | Touch(f: FrameId)
    | FinishPost(f: FrameId)
    | UncountReader(f: FrameId)

  const Init := State(None, 0, map[], map[], map[], {})

  ghost predicate Quiet(s: State, h: HostId) {
    h in s.hosts && forall f :: f in s.frames ==> s.frames[f].host != h
  }

  ghost predicate Owns(s: State, h: HostId, t: Tid) {
    t in s.live && t in s.owner && s.owner[t] == h
  }

  ghost predicate At(s: State, f: FrameId) { f in s.frames && s.frames[f].host in s.hosts }

  /** When an event can happen. `Publish` is guarded only by who may run it, see `Disciplined`. */
  ghost predicate Enabled(s: State, e: Event) {
    match e
    case Attach(h) => h !in s.hosts
    case Start(h, t) => Quiet(s, h) && s.hosts[h].op.NoOp? && t !in s.owner
    case SetCurrent(h, t) => Quiet(s, h) && !s.hosts[h].op.Waiting? &&
                             (t.Some? ==> Owns(s, h, t.value) && s.hosts[h].op.NoOp?)
    case Publish(h, t) => Quiet(s, h) && s.hosts[h].op.NoOp? && Owns(s, h, t)
    case ClearExchange(h, t) => Quiet(s, h) && s.hosts[h].op.NoOp? && Owns(s, h, t)
    case ClearPoll(h) => Quiet(s, h) && s.hosts[h].op.Waiting?
    case Free(h) => Quiet(s, h) && s.hosts[h].op.Cleared? && s.hosts[h].current != Some(s.hosts[h].op.t)
    case Enter(f, h) => h in s.hosts && f !in s.frames
    case ReadCurrent(f) => At(s, f) && s.frames[f].pc.Entered?
    case CountReader(f) => At(s, f) && s.frames[f].pc.Fetching?
    case LoadTarget(f) => At(s, f) && s.frames[f].pc.Counted?
    case Touch(f) => At(s, f) && (s.frames[f].pc.Own? || s.frames[f].pc.Holds?)
    case FinishPost(f) => At(s, f) && (s.frames[f].pc.Own? || s.frames[f].pc.Holds?)
    case UncountReader(f) => At(s, f) && s.frames[f].pc.Leaving? && s.readers > 0
  }

  ghost function SetOp(s: State, h: HostId, op: Op): State
    requires h in s.hosts
  {
    s.(hosts := s.hosts[h := s.hosts[h].(op := op)])
  }

  ghost function SetPc(s: State, f: FrameId, pc: Pc): State
    requires f in s.frames
  {
    s.(frames := s.frames[f := s.frames[f].(pc := pc)])
  }

  ghost function Next(s: State, e: Event): State
    requires Enabled(s, e)
  {
    match e
    case Attach(h) => s.(hosts := s.hosts[h := Host(None, NoOp)])
    case Start(h, t) => s.(live := s.live + {t}, owner := s.owner[t := h],
                           hosts := s.hosts[h := s.hosts[h].(current := Some(t))])
    case SetCurrent(h, t) => s.(hosts := s.hosts[h := s.hosts[h].(current := t)])
    case Publish(h, t) => s.(target := Some(t))
    case ClearExchange(h, t) =>
      if s.target == Some(t) then SetOp(s.(target := None), h, Waiting(t)) else SetOp(s, h, Cleared(t))
    case ClearPoll(h) => if s.readers == 0 then SetOp(s, h, Cleared(s.hosts[h].op.t)) else s
    case Free(h) => SetOp(s.(live := s.live - {s.hosts[h].op.t}), h, NoOp)
    case Enter(f, h) => s.(frames := s.frames[f := Frame(h, Entered)])
    case ReadCurrent(f) =>
      var c := s.hosts[s.frames[f].host].current;
      SetPc(s, f, if c.Some? then Own(c.value) else Fetching)
    case CountReader(f) => SetPc(s.(readers := s.readers + 1), f, Counted)
    case LoadTarget(f) => SetPc(s, f, if s.target.Some? then Holds(s.target.value) else Leaving)
    case Touch(f) => s
    case FinishPost(f) =>
      if s.frames[f].pc.Holds? then SetPc(s, f, Leaving) else s.(frames := s.frames - {f})
    case UncountReader(f) => s.(readers := s.readers - 1, frames := s.frames - {f})
  }

  ghost predicate ValidRun(s: State, es: seq<Event>)
    decreases es
  {
    es == [] || (Enabled(s, es[0]) && ValidRun(Next(s, es[0]), es[1..]))
  }

  ghost function After(s: State, es: seq<Event>): State
    requires ValidRun(s, es)
    decreases es
  {
    if es == [] then s else After(Next(s, es[0]), es[1..])
  }

  /** No handler is left holding a target that is published over. */
  ghost predicate LeavesNoHolder(s: State, t: Tid) {
    s.target.None? || s.target == Some(t) || forall f :: f in s.frames ==> s.frames[f].pc != Holds(s.target.value)
  }

  /** Whenever a target is published over, no handler holds it. PublishKeepsInvIff shows that this is exact. */
  ghost predicate Disciplined(s: State, es: seq<Event>)
    requires ValidRun(s, es)
    decreases es
  {
    es == [] || ((es[0].Publish? ==> LeavesNoHolder(s, es[0].t)) && Disciplined(Next(s, es[0]), es[1..]))
  }

  /** The demand set_process_signal_target makes of its caller: no published target is overwritten. */
  ghost predicate NeverOverwrites(s: State, es: seq<Event>)
    requires ValidRun(s, es)
    decreases es
  {
    es == [] || ((es[0].Publish? ==> s.target.None?) && NeverOverwrites(Next(s, es[0]), es[1..]))
  }

  /** A caller that meets the demand is disciplined. */
  lemma {:induction false} DemandSuffices(s: State, es: seq<Event>)
    requires ValidRun(s, es) && NeverOverwrites(s, es)
    ensures Disciplined(s, es)
    decreases es
  {
    if es != [] { DemandSuffices(Next(s, es[0]), es[1..]); }
  }

  ghost function Readers(s: State): set<FrameId> {
    set f | f in s.frames && s.frames[f].pc.InSection()
  }

  /** What every disciplined step keeps: the counter is exact and every use is of a live thread. */
  ghost predicate Inv(s: State) { s.readers == |Readers(s)| && HostInv(s) && FrameInv(s) }

  ghost predicate HostInv(s: State) {
    && (forall t :: t in s.live ==> t in s.owner && s.owner[t] in s.hosts)
    && (s.target.Some? ==> s.target.value in s.live && StillOpen(s, s.target.value))
    && (forall h :: h in s.hosts && s.hosts[h].current.Some? ==> Owns(s, h, s.hosts[h].current.value))
    && (forall h :: h in s.hosts && !s.hosts[h].op.NoOp? ==> Owns(s, h, s.hosts[h].op.t))
  }

  ghost predicate FrameInv(s: State) {
    forall f :: f in s.frames ==> FrameOk(s, s.frames[f])
  }

  ghost predicate FrameOk(s: State, frame: Frame) {
    && frame.host in s.hosts
    && (frame.pc.Own? ==> Owns(s, frame.host, frame.pc.t))
    && (frame.pc.Holds? ==> HeldSafely(s, frame.pc.t))
  }

  /** The owner of t has not started to clear it. */
  ghost predicate StillOpen(s: State, t: Tid) {
    t in s.owner && s.owner[t] in s.hosts &&
    s.hosts[s.owner[t]].op != Cleared(t) && s.hosts[s.owner[t]].op != Waiting(t)
  }

  /** A thread some handler loaded is still published, or its owner is waiting for the readers. */
  ghost predicate HeldSafely(s: State, t: Tid) {
    t in s.live && t in s.owner && s.owner[t] in s.hosts &&
    (s.target == Some(t) || s.hosts[s.owner[t]].op == Waiting(t))
  }

  predicate ByHandler(e: Event) {
    e.Enter? || e.ReadCurrent? || e.CountReader? || e.LoadTarget? || e.Touch? || e.FinishPost? || e.UncountReader?
  }

  lemma SetPcReaders(s: State, f: FrameId, pc: Pc)
    requires f in s.frames
    ensures Readers(SetPc(s, f, pc)) == if pc.InSection() then Readers(s) + {f} else Readers(s) - {f}
  {
  }

  /** The counter counts exactly the handlers between their increment and their decrement. */
  lemma HandlerStepCounts(s: State, e: Event)
    requires s.readers == |Readers(s)| && Enabled(s, e) && ByHandler(e)
    ensures Next(s, e).readers == |Readers(Next(s, e))|
  {
    var s' := Next(s, e);
    match e {
      case Enter(f, h) => assert Readers(s') == Readers(s);
      case ReadCurrent(f) => SetPcReaders(s, f, s'.frames[f].pc);
      case CountReader(f) => SetPcReaders(s, f, Counted);
      case LoadTarget(f) => SetPcReaders(s, f, s'.frames[f].pc);
      case Touch(f) =>
      case FinishPost(f) =>
        if s.frames[f].pc.Holds? { SetPcReaders(s, f, Leaving); } else { assert Readers(s') == Readers(s); }
      case UncountReader(f) => assert Readers(s') == Readers(s) - {f};
    }
  }

  lemma HandlerStepKeepsInv(s: State, e: Event)
    requires HostInv(s) && FrameInv(s) && Enabled(s, e) && ByHandler(e)
    ensures HostInv(Next(s, e)) && FrameInv(Next(s, e))
  {
  }

  lemma NormalStepKeepsHosts(s: State, e: Event)
    requires HostInv(s) && Enabled(s, e) && !ByHandler(e)
    requires e.Publish? ==> LeavesNoHolder(s, e.t)
    ensures HostInv(Next(s, e))
  {
  }

  lemma NormalStepKeepsFrames(s: State, e: Event)
    requires Inv(s) && Enabled(s, e) && !ByHandler(e)
    requires e.Publish? ==> LeavesNoHolder(s, e.t)
    ensures FrameInv(Next(s, e)) && Readers(Next(s, e)) == Readers(s)
  {
    var s' := Next(s, e);
    assert s'.frames == s.frames;
    forall f | f in s.frames ensures FrameOk(s', s.frames[f]) {
      assert FrameOk(s, s.frames[f]);
      if e.ClearPoll? && s.readers == 0 { assert f !in Readers(s); }
    }
  }

  lemma StepKeepsInv(s: State, e: Event)
    requires Inv(s) && Enabled(s, e)
    requires e.Publish? ==> LeavesNoHolder(s, e.t)
    ensures Inv(Next(s, e))
  {
    if ByHandler(e) {
      HandlerStepCounts(s, e);
      HandlerStepKeepsInv(s, e);
    } else {
      NormalStepKeepsHosts(s, e);
      NormalStepKeepsFrames(s, e);
    }
  }

  /** Publishing a target keeps the invariant exactly if no handler holds the one that is published over. */
  lemma {:induction false} PublishKeepsInvIff(s: State, h: HostId, t: Tid)
    requires Inv(s) && Enabled(s, Publish(h, t))
    ensures Inv(Next(s, Publish(h, t))) <==> LeavesNoHolder(s, t)
  {
    if LeavesNoHolder(s, t) {
      StepKeepsInv(s, Publish(h, t));
    } else {
      var f :| f in s.frames && s.frames[f].pc == Holds(s.target.value);
      assert !FrameOk(Next(s, Publish(h, t)), s.frames[f]);
    }
  }

  lemma {:induction false} RunKeepsInv(s: State, es: seq<Event>)
    requires Inv(s) && ValidRun(s, es) && Disciplined(s, es)
    ensures Inv(After(s, es))
    decreases es
  {
    if es != [] {
      StepKeepsInv(s, es[0]);
      RunKeepsInv(Next(s, es[0]), es[1..]);
    }
  }

  /** clear_process_signal_target(t) has returned, or t is already freed. */
  ghost predicate Retired(s: State, t: Tid) {
    t in s.owner && (t in s.live ==> s.owner[t] in s.hosts && s.hosts[s.owner[t]].op == Cleared(t))
  }

  ghost predicate Unreachable(s: State, t: Tid) {
    s.target != Some(t) && forall f :: f in s.frames ==> s.frames[f].pc != Holds(t)
  }

  lemma {:induction false} RunKeepsRetired(s: State, es: seq<Event>, t: Tid)
    requires Inv(s) && ValidRun(s, es) && Disciplined(s, es) && Retired(s, t)
    ensures Inv(After(s, es)) && Retired(After(s, es), t)
    decreases es
  {
    if es != [] {
      StepKeepsInv(s, es[0]);
      RunKeepsRetired(Next(s, es[0]), es[1..], t);
    }
  }

  /**
    Retirement is final: from the moment clear_process_signal_target(t) has returned, in every
    continuation no handler holds t through the target pointer and none can acquire it.
  */
  lemma RetirementIsSafe(before: seq<Event>, after: seq<Event>, t: Tid)
    requires ValidRun(Init, before) && Disciplined(Init, before)
    requires Retired(After(Init, before), t)
    requires ValidRun(After(Init, before), after) && Disciplined(After(Init, before), after)
    ensures Unreachable(After(Init, before), t)
    ensures Unreachable(After(After(Init, before), after), t)
  {
    assert Readers(Init) == {};
    RunKeepsInv(Init, before);
    RunKeepsRetired(After(Init, before), after, t);
  }

  /** No handler ever touches a freed guest thread, on the fast path or through the target. */
  lemma NoTouchAfterFree(es: seq<Event>, f: FrameId)
    requires ValidRun(Init, es) && Disciplined(Init, es)
    requires Enabled(After(Init, es), Touch(f))
    ensures After(Init, es).frames[f].pc.t in After(Init, es).live
  {
    assert Readers(Init) == {};
    RunKeepsInv(Init, es);
  }

  /**
    The waiter never waits for itself: while it polls and readers are counted, one of them is a
    handler on another host thread, which is able to move.
  */
  lemma WaiterWaitsForOthers(es: seq<Event>, h: HostId) returns (f: FrameId, e: Event)
    requires ValidRun(Init, es) && Disciplined(Init, es)
    requires Enabled(After(Init, es), ClearPoll(h)) && After(Init, es).readers != 0
    ensures f in After(Init, es).frames && After(Init, es).frames[f].host != h
    ensures After(Init, es).frames[f].pc.InSection()
    ensures e in {LoadTarget(f), FinishPost(f), UncountReader(f)} && Enabled(After(Init, es), e)
  {
    assert Readers(Init) == {};
    RunKeepsInv(Init, es);
    var s := After(Init, es);
    assert Readers(s) != {};
    f :| f in Readers(s);
    e := match s.frames[f].pc case Counted => LoadTarget(f) case Holds(_) => FinishPost(f) case _ => UncountReader(f);
  }

  /** The situation before a published thread t is overwritten: f holds t, u could be published too. */
  ghost predicate Overwritable(s: State, f: FrameId, t: Tid, u: Tid) {
    && f in s.frames && s.frames[f].pc == Holds(t) && s.target == Some(t) && t != u
    && t in s.owner && u in s.owner && Owns(s, s.owner[t], t) && Owns(s, s.owner[u], u)
    && Quiet(s, s.owner[t]) && Quiet(s, s.owner[u]) && s.frames[f].host in s.hosts
    && s.hosts[s.owner[t]].op.NoOp? && s.hosts[s.owner[u]].op.NoOp?
  }

  /**
    The demand is needed: whenever another thread is published over one a handler holds, clearing the
    old one skips the reader wait, and the handler is left holding a freed thread.
  */
  lemma OverwritingBreaksRetirement(s: State, f: FrameId, t: Tid, u: Tid) returns (es: seq<Event>)
    requires Overwritable(s, f, t, u)
    ensures ValidRun(s, es) && !Disciplined(s, es)
    ensures Enabled(After(s, es), Touch(f)) && After(s, es).frames[f].pc == Holds(t) && t !in After(s, es).live
  {
    var h := s.owner[t];
    var s1 := Next(s, Publish(s.owner[u], u));
    var s2 := Next(s1, ClearExchange(h, t));
    var s3 := Next(s2, SetCurrent(h, None));
    var s4 := Next(s3, Free(h));
    UnfoldRun(s3, Free(h), []);
    UnfoldRun(s2, SetCurrent(h, None), [Free(h)]);
    UnfoldRun(s1, ClearExchange(h, t), [SetCurrent(h, None)] + [Free(h)]);
    es := [Publish(s.owner[u], u)] + ([ClearExchange(h, t)] + ([SetCurrent(h, None)] + [Free(h)]));
    UnfoldRun(s, Publish(s.owner[u], u), [ClearExchange(h, t)] + ([SetCurrent(h, None)] + [Free(h)]));
    assert [Free(h)] + [] == [Free(h)];
    assert After(s, es) == s4;
  }

  lemma UnfoldRun(s: State, e: Event, rest: seq<Event>)
    requires Enabled(s, e)
    ensures ValidRun(s, [e] + rest) <==> ValidRun(Next(s, e), rest)
    ensures ValidRun(Next(s, e), rest) ==> After(s, [e] + rest) == After(Next(s, e), rest)
  {
    assert ([e] + rest)[1..] == rest;
  }

  lemma {:induction false} JoinRuns(s: State, a: seq<Event>, b: seq<Event>)
    requires ValidRun(s, a) && ValidRun(After(s, a), b)
    ensures ValidRun(s, a + b) && After(s, a + b) == After(After(s, a), b)
    decreases |a|
  {
    if a == [] {
      assert a + b == b;
    } else {
      JoinRuns(Next(s, a[0]), a[1..], b);
      assert (a + b)[1..] == a[1..] + b;
    }
  }

  lemma {:induction false} Append(es: seq<Event>, e: Event)
    requires ValidRun(Init, es) && Enabled(After(Init, es), e)
    ensures ValidRun(Init, es + [e]) && After(Init, es + [e]) == Next(After(Init, es), e)
  {
    UnfoldRun(After(Init, es), e, []);
    assert [e] + [] == [e];
    JoinRuns(Init, es, [e]);
  }

  /** Two host threads with a guest thread each, the first of them published. */
  lemma {:induction false} TwoThreads() returns (es: seq<Event>)
    ensures ValidRun(Init, es)
    ensures After(Init, es) == State(Some(0), 0, map[0 := Host(Some(0), NoOp), 1 := Host(Some(1), NoOp)], map[], map[0 := 0, 1 := 1], {0, 1})
  {
    es := [];
    Append(es, Attach(0));
    es := es + [Attach(0)];
    Append(es, Start(0, 0));
    es := es + [Start(0, 0)];
    Append(es, Publish(0, 0));
    es := es + [Publish(0, 0)];
    Append(es, Attach(1));
    es := es + [Attach(1)];
    Append(es, Start(1, 1));
    es := es + [Start(1, 1)];
  }

  /** And a handler on a third host thread that holds the published one. */
  lemma {:induction false} HandlerHolds() returns (es: seq<Event>)
    ensures ValidRun(Init, es) && Overwritable(After(Init, es), 0, 0, 1)
  {
    es := TwoThreads();
    Append(es, Attach(2));
    es := es + [Attach(2)];
    Append(es, Enter(0, 2));
    es := es + [Enter(0, 2)];
    Append(es, ReadCurrent(0));
    es := es + [ReadCurrent(0)];
    Append(es, CountReader(0));
    es := es + [CountReader(0)];
    Append(es, LoadTarget(0));
    es := es + [LoadTarget(0)];
  }

  /** A run from the start on which overwriting leaves a handler about to touch a freed thread. */
  lemma {:induction false} FreedThreadTouched() returns (es: seq<Event>)
    ensures ValidRun(Init, es) && Enabled(After(Init, es), Touch(0))
    ensures After(Init, es).frames[0].pc == Holds(0) && 0 !in After(Init, es).live
  {
    var first := HandlerHolds();
    var rest := OverwritingBreaksRetirement(After(Init, first), 0, 0, 1);
    JoinRuns(Init, first, rest);
    es := first + rest;
  }
}
