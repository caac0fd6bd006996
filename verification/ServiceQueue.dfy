/**
  The service thread of the library runtime: submit, serve, the park token and the shutdown drain
  (core/src/library_runtime.cpp, core/src/guest_thread.cpp).

  Each mutex section and each atomic operation is one event. A futex wait is an atomic
  compare-and-sleep; wake() is two events, the increment of the park word and the futex wake.
*/
module ServiceQueue {
  type Cmd = nat
  type Signal = nat
  type WakerId = nat
  type Answer = int

  /** What a waker published before calling wake(). */
  datatype Reason = Command(c: Cmd) | Posted(sig: Signal)

  datatype Stage =
    | Published  // pushed or posted, park word not incremented yet
    | Bumped     // park word incremented, futex wake still to come
    | Woken      // wake() has returned

  datatype Waker = Waker(reason: Reason, stage: Stage)

  /** Program point of the service thread, which is also the runner thread of the guest process. */
  datatype Pc =
    | Guest                   // running guest code outside serve()
    | Top                     // at the head of the serve() loop
    | Token(token: nat)       // has read the park token
    | NoSignal(token: nat)    // has seen no deliverable signal
    | Executing(c: Cmd)       // popped a command, not yet answered
    | SawEmpty(token: nat)    // has seen an empty queue
    | Asleep(token: nat)      // inside the futex wait
    | Exited                  // Process::run has returned
    | Draining(rest: seq<Cmd>)
    | Done

  datatype State = State(
    ready: bool,                   // the guest has reported READY
    finished: bool,
    queue: seq<Cmd>,               // commands
    word: nat,                     // park_word_
    pending: set<Signal>,          // pending_signals_ of the service thread
    blocked: set<Signal>,          // its sigmask
    pc: Pc,
    wakers: map<WakerId, Waker>,
    accepted: seq<Cmd>,            // history: commands submit() accepted, in order
    answers: seq<(Cmd, Answer)>    // history: fulfilled promises, in order
  )

  datatype Event =
    | Submit(w: WakerId, c: Cmd)
    | Post(w: WakerId, sig: Signal)
    | Bump(w: WakerId)
    | FutexWake(w: WakerId)
    | EnterServe
    | ReadToken
    | CheckSignals
    | PopFront
    | Execute(a: Answer, exiting: bool)
    | FutexWait
    | SpuriousReturn
    | Deliver(taken: Signal)
    | SetMask(mask: set<Signal>)
    | GuestExit
    | BeginDrain
    | DrainOne(status: Answer)
    | EndDrain

  const Init := State(false, false, [], 0, {}, {}, Guest, map[], [], [])

  predicate Enabled(s: State, e: Event) {
    match e
    case Submit(w, c) => w !in s.wakers && s.ready && !s.finished && c !in s.accepted
    case Post(w, sig) => w !in s.wakers
    case Bump(w) => w in s.wakers && s.wakers[w].stage.Published?
    case FutexWake(w) => w in s.wakers && s.wakers[w].stage.Bumped?
    case EnterServe => s.pc.Guest?
    case ReadToken => s.pc.Top?
    case CheckSignals => s.pc.Token?
    case PopFront => s.pc.NoSignal?
    case Execute(_, _) => s.pc.Executing?
    case FutexWait => s.pc.SawEmpty?
    case SpuriousReturn => s.pc.Asleep?
    case Deliver(taken) => (s.pc.Guest? || s.pc.Executing?) && taken in s.pending - s.blocked
    case SetMask(_) => s.pc.Guest? || s.pc.Executing?
    case GuestExit => s.pc.Guest?
    case BeginDrain => s.pc.Exited?
    case DrainOne(_) => s.pc.Draining? && s.pc.rest != []
    case EndDrain => s.pc == Draining([])
  }

  function Next(s: State, e: Event): State
    requires Enabled(s, e)
  {
    match e
    case Submit(w, c) => s.(queue := s.queue + [c], accepted := s.accepted + [c],
                            wakers := s.wakers[w := Waker(Command(c), Published)])
    case Post(w, sig) => s.(pending := s.pending + {sig}, wakers := s.wakers[w := Waker(Posted(sig), Published)])
    case Bump(w) => s.(word := s.word + 1, wakers := s.wakers[w := s.wakers[w].(stage := Bumped)])
    case FutexWake(w) => s.(pc := if s.pc.Asleep? then Top else s.pc,
                            wakers := s.wakers[w := s.wakers[w].(stage := Woken)])
    case EnterServe => s.(pc := Top, ready := true)
    case ReadToken => s.(pc := Token(s.word))
    case CheckSignals => s.(pc := if s.pending - s.blocked != {} then Guest else NoSignal(s.pc.token))
    case PopFront => if s.queue == [] then s.(pc := SawEmpty(s.pc.token))
                     else s.(pc := Executing(s.queue[0]), queue := s.queue[1..])
    case Execute(a, exiting) => s.(answers := s.answers + [(s.pc.c, a)], pc := if exiting then Guest else Top)
    case FutexWait => s.(pc := if s.word == s.pc.token then Asleep(s.pc.token) else Top)
    case SpuriousReturn => s.(pc := Top)
    case Deliver(taken) => s.(pending := s.pending - {taken})
    case SetMask(mask) => s.(blocked := mask)
    case GuestExit => s.(pc := Exited)
    case BeginDrain => s.(pc := Draining(s.queue), queue := [], finished := true)
    case DrainOne(status) => s.(answers := s.answers + [(s.pc.rest[0], status)], pc := Draining(s.pc.rest[1..]))
    case EndDrain => s.(pc := Done)
  }

  ghost predicate ValidRun(s: State, es: seq<Event>)
    decreases es
  {
    es == [] || (Enabled(s, es[0]) && ValidRun(Next(s, es[0]), es[1..]))
  }

  ghost function After(s: State, es: seq<Event>): State
    requires ValidRun(s, es)
    decreases es
  {
    if es == [] then s else After(Next(s, es[0]), es[1..])
  }

  // ---- Every accepted command has exactly one place ----

  function Commands(answers: seq<(Cmd, Answer)>): seq<Cmd> {
    seq(|answers|, i requires 0 <= i < |answers| => answers[i].0)
  }

  /** Commands the runner holds outside the queue. */
  function Held(pc: Pc): seq<Cmd> {
    match pc
    case Executing(c) => [c]
    case Draining(rest) => rest
    case _ => []
  }

  ghost predicate Distinct(cs: seq<Cmd>) {
    forall i, j :: 0 <= i < j < |cs| ==> cs[i] != cs[j]
  }

  /** Answered, then held, then queued: together the accepted commands, in order, each once. */
  ghost predicate Conserved(s: State) {
    && s.accepted == Commands(s.answers) + Held(s.pc) + s.queue
    && Distinct(s.accepted)
    && (s.finished <==> s.pc.Draining? || s.pc.Done?)
    && (s.finished ==> s.queue == [])
  }

  lemma StepConserves(s: State, e: Event)
    requires Conserved(s) && Enabled(s, e)
    ensures Conserved(Next(s, e))
  {
    var s' := Next(s, e);
    match e {
      case PopFront =>
        if s.queue != [] { assert s.queue == [s.queue[0]] + s'.queue; }
      case Execute(a, _) => assert Commands(s'.answers) == Commands(s.answers) + [s.pc.c];
      case DrainOne(status) =>
        assert Commands(s'.answers) == Commands(s.answers) + [s.pc.rest[0]];
        assert s.pc.rest == [s.pc.rest[0]] + s.pc.rest[1..];
      case _ =>
    }
  }

  // ---- Wakeups ----

  ghost predicate HasWork(s: State) { s.queue != [] || s.pending - s.blocked != {} }

  ghost predicate At(s: State, w: WakerId, stage: Stage) { w in s.wakers && s.wakers[w].stage == stage }

  /** Some waker has published its reason and has not incremented the park word yet. */
  ghost predicate OwesBump(s: State) { exists w :: At(s, w, Published) }

  ghost predicate OwesWake(s: State) { exists w :: At(s, w, Bumped) }

  /**
    A token read before the checks is out of date, or whatever arrived since belongs to a waker that
    has not incremented the park word; and a sleeper with an old token is owed a futex wake.
  */
  ghost predicate Alert(s: State) {
    && ((s.pc.Token? || s.pc.NoSignal? || s.pc.SawEmpty? || s.pc.Asleep?) ==> s.pc.token <= s.word)
    && ((s.pc.NoSignal? || s.pc.SawEmpty? || s.pc.Asleep?) && s.pending - s.blocked != {} ==>
          s.pc.token < s.word || OwesBump(s))
    && ((s.pc.SawEmpty? || s.pc.Asleep?) && s.queue != [] ==> s.pc.token < s.word || OwesBump(s))
    && (s.pc.Asleep? && s.pc.token < s.word ==> OwesWake(s))
  }

  predicate ByWaker(e: Event) { e.Submit? || e.Post? || e.Bump? || e.FutexWake? }

  lemma WakerStepAlerts(s: State, e: Event)
    requires Alert(s) && Enabled(s, e) && ByWaker(e)
    ensures Alert(Next(s, e))
  {
    var s' := Next(s, e);
    assert forall v, g :: v != e.w && At(s, v, g) ==> At(s', v, g);
    match e {
      case Submit(w, _) => assert At(s', w, Published);
      case Post(w, _) => assert At(s', w, Published);
      case Bump(w) => assert At(s', w, Bumped);
      case FutexWake(w) => assert At(s, w, Bumped);
    }
  }

  lemma ServiceStepAlerts(s: State, e: Event)
    requires Alert(s) && Enabled(s, e) && !ByWaker(e)
    ensures Alert(Next(s, e))
  {
    assert forall v, g :: At(s, v, g) ==> At(Next(s, e), v, g);
  }

  lemma {:induction false} RunKeepsInv(s: State, es: seq<Event>)
    requires Conserved(s) && Alert(s) && ValidRun(s, es)
    ensures Conserved(After(s, es)) && Alert(After(s, es))
    decreases es
  {
    if es != [] {
      StepConserves(s, es[0]);
      if ByWaker(es[0]) { WakerStepAlerts(s, es[0]); } else { ServiceStepAlerts(s, es[0]); }
      RunKeepsInv(Next(s, es[0]), es[1..]);
    }
  }

  /** The rest of the wake() call waker w is in. */
  function RestOfWake(s: State, w: WakerId): seq<Event>
    requires w in s.wakers
  {
    match s.wakers[w].stage
    case Published => [Bump(w)] + [FutexWake(w)]
    case Bumped => [FutexWake(w)]
    case Woken => []
  }

  lemma FinishWake(s: State, w: WakerId)
    requires w in s.wakers && !s.wakers[w].stage.Woken?
    ensures ValidRun(s, RestOfWake(s, w)) && !After(s, RestOfWake(s, w)).pc.Asleep?
    decreases s.wakers[w].stage.Published?
  {
    if s.wakers[w].stage.Published? {
      var s1 := Next(s, Bump(w));
      var es := [Bump(w)] + [FutexWake(w)];
      assert es[1..] == [FutexWake(w)];
      FinishWake(s1, w);
    } else {
      var es := [FutexWake(w)];
      assert es[1..] == [];
    }
  }

  /**
    No lost wakeup: whenever the service thread sleeps although a command is queued or a signal can
    be delivered, some submitter or poster still owes its wake, and finishing that wake() ends the
    sleep.
  */
  lemma NoLostWakeup(es: seq<Event>) returns (w: WakerId)
    requires ValidRun(Init, es)
    requires After(Init, es).pc.Asleep? && HasWork(After(Init, es))
    ensures w in After(Init, es).wakers && !After(Init, es).wakers[w].stage.Woken?
    ensures var s := After(Init, es);
            ValidRun(s, RestOfWake(s, w)) && !After(s, RestOfWake(s, w)).pc.Asleep?
  {
    RunKeepsInv(Init, es);
    var s := After(Init, es);
    if s.pc.token < s.word { w :| At(s, w, Bumped); } else { w :| At(s, w, Published); }
    FinishWake(s, w);
  }

  /**
    A command is never answered twice; answers come in the order of acceptance; and one is missing
    only while the command is queued or held by the runner.
  */
  lemma AtMostOneAnswer(es: seq<Event>)
    requires ValidRun(Init, es)
    ensures var s := After(Init, es);
            && Commands(s.answers) <= s.accepted
            && Distinct(Commands(s.answers))
            && forall c :: c in s.accepted ==> c in Commands(s.answers) || c in Held(s.pc) || c in s.queue
  {
    RunKeepsInv(Init, es);
    var s := After(Init, es);
    assert Commands(s.answers) == s.accepted[..|s.answers|];
  }

  /**
    Exactly one answer: when the runner is done, or the service sleeps with no wake outstanding, the
    answered commands are the accepted ones.
  */
  lemma EveryCommandAnswered(es: seq<Event>)
    requires ValidRun(Init, es)
    requires var s := After(Init, es);
             s.pc.Done? || (s.pc.Asleep? && forall w :: w in s.wakers ==> s.wakers[w].stage.Woken?)
    ensures Commands(After(Init, es).answers) == After(Init, es).accepted
    ensures Distinct(After(Init, es).accepted)
  {
    RunKeepsInv(Init, es);
    var s := After(Init, es);
    if s.pc.Asleep? && s.queue != [] { var w := NoLostWakeup(es); }
    assert s.accepted == Commands(s.answers);
  }
}
