/**
  Processor ids of guest threads and borrowers (core/src/process.cpp).

  The bit set is a class with the source's allocation loop; the interleaving of clone, borrow, finish
  and release is a state machine whose steps are the critical sections of threads_mutex_ and the
  points where a JIT is created and freed.
*/
module ProcessorIds {
  const MAX_THREADS := 256

  /** The lowest id below MAX_THREADS that is not in use. */
  ghost predicate IsLowestFree(used: set<nat>, id: int) {
    0 <= id < MAX_THREADS && id !in used && forall i :: 0 <= i < id ==> i in used
  }

  class IdSet {
    const bits: array<bool>

    ghost predicate Valid() { bits.Length == MAX_THREADS }

    ghost function Used(): set<nat>
      requires Valid()
      reads bits
    {
      set i | 0 <= i < bits.Length && bits[i]
    }

    constructor ()
      ensures Valid() && fresh(bits) && Used() == {}
    {
      bits := new bool[MAX_THREADS](_ => false);
    }

    /** allocate_processor_id: reserves the lowest free id, or returns -1 when all are in use. */
    method Allocate() returns (id: int)
      requires Valid()
      modifies bits
      ensures id == -1 ==> forall i :: 0 <= i < MAX_THREADS ==> i in old(Used())
      ensures id != -1 ==> IsLowestFree(old(Used()), id)
      ensures Used() == if id == -1 then old(Used()) else old(Used()) + {id}
    {
      for i := 0 to bits.Length
        invariant bits[..] == old(bits[..])
        invariant forall j :: 0 <= j < i ==> bits[j]
      {
        if !bits[i] {
          bits[i] := true;
          return i;
        }
      }
      return -1;
    }

    method Reset(id: nat)
      requires Valid() && id < MAX_THREADS
      modifies bits
      ensures Used() == old(Used()) - {id}
    {
      bits[id] := false;
    }
  }

  type ThreadId = nat

  /** A GuestThread on its way from allocation to release. */
  datatype Phase =
    | Allocated           // id reserved, JIT not built yet
    | Built               // JIT built, in neither list
    | Registered          // in threads_
    | Unregistered        // left threads_ and its id was reset; the JIT still exists
    | Listed              // in borrowers_
    | Unlisted            // left borrowers_; JIT exists
    | JitFreed            // borrower's JIT freed, id not yet reset
    | Gone
  {
    /** The id is this thread's to use. */
    predicate Reserves() { Allocated? || Built? || Registered? || Listed? || Unlisted? || JitFreed? }
    predicate HasJit() { Built? || Registered? || Unregistered? || Listed? || Unlisted? }
  }

  datatype Guest = Guest(id: nat, borrower: bool, phase: Phase)

  datatype State = State(used: set<nat>, guests: map<ThreadId, Guest>)

  datatype Event =
    | Allocate(t: ThreadId, borrower: bool, id: nat)
    | Build(t: ThreadId)
    | Enlist(t: ThreadId)      // register_thread, or the end of create_borrower
    | Unregister(t: ThreadId)  // unregister_thread: list entry and id in one section
    | Unlist(t: ThreadId)      // destroy_borrower, first section
    | FreeJit(t: ThreadId)
    | ReleaseId(t: ThreadId)   // destroy_borrower, last section

  const Init := State({}, map[])

  ghost predicate In(s: State, t: ThreadId, phase: Phase, borrower: bool) {
    t in s.guests && s.guests[t].phase == phase && s.guests[t].borrower == borrower
  }

  ghost predicate Enabled(s: State, e: Event) {
    match e
    case Allocate(t, _, id) => t !in s.guests && IsLowestFree(s.used, id)
    case Build(t) => t in s.guests && s.guests[t].phase.Allocated?
    case Enlist(t) => t in s.guests && s.guests[t].phase.Built?
    case Unregister(t) => In(s, t, Registered, false)
    case Unlist(t) => In(s, t, Listed, true)
    case FreeJit(t) => In(s, t, Unlisted, true) || In(s, t, Unregistered, false)
    case ReleaseId(t) => In(s, t, JitFreed, true)
  }

  ghost function SetPhase(s: State, t: ThreadId, phase: Phase): State
    requires t in s.guests
  {
    s.(guests := s.guests[t := s.guests[t].(phase := phase)])
  }

  ghost function Next(s: State, e: Event): State
    requires Enabled(s, e)
  {
    match e
    case Allocate(t, borrower, id) => State(s.used + {id}, s.guests[t := Guest(id, borrower, Allocated)])
    case Build(t) => SetPhase(s, t, Built)
    case Enlist(t) => SetPhase(s, t, if s.guests[t].borrower then Listed else Registered)
    case Unregister(t) => SetPhase(s.(used := s.used - {s.guests[t].id}), t, Unregistered)
    case Unlist(t) => SetPhase(s, t, Unlisted)
    case FreeJit(t) => SetPhase(s, t, if s.guests[t].borrower then JitFreed else Gone)
    case ReleaseId(t) => SetPhase(s.(used := s.used - {s.guests[t].id}), t, Gone)
  }

  ghost predicate ValidRun(s: State, es: seq<Event>)
    decreases es
  {
    es == [] || (Enabled(s, es[0]) && ValidRun(Next(s, es[0]), es[1..]))
  }

  ghost function After(s: State, es: seq<Event>): State
    requires ValidRun(s, es)
    decreases es
  {
    if es == [] then s else After(Next(s, es[0]), es[1..])
  }

  ghost predicate Reserving(s: State, t: ThreadId, id: nat) {
    t in s.guests && s.guests[t].phase.Reserves() && s.guests[t].id == id
  }

  /** The bits are exactly the ids of the reserving threads, no two of which share one. */
  ghost predicate Inv(s: State) {
    && (forall t, i :: Reserving(s, t, i) ==> i in s.used)
    && (forall t, u, i :: Reserving(s, t, i) && Reserving(s, u, i) ==> t == u)
    && (forall t :: t in s.guests && s.guests[t].phase.Unregistered? ==> !s.guests[t].borrower)
    && Backed(s)
  }

  ghost predicate Backed(s: State) {
    forall i :: i in s.used ==> i < MAX_THREADS && exists t :: Reserving(s, t, i)
  }

  /** The reservations an event adds and removes. */
  lemma StepReserves(s: State, e: Event, t: ThreadId, i: nat)
    requires Enabled(s, e)
    ensures Reserving(Next(s, e), t, i) <==>
            (e.Allocate? && t == e.t && i == e.id) ||
            (Reserving(s, t, i) && !(e.Unregister? && t == e.t) && !(e.ReleaseId? && t == e.t))
  {
  }

  lemma StepKeepsBacked(s: State, e: Event)
    requires Inv(s) && Enabled(s, e)
    ensures Backed(Next(s, e))
  {
    var s' := Next(s, e);
    forall i | i in s'.used ensures i < MAX_THREADS && exists t :: Reserving(s', t, i) {
      if e.Allocate? && i == e.id {
        StepReserves(s, e, e.t, i);
      } else {
        var t :| Reserving(s, t, i);
        StepReserves(s, e, t, i);
      }
    }
  }

  lemma StepKeepsInv(s: State, e: Event)
    requires Inv(s) && Enabled(s, e)
    ensures Inv(Next(s, e))
  {
    StepKeepsBacked(s, e);
    var s' := Next(s, e);
    forall t, i | Reserving(s', t, i) ensures i in s'.used {
      StepReserves(s, e, t, i);
      if !e.Allocate? && e.t in s.guests && e.t != t && i == s.guests[e.t].id { assert !Reserving(s, e.t, i); }
    }
    forall t, u, i | Reserving(s', t, i) && Reserving(s', u, i) ensures t == u {
      StepReserves(s, e, t, i);
      StepReserves(s, e, u, i);
    }
  }

  lemma {:induction false} RunKeepsInv(s: State, es: seq<Event>)
    requires Inv(s) && ValidRun(s, es)
    ensures Inv(After(s, es))
    decreases es
  {
    if es != [] {
      StepKeepsInv(s, es[0]);
      RunKeepsInv(Next(s, es[0]), es[1..]);
    }
  }

  /**
    Ids never clash: in every interleaving, threads and borrowers from allocation until their id is
    reset hold pairwise distinct ids whose bits are set, and no other bit is set.
  */
  lemma IdsNeverClash(es: seq<Event>)
    requires ValidRun(Init, es)
    ensures var s := After(Init, es);
            && (forall t, u, i :: t != u && Reserving(s, t, i) ==> !Reserving(s, u, i))
            && s.used == set t | t in s.guests && s.guests[t].phase.Reserves() :: s.guests[t].id
  {
    RunKeepsInv(Init, es);
    var s := After(Init, es);
    forall i | i in s.used ensures i in set t | t in s.guests && s.guests[t].phase.Reserves() :: s.guests[t].id {
      var t :| Reserving(s, t, i);
    }
    forall t | t in s.guests && s.guests[t].phase.Reserves() ensures s.guests[t].id in s.used {
      assert Reserving(s, t, s.guests[t].id);
    }
  }

  /** A borrower's id is its own as long as its JIT exists. */
  lemma BorrowerKeepsIdWhileJitLives(es: seq<Event>, t: ThreadId, e: Event)
    requires ValidRun(Init, es)
    requires t in After(Init, es).guests && After(Init, es).guests[t].borrower
    requires After(Init, es).guests[t].phase.HasJit()
    requires Enabled(After(Init, es), e)
    ensures After(Init, es).guests[t].id in After(Init, es).used
    ensures After(Init, es).guests[t].id in Next(After(Init, es), e).used
  {
    RunKeepsInv(Init, es);
    var s := After(Init, es);
    StepKeepsInv(s, e);
    assert Reserving(s, t, s.guests[t].id);
    StepReserves(s, e, t, s.guests[t].id);
  }

  /**
    Two JITs share an id only if one of them belongs to a finished guest thread: unregister_thread
    resets the id before the caller frees the thread.
  */
  lemma SharedIdMeansFinished(es: seq<Event>, t: ThreadId, u: ThreadId)
    requires ValidRun(Init, es) && t != u
    requires t in After(Init, es).guests && u in After(Init, es).guests
    requires After(Init, es).guests[t].phase.HasJit() && After(Init, es).guests[u].phase.HasJit()
    requires After(Init, es).guests[t].id == After(Init, es).guests[u].id
    ensures After(Init, es).guests[t].phase.Unregistered? || After(Init, es).guests[u].phase.Unregistered?
  {
    RunKeepsInv(Init, es);
    var s := After(Init, es);
    assert Reserving(s, t, s.guests[t].id) ==> !Reserving(s, u, s.guests[t].id);
  }

  /** And that does happen, whenever a thread with no free id below its own finishes. */
  lemma FinishedThreadSharesId(s: State, t: ThreadId, u: ThreadId, borrower: bool) returns (es: seq<Event>)
    requires In(s, t, Registered, false) && u !in s.guests && s.guests[t].id < MAX_THREADS
    requires forall i :: 0 <= i < s.guests[t].id ==> i in s.used
    ensures ValidRun(s, es)
    ensures var s' := After(s, es);
            t in s'.guests && u in s'.guests && s'.guests[t].phase.HasJit() && s'.guests[u].phase.HasJit() &&
            s'.guests[t].id == s'.guests[u].id
    ensures s.guests[t].id in s.used ==>
              After(s, es) == State(s.used, s.guests[t := s.guests[t].(phase := Unregistered)][u := Guest(s.guests[t].id, borrower, Built)])
  {
    var e := Allocate(u, borrower, s.guests[t].id);
    var s1 := Next(s, Unregister(t));
    var s2 := Next(s1, e);
    var s3 := Next(s2, Build(u));
    UnfoldRun(s2, Build(u), []);
    UnfoldRun(s1, e, [Build(u)]);
    es := [Unregister(t)] + ([e] + [Build(u)]);
    UnfoldRun(s, Unregister(t), [e] + [Build(u)]);
    assert [Build(u)] + [] == [Build(u)];
  }

  lemma UnfoldRun(s: State, e: Event, rest: seq<Event>)
    requires Enabled(s, e)
    ensures ValidRun(s, [e] + rest) <==> ValidRun(Next(s, e), rest)
    ensures ValidRun(Next(s, e), rest) ==> After(s, [e] + rest) == After(Next(s, e), rest)
  {
    assert ([e] + rest)[1..] == rest;
  }

  lemma {:induction false} JoinRuns(s: State, a: seq<Event>, b: seq<Event>)
    requires ValidRun(s, a) && ValidRun(After(s, a), b)
    ensures ValidRun(s, a + b) && After(s, a + b) == After(After(s, a), b)
    decreases |a|
  {
    if a == [] {
      assert a + b == b;
    } else {
      JoinRuns(Next(s, a[0]), a[1..], b);
      assert (a + b)[1..] == a[1..] + b;
    }
  }

  /** A run from the start after which the finished thread 0 and the new thread 1 have one id and a JIT each. */
  lemma {:induction false} SharedIdRun(borrower: bool) returns (es: seq<Event>)
    ensures ValidRun(Init, es)
    ensures After(Init, es) == State({0}, map[0 := Guest(0, false, Unregistered), 1 := Guest(0, borrower, Built)])
  {
    var first := [Allocate(0, false, 0)] + ([Build(0)] + [Enlist(0)]);
    var s1 := Next(Init, Allocate(0, false, 0));
    var s2 := Next(s1, Build(0));
    UnfoldRun(s2, Enlist(0), []);
    UnfoldRun(s1, Build(0), [Enlist(0)]);
    UnfoldRun(Init, Allocate(0, false, 0), [Build(0)] + [Enlist(0)]);
    assert [Enlist(0)] + [] == [Enlist(0)];
    var rest := FinishedThreadSharesId(After(Init, first), 0, 1, borrower);
    JoinRuns(Init, first, rest);
    es := first + rest;
  }
}
