/**
  Carrier leases of the library runtime: park_carrier, borrow and the Carrier destructor
  (core/src/library_runtime.cpp).

  Each mutex section is one event, except the release section, which is two events under an explicit
  lock because the carrier may free its GuestThread as soon as it can see Released. Thread ids stand
  for GuestThread addresses: an address may be used again after its thread is freed.
*/
module CarrierLease {
  type Tid = nat
  type RecordId = nat
  type BorrowerId = nat

  import opened Wrappers

  datatype LeaseState = Available | Leased | Released {
    function Rank(): nat { if Available? then 0 else if Leased? then 1 else 2 }
  }

  /** ParkedCarrier. */
  datatype Record = Record(thread: Tid, state: LeaseState, listed: bool)

  /** A carrier guest thread: outside PARK, or at one of the points of the park_carrier loop. */
  datatype Pc =
    | Guest
    | Top(r: RecordId)                // has its record; about to read the park token
    | Token(r: RecordId, token: nat)  // about to enter the mutex section
    | Checked(r: RecordId, token: nat)  // past the mutex section, about to park
    | Asleep(r: RecordId, token: nat)
    | Leaving(r: RecordId)            // saw Released; about to return 0 from PARK
  {
    /** Inside PARK, with the record still to be examined before PARK can return. */
    predicate Parked(rec: RecordId) { (Top? || Token? || Checked? || Asleep?) && r == rec }
  }

  datatype Carrier = Carrier(pc: Pc, word: nat)

  /** A host thread inside borrow(), holding a lease, or inside the Carrier destructor. */
  datatype Lessee =
    | Taken(r: RecordId)      // leased; create_borrower is reading the carrier
    | Holding(r: RecordId)    // has a borrower thread
    | Returning(r: RecordId)  // in destroy_borrower, or after create_borrower failed
    | Signing(r: RecordId)    // holds the mutex, state already Released, wake() to come
    | Ended

  datatype State = State(
    records: map<RecordId, Record>,
    slots: map<Tid, RecordId>,          // carriers
    available: seq<RecordId>,
    threads: map<Tid, Carrier>,         // carrier threads that are not freed
    lessees: map<BorrowerId, Lessee>,
    lock: Option<BorrowerId>            // holder of the mutex inside the release section
  )

  datatype Event =
    | Spawn(t: Tid)
    | ThreadExit(t: Tid)
    | EnterPark(t: Tid, id: RecordId)
    | ReadToken(t: Tid)
    | Examine(t: Tid, signal: bool)
    | FutexWait(t: Tid)
    | ReturnFromWait(t: Tid)
    | ReturnZero(t: Tid)
    | PostSignal(t: Tid)
    | Lease(b: BorrowerId)
    | CreateBorrower(b: BorrowerId, ok: bool)
    | StartRelease(b: BorrowerId)
    | MarkReleased(b: BorrowerId)
    | WakeAndUnlock(b: BorrowerId)

  const Init := State(map[], map[], [], map[], map[], None)

  predicate Enabled(s: State, e: Event) {
    match e
    case Spawn(t) => t !in s.threads
    case ThreadExit(t) => t in s.threads && s.threads[t].pc.Guest?
    case EnterPark(t, id) => t in s.threads && s.threads[t].pc.Guest? && s.lock.None? && id !in s.records
    case ReadToken(t) => t in s.threads && s.threads[t].pc.Top?
    case Examine(t, _) => t in s.threads && s.threads[t].pc.Token? && s.lock.None? && s.threads[t].pc.r in s.records
    case FutexWait(t) => t in s.threads && s.threads[t].pc.Checked?
    case ReturnFromWait(t) => t in s.threads && s.threads[t].pc.Asleep?
    case ReturnZero(t) => t in s.threads && s.threads[t].pc.Leaving?
    case PostSignal(t) => t in s.threads
    case Lease(b) => b !in s.lessees && s.lock.None? && s.available != [] && s.available[0] in s.records
    case CreateBorrower(b, _) => b in s.lessees && s.lessees[b].Taken?
    case StartRelease(b) => b in s.lessees && s.lessees[b].Holding?
    case MarkReleased(b) => b in s.lessees && s.lessees[b].Returning? && s.lock.None? && s.lessees[b].r in s.records
    case WakeAndUnlock(b) => b in s.lessees && s.lessees[b].Signing? && s.lock == Some(b)
                             && s.lessees[b].r in s.records
  }

  function SetPc(s: State, t: Tid, pc: Pc): State
    requires t in s.threads
  {
    s.(threads := s.threads[t := s.threads[t].(pc := pc)])
  }

  /** GuestThread::wake: changes the token and ends a sleep. A freed thread has no token to change. */
  function Wake(s: State, t: Tid): State {
    if t !in s.threads then s else
      var c := s.threads[t];
      s.(threads := s.threads[t := Carrier(if c.pc.Asleep? then Top(c.pc.r) else c.pc, c.word + 1)])
  }

  function Without(a: seq<RecordId>, r: RecordId): seq<RecordId> {
    if a == [] then [] else (if a[0] == r then [] else [a[0]]) + Without(a[1..], r)
  }

  /** The mutex section of the park_carrier loop. */
  function Examined(s: State, t: Tid, signal: bool): State
    requires Enabled(s, Examine(t, signal))
  {
    var pc := s.threads[t].pc;
    var rec := s.records[pc.r];
    match rec.state
    case Released => SetPc(s.(slots := s.slots - {t}), t, Leaving(pc.r))
    case Leased => SetPc(s, t, Checked(pc.r, pc.token))
    case Available =>
      if signal then
        SetPc(if rec.listed
              then s.(available := Without(s.available, pc.r), records := s.records[pc.r := rec.(listed := false)])
              else s, t, Guest)
      else
        SetPc(if rec.listed then s
              else s.(available := s.available + [pc.r], records := s.records[pc.r := rec.(listed := true)]),
              t, Checked(pc.r, pc.token))
  }

  function Next(s: State, e: Event): State
    requires Enabled(s, e)
  {
    match e
    case Spawn(t) => s.(threads := s.threads[t := Carrier(Guest, 0)])
    case ThreadExit(t) => s.(threads := s.threads - {t})
    case EnterPark(t, id) =>
      if t in s.slots then SetPc(s, t, Top(s.slots[t]))
      else SetPc(s.(slots := s.slots[t := id], records := s.records[id := Record(t, Available, false)]),
                 t, Top(id))
    case ReadToken(t) => SetPc(s, t, Token(s.threads[t].pc.r, s.threads[t].word))
    case Examine(t, signal) => Examined(s, t, signal)
    case FutexWait(t) =>
      var pc := s.threads[t].pc;
      SetPc(s, t, if s.threads[t].word == pc.token then Asleep(pc.r, pc.token) else Top(pc.r))
    case ReturnFromWait(t) => SetPc(s, t, Top(s.threads[t].pc.r))
    case ReturnZero(t) => SetPc(s, t, Guest)
    case PostSignal(t) => Wake(s, t)
    case Lease(b) =>
      var r := s.available[0];
      Wake(s.(available := s.available[1..], lessees := s.lessees[b := Taken(r)],
              records := s.records[r := s.records[r].(listed := false, state := Leased)]), s.records[r].thread)
    case CreateBorrower(b, ok) =>
      var r := s.lessees[b].r;
      s.(lessees := s.lessees[b := if ok then Holding(r) else Returning(r)])
    case StartRelease(b) => s.(lessees := s.lessees[b := Returning(s.lessees[b].r)])
    case MarkReleased(b) =>
      var r := s.lessees[b].r;
      s.(lessees := s.lessees[b := Signing(r)], lock := Some(b),
         records := s.records[r := s.records[r].(state := Released)])
    case WakeAndUnlock(b) =>
      Wake(s.(lessees := s.lessees[b := Ended], lock := None), s.records[s.lessees[b].r].thread)
  }

  ghost predicate ValidRun(s: State, es: seq<Event>)
    decreases es
  {
    es == [] || (Enabled(s, es[0]) && ValidRun(Next(s, es[0]), es[1..]))
  }

  ghost function After(s: State, es: seq<Event>): State
    requires ValidRun(s, es)
    decreases es
  {
    if es == [] then s else After(Next(s, es[0]), es[1..])
  }

  // ---- The invariant ----

  ghost predicate Distinct(a: seq<RecordId>) {
    forall i, j :: 0 <= i < j < |a| ==> a[i] != a[j]
  }

  /** The carrier of record r is inside PARK and cannot leave before it examines the record again. */
  ghost predicate InPark(s: State, r: RecordId) {
    r in s.records && s.records[r].thread in s.threads && s.threads[s.records[r].thread].pc.Parked(r)
  }

  /** b is the lessee of r: from the lease until its wake() under the lock has returned. */
  ghost predicate Leases(s: State, b: BorrowerId, r: RecordId) {
    b in s.lessees && !s.lessees[b].Ended? && s.lessees[b].r == r
  }

  ghost predicate ListInv(s: State) {
    && Distinct(s.available)
    && (forall r :: r in s.available <==> r in s.records && s.records[r].listed)
    && (forall r :: r in s.records && s.records[r].listed ==> s.records[r].state.Available? && InPark(s, r))
  }

  /** The slot of an address holds that address's record, which only a parked carrier may have leased. */
  ghost predicate SlotOk(s: State, t: Tid) {
    && (t in s.slots ==>
          s.slots[t] in s.records && s.records[s.slots[t]].thread == t &&
          (s.records[s.slots[t]].state.Available? || (t in s.threads && s.threads[t].pc.Parked(s.slots[t]))))
    && (t in s.threads && !s.threads[t].pc.Guest? ==>
          s.threads[t].pc.r in s.records && s.records[s.threads[t].pc.r].thread == t &&
          (s.threads[t].pc.Leaving? || (t in s.slots && s.slots[t] == s.threads[t].pc.r)))
  }

  ghost predicate SlotInv(s: State) { forall t :: SlotOk(s, t) }

  ghost predicate LeaseInv(s: State) {
    && (forall b :: b in s.lessees && !s.lessees[b].Ended? ==> LesseeOk(s, b))
    && (forall b, c | b in s.lessees && c in s.lessees && !s.lessees[b].Ended? && !s.lessees[c].Ended? ::
          s.lessees[b].r == s.lessees[c].r ==> b == c)
    && (forall b :: b in s.lessees ==> (s.lessees[b].Signing? <==> s.lock == Some(b)))
    && (s.lock.Some? ==> s.lock.value in s.lessees)
  }

  ghost predicate Covered(s: State) {
    forall r :: r in s.records && s.records[r].state.Leased? ==> exists b :: Leases(s, b, r)
  }

  ghost predicate LesseeOk(s: State, b: BorrowerId)
    requires b in s.lessees && !s.lessees[b].Ended?
  {
    var r := s.lessees[b].r;
    InPark(s, r) && !s.records[r].listed &&
    s.records[r].state == if s.lessees[b].Signing? then Released else Leased
  }

  /** A carrier that has not yet noticed its release is awake, or its releaser is about to wake it. */
  ghost predicate WakeInv(s: State) {
    forall t :: t in s.threads ==> WakeOk(s, s.threads[t])
  }

  ghost predicate WakeOk(s: State, c: Carrier) {
    && (c.pc.Token? || c.pc.Checked? || c.pc.Asleep? ==> c.pc.token <= c.word)
    && ((c.pc.Checked? || c.pc.Asleep?) && c.pc.r in s.records && s.records[c.pc.r].state.Released? ==>
          (c.pc.Checked? && c.pc.token < c.word) ||
          (s.lock.Some? && Leases(s, s.lock.value, c.pc.r)))
  }

  ghost predicate Inv(s: State) { ListInv(s) && SlotInv(s) && LeaseInv(s) && Covered(s) && WakeInv(s) }

  predicate ByLessee(e: Event) {
    e.Lease? || e.CreateBorrower? || e.StartRelease? || e.MarkReleased? || e.WakeAndUnlock?
  }

  lemma WithoutHas(a: seq<RecordId>, r: RecordId)
    requires Distinct(a)
    ensures Distinct(Without(a, r))
    ensures forall x :: x in Without(a, r) <==> x in a && x != r
  {
    if a != [] {
      WithoutHas(a[1..], r);
      assert a == [a[0]] + a[1..];
      assert a[0] !in a[1..];
    }
  }

  lemma Unlist(s: State, t: Tid)
    requires ListInv(s) && SlotOk(s, t) && Enabled(s, Examine(t, true))
    ensures ListInv(Examined(s, t, true))
  {
    WithoutHas(s.available, s.threads[t].pc.r);
    var s' := Examined(s, t, true);
    assert forall r :: InPark(s, r) && r != s.threads[t].pc.r ==> InPark(s', r);
  }

  lemma Enlist(s: State, t: Tid)
    requires ListInv(s) && SlotOk(s, t) && Enabled(s, Examine(t, false))
    ensures ListInv(Examined(s, t, false))
  {
    var s' := Examined(s, t, false);
    var r0 := s.threads[t].pc.r;
    assert forall r :: InPark(s, r) && r != r0 ==> InPark(s', r);
    assert forall r :: r in s'.available <==> r in s.available || (r == r0 && s'.records[r0].listed);
  }

  lemma ThreadStepKeepsList(s: State, e: Event)
    requires ListInv(s) && Enabled(s, e) && !ByLessee(e) && SlotOk(s, e.t)
    ensures ListInv(Next(s, e))
  {
    if e.Examine? {
      if e.signal { Unlist(s, e.t); } else { Enlist(s, e.t); }
    }
  }

  lemma LesseeStepKeepsList(s: State, e: Event)
    requires ListInv(s) && LeaseInv(s) && Enabled(s, e) && ByLessee(e)
    ensures ListInv(Next(s, e))
  {
    var s' := Next(s, e);
    if e.Lease? { assert s.available == [s.available[0]] + s.available[1..]; }
    assert forall r :: InPark(s, r) ==> InPark(s', r);
  }

  lemma ThreadStepKeepsSlots(s: State, e: Event)
    requires SlotInv(s) && Enabled(s, e) && !ByLessee(e)
    ensures SlotInv(Next(s, e))
  {
    forall t ensures SlotOk(Next(s, e), t) { assert SlotOk(s, t); }
  }

  lemma LesseeStepKeepsSlots(s: State, e: Event)
    requires ListInv(s) && SlotInv(s) && LeaseInv(s) && Enabled(s, e) && ByLessee(e)
    ensures SlotInv(Next(s, e))
  {
    forall t ensures SlotOk(Next(s, e), t) { assert SlotOk(s, t); }
  }

  lemma ThreadStepKeepsLeases(s: State, e: Event)
    requires SlotInv(s) && LeaseInv(s) && Enabled(s, e) && !ByLessee(e)
    ensures LeaseInv(Next(s, e))
  {
    var s' := Next(s, e);
    assert s'.lessees == s.lessees;
    forall b | b in s.lessees && !s.lessees[b].Ended? ensures LesseeOk(s', b) {
      assert LesseeOk(s, b);
      assert SlotOk(s, s.records[s.lessees[b].r].thread);
    }
  }

  lemma LesseeStepKeepsLeases(s: State, e: Event)
    requires ListInv(s) && LeaseInv(s) && Enabled(s, e) && ByLessee(e)
    ensures LeaseInv(Next(s, e))
  {
    var s' := Next(s, e);
    forall b | b in s'.lessees && !s'.lessees[b].Ended? ensures LesseeOk(s', b) {
      if b in s.lessees && !s.lessees[b].Ended? { assert LesseeOk(s, b); }
    }
  }

  lemma StepKeepsCovered(s: State, e: Event)
    requires LeaseInv(s) && Covered(s) && Enabled(s, e)
    ensures Covered(Next(s, e))
  {
    var s' := Next(s, e);
    forall r | r in s'.records && s'.records[r].state.Leased? ensures exists b :: Leases(s', b, r) {
      if e.Lease? && r == s.available[0] {
        assert Leases(s', e.b, r);
      } else {
        var b :| Leases(s, b, r);
        assert Leases(s', b, r);
      }
    }
  }

  lemma ThreadStepKeepsWakes(s: State, e: Event)
    requires SlotInv(s) && WakeInv(s) && Enabled(s, e) && !ByLessee(e)
    ensures WakeInv(Next(s, e))
  {
    forall t | t in Next(s, e).threads ensures WakeOk(Next(s, e), Next(s, e).threads[t]) {
      if t in s.threads { assert WakeOk(s, s.threads[t]); }
    }
  }

  lemma LesseeStepKeepsWakes(s: State, e: Event)
    requires SlotInv(s) && ListInv(s) && LeaseInv(s) && WakeInv(s) && Enabled(s, e) && ByLessee(e)
    ensures WakeInv(Next(s, e))
  {
    forall t | t in Next(s, e).threads ensures WakeOk(Next(s, e), Next(s, e).threads[t]) {
      assert WakeOk(s, s.threads[t]) && SlotOk(s, t);
    }
  }

  lemma StepKeepsInv(s: State, e: Event)
    requires Inv(s) && Enabled(s, e)
    ensures Inv(Next(s, e))
  {
    StepKeepsCovered(s, e);
    if ByLessee(e) {
      LesseeStepKeepsList(s, e);
      LesseeStepKeepsSlots(s, e);
      LesseeStepKeepsLeases(s, e);
      LesseeStepKeepsWakes(s, e);
    } else {
      assert SlotOk(s, e.t);
      ThreadStepKeepsList(s, e);
      ThreadStepKeepsSlots(s, e);
      ThreadStepKeepsLeases(s, e);
      ThreadStepKeepsWakes(s, e);
    }
  }

  lemma {:induction false} RunKeepsInv(s: State, es: seq<Event>)
    requires Inv(s) && ValidRun(s, es)
    ensures Inv(After(s, es))
    decreases es
  {
    if es != [] {
      StepKeepsInv(s, es[0]);
      RunKeepsInv(Next(s, es[0]), es[1..]);
    }
  }

  // ---- What the invariant gives every run ----

  /**
    In every reachable state a record is in `available` exactly once iff it is listed; a listed or
    leased record belongs to a carrier inside PARK; and a leased record has exactly one lessee.
  */
  lemma LeasesAreSafe(es: seq<Event>, r: RecordId)
    requires ValidRun(Init, es) && r in After(Init, es).records
    ensures var s := After(Init, es);
            && multiset(s.available)[r] == (if s.records[r].listed then 1 else 0)
            && (s.records[r].listed || s.records[r].state.Leased? ==> InPark(s, r))
            && (s.records[r].state.Leased? ==> exists b :: Leases(s, b, r))
            && (forall b, c :: Leases(s, b, r) && Leases(s, c, r) ==> b == c)
  {
    RunKeepsInv(Init, es);
    var s := After(Init, es);
    CountDistinct(s.available, r);
    if s.records[r].state.Leased? {
      var b :| Leases(s, b, r);
      assert LesseeOk(s, b);
    }
  }

  lemma CountDistinct(a: seq<RecordId>, r: RecordId)
    requires Distinct(a)
    ensures multiset(a)[r] == if r in a then 1 else 0
  {
    if a != [] {
      CountDistinct(a[1..], r);
      assert a == [a[0]] + a[1..];
      assert a[0] !in a[1..];
    }
  }

  lemma StepAdvances(s: State, e: Event, r: RecordId)
    requires ListInv(s) && LeaseInv(s) && Enabled(s, e) && r in s.records
    ensures r in Next(s, e).records && s.records[r].thread == Next(s, e).records[r].thread
    ensures var before := s.records[r].state; var after := Next(s, e).records[r].state;
            after == before || after.Rank() == before.Rank() + 1
  {
    match e {
      case MarkReleased(b) => assert LesseeOk(s, b);
      case Lease(b) => assert s.available[0] in s.available;
      case _ =>
    }
  }

  /** A record's state only moves from Available to Leased to Released, one step at a time. */
  lemma StateOnlyAdvances(es: seq<Event>, e: Event, r: RecordId)
    requires ValidRun(Init, es) && Enabled(After(Init, es), e) && r in After(Init, es).records
    ensures var s := After(Init, es); var s' := Next(s, e);
            r in s'.records && s.records[r].thread == s'.records[r].thread &&
            (s'.records[r].state == s.records[r].state ||
             s'.records[r].state.Rank() == s.records[r].state.Rank() + 1)
  {
    RunKeepsInv(Init, es);
    StepAdvances(After(Init, es), e, r);
  }

  /** The record whose carrier a borrowing thread reads, writes or wakes in event e. */
  function Touched(s: State, e: Event): (r: RecordId)
    requires Enabled(s, e) && ByLessee(e)
  {
    if e.Lease? then s.available[0] else s.lessees[e.b].r
  }

  /**
    A borrowing thread never touches a carrier that could have left PARK to exit: at every step of a
    lease, including the wake() that ends it, the carrier's thread exists and is still inside PARK.
  */
  lemma TouchesStayInPark(es: seq<Event>, e: Event)
    requires ValidRun(Init, es) && Enabled(After(Init, es), e) && ByLessee(e)
    ensures InPark(After(Init, es), Touched(After(Init, es), e))
    ensures InPark(Next(After(Init, es), e), Touched(After(Init, es), e))
  {
    RunKeepsInv(Init, es);
    var s := After(Init, es);
    if e.Lease? { assert s.available[0] in s.available; } else { assert LesseeOk(s, e.b); }
  }

  /**
    No release is slept through: a carrier asleep in PARK whose record is Released is about to be
    woken by the releasing thread, which still holds the mutex.
  */
  lemma ReleaseWakesCarrier(es: seq<Event>, t: Tid)
    requires ValidRun(Init, es)
    requires var s := After(Init, es);
             t in s.threads && s.threads[t].pc.Asleep? && s.threads[t].pc.r in s.records &&
             s.records[s.threads[t].pc.r].state.Released?
    ensures var s := After(Init, es);
            s.lock.Some? && Enabled(s, WakeAndUnlock(s.lock.value)) &&
            Next(s, WakeAndUnlock(s.lock.value)).threads[t].pc == Top(s.threads[t].pc.r)
  {
    RunKeepsInv(Init, es);
    var s := After(Init, es);
    assert WakeOk(s, s.threads[t]) && SlotOk(s, t);
    assert LesseeOk(s, s.lock.value);
  }
}
