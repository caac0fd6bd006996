/**
  Pending signals of guest threads and their conservation across a carrier lease
  (core/src/guest_thread.cpp, core/src/process.cpp).

  `PendingSignals` is the sequential meaning of post_signal, take_signal and the drain of
  destroy_borrower. The state machine below it interleaves them: routing by tid, posts from signal
  handlers, the load and the compare-exchange of take_signal, and the drain, one atomic operation
  each. Pending signals are sets of numbers 1..64.
*/
module SignalTransfer {
  type Signal = n: int | 1 <= n <= 64 witness 1

  import opened Wrappers

  ghost predicate IsLowest(s: set<Signal>, x: Signal) {
    x in s && forall y :: y in s ==> x <= y
  }

  /** The pending_signals_ word of one GuestThread. */
  class PendingSignals {
    var pending: set<Signal>

    constructor ()
      ensures pending == {}
    {
      pending := {};
    }

    method Post(sig: int)
      modifies this
      ensures pending == if 1 <= sig <= 64 then old(pending) + {sig} else old(pending)
    {
      if sig < 1 || sig > 64 { return; }
      pending := pending + {sig};
    }

    /** take_signal: removes the lowest pending signal that is not blocked. */
    method Take(blocked: set<Signal>) returns (r: Option<Signal>)
      modifies this
      ensures r.None? <==> old(pending) <= blocked
      ensures r.None? ==> pending == old(pending)
      ensures r.Some? ==> IsLowest(old(pending) - blocked, r.value) && pending == old(pending) - {r.value}
    {
      for n := 1 to 65
        invariant pending == old(pending)
        invariant forall y :: y in pending - blocked ==> n <= y
      {
        if n in pending && n !in blocked {
          pending := pending - {n};
          return Some(n);
        }
      }
      assert forall y :: y in pending ==> y in blocked || y in pending - blocked;
      return None;
    }
  }

  /** The drain of destroy_borrower: it ends, and the carrier has everything the borrower held. */
  method Drain(borrower: PendingSignals, carrier: PendingSignals)
    requires borrower != carrier
    modifies borrower, carrier
    ensures borrower.pending == {}
    ensures carrier.pending == old(carrier.pending) + old(borrower.pending)
  {
    var taken := borrower.Take({});
    while taken.Some?
      invariant taken.Some? ==> taken.value in old(borrower.pending)
      invariant taken.None? ==> borrower.pending == {}
      invariant borrower.pending <= old(borrower.pending)
      invariant carrier.pending + borrower.pending + (if taken.Some? then {taken.value} else {}) ==
                old(carrier.pending) + old(borrower.pending)
      decreases borrower.pending, taken.Some?
    {
      carrier.Post(taken.value);
      taken := borrower.Take({});
    }
  }

  // ---- Interleavings ----

  type Obj = nat

  /** Where a posted signal is. */
  datatype Place =
    | On(o: Obj)         // pending on a thread
    | InHand(b: Obj)     // taken from borrower b, not yet posted to its carrier
    | Delivered(o: Obj)  // taken by the thread itself, to be delivered
    | Dropped(o: Obj)    // still pending when the thread exited

  datatype Post = Post(sig: Signal, place: Place)

  /** take_signal between its load and its compare-exchange. */
  datatype Taking = Taking(expected: set<Signal>, blocked: set<Signal>)

  datatype State = State(
    threads: seq<Obj>,                 // threads_
    borrowers: seq<Obj>,               // borrowers_
    tid: map<Obj, int>,
    pending: map<Obj, set<Signal>>,    // every GuestThread that exists
    takes: map<Obj, Taking>,
    carrierOf: map<Obj, Obj>,          // borrower to its parked carrier, until the borrower is freed
    hands: map<Obj, Option<Signal>>,   // borrowers inside the drain of destroy_borrower
    posts: seq<Post>,                  // history: every accepted post
    exited: set<Obj>                   // history: every thread that unregister_thread has dropped
  )

  datatype Event =
    | NewThread(o: Obj, id: int)
    | PostTo(id: int, sig: Signal)          // post_signal_to: lookup and post under one lock
    | PostCurrent(o: Obj, sig: Signal)      // a handler or the thread itself
    | TakeLoad(o: Obj, blocked: set<Signal>)
    | TakeNone(o: Obj)
    | TakeExchange(o: Obj, low: Signal)
    | Borrow(b: Obj, c: Obj)
    | Unlist(b: Obj)
    | DrainTake(b: Obj, low: Signal)
    | DrainPost(b: Obj)
    | DrainEnd(b: Obj)
    | Exit(o: Obj)                          // unregister_thread: an ordinary thread, no longer current anywhere

  const Init := State([], [], map[], map[], map[], map[], map[], [], {})

  function Find(s: State, list: seq<Obj>, id: int): Option<Obj> {
    if list == [] then None
    else if list[0] in s.tid && s.tid[list[0]] == id then Some(list[0])
    else Find(s, list[1..], id)
  }

  /** Borrowers first, so a signal to a leased carrier's tid reaches the borrower. */
  function Route(s: State, id: int): Option<Obj> {
    var b := Find(s, s.borrowers, id);
    if b.Some? then b else Find(s, s.threads, id)
  }

  ghost predicate Leased(s: State, c: Obj) { exists b :: b in s.carrierOf && s.carrierOf[b] == c }

  ghost predicate Enabled(s: State, e: Event) {
    match e
    case NewThread(o, id) => o !in s.pending
    case PostTo(id, sig) => Route(s, id).Some? && Route(s, id).value in s.pending
    case PostCurrent(o, sig) => (o in s.threads || o in s.borrowers) && o in s.pending
    case TakeLoad(o, _) => o in s.pending && o !in s.hands && !Leased(s, o) && o !in s.takes
    case TakeNone(o) => o in s.takes && s.takes[o].expected <= s.takes[o].blocked
    case TakeExchange(o, low) => o in s.takes && o in s.pending && IsLowest(s.takes[o].expected - s.takes[o].blocked, low)
    case Borrow(b, c) => b !in s.pending && c in s.threads && c in s.tid && c !in s.takes && !Leased(s, c)
    case Unlist(b) => b in s.borrowers && b in s.carrierOf && b !in s.takes
    case DrainTake(b, low) => b in s.hands && s.hands[b].None? && b in s.pending && IsLowest(s.pending[b], low)
    case DrainPost(b) => b in s.hands && s.hands[b].Some? && b in s.carrierOf && s.carrierOf[b] in s.pending
    case DrainEnd(b) => b in s.hands && s.hands[b].None? && b in s.pending && s.pending[b] == {}
    case Exit(o) => o in s.threads && o in s.pending && o !in s.takes && !Leased(s, o)
  }

  /** Every post of sig at place `from` is now at place `to`. */
  function Move(posts: seq<Post>, sig: Signal, from: Place, to: Place): (r: seq<Post>)
    ensures |r| == |posts|
  {
    seq(|posts|, i requires 0 <= i < |posts| =>
      if posts[i] == Post(sig, from) then Post(sig, to) else posts[i])
  }

  /** Every post still pending on o is dropped. */
  function Drop(posts: seq<Post>, o: Obj): (r: seq<Post>)
    ensures |r| == |posts|
  {
    seq(|posts|, i requires 0 <= i < |posts| => if posts[i].place == On(o) then Post(posts[i].sig, Dropped(o)) else posts[i])
  }

  function Posted(s: State, o: Obj, sig: Signal): State
    requires o in s.pending
  {
    s.(pending := s.pending[o := s.pending[o] + {sig}], posts := s.posts + [Post(sig, On(o))])
  }

  function Without(list: seq<Obj>, o: Obj): (r: seq<Obj>)
    ensures forall x :: x in r <==> x in list && x != o
  {
    if list == [] then []
    else if list[0] == o then Without(list[1..], o)
    else [list[0]] + Without(list[1..], o)
  }

  ghost function Next(s: State, e: Event): State
    requires Enabled(s, e)
  {
    match e
    case NewThread(o, id) => s.(threads := s.threads + [o], tid := s.tid[o := id], pending := s.pending[o := {}])
    case PostTo(id, sig) => Posted(s, Route(s, id).value, sig)
    case PostCurrent(o, sig) => Posted(s, o, sig)
    case TakeLoad(o, blocked) => s.(takes := s.takes[o := Taking(s.pending[o], blocked)])
    case TakeNone(o) => s.(takes := s.takes - {o})
    case TakeExchange(o, low) =>
      if s.pending[o] == s.takes[o].expected then
        s.(pending := s.pending[o := s.pending[o] - {low}], takes := s.takes - {o},
           posts := Move(s.posts, low, On(o), Delivered(o)))
      else s.(takes := s.takes[o := s.takes[o].(expected := s.pending[o])])
    case Borrow(b, c) => s.(borrowers := s.borrowers + [b], tid := s.tid[b := s.tid[c]],
                            pending := s.pending[b := {}], carrierOf := s.carrierOf[b := c])
    case Unlist(b) => s.(borrowers := Without(s.borrowers, b), hands := s.hands[b := None])
    case DrainTake(b, low) => s.(pending := s.pending[b := s.pending[b] - {low}], hands := s.hands[b := Some(low)],
                                 posts := Move(s.posts, low, On(b), InHand(b)))
    case DrainPost(b) =>
      var c, sig := s.carrierOf[b], s.hands[b].value;
      s.(pending := s.pending[c := s.pending[c] + {sig}], hands := s.hands[b := None],
         posts := Move(s.posts, sig, InHand(b), On(c)))
    case DrainEnd(b) => s.(pending := s.pending - {b}, hands := s.hands - {b}, carrierOf := s.carrierOf - {b},
                           tid := s.tid - {b})
    case Exit(o) => s.(threads := Without(s.threads, o), tid := s.tid - {o}, pending := s.pending - {o},
                       posts := Drop(s.posts, o), exited := s.exited + {o})
  }

  /** Lists, leases and drains refer to threads that exist, and a carrier has one borrower at a time. */
  ghost predicate Wf(s: State) { Exists(s) && Exclusive(s) }

  ghost predicate Exists(s: State) {
    && (forall o :: o in s.threads || o in s.borrowers ==> o in s.pending)
    && (forall o :: o in s.takes ==> o in s.pending && o !in s.hands)
    && (forall b :: b in s.hands ==> b in s.pending && b in s.carrierOf && b !in s.borrowers)
    && (forall b :: b in s.carrierOf ==> b in s.pending && b !in s.threads && s.carrierOf[b] in s.threads)
    && (forall b :: b in s.borrowers ==> b in s.carrierOf)
  }

  ghost predicate Exclusive(s: State) {
    && (forall b, d :: b in s.carrierOf && d in s.carrierOf && s.carrierOf[b] == s.carrierOf[d] ==> b == d)
    && (forall b :: b in s.carrierOf ==> s.carrierOf[b] !in s.takes)
  }

  lemma FindWf(s: State, list: seq<Obj>, id: int)
    ensures Find(s, list, id).Some? ==> Find(s, list, id).value in list
  {
  }

  lemma RouteWf(s: State, id: int)
    requires Wf(s)
    ensures Route(s, id).Some? ==> Route(s, id).value in s.threads || Route(s, id).value in s.borrowers
    ensures Route(s, id).Some? ==> Route(s, id).value in s.pending && Route(s, id).value !in s.hands
  {
    FindWf(s, s.borrowers, id);
    FindWf(s, s.threads, id);
  }

  lemma PostKeepsExists(s: State, e: Event)
    requires Exists(s) && Enabled(s, e) && (e.PostTo? || e.PostCurrent?)
    ensures Exists(Next(s, e))
  {
    assert Next(s, e).pending.Keys == s.pending.Keys;
  }

  lemma TakeKeepsExists(s: State, e: Event)
    requires Exists(s) && Enabled(s, e) && (e.TakeLoad? || e.TakeNone? || e.TakeExchange?)
    ensures Exists(Next(s, e))
  {
    assert Next(s, e).pending.Keys == s.pending.Keys;
  }

  lemma DrainKeepsExists(s: State, e: Event)
    requires Exists(s) && Enabled(s, e) && (e.Unlist? || e.DrainTake? || e.DrainPost?)
    ensures Exists(Next(s, e))
  {
    assert Next(s, e).pending.Keys == s.pending.Keys;
  }

  lemma LeaseKeepsExists(s: State, e: Event)
    requires Exists(s) && Enabled(s, e) && (e.NewThread? || e.Borrow? || e.DrainEnd? || e.Exit?)
    ensures Exists(Next(s, e))
  {
  }

  lemma StepKeepsExists(s: State, e: Event)
    requires Exists(s) && Enabled(s, e)
    ensures Exists(Next(s, e))
  {
    match e {
      case PostTo(_, _) => PostKeepsExists(s, e);
      case PostCurrent(_, _) => PostKeepsExists(s, e);
      case TakeLoad(_, _) => TakeKeepsExists(s, e);
      case TakeNone(_) => TakeKeepsExists(s, e);
      case TakeExchange(_, _) => TakeKeepsExists(s, e);
      case Unlist(_) => DrainKeepsExists(s, e);
      case DrainTake(_, _) => DrainKeepsExists(s, e);
      case DrainPost(_) => DrainKeepsExists(s, e);
      case _ => LeaseKeepsExists(s, e);
    }
  }

  lemma StepKeepsExclusive(s: State, e: Event)
    requires Wf(s) && Enabled(s, e)
    ensures Exclusive(Next(s, e))
  {
    if e.PostTo? { RouteWf(s, e.id); }
  }

  lemma StepKeepsWf(s: State, e: Event)
    requires Wf(s) && Enabled(s, e)
    ensures Wf(Next(s, e))
  {
    StepKeepsExclusive(s, e);
    StepKeepsExists(s, e);
  }

  // ---- Conservation ----

  /** The history agrees with the pending words and the hands, in both directions. */
  ghost predicate Placed(s: State, p: Post) {
    match p.place
    case On(o) => o in s.pending && p.sig in s.pending[o]
    case InHand(b) => b in s.hands && s.hands[b] == Some(p.sig)
    case Delivered(_) => true
    case Dropped(o) => o in s.exited
  }

  ghost predicate Kept(s: State) {
    && (forall p :: p in s.posts ==> Placed(s, p))
    && (forall o, x :: o in s.pending && x in s.pending[o] ==> Post(x, On(o)) in s.posts)
  }

  lemma MoveHas(posts: seq<Post>, sig: Signal, from: Place, to: Place, p: Post)
    requires from != to
    ensures p in Move(posts, sig, from, to) <==>
            (p in posts && p != Post(sig, from)) || (p == Post(sig, to) && Post(sig, from) in posts)
  {
    var r := Move(posts, sig, from, to);
    if p in posts && p != Post(sig, from) {
      var i :| 0 <= i < |posts| && posts[i] == p;
      assert r[i] == p;
    }
    if p == Post(sig, to) && Post(sig, from) in posts {
      var i :| 0 <= i < |posts| && posts[i] == Post(sig, from);
      assert r[i] == p;
    }
  }

  lemma PostKeeps(s: State, o: Obj, sig: Signal)
    requires Wf(s) && Kept(s) && o in s.pending
    ensures Kept(Posted(s, o, sig))
  {
  }

  lemma TakeExchangeKeeps(s: State, o: Obj, low: Signal)
    requires Wf(s) && Kept(s) && Enabled(s, TakeExchange(o, low))
    ensures Kept(Next(s, TakeExchange(o, low)))
  {
    var s' := Next(s, TakeExchange(o, low));
    if s.pending[o] == s.takes[o].expected {
      forall p | p in s'.posts ensures Placed(s', p) { MoveHas(s.posts, low, On(o), Delivered(o), p); }
      forall q, x | q in s'.pending && x in s'.pending[q] ensures Post(x, On(q)) in s'.posts {
        MoveHas(s.posts, low, On(o), Delivered(o), Post(x, On(q)));
      }
    }
  }

  lemma DrainTakeKeeps(s: State, b: Obj, low: Signal)
    requires Wf(s) && Kept(s) && Enabled(s, DrainTake(b, low))
    ensures Kept(Next(s, DrainTake(b, low)))
  {
    var s' := Next(s, DrainTake(b, low));
    forall p | p in s'.posts ensures Placed(s', p) { MoveHas(s.posts, low, On(b), InHand(b), p); }
    forall q, x | q in s'.pending && x in s'.pending[q] ensures Post(x, On(q)) in s'.posts {
      MoveHas(s.posts, low, On(b), InHand(b), Post(x, On(q)));
    }
  }

  lemma DrainPostKeeps(s: State, b: Obj)
    requires Wf(s) && Kept(s) && Enabled(s, DrainPost(b))
    requires HandsHeld(s)
    ensures Kept(Next(s, DrainPost(b)))
  {
    var s' := Next(s, DrainPost(b));
    var c, sig := s.carrierOf[b], s.hands[b].value;
    forall p | p in s'.posts ensures Placed(s', p) { MoveHas(s.posts, sig, InHand(b), On(c), p); }
    forall q, x | q in s'.pending && x in s'.pending[q] ensures Post(x, On(q)) in s'.posts {
      MoveHas(s.posts, sig, InHand(b), On(c), Post(x, On(q)));
    }
  }

  lemma {:induction false} DropHas(posts: seq<Post>, o: Obj, p: Post)
    ensures p in Drop(posts, o) <==>
            (p in posts && p.place != On(o)) || (p.place == Dropped(o) && Post(p.sig, On(o)) in posts)
  {
    var r := Drop(posts, o);
    if p in posts && p.place != On(o) {
      var i :| 0 <= i < |posts| && posts[i] == p;
      assert r[i] == p;
    }
    if p.place == Dropped(o) && Post(p.sig, On(o)) in posts {
      var i :| 0 <= i < |posts| && posts[i] == Post(p.sig, On(o));
      assert r[i] == p;
    }
  }

  lemma {:induction false} ExitKeeps(s: State, o: Obj)
    requires Wf(s) && Kept(s) && Enabled(s, Exit(o))
    ensures Kept(Next(s, Exit(o)))
  {
    var s' := Next(s, Exit(o));
    forall p | p in s'.posts ensures Placed(s', p) {
      DropHas(s.posts, o, p);
      if p in s.posts { assert Placed(s, p); }
    }
    forall q, x | q in s'.pending && x in s'.pending[q] ensures Post(x, On(q)) in s'.posts {
      DropHas(s.posts, o, Post(x, On(q)));
    }
  }

  /** A signal in the hand of a drain was posted. */
  ghost predicate HandsHeld(s: State) {
    forall b :: b in s.hands && s.hands[b].Some? ==> Post(s.hands[b].value, InHand(b)) in s.posts
  }

  lemma StepKeepsHands(s: State, e: Event)
    requires Wf(s) && Kept(s) && HandsHeld(s) && Enabled(s, e)
    ensures HandsHeld(Next(s, e))
  {
    if e.PostTo? { RouteWf(s, e.id); }
    var s' := Next(s, e);
    forall b | b in s'.hands && s'.hands[b].Some? ensures Post(s'.hands[b].value, InHand(b)) in s'.posts {
      var p := Post(s'.hands[b].value, InHand(b));
      match e {
        case TakeExchange(o, low) => MoveHas(s.posts, low, On(o), Delivered(o), p);
        case DrainTake(d, low) => MoveHas(s.posts, low, On(d), InHand(d), p);
        case DrainPost(d) => MoveHas(s.posts, s.hands[d].value, InHand(d), On(s.carrierOf[d]), p);
        case Exit(o) => DropHas(s.posts, o, p);
        case _ =>
      }
    }
  }

  lemma QuietStepKeeps(s: State, e: Event)
    requires Wf(s) && Kept(s) && Enabled(s, e)
    requires e.NewThread? || e.TakeLoad? || e.TakeNone? || e.Borrow? || e.Unlist? || e.DrainEnd?
    ensures Kept(Next(s, e))
  {
    var s' := Next(s, e);
    assert s'.posts == s.posts;
    forall p | p in s'.posts ensures Placed(s', p) { assert Placed(s, p); }
  }

  ghost predicate Inv(s: State) { Wf(s) && Kept(s) && HandsHeld(s) }

  lemma StepKeepsInv(s: State, e: Event)
    requires Inv(s) && Enabled(s, e)
    ensures Inv(Next(s, e))
  {
    StepKeepsWf(s, e);
    StepKeepsHands(s, e);
    match e {
      case PostTo(id, sig) => RouteWf(s, id); PostKeeps(s, Route(s, id).value, sig);
      case PostCurrent(o, sig) => PostKeeps(s, o, sig);
      case TakeExchange(o, low) => TakeExchangeKeeps(s, o, low);
      case DrainTake(b, low) => DrainTakeKeeps(s, b, low);
      case DrainPost(b) => DrainPostKeeps(s, b);
      case Exit(o) => ExitKeeps(s, o);
      case _ => QuietStepKeeps(s, e);
    }
  }

  ghost predicate ValidRun(s: State, es: seq<Event>)
    decreases es
  {
    es == [] || (Enabled(s, es[0]) && ValidRun(Next(s, es[0]), es[1..]))
  }

  ghost function After(s: State, es: seq<Event>): State
    requires ValidRun(s, es)
    decreases es
  {
    if es == [] then s else After(Next(s, es[0]), es[1..])
  }

  lemma {:induction false} RunKeepsInv(s: State, es: seq<Event>)
    requires Inv(s) && ValidRun(s, es)
    ensures Inv(After(s, es))
    decreases es
  {
    if es != [] {
      StepKeepsInv(s, es[0]);
      RunKeepsInv(Next(s, es[0]), es[1..]);
    }
  }

  /** No post is forgotten, reordered or invented by a step: each keeps its number and its index. */
  lemma PostsOnlyMove(s: State, e: Event, i: nat)
    requires Enabled(s, e) && i < |s.posts|
    ensures i < |Next(s, e).posts| && Next(s, e).posts[i].sig == s.posts[i].sig
    ensures |Next(s, e).posts| == |s.posts| + if e.PostTo? || e.PostCurrent? then 1 else 0
  {
  }

  /**
    Conservation: in every run each accepted post is pending on a thread that exists, in the hand of
    one drain on its way to the carrier, taken for delivery, or dropped by a thread that exited; and
    every pending bit was posted.
  */
  lemma SignalsAreConserved(es: seq<Event>, p: Post)
    requires ValidRun(Init, es) && p in After(Init, es).posts
    ensures var s := After(Init, es);
            match p.place
            case On(o) => o in s.pending && p.sig in s.pending[o]
            case InHand(b) => b in s.hands && s.hands[b] == Some(p.sig) && b in s.carrierOf &&
                              s.carrierOf[b] in s.pending
            case Delivered(_) => true
            case Dropped(o) => o in s.exited
    ensures forall o, x :: o in After(Init, es).pending && x in After(Init, es).pending[o] ==>
                           Post(x, On(o)) in After(Init, es).posts
  {
    RunKeepsInv(Init, es);
    assert Placed(After(Init, es), p);
  }

  /**
    The only step that drops a post is the exit of the thread it is pending on, and that thread is
    neither a borrower nor a carrier that is leased.
  */
  lemma {:induction false} OnlyExitDrops(s: State, e: Event, i: nat, o: Obj)
    requires Wf(s) && Enabled(s, e) && i < |s.posts| && !s.posts[i].place.Dropped?
    requires i < |Next(s, e).posts| && Next(s, e).posts[i].place == Dropped(o)
    ensures e == Exit(o) && s.posts[i].place == On(o) && o in s.threads && o !in s.carrierOf && !Leased(s, o)
  {
  }

  /** And that does happen: a signal posted to a thread that exits before it takes it is dropped. */
  lemma {:induction false} ExitDropsSignal(sig: Signal) returns (es: seq<Event>)
    ensures ValidRun(Init, es) && After(Init, es).posts == [Post(sig, Dropped(0))] && 0 in After(Init, es).exited
  {
    es := [NewThread(0, 7), PostTo(7, sig), Exit(0)];
    var s1 := Next(Init, es[0]);
    assert s1.threads == [0] && Route(s1, 7) == Some(0);
    var s2 := Next(s1, es[1]);
    assert s2.posts == [Post(sig, On(0))];
    var s3 := Next(s2, es[2]);
    assert s3.posts == [Post(sig, Dropped(0))];
    assert es[1..] == [es[1], es[2]] && es[1..][1..] == [es[2]] && es[1..][1..][1..] == [];
    assert After(s2, [es[2]]) == After(s3, []);
    assert After(s1, es[1..]) == After(s2, [es[2]]);
  }

  ghost predicate AlwaysLeased(s: State, es: seq<Event>, b: Obj, c: Obj)
    requires ValidRun(s, es)
    decreases es
  {
    b in s.carrierOf && s.carrierOf[b] == c && (es == [] || AlwaysLeased(Next(s, es[0]), es[1..], b, c))
  }

  /** Through a lease no post that is not dropped yet is dropped by the borrower or the carrier. */
  lemma {:induction false} NothingDroppedInLease(s: State, es: seq<Event>, b: Obj, c: Obj, i: nat)
    requires Wf(s) && ValidRun(s, es) && AlwaysLeased(s, es, b, c) && i < |s.posts| && s.posts[i].place !in {Dropped(b), Dropped(c)}
    ensures i < |After(s, es).posts| && After(s, es).posts[i].place !in {Dropped(b), Dropped(c)}
    decreases es
  {
    if es != [] {
      PostsOnlyMove(s, es[0], i);
      StepKeepsWf(s, es[0]);
      LeaseDropsNothing(s, es[0], b, c, i);
      NothingDroppedInLease(Next(s, es[0]), es[1..], b, c, i);
    }
  }

  lemma {:induction false} LeaseDropsNothing(s: State, e: Event, b: Obj, c: Obj, i: nat)
    requires Wf(s) && Enabled(s, e) && b in s.carrierOf && s.carrierOf[b] == c
    requires i < |s.posts| && s.posts[i].place !in {Dropped(b), Dropped(c)} && i < |Next(s, e).posts|
    ensures Next(s, e).posts[i].place !in {Dropped(b), Dropped(c)}
  {
    if e.PostTo? { RouteWf(s, e.id); }
  }

  // ---- The drain ----

  /** What the borrower held is on the borrower, in the drain's hand or on the carrier. */
  ghost predicate Transferred(s: State, b: Obj, c: Obj, held: set<Signal>) {
    && b in s.hands && b in s.carrierOf && s.carrierOf[b] == c && c in s.pending && b in s.pending
    && held <= s.pending[b] + (if s.hands[b].Some? then {s.hands[b].value} else {}) + s.pending[c]
  }

  ghost function Remaining(s: State, b: Obj): nat
    requires b in s.hands && b in s.pending
  {
    2 * |s.pending[b]| + if s.hands[b].Some? then 1 else 0
  }

  /** A step that is not the drain's own leaves the borrower and the hand alone. */
  lemma OtherStepLeavesDrain(s: State, e: Event, b: Obj)
    requires Wf(s) && Enabled(s, e) && b in s.hands
    requires !((e.DrainTake? || e.DrainPost? || e.DrainEnd?) && e.b == b)
    ensures var s' := Next(s, e); var c := s.carrierOf[b];
            && b in s'.hands && b in s'.pending && b in s'.carrierOf && c in s'.pending && c in s.pending
            && s'.hands[b] == s.hands[b] && s'.pending[b] == s.pending[b] && s'.carrierOf[b] == c
            && s.pending[c] <= s'.pending[c]
  {
    if e.PostTo? { RouteWf(s, e.id); }
    assert s.carrierOf[b] in s.pending;
    if e.DrainEnd? { assert s.carrierOf[b] != e.b; }
  }

  /**
    While the drain of b runs, no step of any thread loses a held signal or adds work to the drain,
    and every step of the drain reduces what remains. When it ends, the carrier has everything.
  */
  lemma DrainStep(s: State, e: Event, b: Obj, c: Obj, held: set<Signal>)
    requires Wf(s) && Enabled(s, e) && Transferred(s, b, c, held)
    ensures e == DrainEnd(b) ==> c in Next(s, e).pending && held <= Next(s, e).pending[c]
    ensures e != DrainEnd(b) ==> Transferred(Next(s, e), b, c, held)
    ensures e != DrainEnd(b) ==> Remaining(Next(s, e), b) <= Remaining(s, b)
    ensures (e.DrainTake? || e.DrainPost?) && e.b == b ==> Remaining(Next(s, e), b) < Remaining(s, b)
  {
    if !((e.DrainTake? || e.DrainPost? || e.DrainEnd?) && e.b == b) { OtherStepLeavesDrain(s, e, b); }
  }

  lemma LowestExists(s: set<Signal>) returns (x: Signal)
    requires s != {}
    ensures IsLowest(s, x)
  {
    x :| x in s;
    if s != {x} {
      var y := LowestExists(s - {x});
      assert forall z :: z in s ==> z == x || z in s - {x};
      if y < x { x := y; }
    }
  }

  /** The drain is never stuck: one of its own steps can always run. */
  lemma DrainCanMove(s: State, b: Obj) returns (e: Event)
    requires Inv(s) && b in s.hands
    ensures e in {DrainPost(b), DrainEnd(b)} || (e.DrainTake? && e.b == b)
    ensures Enabled(s, e)
  {
    if s.hands[b].Some? { e := DrainPost(b); }
    else if s.pending[b] == {} { e := DrainEnd(b); }
    else {
      var low := LowestExists(s.pending[b]);
      e := DrainTake(b, low);
    }
  }

  /** After destroy_borrower the carrier's pending set contains everything the borrower still held. */
  lemma {:induction false} ReturnHandsOverEverything(s: State, es: seq<Event>, b: Obj, c: Obj, held: set<Signal>)
    requires Wf(s) && Transferred(s, b, c, held) && ValidRun(s, es)
    requires es != [] && es[|es| - 1] == DrainEnd(b)
    requires forall i :: 0 <= i < |es| - 1 ==> es[i] != DrainEnd(b)
    ensures c in After(s, es).pending && held <= After(s, es).pending[c]
    decreases es
  {
    DrainStep(s, es[0], b, c, held);
    StepKeepsWf(s, es[0]);
    if |es| > 1 {
      ReturnHandsOverEverything(Next(s, es[0]), es[1..], b, c, held);
    } else {
      assert es[1..] == [];
    }
  }

  /** take_signal removes the lowest unblocked signal pending at the moment its exchange succeeds. */
  lemma ExchangeTakesLowest(s: State, o: Obj, low: Signal)
    requires Enabled(s, TakeExchange(o, low))
    ensures var s' := Next(s, TakeExchange(o, low));
            if o in s'.takes then s'.pending == s.pending && s'.posts == s.posts
            else IsLowest(s.pending[o] - s.takes[o].blocked, low) && s'.pending[o] == s.pending[o] - {low}
  {
  }
}
