/** A pool of worker threads with a shared queue, in which the threads take their steps in
    any order. */
module ThreadPool {
  import opened Options

  type Tid = nat
  type Request = nat

  const NULL: Request := 0

  /** Where a thread is: in `append` or in `run`. */
  datatype Place =
    | Outside                  // not in append
    | Append(req: Request)     // before lock()
    | Checking(req: Request)   // holds the lock, before the test of the size
    | Full                     // holds the lock, will return false
    | Pushed                   // holds the lock, the request is in the queue
    | Unlocked                 // before post()
    | Waiting                  // a worker before wait()
    | Woken                    // after wait(), before lock()
    | Inside                   // holds the lock, before the test for emptiness
    | Empty                    // holds the lock, found the queue empty
    | Popped(req: Request)     // holds the lock, has a request
    | Working(req: Request)    // after unlock(), before process()

  /** What happens next: a thread takes its next step, calls `append`, or its `wait` is
      interrupted. */
  datatype Event = Step(t: Tid) | Call(t: Tid, req: Request) | Interrupt(t: Tid)

  /** The lock is held. */
  predicate Holding(p: Place) {
    p.Checking? || p.Full? || p.Pushed? || p.Inside? || p.Empty? || p.Popped?
  }

  predicate InAppend(p: Place) {
    p.Append? || p.Checking? || p.Full? || p.Pushed? || p.Unlocked?
  }

  /** The request is in the queue, the semaphore does not yet tell. */
  predicate BeforePost(p: Place) {
    p.Pushed? || p.Unlocked?
  }

  /** The worker was let through by `wait` and has not yet looked at the queue. */
  predicate AfterWait(p: Place) {
    p.Woken? || p.Inside?
  }

  function Producers(ps: map<Tid, Place>): set<Tid> {
    set t | t in ps && BeforePost(ps[t])
  }

  function Workers(ps: map<Tid, Place>): set<Tid> {
    set t | t in ps && AfterWait(ps[t])
  }

  /** The thread calls `append` with the request, which is not yet in the queue. */
  predicate Offers(p: Place, r: Request) {
    p == Append(r) || p == Checking(r)
  }

  /** The worker has the request and has not yet processed it. */
  predicate Has(p: Place, r: Request) {
    p == Popped(r) || p == Working(r)
  }

  function Offering(ps: map<Tid, Place>, r: Request): set<Tid> {
    set t | t in ps && Offers(ps[t], r)
  }

  function Having(ps: map<Tid, Place>, r: Request): set<Tid> {
    set t | t in ps && Has(ps[t], r)
  }

  function Times(s: seq<Request>, r: Request): nat {
    multiset(s)[r]
  }

  function One(b: bool): int {
    if b then 1 else 0
  }

  /** How the two numbers change when one thread moves. */
  lemma Moved(ps: map<Tid, Place>, t: Tid, p: Place)
    requires t in ps
    ensures |Producers(ps[t := p])| == |Producers(ps)| - One(BeforePost(ps[t])) + One(BeforePost(p))
    ensures |Workers(ps[t := p])| == |Workers(ps)| - One(AfterWait(ps[t])) + One(AfterWait(p))
  {
    OthersStay(ps, t, p);
    hide Producers, Workers, BeforePost, AfterWait;
    DifferInOne(Producers(ps), Producers(ps[t := p]), t);
    DifferInOne(Workers(ps), Workers(ps[t := p]), t);
  }

  lemma OthersStay(ps: map<Tid, Place>, t: Tid, p: Place)
    requires t in ps
    ensures Producers(ps) - {t} == Producers(ps[t := p]) - {t} && Workers(ps) - {t} == Workers(ps[t := p]) - {t}
    ensures (t in Producers(ps) <==> BeforePost(ps[t])) && (t in Producers(ps[t := p]) <==> BeforePost(p))
    ensures (t in Workers(ps) <==> AfterWait(ps[t])) && (t in Workers(ps[t := p]) <==> AfterWait(p))
  {
    hide BeforePost, AfterWait;
  }

  lemma DifferInOne(a: set<Tid>, b: set<Tid>, t: Tid)
    requires a - {t} == b - {t}
    ensures |b| == |a| - One(t in a) + One(t in b)
  {
    WithoutOne(a, t);
    WithoutOne(b, t);
  }

  lemma WithoutOne(s: set<Tid>, t: Tid)
    ensures |s| == |s - {t}| + One(t in s)
  {
    if t in s {
      assert s == (s - {t}) + {t};
    } else {
      assert s == s - {t};
    }
  }

  /** Exactly the thread that has the lock is in a critical section. */
  ghost predicate Mutex(ps: map<Tid, Place>, lock: Option<Tid>) {
    (forall t :: t in ps ==> (Holding(ps[t]) <==> lock == Some(t))) && (lock.Some? ==> lock.value in ps)
  }

  lemma MutexMoved(ps: map<Tid, Place>, lock: Option<Tid>, t: Tid, p: Place, lock': Option<Tid>)
    requires Mutex(ps, lock) && t in ps
    requires lock' == if Holding(p) then Some(t) else if Holding(ps[t]) then None else lock
    requires Holding(p) && !Holding(ps[t]) ==> lock == None
    ensures Mutex(ps[t := p], lock')
  {
  }

  lemma MovedRequest(ps: map<Tid, Place>, t: Tid, p: Place, r: Request)
    requires t in ps
    ensures |Offering(ps[t := p], r)| == |Offering(ps, r)| - One(Offers(ps[t], r)) + One(Offers(p, r))
    ensures |Having(ps[t := p], r)| == |Having(ps, r)| - One(Has(ps[t], r)) + One(Has(p, r))
  {
    assert Offering(ps, r) - {t} == Offering(ps[t := p], r) - {t};
    assert Having(ps, r) - {t} == Having(ps[t := p], r) - {t};
    assert t in Offering(ps, r) <==> Offers(ps[t], r);
    assert t in Having(ps, r) <==> Has(ps[t], r);
    assert t in Offering(ps[t := p], r) <==> Offers(p, r);
    assert t in Having(ps[t := p], r) <==> Has(p, r);
    hide Offering, Having, Offers, Has;
    DifferInOne(Offering(ps, r), Offering(ps[t := p], r), t);
    DifferInOne(Having(ps, r), Having(ps[t := p], r), t);
  }

  lemma TimesMore(s: seq<Request>, x: Request, r: Request)
    ensures Times(s + [x], r) == Times(s, r) + One(x == r)
  {
  }

  // ---------- the pool as a state machine ----------

  /** The requests that were given to `append`, refused by it, put into the queue, taken out
      of it, and processed, each in the order in which that happened. */
  datatype History =
    History(called: seq<Request>, refused: seq<Request>, pushed: seq<Request>, popped: seq<Request>,
            processed: seq<Request>)

  datatype State =
    State(maxRequest: nat, queue: seq<Request>, sem: nat, lock: Option<Tid>, places: map<Tid, Place>, log: History)

  /** Whether the event can happen: `lock` waits for the mutex and `wait` for the semaphore. */
  predicate Possible(s: State, e: Event) {
    e.t in s.places &&
    match e
    case Call(t, _) => s.places[t] == Outside
    case Interrupt(t) => s.places[t] == Waiting
    case Step(t) =>
      match s.places[t]
      case Outside => false
      case Append(_) => s.lock == None
      case Waiting => s.sem > 0
      case Woken => s.lock == None
      case _ => true
  }

  /** The thread goes on to another place. */
  function Go(s: State, t: Tid, p: Place): State {
    s.(places := s.places[t := p],
       lock := if Holding(p) then Some(t) else if t in s.places && Holding(s.places[t]) then None else s.lock)
  }

  /** The state after the next step of a thread. */
  function Next(s: State, t: Tid): State
    requires Possible(s, Step(t))
  {
    match s.places[t]
    case Append(req) => Go(s, t, Checking(req))
    case Checking(req) =>
      if |s.queue| > s.maxRequest then Go(s.(log := s.log.(refused := s.log.refused + [req])), t, Full)
      else Go(s.(queue := s.queue + [req], log := s.log.(pushed := s.log.pushed + [req])), t, Pushed)
    case Full => Go(s, t, Outside)
    case Pushed => Go(s, t, Unlocked)
    case Unlocked => Go(s.(sem := s.sem + 1), t, Outside)
    case Waiting => Go(s.(sem := s.sem - 1), t, Woken)
    case Woken => Go(s, t, Inside)
    case Inside =>
      if s.queue == [] then Go(s, t, Empty)
      else Go(s.(queue := s.queue[1..], log := s.log.(popped := s.log.popped + [s.queue[0]])), t, Popped(s.queue[0]))
    case Empty => Go(s, t, Waiting)
    case Popped(req) => Go(s, t, if req == NULL then Waiting else Working(req))
    case Working(req) => Go(s.(log := s.log.(processed := s.log.processed + [req])), t, Waiting)
  }

  function After(s: State, e: Event): State
    requires Possible(s, e)
  {
    match e
    case Call(t, req) => Go(s.(log := s.log.(called := s.log.called + [req])), t, Append(req))
    case Interrupt(t) => Go(s, t, Woken)
    case Step(t) => Next(s, t)
  }

  /** The state after events in any order; those that cannot happen are skipped. */
  function AfterAll(s: State, events: seq<Event>): State {
    if events == [] then s
    else
      var n := |events| - 1;
      var s' := AfterAll(s, events[..n]);
      if Possible(s', events[n]) then After(s', events[n]) else s'
  }

  // ---------- no request is lost ----------

  /** Each request that was given to `append` is still on its way into the queue, was
      refused, or was put into the queue; each one that is no null pointer and was taken out
      is with a worker or was processed. */
  ghost predicate Balanced(s: State, r: Request) {
    && Times(s.log.called, r) == Times(s.log.refused, r) + Times(s.log.pushed, r) + |Offering(s.places, r)|
    && (r != NULL ==> Times(s.log.popped, r) == Times(s.log.processed, r) + |Having(s.places, r)|)
  }

  ghost predicate Kept(s: State) {
    && s.log.popped + s.queue == s.log.pushed
    && (forall r :: Balanced(s, r))
    && NULL !in s.log.processed && forall t :: t in s.places ==> s.places[t] != Working(NULL)
  }

  /** What an event adds to the history. */
  lemma LogMoves(s: State, e: Event, r: Request)
    requires Possible(s, e)
    ensures
      var p, log, log' := s.places[e.t], s.log, After(s, e).log;
      var checked := One(e.Step? && p == Checking(r));
      && Times(log'.called, r) == Times(log.called, r) + One(e.Call? && e.req == r)
      && Times(log'.refused, r) + Times(log'.pushed, r) == Times(log.refused, r) + Times(log.pushed, r) + checked
      && Times(log'.popped, r) == Times(log.popped, r) + One(e.Step? && p == Inside && s.queue != [] && s.queue[0] == r)
      && Times(log'.processed, r) == Times(log.processed, r) + One(e.Step? && p == Working(r))
  {
    hide Times, Holding;
    match e
    case Call(_, req) => TimesMore(s.log.called, req, r);
    case Interrupt(_) =>
    case Step(t) =>
      match s.places[t]
      case Checking(req) =>
        TimesMore(s.log.refused, req, r);
        TimesMore(s.log.pushed, req, r);
      case Inside =>
        if s.queue != [] {
          TimesMore(s.log.popped, s.queue[0], r);
        }
      case Working(req) => TimesMore(s.log.processed, req, r);
      case _ =>
  }

  /** Where an event takes the thread. */
  lemma PlaceMoves(s: State, e: Event, r: Request)
    requires Possible(s, e)
    ensures
      e.t in s.places &&
      var p, s' := s.places[e.t], After(s, e);
      && e.t in s'.places && s'.places == s.places[e.t := s'.places[e.t]]
      && var p' := s'.places[e.t];
      && One(Offers(p', r)) == One(Offers(p, r)) + One(e.Call? && e.req == r) - One(e.Step? && p == Checking(r))
      && (r != NULL ==>
          One(Has(p', r)) == One(Has(p, r)) + One(e.Step? && p == Inside && s.queue != [] && s.queue[0] == r)
            - One(e.Step? && p == Working(r)))
  {
    hide Holding;
  }

  lemma AfterBalanced(s: State, e: Event, r: Request)
    requires Balanced(s, r) && Possible(s, e)
    ensures Balanced(After(s, e), r)
  {
    hide Offering, Having, Times, After, Possible, Offers, Has;
    PlaceMoves(s, e, r);
    LogMoves(s, e, r);
    MovedRequest(s.places, e.t, After(s, e).places[e.t], r);
  }

  lemma AfterKept(s: State, e: Event)
    requires Kept(s) && Possible(s, e)
    ensures Kept(After(s, e))
  {
    var s' := After(s, e);
    forall r ensures Balanced(s', r) {
      AfterBalanced(s, e, r);
    }
    hide Balanced, Times, Holding;
    if e.Step? && s.places[e.t] == Inside && s.queue != [] {
      assert s.queue == [s.queue[0]] + s.queue[1..];
    }
  }

  /** When every thread is outside or waits and the queue is empty, every request that was
      given to `append` was refused or, unless it is a null pointer, processed. */
  lemma AllServed(s: State, r: Request)
    requires Kept(s) && s.queue == [] && r != NULL
    requires forall t :: t in s.places ==> s.places[t] == Outside || s.places[t] == Waiting
    ensures Times(s.log.called, r) == Times(s.log.refused, r) + Times(s.log.processed, r)
  {
    assert Balanced(s, r);
    assert Offering(s.places, r) == {} && Having(s.places, r) == {};
    assert s.log.popped + [] == s.log.popped;
  }

  function PlaceOf(s: State, t: Tid): Place {
    if t in s.places then s.places[t] else Outside
  }

  /** The semaphore and the queue change together, but for the threads between them. */
  lemma AfterCounts(s: State, e: Event)
    requires Possible(s, e)
    ensures
      var s' := After(s, e);
      var p, p' := s.places[e.t], PlaceOf(s', e.t);
      && s'.sem - |s'.queue| + One(e.Step? && p == Inside && s.queue == []) - One(e.Interrupt?) ==
         s.sem - |s.queue| + One(BeforePost(p)) - One(BeforePost(p')) + One(AfterWait(p)) - One(AfterWait(p'))
      && (|s.queue| <= s.maxRequest + 1 ==> |s'.queue| <= s.maxRequest + 1)
  {
    hide Holding;
  }

  /** Only the place of one thread changes, and the lock with it. */
  lemma AfterMoves(s: State, e: Event)
    requires Possible(s, e) && Mutex(s.places, s.lock)
    ensures
      var s' := After(s, e);
      && e.t in s'.places && s'.places == s.places[e.t := s'.places[e.t]]
      && s'.lock == (if Holding(s'.places[e.t]) then Some(e.t) else if Holding(s.places[e.t]) then None else s.lock)
      && (Holding(s'.places[e.t]) && !Holding(s.places[e.t]) ==> s.lock == None)
  {
  }

  class Pool {
    const maxRequest: nat
    var queue: seq<Request>
    var sem: nat
    var lock: Option<Tid>
    var places: map<Tid, Place>
    ghost var log: History
    ghost var interrupts: nat
    ghost var empties: nat

    ghost function Now(): State
      reads this
    {
      State(maxRequest, queue, sem, lock, places, log)
    }

    /** What holds after every step. */
    ghost predicate Valid()
      reads this
    {
      && Mutex(places, lock)
      && |queue| + interrupts == sem + |Producers(places)| + |Workers(places)| + empties
      && Kept(Now()) && |queue| <= maxRequest + 1
    }

    /** A pool with some threads that are outside of `append` and some workers. */
    constructor (maxRequest: nat, clients: set<Tid>, workers: set<Tid>)
      requires clients !! workers
      ensures Valid() && places.Keys == clients + workers && queue == [] && this.maxRequest == maxRequest
        && interrupts == empties == 0 && log == History([], [], [], [], [])
      ensures forall t :: t in clients ==> places[t] == Outside
      ensures forall t :: t in workers ==> places[t] == Waiting
    {
      this.maxRequest := maxRequest;
      queue, sem, lock := [], 0, None;
      places := map t | t in clients + workers :: if t in clients then Outside else Waiting;
      log, interrupts, empties := History([], [], [], [], []), 0, 0;
      new;
      assert Producers(places) == {} && Workers(places) == {};
      assert forall r :: Offering(places, r) == {} && Having(places, r) == {};
    }

    predicate Enabled(e: Event)
      reads this
      ensures Enabled(e) == Possible(Now(), e)
    {
      e.t in places &&
      match e
      case Call(t, _) => places[t] == Outside
      case Interrupt(t) => places[t] == Waiting
      case Step(t) =>
        match places[t]
        case Outside => false
        case Append(_) => lock == None
        case Waiting => sem > 0
        case Woken => lock == None
        case _ => true
    }

    /** The next step of a thread in `append`. */
    method AppendStep(t: Tid)
      requires Valid() && Enabled(Step(t)) && InAppend(places[t])
      modifies this`queue, this`sem, this`lock, this`places, this`log
      ensures Now() == Next(old(Now()), t)
    {
      assert Holding(places[t]) ==> lock == Some(t);
      hide Kept, Producers, Workers, Mutex;
      match places[t] {
        case Append(req) =>
          lock := Some(t);
          places := places[t := Checking(req)];
        case Checking(req) =>
          if |queue| > maxRequest {
            log := log.(refused := log.refused + [req]);
            places := places[t := Full];
          } else {
            queue := queue + [req];
            log := log.(pushed := log.pushed + [req]);
            places := places[t := Pushed];
          }
        case Full =>
          lock := None;
          places := places[t := Outside];
        case Pushed =>
          lock := None;
          places := places[t := Unlocked];
        case Unlocked =>
          sem := sem + 1;
          places := places[t := Outside];
      }
    }

    /** The next step of a worker in `run`. */
    method RunStep(t: Tid)
      requires Valid() && Enabled(Step(t)) && !InAppend(places[t])
      modifies this`queue, this`sem, this`lock, this`places, this`log, this`empties
      ensures Now() == Next(old(Now()), t)
      ensures empties == old(empties) + One(old(places)[t] == Inside && old(queue) == [])
    {
      assert Holding(places[t]) ==> lock == Some(t);
      hide Kept, Producers, Workers, Mutex;
      match places[t] {
        case Waiting =>
          sem := sem - 1;
          places := places[t := Woken];
        case Woken =>
          lock := Some(t);
          places := places[t := Inside];
        case Inside =>
          if queue == [] {
            empties := empties + 1;
            places := places[t := Empty];
          } else {
            var req := queue[0];
            queue := queue[1..];
            log := log.(popped := log.popped + [req]);
            places := places[t := Popped(req)];
          }
        case Empty =>
          lock := None;
          places := places[t := Waiting];
        case Popped(req) =>
          lock := None;
          places := places[t := if req == NULL then Waiting else Working(req)];
        case Working(req) =>
          log := log.(processed := log.processed + [req]);
          places := places[t := Waiting];
      }
    }

    /** One event. */
    method Happen(e: Event)
      requires Valid() && Enabled(e)
      modifies this
      ensures Valid() && Now() == After(old(Now()), e)
      ensures interrupts == old(interrupts) + One(e.Interrupt?)
      ensures old(empties) <= empties <= old(empties) + 1 && (empties > old(empties) ==> old(empties) < interrupts)
    {
      var t := e.t;
      hide Mutex, Kept, Producers, Workers, Next;
      ghost var before := Now();
      match e {
        case Call(_, req) =>
          log := log.(called := log.called + [req]);
          places := places[t := Append(req)];
        case Interrupt(_) =>
          interrupts := interrupts + 1;
          places := places[t := Woken];
        case Step(_) =>
          if places[t] == Inside {
            NotEmpty(t);
          }
          if InAppend(places[t]) {
            AppendStep(t);
          } else {
            RunStep(t);
          }
      }
      AfterKept(before, e);
      AfterMoves(before, e);
      AfterCounts(before, e);
      Moved(before.places, t, places[t]);
      MutexMoved(before.places, before.lock, t, places[t], lock);
    }

    /** Events in any order; those that cannot happen are skipped. As long as no `wait` is
        interrupted, no worker ever finds the queue empty; with interruptions, not more
        often than there were interruptions. The requests leave the queue in the order in
        which they entered it, each once, and none is lost. */
    method Run(events: seq<Event>)
      requires Valid() && empties <= interrupts
      modifies this
      ensures Valid() && Now() == AfterAll(old(Now()), events) && empties <= interrupts
      ensures log.popped + queue == log.pushed && forall r :: Balanced(Now(), r)
      ensures (forall i :: 0 <= i < |events| ==> !events[i].Interrupt?) && old(interrupts) == 0 ==> empties == 0
    {
      hide After, Possible, Mutex, Producers, Workers, Balanced;
      var i := 0;
      while i < |events|
        invariant i <= |events| && Valid() && Now() == AfterAll(old(Now()), events[..i]) && empties <= interrupts
        invariant (forall j :: 0 <= j < i ==> !events[j].Interrupt?) && old(interrupts) == 0 ==> interrupts == 0
      {
        if Enabled(events[i]) {
          Happen(events[i]);
        }
        assert events[..i + 1][..i] == events[..i];
        i := i + 1;
      }
      assert events[..i] == events;
    }

    /** A worker that holds the lock finds a request, unless a `wait` was interrupted more
        often than a worker found the queue empty. */
    lemma NotEmpty(t: Tid)
      requires Valid() && t in places && places[t] == Inside
      ensures queue == [] ==> empties < interrupts
    {
      assert t in Workers(places);
      assert |Workers(places)| > 0 by {
        assert Workers(places) != {};
      }
    }

    /** No wakeup is lost: while there are requests in the queue and none of the threads is
        just on its way, the semaphore lets a worker through. */
    lemma NoLostWakeup()
      requires Valid() && empties <= interrupts && queue != []
      requires forall t :: t in places ==> !BeforePost(places[t]) && !AfterWait(places[t])
      ensures sem > 0
    {
      assert Producers(places) == {} && Workers(places) == {};
    }

    /** While there are requests in the queue and there is a worker, some thread can take a
        step. */
    lemma Progress(w: Tid)
      requires Valid() && queue != [] && empties <= interrupts
      requires w in places && (places[w].Waiting? || places[w].Woken? || places[w].Inside? || places[w].Empty?
        || places[w].Popped? || places[w].Working?)
      ensures exists t :: t in places && Enabled(Step(t))
    {
      if lock.Some? {
        assert Enabled(Step(lock.value));
      } else if places[w].Working? || places[w].Woken? {
        assert Enabled(Step(w));
      } else if exists t :: t in places && (BeforePost(places[t]) || AfterWait(places[t])) {
        var t :| t in places && (BeforePost(places[t]) || AfterWait(places[t]));
        assert Enabled(Step(t));
      } else {
        NoLostWakeup();
        assert Enabled(Step(w));
      }
    }
  }
}
