/** The bounded pool of reader handles, as a step system over all thread interleavings.

    A checkout takes a slot or gives up after a bounded wait; a slot owner takes the most
    recently pooled handle or opens one when the pool is empty; a checkout without a slot
    opens a transient handle. Check-in pools or closes the handle, and then the slot is
    released. The steps are the points at which threads can interleave. */
module ReaderPool {
  datatype Thread = Thread(id: int)
  datatype Handle = Handle(id: int)

  /** Where a thread is inside `connect`. The first four places own a slot. */
  datatype Place =
    | Slotted
    | Opening
    | Using(h: Handle)
    | Releasing
    | OpeningTransient
    | Transient(h: Handle)

  /** `closed` and `everTransient` are history, and `leaked` counts the slots lost to opens that
      failed; the rest is the state the code keeps. */
  datatype State = State(
    size: nat,
    free: nat,
    pool: seq<Handle>,
    at: map<Thread, Place>,
    leaked: nat,
    next: int,
    disposed: bool,
    closed: set<Handle>,
    everTransient: set<Handle>)

  datatype Event =
    | Acquire(t: Thread)          // the semaphore granted a slot
    | TimeOut(t: Thread)          // no slot in time
    | TakePooled(t: Thread)       // get_nowait found a handle
    | FindEmpty(t: Thread)        // get_nowait raised Empty
    | Opened(t: Thread)
    | OpenFailed(t: Thread)
    | OpenedTransient(t: Thread)
    | OpenTransientFailed(t: Thread)
    | CheckIn(t: Thread, broken: bool)
    | CheckInTransient(t: Thread)
    | Release(t: Thread)
    | Dispose
    | DrainOne

  function Initial(size: nat): State {
    State(size, size, [], map[], 0, 0, false, {}, {})
  }

  predicate At(s: State, t: Thread, p: Place) {
    t in s.at && s.at[t] == p
  }

  predicate Enabled(s: State, e: Event) {
    match e
    case Acquire(t) => t !in s.at && s.free > 0
    case TimeOut(t) => t !in s.at
    case TakePooled(t) => At(s, t, Slotted) && s.pool != []
    case FindEmpty(t) => At(s, t, Slotted) && s.pool == []
    case Opened(t) => At(s, t, Opening)
    case OpenFailed(t) => At(s, t, Opening)
    case OpenedTransient(t) => At(s, t, OpeningTransient)
    case OpenTransientFailed(t) => At(s, t, OpeningTransient)
    case CheckIn(t, _) => t in s.at && s.at[t].Using?
    case CheckInTransient(t) => t in s.at && s.at[t].Transient?
    case Release(t) => At(s, t, Releasing)
    case Dispose => !s.disposed
    case DrainOne => s.disposed && s.pool != []
  }

  /** The handle goes back to the pool: not closed for breakage or disposal, and the bounded
      queue is not full. */
  predicate Pools(s: State, broken: bool) {
    !s.disposed && !broken && |s.pool| < s.size
  }

  /** An open that fails leaves `connect` before its release is armed: the slot is gone. */
  function Step(s: State, e: Event): State
    requires Enabled(s, e)
  {
    match e
    case Acquire(t) => s.(free := s.free - 1, at := s.at[t := Slotted])
    case TimeOut(t) => s.(at := s.at[t := OpeningTransient])
    case TakePooled(t) =>
      var n := |s.pool| - 1;
      s.(at := s.at[t := Using(s.pool[n])], pool := s.pool[..n])
    case FindEmpty(t) => s.(at := s.at[t := Opening])
    case Opened(t) => s.(at := s.at[t := Using(Handle(s.next))], next := s.next + 1)
    case OpenFailed(t) => s.(at := s.at - {t}, leaked := s.leaked + 1)
    case OpenedTransient(t) =>
      s.(at := s.at[t := Transient(Handle(s.next))], next := s.next + 1, everTransient := s.everTransient + {Handle(s.next)})
    case OpenTransientFailed(t) => s.(at := s.at - {t})
    case CheckIn(t, broken) =>
      var u := s.(at := s.at[t := Releasing]);
      if Pools(s, broken) then u.(pool := s.pool + [s.at[t].h]) else u.(closed := s.closed + {s.at[t].h})
    case CheckInTransient(t) => s.(at := s.at - {t}, closed := s.closed + {s.at[t].h})
    case Release(t) => s.(at := s.at - {t}, free := s.free + 1)
    case Dispose => s.(disposed := true)
    case DrainOne =>
      var n := |s.pool| - 1;
      s.(pool := s.pool[..n], closed := s.closed + {s.pool[n]})
  }

  // ---------------------------------------------------------------------
  // The invariant
  // ---------------------------------------------------------------------

  /** Threads that own a slot. */
  function Owners(s: State): set<Thread> {
    set t | t in s.at && !s.at[t].OpeningTransient? && !s.at[t].Transient?
  }

  /** Slot owners with a handle, or with one being opened. */
  function Holders(s: State): set<Thread> {
    set t | t in s.at && (s.at[t].Using? || s.at[t].Opening?)
  }

  /** Every slot is free, owned by one checkout, or lost to a failed open. */
  ghost predicate SlotsConserved(s: State) {
    s.free + |Owners(s)| + s.leaked == s.size
  }

  /** The bound: pooled handles, slot-owned handles and opens in progress. */
  ghost predicate Bounded(s: State) {
    |s.pool| + |Holders(s)| <= s.size
  }

  predicate Holding(s: State, t: Thread) {
    t in s.at && (s.at[t].Using? || s.at[t].Transient?)
  }

  /** A handle is in the pool (once), in one checkout, or closed. */
  ghost predicate OnePlace(s: State) {
    && (forall i, j :: 0 <= i < j < |s.pool| ==> s.pool[i] != s.pool[j])
    && (forall h :: h in s.pool ==> h !in s.closed && h.id < s.next)
    && (forall h :: h in s.closed ==> h.id < s.next)
    && (forall t :: Holding(s, t) ==> s.at[t].h !in s.pool && s.at[t].h !in s.closed && s.at[t].h.id < s.next)
    && (forall t, u :: Holding(s, t) && Holding(s, u) && t != u ==> s.at[t].h != s.at[u].h)
  }

  ghost predicate TransientsStayOut(s: State) {
    && (forall h :: h in s.everTransient ==> h.id < s.next && h !in s.pool)
    && (forall t :: t in s.at && s.at[t].Using? ==> s.at[t].h !in s.everTransient)
    && (forall t :: t in s.at && s.at[t].Transient? ==> s.at[t].h in s.everTransient)
  }

  ghost predicate Inv(s: State) {
    SlotsConserved(s) && Bounded(s) && PlacesOk(s)
  }

  /** The states differ only in where thread `t` is. */
  ghost predicate OnlyMoves(s: State, u: State, t: Thread) {
    forall x :: x != t ==> (x in s.at <==> x in u.at) && (x in s.at ==> u.at[x] == s.at[x])
  }

  function One(b: bool): nat {
    if b then 1 else 0
  }

  lemma Without(S: set<Thread>, t: Thread)
    ensures |S| == |S - {t}| + One(t in S)
  {
    if t in S {
      assert S == (S - {t}) + {t};
    } else {
      assert S == S - {t};
    }
  }

  lemma RecountOwners(s: State, u: State, t: Thread)
    requires OnlyMoves(s, u, t)
    ensures |Owners(u)| == |Owners(s)| + One(t in Owners(u)) - One(t in Owners(s))
  {
    assert Owners(u) - {t} == Owners(s) - {t};
    Without(Owners(s), t);
    Without(Owners(u), t);
  }

  lemma RecountHolders(s: State, u: State, t: Thread)
    requires OnlyMoves(s, u, t)
    ensures |Holders(u)| == |Holders(s)| + One(t in Holders(u)) - One(t in Holders(s))
  {
    assert Holders(u) - {t} == Holders(s) - {t};
    Without(Holders(s), t);
    Without(Holders(u), t);
  }

  lemma HoldersOwn(s: State)
    ensures |Holders(s)| <= |Owners(s)|
  {
    assert Owners(s) == Holders(s) + (Owners(s) - Holders(s));
  }

  lemma StepKeepsSlots(s: State, e: Event)
    requires SlotsConserved(s) && Enabled(s, e)
    ensures SlotsConserved(Step(s, e))
  {
    var u := Step(s, e);
    if e.Dispose? || e.DrainOne? {
      assert Owners(u) == Owners(s);
    } else {
      RecountOwners(s, u, e.t);
    }
  }

  lemma StepKeepsBound(s: State, e: Event)
    requires SlotsConserved(s) && Bounded(s) && Enabled(s, e)
    ensures Bounded(Step(s, e))
  {
    var u := Step(s, e);
    if e.Dispose? || e.DrainOne? {
      assert Holders(u) == Holders(s);
    } else {
      RecountHolders(s, u, e.t);
      StepKeepsSlots(s, e);
      HoldersOwn(u);
    }
  }

  ghost predicate PlacesOk(s: State) {
    OnePlace(s) && TransientsStayOut(s)
  }

  /** A thread that lets go of its handle, or takes none, keeps the places. */
  lemma LetsGo(s: State, u: State, t: Thread)
    requires PlacesOk(s) && OnlyMoves(s, u, t) && !Holding(u, t)
    requires u.pool == s.pool && u.closed == s.closed && u.next == s.next && u.everTransient == s.everTransient
    ensures PlacesOk(u)
  {
    assert forall x :: Holding(u, x) ==> Holding(s, x) && x != t;
  }

  /** A handle nobody holds may be given to a thread that holds none. */
  lemma Takes(s: State, u: State, t: Thread, h: Handle)
    requires PlacesOk(s) && OnlyMoves(s, u, t) && !Holding(s, t)
    requires Holding(u, t) && u.at[t].h == h && h !in s.pool && h !in s.closed && h.id < u.next
    requires forall x :: Holding(s, x) ==> s.at[x].h != h
    requires u.pool == s.pool && u.closed == s.closed && s.next <= u.next
    requires u.everTransient == if u.at[t].Transient? then s.everTransient + {h} else s.everTransient
    requires u.at[t].Using? ==> h !in s.everTransient
    ensures PlacesOk(u)
  {
    assert forall x :: x != t ==> (Holding(u, x) <==> Holding(s, x));
  }

  /** A handle nobody holds may be pooled or closed. */
  lemma PutsAway(s: State, u: State, h: Handle)
    requires PlacesOk(s) && h !in s.pool && h !in s.closed && h.id < s.next
    requires forall x :: Holding(s, x) ==> s.at[x].h != h
    requires u.at == s.at && u.next == s.next && u.everTransient == s.everTransient
    requires || (u.pool == s.pool + [h] && u.closed == s.closed && h !in s.everTransient)
             || (u.pool == s.pool && u.closed == s.closed + {h})
    ensures PlacesOk(u)
  {
    assert forall x :: Holding(u, x) <==> Holding(s, x);
    assert forall g :: g in s.pool + [h] <==> g in s.pool || g == h;
  }

  /** Taking the top handle out of the pool leaves it unheld. */
  lemma Unpools(s: State, u: State)
    requires PlacesOk(s) && s.pool != [] && u == s.(pool := s.pool[..|s.pool| - 1])
    ensures PlacesOk(u)
    ensures var h := s.pool[|s.pool| - 1];
            && h !in u.pool && h !in u.closed && h.id < u.next && h !in u.everTransient
            && forall x :: Holding(u, x) ==> u.at[x].h != h
  {
    assert forall x :: Holding(u, x) <==> Holding(s, x);
  }

  /** A thread that lets go of its handle while the handle is pooled or closed. */
  lemma GivesBack(s: State, u: State, t: Thread)
    requires PlacesOk(s) && OnlyMoves(s, u, t) && Holding(s, t) && !Holding(u, t)
    requires u.next == s.next && u.everTransient == s.everTransient
    requires var h := s.at[t].h;
             || (s.at[t].Using? && u.pool == s.pool + [h] && u.closed == s.closed)
             || (u.pool == s.pool && u.closed == s.closed + {h})
    ensures PlacesOk(u)
  {
    var mid := u.(pool := s.pool, closed := s.closed);
    LetsGo(s, mid, t);
    assert forall x :: Holding(mid, x) ==> Holding(s, x) && x != t;
    PutsAway(mid, u, s.at[t].h);
  }

  lemma TakePooledKeepsPlaces(s: State, t: Thread)
    requires PlacesOk(s) && Enabled(s, TakePooled(t))
    ensures PlacesOk(Step(s, TakePooled(t)))
  {
    var mid := s.(pool := s.pool[..|s.pool| - 1]);
    Unpools(s, mid);
    Takes(mid, Step(s, TakePooled(t)), t, s.pool[|s.pool| - 1]);
  }

  lemma CheckInKeepsPlaces(s: State, t: Thread, broken: bool)
    requires PlacesOk(s) && Enabled(s, CheckIn(t, broken))
    ensures PlacesOk(Step(s, CheckIn(t, broken)))
  {
    GivesBack(s, Step(s, CheckIn(t, broken)), t);
  }

  lemma DrainKeepsPlaces(s: State)
    requires PlacesOk(s) && Enabled(s, DrainOne)
    ensures PlacesOk(Step(s, DrainOne))
  {
    var mid := s.(pool := s.pool[..|s.pool| - 1]);
    Unpools(s, mid);
    PutsAway(mid, Step(s, DrainOne), s.pool[|s.pool| - 1]);
  }

  lemma StepKeepsPlaces(s: State, e: Event)
    requires PlacesOk(s) && Enabled(s, e)
    ensures PlacesOk(Step(s, e))
  {
    var u := Step(s, e);
    match e
    case TakePooled(t) => TakePooledKeepsPlaces(s, t);
    case DrainOne => DrainKeepsPlaces(s);
    case Opened(t) => Takes(s, u, t, Handle(s.next));
    case OpenedTransient(t) => Takes(s, u, t, Handle(s.next));
    case CheckIn(t, broken) => CheckInKeepsPlaces(s, t, broken);
    case CheckInTransient(t) => GivesBack(s, u, t);
    case Dispose => assert forall x :: Holding(u, x) <==> Holding(s, x);
    case _ => LetsGo(s, u, e.t);
  }

  /** The handle is pooled, closed, or in some thread's hands. */
  ghost predicate Somewhere(s: State, h: Handle) {
    h in s.pool || h in s.closed || exists t :: Holding(s, t) && s.at[t].h == h
  }

  ghost predicate NoneLost(s: State) {
    forall h: Handle :: 0 <= h.id < s.next ==> Somewhere(s, h)
  }

  lemma StaysSomewhere(s: State, e: Event, h: Handle)
    requires Enabled(s, e) && Somewhere(s, h)
    ensures Somewhere(Step(s, e), h)
  {
    var u := Step(s, e);
    if h in s.pool {
      if h !in u.pool && e.TakePooled? {
        assert Holding(u, e.t) && u.at[e.t].h == h;
      }
    } else if h !in s.closed {
      var t :| Holding(s, t) && s.at[t].h == h;
      if !Holding(u, t) {
        assert h in u.closed || u.pool == s.pool + [h];
      } else {
        assert u.at[t].h == h;
      }
    }
  }

  lemma StepLosesNone(s: State, e: Event)
    requires NoneLost(s) && Enabled(s, e)
    ensures NoneLost(Step(s, e))
  {
    var u := Step(s, e);
    forall h: Handle | 0 <= h.id < u.next
      ensures Somewhere(u, h)
    {
      if h.id < s.next {
        StaysSomewhere(s, e, h);
      } else {
        assert h == Handle(s.next) && Holding(u, e.t) && u.at[e.t].h == h;
      }
    }
  }

  // ---------------------------------------------------------------------
  // Whole runs
  // ---------------------------------------------------------------------

  predicate IsRun(s: State, run: seq<Event>)
    decreases |run|
  {
    run == [] || (Enabled(s, run[0]) && IsRun(Step(s, run[0]), run[1..]))
  }

  function After(s: State, run: seq<Event>): State
    requires IsRun(s, run)
    decreases |run|
  {
    if run == [] then s else After(Step(s, run[0]), run[1..])
  }

  lemma {:induction false} RunKeepsInv(s: State, run: seq<Event>)
    requires Inv(s) && NoneLost(s) && IsRun(s, run)
    ensures Inv(After(s, run)) && NoneLost(After(s, run)) && After(s, run).size == s.size
    decreases |run|
  {
    if run != [] {
      StepKeepsSlots(s, run[0]);
      StepKeepsBound(s, run[0]);
      StepKeepsPlaces(s, run[0]);
      StepLosesNone(s, run[0]);
      RunKeepsInv(Step(s, run[0]), run[1..]);
    }
  }

  /** Under every interleaving of any number of threads: pooled handles, slot-owned handles
      and opens in progress never exceed the pool size, every handle ever opened is in exactly
      one place (pooled, held or closed), and a transient handle never reaches the pool or a
      slot owner. */
  lemma EveryRunIsBounded(size: nat, run: seq<Event>)
    requires IsRun(Initial(size), run)
    ensures var s := After(Initial(size), run);
            && |s.pool| + |Holders(s)| <= size
            && PlacesOk(s) && NoneLost(s)
  {
    RunKeepsInv(Initial(size), run);
  }

  /** The queue-full branch of check-in is unreachable, so an unbroken handle is always pooled
      again while the pool is open, and a release never overfills the bounded semaphore. */
  lemma NeverFull(size: nat, run: seq<Event>, t: Thread)
    requires IsRun(Initial(size), run) && t in After(Initial(size), run).at
    ensures var s := After(Initial(size), run);
            && (s.at[t].Using? ==> |s.pool| < s.size)
            && (s.at[t].Using? && !s.disposed ==> s.at[t].h in Step(s, CheckIn(t, false)).pool)
            && (s.at[t].Releasing? ==> s.free < s.size)
  {
    RunKeepsInv(Initial(size), run);
    NeverFullIn(After(Initial(size), run), t);
  }

  lemma NeverFullIn(s: State, t: Thread)
    requires SlotsConserved(s) && Bounded(s) && t in s.at
    ensures s.at[t].Using? ==> |s.pool| < s.size
    ensures s.at[t].Releasing? ==> s.free < s.size
  {
    Without(Holders(s), t);
    Without(Owners(s), t);
  }

  /** Closed handles stay closed, and a disposed pool stays disposed. */
  lemma {:induction false} ClosedStays(s: State, run: seq<Event>)
    requires IsRun(s, run)
    ensures s.closed <= After(s, run).closed && (s.disposed ==> After(s, run).disposed)
    decreases |run|
  {
    if run != [] {
      ClosedStays(Step(s, run[0]), run[1..]);
    }
  }

  /** A handle that is checked in broken, or into a disposed pool, is closed, and in no
      continuation of the run is it pooled or held again. */
  lemma DeadHandlesStayOut(size: nat, run: seq<Event>, t: Thread, broken: bool, rest: seq<Event>)
    requires IsRun(Initial(size), run) && Enabled(After(Initial(size), run), CheckIn(t, broken))
    requires broken || After(Initial(size), run).disposed
    requires IsRun(Step(After(Initial(size), run), CheckIn(t, broken)), rest)
    ensures var s := After(Initial(size), run);
            var u := After(Step(s, CheckIn(t, broken)), rest);
            && s.at[t].h in u.closed && s.at[t].h !in u.pool
            && forall x :: Holding(u, x) ==> u.at[x].h != s.at[t].h
  {
    var s := After(Initial(size), run);
    var v := Step(s, CheckIn(t, broken));
    RunKeepsInv(Initial(size), run);
    StepKeepsSlots(s, CheckIn(t, broken));
    StepKeepsBound(s, CheckIn(t, broken));
    StepKeepsPlaces(s, CheckIn(t, broken));
    StepLosesNone(s, CheckIn(t, broken));
    RunKeepsInv(v, rest);
    ClosedStays(v, rest);
  }

  /** From the moment of disposal on, every checked-in handle is closed for good. */
  lemma DisposedPoolCloses(size: nat, run: seq<Event>, later: seq<Event>, t: Thread, broken: bool)
    requires IsRun(Initial(size), run) && Enabled(After(Initial(size), run), Dispose)
    requires IsRun(Step(After(Initial(size), run), Dispose), later)
    requires Enabled(After(Step(After(Initial(size), run), Dispose), later), CheckIn(t, broken))
    ensures var s := After(Step(After(Initial(size), run), Dispose), later);
            var u := Step(s, CheckIn(t, broken));
            s.at[t].h in u.closed && u.pool == s.pool
  {
    ClosedStays(Step(After(Initial(size), run), Dispose), later);
  }

  /** The pool is last in, first out: a handle put back into an open pool is the next one that
      a slot owner takes from it. */
  lemma LastInFirstOut(size: nat, run: seq<Event>, t: Thread, x: Thread)
    requires IsRun(Initial(size), run)
    requires var s := After(Initial(size), run); Enabled(s, CheckIn(t, false)) && !s.disposed && At(s, x, Slotted)
    ensures var s := After(Initial(size), run);
            var u := Step(s, CheckIn(t, false));
            Enabled(u, TakePooled(x)) && Step(u, TakePooled(x)).at[x] == Using(s.at[t].h) && Step(u, TakePooled(x)).pool == s.pool
  {
    NeverFull(size, run, t);
  }

  /** A thread outside a checkout gets a slot at once unless every slot is owned or was lost, and
      a transient handle otherwise; inside one it always has a next step. */
  ghost predicate CanMove(s: State, t: Thread) {
    if t !in s.at then Enabled(s, TimeOut(t)) && (Enabled(s, Acquire(t)) <==> |Owners(s)| + s.leaked < s.size)
    else match s.at[t]
         case Slotted => Enabled(s, if s.pool != [] then TakePooled(t) else FindEmpty(t))
         case Opening => Enabled(s, Opened(t)) && Enabled(s, OpenFailed(t))
         case Using(_) => Enabled(s, CheckIn(t, true)) && Enabled(s, CheckIn(t, false))
         case Releasing => Enabled(s, Release(t))
         case OpeningTransient => Enabled(s, OpenedTransient(t)) && Enabled(s, OpenTransientFailed(t))
         case Transient(_) => Enabled(s, CheckInTransient(t))
  }

  lemma ThreadMoves(s: State, t: Thread)
    requires SlotsConserved(s)
    ensures CanMove(s, t)
  {}

  /** No thread is ever stuck. */
  lemma EveryThreadCanMove(size: nat, run: seq<Event>, t: Thread)
    requires IsRun(Initial(size), run)
    ensures CanMove(After(Initial(size), run), t)
  {
    RunKeepsInv(Initial(size), run);
    ThreadMoves(After(Initial(size), run), t);
  }

  /** Slots lost to failed opens never come back, and nothing else loses one. */
  lemma {:induction false} LeakedStays(s: State, run: seq<Event>)
    requires IsRun(s, run)
    ensures s.leaked <= After(s, run).leaked
    ensures s.leaked == After(s, run).leaked <==> forall e :: e in run ==> !e.OpenFailed?
    decreases |run|
  {
    if run != [] {
      LeakedStays(Step(s, run[0]), run[1..]);
      assert forall e :: e in run <==> e == run[0] || e in run[1..];
    }
  }

  /** When no slot is owned all slots are free if and only if no open of a slot owner failed
      in the run; once `size` of them have failed there is no slot left to own. */
  lemma SlotsReturnUnlessOpenFails(size: nat, run: seq<Event>)
    requires IsRun(Initial(size), run)
    ensures var s := After(Initial(size), run);
            && (Owners(s) == {} ==> (s.free == size <==> forall e :: e in run ==> !e.OpenFailed?))
            && (s.leaked == size ==> s.free == 0 && Owners(s) == {})
  {
    RunKeepsInv(Initial(size), run);
    LeakedStays(Initial(size), run);
  }
}
