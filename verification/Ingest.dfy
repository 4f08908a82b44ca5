/** The ingest pipeline: drain workers parse batches and wait for a credit, a queue hands
    batches to one persister, and the persister calls the sink, publishes, and gives the
    credit back. The steps are the points at which the event loop can switch tasks. */
module Ingest {
  import opened Options

  /** A parsed batch of validated rows. */
  datatype Batch = Batch(id: int, size: nat)

  datatype Item = Work(batch: Batch) | ExitSentinel

  datatype Persister =
    | Waiting
    | InSink(batch: Batch)
    | Returned(batch: Batch)     // the sink call returned, nothing published yet
    | Finishing(batch: Batch)    // published, or the sink or the publisher raised
    | Exited

  /** What became of a batch taken from the queue, so far. */
  datatype Fate = Pending | Stored | Dropped | Raised

  /** The counters and queues of the code, and after them history: `lost` counts rows whose
      wait for a credit was cancelled, `puts` and `taken` are the batches queued and taken in
      order, `fates` and `published` tell what happened to taken batches by position, and
      `sealed` is how many batches were queued when the exit sentinel was. */
  datatype State = State(
    pendingMax: nat,
    credits: nat,
    waiting: seq<Batch>,
    putting: seq<Batch>,
    queue: seq<Item>,
    persister: Persister,
    received: nat,
    stored: nat,
    dropped: nat,
    enqueued: nat,
    persisted: nat,
    failed: nat,
    lost: nat,
    puts: seq<Batch>,
    taken: seq<Batch>,
    fates: seq<Fate>,
    published: seq<nat>,
    sealed: Option<nat>)

  datatype Event =
    | Parse(batch: Batch)
    | Acquire(i: nat)            // a waiting producer gets a credit
    | CancelWait(i: nat)
    | Put(i: nat)
    | Take
    | SinkReturns(ok: bool)      // the sink committed the rows, or accounted them as dropped
    | SinkRaises
    | Publish
    | PublishRaises
    | Finish
    | SendExit
    | TakeExit

  function Initial(pendingMax: nat): State {
    State(pendingMax, pendingMax, [], [], [], Waiting, 0, 0, 0, 0, 0, 0, 0, [], [], [], [], None)
  }

  predicate Enabled(s: State, e: Event) {
    match e
    case Parse(batch) => batch.size > 0
    case Acquire(i) => i < |s.waiting| && s.credits > 0
    case CancelWait(i) => i < |s.waiting|
    case Put(i) => i < |s.putting|
    case Take => s.persister.Waiting? && s.queue != [] && s.queue[0].Work?
    case SinkReturns(_) => s.persister.InSink? && s.taken != [] && |s.fates| == |s.taken|
    case SinkRaises => s.persister.InSink? && s.taken != [] && |s.fates| == |s.taken|
    case Publish => s.persister.Returned? && s.taken != []
    case PublishRaises => s.persister.Returned?
    case Finish => s.persister.Finishing?
    case SendExit => s.putting == [] && s.sealed.None?
    case TakeExit => s.persister.Waiting? && s.queue != [] && s.queue[0].ExitSentinel?
  }

  function Remove<T>(xs: seq<T>, i: nat): seq<T>
    requires i < |xs|
  {
    xs[..i] + xs[i + 1..]
  }

  function Step(s: State, e: Event): State
    requires Enabled(s, e)
  {
    match e
    case Parse(batch) => s.(received := s.received + batch.size, waiting := s.waiting + [batch])
    case Acquire(i) =>
      s.(credits := s.credits - 1, waiting := Remove(s.waiting, i), putting := s.putting + [s.waiting[i]])
    case CancelWait(i) => s.(waiting := Remove(s.waiting, i), lost := s.lost + s.waiting[i].size)
    case Put(i) =>
      s.(putting := Remove(s.putting, i), queue := s.queue + [Work(s.putting[i])], enqueued := s.enqueued + 1,
         puts := s.puts + [s.putting[i]])
    case Take =>
      var b := s.queue[0].batch;
      s.(queue := s.queue[1..], persister := InSink(b), taken := s.taken + [b], fates := s.fates + [Pending])
    case SinkReturns(ok) =>
      var b := s.persister.batch;
      var n := |s.taken| - 1;
      var u := s.(persister := Returned(b), fates := s.fates[n := if ok then Stored else Dropped]);
      if ok then u.(stored := s.stored + b.size) else u.(dropped := s.dropped + b.size)
    case SinkRaises =>
      var b := s.persister.batch;
      s.(persister := Finishing(b), fates := s.fates[|s.taken| - 1 := Raised], failed := s.failed + b.size)
    case Publish => s.(persister := Finishing(s.persister.batch), published := s.published + [|s.taken| - 1])
    case PublishRaises => s.(persister := Finishing(s.persister.batch))
    case Finish => s.(persister := Waiting, persisted := s.persisted + 1, credits := s.credits + 1)
    case SendExit => s.(queue := s.queue + [ExitSentinel], sealed := Some(|s.puts|))
    case TakeExit => s.(queue := s.queue[1..], persister := Exited)
  }

  // ---------------------------------------------------------------------
  // Quantities
  // ---------------------------------------------------------------------

  function Rows(bs: seq<Batch>): nat {
    if bs == [] then 0 else Rows(bs[..|bs| - 1]) + bs[|bs| - 1].size
  }

  lemma {:induction false} RowsConcat(a: seq<Batch>, b: seq<Batch>)
    ensures Rows(a + b) == Rows(a) + Rows(b)
  {
    if b == [] {
      assert a + b == a;
    } else {
      var n := |b| - 1;
      assert (a + b)[..|a + b| - 1] == a + b[..n];
      RowsConcat(a, b[..n]);
    }
  }

  lemma RowsOne(b: Batch)
    ensures Rows([b]) == b.size
  {
    assert [b][..0] == [];
  }

  lemma {:induction false} RowsAppend(bs: seq<Batch>, b: Batch)
    ensures Rows(bs + [b]) == Rows(bs) + b.size
  {
    RowsConcat(bs, [b]);
    RowsOne(b);
  }

  lemma {:induction false} RowsAround(a: seq<Batch>, b: Batch, c: seq<Batch>)
    ensures Rows((a + [b]) + c) == Rows(a + c) + b.size
  {
    RowsConcat(a + [b], c);
    RowsAppend(a, b);
    RowsConcat(a, c);
  }

  lemma {:induction false} RowsRemove(bs: seq<Batch>, i: nat)
    requires i < |bs|
    ensures Rows(bs) == Rows(Remove(bs, i)) + bs[i].size
  {
    RowsAround(bs[..i], bs[i], bs[i + 1..]);
    assert bs == (bs[..i] + [bs[i]]) + bs[i + 1..];
  }

  function Works(bs: seq<Batch>): seq<Item> {
    seq(|bs|, i requires 0 <= i < |bs| => Work(bs[i]))
  }

  /** Batches put and not yet taken. */
  function Queued(s: State): seq<Batch>
    requires |s.taken| <= |s.puts|
  {
    s.puts[|s.taken|..]
  }

  function Busy(p: Persister): nat {
    if p.InSink? || p.Returned? || p.Finishing? then 1 else 0
  }

  /** Rows in the sink call and not yet accounted by it. */
  function InSinkRows(p: Persister): nat {
    if p.InSink? then p.batch.size else 0
  }

  // ---------------------------------------------------------------------
  // The invariant
  // ---------------------------------------------------------------------

  /** Batches are taken in the order they were put, and the queue holds the rest, with the
      sentinel behind the batches put before it. */
  ghost predicate InOrder(s: State) {
    && s.taken <= s.puts
    && (match s.sealed
        case None => !s.persister.Exited? && s.queue == Works(Queued(s))
        case Some(k) =>
          && |s.taken| <= k <= |s.puts|
          && (if s.persister.Exited? then |s.taken| == k && s.queue == Works(s.puts[k..])
              else s.queue == Works(s.puts[|s.taken|..k]) + [ExitSentinel] + Works(s.puts[k..])))
  }

  /** Free credits and outstanding batches make up the bound. */
  ghost predicate CreditsConserved(s: State) {
    |s.taken| <= |s.puts| && s.credits + |s.putting| + |Queued(s)| + Busy(s.persister) == s.pendingMax
  }

  /** Every row received is stored, dropped, in flight, or known to be lost. */
  ghost predicate RowsConserved(s: State) {
    && |s.taken| <= |s.puts|
    && s.received == s.stored + s.dropped + s.failed + s.lost
                     + Rows(s.waiting) + Rows(s.putting) + Rows(Queued(s)) + InSinkRows(s.persister)
  }

  ghost predicate CountersRight(s: State) {
    && s.enqueued == |s.puts|
    && s.persisted + Busy(s.persister) == |s.taken|
  }

  /** Published batches are positions of taken batches in increasing order, and the sink
      call of each had returned; the current batch is unpublished until then. */
  ghost predicate PublishedRight(s: State) {
    && |s.fates| == |s.taken|
    && (forall i, j :: 0 <= i < j < |s.published| ==> s.published[i] < s.published[j])
    && (forall i :: 0 <= i < |s.published| ==> s.published[i] < |s.taken| && s.fates[s.published[i]] in {Stored, Dropped})
    && (Busy(s.persister) == 1 ==> s.taken != [] && s.taken[|s.taken| - 1] == s.persister.batch)
    && (s.persister.InSink? ==> s.fates[|s.taken| - 1] == Pending)
    && (s.persister.Returned? ==> s.fates[|s.taken| - 1] in {Stored, Dropped})
    && (s.persister.Returned? || s.persister.InSink? ==>
          forall i :: 0 <= i < |s.published| ==> s.published[i] < |s.taken| - 1)
    && (forall i :: 0 <= i < |s.fates| && s.fates[i].Pending? ==> i == |s.taken| - 1 && s.persister.InSink?)
  }

  ghost predicate Inv(s: State) {
    InOrder(s) && CreditsConserved(s) && RowsConserved(s) && CountersRight(s) && PublishedRight(s)
  }

  lemma TakenIsNext(s: State)
    requires InOrder(s) && s.persister.Waiting? && s.queue != [] && s.queue[0].Work?
    ensures |s.taken| < |s.puts| && s.queue[0].batch == s.puts[|s.taken|]
    ensures s.sealed.Some? ==> |s.taken| < s.sealed.value
  {}

  lemma WorksAppend(bs: seq<Batch>, b: Batch)
    ensures Works(bs + [b]) == Works(bs) + [Work(b)]
  {}

  lemma WorksRest(bs: seq<Batch>)
    requires bs != []
    ensures Works(bs)[1..] == Works(bs[1..]) && Works(bs) != []
  {}

  lemma PutKeepsOrder(s: State, i: nat)
    requires InOrder(s) && i < |s.putting|
    ensures InOrder(Step(s, Put(i)))
  {
    var k, b := if s.sealed.Some? then s.sealed.value else |s.taken|, s.putting[i];
    assert (s.puts + [b])[k..] == s.puts[k..] + [b];
    WorksAppend(s.puts[k..], b);
    if s.sealed.Some? {
      assert (s.puts + [b])[|s.taken|..k] == s.puts[|s.taken|..k];
    }
  }

  lemma TakeKeepsOrder(s: State)
    requires InOrder(s) && Enabled(s, Take)
    ensures InOrder(Step(s, Take))
  {
    TakenIsNext(s);
    var n, k := |s.taken|, if s.sealed.Some? then s.sealed.value else |s.puts|;
    assert s.puts[n..k][1..] == s.puts[n + 1..k];
    WorksRest(s.puts[n..k]);
    assert s.taken + [s.puts[n]] == s.puts[..n + 1];
  }

  lemma StepKeepsOrder(s: State, e: Event)
    requires InOrder(s) && Enabled(s, e)
    ensures InOrder(Step(s, e))
  {
    match e
    case Put(i) => PutKeepsOrder(s, i);
    case Take => TakeKeepsOrder(s);
    case SendExit =>
      assert s.puts[|s.puts|..] == [] && s.puts[|s.taken|..|s.puts|] == Queued(s);
      assert Works([]) == [];
    case _ =>
  }

  lemma StepKeepsCredits(s: State, e: Event)
    requires InOrder(s) && CreditsConserved(s) && CountersRight(s) && Enabled(s, e)
    ensures CreditsConserved(Step(s, e)) && CountersRight(Step(s, e))
  {
    if e.Take? {
      TakenIsNext(s);
    }
  }

  lemma PutKeepsRows(s: State, i: nat)
    requires RowsConserved(s) && i < |s.putting|
    ensures RowsConserved(Step(s, Put(i)))
  {
    RowsRemove(s.putting, i);
    assert Queued(Step(s, Put(i))) == Queued(s) + [s.putting[i]];
    RowsAppend(Queued(s), s.putting[i]);
  }

  lemma TakeKeepsRows(s: State)
    requires InOrder(s) && RowsConserved(s) && Enabled(s, Take)
    ensures RowsConserved(Step(s, Take))
  {
    TakenIsNext(s);
    RowsRemove(Queued(s), 0);
    assert Remove(Queued(s), 0) == Queued(Step(s, Take));
  }

  lemma StepKeepsRows(s: State, e: Event)
    requires InOrder(s) && RowsConserved(s) && Enabled(s, e)
    ensures RowsConserved(Step(s, e))
  {
    var u := Step(s, e);
    match e
    case Parse(b) => RowsAppend(s.waiting, b);
    case Acquire(i) =>
      RowsRemove(s.waiting, i);
      RowsAppend(s.putting, s.waiting[i]);
    case CancelWait(i) => RowsRemove(s.waiting, i);
    case Put(i) => PutKeepsRows(s, i);
    case Take => TakeKeepsRows(s);
    case _ => assert Queued(u) == Queued(s);
  }

  lemma TakeKeepsPublished(s: State)
    requires PublishedRight(s) && Enabled(s, Take)
    ensures PublishedRight(Step(s, Take))
  {}

  lemma SinkKeepsPublished(s: State, e: Event)
    requires PublishedRight(s) && Enabled(s, e) && (e.SinkReturns? || e.SinkRaises?)
    ensures PublishedRight(Step(s, e))
  {}

  lemma PublishKeepsPublished(s: State)
    requires PublishedRight(s) && Enabled(s, Publish)
    ensures PublishedRight(Step(s, Publish))
  {}

  lemma StepKeepsPublished(s: State, e: Event)
    requires PublishedRight(s) && Enabled(s, e)
    ensures PublishedRight(Step(s, e))
  {
    match e
    case Take => TakeKeepsPublished(s);
    case SinkReturns(_) => SinkKeepsPublished(s, e);
    case SinkRaises => SinkKeepsPublished(s, e);
    case Publish => PublishKeepsPublished(s);
    case _ =>
  }

  // ---------------------------------------------------------------------
  // Whole runs
  // ---------------------------------------------------------------------

  predicate IsRun(s: State, run: seq<Event>)
    decreases |run|
  {
    run == [] || (Enabled(s, run[0]) && IsRun(Step(s, run[0]), run[1..]))
  }

  function After(s: State, run: seq<Event>): State
    requires IsRun(s, run)
    decreases |run|
  {
    if run == [] then s else After(Step(s, run[0]), run[1..])
  }

  lemma {:induction false} RunKeepsInv(s: State, run: seq<Event>)
    requires Inv(s) && IsRun(s, run)
    ensures Inv(After(s, run)) && After(s, run).pendingMax == s.pendingMax
    decreases |run|
  {
    if run != [] {
      StepKeepsOrder(s, run[0]);
      StepKeepsCredits(s, run[0]);
      StepKeepsRows(s, run[0]);
      StepKeepsPublished(s, run[0]);
      RunKeepsInv(Step(s, run[0]), run[1..]);
    }
  }

  lemma InitialInv(pendingMax: nat)
    ensures Inv(Initial(pendingMax))
  {}

  /** Bound and conservation in every reachable state: free credits plus outstanding batches
      are the configured bound, batches are taken in the order they were queued, and every
      received row is stored, dropped, failed in a raising sink, lost to a cancelled credit
      wait, or still in flight. */
  lemma EveryRunConserves(pendingMax: nat, run: seq<Event>)
    requires IsRun(Initial(pendingMax), run)
    ensures var s := After(Initial(pendingMax), run);
            && s.taken <= s.puts
            && s.credits + |s.putting| + |Queued(s)| + Busy(s.persister) == pendingMax
            && s.received == s.stored + s.dropped + s.failed + s.lost
                             + Rows(s.waiting) + Rows(s.putting) + Rows(Queued(s)) + InSinkRows(s.persister)
  {
    InitialInv(pendingMax);
    RunKeepsInv(Initial(pendingMax), run);
  }

  ghost predicate AllAccounted(s: State)
    requires |s.taken| <= |s.puts|
  {
    s.received == s.stored + s.dropped + s.failed
                  + Rows(s.waiting) + Rows(s.putting) + Rows(Queued(s)) + InSinkRows(s.persister)
  }

  ghost predicate NonemptyWaits(s: State) {
    forall i :: 0 <= i < |s.waiting| ==> s.waiting[i].size > 0
  }

  lemma {:induction false} LostGrows(s: State, run: seq<Event>)
    requires IsRun(s, run) && NonemptyWaits(s)
    ensures s.lost <= After(s, run).lost
    ensures s.lost == After(s, run).lost <==> forall e :: e in run ==> !e.CancelWait?
    decreases |run|
  {
    if run != [] {
      LostGrows(Step(s, run[0]), run[1..]);
      assert forall e :: e in run <==> e == run[0] || e in run[1..];
    }
  }

  /** Rows go missing unaccounted, neither stored nor dropped nor failed in the sink nor in
      flight, if and only if a cancellation hit a wait for a credit. */
  lemma RowsAccountedWhen(pendingMax: nat, run: seq<Event>)
    requires IsRun(Initial(pendingMax), run)
    ensures var s := After(Initial(pendingMax), run);
            |s.taken| <= |s.puts| && (AllAccounted(s) <==> forall e :: e in run ==> !e.CancelWait?)
  {
    EveryRunConserves(pendingMax, run);
    LostGrows(Initial(pendingMax), run);
  }

  /** Publication follows persistence: what was published was published in queue order, after
      its sink call returned; a batch whose sink call raised is never published. A batch the
      sink dropped may still be published. */
  lemma PublishOnlyAfterSink(pendingMax: nat, run: seq<Event>, i: nat)
    requires IsRun(Initial(pendingMax), run) && i < |After(Initial(pendingMax), run).published|
    ensures var s := After(Initial(pendingMax), run);
            && s.published[i] < |s.taken| == |s.fates| && s.fates[s.published[i]] in {Stored, Dropped}
            && forall j :: i < j < |s.published| ==> s.published[i] < s.published[j]
  {
    InitialInv(pendingMax);
    RunKeepsInv(Initial(pendingMax), run);
  }

  /** What became of a batch is settled once. */
  lemma {:induction false} FateStays(s: State, run: seq<Event>, i: nat)
    requires PublishedRight(s) && IsRun(s, run) && i < |s.fates| && !s.fates[i].Pending?
    ensures PublishedRight(After(s, run)) && i < |After(s, run).fates| && After(s, run).fates[i] == s.fates[i]
    decreases |run|
  {
    if run != [] {
      StepKeepsPublished(s, run[0]);
      FateStays(Step(s, run[0]), run[1..], i);
    }
  }

  /** A batch whose sink call raised is published in no continuation of the run, and its rows
      are counted as failed; a batch whose call returned was stored or dropped, as it said. */
  lemma SinkOutcomeIsFinal(pendingMax: nat, run: seq<Event>, e: Event, rest: seq<Event>)
    requires IsRun(Initial(pendingMax), run) && Enabled(After(Initial(pendingMax), run), e)
    requires e.SinkRaises? || e.SinkReturns?
    requires IsRun(Step(After(Initial(pendingMax), run), e), rest)
    ensures var s := After(Initial(pendingMax), run);
            var u := After(Step(s, e), rest);
            var i := |s.taken| - 1;
            && 0 <= i < |u.fates|
            && (e.SinkRaises? ==> i !in u.published && u.fates[i] == Raised && Step(s, e).failed == s.failed + s.persister.batch.size)
            && (e.SinkReturns? ==> u.fates[i] == if e.ok then Stored else Dropped)
  {
    InitialInv(pendingMax);
    RunKeepsInv(Initial(pendingMax), run);
    SinkSettles(After(Initial(pendingMax), run), e, rest);
  }

  lemma SinkSettles(s: State, e: Event, rest: seq<Event>)
    requires PublishedRight(s) && Enabled(s, e) && (e.SinkRaises? || e.SinkReturns?) && IsRun(Step(s, e), rest)
    ensures var u := After(Step(s, e), rest);
            var i := |s.taken| - 1;
            && 0 <= i < |u.fates|
            && (e.SinkRaises? ==> i !in u.published && u.fates[i] == Raised && Step(s, e).failed == s.failed + s.persister.batch.size)
            && (e.SinkReturns? ==> u.fates[i] == if e.ok then Stored else Dropped)
  {
    StepKeepsPublished(s, e);
    FateStays(Step(s, e), rest, |s.taken| - 1);
  }

  /** Batch `i` was taken and its sink call returned, and the persister is past the point
      where it publishes. */
  predicate Passed(s: State, i: nat) {
    && i < |s.fates| == |s.taken| && s.fates[i] in {Stored, Dropped}
    && !(s.persister.Returned? && i == |s.taken| - 1)
  }

  /** Every such batch is published. */
  ghost predicate AllPublished(s: State) {
    forall i: nat :: Passed(s, i) ==> i in s.published
  }

  lemma StepPublishes(s: State, e: Event)
    requires PublishedRight(s) && Enabled(s, e) && AllPublished(s)
    ensures !e.PublishRaises? ==> AllPublished(Step(s, e))
    ensures e.PublishRaises? ==> Passed(Step(s, e), |s.taken| - 1) && |s.taken| - 1 !in Step(s, e).published
  {
    var u := Step(s, e);
    forall i: nat | Passed(u, i) && !e.PublishRaises?
      ensures i in u.published
    {
      if e.Publish? && i == |s.taken| - 1 {
        assert u.published[|s.published|] == i;
      } else {
        assert Passed(s, i);
      }
    }
  }

  lemma StepKeepsMissed(s: State, e: Event, i: nat)
    requires Enabled(s, e) && Passed(s, i) && i !in s.published
    requires PublishedRight(s)
    ensures Passed(Step(s, e), i) && i !in Step(s, e).published
  {}

  lemma {:induction false} MissedStays(s: State, run: seq<Event>, i: nat)
    requires PublishedRight(s) && IsRun(s, run) && Passed(s, i) && i !in s.published
    ensures Passed(After(s, run), i) && i !in After(s, run).published
    decreases |run|
  {
    if run != [] {
      StepKeepsMissed(s, run[0], i);
      StepKeepsPublished(s, run[0]);
      MissedStays(Step(s, run[0]), run[1..], i);
    }
  }

  lemma {:induction false} RunPublishes(s: State, run: seq<Event>)
    requires PublishedRight(s) && AllPublished(s) && IsRun(s, run)
    ensures AllPublished(After(s, run)) <==> forall e :: e in run ==> !e.PublishRaises?
    decreases |run|
  {
    if run != [] {
      assert forall e :: e in run <==> e == run[0] || e in run[1..];
      StepPublishes(s, run[0]);
      StepKeepsPublished(s, run[0]);
      if run[0].PublishRaises? {
        MissedStays(Step(s, run[0]), run[1..], |s.taken| - 1);
      } else {
        RunPublishes(Step(s, run[0]), run[1..]);
      }
    }
  }

  /** A batch holds a credit and can move on. */
  ghost predicate SomeBatchMoves(s: State) {
    || (s.putting != [] && Enabled(s, Put(0)))
    || Enabled(s, Take) || Enabled(s, TakeExit)
    || (Enabled(s, SinkReturns(true)) && Enabled(s, SinkReturns(false)) && Enabled(s, SinkRaises))
    || (Enabled(s, Publish) && Enabled(s, PublishRaises))
    || Enabled(s, Finish)
  }

  /** No deadlock: until the persister exits, a producer that waits can get a credit now, or
      some batch that holds one can move on. */
  lemma NoDeadlock(pendingMax: nat, run: seq<Event>)
    requires IsRun(Initial(pendingMax), run) && pendingMax > 0
    requires var s := After(Initial(pendingMax), run); s.waiting != [] && !s.persister.Exited?
    ensures var s := After(Initial(pendingMax), run); Enabled(s, Acquire(0)) || SomeBatchMoves(s)
  {
    InitialInv(pendingMax);
    RunKeepsInv(Initial(pendingMax), run);
    SomethingMoves(After(Initial(pendingMax), run));
  }

  lemma SomethingMoves(s: State)
    requires InOrder(s) && CreditsConserved(s) && PublishedRight(s) && s.pendingMax > 0
    requires s.waiting != [] && !s.persister.Exited?
    ensures Enabled(s, Acquire(0)) || SomeBatchMoves(s)
  {
    if s.credits == 0 && s.putting == [] && s.persister.Waiting? {
      OutstandingIsQueued(s);
    }
  }

  lemma OutstandingIsQueued(s: State)
    requires InOrder(s) && |s.taken| < |s.puts| && s.persister.Waiting?
    ensures s.queue != []
  {}

  /** Every batch whose sink call returned is published, once the persister is past it, if and
      only if the publisher never raised. */
  lemma EveryReturnedBatchIsPublishedWhen(pendingMax: nat, run: seq<Event>)
    requires IsRun(Initial(pendingMax), run)
    ensures AllPublished(After(Initial(pendingMax), run)) <==> forall e :: e in run ==> !e.PublishRaises?
  {
    RunPublishes(Initial(pendingMax), run);
  }

  /** The rows of the taken batches with one fate. */
  function RowsWith(taken: seq<Batch>, fates: seq<Fate>, fate: Fate): nat
    requires |taken| == |fates|
  {
    if taken == [] then 0
    else
      var n := |taken| - 1;
      RowsWith(taken[..n], fates[..n], fate) + if fates[n] == fate then taken[n].size else 0
  }

  /** The counters are the rows of the batches stored, dropped and failed. */
  ghost predicate CountersByFate(s: State) {
    && |s.taken| == |s.fates|
    && s.stored == RowsWith(s.taken, s.fates, Stored)
    && s.dropped == RowsWith(s.taken, s.fates, Dropped)
    && s.failed == RowsWith(s.taken, s.fates, Raised)
  }

  lemma RowsWithLast(taken: seq<Batch>, fates: seq<Fate>, x: Fate, fate: Fate)
    requires |taken| == |fates| > 0
    ensures var n := |taken| - 1;
            RowsWith(taken, fates[n := x], fate) == RowsWith(taken[..n], fates[..n], fate) + if x == fate then taken[n].size else 0
  {
    var n := |taken| - 1;
    assert fates[n := x][..n] == fates[..n];
  }

  lemma RowsWithNext(taken: seq<Batch>, fates: seq<Fate>, b: Batch, fate: Fate)
    requires |taken| == |fates|
    ensures RowsWith(taken + [b], fates + [Pending], fate) == RowsWith(taken, fates, fate) + if fate.Pending? then b.size else 0
  {
    assert (taken + [b])[..|taken|] == taken && (fates + [Pending])[..|fates|] == fates;
  }

  lemma StepCountsFates(s: State, e: Event)
    requires PublishedRight(s) && Enabled(s, e) && CountersByFate(s)
    ensures CountersByFate(Step(s, e))
  {
    if e.Take? {
      RowsWithNext(s.taken, s.fates, s.queue[0].batch, Stored);
      RowsWithNext(s.taken, s.fates, s.queue[0].batch, Dropped);
      RowsWithNext(s.taken, s.fates, s.queue[0].batch, Raised);
    }
    if e.SinkReturns? || e.SinkRaises? {
      var x := if e.SinkRaises? then Raised else if e.ok then Stored else Dropped;
      RowsWithLast(s.taken, s.fates, x, Stored);
      RowsWithLast(s.taken, s.fates, x, Dropped);
      RowsWithLast(s.taken, s.fates, x, Raised);
    }
  }

  lemma {:induction false} RunCountsFates(s: State, run: seq<Event>)
    requires PublishedRight(s) && CountersByFate(s) && IsRun(s, run)
    ensures CountersByFate(After(s, run))
    decreases |run|
  {
    if run != [] {
      StepCountsFates(s, run[0]);
      StepKeepsPublished(s, run[0]);
      RunCountsFates(Step(s, run[0]), run[1..]);
    }
  }

  /** In every run the stored, dropped and failed counters are the rows of the batches the
      sink stored, dropped and raised on. */
  lemma EveryRunCountsFates(pendingMax: nat, run: seq<Event>)
    requires IsRun(Initial(pendingMax), run)
    ensures CountersByFate(After(Initial(pendingMax), run))
  {
    RunCountsFates(Initial(pendingMax), run);
  }

  /** `flush`: once the dispatch counter has reached a captured queue counter, every batch
      queued by then has been handled. */
  lemma FlushMeansHandled(pendingMax: nat, run: seq<Event>, target: nat)
    requires IsRun(Initial(pendingMax), run)
    requires target <= After(Initial(pendingMax), run).enqueued && target <= After(Initial(pendingMax), run).persisted
    ensures var s := After(Initial(pendingMax), run);
            && target <= |s.taken| && target <= |s.puts| && s.taken[..target] == s.puts[..target]
            && (forall i :: 0 <= i < target ==> i < |s.fates| && !s.fates[i].Pending?)
  {
    InitialInv(pendingMax);
    RunKeepsInv(Initial(pendingMax), run);
  }

  /** Once the exit sentinel is queued, only a put changes what was queued. */
  lemma {:induction false} SealedGrowth(s: State, run: seq<Event>)
    requires IsRun(s, run) && s.sealed.Some?
    ensures After(s, run).sealed == s.sealed
    ensures |s.puts| <= |After(s, run).puts|
    ensures |s.puts| == |After(s, run).puts| <==> forall e :: e in run ==> !e.Put?
    decreases |run|
  {
    if run != [] {
      SealedGrowth(Step(s, run[0]), run[1..]);
      assert forall e :: e in run <==> e == run[0] || e in run[1..];
    }
  }

  /** The persister exits having handled exactly the batches queued before the sentinel: a
      clean drain is complete if and only if no producer put a batch after it. */
  lemma DrainIsCompleteWhen(pendingMax: nat, before: seq<Event>, rest: seq<Event>)
    requires IsRun(Initial(pendingMax), before) && Enabled(After(Initial(pendingMax), before), SendExit)
    requires IsRun(Step(After(Initial(pendingMax), before), SendExit), rest)
    requires After(Step(After(Initial(pendingMax), before), SendExit), rest).persister.Exited?
    ensures var s := After(Initial(pendingMax), before);
            var u := After(Step(s, SendExit), rest);
            && u.taken == s.puts && u.persisted == |u.taken|
            && (u.taken == u.puts <==> forall e :: e in rest ==> !e.Put?)
            && (forall i :: 0 <= i < |u.taken| ==> i < |u.fates| && !u.fates[i].Pending?)
  {
    InitialInv(pendingMax);
    RunKeepsInv(Initial(pendingMax), before);
    var s := After(Initial(pendingMax), before);
    StepKeepsOrder(s, SendExit);
    StepKeepsCredits(s, SendExit);
    StepKeepsRows(s, SendExit);
    StepKeepsPublished(s, SendExit);
    RunKeepsInv(Step(s, SendExit), rest);
    SealedGrowth(Step(s, SendExit), rest);
    PutsOnlyGrow(Step(s, SendExit), rest);
  }

  lemma {:induction false} PutsOnlyGrow(s: State, run: seq<Event>)
    requires IsRun(s, run)
    ensures s.puts <= After(s, run).puts
    decreases |run|
  {
    if run != [] {
      PutsOnlyGrow(Step(s, run[0]), run[1..]);
    }
  }
}
