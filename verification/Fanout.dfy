/** Live fan-out: subscription matching by topic segments, and per-subscriber queues bounded
    by bytes that drop the newest frame when full. */
module Fanout {
  import opened Options

  // ---------------------------------------------------------------------
  // Topic matching
  // ---------------------------------------------------------------------

  predicate EndsWithDot(s: string) {
    s != "" && s[|s| - 1] == '.'
  }

  /** `topic_matches`; `<=` on strings is `startswith`. */
  predicate TopicMatches(pattern: string, topic: string) {
    if pattern == "*" then true
    else if EndsWithDot(pattern) then pattern <= topic
    else topic == pattern || pattern + "." <= topic
  }

  /** One more character in front of a list of segments. */
  function Prepend(c: char, segs: seq<string>): (r: seq<string>)
    requires |segs| >= 1
    ensures |r| >= 1
  {
    if c == '.' then [""] + segs else [[c] + segs[0]] + segs[1..]
  }

  /** The dot-separated segments of a string. */
  function Split(s: string): (segs: seq<string>)
    ensures |segs| >= 1
  {
    if s == "" then [""] else Prepend(s[0], Split(s[1..]))
  }

  function Join(segs: seq<string>): string
    requires |segs| >= 1
  {
    if |segs| == 1 then segs[0] else segs[0] + ("." + Join(segs[1..]))
  }

  lemma {:induction false} JoinSplit(s: string)
    ensures Join(Split(s)) == s
  {
    if s != "" {
      JoinSplit(s[1..]);
      assert s == [s[0]] + s[1..];
    }
  }

  lemma {:induction false} SplitAppend(a: string, b: string)
    ensures Split(a + ("." + b)) == Split(a) + Split(b)
  {
    var s := a + ("." + b);
    if a == "" {
      assert s[0] == '.' && s[1..] == b;
    } else {
      assert s[0] == a[0] && s[1..] == a[1..] + ("." + b);
      SplitAppend(a[1..], b);
    }
  }

  lemma {:induction false} JoinAppend(x: seq<string>, y: seq<string>)
    requires |x| >= 1 && |y| >= 1
    ensures Join(x + y) == Join(x) + ("." + Join(y))
  {
    assert (x + y)[1..] == x[1..] + y;
    if |x| == 1 {
      assert x[1..] + y == y;
    } else {
      JoinAppend(x[1..], y);
      assert x[0] + ("." + (Join(x[1..]) + ("." + Join(y)))) == (x[0] + ("." + Join(x[1..]))) + ("." + Join(y));
    }
  }

  /** A pattern that is neither `*` nor ends in a dot matches exactly the topics whose
      leading segments are its own, so `a.b1` does not match `a.b10`. */
  lemma MatchesBySegments(pattern: string, topic: string)
    requires pattern != "*" && !EndsWithDot(pattern)
    ensures TopicMatches(pattern, topic) <==> Split(pattern) <= Split(topic)
  {
    if pattern + "." <= topic {
      ChildSegments(pattern, topic);
    }
    if Split(pattern) <= Split(topic) {
      SegmentsMatch(pattern, topic);
    }
  }

  /** `*` matches everything, and a pattern that ends in a dot matches exactly the topics below
      its segments, not the one it names itself. */
  lemma WildcardsMatch(pattern: string, topic: string)
    ensures TopicMatches("*", topic)
    ensures EndsWithDot(pattern) ==>
              var base := pattern[..|pattern| - 1];
              TopicMatches(pattern, topic) <==> Split(base) <= Split(topic) && |Split(base)| < |Split(topic)|
  {
    if EndsWithDot(pattern) {
      var base := pattern[..|pattern| - 1];
      assert pattern == base + ".";
      if pattern <= topic {
        var rest := topic[|pattern|..];
        assert topic == base + ("." + rest);
        SplitAppend(base, rest);
      }
      if Split(base) <= Split(topic) && |Split(base)| < |Split(topic)| {
        BelowSegments(base, topic);
      }
    }
  }

  lemma BelowSegments(base: string, topic: string)
    requires Split(base) <= Split(topic) && |Split(base)| < |Split(topic)|
    ensures base + "." <= topic
  {
    JoinSplit(base);
    JoinSplit(topic);
    JoinBelow(Split(base), Split(topic));
  }

  lemma JoinBelow(p: seq<string>, t: seq<string>)
    requires 1 <= |p| < |t| && p <= t
    ensures Join(p) + "." <= Join(t)
  {
    var rest := t[|p|..];
    assert t == p + rest;
    JoinAppend(p, rest);
    StartsWith(Join(p), ".", Join(rest));
  }

  lemma StartsWith(a: string, b: string, c: string)
    ensures a + b <= a + (b + c)
  {
    assert a + (b + c) == (a + b) + c;
  }

  lemma ChildSegments(pattern: string, topic: string)
    requires pattern + "." <= topic
    ensures Split(pattern) <= Split(topic)
  {
    var rest := topic[|pattern| + 1..];
    assert topic == pattern + ("." + rest);
    SplitAppend(pattern, rest);
  }

  lemma SegmentsMatch(pattern: string, topic: string)
    requires Split(pattern) <= Split(topic)
    ensures topic == pattern || pattern + "." <= topic
  {
    JoinSplit(pattern);
    JoinSplit(topic);
    JoinPrefix(Split(pattern), Split(topic));
  }

  lemma JoinPrefix(p: seq<string>, t: seq<string>)
    requires 1 <= |p| && p <= t
    ensures Join(t) == Join(p) || Join(p) + "." <= Join(t)
  {
    if |p| < |t| {
      JoinBelow(p, t);
    } else {
      assert p == t;
    }
  }

  // ---------------------------------------------------------------------
  // One subscriber
  // ---------------------------------------------------------------------

  datatype Frame = Frame(topic: string, payload: seq<int>)

  /** A subscriber's queue holds frames, and None as the close sentinel. */
  datatype Subscriber = Subscriber(
    topic: string, queueBytes: nat, queue: seq<Option<Frame>>, pendingBytes: int, dropped: nat)

  predicate Fits(s: Subscriber, f: Frame) {
    s.pendingBytes + |f.payload| <= s.queueBytes || (s.pendingBytes == 0 && |f.payload| > s.queueBytes)
  }

  /** What one published frame does to one subscriber. */
  function Offer(s: Subscriber, f: Frame): Subscriber {
    if !TopicMatches(s.topic, f.topic) then s
    else if Fits(s, f) then s.(pendingBytes := s.pendingBytes + |f.payload|, queue := s.queue + [Some(f)])
    else s.(dropped := s.dropped + 1)
  }

  function Taken(s: Subscriber): Subscriber
    requires s.queue != []
  {
    var bytes := if s.queue[0].Some? then |s.queue[0].value.payload| else 0;
    s.(queue := s.queue[1..], pendingBytes := s.pendingBytes - bytes)
  }

  function Frames(queue: seq<Option<Frame>>): seq<Frame> {
    if queue == [] then [] else AsFrames(queue[0]) + Frames(queue[1..])
  }

  function Bytes(fs: seq<Frame>): nat {
    if fs == [] then 0 else |fs[0].payload| + Bytes(fs[1..])
  }

  function Largest(fs: seq<Frame>): nat {
    if fs == [] then 0
    else
      var l := Largest(fs[..|fs| - 1]);
      if |fs[|fs| - 1].payload| > l then |fs[|fs| - 1].payload| else l
  }

  function AsFrames(x: Option<Frame>): seq<Frame> {
    if x.Some? then [x.value] else []
  }

  lemma {:induction false} FramesAppend(q: seq<Option<Frame>>, x: Option<Frame>)
    ensures Frames(q + [x]) == Frames(q) + AsFrames(x)
  {
    if q == [] {
      assert q + [x] == [x] && [x][1..] == [];
      assert AsFrames(x) + [] == AsFrames(x);
    } else {
      assert (q + [x])[0] == q[0] && (q + [x])[1..] == q[1..] + [x];
      FramesAppend(q[1..], x);
      assert AsFrames(q[0]) + (Frames(q[1..]) + AsFrames(x)) == (AsFrames(q[0]) + Frames(q[1..])) + AsFrames(x);
    }
  }

  lemma {:induction false} BytesAppend(fs: seq<Frame>, f: Frame)
    ensures Bytes(fs + [f]) == Bytes(fs) + |f.payload|
  {
    if fs == [] {
      assert fs + [f] == [f] && [f][1..] == [];
    } else {
      assert (fs + [f])[1..] == fs[1..] + [f];
      BytesAppend(fs[1..], f);
    }
  }

  // ---------------------------------------------------------------------
  // A subscriber's whole history
  // ---------------------------------------------------------------------

  datatype Event = Deliver(frame: Frame) | Receive | Close

  /** A subscriber with what it was offered that matched and what it was given. */
  datatype History = History(sub: Subscriber, matched: seq<Frame>, received: seq<Frame>)

  function Attached(topic: string, queueBytes: nat): Subscriber {
    Subscriber(topic, queueBytes, [], 0, 0)
  }

  /** A receive on an empty queue waits, that is, changes nothing. */
  function Step(h: History, e: Event): History {
    match e
    case Deliver(f) =>
      History(Offer(h.sub, f), if TopicMatches(h.sub.topic, f.topic) then h.matched + [f] else h.matched, h.received)
    case Receive =>
      if h.sub.queue == [] then h
      else History(Taken(h.sub), h.matched, h.received + AsFrames(h.sub.queue[0]))
    case Close => h.(sub := h.sub.(queue := h.sub.queue + [None]))
  }

  function After(h: History, run: seq<Event>): History {
    if run == [] then h else Step(After(h, run[..|run| - 1]), run[|run| - 1])
  }

  /** `a` is `b` with some elements left out. */
  predicate Subsequence(a: seq<Frame>, b: seq<Frame>) {
    if a == [] then true
    else if b == [] then false
    else
      var m, n := |a| - 1, |b| - 1;
      (a[m] == b[n] && Subsequence(a[..m], b[..n])) || Subsequence(a, b[..n])
  }

  ghost predicate Accounted(h: History) {
    var queued := Frames(h.sub.queue);
    && h.sub.pendingBytes == Bytes(queued)
    && (h.sub.pendingBytes <= h.sub.queueBytes || h.sub.pendingBytes <= Largest(h.matched))
    && |h.matched| == |h.received| + |queued| + h.sub.dropped
    && Subsequence(h.received + queued, h.matched)
  }

  lemma DeliverAccounted(h: History, f: Frame)
    requires Accounted(h)
    ensures Accounted(Step(h, Deliver(f)))
  {
    if TopicMatches(h.sub.topic, f.topic) {
      var queued := Frames(h.sub.queue);
      if Fits(h.sub, f) {
        FramesAppend(h.sub.queue, Some(f));
        BytesAppend(queued, f);
        assert h.received + (queued + [f]) == (h.received + queued) + [f];
      }
    }
  }

  lemma ReceiveAccounted(h: History)
    requires Accounted(h) && h.sub.queue != []
    ensures Accounted(Step(h, Receive))
  {
    var u := Step(h, Receive);
    assert u.received + Frames(u.sub.queue) == h.received + Frames(h.sub.queue);
    if h.sub.queue[0].Some? {
      assert Frames(h.sub.queue)[1..] == Frames(u.sub.queue);
    } else {
      assert Frames(h.sub.queue) == Frames(u.sub.queue);
    }
  }

  lemma CloseAccounted(h: History)
    requires Accounted(h)
    ensures Accounted(Step(h, Close))
  {
    FramesAppend(h.sub.queue, None);
    assert Frames(h.sub.queue) + [] == Frames(h.sub.queue);
  }

  /** Over every history of an attached subscriber: its byte count is the sum of its queued
      payloads and stays within the budget or the largest frame, every matching frame was
      received, is queued or was dropped, and what it receives is the matching stream with
      frames left out, in order. */
  lemma {:induction false} EveryHistoryAccounted(topic: string, queueBytes: nat, run: seq<Event>)
    ensures Accounted(After(History(Attached(topic, queueBytes), [], []), run))
  {
    if run != [] {
      var n := |run| - 1;
      EveryHistoryAccounted(topic, queueBytes, run[..n]);
      var h := After(History(Attached(topic, queueBytes), [], []), run[..n]);
      match run[n]
      case Deliver(f) => DeliverAccounted(h, f);
      case Receive =>
        if h.sub.queue != [] {
          ReceiveAccounted(h);
        }
      case Close => CloseAccounted(h);
    }
  }

  /** Nothing was lost unless the matching frames together exceeded the budget. */
  ghost predicate Roomy(h: History) {
    && h.sub.pendingBytes <= Bytes(h.matched)
    && (Bytes(h.matched) <= h.sub.queueBytes ==> h.sub.dropped == 0 && h.received + Frames(h.sub.queue) == h.matched)
  }

  lemma DeliverKeepsRoom(h: History, f: Frame)
    requires Roomy(h)
    ensures Roomy(Step(h, Deliver(f)))
  {
    if TopicMatches(h.sub.topic, f.topic) {
      BytesAppend(h.matched, f);
      FramesAppend(h.sub.queue, Some(f));
      assert h.received + (Frames(h.sub.queue) + [f]) == (h.received + Frames(h.sub.queue)) + [f];
    }
  }

  lemma OtherStepsKeepRoom(h: History, e: Event)
    requires Roomy(h) && !e.Deliver?
    ensures Roomy(Step(h, e))
  {
    if e.Close? {
      FramesAppend(h.sub.queue, None);
      assert Frames(h.sub.queue) + [] == Frames(h.sub.queue);
    } else if h.sub.queue != [] {
      assert Step(h, e).received + Frames(h.sub.queue[1..]) == h.received + Frames(h.sub.queue);
    }
  }

  /** Nothing is dropped without need: as long as all matching frames together fit the
      budget, every one of them is received or queued, in order. */
  lemma {:induction false} RoomMeansDelivered(topic: string, queueBytes: nat, run: seq<Event>)
    ensures Roomy(After(History(Attached(topic, queueBytes), [], []), run))
  {
    if run != [] {
      var n := |run| - 1;
      RoomMeansDelivered(topic, queueBytes, run[..n]);
      var h := After(History(Attached(topic, queueBytes), [], []), run[..n]);
      if run[n].Deliver? {
        DeliverKeepsRoom(h, run[n].frame);
      } else {
        OtherStepsKeepRoom(h, run[n]);
      }
    }
  }

  /** A subscriber with nothing pending takes any frame, even one larger than its budget. */
  lemma EmptyTakesAny(h: History, f: Frame)
    requires Accounted(h) && Frames(h.sub.queue) == [] && TopicMatches(h.sub.topic, f.topic)
    ensures Frames(Step(h, Deliver(f)).sub.queue) == [f] && Step(h, Deliver(f)).sub.dropped == h.sub.dropped
  {
    FramesAppend(h.sub.queue, Some(f));
  }

  // ---------------------------------------------------------------------
  // The hub
  // ---------------------------------------------------------------------

  /** The subscribers that accept the frame. */
  ghost function Accepting(subs: map<string, Subscriber>, f: Frame): set<string> {
    set id | id in subs && TopicMatches(subs[id].topic, f.topic) && Fits(subs[id], f)
  }

  /** The subscribers that match the frame and have no room for it. */
  ghost function Dropping(subs: map<string, Subscriber>, f: Frame): set<string> {
    set id | id in subs && TopicMatches(subs[id].topic, f.topic) && !Fits(subs[id], f)
  }

  /** The loop over subscribers. */
  method OfferAll(subs: map<string, Subscriber>, f: Frame)
    returns (after: map<string, Subscriber>, delivered: nat, refused: nat)
    ensures after.Keys == subs.Keys && forall id :: id in subs ==> after[id] == Offer(subs[id], f)
    ensures delivered == |Accepting(subs, f)| && refused == |Dropping(subs, f)|
  {
    after, delivered, refused := subs, 0, 0;
    var todo := subs.Keys;
    ghost var A: set<string>, D: set<string> := {}, {};
    while todo != {}
      invariant todo <= subs.Keys && after.Keys == subs.Keys
      invariant forall id :: id in subs ==> after[id] == if id in todo then subs[id] else Offer(subs[id], f)
      invariant forall id :: id in A <==> id in Accepting(subs, f) && id !in todo
      invariant forall id :: id in D <==> id in Dropping(subs, f) && id !in todo
      invariant delivered == |A| && refused == |D|
    {
      var id :| id in todo;
      todo := todo - {id};
      if TopicMatches(subs[id].topic, f.topic) {
        if Fits(subs[id], f) {
          delivered, A := delivered + 1, A + {id};
        } else {
          refused, D := refused + 1, D + {id};
        }
        after := after[id := Offer(subs[id], f)];
      }
    }
    assert A == Accepting(subs, f) && D == Dropping(subs, f);
  }

  datatype Received = Closed | NoFrame | Got(frame: Frame)

  /** A subscriber's history ends in its present state and is accounted for. */
  ghost predicate Tracks(s: Subscriber, h: History) {
    h.sub == s && Accounted(h) && Roomy(h)
  }

  lemma StepTracks(h: History, e: Event)
    requires Accounted(h) && Roomy(h)
    ensures Tracks(Step(h, e).sub, Step(h, e))
  {
    match e
    case Deliver(f) =>
      DeliverAccounted(h, f);
      DeliverKeepsRoom(h, f);
    case Receive =>
      if h.sub.queue != [] {
        ReceiveAccounted(h);
      }
      OtherStepsKeepRoom(h, e);
    case Close =>
      CloseAccounted(h);
      OtherStepsKeepRoom(h, e);
  }

  ghost function StepAll(histories: map<string, History>, e: Event): map<string, History> {
    map id | id in histories :: Step(histories[id], e)
  }

  function Subscribers(histories: map<string, History>): map<string, Subscriber> {
    map id | id in histories :: histories[id].sub
  }

  /** All subscribers are the ends of their histories, and these are accounted for. */
  ghost predicate AllTracked(subs: map<string, Subscriber>, histories: map<string, History>) {
    subs == Subscribers(histories) && forall id :: id in histories ==> Tracks(histories[id].sub, histories[id])
  }

  lemma StepAllTracked(subs: map<string, Subscriber>, histories: map<string, History>, e: Event)
    requires AllTracked(subs, histories)
    ensures AllTracked(Subscribers(StepAll(histories, e)), StepAll(histories, e))
  {
    forall id | id in histories
      ensures Tracks(Step(histories[id], e).sub, Step(histories[id], e))
    {
      StepTracks(histories[id], e);
    }
  }

  function CloseAll(subs: map<string, Subscriber>): map<string, Subscriber> {
    map id | id in subs :: subs[id].(queue := subs[id].queue + [None])
  }

  lemma ClosedTracked(subs: map<string, Subscriber>, histories: map<string, History>)
    requires AllTracked(subs, histories)
    ensures AllTracked(CloseAll(subs), StepAll(histories, Close))
  {
    StepAllTracked(subs, histories, Close);
    ClosedSubscribers(subs, histories);
  }

  lemma ClosedSubscribers(subs: map<string, Subscriber>, histories: map<string, History>)
    requires subs == Subscribers(histories)
    ensures CloseAll(subs) == Subscribers(StepAll(histories, Close))
  {}

  lemma DeliveredTracked(subs: map<string, Subscriber>, histories: map<string, History>, f: Frame, after: map<string, Subscriber>)
    requires AllTracked(subs, histories)
    requires after.Keys == subs.Keys && forall id :: id in subs ==> after[id] == Offer(subs[id], f)
    ensures AllTracked(after, StepAll(histories, Deliver(f)))
  {
    StepAllTracked(subs, histories, Deliver(f));
    DeliveredSubscribers(subs, histories, f, after);
  }

  lemma DeliveredSubscribers(subs: map<string, Subscriber>, histories: map<string, History>, f: Frame, after: map<string, Subscriber>)
    requires subs == Subscribers(histories)
    requires after.Keys == subs.Keys && forall id :: id in subs ==> after[id] == Offer(subs[id], f)
    ensures after == Subscribers(StepAll(histories, Deliver(f)))
  {}

  lemma OneTracked(subs: map<string, Subscriber>, histories: map<string, History>, id: string, h: History)
    requires AllTracked(subs, histories) && Tracks(h.sub, h)
    ensures AllTracked(subs[id := h.sub], histories[id := h])
  {
    assert subs[id := h.sub] == Subscribers(histories[id := h]);
  }

  class FanoutHub {
    const queueBytes: nat
    var subs: map<string, Subscriber>
    var publishedTotal: nat
    var droppedTotal: nat

    /** The history of each attached subscriber since it was attached. */
    ghost var histories: map<string, History>

    /** Every subscriber is accounted for: its byte count, its losses and the order of what it
        was given. */
    ghost predicate Valid()
      reads this
    {
      AllTracked(subs, histories)
    }

    constructor (queueBytes: nat)
      ensures Valid() && this.queueBytes == queueBytes && subs == map[] && publishedTotal == droppedTotal == 0
    {
      this.queueBytes := queueBytes;
      subs, histories, publishedTotal, droppedTotal := map[], map[], 0, 0;
    }

    /** A second attach under the same id replaces the subscriber. */
    method Attach(topic: string, id: string)
      requires Valid()
      modifies this
      ensures Valid() && subs == old(subs)[id := Attached(topic, queueBytes)]
      ensures histories == old(histories)[id := History(Attached(topic, queueBytes), [], [])]
      ensures publishedTotal == old(publishedTotal) && droppedTotal == old(droppedTotal)
    {
      OneTracked(subs, histories, id, History(Attached(topic, queueBytes), [], []));
      subs := subs[id := Attached(topic, queueBytes)];
      histories := histories[id := History(Attached(topic, queueBytes), [], [])];
    }

    method Detach(id: string)
      requires Valid()
      modifies this
      ensures Valid() && subs == old(subs) - {id} && histories == old(histories) - {id}
      ensures publishedTotal == old(publishedTotal) && droppedTotal == old(droppedTotal)
    {
      subs, histories := subs - {id}, histories - {id};
    }

    /** `deliver`: every subscriber gets the frame offered, whatever the others do. */
    method Deliver(f: Frame) returns (delivered: nat)
      requires Valid()
      modifies this
      ensures Valid() && histories == StepAll(old(histories), Event.Deliver(f))
      ensures subs.Keys == old(subs).Keys && forall id :: id in subs ==> subs[id] == Offer(old(subs)[id], f)
      ensures delivered == |Accepting(old(subs), f)|
      ensures publishedTotal == old(publishedTotal) + 1
      ensures droppedTotal == old(droppedTotal) + |Dropping(old(subs), f)|
    {
      var after, refused;
      after, delivered, refused := OfferAll(subs, f);
      DeliveredTracked(subs, histories, f, after);
      subs, publishedTotal, droppedTotal := after, publishedTotal + 1, droppedTotal + refused;
      histories := StepAll(histories, Event.Deliver(f));
    }

    /** `recv`, without waiting: a detached subscriber is closed, an empty queue times out. */
    method Recv(id: string) returns (r: Received)
      requires Valid()
      modifies this
      ensures Valid() && histories == if id in old(subs) then old(histories)[id := Step(old(histories)[id], Receive)] else old(histories)
      ensures id !in old(subs) ==> r == Closed && subs == old(subs)
      ensures id in old(subs) && old(subs)[id].queue == [] ==> r == NoFrame && subs == old(subs)
      ensures id in old(subs) && old(subs)[id].queue != [] ==>
                && subs == old(subs)[id := Taken(old(subs)[id])]
                && r == if old(subs)[id].queue[0].Some? then Got(old(subs)[id].queue[0].value) else Closed
      ensures publishedTotal == old(publishedTotal) && droppedTotal == old(droppedTotal)
    {
      if id !in subs {
        return Closed;
      }
      var s := subs[id];
      StepTracks(histories[id], Receive);
      OneTracked(subs, histories, id, Step(histories[id], Receive));
      histories := histories[id := Step(histories[id], Receive)];
      if s.queue == [] {
        assert subs == subs[id := s];
        return NoFrame;
      }
      r := if s.queue[0].Some? then Got(s.queue[0].value) else Closed;
      subs := subs[id := Taken(s)];
    }

    /** `stop`: every subscriber's queue gets the close sentinel, behind its frames. */
    method Stop()
      requires Valid()
      modifies this
      ensures Valid() && histories == StepAll(old(histories), Close)
      ensures subs == CloseAll(old(subs))
      ensures publishedTotal == old(publishedTotal) && droppedTotal == old(droppedTotal)
    {
      ClosedTracked(subs, histories);
      subs, histories := CloseAll(subs), StepAll(histories, Close);
    }
  }
}
