/** Series registration inside write transactions, with the two caches beside the table.
    The caches are filled while the transaction is open and are not undone by a rollback;
    the table and the id counter are. Evictions are events of their own, so what is proved
    holds for every cache size and eviction order. */
module SeriesCache {
  import opened Options

  /** A series: metric and canonical tags (None when the tags are absent). */
  datatype Ident = Ident(metric: string, tags: Option<string>)

  /** `table` and `next` as the open transaction sees them, `saved` and `savedNext` as they
      were when it began, and the two caches. */
  datatype State = State(
    table: map<Ident, int>, next: int, saved: map<Ident, int>, savedNext: int,
    byKey: map<Ident, int>, byId: map<int, Ident>)

  const INITIAL: State := State(map[], 1, map[], 1, map[], map[])

  datatype Event = Resolve(k: Ident) | EvictKey(k: Ident) | EvictId(id: int) | LoadMeta(k: Ident) | Commit | Rollback

  /** The id without any cache: the table's, or the next free one. */
  function TableId(s: State, k: Ident): int {
    if k in s.table then s.table[k] else s.next
  }

  /** `resolve_series`: the cached id if there is one, else the table's, creating the row if
      it is missing. */
  function ResolvedId(s: State, k: Ident): int {
    if k in s.byKey then s.byKey[k] else TableId(s, k)
  }

  function Step(s: State, e: Event): State {
    match e
    case Resolve(k) =>
      if k in s.byKey then s
      else
        var id := TableId(s, k);
        var u := if k in s.table then s else s.(table := s.table[k := id], next := s.next + 1);
        u.(byKey := s.byKey[k := id], byId := s.byId[id := k])
    case EvictKey(k) => s.(byKey := s.byKey - {k})
    case EvictId(id) => s.(byId := s.byId - {id})
    case LoadMeta(k) => if k in s.saved then s.(byId := s.byId[s.saved[k] := k]) else s
    case Commit => s.(saved := s.table, savedNext := s.next)
    case Rollback => s.(table := s.saved, next := s.savedNext)
  }

  // ---------------------------------------------------------------------
  // Coherence
  // ---------------------------------------------------------------------

  ghost predicate TableOk(s: State) {
    && (forall k :: k in s.table ==> s.table[k] < s.next)
    && (forall k, l :: k in s.table && l in s.table && k != l ==> s.table[k] != s.table[l])
    && (forall k :: k in s.saved ==> k in s.table && s.table[k] == s.saved[k] && s.saved[k] < s.savedNext)
    && s.savedNext <= s.next
  }

  ghost predicate KeysCoherent(s: State) {
    forall k :: k in s.byKey ==> k in s.table && s.table[k] == s.byKey[k]
  }

  ghost predicate IdsCoherent(s: State) {
    forall id :: id in s.byId ==> s.byId[id] in s.table && s.table[s.byId[id]] == id
  }

  ghost predicate Coherent(s: State) {
    TableOk(s) && KeysCoherent(s) && IdsCoherent(s)
  }

  /** A series created by the open transaction is still in a cache. */
  ghost predicate CachesUncommitted(s: State) {
    || (exists k :: k in s.byKey && k !in s.saved)
    || (exists id :: id in s.byId && s.byId[id] !in s.saved)
  }

  /** Rolling back keeps the caches coherent if and only if no series the transaction created
      is still cached. */
  lemma RollbackCoherentWhen(s: State)
    requires Coherent(s)
    ensures Coherent(Step(s, Rollback)) <==> !CachesUncommitted(s)
  {
    var u := Step(s, Rollback);
    assert TableOk(u) by {
      assert forall k :: k in s.saved ==> k in s.table && s.table[k] == s.saved[k];
    }
    if !CachesUncommitted(s) {
      forall k | k in u.byKey
        ensures k in u.table && u.table[k] == u.byKey[k]
      {
        assert k in s.saved;
      }
      forall id | id in u.byId
        ensures u.byId[id] in u.table && u.table[u.byId[id]] == id
      {
        assert s.byId[id] in s.saved;
      }
    }
  }

  lemma AddKeepsTable(s: State, k: Ident)
    requires TableOk(s) && k !in s.table
    ensures TableOk(s.(table := s.table[k := s.next], next := s.next + 1))
  {}

  lemma ResolveKeepsTable(s: State, k: Ident)
    requires TableOk(s)
    ensures TableOk(Step(s, Resolve(k)))
  {
    if k !in s.table {
      AddKeepsTable(s, k);
    }
  }

  lemma ResolveKeepsKeys(s: State, k: Ident)
    requires KeysCoherent(s)
    ensures KeysCoherent(Step(s, Resolve(k)))
  {}

  lemma ResolveKeepsIds(s: State, k: Ident)
    requires IdsCoherent(s)
    ensures IdsCoherent(Step(s, Resolve(k)))
  {
    var u := Step(s, Resolve(k));
    if k !in s.byKey {
      forall id | id in u.byId
        ensures u.byId[id] in u.table && u.table[u.byId[id]] == id
      {
        if id != TableId(s, k) {
          assert u.byId[id] == s.byId[id] && s.byId[id] in s.table;
        }
      }
    }
  }

  lemma StepKeepsCoherence(s: State, e: Event)
    requires Coherent(s) && (e.Rollback? ==> !CachesUncommitted(s))
    ensures Coherent(Step(s, e))
  {
    match e
    case Rollback => RollbackCoherentWhen(s);
    case Resolve(k) =>
      ResolveKeepsTable(s, k);
      ResolveKeepsKeys(s, k);
      ResolveKeepsIds(s, k);
    case LoadMeta(k) =>
      if k in s.saved {
        assert s.table[k] == s.saved[k];
      }
    case _ =>
  }

  /** A cached resolve gives the id an uncached one would, and leaves the table as an
      uncached one would. */
  lemma CachedIsUncached(s: State, k: Ident)
    requires Coherent(s)
    ensures ResolvedId(s, k) == TableId(s, k)
    ensures var u := Step(s, Resolve(k)); k in u.table && u.table[k] == ResolvedId(s, k)
  {}

  // ---------------------------------------------------------------------
  // Whole runs
  // ---------------------------------------------------------------------

  function After(s: State, run: seq<Event>): State {
    if run == [] then s else Step(After(s, run[..|run| - 1]), run[|run| - 1])
  }

  /** No rollback finds a series it created in a cache. */
  ghost predicate CleanRun(run: seq<Event>) {
    forall i :: 0 <= i < |run| && run[i].Rollback? ==> !CachesUncommitted(After(INITIAL, run[..i]))
  }

  /** Over every such run the caches agree with the table, and no two series share an id. */
  lemma {:induction false} EveryCleanRunIsCoherent(run: seq<Event>)
    requires CleanRun(run)
    ensures Coherent(After(INITIAL, run))
  {
    if run != [] {
      var n := |run| - 1;
      forall i | 0 <= i < n && run[..n][i].Rollback?
        ensures !CachesUncommitted(After(INITIAL, run[..n][..i]))
      {
        assert run[..n][..i] == run[..i];
      }
      EveryCleanRunIsCoherent(run[..n]);
      StepKeepsCoherence(After(INITIAL, run[..n]), run[n]);
    }
  }

  ghost predicate Committed(s: State, k: Ident, id: int) {
    k in s.table && s.table[k] == id && k in s.saved && s.saved[k] == id
  }

  lemma StepKeepsCommitted(s: State, e: Event, k: Ident, id: int)
    requires Committed(s, k, id)
    ensures Committed(Step(s, e), k, id)
  {}

  /** A committed series keeps its id in every continuation, whatever is rolled back later. */
  lemma {:induction false} CommittedSurvives(s: State, k: Ident, rest: seq<Event>)
    requires k in s.table
    ensures Committed(After(Step(s, Commit), rest), k, s.table[k])
  {
    if rest != [] {
      var n := |rest| - 1;
      CommittedSurvives(s, k, rest[..n]);
      StepKeepsCommitted(After(Step(s, Commit), rest[..n]), rest[n], k, s.table[k]);
    }
  }

  /** A resolve that misses leaves the series in both caches, a metadata load leaves it in the
      cache by id, and an evicted entry is gone from its cache alone. */
  lemma CachesFollow(s: State, k: Ident, id: int)
    ensures k !in s.byKey ==>
              var u := Step(s, Resolve(k)); u.byKey == s.byKey[k := TableId(s, k)] && u.byId == s.byId[TableId(s, k) := k]
    ensures k in s.saved ==> Step(s, LoadMeta(k)).byId == s.byId[s.saved[k] := k]
    ensures Step(s, EvictKey(k)).byKey == s.byKey - {k} && Step(s, EvictKey(k)).byId == s.byId
    ensures Step(s, EvictId(id)).byId == s.byId - {id} && Step(s, EvictId(id)).byKey == s.byKey
  {}

  /** What goes wrong otherwise, from any coherent state: a new series is resolved, the
      transaction rolls back, and the next new series gets the same id; the first series
      then resolves, from the cache, to the id of the second. */
  lemma RolledBackSeriesSharesItsId(s: State, a: Ident, b: Ident)
    requires Coherent(s) && s.saved == s.table && s.savedNext == s.next
    requires a !in s.table && b !in s.table && a != b
    ensures var u := Step(Step(s, Resolve(a)), Rollback);
            var v := Step(Step(u, Resolve(b)), Commit);
            && a !in v.table && v.table[b] == ResolvedId(u, b)
            && ResolvedId(v, a) == ResolvedId(v, b)
  {
    assert a !in s.byKey && b !in s.byKey;
    var r := Step(s, Resolve(a));
    assert r.byKey[a] == s.next;
  }
}
