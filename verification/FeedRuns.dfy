/** Whole runs of syncs over one document: however sends, renders and fetches fail in between,
    the entries that were to be delivered are delivered once and in order. */
module FeedRuns {
  import opened Basics
  import opened Identities
  import opened Statuses
  import opened Ledgers
  import opened Migrations
  import opened Handovers
  import opened Pruning
  import opened Attempts
  import opened Deliveries
  import opened Fetches
  import opened FeedSyncs
  import opened Scans
  import opened Rooms

  /** One reconcile's sync: what was fetched and how it went, and the reconcile's environment. */
  datatype Sync = Sync(input: Input, env: Env)

  datatype History = History(st: Status, handled: seq<Handled>)

  /** Syncs applied one after another, each from the status the one before left to be written. */
  ghost function RunSyncs(st: Status, syncs: seq<Sync>): History {
    if syncs == [] then History(st, [])
    else
      var so := RunSyncs(st, syncs[..|syncs| - 1]);
      var last := syncs[|syncs| - 1];
      History(Processed(so.st, last.input, last.env), so.handled + Apply(so.st, last.input, last.env).handled)
  }

  lemma RunUnfolds(st: Status, syncs: seq<Sync>)
    ensures syncs == [] ==> RunSyncs(st, syncs) == History(st, [])
    ensures syncs != [] ==>
      var so, last := RunSyncs(st, syncs[..|syncs| - 1]), syncs[|syncs| - 1];
      RunSyncs(st, syncs) ==
        History(Processed(so.st, last.input, last.env), so.handled + Apply(so.st, last.input, last.env).handled)
  {
    hide Processed;
    hide Apply;
  }

  /** A run is its first sync and the run from there. */
  lemma {:induction false} RunAfterOne(st: Status, s: Sync, syncs: seq<Sync>)
    ensures var rest := RunSyncs(Processed(st, s.input, s.env), syncs);
      RunSyncs(st, [s] + syncs) == History(rest.st, Apply(st, s.input, s.env).handled + rest.handled)
  {
    hide *;
    RunUnfolds(st, [s] + syncs);
    RunUnfolds(Processed(st, s.input, s.env), syncs);
    if syncs == [] {
      assert ([s] + syncs)[..0] == [] && ([s] + syncs)[0] == s;
      RunUnfolds(st, []);
    } else {
      assert ([s] + syncs)[..|syncs|] == [s] + syncs[..|syncs| - 1];
      RunAfterOne(st, s, syncs[..|syncs| - 1]);
    }
  }

  /** The sync is of the document with these entries under this filter and catch-up limit, or it
      learns nothing: a failed fetch, or, when a first sync would not skip the backlog, a 304 or
      an empty document. order is that of the keys' digests. */
  ghost predicate OfDocument(s: Sync, entries: seq<Entry>, matches: Entry -> bool, catchUp: int, order: Order, started: bool) {
    && s.env.catchUp == catchUp && s.env.order == order && s.input.feed.matches == matches
    && match s.input.fetch
       case FetchError(_, _) => true
       case NotModified(_) => started
       case Document(es, _) => es == entries || (es == [] && started)
  }

  /** No sync from this status would skip the backlog as a first one. */
  predicate Started(st: Status, catchUp: int) { st.initialized || catchUp != 0 }

  /** A run of syncs of one document: a 304 or an empty document comes, unless the catch-up limit is
      not 0, only once Initialized is set. */
  ghost predicate RunOf(st: Status, syncs: seq<Sync>, entries: seq<Entry>, matches: Entry -> bool, catchUp: int, order: Order) {
    forall k :: 0 <= k < |syncs| ==>
      OfDocument(syncs[k], entries, matches, catchUp, order, Started(RunSyncs(st, syncs[..k]).st, catchUp))
  }

  /** Whether a later plan of the same books is the same does not depend on Initialized, unless a
      first sync is to skip the backlog. */
  lemma QuietSyncKeepsTodo(st: Status, after: Status, es: seq<Entry>, catchUp: int, matches: Entry -> bool, order: Order)
    requires after.books == st.books && (st.initialized ==> after.initialized)
    requires after.initialized == st.initialized || Started(st, catchUp)
    ensures Todo(es, after.books, after.initialized, catchUp, matches) == Todo(es, st.books, st.initialized, catchUp, matches)
    ensures Room(es, after.books, after.initialized, catchUp, matches, order) ==
            Room(es, st.books, st.initialized, catchUp, matches, order)
  {
    hide RoomFrom;
    hide Migrated;
    hide Pending;
    hide Sent;
    hide Resume;
  }

  /** The sync gets as far as begin, and past it. */
  predicate UsableDocument(input: Input) {
    && input.fetch.Document? && input.fetch.entries != [] && input.config == Usable
    && input.feed.records(None, FetchDone) == Completes
  }

  /** A sync that gets no usable document handles nothing and keeps the books. */
  lemma QuietSync(st: Status, s: Sync)
    requires !UsableDocument(s.input)
    ensures var after, a := Processed(st, s.input, s.env), Apply(st, s.input, s.env);
      && after.books == st.books && a.handled == [] && (st.initialized ==> after.initialized)
      && (after.initialized != st.initialized ==>
            s.input.fetch.NotModified? || (s.input.fetch.Document? && s.input.fetch.entries == []))
      && !AccountedFor(a.ending)
  {
    hide Scanned;
    hide HalfMigrated;
    hide Pruned;
  }

  /** The sync's close accounts for the whole document, even when it then panics in the prune. */
  predicate AccountedFor(ending: Ending) {
    !ending.Interrupted? && ending.settled == SyncAccountedFor
  }

  /** How many keys the prune of a scan that ended so leaves: a panic before close is settled by a
      close that completes. */
  function KeysLeftBy(input: Input, end: End): (max: nat)
    ensures max >= MAX_LAST_SENT
  {
    if end.Panicked? then MAX_LAST_SENT else KeysLeft(input.prune)
  }

  /** A sync of a usable document is its scan, unless a panic undoes one that handled nothing. */
  lemma UsableSync(st: Status, s: Sync)
    requires UsableDocument(s.input)
    ensures var after, a := Processed(st, s.input, s.env), Apply(st, s.input, s.env);
      var fetched := Recorded(st, FetchDone, s.env);
      var d := Scanned(fetched, Sorted(s.input.fetch.entries), s.input.feed, s.env);
      && a.handled == d.handled && fetched.books == st.books && fetched.initialized == st.initialized
      && (if d.end.Panicked? && d.handled == [] then after == st
          else after.books == LeftBooks(d, s.env.order, KeysLeftBy(s.input, d.end)) && after.initialized)
      && (AccountedFor(a.ending) <==> d.end.Done? && !d.end.verdict.pending)
  {
    hide Scanned;
    hide Sorted;
    hide Pruned;
  }

  /** What every sync of the document does to the to-do list: it handles a prefix, in order, and
      leaves the rest; an accounted-for close leaves no rest. */
  ghost predicate SyncAdvances(es: seq<Entry>, st: Status, s: Sync, matches: Entry -> bool) {
    var after, a := Processed(st, s.input, s.env), Apply(st, s.input, s.env);
    && Todo(es, st.books, st.initialized, s.env.catchUp, matches) ==
       Entries(a.handled) + Todo(es, after.books, after.initialized, s.env.catchUp, matches)
    && (AccountedFor(a.ending) ==>
          Todo(es, after.books, after.initialized, s.env.catchUp, matches) == [])
    && Room(es, after.books, after.initialized, s.env.catchUp, matches, s.env.order)
    && (st.initialized ==> after.initialized)
  }

  lemma UsableSyncAdvances(es: seq<Entry>, st: Status, s: Sync)
    requires UsableDocument(s.input) && es == Sorted(s.input.fetch.entries) && Distinct(es) && Undisturbing(es)
    requires Injective(s.env.order) && Room(es, st.books, st.initialized, s.env.catchUp, s.input.feed.matches, s.env.order)
    ensures SyncAdvances(es, st, s, s.input.feed.matches)
  {
    hide Processed;
    hide Apply;
    hide Todo;
    hide Room;
    hide Scanned;
    hide Recorded;
    hide LeftBooks;
    hide Undisturbing;
    hide Distinct;
    var fetched := Recorded(st, FetchDone, s.env);
    UsableSync(st, s);
    var d := Scanned(fetched, es, s.input.feed, s.env);
    ScanAdvances(es, fetched, s.input.feed, s.env, KeysLeftBy(s.input, d.end));
  }

  lemma AnySyncAdvances(entries: seq<Entry>, st: Status, s: Sync, matches: Entry -> bool)
    requires entries != [] && Distinct(entries) && Undisturbing(Sorted(entries)) && Injective(s.env.order)
    requires OfDocument(s, entries, matches, s.env.catchUp, s.env.order, Started(st, s.env.catchUp))
    requires Room(Sorted(entries), st.books, st.initialized, s.env.catchUp, matches, s.env.order)
    ensures SyncAdvances(Sorted(entries), st, s, matches)
  {
    hide Todo;
    hide Room;
    hide Processed;
    hide Apply;
    hide Undisturbing;
    var es := Sorted(entries);
    SortedKeepsDistinct(entries);
    if UsableDocument(s.input) {
      UsableSyncAdvances(es, st, s);
    } else {
      QuietSync(st, s);
      QuietSyncKeepsTodo(st, Processed(st, s.input, s.env), es, s.env.catchUp, matches, s.env.order);
    }
  }

  /** After the first k syncs, the k-th one closes the document as accounted for. */
  ghost predicate AccountedForAt(st: Status, syncs: seq<Sync>, k: nat)
    requires k < |syncs|
  {
    AccountedFor(Apply(RunSyncs(st, syncs[..k]).st, syncs[k].input, syncs[k].env).ending)
  }

  /** How far a run has got. */
  ghost predicate RunAdvanced(st: Status, syncs: seq<Sync>, es: seq<Entry>, matches: Entry -> bool, catchUp: int, order: Order) {
    var end, todo := RunSyncs(st, syncs), Todo(es, st.books, st.initialized, catchUp, matches);
    && todo == Entries(end.handled) + Todo(es, end.st.books, end.st.initialized, catchUp, matches)
    && Room(es, end.st.books, end.st.initialized, catchUp, matches, order)
    && (st.initialized ==> end.st.initialized)
    && (forall k :: 0 <= k < |syncs| && AccountedForAt(st, syncs, k) ==>
          Entries(RunSyncs(st, syncs[..k + 1]).handled) == todo
          && Todo(es, end.st.books, end.st.initialized, catchUp, matches) == [])
  }

  lemma RunStep(st: Status, syncs: seq<Sync>, es: seq<Entry>, matches: Entry -> bool, catchUp: int, order: Order)
    requires syncs != [] && RunAdvanced(st, syncs[..|syncs| - 1], es, matches, catchUp, order)
    requires var last := syncs[|syncs| - 1];
      && last.env.catchUp == catchUp && last.env.order == order
      && SyncAdvances(es, RunSyncs(st, syncs[..|syncs| - 1]).st, last, matches)
    ensures RunAdvanced(st, syncs, es, matches, catchUp, order)
  {
    hide Todo;
    hide Room;
    hide Processed;
    hide Apply;
    hide Entries;
    hide RunSyncs;
    var front, last := syncs[..|syncs| - 1], syncs[|syncs| - 1];
    var so := RunSyncs(st, front);
    RunUnfolds(st, syncs);
    EntriesAppend(so.handled, Apply(so.st, last.input, last.env).handled);
    forall k | 0 <= k < |syncs| && AccountedForAt(st, syncs, k)
      ensures Entries(RunSyncs(st, syncs[..k + 1]).handled) == Todo(es, st.books, st.initialized, catchUp, matches)
      ensures Todo(es, RunSyncs(st, syncs).st.books, RunSyncs(st, syncs).st.initialized, catchUp, matches) == []
    {
      if k < |front| {
        assert front[..k] == syncs[..k] && front[..k + 1] == syncs[..k + 1] && front[k] == syncs[k];
        assert AccountedForAt(st, front, k);
      } else {
        assert syncs[..k] == front && syncs[..k + 1] == syncs;
      }
    }
  }

  lemma {:induction false} RunAdvances(st: Status, syncs: seq<Sync>, entries: seq<Entry>, matches: Entry -> bool,
                                       catchUp: int, order: Order)
    requires entries != [] && Distinct(entries) && Undisturbing(Sorted(entries)) && Injective(order)
    requires Room(Sorted(entries), st.books, st.initialized, catchUp, matches, order)
    requires RunOf(st, syncs, entries, matches, catchUp, order)
    ensures RunAdvanced(st, syncs, Sorted(entries), matches, catchUp, order)
  {
    hide Todo;
    hide Room;
    hide Processed;
    hide Apply;
    hide Undisturbing;
    hide SyncAdvances;
    if syncs != [] {
      var front, last := syncs[..|syncs| - 1], syncs[|syncs| - 1];
      FrontIsRunOf(st, syncs, entries, matches, catchUp, order);
      RunAdvances(st, front, entries, matches, catchUp, order);
      AnySyncAdvances(entries, RunSyncs(st, front).st, last, matches);
      RunStep(st, syncs, Sorted(entries), matches, catchUp, order);
    }
  }

  lemma FrontIsRunOf(st: Status, syncs: seq<Sync>, entries: seq<Entry>, matches: Entry -> bool, catchUp: int, order: Order)
    requires syncs != [] && RunOf(st, syncs, entries, matches, catchUp, order)
    ensures var front, last := syncs[..|syncs| - 1], syncs[|syncs| - 1];
      && RunOf(st, front, entries, matches, catchUp, order)
      && OfDocument(last, entries, matches, catchUp, order, Started(RunSyncs(st, front).st, catchUp))
      && last.env.catchUp == catchUp && last.env.order == order
  {
    hide RunSyncs;
    var front := syncs[..|syncs| - 1];
    forall k | 0 <= k < |front|
      ensures OfDocument(front[k], entries, matches, catchUp, order, Started(RunSyncs(st, front[..k]).st, catchUp))
    {
      assert front[..k] == syncs[..k];
    }
  }

  /** The handled entries of the run are a prefix of the first plan's to-do list, each exactly once;
      what is left is still to be done; and once a sync closes accounted for, everything was handled
      and nothing is handled again. */
  ghost predicate DeliveredOnceInOrder(st: Status, syncs: seq<Sync>, es: seq<Entry>, matches: Entry -> bool, catchUp: int) {
    var end, todo := RunSyncs(st, syncs), Todo(es, st.books, st.initialized, catchUp, matches);
    && todo == Entries(end.handled) + Todo(es, end.st.books, end.st.initialized, catchUp, matches)
    && Distinct(Entries(end.handled))
    && (forall k :: 0 <= k < |syncs| && AccountedForAt(st, syncs, k) ==>
          Entries(RunSyncs(st, syncs[..k + 1]).handled) == todo && Entries(end.handled) == todo)
  }

  /** Retries refine "deliver the list once, in order", over any number of syncs of one document,
      interleaved with failed fetches, configuration errors and panics and with arbitrary results of
      every render and send. */
  lemma RetriesDeliverOnceInOrder(st: Status, syncs: seq<Sync>, entries: seq<Entry>, matches: Entry -> bool, catchUp: int,
                                  order: Order)
    requires entries != [] && Distinct(entries) && Undisturbing(Sorted(entries)) && Injective(order)
    requires Room(Sorted(entries), st.books, st.initialized, catchUp, matches, order)
    requires RunOf(st, syncs, entries, matches, catchUp, order)
    ensures DeliveredOnceInOrder(st, syncs, Sorted(entries), matches, catchUp)
  {
    hide Undisturbing;
    hide Room;
    hide RunOf;
    RunAdvances(st, syncs, entries, matches, catchUp, order);
    SortedKeepsDistinct(entries);
    var es := Sorted(entries);
    var m := Migrated(es, st.books);
    PendingIsDistinct(es, matches, m.sent, ScanStart(es, m, catchUp, st.initialized));
    PrefixIsDistinct(Entries(RunSyncs(st, syncs).handled), Todo(es, st.books, st.initialized, catchUp, matches));
  }

  lemma PrefixIsDistinct(front: seq<Entry>, es: seq<Entry>)
    requires front <= es && Distinct(es)
    ensures Distinct(front)
  {
  }

  /** Nothing fails: every entry that passes the filter renders and is accepted, and no step panics. */
  ghost predicate Accepts(f: Feed, es: seq<Entry>) {
    && (forall e :: e in es ==>
          !f.filterPanics(e) && (f.matches(e) ==> f.renders(e) == Renders && f.sends(e) == Accepted))
    && (forall e, o :: f.records(e, o) == Completes)
  }

  lemma {:induction false} AcceptedLoopFinishes(env: Env, f: Feed, es: seq<Entry>, window: seq<Entry>, st: Status, i: nat)
    requires i <= |es| && Accepts(f, es)
    ensures var d := Deliver(env, f, es, window, st, i);
      d.end == Done(NOTHING) && forall h :: h in d.handled ==> !h.skipped
    decreases |es| - i
  {
    hide Sent;
    hide MarkHandled;
    hide Recorded;
    if i < |es| {
      if PassedOver(f, es, st.books.sent, es[i]) {
        AcceptedLoopFinishes(env, f, es, window, st, i + 1);
      } else {
        AcceptedLoopFinishes(env, f, es, window, Recorded(Handle(es, st, es[i], env), EntrySent, env), i + 1);
      }
    }
  }

  /** Nothing but failures delays delivery: from any status, one sync in which nothing fails sends
      the whole to-do list, in order and skipping nothing, and closes accounted for. */
  lemma AcceptedSyncDeliversAll(st: Status, s: Sync)
    requires UsableDocument(s.input) && Distinct(s.input.fetch.entries) && Accepts(s.input.feed, s.input.fetch.entries)
    requires s.input.prune == PrunesAll
    ensures var a, es := Apply(st, s.input, s.env), Sorted(s.input.fetch.entries);
      && Entries(a.handled) == Todo(es, st.books, st.initialized, s.env.catchUp, s.input.feed.matches)
      && (forall h :: h in a.handled ==> !h.skipped)
      && a.ending == Finished(NOTHING, SyncAccountedFor)
  {
    var es, f := Sorted(s.input.fetch.entries), s.input.feed;
    SortedKeepsDistinct(s.input.fetch.entries);
    AcceptedScanDeliversAll(Recorded(st, FetchDone, s.env), es, f, s.env);
    RecordingKeeps(st, FetchDone, s.env, Completes);
    hide Scanned;
    hide Sorted;
    hide Todo;
    hide Closed;
    hide Recorded;
  }

  lemma AcceptedScanDeliversAll(st: Status, es: seq<Entry>, f: Feed, env: Env)
    requires es != [] && Distinct(es) && Accepts(f, es)
    ensures var d := Scanned(st, es, f, env);
      && Entries(d.handled) == Todo(es, st.books, st.initialized, env.catchUp, f.matches)
      && d.end == Done(NOTHING) && forall h :: h in d.handled ==> !h.skipped
  {
    hide Sent;
    hide Size;
    hide Deliver;
    hide Distinct;
    var m := Migrated(es, st.books);
    var i := ScanStart(es, m, env.catchUp, st.initialized);
    var next := ScanIsALoop(es, st, f, env);
    AcceptedLoopFinishes(env, f, es, PlanOf(es, m, env.catchUp, st.initialized).scan, Begun(es, st, env.catchUp), i);
  }
}
