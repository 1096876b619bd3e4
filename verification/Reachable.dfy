/** What holds of the books in every status that a run of syncs can leave. */
module Reachable {
  import opened Identities
  import opened Statuses
  import opened Ledgers
  import opened Migrations
  import opened KeyMoves
  import opened Handovers
  import opened Pruning
  import opened Attempts
  import opened Deliveries
  import opened Fetches
  import opened FeedSyncs
  import opened Scans
  import opened FeedRuns
  import opened Skips

  /** Without a watermark nothing is recorded, as in every status a run leaves (ReachableIsTenable). */
  predicate Tenable(b: Books) { b.mark == NoMark ==> b.sent == map[] }

  lemma FreshIsTenable()
    ensures Tenable(FRESH.books)
  {
  }

  lemma {:induction false} MigrationKeepsTenable(es: seq<Entry>, b: Books)
    requires Tenable(b)
    ensures Tenable(Migrated(es, b))
  {
    hide Clamp;
    WatermarkMovesOnce(es, b, |es|);
    if b.mark == NoMark {
      hide Follow;
      hide Moves;
      hide MoveAll;
      hide Migrated;
      MigrationMoves(es, b);
      FollowedKeys(Moves(es), b.sent);
    } else {
      assert Migrated(es, b).mark != NoMark by { MarkIsNeverLost(es, b, |es|); }
    }
  }

  lemma {:induction false} MarkIsNeverLost(es: seq<Entry>, b: Books, n: nat)
    requires n <= |es| && b.mark != NoMark
    ensures MigratedTo(es, b, n).mark != NoMark
  {
    hide Identity;
    hide Rekey;
    hide CarriesOver;
    if n > 0 {
      MarkIsNeverLost(es, b, n - 1);
    }
  }

  lemma {:induction false} LoopKeepsTenable(env: Env, f: Feed, es: seq<Entry>, window: seq<Entry>, st: Status, i: nat)
    requires i <= |es| && Tenable(st.books)
    ensures Tenable(Deliver(env, f, es, window, st, i).st.books)
    decreases |es| - i
  {
    hide TurnAt;
    hide PassedOver;
    hide Keys;
    if i < |es| {
      if PassedOver(f, es, st.books.sent, es[i]) {
        LoopKeepsTenable(env, f, es, window, st, i + 1);
      } else {
        TurnBooks(env, f, es, window, st, es[i]);
        match TurnAt(env, f, es, window, st, es[i])
        case Stop(_) =>
        case GoOn(next, _) => LoopKeepsTenable(env, f, es, window, next, i + 1);
      }
    }
  }

  lemma SyncKeepsTenable(st: Status, s: Sync)
    requires Tenable(st.books)
    ensures Tenable(Processed(st, s.input, s.env).books)
  {
    hide *;
    if UsableDocument(s.input) {
      HasEntries(s);
      var fetched, es := Recorded(st, FetchDone, s.env), Sorted(s.input.fetch.entries);
      UsableSync(st, s);
      ScanKeepsTenable(es, fetched, s.input.feed, s.env);
      var d := Scanned(fetched, es, s.input.feed, s.env);
      LeftIsTenable(d, s.env.order, KeysLeftBy(s.input, d.end));
    } else {
      QuietSync(st, s);
    }
  }

  lemma HasEntries(s: Sync)
    requires UsableDocument(s.input)
    ensures s.input.fetch.Document? && s.input.fetch.entries != []
  {
  }

  lemma LeftIsTenable(d: Delivered, order: Order, max: nat)
    requires Tenable(d.st.books)
    ensures Tenable(LeftBooks(d, order, max))
  {
    PrunedKeepsTheNewest(order, d.st.books.sent, max);
  }

  lemma ScanKeepsTenable(es: seq<Entry>, st: Status, f: Feed, env: Env)
    requires es != [] && Tenable(st.books)
    ensures Tenable(Scanned(st, es, f, env).st.books)
  {
    hide Deliver;
    hide Migrated;
    MigrationKeepsTenable(es, st.books);
    ScanOf(st, es, f, env);
    if !BacklogPanics(st, es, f, env) {
      LoopKeepsTenable(env, f, es, WindowOf(st, es, env), Begun(es, st, env.catchUp), ScanFrom(st, es, env));
    }
  }

  /** Every status that syncs of any documents leave of a fresh one is tenable. */
  lemma {:induction false} ReachableIsTenable(syncs: seq<Sync>)
    ensures Tenable(RunSyncs(FRESH, syncs).st.books)
  {
    hide Tenable;
    hide Processed;
    hide Apply;
    RunUnfolds(FRESH, syncs);
    if syncs == [] {
      FreshIsTenable();
    } else {
      ReachableIsTenable(syncs[..|syncs| - 1]);
      SyncKeepsTenable(RunSyncs(FRESH, syncs[..|syncs| - 1]).st, syncs[|syncs| - 1]);
    }
  }
}
