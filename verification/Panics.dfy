/** What a sync leaves recorded of the entries it handled, and what one that panics leaves at all. */
module Panics {
  import opened Basics
  import opened Identities
  import opened Statuses
  import opened Ledgers
  import opened Migrations
  import opened KeyMoves
  import opened Handovers
  import opened Pruning
  import opened Attempts
  import opened Deliveries
  import opened Fetches
  import opened FeedSyncs
  import opened Scans
  import opened FeedRuns
  import opened Skips
  import opened Revalidation
  import Outcomes

  /** Every key of every handled entry is recorded at time now and the watermark is at the last one. */
  ghost predicate AllRecorded(es: seq<Entry>, b: Books, handled: seq<Handled>, now: int) {
    && (forall h :: h in handled ==> KeyedAt(b.sent, Keys(es, h.entry), now))
    && (handled != [] ==> b.mark == Clamp(Identity(handled[|handled| - 1].entry)))
  }

  predicate KeyedAt(sent: map<Key, int>, keys: seq<Key>, now: int) {
    forall k :: k in keys ==> k in sent && sent[k] == now
  }

  lemma HandleRecords(es: seq<Entry>, b: Books, e: Entry, skipped: bool, before: seq<Handled>, now: int)
    requires AllRecorded(es, b, before, now)
    ensures AllRecorded(es, MarkHandled(es, b, e, now), before + [Handled(e, skipped)], now)
  {
    hide Keys;
    hide Clamp;
    hide Identity;
  }

  /** Whatever the send loop handled, it has recorded, however the loop ended. */
  lemma {:induction false} LoopRecordsWhatItHandles(env: Env, f: Feed, es: seq<Entry>, window: seq<Entry>, st: Status, i: nat,
                                                    before: seq<Handled>)
    requires i <= |es| && AllRecorded(es, st.books, before, env.SentAt())
    ensures var d := Deliver(env, f, es, window, st, i);
      AllRecorded(es, d.st.books, before + d.handled, env.SentAt())
    decreases |es| - i
  {
    hide TurnAt;
    hide PassedOver;
    hide MarkHandled;
    hide AllRecorded;
    var d := Deliver(env, f, es, window, st, i);
    if i == |es| {
      assert before + d.handled == before;
    } else if PassedOver(f, es, st.books.sent, es[i]) {
      LoopRecordsWhatItHandles(env, f, es, window, st, i + 1, before);
    } else {
      TurnBooks(env, f, es, window, st, es[i]);
      match TurnAt(env, f, es, window, st, es[i])
      case Stop(stopped) =>
        if stopped.handled == [] {
          assert before + d.handled == before;
        } else {
          HandleRecords(es, st.books, es[i], stopped.handled[0].skipped, before, env.SentAt());
        }
      case GoOn(next, handled) =>
        HandleRecords(es, st.books, es[i], handled[0].skipped, before, env.SentAt());
        LoopRecordsWhatItHandles(env, f, es, window, next, i + 1, before + handled);
        assert before + d.handled == before + handled + Deliver(env, f, es, window, next, i + 1).handled;
    }
  }

  lemma ScannedRecords(st: Status, es: seq<Entry>, f: Feed, env: Env)
    requires es != []
    ensures var d := Scanned(st, es, f, env);
      d.handled != [] ==> AllRecorded(es, d.st.books, d.handled, env.SentAt())
  {
    hide Deliver;
    ScanOf(st, es, f, env);
    if !BacklogPanics(st, es, f, env) {
      var d := Scanned(st, es, f, env);
      LoopRecordsWhatItHandles(env, f, es, WindowOf(st, es, env), Begun(es, st, env.catchUp), ScanFrom(st, es, env), []);
      assert [] + d.handled == d.handled;
    }
  }

  ghost function ScanOfSync(st: Status, s: Sync): Delivered
    requires UsableDocument(s.input)
  {
    Scanned(Recorded(st, FetchDone, s.env), Sorted(s.input.fetch.entries), s.input.feed, s.env)
  }

  /** A panic before close that comes before anything was handled leaves the status as it was. Any
      other leaves every handled entry recorded, up to the prune, with the watermark at the last one,
      and keeps the old validators unless the whole document was accounted for, so that entries not
      handled are fetched again; and it leaves the feed failing, which makes it due once no backoff is
      running, unless it came in the close of a document accounted for. */
  lemma PanicIsSafe(st: Status, s: Sync)
    requires !Apply(st, s.input, s.env).ending.Finished?
    ensures var a, after := Apply(st, s.input, s.env), Processed(st, s.input, s.env);
      if a.ending.Interrupted? && a.handled == [] then after == st
      else
        && UsableDocument(s.input)
        && var d := ScanOfSync(st, s);
        && a.handled == d.handled
        && (d.handled != [] ==> AllRecorded(Sorted(s.input.fetch.entries), d.st.books, d.handled, s.env.SentAt()))
        && after.books == LeftBooks(d, s.env.order, KeysLeftBy(s.input, d.end)) && after.initialized
        && (!AccountedFor(a.ending) ==> after.validators == st.validators && FailedOrRetrying(after))
  {
    hide *;
    if UsableDocument(s.input) {
      PanicInDocument(st, s);
      RecordedOfSync(st, s);
    } else {
      PanicBeforeDocument(st, s);
    }
  }

  lemma RecordedOfSync(st: Status, s: Sync)
    requires UsableDocument(s.input)
    ensures var d := ScanOfSync(st, s);
      && s.input.fetch.Document?
      && (d.handled != [] ==> AllRecorded(Sorted(s.input.fetch.entries), d.st.books, d.handled, s.env.SentAt()))
  {
    hide Scanned;
    hide Sorted;
    hide AllRecorded;
    ScannedRecords(Recorded(st, FetchDone, s.env), Sorted(s.input.fetch.entries), s.input.feed, s.env);
  }

  lemma PanicBeforeDocument(st: Status, s: Sync)
    requires !UsableDocument(s.input) && !Apply(st, s.input, s.env).ending.Finished?
    ensures Apply(st, s.input, s.env).ending.Interrupted? && Apply(st, s.input, s.env).handled == []
    ensures Processed(st, s.input, s.env) == st
  {
    hide Scanned;
    hide Sorted;
    hide Pruned;
    hide HalfMigrated;
  }

  lemma PanicInDocument(st: Status, s: Sync)
    requires UsableDocument(s.input) && !Apply(st, s.input, s.env).ending.Finished?
    ensures var a, after, d := Apply(st, s.input, s.env), Processed(st, s.input, s.env), ScanOfSync(st, s);
      && a.handled == d.handled
      && if a.ending.Interrupted? && a.handled == [] then after == st
         else
           && after.books == LeftBooks(d, s.env.order, KeysLeftBy(s.input, d.end)) && after.initialized
           && (!AccountedFor(a.ending) ==> after.validators == st.validators && FailedOrRetrying(after))
  {
    hide Scanned;
    hide Sorted;
    hide Pruned;
    hide Outcomes.DeliveredBy;
    UsableSync(st, s);
    ScannedKeepsValidators(Recorded(st, FetchDone, s.env), Sorted(s.input.fetch.entries), s.input.feed, s.env);
    Outcomes.ScanShows(st, s);
  }

  lemma {:induction false} TwoKeysEach(es: seq<Entry>, handled: seq<Handled>)
    ensures |KeysOf(es, handled)| <= 2 * |handled|
  {
    if handled != [] {
      TwoKeysEach(es, handled[1..]);
      var keys := Keys(es, handled[0].entry);
      assert (set k | k in keys) <= {keys[0], keys[|keys| - 1]};
      SubsetSize(set k | k in keys, {keys[0], keys[|keys| - 1]});
    }
  }

  /** Nothing is recorded later than now, and at now nothing but keys of these entries. */
  ghost predicate OnlyTheseNow(es: seq<Entry>, sent: map<Key, int>, handled: seq<Handled>, now: int) {
    forall k :: k in sent ==> sent[k] < now || (sent[k] == now && k in KeysOf(es, handled))
  }

  lemma StampedOnlyThese(es: seq<Entry>, sent: map<Key, int>, handled: seq<Handled>, after: map<Key, int>, now: int)
    requires OnlyTheseNow(es, sent, [], now) && StampedOnly(es, sent, handled, after, now)
    ensures OnlyTheseNow(es, after, handled, now)
  {
  }

  /** The migration keeps send times. */
  lemma MigrationKeepsOlder(es: seq<Entry>, b: Books, now: int)
    requires forall k :: k in b.sent ==> b.sent[k] < now
    ensures OnlyTheseNow(es, Migrated(es, b).sent, [], now)
  {
    hide Follow;
    hide Moves;
    hide MoveAll;
    MigrationMoves(es, b);
    FollowedKeys(Moves(es), b.sent);
  }

  lemma ScanRecordsOnlyThese(st: Status, es: seq<Entry>, f: Feed, env: Env)
    requires es != [] && forall k :: k in st.books.sent ==> st.books.sent[k] < env.SentAt()
    ensures var d := Scanned(st, es, f, env);
      d.handled != [] ==> OnlyTheseNow(es, d.st.books.sent, d.handled, env.SentAt())
  {
    hide Deliver;
    hide Migrated;
    hide OnlyTheseNow;
    hide StampedOnly;
    ScanOf(st, es, f, env);
    if !BacklogPanics(st, es, f, env) {
      var d := Scanned(st, es, f, env);
      MigrationKeepsOlder(es, st.books, env.SentAt());
      LoopStampsOnly(env, f, es, WindowOf(st, es, env), Begun(es, st, env.catchUp), ScanFrom(st, es, env));
      assert Begun(es, st, env.catchUp).books.sent == Migrated(es, st.books).sent;
      StampedOnlyThese(es, Migrated(es, st.books).sent, d.handled, d.st.books.sent, env.SentAt());
    }
  }

  /** However full the dedup map was and however the sync ended: when all of it is of an earlier
      second, the prune drops no key of the up to 25 entries the sync handled. */
  lemma HandledKeysSurviveThePrune(st: Status, s: Sync)
    requires UsableDocument(s.input) && 0 < |Apply(st, s.input, s.env).handled| <= 25
    requires forall k :: k in st.books.sent ==> st.books.sent[k] < s.env.SentAt()
    ensures AllRecorded(Sorted(s.input.fetch.entries), Processed(st, s.input, s.env).books,
                        Apply(st, s.input, s.env).handled, s.env.SentAt())
  {
    hide Scanned;
    hide Sorted;
    hide Apply;
    hide Processed;
    hide KeysOf;
    hide Pruned;
    var es, d, now := Sorted(s.input.fetch.entries), ScanOfSync(st, s), s.env.SentAt();
    UsableSync(st, s);
    var fetched := Recorded(st, FetchDone, s.env);
    ScannedRecords(fetched, es, s.input.feed, s.env);
    ScanRecordsOnlyThese(fetched, es, s.input.feed, s.env);
    TwoKeysEach(es, d.handled);
    var max := KeysLeftBy(s.input, d.end);
    NewestAreKept(s.env.order, d.st.books.sent, max, KeysOf(es, d.handled), now);
    PrunedKeepsTheNewest(s.env.order, d.st.books.sent, max);
  }
}
