/** Runs of syncs over changing documents: an entry is not handled again, and a link whose fragment
    or ref rotated is recognised, until its record is moved or pruned. */
module Recognition {
  import Basics
  import opened Identities
  import opened Statuses
  import opened Ledgers
  import opened Migrations
  import opened KeyMoves
  import opened Handovers
  import opened Pruning
  import opened Attempts
  import opened Deliveries
  import opened Fetches
  import opened FeedSyncs
  import opened Scans
  import opened FeedRuns
  import opened Skips
  import opened Panics

  /** No carried-over entry of the fetch was recorded under this key before. */
  predicate Untouched(es: seq<Entry>, key: Key) {
    forall i :: 0 <= i < |es| && CarriesOver(es, i) ==>
      && key != EntryKey(Previous(es[i]))
      && (PreviousStripped(es[i]) != EMPTY ==> key != StrippedKey(PreviousStripped(es[i])))
  }

  lemma {:induction false} UntouchedKeyStays(es: seq<Entry>, b: Books, key: Key, n: nat)
    requires n <= |es| && key in b.sent && Untouched(es, key)
    ensures key in MigratedTo(es, b, n).sent && MigratedTo(es, b, n).sent[key] == b.sent[key]
  {
    if n > 0 {
      UntouchedKeyStays(es, b, key, n - 1);
      if CarriesOver(es, n - 1) {
        hide Untouched;
        hide Identity;
        hide Count;
        hide Previous;
        hide PreviousStripped;
        hide CarriesOver;
      }
    }
  }

  /** The scan leaves a recorded key recorded and handles no entry that has it. */
  lemma {:induction false} LoopKeepsKey(env: Env, f: Feed, es: seq<Entry>, window: seq<Entry>, st: Status, i: nat, key: Key)
    requires i <= |es| && key in st.books.sent
    ensures var d := Deliver(env, f, es, window, st, i);
      key in d.st.books.sent && forall h :: h in d.handled ==> key !in Keys(es, h.entry)
    decreases |es| - i
  {
    hide TurnAt;
    hide Keys;
    if i < |es| {
      if PassedOver(f, es, st.books.sent, es[i]) {
        LoopKeepsKey(env, f, es, window, st, i + 1, key);
      } else {
        TurnBooks(env, f, es, window, st, es[i]);
        match TurnAt(env, f, es, window, st, es[i])
        case Stop(d) =>
        case GoOn(next, _) => LoopKeepsKey(env, f, es, window, next, i + 1, key);
      }
    }
  }

  lemma ScanKeepsKey(st: Status, es: seq<Entry>, f: Feed, env: Env, key: Key)
    requires es != [] && key in st.books.sent && Untouched(es, key)
    ensures var d := Scanned(st, es, f, env);
      && (d.end.Done? || d.handled != [] ==> key in d.st.books.sent)
      && forall h :: h in d.handled ==> key !in Keys(es, h.entry)
  {
    hide Deliver;
    hide Untouched;
    hide MigratedTo;
    hide Keys;
    UntouchedKeyStays(es, st.books, key, |es|);
    ScanOf(st, es, f, env);
    if !BacklogPanics(st, es, f, env) {
      LoopKeepsKey(env, f, es, WindowOf(st, es, env), Begun(es, st, env.catchUp), ScanFrom(st, es, env), key);
    }
  }

  /** The close of the scan does not prune this key. */
  ghost predicate NotPruned(st: Status, s: Sync, key: Key)
    requires UsableDocument(s.input)
  {
    var d := ScanOfSync(st, s);
    key in d.st.books.sent ==> key in LeftBooks(d, s.env.order, KeysLeftBy(s.input, d.end)).sent
  }

  /** The sync neither moves nor prunes this key. */
  ghost predicate Keeps(st: Status, s: Sync, key: Key) {
    UsableDocument(s.input) ==> Untouched(Sorted(s.input.fetch.entries), key) && NotPruned(st, s, key)
  }

  /** The sync handles no entry that has this key in its fetch. */
  ghost predicate HandlesNone(st: Status, s: Sync, key: Key) {
    forall h :: h in Apply(st, s.input, s.env).handled ==>
      s.input.fetch.Document? && key !in Keys(Sorted(s.input.fetch.entries), h.entry)
  }

  lemma SyncKeepsKey(st: Status, s: Sync, key: Key)
    requires key in st.books.sent && Keeps(st, s, key)
    ensures key in Processed(st, s.input, s.env).books.sent && HandlesNone(st, s, key)
  {
    hide Apply;
    hide Processed;
    hide Scanned;
    hide Sorted;
    hide Untouched;
    hide Keys;
    hide Pruned;
    if UsableDocument(s.input) {
      UsableSync(st, s);
      ScanKeepsKey(Recorded(st, FetchDone, s.env), Sorted(s.input.fetch.entries), s.input.feed, s.env, key);
    } else {
      QuietSync(st, s);
    }
  }

  ghost predicate KeptThrough(st: Status, syncs: seq<Sync>, key: Key) {
    forall k :: 0 <= k < |syncs| ==> Keeps(RunSyncs(st, syncs[..k]).st, syncs[k], key)
  }

  lemma {:induction false} RunKeepsKey(st: Status, syncs: seq<Sync>, key: Key)
    requires key in st.books.sent && KeptThrough(st, syncs, key)
    ensures key in RunSyncs(st, syncs).st.books.sent
    ensures forall k :: 0 <= k < |syncs| ==> HandlesNone(RunSyncs(st, syncs[..k]).st, syncs[k], key)
  {
    hide Keeps;
    hide HandlesNone;
    hide Processed;
    hide Apply;
    RunUnfolds(st, syncs);
    if syncs != [] {
      var front, last := syncs[..|syncs| - 1], syncs[|syncs| - 1];
      forall k | 0 <= k < |front| ensures Keeps(RunSyncs(st, front[..k]).st, front[k], key) {
        assert front[..k] == syncs[..k];
      }
      RunKeepsKey(st, front, key);
      SyncKeepsKey(RunSyncs(st, front).st, last, key);
      forall k | 0 <= k < |syncs| ensures HandlesNone(RunSyncs(st, syncs[..k]).st, syncs[k], key) {
        if k < |front| {
          assert front[..k] == syncs[..k];
        }
      }
    }
  }

  /** h was handled in the sync, under this key, which its close did not prune. */
  ghost predicate RecordedBy(st: Status, s: Sync, h: Handled, key: Key) {
    && UsableDocument(s.input) && h in Apply(st, s.input, s.env).handled
    && key in Keys(Sorted(s.input.fetch.entries), h.entry) && NotPruned(st, s, key)
  }

  /** The close of its own sync prunes no key of an entry, when what was recorded before is of an
      earlier second and the sync handled at most 25. */
  lemma OwnSyncRecords(st: Status, s: Sync, h: Handled, key: Key)
    requires UsableDocument(s.input) && h in Apply(st, s.input, s.env).handled
    requires key in Keys(Sorted(s.input.fetch.entries), h.entry) && |Apply(st, s.input, s.env).handled| <= 25
    requires forall k :: k in st.books.sent ==> st.books.sent[k] < s.env.SentAt()
    ensures RecordedBy(st, s, h, key)
  {
    hide Apply;
    hide Processed;
    hide Scanned;
    hide Sorted;
    hide Keys;
    hide Pruned;
    UsableSync(st, s);
    HandledKeysSurviveThePrune(st, s);
  }

  lemma HandledIsRecorded(st: Status, s: Sync, h: Handled, key: Key)
    requires RecordedBy(st, s, h, key)
    ensures key in Processed(st, s.input, s.env).books.sent
  {
    hide Apply;
    hide Processed;
    hide Scanned;
    hide Sorted;
    hide Keys;
    hide Pruned;
    UsableSync(st, s);
    ScannedRecords(Recorded(st, FetchDone, s.env), Sorted(s.input.fetch.entries), s.input.feed, s.env);
  }

  /** Over any run of syncs of any documents, once an entry was handled, no entry with its identity
      is handled again while its key is neither moved nor pruned. */
  lemma HandledAtMostOnce(st: Status, s: Sync, h: Handled, syncs: seq<Sync>)
    requires RecordedBy(st, s, h, EntryKey(Identity(h.entry)))
    requires KeptThrough(Processed(st, s.input, s.env), syncs, EntryKey(Identity(h.entry)))
    ensures var after := Processed(st, s.input, s.env);
      forall k, g :: 0 <= k < |syncs| && g in Apply(RunSyncs(after, syncs[..k]).st, syncs[k].input, syncs[k].env).handled ==>
        Identity(g.entry) != Identity(h.entry)
  {
    hide Apply;
    hide Processed;
    hide RecordedBy;
    hide KeptThrough;
    hide Identity;
    hide RunSyncs;
    hide Sorted;
    var after, key := Processed(st, s.input, s.env), EntryKey(Identity(h.entry));
    HandledIsRecorded(st, s, h, key);
    RunKeepsKey(after, syncs, key);
    forall k, g | 0 <= k < |syncs| && g in Apply(RunSyncs(after, syncs[..k]).st, syncs[k].input, syncs[k].env).handled
      ensures Identity(g.entry) != Identity(h.entry)
    {
      assert HandlesNone(RunSyncs(after, syncs[..k]).st, syncs[k], key);
      OwnKeyFirst(Sorted(syncs[k].input.fetch.entries), g.entry);
    }
  }

  lemma OwnKeyFirst(es: seq<Entry>, e: Entry)
    ensures EntryKey(Identity(e)) in Keys(es, e)
  {
    assert Keys(es, e)[0] == EntryKey(Identity(e));
  }

  lemma UniqueKeyToo(es: seq<Entry>, e: Entry)
    requires Unique(es, e) != EMPTY
    ensures StrippedKey(Unique(es, e)) in Keys(es, e)
  {
    assert Keys(es, e)[1] == StrippedKey(Unique(es, e));
  }

  /** Rotated links are recognised across fetches: once an entry was handled while its stripped
      identity was unique, then, after any syncs of any documents that neither move nor prune its
      stripped key, an entry that alone has that stripped identity in a later fetch reads as sent when
      that fetch's sync has migrated the books, and is not handled. */
  lemma RotatedLinkReadsAsSent(st: Status, s: Sync, h: Handled, syncs: seq<Sync>, later: Sync, rotated: nat)
    requires UsableDocument(s.input) && Unique(Sorted(s.input.fetch.entries), h.entry) != EMPTY
    requires var key := StrippedKey(Unique(Sorted(s.input.fetch.entries), h.entry));
      && RecordedBy(st, s, h, key) && KeptThrough(Processed(st, s.input, s.env), syncs, key)
      && UsableDocument(later.input) && Untouched(Sorted(later.input.fetch.entries), key)
    requires var es := Sorted(later.input.fetch.entries);
      rotated < |es| && Unique(es, es[rotated]) == Unique(Sorted(s.input.fetch.entries), h.entry)
    ensures var es, so := Sorted(later.input.fetch.entries), RunSyncs(Processed(st, s.input, s.env), syncs);
      && Sent(es, Migrated(es, so.st.books).sent, es[rotated])
      && forall g :: g in Apply(so.st, later.input, later.env).handled ==> g.entry != es[rotated]
  {
    hide Apply;
    hide Processed;
    hide RecordedBy;
    hide KeptThrough;
    hide Untouched;
    hide Unique;
    hide RunSyncs;
    hide Sorted;
    hide MigratedTo;
    hide Scanned;
    var es, key := Sorted(later.input.fetch.entries), StrippedKey(Unique(Sorted(s.input.fetch.entries), h.entry));
    var so := RunSyncs(Processed(st, s.input, s.env), syncs);
    HandledIsRecorded(st, s, h, key);
    RunKeepsKey(Processed(st, s.input, s.env), syncs, key);
    UntouchedKeyStays(es, so.st.books, key, |es|);
    UniqueKeyToo(es, es[rotated]);
    UsableSync(so.st, later);
    ScanKeepsKey(Recorded(so.st, FetchDone, later.env), es, later.input.feed, later.env, key);
  }

  /** The keys recorded at time t or later. */
  function Since(m: map<Key, int>, t: int): set<Key> {
    set k | k in m && m[k] >= t
  }

  lemma FewSinceAreKept(order: Order, m: map<Key, int>, max: nat, k: Key)
    requires k in m && |Since(m, m[k])| <= max
    ensures k in Pruned(order, m, max)
  {
    var kept := Pruned(order, m, max);
    PrunedKeepsTheNewest(order, m, max);
    if k !in kept {
      PruneIsFull(order, m, max, k);
      forall j | j in kept ensures m[j] >= m[k] {
        assert !Before(order, m, j, k);
      }
      assert |kept.Keys + {k}| == max + 1;
      Basics.SubsetSize(kept.Keys + {k}, Since(m, m[k]));
    }
  }

  /** The migration keeps times, so no more keys are of then or later. */
  lemma MigrationAddsNone(es: seq<Entry>, b: Books, t: int)
    ensures |Since(Migrated(es, b).sent, t)| <= |Since(b.sent, t)|
  {
    hide Follow;
    hide Moves;
    hide MoveAll;
    hide Migrated;
    MigrationMoves(es, b);
    FollowedKeys(Moves(es), b.sent);
    ImageSize(Since(Migrated(es, b).sent, t), Since(b.sent, t), k => Follow(Moves(es), k));
  }

  lemma StampsAddTheirs(m: map<Key, int>, keys: set<Key>, now: int, t: int)
    ensures |Since(m + Stamps(keys, now), t)| <= |Since(m, t)| + |keys|
  {
    Basics.SubsetSize(Since(m + Stamps(keys, now), t), Since(m, t) + keys);
  }

  lemma FewerSince(m: map<Key, int>, fewer: map<Key, int>, t: int)
    requires forall k :: k in fewer ==> k in m && fewer[k] == m[k]
    ensures |Since(fewer, t)| <= |Since(m, t)|
  {
    Basics.SubsetSize(Since(fewer, t), Since(m, t));
  }

  /** How many keys a sync records. */
  ghost function KeysRecorded(st: Status, s: Sync): nat {
    if UsableDocument(s.input) then KeyCount(Sorted(s.input.fetch.entries), Entries(Apply(st, s.input, s.env).handled)) else 0
  }

  ghost function KeysRecordedBy(st: Status, syncs: seq<Sync>): nat {
    if syncs == [] then 0
    else KeysRecordedBy(st, syncs[..|syncs| - 1]) + KeysRecorded(RunSyncs(st, syncs[..|syncs| - 1]).st, syncs[|syncs| - 1])
  }

  /** No fetch of these syncs moves the key. */
  ghost predicate NeverMoved(syncs: seq<Sync>, key: Key) {
    forall s :: s in syncs && UsableDocument(s.input) ==> Untouched(Sorted(s.input.fetch.entries), key)
  }

  lemma ScanStampsOnly(st: Status, es: seq<Entry>, f: Feed, env: Env)
    requires es != [] && !BacklogPanics(st, es, f, env)
    ensures var d := Scanned(st, es, f, env);
      StampedOnly(es, Migrated(es, st.books).sent, d.handled, d.st.books.sent, env.SentAt())
  {
    hide Deliver;
    hide StampedOnly;
    hide Migrated;
    ScanOf(st, es, f, env);
    LoopStampsOnly(env, f, es, WindowOf(st, es, env), Begun(es, st, env.catchUp), ScanFrom(st, es, env));
    assert Begun(es, st, env.catchUp).books.sent == Migrated(es, st.books).sent;
  }

  /** What one scan does to a key and to the keys of its time or later. */
  lemma ScanAddsTheRecorded(st: Status, es: seq<Entry>, f: Feed, env: Env, key: Key)
    requires es != [] && key in st.books.sent && Untouched(es, key) && !BacklogPanics(st, es, f, env)
    ensures var d, t := Scanned(st, es, f, env), st.books.sent[key];
      && key in d.st.books.sent && d.st.books.sent[key] == t
      && |Since(d.st.books.sent, t)| <= |Since(st.books.sent, t)| + KeyCount(es, Entries(d.handled))
  {
    hide Scanned;
    hide Untouched;
    hide MigratedTo;
    hide Since;
    hide KeyCount;
    hide KeysOf;
    hide Entries;
    var d, t, m := Scanned(st, es, f, env), st.books.sent[key], Migrated(es, st.books).sent;
    UntouchedKeyStays(es, st.books, key, |es|);
    MigrationAddsNone(es, st.books, t);
    ScanStampsOnly(st, es, f, env);
    StampsAddTheirs(m, KeysOf(es, d.handled), env.SentAt(), t);
  }

  /** The key outlives one sync while few enough keys are of its time or later. */
  lemma FewKeysKeep(st: Status, s: Sync, key: Key)
    requires key in st.books.sent && (UsableDocument(s.input) ==> Untouched(Sorted(s.input.fetch.entries), key))
    requires |Since(st.books.sent, st.books.sent[key])| + KeysRecorded(st, s) <= MAX_LAST_SENT
    ensures Keeps(st, s, key)
    ensures var after, t := Processed(st, s.input, s.env).books.sent, st.books.sent[key];
      && key in after && after[key] == t && |Since(after, t)| <= |Since(st.books.sent, t)| + KeysRecorded(st, s)
  {
    hide Apply;
    hide Processed;
    hide Scanned;
    hide Sorted;
    hide Untouched;
    hide Keys;
    hide Pruned;
    hide Since;
    hide KeyCount;
    hide Entries;
    hide BacklogPanics;
    if UsableDocument(s.input) {
      var es, fetched, t := Sorted(s.input.fetch.entries), Recorded(st, FetchDone, s.env), st.books.sent[key];
      var d := Scanned(fetched, es, s.input.feed, s.env);
      var max := KeysLeftBy(s.input, d.end);
      UsableSync(st, s);
      PrunedKeepsTheNewest(s.env.order, d.st.books.sent, max);
      if BacklogPanics(fetched, es, s.input.feed, s.env) {
        BacklogSkipKeeps(fetched, es, s.input.feed, s.env, key);
      } else {
        ScanAddsTheRecorded(fetched, es, s.input.feed, s.env, key);
      }
      FewSinceAreKept(s.env.order, d.st.books.sent, max, key);
      FewerSince(d.st.books.sent, Pruned(s.env.order, d.st.books.sent, max), t);
    } else {
      QuietSync(st, s);
    }
  }

  lemma BacklogSkipKeeps(st: Status, es: seq<Entry>, f: Feed, env: Env, key: Key)
    requires es != [] && BacklogPanics(st, es, f, env) && key in st.books.sent && Untouched(es, key)
    ensures var d, t := Scanned(st, es, f, env), st.books.sent[key];
      && d.handled == [] && d.end.Panicked? && key in d.st.books.sent && d.st.books.sent[key] == t
      && |Since(d.st.books.sent, t)| <= |Since(st.books.sent, t)|
  {
    hide Untouched;
    hide MigratedTo;
    hide Since;
    hide Clamp;
    UntouchedKeyStays(es, st.books, key, |es|);
    MigrationAddsNone(es, st.books, st.books.sent[key]);
  }

  /** And a run, while all the keys it records leave few enough. */
  lemma {:induction false} FewLaterKeysKeep(st: Status, syncs: seq<Sync>, key: Key)
    requires key in st.books.sent && NeverMoved(syncs, key)
    requires |Since(st.books.sent, st.books.sent[key])| + KeysRecordedBy(st, syncs) <= MAX_LAST_SENT
    ensures KeptThrough(st, syncs, key)
    ensures var end, t := RunSyncs(st, syncs).st.books.sent, st.books.sent[key];
      key in end && end[key] == t && |Since(end, t)| <= |Since(st.books.sent, t)| + KeysRecordedBy(st, syncs)
  {
    hide Keeps;
    hide Processed;
    hide Apply;
    hide Since;
    hide KeysRecorded;
    hide RunSyncs;
    RunUnfolds(st, syncs);
    if syncs != [] {
      var front, last := syncs[..|syncs| - 1], syncs[|syncs| - 1];
      assert last in syncs;
      FewLaterKeysKeep(st, front, key);
      FewKeysKeep(RunSyncs(st, front).st, last, key);
      forall k | 0 <= k < |syncs| ensures Keeps(RunSyncs(st, syncs[..k]).st, syncs[k], key) {
        if k < |front| {
          assert front[..k] == syncs[..k] && front[k] == syncs[k];
        }
      }
    }
  }

  /** The sync records its handled entries at its own time, which no older key has. */
  lemma OwnKeysSince(st: Status, s: Sync, h: Handled, key: Key)
    requires UsableDocument(s.input) && h in Apply(st, s.input, s.env).handled
    requires key in Keys(Sorted(s.input.fetch.entries), h.entry)
    requires forall k :: k in st.books.sent ==> st.books.sent[k] < s.env.SentAt()
    requires KeysRecorded(st, s) <= MAX_LAST_SENT
    ensures RecordedBy(st, s, h, key)
    ensures var after, t := Processed(st, s.input, s.env).books.sent, s.env.SentAt();
      key in after && after[key] == t && |Since(after, t)| <= KeysRecorded(st, s)
  {
    hide Apply;
    hide Processed;
    hide Scanned;
    hide Sorted;
    hide Keys;
    hide Pruned;
    hide KeyCount;
    hide KeysOf;
    hide BacklogPanics;
    hide Since;
    var es, fetched, t := Sorted(s.input.fetch.entries), Recorded(st, FetchDone, s.env), s.env.SentAt();
    var d := Scanned(fetched, es, s.input.feed, s.env);
    UsableSync(st, s);
    HandledDidNotPanic(fetched, es, s.input.feed, s.env);
    ScannedRecords(fetched, es, s.input.feed, s.env);
    ScanStampsOnly(fetched, es, s.input.feed, s.env);
    MigrationAddsNone(es, st.books, t);
    NoneSince(st.books.sent, t);
    StampsAddTheirs(Migrated(es, st.books).sent, KeysOf(es, d.handled), t, t);
    var max := KeysLeftBy(s.input, d.end);
    PrunedKeepsTheNewest(s.env.order, d.st.books.sent, max);
    assert key in d.st.books.sent && d.st.books.sent[key] == t;
    FewSinceAreKept(s.env.order, d.st.books.sent, max, key);
    FewerSince(d.st.books.sent, Pruned(s.env.order, d.st.books.sent, max), t);
  }

  lemma NoneSince(m: map<Key, int>, t: int)
    requires forall k :: k in m ==> m[k] < t
    ensures |Since(m, t)| == 0
  {
    assert Since(m, t) == {};
  }

  lemma HandledDidNotPanic(st: Status, es: seq<Entry>, f: Feed, env: Env)
    requires es != [] && Scanned(st, es, f, env).handled != []
    ensures !BacklogPanics(st, es, f, env)
  {
    hide Deliver;
    hide Migrated;
    hide RecordedUpTo;
  }

  /** An entry handled once is not handled again until more than 50 keys, its own sync's included, were
      recorded: over any syncs of any documents that do not move its key, no entry with its identity is
      handled. */
  lemma NotAgainUntilFiftyMore(st: Status, s: Sync, h: Handled, syncs: seq<Sync>)
    requires UsableDocument(s.input) && h in Apply(st, s.input, s.env).handled
    requires forall k :: k in st.books.sent ==> st.books.sent[k] < s.env.SentAt()
    requires KeysRecorded(st, s) + KeysRecordedBy(Processed(st, s.input, s.env), syncs) <= MAX_LAST_SENT
    requires NeverMoved(syncs, EntryKey(Identity(h.entry)))
    ensures var after := Processed(st, s.input, s.env);
      forall k, g :: 0 <= k < |syncs| && g in Apply(RunSyncs(after, syncs[..k]).st, syncs[k].input, syncs[k].env).handled ==>
        Identity(g.entry) != Identity(h.entry)
  {
    hide *;
    var after, key := Processed(st, s.input, s.env), EntryKey(Identity(h.entry));
    Opened(s);
    OwnKeyFirst(Sorted(s.input.fetch.entries), h.entry);
    OwnKeysSince(st, s, h, key);
    FewLaterKeysKeep(after, syncs, key);
    HandledAtMostOnce(st, s, h, syncs);
  }

  lemma Opened(s: Sync)
    requires UsableDocument(s.input)
    ensures s.input.fetch.Document?
  {
  }
}
