/** The room the dedup map must leave: exactly when pruning, over a run of syncs of one document, can
    not make an entry that was sent look new while it is still ahead of the watermark. */
module Rooms {
  import Basics
  import opened Identities
  import opened Statuses
  import opened Ledgers
  import opened Migrations
  import opened KeyMoves
  import opened Handovers
  import opened Pruning
  import opened Attempts
  import opened Deliveries
  import opened Fetches
  import opened FeedSyncs
  import opened Scans

  /** How many keys the entries still to be delivered in front of es[q] will be recorded under. */
  function KeysBefore(es: seq<Entry>, matches: Entry -> bool, sent: map<Key, int>, i: nat, q: nat): int
    requires i <= |es| && q <= |es|
  {
    KeyCount(es, Pending(es, matches, sent, i)) - KeyCount(es, Pending(es, matches, sent, q))
  }

  /** Key x is recorded, and stays among the keys the prune leaves when so many more are recorded. */
  predicate Lasts(order: Order, sent: map<Key, int>, x: Key, more: int) {
    x in sent && |NotOlder(order, sent, x)| + more <= MAX_LAST_SENT
  }

  ghost predicate LastsAt(es: seq<Entry>, matches: Entry -> bool, sent: map<Key, int>, i: nat, q: nat, order: Order)
    requires i <= |es| && q < |es|
  {
    exists x :: x in Keys(es, es[q]) && Lasts(order, sent, x, KeysBefore(es, matches, sent, i, q))
  }

  /** Every entry from es[i] on that reads as sent, and that the filter does not turn down, has a key
      that lasts until the entries in front of it are delivered. */
  ghost predicate RoomFrom(es: seq<Entry>, matches: Entry -> bool, sent: map<Key, int>, i: nat, order: Order)
    requires i <= |es|
  {
    forall q :: i <= q < |es| && matches(es[q]) && Sent(es, sent, es[q]) ==> LastsAt(es, matches, sent, i, q, order)
  }

  /** There is room for a run of syncs of es from the books b. */
  ghost predicate Room(es: seq<Entry>, b: Books, wasInitialized: bool, catchUp: int, matches: Entry -> bool, order: Order) {
    var m := Migrated(es, b);
    RoomFrom(es, matches, m.sent, ScanStart(es, m, catchUp, wasInitialized), order)
  }

  /** A key of an entry ahead is as the scan found it. */
  lemma AheadIsNotStamped(es: seq<Entry>, sent: map<Key, int>, handled: seq<Handled>, after: map<Key, int>, now: int,
                          n: nat, q: nat, x: Key)
    requires n <= q < |es| && Distinct(es) && Grown(es, sent, after, n) && StampedOnly(es, sent, handled, after, now)
    requires x in Keys(es, es[q]) && x in sent
    ensures x in after && after[x] == sent[x]
  {
    hide Keys;
    hide KeysOf;
    hide KeyCount;
  }

  lemma ChangedByStamps(es: seq<Entry>, sent: map<Key, int>, handled: seq<Handled>, after: map<Key, int>, now: int)
    requires StampedOnly(es, sent, handled, after, now)
    ensures |Changed(sent, after)| <= KeyCount(es, Entries(handled))
  {
    hide KeysOf;
    hide KeyCount;
    Basics.SubsetSize(Changed(sent, after), KeysOf(es, handled));
  }

  /** A lasting key of an entry ahead survives the scan's prune and the next migration, and has just
      the keys recorded by the scan less to last for. */
  lemma KeyStillLasts(es: seq<Entry>, b: Books, d: Delivered, next: nat, now: int, left: Books, order: Order, max: nat,
                      q: nat, x: Key, more: nat)
    requires next <= q < |es| && Distinct(es) && Undisturbing(es) && Injective(order) && max >= MAX_LAST_SENT
    requires Grown(es, Migrated(es, b).sent, d.st.books.sent, next)
    requires StampedOnly(es, Migrated(es, b).sent, d.handled, d.st.books.sent, now)
    requires left.sent == Pruned(order, d.st.books.sent, max)
    requires x in Keys(es, es[q]) && Lasts(order, Migrated(es, b).sent, x, KeyCount(es, Entries(d.handled)) + more)
    ensures x in left.sent && Lasts(order, Migrated(es, left).sent, x, more)
  {
    hide Keys;
    hide KeyCount;
    hide Entries;
    hide Migrated;
    hide Grown;
    hide StampedOnly;
    hide Undisturbing;
    hide Distinct;
    hide NotOlder;
    hide Changed;
    var m, after, once := Migrated(es, b).sent, d.st.books.sent, Migrated(es, left).sent;
    AheadIsNotStamped(es, m, d.handled, after, now, next, q, x);
    ChangedByStamps(es, m, d.handled, after, now);
    RankGrows(order, m, after, x);
    KeptIffFewNotOlder(order, after, max, x);
    PrunedKeepsTheNewest(order, after, max);
    AheadKeepsItsTime(es, b, after, left, next, q, x);
    ChangedByFewer(m, after, left.sent);
    RestsOf(es);
    MigrationChangesNoMore(es, b, left);
    RankGrows(order, m, once, x);
  }

  lemma RestsOf(es: seq<Entry>)
    requires Undisturbing(es)
    ensures ComeToRest(Moves(es))
  {
    hide ComeToRest;
    hide HandsNothingOn;
  }

  lemma {:induction false} PendingDependsOnMatching(es: seq<Entry>, matches: Entry -> bool,
                                                    a: map<Key, int>, b: map<Key, int>, i: nat)
    requires i <= |es|
    requires forall k :: i <= k < |es| && matches(es[k]) ==> Sent(es, a, es[k]) == Sent(es, b, es[k])
    ensures Pending(es, matches, a, i) == Pending(es, matches, b, i)
    decreases |es| - i
  {
    hide *;
    PendingUnfolds(es, matches, a, i);
    PendingUnfolds(es, matches, b, i);
    if i < |es| {
      PendingDependsOnMatching(es, matches, a, b, i + 1);
    }
  }

  /** What is counted before q shrinks by what was handled. */
  lemma LessIsBefore(es: seq<Entry>, matches: Entry -> bool, sent: map<Key, int>, i: nat, d: Delivered, next: nat,
                     once: map<Key, int>, q: nat)
    requires i <= next <= q <= |es|
    requires Pending(es, matches, sent, i) == Entries(d.handled) + Pending(es, matches, d.st.books.sent, next)
    requires forall k :: next <= k < |es| && matches(es[k]) ==>
      Sent(es, d.st.books.sent, es[k]) == Sent(es, sent, es[k]) && Sent(es, once, es[k]) == Sent(es, sent, es[k])
    ensures KeysBefore(es, matches, sent, i, q) == KeyCount(es, Entries(d.handled)) + KeysBefore(es, matches, once, next, q)
  {
    hide Sent;
    hide Pending;
    hide KeyCount;
    hide Entries;
    PendingDependsOnMatching(es, matches, d.st.books.sent, once, next);
    PendingDependsOnMatching(es, matches, sent, once, q);
    KeyCountAppend(es, Entries(d.handled), Pending(es, matches, d.st.books.sent, next));
  }

  lemma {:induction false} NoneBeforeIsNegative(es: seq<Entry>, matches: Entry -> bool, sent: map<Key, int>, i: nat, q: nat)
    requires i <= q <= |es|
    ensures KeysBefore(es, matches, sent, i, q) >= 0
    decreases q - i
  {
    hide Sent;
    hide Keys;
    if i < q {
      NoneBeforeIsNegative(es, matches, sent, i + 1, q);
      var rest := Pending(es, matches, sent, i + 1);
      assert ([es[i]] + rest)[1..] == rest && [] + rest == rest;
    }
  }

  /** What the loop's room says of one entry ahead: it is as sent in the books left, and has room there. */
  lemma AheadHasRoom(es: seq<Entry>, matches: Entry -> bool, b: Books, i: nat, d: Delivered, next: nat, now: int,
                     left: Books, order: Order, max: nat, q: nat)
    requires i <= next <= q < |es| && Distinct(es) && Undisturbing(es) && Injective(order) && max >= MAX_LAST_SENT
    requires Grown(es, Migrated(es, b).sent, d.st.books.sent, next)
    requires StampedOnly(es, Migrated(es, b).sent, d.handled, d.st.books.sent, now)
    requires left.sent == Pruned(order, d.st.books.sent, max) && RoomFrom(es, matches, Migrated(es, b).sent, i, order)
    requires Pending(es, matches, Migrated(es, b).sent, i) ==
      Entries(d.handled) + Pending(es, matches, d.st.books.sent, next)
    requires forall k :: next <= k < |es| ==> Sent(es, d.st.books.sent, es[k]) == Sent(es, Migrated(es, b).sent, es[k])
    requires matches(es[q]) && Sent(es, Migrated(es, b).sent, es[q])
    ensures Sent(es, left.sent, es[q])
    ensures LastsAt(es, matches, Migrated(es, left).sent, next, q, order) ||
      KeysBefore(es, matches, Migrated(es, left).sent, next, q) != KeysBefore(es, matches, Migrated(es, b).sent, next, q)
  {
    hide Keys;
    hide KeyCount;
    hide Entries;
    hide Migrated;
    hide Grown;
    hide StampedOnly;
    hide Undisturbing;
    hide Distinct;
    hide Pending;
    hide KeysBefore;
    hide Lasts;
    var m := Migrated(es, b).sent;
    LessIsBefore(es, matches, m, i, d, next, m, q);
    NoneBeforeIsNegative(es, matches, m, next, q);
    assert LastsAt(es, matches, m, i, q, order);
    var x :| x in Keys(es, es[q]) && Lasts(order, m, x, KeysBefore(es, matches, m, i, q));
    KeyStillLasts(es, b, d, next, now, left, order, max, q, x, KeysBefore(es, matches, m, next, q));
  }

  /** With room, the prune of a scan is harmless: entries ahead that pass the filter read as sent in
      the books left exactly when they did, and there still is room. */
  lemma PruningIsHarmless(es: seq<Entry>, matches: Entry -> bool, b: Books, i: nat, d: Delivered, next: nat, now: int,
                          left: Books, order: Order, max: nat)
    requires i <= next <= |es| && Distinct(es) && Undisturbing(es) && Injective(order) && max >= MAX_LAST_SENT
    requires Grown(es, Migrated(es, b).sent, d.st.books.sent, next)
    requires StampedOnly(es, Migrated(es, b).sent, d.handled, d.st.books.sent, now)
    requires left.sent == Pruned(order, d.st.books.sent, max) && RoomFrom(es, matches, Migrated(es, b).sent, i, order)
    requires Pending(es, matches, Migrated(es, b).sent, i) ==
      Entries(d.handled) + Pending(es, matches, d.st.books.sent, next)
    requires forall k :: next <= k < |es| ==> Sent(es, d.st.books.sent, es[k]) == Sent(es, Migrated(es, b).sent, es[k])
    requires forall k :: next <= k < |es| ==> Sent(es, Migrated(es, left).sent, es[k]) == Sent(es, left.sent, es[k])
    ensures forall k :: next <= k < |es| && matches(es[k]) ==>
      Sent(es, Migrated(es, left).sent, es[k]) == Sent(es, d.st.books.sent, es[k])
    ensures RoomFrom(es, matches, Migrated(es, left).sent, next, order)
  {
    hide Sent;
    hide KeyCount;
    hide Entries;
    hide Migrated;
    hide Grown;
    hide StampedOnly;
    hide Undisturbing;
    hide Distinct;
    hide Pending;
    hide LastsAt;
    var m, once := Migrated(es, b).sent, Migrated(es, left).sent;
    PrunedKeepsTheNewest(order, d.st.books.sent, max);
    forall k | next <= k < |es| && matches(es[k]) ensures Sent(es, once, es[k]) == Sent(es, m, es[k]) {
      if Sent(es, m, es[k]) {
        AheadHasRoom(es, matches, b, i, d, next, now, left, order, max, k);
      } else {
        FewerKeys(es, left.sent, d.st.books.sent, es[k]);
      }
    }
    forall q | next <= q < |es| && matches(es[q]) && Sent(es, once, es[q]) ensures LastsAt(es, matches, once, next, q, order) {
      AheadHasRoom(es, matches, b, i, d, next, now, left, order, max, q);
      PendingDependsOnMatching(es, matches, once, m, next);
      PendingDependsOnMatching(es, matches, once, m, q);
    }
  }

  lemma LoopLeavesTheRest(es: seq<Entry>, st: Status, f: Feed, env: Env, d: Delivered, next: nat, max: nat)
    requires es != [] && Distinct(es) && Undisturbing(es) && max >= MAX_LAST_SENT && Injective(env.order)
    requires Room(es, st.books, st.initialized, env.catchUp, f.matches, env.order)
    requires var m := Migrated(es, st.books);
      && Advanced(es, f, Begun(es, st, env.catchUp), ScanStart(es, m, env.catchUp, st.initialized), d, next)
      && StampedOnly(es, m.sent, d.handled, d.st.books.sent, env.SentAt())
    ensures var rest := Todo(es, LeftBooks(d, env.order, max), true, env.catchUp, f.matches);
      && Todo(es, st.books, st.initialized, env.catchUp, f.matches) == Entries(d.handled) + rest
      && (d.end.Done? && !d.end.verdict.pending ==> rest == [])
      && Room(es, LeftBooks(d, env.order, max), true, env.catchUp, f.matches, env.order)
  {
    hide Migrated;
    hide Sent;
    hide ScanStart;
    hide Undisturbing;
    hide Distinct;
    hide Pending;
    hide Grown;
    hide StampedOnly;
    hide RoomFrom;
    hide KeysBefore;
    hide Clamp;
    hide Identity;
    hide Entries;
    hide Keys;
    var m, b := Migrated(es, st.books), LeftBooks(d, env.order, max);
    var i := ScanStart(es, m, env.catchUp, st.initialized);
    assert Begun(es, st, env.catchUp).books.sent == m.sent;
    StartsBehindTheLast(es, st, d, next, f, env, max);
    PruningIsHarmless(es, f.matches, st.books, i, d, next, env.SentAt(), b, env.order, max);
    PendingDependsOnMatching(es, f.matches, Migrated(es, b).sent, d.st.books.sent, next);
  }

  /** One scan moves the to-do list on: what it handled is a prefix, and what the next sync of the
      document is to deliver is the rest; a scan with nothing pending leaves no rest. */
  lemma ScanAdvances(es: seq<Entry>, st: Status, f: Feed, env: Env, max: nat)
    requires es != [] && Distinct(es) && Undisturbing(es) && max >= MAX_LAST_SENT && Injective(env.order)
    requires Room(es, st.books, st.initialized, env.catchUp, f.matches, env.order)
    ensures var d := Scanned(st, es, f, env);
      var rest := Todo(es, LeftBooks(d, env.order, max), true, env.catchUp, f.matches);
      d.end.Done? || d.handled != [] ==>
        && Todo(es, st.books, st.initialized, env.catchUp, f.matches) == Entries(d.handled) + rest
        && (d.end.Done? && !d.end.verdict.pending ==> rest == [])
        && Room(es, LeftBooks(d, env.order, max), true, env.catchUp, f.matches, env.order)
  {
    hide Todo;
    hide Room;
    hide Advanced;
    hide StampedOnly;
    hide Undisturbing;
    hide Distinct;
    hide Deliver;
    if !BacklogPanics(st, es, f, env) {
      var next := ScanIsALoop(es, st, f, env);
      LoopLeavesTheRest(es, st, f, env, Scanned(st, es, f, env), next, max);
    }
  }

  /** There is room when all keys fit, those of the entries to come included. */
  lemma FewKeysAreRoom(es: seq<Entry>, b: Books, wasInitialized: bool, catchUp: int, matches: Entry -> bool, order: Order)
    requires |Migrated(es, b).sent| + KeyCount(es, Todo(es, b, wasInitialized, catchUp, matches)) <= MAX_LAST_SENT
    ensures Room(es, b, wasInitialized, catchUp, matches, order)
  {
    hide Migrated;
    hide ScanStart;
    hide Pending;
    hide KeyCount;
    hide Keys;
    var m := Migrated(es, b).sent;
    var i := ScanStart(es, Migrated(es, b), catchUp, wasInitialized);
    forall q | i <= q < |es| && matches(es[q]) && Sent(es, m, es[q]) ensures LastsAt(es, matches, m, i, q, order) {
      var x :| x in Keys(es, es[q]) && x in m;
      Basics.SubsetSize(NotOlder(order, m, x), m.Keys);
      assert Lasts(order, m, x, KeysBefore(es, matches, m, i, q));
    }
  }

  /** There is room when nothing that is still to be scanned reads as sent. */
  lemma NothingAheadIsRoom(es: seq<Entry>, b: Books, wasInitialized: bool, catchUp: int, matches: Entry -> bool, order: Order)
    requires var m := Migrated(es, b);
      forall k :: ScanStart(es, m, catchUp, wasInitialized) <= k < |es| && matches(es[k]) ==> !Sent(es, m.sent, es[k])
    ensures Room(es, b, wasInitialized, catchUp, matches, order)
  {
  }
}
