/** Exactly which documents are delivered once and in order in every run of syncs. */
module OnceOnly {
  import opened Identities
  import opened Statuses
  import opened Ledgers
  import opened Migrations
  import opened KeyMoves
  import opened Handovers
  import opened Pruning
  import opened Attempts
  import opened Deliveries
  import opened Fetches
  import opened FeedSyncs
  import opened Scans
  import opened Rooms
  import opened FeedRuns
  import opened Reachable

  /** Every run of syncs of the document delivers it once and in order, whatever the feed's status
      and filter, the catch-up limit, and the failures in between, when the dedup map has room. order
      is that of the keys' digests. */
  ghost predicate DeliversOnce(entries: seq<Entry>, order: Order) {
    forall st: Status, syncs: seq<Sync>, matches: Entry -> bool, catchUp: int ::
      Tenable(st.books) && Room(Sorted(entries), st.books, st.initialized, catchUp, matches, order)
      && RunOf(st, syncs, entries, matches, catchUp, order)
      ==> DeliveredOnceInOrder(st, syncs, Sorted(entries), matches, catchUp)
  }

  lemma {:induction false} NothingPending(es: seq<Entry>, matches: Entry -> bool, sent: map<Key, int>, i: nat)
    requires i <= |es| && forall k :: i <= k < |es| ==> Sent(es, sent, es[k]) || !matches(es[k])
    ensures Pending(es, matches, sent, i) == []
    decreases |es| - i
  {
    hide *;
    PendingUnfolds(es, matches, sent, i);
    if i < |es| {
      NothingPending(es, matches, sent, i + 1);
    }
  }

  lemma {:induction false} PendingSkips(es: seq<Entry>, matches: Entry -> bool, sent: map<Key, int>, i: nat, j: nat)
    requires i <= j <= |es| && forall k :: i <= k < j ==> Sent(es, sent, es[k]) || !matches(es[k])
    ensures Pending(es, matches, sent, i) == Pending(es, matches, sent, j)
    decreases j - i
  {
    hide *;
    PendingUnfolds(es, matches, sent, i);
    if i < j {
      PendingSkips(es, matches, sent, i + 1, j);
    }
  }

  lemma {:induction false} DeliverSkips(env: Env, f: Feed, es: seq<Entry>, window: seq<Entry>, st: Status, i: nat, j: nat)
    requires i <= j <= |es| && forall k :: i <= k < j ==> PassedOver(f, es, st.books.sent, es[k])
    ensures Deliver(env, f, es, window, st, i) == Deliver(env, f, es, window, st, j)
    decreases j - i
  {
    hide PassedOver;
    hide TurnAt;
    if i < j {
      DeliverSkips(env, f, es, window, st, i + 1, j);
    }
  }

  /** Where the moves can lead a key. */
  ghost predicate Landed(es: seq<Entry>, k: Key, x: Key) {
    x == k || UniqueOrNone(es, x) || exists q :: 0 <= q < |es| && x == EntryKey(Identity(es[q]))
  }

  lemma OneEntrysLanding(es: seq<Entry>, i: nat, k: Key, x: Key)
    requires i < |es| && Landed(es, k, x)
    ensures Landed(es, k, Follow(MovesAt(es, i), x))
  {
    var moves := MovesAt(es, i);
    if moves != [] {
      assert moves[..1] == [moves[0]] && [moves[0]][..0] == [];
      assert Follow([moves[0]], x) == if x == moves[0].from then moves[0].to else x;
      assert Landed(es, k, moves[0].to);
      if |moves| == 2 {
        assert moves[1].to == moves[0].to || moves[1].to == NoKey || IsUniqueKey(es, moves[1].to);
        assert Landed(es, k, moves[1].to);
      }
    }
  }

  lemma {:induction false} KeysLandInTheFetch(es: seq<Entry>, n: nat, k: Key)
    requires n <= |es|
    ensures Landed(es, k, Follow(MovesTo(es, n), k))
  {
    hide Landed;
    hide MovesAt;
    hide Follow;
    if n == 0 {
      UnmovedKeysStay([], k);
      StaysLanded(es, k);
    } else {
      KeysLandInTheFetch(es, n - 1, k);
      OneEntrysLanding(es, n - 1, k, Follow(MovesTo(es, n - 1), k));
      FollowAppend(MovesTo(es, n - 1), MovesAt(es, n - 1), k);
    }
  }

  lemma StaysLanded(es: seq<Entry>, k: Key)
    ensures Landed(es, k, k)
  {
  }

  /** A key that does not come to rest stands, after one pass, for a unique entry of the fetch. */
  lemma RestlessIsUnique(es: seq<Entry>, k: Key) returns (q: nat)
    requires Follow(Moves(es), Follow(Moves(es), k)) != Follow(Moves(es), k)
    ensures q < |es| && Unique(es, es[q]) != EMPTY && Follow(Moves(es), k) == StrippedKey(Unique(es, es[q]))
  {
    hide Follow;
    var at := Follow(Moves(es), k);
    KeysLandInTheFetch(es, |es|, k);
    MigrationMoves(es, Books(NoMark, map[]));
    NoKeyStays(Moves(es));
    if r :| 0 <= r < |es| && at == EntryKey(Identity(es[r])) {
      OwnKeyStays(es, r);
    }
    assert IsUniqueKey(es, at);
    q :| 0 <= q < |es| && Unique(es, es[q]) == at.stripped;
  }

  /** A feed in which every entry renders, and that filters and sends so. */
  function FeedOf(matches: Entry -> bool, sends: Entry -> SendResult): Feed {
    Feed(matches, _ => false, _ => Renders, sends, (_, _) => Completes)
  }

  function SyncOf(entries: seq<Entry>, f: Feed, catchUp: int, order: Order): Sync {
    Sync(Input(Document(entries, Validators("", "")), Usable, f, PrunesAll), Env(0, catchUp, 1, 1, order))
  }

  /** With no watermark, or a lost one, and a limit as large as the fetch, all of it is scanned. */
  lemma ScansAll(es: seq<Entry>, b: Books, wasInitialized: bool)
    requires es != [] && !Resume(es, b.mark).Found?
    ensures ScanStart(es, b, |es|, wasInitialized) == 0
    ensures !PlanOf(es, b, |es|, wasInitialized).skipBacklog
  {
    hide Resume;
  }

  lemma NoMarkStays(es: seq<Entry>, b: Books)
    requires b.mark == NoMark
    ensures Migrated(es, b).mark == NoMark
  {
    WatermarkMovesOnce(es, b, |es|);
  }

  lemma SmallIsNotPruned(order: Order, sent: map<Key, int>)
    requires Size(sent) <= MAX_LAST_SENT
    ensures Pruned(order, sent, MAX_LAST_SENT) == sent
  {
  }

  /** One sync whose books are small is all of a one-sync run. */
  lemma OneSync(st: Status, s: Sync)
    ensures RunSyncs(st, [s]) == History(Processed(st, s.input, s.env), Apply(st, s.input, s.env).handled)
  {
    hide Processed;
    hide Apply;
    assert [s][..0] == [];
    assert RunSyncs(st, [s][..0]) == History(st, []);
  }

  function PlainLength(t: Text): nat { if t.Plain? then |t.s| else 0 }

  /** No plain identity of the fetch, current or previous, is longer. */
  function LongestPlain(es: seq<Entry>): nat {
    if es == [] then 0
    else
      var rest := LongestPlain(es[1..]);
      var a, b := PlainLength(Identity(es[0])), PlainLength(Previous(es[0]));
      if a >= b && a >= rest then a else if b >= rest then b else rest
  }

  lemma {:induction false} LongestIsLongest(es: seq<Entry>, k: nat)
    requires k < |es|
    ensures PlainLength(Identity(es[k])) <= LongestPlain(es) && PlainLength(Previous(es[k])) <= LongestPlain(es)
  {
    hide Identity;
    hide Previous;
    if k > 0 {
      LongestIsLongest(es[1..], k - 1);
    }
  }

  /** The identity of an entry that left the feed. */
  function Gone(es: seq<Entry>): Text { Plain(seq(LongestPlain(es) + 1, _ => 'x')) }

  /** Books of a feed whose watermark entry left it: that entry's key is recorded, and one more. */
  function LostBooks(es: seq<Entry>, x: Key): Books {
    Books(Clamp(Gone(es)), map[EntryKey(Gone(es)) := 0, x := 0])
  }

  lemma GoneIsGone(es: seq<Entry>)
    ensures forall k :: 0 <= k < |es| ==> Identity(es[k]) != Gone(es) && Previous(es[k]) != Gone(es)
    ensures Resume(es, Clamp(Gone(es))) == Lost
    ensures Follow(Moves(es), EntryKey(Gone(es))) == EntryKey(Gone(es))
  {
    var gone, moves := Gone(es), Moves(es);
    hide Identity;
    hide Previous;
    forall k | 0 <= k < |es| ensures Identity(es[k]) != gone && Previous(es[k]) != gone {
      LongestIsLongest(es, k);
      assert PlainLength(gone) == LongestPlain(es) + 1;
    }
    assert FirstMarked(es, Clamp(gone), 0) == |es|;
    forall j | 0 <= j < |moves| ensures moves[j].from != EntryKey(gone) {
      var i := MoveIsAnEntrys(es, |es|, j);
      MovesOfACarriedOver(es, i);
    }
    UnmovedKeysStay(moves, EntryKey(gone));
  }

  lemma LostMarkStays(es: seq<Entry>, b: Books)
    requires b.mark == Clamp(Gone(es))
    ensures Migrated(es, b).mark == b.mark
  {
    GoneIsGone(es);
    WatermarkMovesOnce(es, b, |es|);
  }

  /** When a key does not come to rest, an entry reads as sent in one sync and is to be delivered in
      the next, with nothing sent in between. */
  lemma RestlessIsNotOnce(entries: seq<Entry>, x: Key, order: Order)
    requires entries != [] && Distinct(entries)
    requires var moves := Moves(Sorted(entries)); Follow(moves, Follow(moves, x)) != Follow(moves, x)
    ensures !DeliversOnce(entries, order)
  {
    hide Follow;
    hide Migrated;
    hide Moves;
    hide Unique;
    hide RunOf;
    hide Room;
    hide Todo;
    hide DeliveredOnceInOrder;
    hide LostBooks;
    var es := Sorted(entries);
    SortedKeepsDistinct(entries);
    var q := RestlessIsUnique(es, x);
    var matches := e => e == es[q];
    var st := FRESH.(books := LostBooks(es, x), initialized := true);
    var s := SyncOf(entries, FeedOf(matches, _ => Accepted), |es|, order);
    RestlessTodo(es, x, q, matches);
    RestlessRoom(es, x, q, matches, order);
    RestlessSync(entries, st, s, x, q, matches, order);
    NotOnce(st, s, es, matches);
    LostIsTenable(es, x);
    OneRunIsEnough(entries, st, s, matches, _ => Accepted, order);
  }

  lemma LostIsTenable(es: seq<Entry>, x: Key)
    ensures Tenable(LostBooks(es, x))
  {
  }

  lemma OfThisDocument(entries: seq<Entry>, matches: Entry -> bool, sends: Entry -> SendResult, st: Status, order: Order)
    ensures RunOf(st, [SyncOf(entries, FeedOf(matches, sends), |entries|, order)], entries, matches, |entries|, order)
  {
    hide RunSyncs;
  }

  /** A sync that leaves another to-do list than what it did not handle is not once in order. */
  lemma NotOnce(st: Status, s: Sync, es: seq<Entry>, matches: Entry -> bool)
    requires var after, handled := Processed(st, s.input, s.env), Apply(st, s.input, s.env).handled;
      Todo(es, st.books, st.initialized, s.env.catchUp, matches)
        != Entries(handled) + Todo(es, after.books, after.initialized, s.env.catchUp, matches)
    ensures !DeliveredOnceInOrder(st, [s], es, matches, s.env.catchUp)
  {
    hide Processed;
    hide Apply;
    hide Todo;
    OneSync(st, s);
  }

  /** What the two passes do to the lost books: in the first, x is led to the key of q; in the second
      it is led away. */
  lemma RestlessBooks(es: seq<Entry>, x: Key, q: nat)
    requires q < |es| && Unique(es, es[q]) != EMPTY
    requires var moves := Moves(es); var at := Follow(moves, x);
      Follow(moves, at) != at && at == StrippedKey(Unique(es, es[q]))
    ensures var once := Migrated(es, LostBooks(es, x));
      && Sent(es, once.sent, es[q]) && !Sent(es, Migrated(es, once).sent, es[q])
      && once.mark == Clamp(Gone(es)) && Migrated(es, once).mark == Clamp(Gone(es)) && Size(once.sent) <= 2
  {
    hide Follow;
    hide Moves;
    hide MoveAll;
    hide Migrated;
    hide Led;
    hide Unique;
    hide Identity;
    var moves, b, g := Moves(es), LostBooks(es, x), EntryKey(Gone(es));
    var at, once := Follow(moves, x), Migrated(es, b);
    GoneIsGone(es);
    LostMarkStays(es, b);
    LostMarkStays(es, once);
    MigrationMoves(es, b);
    MovesShrink(moves, b.sent);
    TwoRecords(g, x);
    FollowedKeys(moves, b.sent);
    LedTwo(k => Follow(moves, k), g, x, once.sent);
    MigrationMoves(es, once);
    FollowedKeys(moves, once.sent);
    UniqueStaysUnique(es, at) by { assert IsUniqueKey(es, at); }
    LedToNone(k => Follow(moves, k), once.sent, Migrated(es, once).sent, at);
    LedToNone(k => Follow(moves, k), once.sent, Migrated(es, once).sent, EntryKey(Identity(es[q])));
    assert Keys(es, es[q]) == [EntryKey(Identity(es[q])), at];
    assert at in once.sent;
  }

  lemma TwoRecords(g: Key, x: Key)
    ensures Size(map[g := 0, x := 0]) <= 2
  {
    if g != x {
      assert map[g := 0, x := 0].Keys == {g} + {x};
    }
  }

  lemma LedTwo(f: Key -> Key, g: Key, x: Key, after: map<Key, int>)
    requires Led(f, map[g := 0, x := 0], after) && f(x) != NoKey
    ensures f(x) in after && forall k :: k in after ==> k == f(x) || k == f(g)
  {
    assert x in map[g := 0, x := 0];
  }

  /** No recorded key is led to y. */
  lemma LedToNone(f: Key -> Key, sent: map<Key, int>, after: map<Key, int>, y: Key)
    requires Led(f, sent, after) && forall k :: k in sent ==> f(k) != y
    ensures y !in after
  {
  }

  lemma RestlessTodo(es: seq<Entry>, x: Key, q: nat, matches: Entry -> bool)
    requires es != [] && q < |es| && Unique(es, es[q]) != EMPTY && Distinct(es)
    requires forall e :: matches(e) <==> e == es[q]
    requires var moves := Moves(es); var at := Follow(moves, x);
      Follow(moves, at) != at && at == StrippedKey(Unique(es, es[q]))
    ensures var b := LostBooks(es, x);
      && Todo(es, b, true, |es|, matches) == []
      && Todo(es, Migrated(es, b), true, |es|, matches) != []
  {
    hide Follow;
    hide Moves;
    hide Migrated;
    hide Unique;
    hide Sent;
    hide Resume;
    hide LostBooks;
    var b := LostBooks(es, x);
    var once := Migrated(es, b);
    RestlessBooks(es, x, q);
    GoneIsGone(es);
    ScansAll(es, once, true);
    ScansAll(es, Migrated(es, once), true);
    NothingPending(es, matches, once.sent, 0);
    PendingSkips(es, matches, Migrated(es, once).sent, 0, q) by {
      forall k | 0 <= k < q ensures !matches(es[k]) {
        assert Identity(es[k]) != Identity(es[q]);
      }
    }
  }

  lemma RestlessRoom(es: seq<Entry>, x: Key, q: nat, matches: Entry -> bool, order: Order)
    requires Todo(es, LostBooks(es, x), true, |es|, matches) == []
    ensures Room(es, LostBooks(es, x), true, |es|, matches, order)
  {
    hide Todo;
    hide Room;
    hide Moves;
    hide MoveAll;
    hide Migrated;
    var b := LostBooks(es, x);
    MigrationMoves(es, b);
    MovesShrink(Moves(es), b.sent);
    TwoRecords(EntryKey(Gone(es)), x);
    FewKeysAreRoom(es, b, true, |es|, matches, order);
  }

  /** The sync of the lost books handles nothing and leaves them migrated. */
  lemma RestlessSync(entries: seq<Entry>, st: Status, s: Sync, x: Key, q: nat, matches: Entry -> bool, order: Order)
    requires entries != [] && Distinct(entries)
    requires st == FRESH.(books := LostBooks(Sorted(entries), x), initialized := true)
    requires s == SyncOf(entries, FeedOf(matches, _ => Accepted), |entries|, order)
    requires Todo(Sorted(entries), st.books, true, |entries|, matches) == []
    ensures Apply(st, s.input, s.env).handled == []
    ensures Processed(st, s.input, s.env).books == Migrated(Sorted(entries), st.books)
    ensures Processed(st, s.input, s.env).initialized
  {
    hide *;
    var es, fetched := Sorted(entries), Recorded(st, FetchDone, s.env);
    var f, b := s.input.feed, st.books;
    RestlessInput(entries, st, s, x, matches, order);
    RecordingKeeps(st, FetchDone, s.env, Completes);
    AcceptedSyncDeliversAll(st, s);
    UsableSync(st, s);
    var d := Scanned(fetched, es, f, s.env);
    OneEntryEach(d.handled);
    SortedKeepsDistinct(entries);
    LostMarkStays(es, b);
    GoneIsGone(es);
    ScansAll(es, Migrated(es, b), true);
    UndeliveredBooks(es, fetched, f, s.env);
    AtMostTwoKeys(es, x);
    LeftWhole(d, s.env.order);
  }

  lemma RestlessInput(entries: seq<Entry>, st: Status, s: Sync, x: Key, matches: Entry -> bool, order: Order)
    requires entries != [] && st == FRESH.(books := LostBooks(Sorted(entries), x), initialized := true)
    requires s == SyncOf(entries, FeedOf(matches, _ => Accepted), |entries|, order)
    ensures UsableDocument(s.input) && s.input.fetch.entries == entries && Accepts(s.input.feed, entries)
    ensures s.input.prune == PrunesAll && s.env.catchUp == |entries| && s.input.feed.matches == matches
    ensures st.initialized && st.books == LostBooks(Sorted(entries), x) && st.books.mark == Clamp(Gone(Sorted(entries)))
    ensures Recorded(st, FetchDone, s.env) == RecordedUpTo(st, FetchDone, s.env, Completes)
    ensures !NOTHING.pending
    ensures forall end: End :: KeysLeftBy(s.input, end) == MAX_LAST_SENT
    ensures AccountedFor(Finished(NOTHING, SyncAccountedFor))
  {
    hide Sorted;
    hide Clamp;
    hide Gone;
    hide HalfRecorded;
    LostMark(Sorted(entries), x);
    hide LostBooks;
  }

  lemma LostMark(es: seq<Entry>, x: Key)
    ensures LostBooks(es, x).mark == Clamp(Gone(es))
  {
  }

  lemma AtMostTwoKeys(es: seq<Entry>, x: Key)
    ensures Size(Migrated(es, LostBooks(es, x)).sent) <= MAX_LAST_SENT
  {
    hide Moves;
    hide MoveAll;
    hide Migrated;
    var b := LostBooks(es, x);
    MigrationMoves(es, b);
    MovesShrink(Moves(es), b.sent);
    TwoRecords(EntryKey(Gone(es)), x);
  }

  /** A scan that handles nothing leaves the migrated books. */
  lemma UndeliveredBooks(es: seq<Entry>, st: Status, f: Feed, env: Env)
    requires es != [] && Distinct(es) && !PlanOf(es, Migrated(es, st.books), env.catchUp, st.initialized).skipBacklog
    requires Scanned(st, es, f, env).handled == []
    ensures Scanned(st, es, f, env).st.books == Migrated(es, st.books)
  {
    hide Scanned;
    hide Migrated;
    hide Pending;
    hide Sent;
    hide Grown;
    hide Size;
    var next := ScanIsALoop(es, st, f, env);
  }

  /** The feed in the run that loses entry p: only k and p pass the filter, k is accepted, and p
      meets a rate limit. */
  function OnlyFirst(es: seq<Entry>, k: nat, p: nat): Feed
    requires k < |es| && p < |es|
  {
    FeedOf(e => e == es[k] || e == es[p], e => if e == es[k] then Accepted else SendFails(RateLimited(1), 0))
  }

  /** Without a watermark the to-do list is what is pending in the whole fetch. */
  lemma TodoOfAll(es: seq<Entry>, b: Books, wasInitialized: bool, matches: Entry -> bool)
    requires es != [] && !Resume(es, b.mark).Found? && Migrated(es, b) == b
    ensures Todo(es, b, wasInitialized, |es|, matches) == Pending(es, matches, b.sent, 0)
  {
    ScansAll(es, b, wasInitialized);
    hide Pending;
    hide Migrated;
    hide Resume;
  }

  /** And the scan is the send loop over the whole fetch. */
  lemma ScanOfAll(es: seq<Entry>, st: Status, f: Feed, env: Env)
    requires es != [] && !Resume(es, st.books.mark).Found? && Migrated(es, st.books) == st.books && env.catchUp == |es|
    ensures Scanned(st, es, f, env) == Deliver(env, f, es, es, st, 0)
  {
    ScansAll(es, st.books, st.initialized);
    hide Deliver;
    hide Migrated;
  }

  lemma TwoArePending(es: seq<Entry>, k: nat, p: nat, matches: Entry -> bool)
    requires k < p < |es| && matches(es[k]) && matches(es[p])
    requires forall j :: 0 <= j < |es| && j != k && j != p ==> !matches(es[j])
    ensures Pending(es, matches, map[], 0) == [es[k], es[p]]
  {
    hide Sent;
    hide Pending;
    UnrecordedIsUnsent(es, es[k]);
    UnrecordedIsUnsent(es, es[p]);
    PendingSkips(es, matches, map[], 0, k);
    PendingAt(es, matches, map[], k);
    PendingSkips(es, matches, map[], k + 1, p);
    PendingAt(es, matches, map[], p);
    NothingPending(es, matches, map[], p + 1);
  }

  lemma PendingAt(es: seq<Entry>, matches: Entry -> bool, sent: map<Key, int>, i: nat)
    requires i < |es| && !Sent(es, sent, es[i]) && matches(es[i])
    ensures Pending(es, matches, sent, i) == [es[i]] + Pending(es, matches, sent, i + 1)
  {
    hide Sent;
  }

  /** Without any record both entries are to be delivered, and the scan handles k alone. */
  lemma BothAreToDo(es: seq<Entry>, k: nat, p: nat)
    requires k < p < |es| && Distinct(es)
    ensures Todo(es, FRESH.books, false, |es|, OnlyFirst(es, k, p).matches) == [es[k], es[p]]
    ensures Migrated(es, FRESH.books) == FRESH.books
  {
    hide *;
    var f := OnlyFirst(es, k, p);
    FreshFacts();
    NoRecords(es);
    OnlyTheTwoMatch(es, k, p);
    NoMarkIsNotSet(es);
    TodoOfAll(es, FRESH.books, false, f.matches);
    TwoArePending(es, k, p, f.matches);
  }

  lemma NoMarkIsNotSet(es: seq<Entry>)
    ensures Resume(es, FRESH.books.mark) == NotSet
  {
  }

  lemma FreshFacts()
    ensures FRESH.books == Books(NoMark, map[]) && !FRESH.initialized
  {
  }

  lemma UnrecordedIsUnsent(es: seq<Entry>, e: Entry)
    ensures !Sent(es, map[], e)
  {
  }

  lemma NoRecords(es: seq<Entry>)
    ensures Migrated(es, FRESH.books) == FRESH.books
  {
    hide Follow;
    hide Moves;
    hide MoveAll;
    hide Migrated;
    MigrationMoves(es, FRESH.books);
    FollowedKeys(Moves(es), FRESH.books.sent);
    NoMarkStays(es, FRESH.books);
  }

  lemma OnlyFirstIsHandled(es: seq<Entry>, k: nat, p: nat, st: Status, env: Env)
    requires k < p < |es| && Distinct(es) && st.books == FRESH.books
    ensures var d := Deliver(env, OnlyFirst(es, k, p), es, es, st, 0);
      && d.handled == [Handled(es[k], false)] && d.end.Done? && d.end.verdict.pending
      && d.st.books == MarkHandled(es, st.books, es[k], env.SentAt())
  {
    hide TurnAt;
    hide Sent;
    hide MarkHandled;
    hide Recorded;
    var f := OnlyFirst(es, k, p);
    var next := Recorded(Handle(es, st, es[k], env), EntrySent, env);
    OnlyTheTwoMatch(es, k, p);
    UnrecordedIsUnsent(es, es[k]);
    SecondIsStillUnsent(es, k, p, st, env);
    FirstTurn(es, k, p, st, env);
    SecondTurn(es, k, p, next, env);
    DeliverSkips(env, f, es, es, st, 0, k);
    DeliverSkips(env, f, es, es, next, k + 1, p);
    hide Deliver;
    var after := Deliver(env, f, es, es, next, k + 1);
    DeliversAt(env, f, es, es, next, p);
    DeliversAt(env, f, es, es, st, k);
    assert after.handled == [];
    assert Deliver(env, f, es, es, st, k) == Prepend([Handled(es[k], false)], after);
  }

  lemma SecondIsStillUnsent(es: seq<Entry>, k: nat, p: nat, st: Status, env: Env)
    requires k < p < |es| && Distinct(es) && st.books == FRESH.books
    ensures var next := Recorded(Handle(es, st, es[k], env), EntrySent, env);
      next.books == MarkHandled(es, st.books, es[k], env.SentAt()) && !Sent(es, next.books.sent, es[p])
    ensures es[k] != es[p]
  {
    hide Sent;
    hide MarkHandled;
    hide Recorded;
    RecordingKeeps(Handle(es, st, es[k], env), EntrySent, env, Completes);
    assert Identity(es[k]) != Identity(es[p]);
    UnrecordedIsUnsent(es, es[p]);
    HandlingIsSeparate(es, st.books, k, p, env.SentAt());
  }

  /** The scan at an entry it does not pass over. */
  lemma DeliversAt(env: Env, f: Feed, es: seq<Entry>, window: seq<Entry>, st: Status, i: nat)
    requires i < |es| && !Sent(es, st.books.sent, es[i]) && f.matches(es[i])
    ensures Deliver(env, f, es, window, st, i) ==
      match TurnAt(env, f, es, window, st, es[i])
      case Stop(d) => d
      case GoOn(next, handled) => Prepend(handled, Deliver(env, f, es, window, next, i + 1))
  {
    hide TurnAt;
    hide Sent;
  }

  lemma FirstTurn(es: seq<Entry>, k: nat, p: nat, st: Status, env: Env)
    requires k < |es| && p < |es|
    ensures TurnAt(env, OnlyFirst(es, k, p), es, es, st, es[k]) ==
      GoOn(Recorded(Handle(es, st, es[k], env), EntrySent, env), [Handled(es[k], false)])
  {
  }

  lemma SecondTurn(es: seq<Entry>, k: nat, p: nat, st: Status, env: Env)
    requires k < |es| && p < |es| && es[k] != es[p]
    ensures var t := TurnAt(env, OnlyFirst(es, k, p), es, es, st, es[p]);
      && t.Stop? && t.d.handled == [] && t.d.end.Done? && t.d.end.verdict.pending && t.d.st.books == st.books
  {
  }

  /** Once k alone is recorded, p reads as sent: its key is where k's record is moved. */
  lemma NothingIsLeftToDo(es: seq<Entry>, k: nat, p: nat, now: int)
    requires k < p < |es| && Distinct(es) && HandsOn(es, k, p)
    ensures Todo(es, MarkHandled(es, FRESH.books, es[k], now), true, |es|, OnlyFirst(es, k, p).matches) == []
  {
    var f, b := OnlyFirst(es, k, p), MarkHandled(es, FRESH.books, es[k], now);
    RecordIsHandedOn(es, k, p, now);
    hide *;
    OnlyTheTwoMatch(es, k, p);
    NothingPending(es, f.matches, Migrated(es, b).sent, k + 1);
    TodoBehind(es, b, k, f.matches);
  }

  lemma TodoBehind(es: seq<Entry>, b: Books, k: nat, matches: Entry -> bool)
    requires k < |es| && Distinct(es) && Migrated(es, b).mark == Clamp(Identity(es[k]))
    ensures Todo(es, b, true, |es|, matches) == Pending(es, matches, Migrated(es, b).sent, k + 1)
  {
    hide *;
    ResumesBehind(es, k);
    StartsBehind(es, Migrated(es, b), k);
    TodoFrom(es, b, k + 1, matches);
  }

  lemma StartsBehind(es: seq<Entry>, b: Books, k: nat)
    requires k < |es| && Resume(es, b.mark) == Found(k)
    ensures ScanStart(es, b, |es|, true) == k + 1
  {
    hide Resume;
  }

  lemma TodoFrom(es: seq<Entry>, b: Books, i: nat, matches: Entry -> bool)
    requires i <= |es| && ScanStart(es, Migrated(es, b), |es|, true) == i
    ensures Todo(es, b, true, |es|, matches) == Pending(es, matches, Migrated(es, b).sent, i)
  {
    hide Migrated;
    hide Pending;
    hide ScanStart;
  }

  lemma OnlyTheTwoMatch(es: seq<Entry>, k: nat, p: nat)
    requires k < |es| && p < |es| && Distinct(es)
    ensures forall j :: 0 <= j < |es| && j != k && j != p ==> !OnlyFirst(es, k, p).matches(es[j])
    ensures OnlyFirst(es, k, p).matches(es[k]) && OnlyFirst(es, k, p).matches(es[p])
  {
    forall j | 0 <= j < |es| && j != k && j != p ensures es[j] != es[k] && es[j] != es[p] {
      assert Identity(es[j]) != Identity(es[k]) && Identity(es[j]) != Identity(es[p]);
    }
  }

  lemma RecordIsHandedOn(es: seq<Entry>, k: nat, p: nat, now: int)
    requires k < |es| && p < |es| && HandsOn(es, k, p)
    ensures var m := Migrated(es, MarkHandled(es, FRESH.books, es[k], now));
      m.mark == Clamp(Identity(es[k])) && Sent(es, m.sent, es[p])
  {
    var b := MarkHandled(es, FRESH.books, es[k], now);
    assert Keys(es, es[k])[1] in b.sent;
    assert Keys(es, es[p])[1] == StrippedKey(Unique(es, es[p]));
    assert b.mark == Clamp(Identity(es[k]));
    hide Follow;
    hide Moves;
    hide MoveAll;
    hide Migrated;
    hide MarkHandled;
    hide Unique;
    hide Clamp;
    hide Identity;
    MigrationMoves(es, b);
    FollowedKeys(Moves(es), b.sent);
    assert Keys(es, es[p])[1] in Migrated(es, b).sent;
    MigratedMarkStays(es, b, b);
  }

  lemma TwoKeys(es: seq<Entry>, e: Entry, now: int)
    ensures Size(MarkHandled(es, FRESH.books, e, now).sent) <= MAX_LAST_SENT
  {
    var keys := Keys(es, e);
    KeysGrow(map[], keys, |keys|, now);
    assert keys[..|keys|] == keys;
  }

  /** The sync that handles k alone. */
  lemma FirstSyncHandlesTheFirst(entries: seq<Entry>, k: nat, p: nat, order: Order)
    requires entries != [] && Distinct(entries) && k < p < |entries|
    ensures var es := Sorted(entries); var s := SyncOf(entries, OnlyFirst(es, k, p), |es|, order);
      var after := Processed(FRESH, s.input, s.env);
      && Apply(FRESH, s.input, s.env).handled == [Handled(es[k], false)]
      && after.books == MarkHandled(es, FRESH.books, es[k], 0) && after.initialized
  {
    hide *;
    var es := Sorted(entries);
    var f := OnlyFirst(es, k, p);
    var s := SyncOf(entries, f, |es|, order);
    var fetched := Recorded(FRESH, FetchDone, s.env);
    SortedKeepsDistinct(entries);
    FirstInput(entries, f, order, k, p);
    FreshFacts();
    UsableSync(FRESH, s);
    NoRecords(es);
    NoMarkIsNotSet(es);
    ScanOfAll(es, fetched, f, s.env);
    OnlyFirstIsHandled(es, k, p, fetched, s.env);
    TwoKeys(es, es[k], 0);
    LeftWhole(Scanned(fetched, es, f, s.env), order);
  }

  lemma LeftWhole(d: Delivered, order: Order)
    requires Size(d.st.books.sent) <= MAX_LAST_SENT
    ensures LeftBooks(d, order, MAX_LAST_SENT) == d.st.books
  {
    SmallIsNotPruned(order, d.st.books.sent);
  }

  lemma FirstInput(entries: seq<Entry>, f: Feed, order: Order, k: nat, p: nat)
    requires entries != [] && k < |entries| && p < |entries| && f == OnlyFirst(Sorted(entries), k, p)
    ensures var s := SyncOf(entries, f, |entries|, order);
      && UsableDocument(s.input) && s.input.fetch.entries == entries && s.input.feed == f
      && s.env.catchUp == |entries| && s.env.order == order && s.env.SentAt() == 0
      && (forall end :: KeysLeftBy(s.input, end) == MAX_LAST_SENT)
      && Recorded(FRESH, FetchDone, s.env).books == FRESH.books
  {
    hide Sorted;
  }

  /** When k's record is handed on to p, k is delivered and p is not, and nothing is left to do. */
  lemma HandoverIsNotOnce(entries: seq<Entry>, k: nat, p: nat, order: Order)
    requires entries != [] && Distinct(entries) && k < p < |entries| && HandsOn(Sorted(entries), k, p)
    ensures !DeliversOnce(entries, order)
  {
    hide *;
    var es := Sorted(entries);
    var f := OnlyFirst(es, k, p);
    var s := SyncOf(entries, f, |es|, order);
    SortedKeepsDistinct(entries);
    BothAreToDo(es, k, p);
    FirstSyncHandlesTheFirst(entries, k, p, order);
    NothingIsLeftToDo(es, k, p, 0);
    EmptyRoom(es, f.matches, order);
    FreshIsTenable();
    OnlyFirstIsAFeed(es, k, p);
    OneOfTwo(es[k], es[p]);
    OneEntry(es[k]);
    FreshIsUninitialized();
    FirstInput(entries, f, order, k, p);
    NotOnce(FRESH, s, es, f.matches);
    OneRunIsEnough(entries, FRESH, s, f.matches, f.sends, order);
  }

  predicate HandsOn(es: seq<Entry>, k: nat, p: nat)
    requires k < |es| && p < |es|
  {
    && Unique(es, es[k]) != EMPTY && Unique(es, es[p]) != EMPTY
    && Follow(Moves(es), StrippedKey(Unique(es, es[k]))) == StrippedKey(Unique(es, es[p]))
  }

  lemma OnlyFirstIsAFeed(es: seq<Entry>, k: nat, p: nat)
    requires k < |es| && p < |es|
    ensures var f := OnlyFirst(es, k, p); f == FeedOf(f.matches, f.sends)
  {
  }

  lemma OneOfTwo(d: Entry, e: Entry)
    ensures [d, e] != [d] + []
  {
  }

  lemma OneEntry(e: Entry)
    ensures Entries([Handled(e, false)]) == [e]
  {
  }

  lemma FreshIsUninitialized()
    ensures !FRESH.initialized
  {
  }

  /** One run that does not deliver once refutes it for the document. */
  lemma OneRunIsEnough(entries: seq<Entry>, st: Status, s: Sync, matches: Entry -> bool, sends: Entry -> SendResult,
                       order: Order)
    requires s == SyncOf(entries, FeedOf(matches, sends), |entries|, order) && Tenable(st.books)
    requires Room(Sorted(entries), st.books, st.initialized, |entries|, matches, order)
    requires !DeliveredOnceInOrder(st, [s], Sorted(entries), matches, |entries|)
    ensures !DeliversOnce(entries, order)
  {
    hide Room;
    hide DeliveredOnceInOrder;
    hide Sorted;
    hide Tenable;
    OfThisDocument(entries, matches, sends, st, order);
    hide RunOf;
  }

  lemma EmptyRoom(es: seq<Entry>, matches: Entry -> bool, order: Order)
    ensures Room(es, FRESH.books, false, |es|, matches, order)
  {
    hide Migrated;
    hide ScanStart;
    NoRecords(es);
    forall e ensures !Sent(es, map[], e) {
      UnrecordedIsUnsent(es, e);
    }
    NothingAheadIsRoom(es, FRESH.books, false, |es|, matches, order);
  }

  /** A document of distinct entries is delivered once and in order by every run of syncs if and
      only if, by its own identities alone, the migration's moves come to rest and hand no record of
      an entry on to a later one. */
  lemma DeliversOnceIffUndisturbing(entries: seq<Entry>, order: Order)
    requires entries != [] && Distinct(entries) && Injective(order)
    ensures DeliversOnce(entries, order) <==> Undisturbing(Sorted(entries))
  {
    hide Room;
    hide RunOf;
    hide DeliveredOnceInOrder;
    hide Moves;
    hide Follow;
    hide Unique;
    var es := Sorted(entries);
    if Undisturbing(es) {
      forall st: Status, syncs: seq<Sync>, matches: Entry -> bool, catchUp: int |
        Tenable(st.books) && Room(es, st.books, st.initialized, catchUp, matches, order)
        && RunOf(st, syncs, entries, matches, catchUp, order)
        ensures DeliveredOnceInOrder(st, syncs, es, matches, catchUp)
      {
        RetriesDeliverOnceInOrder(st, syncs, entries, matches, catchUp, order);
      }
    } else if !ComeToRest(Moves(es)) {
      var i :| 0 <= i < |Moves(es)| &&
        Follow(Moves(es), Follow(Moves(es), Moves(es)[i].from)) != Follow(Moves(es), Moves(es)[i].from);
      RestlessIsNotOnce(entries, Moves(es)[i].from, order);
    } else {
      var k, p :| 0 <= k < p < |es| && Unique(es, es[k]) != EMPTY && Unique(es, es[p]) != EMPTY
        && Follow(Moves(es), StrippedKey(Unique(es, es[k]))) == StrippedKey(Unique(es, es[p]));
      assert HandsOn(es, k, p);
      HandoverIsNotOnce(entries, k, p, order);
    }
  }

  /** Books with nothing to do for the document stay so. */
  lemma IdleSync(es: seq<Entry>, b: Books, st: Status, s: Sync, entries: seq<Entry>, matches: Entry -> bool)
    requires entries != [] && Distinct(entries) && es == Sorted(entries) && ComeToRest(Moves(es)) && Size(b.sent) <= MAX_LAST_SENT
    requires st.initialized && (st.books == b || st.books == Migrated(es, b))
    requires Todo(es, b, true, s.env.catchUp, matches) == []
    requires OfDocument(s, entries, matches, s.env.catchUp, s.env.order, true)
    ensures Apply(st, s.input, s.env).handled == []
    ensures var after := Processed(st, s.input, s.env);
      after.initialized && (after.books == b || after.books == Migrated(es, b))
  {
    hide *;
    QuietOrUsable(s, entries, matches);
    if UsableDocument(s.input) {
      IdleScan(es, b, st, s, matches);
      UsableSync(st, s);
    } else {
      QuietSync(st, s);
    }
  }

  lemma QuietOrUsable(s: Sync, entries: seq<Entry>, matches: Entry -> bool)
    requires OfDocument(s, entries, matches, s.env.catchUp, s.env.order, true)
    ensures UsableDocument(s.input) ==> s.input.fetch.entries == entries && s.input.feed.matches == matches
  {
  }

  lemma IdleScan(es: seq<Entry>, b: Books, st: Status, s: Sync, matches: Entry -> bool)
    requires UsableDocument(s.input) && es == Sorted(s.input.fetch.entries) && Distinct(s.input.fetch.entries)
    requires ComeToRest(Moves(es)) && Size(b.sent) <= MAX_LAST_SENT && s.input.feed.matches == matches
    requires st.initialized && (st.books == b || st.books == Migrated(es, b))
    requires Todo(es, b, true, s.env.catchUp, matches) == []
    ensures var d := Scanned(Recorded(st, FetchDone, s.env), es, s.input.feed, s.env);
      d.handled == [] && LeftBooks(d, s.env.order, KeysLeftBy(s.input, d.end)) == Migrated(es, b)
  {
    var fetched, f, env := Recorded(st, FetchDone, s.env), s.input.feed, s.env;
    assert fetched.books == st.books && fetched.initialized;
    hide ComeToRest;
    hide Recorded;
    hide Scanned;
    hide Migrated;
    hide Pending;
    hide Sent;
    hide Grown;
    hide Pruned;
    hide MoveAll;
    hide Resume;
    hide ScanStart;
    SecondPassKeepsKeys(es, b);
    SecondPassKeepsMark(es, b);
    var m := Migrated(es, b);
    assert Migrated(es, m) == Books(m.mark, m.sent);
    SortedKeepsDistinct(s.input.fetch.entries);
    var next := ScanIsALoop(es, fetched, f, env);
    var d := Scanned(fetched, es, f, env);
    OneEntryEach(d.handled);
    UndeliveredBooks(es, fetched, f, env);
    MigrationMoves(es, b);
    MovesShrink(Moves(es), b.sent);
    SmallIsLeft(env.order, m.sent, KeysLeftBy(s.input, d.end));
  }

  lemma SmallIsLeft(order: Order, sent: map<Key, int>, max: nat)
    requires Size(sent) <= max
    ensures Pruned(order, sent, max) == sent
  {
  }

  lemma {:induction false} IdleForever(es: seq<Entry>, st: Status, syncs: seq<Sync>, entries: seq<Entry>,
                                       matches: Entry -> bool, catchUp: int)
    requires entries != [] && Distinct(entries) && es == Sorted(entries) && ComeToRest(Moves(es))
    requires st.initialized && Size(st.books.sent) <= MAX_LAST_SENT && Todo(es, st.books, true, catchUp, matches) == []
    requires forall s :: s in syncs ==> OfDocument(s, entries, matches, catchUp, s.env.order, true)
    ensures var end := RunSyncs(st, syncs);
      end.handled == [] && end.st.initialized && (end.st.books == st.books || end.st.books == Migrated(es, st.books))
  {
    hide *;
    var front := syncs[..if syncs == [] then 0 else |syncs| - 1];
    RunUnfolds(st, syncs);
    if syncs != [] {
      IdleForever(es, st, front, entries, matches, catchUp);
      var last := syncs[|syncs| - 1];
      assert last in syncs;
      OfThatLimit(last, entries, matches, catchUp);
      IdleSync(es, st.books, RunSyncs(st, front).st, last, entries, matches);
    }
  }

  lemma OfThatLimit(s: Sync, entries: seq<Entry>, matches: Entry -> bool, catchUp: int)
    requires OfDocument(s, entries, matches, catchUp, s.env.order, true)
    ensures s.env.catchUp == catchUp
  {
  }

  /** An entry that another one's record is handed on to can be lost for good: from a fresh status, a
      sync delivers k and stays pending at p, and no later sync of the same document delivers p. */
  lemma HandedOnEntryIsNeverDelivered(entries: seq<Entry>, k: nat, p: nat, syncs: seq<Sync>, order: Order)
    requires entries != [] && Distinct(entries) && k < p < |entries|
    requires ComeToRest(Moves(Sorted(entries))) && HandsOn(Sorted(entries), k, p)
    requires forall s :: s in syncs ==>
      OfDocument(s, entries, OnlyFirst(Sorted(entries), k, p).matches, |entries|, s.env.order, true)
    ensures var es := Sorted(entries); var f := OnlyFirst(es, k, p);
      && Todo(es, FRESH.books, false, |es|, f.matches) == [es[k], es[p]]
      && RunSyncs(FRESH, [SyncOf(entries, f, |es|, order)] + syncs).handled == [Handled(es[k], false)]
  {
    hide *;
    var es := Sorted(entries);
    var f := OnlyFirst(es, k, p);
    var s := SyncOf(entries, f, |es|, order);
    SortedKeepsDistinct(entries);
    BothAreToDo(es, k, p);
    FirstSyncHandlesTheFirst(entries, k, p, order);
    NothingIsLeftToDo(es, k, p, 0);
    TwoKeys(es, es[k], 0);
    var after := Processed(FRESH, s.input, s.env);
    IdleForever(es, after, syncs, entries, f.matches, |entries|);
    RunAfterOne(FRESH, s, syncs);
    assert [Handled(es[k], false)] + [] == [Handled(es[k], false)];
  }
}
