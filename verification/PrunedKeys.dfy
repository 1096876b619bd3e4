/** A run that sends an entry again: with no room in the dedup map, the prune drops the key of an
    entry that is still ahead of the watermark. */
module PrunedKeys {
  import opened Basics
  import opened Identities
  import opened Statuses
  import opened Ledgers
  import opened Migrations
  import opened Pruning
  import opened Attempts
  import opened Deliveries
  import opened Fetches
  import opened FeedSyncs
  import opened Scans
  import opened Rooms
  import opened FeedRuns
  import opened OnceOnly
  import opened Witnesses

  function Named(guid: string, seqNo: nat): Entry {
    Entry(Plain(guid), FromGuid, EMPTY, FromGuid, NO_CONTENT, seqNo)
  }

  const NEW := Named("new", 1)
  const OLD := Named("old", 0)
  const BOTH: seq<Entry> := [NEW, OLD]

  function Xs(n: nat): string { seq(n, _ => 'x') }

  /** n keys of entries long gone. */
  function Filler(n: nat): map<Key, int> {
    if n == 0 then map[] else Filler(n - 1)[EntryKey(Plain(Xs(n))) := SECOND]
  }

  lemma {:induction false} FillerFacts(n: nat)
    ensures Size(Filler(n)) == n
    ensures forall k :: k in Filler(n) ==>
      Filler(n)[k] == SECOND && k.EntryKey? && k.identity.Plain? && 1 <= |k.identity.s| <= n && k.identity.s[0] == 'x'
  {
    if n > 0 {
      FillerFacts(n - 1);
      var k := EntryKey(Plain(Xs(n)));
      assert |Xs(n)| == n && Xs(n)[0] == 'x';
      assert k !in Filler(n - 1);
      assert Filler(n).Keys == Filler(n - 1).Keys + {k};
    }
  }

  const OLD_KEY := EntryKey(Plain("old"))
  const NEW_KEY := EntryKey(Plain("new"))

  const GONE_KEY := EntryKey(Plain("gone"))

  /** A full map: the key of OLD is the oldest, that of the watermark's entry the newest. */
  function FullMap(): map<Key, int> { Filler(48)[OLD_KEY := 0][GONE_KEY := 2 * SECOND] }

  /** The status of a feed whose last handled entry, named gone, has left it. */
  const FULL := FRESH.(books := Books(Whole(Plain("gone")), FullMap()), initialized := true)

  lemma FullFacts()
    ensures OLD_KEY in FullMap() && Size(FullMap()) == 50 && FullMap()[OLD_KEY] == 0 && NEW_KEY !in FullMap()
    ensures GONE_KEY in FullMap()
    ensures forall k :: k in FullMap() ==> (k == OLD_KEY || 0 < FullMap()[k]) && FullMap()[k] <= 2 * SECOND
  {
    hide Filler;
    hide Size;
    NoFiller();
    OneMore(Filler(48), OLD_KEY, 0);
    OneMore(Filler(48)[OLD_KEY := 0], GONE_KEY, 2 * SECOND);
  }

  lemma NoFiller()
    ensures OLD_KEY !in Filler(48) && NEW_KEY !in Filler(48) && GONE_KEY !in Filler(48) && Size(Filler(48)) == 48
    ensures OLD_KEY != NEW_KEY && OLD_KEY != GONE_KEY && NEW_KEY != GONE_KEY
    ensures forall k :: k in Filler(48) ==> Filler(48)[k] == SECOND
  {
    hide Filler;
    hide Size;
    FillerFacts(48);
    assert "old"[0] != 'x' && "new"[0] != 'x' && "gone"[0] != 'x';
    assert "old"[0] != "new"[0] && "old"[0] != "gone"[0] && "new"[0] != "gone"[0];
  }

  lemma OneMore(m: map<Key, int>, k: Key, v: int)
    requires k !in m
    ensures Size(m[k := v]) == Size(m) + 1
  {
    assert m[k := v].Keys == m.Keys + {k};
  }

  lemma BothFacts()
    ensures Sorted(BOTH) == BOTH && Distinct(BOTH)
    ensures Identity(NEW) == Plain("new") && Identity(OLD) == Plain("old")
    ensures Keys(BOTH, NEW) == [NEW_KEY] && Keys(BOTH, OLD) == [OLD_KEY]
    ensures !Moved(NEW) && !Moved(OLD)
  {
    assert "new"[0] != "old"[0];
    assert BOTH[1..] == [OLD] && [OLD][1..] == [];
    assert Sorted([OLD]) == [OLD];
  }

  lemma NothingMoves(b: Books)
    ensures Migrated(BOTH, b) == b
  {
    BothFacts();
    assert Settled(BOTH, b);
    SettledIsFixed(BOTH, b, 2);
  }

  function Everything(): Feed { FeedOf(_ => true, _ => Accepted) }

  /** A sync of the document in which nothing fails. */
  function Resend(order: Order): Sync {
    Sync(Input(Document(BOTH, Validators("", "")), Usable, Everything(), PrunesAll), Env(3 * SECOND, 2, 1, 1, order))
  }

  lemma GoneIsLost()
    ensures Resume(BOTH, FULL.books.mark) == Lost
  {
    BothFacts();
    assert "gone"[0] != "new"[0] && "gone"[0] != "old"[0];
    assert FirstMarked(BOTH, Whole(Plain("gone")), 0) == 2;
  }

  /** The sync sends NEW, and its prune drops the key of OLD. */
  lemma PruneDropsTheOld(order: Order)
    ensures var sent := FullMap()[NEW_KEY := 3 * SECOND]; OLD_KEY !in Pruned(order, sent, MAX_LAST_SENT)
  {
    FullFacts();
    hide Filler;
    var sent := FullMap()[NEW_KEY := 3 * SECOND];
    var kept := Pruned(order, sent, MAX_LAST_SENT);
    assert sent.Keys == FullMap().Keys + {NEW_KEY};
    assert Size(sent) == 51;
    PrunedKeepsTheNewest(order, sent, MAX_LAST_SENT);
    if OLD_KEY in kept {
      SomethingIsDropped(sent, kept);
    }
  }

  lemma SomethingIsDropped(sent: map<Key, int>, kept: map<Key, int>)
    requires Size(kept) < Size(sent) && forall k :: k in kept ==> k in sent
    ensures exists d :: d in sent && d !in kept
  {
    if sent.Keys <= kept.Keys {
      SubsetSize(sent.Keys, kept.Keys);
    }
  }

  lemma OnlyNewIsHandled(st: Status, env: Env)
    requires st.books == FULL.books && env.SentAt() == 3 * SECOND
    ensures Deliver(env, Everything(), BOTH, BOTH, st, 0).st.books == Books(Clamp(Plain("new")), FullMap()[NEW_KEY := 3 * SECOND])
    ensures |Deliver(env, Everything(), BOTH, BOTH, st, 0).handled| == 1
    ensures LeftBooks(Deliver(env, Everything(), BOTH, BOTH, st, 0), env.order, MAX_LAST_SENT).mark == Clamp(Plain("new"))
    ensures LeftBooks(Deliver(env, Everything(), BOTH, BOTH, st, 0), env.order, MAX_LAST_SENT).sent
      == Pruned(env.order, FullMap()[NEW_KEY := 3 * SECOND], MAX_LAST_SENT)
  {
    hide Filler;
    hide FullMap;
    hide TurnAt;
    hide Sent;
    hide MarkHandled;
    hide Recorded;
    hide Pruned;
    var f := Everything();
    var next := Recorded(Handle(BOTH, st, NEW, env), EntrySent, env);
    NewIsUnsent();
    NewIsRecorded();
    RecordingKeeps(Handle(BOTH, st, NEW, env), EntrySent, env, Completes);
    NewsTurn(st, env);
    DeliverSkips(env, f, BOTH, BOTH, next, 1, 2);
    assert BOTH[0] == NEW && BOTH[1] == OLD;
  }

  lemma NewIsUnsent()
    ensures !Sent(BOTH, FullMap(), NEW)
  {
    BothFacts();
    FullFacts();
    hide Filler;
    hide FullMap;
  }

  lemma NewIsRecorded()
    ensures var b := MarkHandled(BOTH, FULL.books, NEW, 3 * SECOND);
      b == Books(Clamp(Plain("new")), FullMap()[NEW_KEY := 3 * SECOND]) && Sent(BOTH, b.sent, OLD)
  {
    BothFacts();
    FullFacts();
    hide Filler;
    hide FullMap;
    hide Clamp;
    hide Keys;
    assert FULL.books.sent == FullMap();
    assert Stamped([NEW_KEY], 3 * SECOND) == map[NEW_KEY := 3 * SECOND];
    assert OLD_KEY in Keys(BOTH, OLD) && OLD_KEY in FullMap()[NEW_KEY := 3 * SECOND];
  }

  lemma NewsTurn(st: Status, env: Env)
    ensures TurnAt(env, Everything(), BOTH, BOTH, st, NEW) ==
      GoOn(Recorded(Handle(BOTH, st, NEW, env), EntrySent, env), [Handled(NEW, false)])
  {
    hide MarkHandled;
  }

  /** The first sync delivers NEW alone, and leaves OLD to be delivered although it was sent. */
  lemma FirstSync(order: Order)
    ensures var s := Resend(order); var after := Processed(FULL, s.input, s.env);
      && Todo(BOTH, FULL.books, true, 2, Everything().matches) == [NEW]
      && after.books.mark == Clamp(Plain("new")) && OLD_KEY !in after.books.sent && after.initialized
  {
    hide *;
    var s := Resend(order);
    var fetched := Recorded(FULL, FetchDone, s.env);
    BothFacts();
    BothSyncs(order);
    NothingMoves(FULL.books);
    OldIsSent();
    GoneIsLost();
    TodoOfAll(BOTH, FULL.books, true, Everything().matches);
    UsableSync(FULL, s);
    ScanOfAll(BOTH, fetched, Everything(), s.env);
    OnlyNewIsHandled(fetched, s.env);
    PruneDropsTheOld(order);
  }

  lemma OldIsSent()
    ensures Sent(BOTH, FullMap(), OLD) && Pending(BOTH, Everything().matches, FullMap(), 0) == [NEW]
    ensures Everything().matches(OLD)
  {
    BothFacts();
    FullFacts();
    hide Filler;
    hide FullMap;
    assert OLD_KEY in Keys(BOTH, OLD) && OLD_KEY in FullMap();
    assert !Sent(BOTH, FullMap(), NEW);
    assert Pending(BOTH, Everything().matches, FullMap(), 2) == [];
    assert Pending(BOTH, Everything().matches, FullMap(), 1) == [];
  }

  lemma OldIsToDo(b: Books)
    requires b.mark == Clamp(Plain("new")) && OLD_KEY !in b.sent
    ensures Todo(BOTH, b, true, 2, Everything().matches) == [OLD]
  {
    BothFacts();
    NothingMoves(b);
    ResumesBehind(BOTH, 0);
    assert !Sent(BOTH, b.sent, OLD);
    hide Sent;
    hide Resume;
    assert Pending(BOTH, Everything().matches, b.sent, 2) == [];
  }

  /** OLD reads as sent at first; the first sync's prune drops its key, and the second sync of the
      same document sends it again. There was no room: 50 keys, and one to come. */
  lemma PrunedKeyIsSentAgain(order: Order)
    ensures var s := Resend(order);
      && Sent(BOTH, Migrated(BOTH, FULL.books).sent, OLD)
      && !Room(BOTH, FULL.books, true, 2, Everything().matches, order)
      && Entries(RunSyncs(FULL, [s] + [s]).handled) == [NEW, OLD]
  {
    hide *;
    var s := Resend(order);
    var after := Processed(FULL, s.input, s.env);
    BothFacts();
    FirstSync(order);
    OldIsToDo(after.books);
    OldIsSent();
    NothingMoves(FULL.books);
    ThereIsNoRoom(order);
    BothSyncs(order);
    AcceptedSyncDeliversAll(FULL, s);
    AcceptedSyncDeliversAll(after, s);
    RunAfterOne(FULL, s, [s]);
    OneSync(after, s);
    EntriesAppend(Apply(FULL, s.input, s.env).handled, Apply(after, s.input, s.env).handled);
    assert [NEW] + [OLD] == [NEW, OLD];
  }

  lemma BothSyncs(order: Order)
    ensures var s := Resend(order);
      && UsableDocument(s.input) && s.input.fetch.entries == BOTH && Accepts(s.input.feed, BOTH)
      && s.input.prune == PrunesAll && s.input.feed == Everything() && s.env.catchUp == 2 && s.env.order == order
      && s.env.SentAt() == 3 * SECOND && (forall end :: KeysLeftBy(s.input, end) == MAX_LAST_SENT)
      && var fetched := Recorded(FULL, FetchDone, s.env);
      fetched.books == FULL.books && fetched.initialized && Everything().records(None, FetchDone) == Completes
    ensures |BOTH| == 2 && BOTH[1] == OLD && FULL.books.sent == FullMap() && FULL.initialized && [NEW, OLD] == BOTH
  {
  }

  lemma ThereIsNoRoom(order: Order)
    ensures !Room(BOTH, FULL.books, true, 2, Everything().matches, order)
  {
    hide *;
    BothSyncs(order);
    BothFacts();
    OldIsSent();
    GoneIsLost();
    NothingMoves(FULL.books);
    ScansAll(BOTH, FULL.books, true);
    NewIsBefore();
    OldIsOldest(order);
    RoomIsNeeded(BOTH, FULL.books, 2, Everything().matches, order, 1);
  }

  lemma NewIsBefore()
    ensures KeysBefore(BOTH, Everything().matches, FullMap(), 0, 1) == 1
  {
    OldIsSent();
    BothFacts();
    hide FullMap;
    hide Sent;
    hide Keys;
    assert Pending(BOTH, Everything().matches, FullMap(), 2) == [];
    assert Pending(BOTH, Everything().matches, FullMap(), 1) == [];
    assert [NEW][1..] == [];
    assert KeyCount(BOTH, [NEW]) == 1;
  }

  lemma OldIsOldest(order: Order)
    ensures !LastsAt(BOTH, Everything().matches, FullMap(), 0, 1, order)
  {
    FullFacts();
    BothFacts();
    NewIsBefore();
    hide FullMap;
    hide Keys;
    hide KeysBefore;
    assert NotOlder(order, FullMap(), OLD_KEY) == FullMap().Keys;
  }

  lemma RoomIsNeeded(es: seq<Entry>, b: Books, catchUp: int, matches: Entry -> bool, order: Order, q: nat)
    requires q < |es| && ScanStart(es, Migrated(es, b), catchUp, true) == 0 && matches(es[q])
    requires Sent(es, Migrated(es, b).sent, es[q]) && !LastsAt(es, matches, Migrated(es, b).sent, 0, q, order)
    ensures !Room(es, b, true, catchUp, matches, order)
  {
    hide Sent;
    hide Migrated;
    hide LastsAt;
    hide ScanStart;
  }
}
