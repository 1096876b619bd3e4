/** Exactly when the dedup map has room: from a status without it, some run of syncs of the document
    prunes the key of an entry ahead of the watermark and is to send that entry again. */
module RoomExact {
  import opened Basics
  import opened Identities
  import opened Statuses
  import opened Ledgers
  import opened Migrations
  import opened Handovers
  import opened Pruning
  import opened Attempts
  import opened Deliveries
  import opened Fetches
  import opened FeedSyncs
  import opened Scans
  import opened Rooms
  import opened FeedRuns
  import opened OnceOnly
  import opened Panics

  /** Every run of syncs of the document from this status, under this filter and catch-up limit,
      delivers it once and in order. */
  ghost predicate DeliversFrom(st: Status, entries: seq<Entry>, matches: Entry -> bool, catchUp: int, order: Order) {
    forall syncs: seq<Sync> :: RunOf(st, syncs, entries, matches, catchUp, order) ==>
      DeliveredOnceInOrder(st, syncs, Sorted(entries), matches, catchUp)
  }

  /** A whole second later than all these times. */
  lemma {:induction false} LaterThanAll(m: map<Key, int>) returns (t: int)
    ensures WholeSeconds(t) == t && forall k :: k in m ==> m[k] < t
    decreases |m|
  {
    if m == map[] {
      return 0;
    }
    var k :| k in m;
    assert (m - {k}).Keys == m.Keys - {k};
    t := LaterThanAll(m - {k});
    var after := SECOND * (m[k] / SECOND + 1);
    WholeMultiple(m[k] / SECOND + 1);
    if t <= m[k] {
      t := after;
    }
    forall j | j in m ensures m[j] < t {
      assert j == k || j in m - {k};
    }
  }

  lemma WholeMultiple(n: int)
    ensures WholeSeconds(SECOND * n) == SECOND * n
  {
  }

  lemma {:induction false} PendingSuffix(es: seq<Entry>, matches: Entry -> bool, sent: map<Key, int>, i: nat, q: nat)
    requires i <= q <= |es|
    ensures var all, rest := Pending(es, matches, sent, i), Pending(es, matches, sent, q);
      |rest| <= |all| && all[|all| - |rest|..] == rest
    decreases q - i
  {
    hide *;
    if i < q {
      PendingSuffix(es, matches, sent, i + 1, q);
      PendingUnfolds(es, matches, sent, i);
      var one := if !Sent(es, sent, es[i]) && matches(es[i]) then [es[i]] else [];
      SuffixOfMore(one, Pending(es, matches, sent, i + 1), Pending(es, matches, sent, q));
    }
  }

  lemma SuffixOfMore(one: seq<Entry>, later: seq<Entry>, rest: seq<Entry>)
    requires |rest| <= |later| && later[|later| - |rest|..] == rest
    ensures (one + later)[|one + later| - |rest|..] == rest
  {
  }

  lemma {:induction false} PendingIsPending(es: seq<Entry>, matches: Entry -> bool, sent: map<Key, int>, i: nat, e: Entry)
    requires i <= |es| && e in Pending(es, matches, sent, i)
    ensures matches(e) && !Sent(es, sent, e) && e in es
    decreases |es| - i
  {
    hide Sent;
    if !(!Sent(es, sent, es[i]) && matches(es[i])) || e != es[i] {
      assert e in Pending(es, matches, sent, i + 1);
      PendingIsPending(es, matches, sent, i + 1, e);
    }
  }

  /** Discord accepts the first c of these entries and rate limits the next. */
  ghost predicate AcceptsJust(sends: Entry -> SendResult, p: seq<Entry>, c: nat)
    requires c <= |p|
  {
    && (forall k :: 0 <= k < c ==> sends(p[k]) == Accepted)
    && (c < |p| ==> sends(p[c]) == SendFails(RateLimited(1), 0))
  }

  lemma AcceptsTheRest(sends: Entry -> SendResult, e: Entry, rest: seq<Entry>, c: nat)
    requires c <= |rest| + 1 && AcceptsJust(sends, [e] + rest, c)
    ensures c == 0 ==> sends(e) == SendFails(RateLimited(1), 0)
    ensures c > 0 ==> sends(e) == Accepted && AcceptsJust(sends, rest, c - 1)
  {
    var p := [e] + rest;
    assert p[0] == e && |p| == |rest| + 1;
    assert forall k :: 0 <= k < |rest| ==> rest[k] == p[k + 1];
  }

  /** When Discord accepts the first c pending entries and rate limits the next, the scan handles
      just those. */
  lemma {:induction false} LoopHandlesTheFirst(env: Env, matches: Entry -> bool, sends: Entry -> SendResult, es: seq<Entry>,
                                               window: seq<Entry>, st: Status, i: nat, c: nat)
    requires i <= |es| && Distinct(es) && c <= |Pending(es, matches, st.books.sent, i)|
    requires AcceptsJust(sends, Pending(es, matches, st.books.sent, i), c)
    ensures var d := Deliver(env, FeedOf(matches, sends), es, window, st, i);
      Entries(d.handled) == Pending(es, matches, st.books.sent, i)[..c] && d.end.Done?
    decreases |es| - i
  {
    hide Sent;
    hide TurnAt;
    hide AcceptsJust;
    hide Recorded;
    hide Handle;
    hide Entries;
    hide Prepend;
    hide Distinct;
    var f := FeedOf(matches, sends);
    if i == |es| {
      NoEntries();
    } else {
      var rest := Pending(es, matches, st.books.sent, i + 1);
      if PassedOver(f, es, st.books.sent, es[i]) {
        assert [] + rest == rest;
        LoopHandlesTheFirst(env, matches, sends, es, window, st, i + 1, c);
      } else {
        assert Pending(es, matches, st.books.sent, i) == [es[i]] + rest;
        AcceptsTheRest(sends, es[i], rest, c);
        DeliversAt(env, f, es, window, st, i);
        PlainTurn(env, matches, sends, es, window, st, es[i]);
        hide Deliver;
        hide Pending;
        if c == 0 {
          NoEntries();
        } else {
          var next := AfterFirst(env, matches, es, st, i);
          LoopHandlesTheFirst(env, matches, sends, es, window, next, i + 1, c - 1);
          FirstAndRest(es[i], rest, c, Deliver(env, f, es, window, next, i + 1));
        }
      }
    }
  }

  lemma NoEntries()
    ensures Entries([]) == []
  {
  }

  lemma AfterFirst(env: Env, matches: Entry -> bool, es: seq<Entry>, st: Status, i: nat) returns (next: Status)
    requires i < |es| && Distinct(es)
    ensures next == Recorded(Handle(es, st, es[i], env), EntrySent, env)
    ensures Pending(es, matches, next.books.sent, i + 1) == Pending(es, matches, st.books.sent, i + 1)
  {
    hide Sent;
    hide MarkHandled;
    hide Recorded;
    next := Recorded(Handle(es, st, es[i], env), EntrySent, env);
    RecordingKeeps(Handle(es, st, es[i], env), EntrySent, env, Completes);
    HandleFacts(es, st.books, i, env.SentAt());
    PendingDependsOnSent(es, matches, st.books.sent, next.books.sent, i + 1);
  }

  lemma FirstAndRest(e: Entry, rest: seq<Entry>, c: nat, d: Delivered)
    requires 0 < c <= |rest| + 1 && Entries(d.handled) == rest[..c - 1]
    ensures var all := Prepend([Handled(e, false)], d);
      Entries(all.handled) == ([e] + rest)[..c] && all.end == d.end
  {
    EntriesAppend([Handled(e, false)], d.handled);
    assert Entries([Handled(e, false)]) == [e];
    assert ([e] + rest)[..c] == [e] + rest[..c - 1];
  }

  lemma PlainTurn(env: Env, matches: Entry -> bool, sends: Entry -> SendResult, es: seq<Entry>, window: seq<Entry>,
                  st: Status, e: Entry)
    ensures var t := TurnAt(env, FeedOf(matches, sends), es, window, st, e);
      && (sends(e) == Accepted ==>
            t == GoOn(Recorded(Handle(es, st, e, env), EntrySent, env), [Handled(e, false)]))
      && (sends(e) == SendFails(RateLimited(1), 0) ==> t.Stop? && t.d.handled == [] && t.d.end.Done?)
  {
    hide MarkHandled;
  }

  /** The sync at time now in which just these entries are accepted. */
  function AcceptOnly(entries: seq<Entry>, matches: Entry -> bool, first: seq<Entry>, catchUp: int, now: int, order: Order): Sync {
    Sync(Input(Document(entries, Validators("", "")), Usable, FeedOf(matches, SendsOf(first)), PrunesAll),
         Env(now, catchUp, 1, 1, order))
  }

  function SendsOf(first: seq<Entry>): Entry -> SendResult {
    e => if e in first then Accepted else SendFails(RateLimited(1), 0)
  }

  lemma AcceptOnlyIsUsable(entries: seq<Entry>, matches: Entry -> bool, first: seq<Entry>, catchUp: int, now: int,
                           order: Order, st: Status)
    requires entries != [] && WholeSeconds(now) == now
    ensures var s := AcceptOnly(entries, matches, first, catchUp, now, order);
      && UsableDocument(s.input) && s.input.fetch.entries == entries && s.input.feed == FeedOf(matches, SendsOf(first))
      && s.input.feed.matches == matches && s.env.SentAt() == now && s.env.catchUp == catchUp && s.env.order == order
      && (forall end :: KeysLeftBy(s.input, end) == MAX_LAST_SENT)
      && RunOf(st, [s], entries, matches, catchUp, order)
  {
    hide RunSyncs;
  }

  /** What that sync does: it handles the first c of what is pending, and the scan's end is behind the
      last of them. */
  lemma HandlesTheFirst(es: seq<Entry>, st: Status, matches: Entry -> bool, c: nat, env: Env) returns (next: nat)
    requires es != [] && Distinct(es)
    requires var m := Migrated(es, st.books); var i := ScanStart(es, m, env.catchUp, st.initialized);
      c <= |Pending(es, matches, m.sent, i)|
    ensures var m := Migrated(es, st.books); var i := ScanStart(es, m, env.catchUp, st.initialized);
      var p := Pending(es, matches, m.sent, i); var f := FeedOf(matches, SendsOf(p[..c]));
      var d := Scanned(st, es, f, env);
      && Entries(d.handled) == p[..c] && d.end.Done?
      && Advanced(es, f, Begun(es, st, env.catchUp), i, d, next)
      && StampedOnly(es, m.sent, d.handled, d.st.books.sent, env.SentAt())
  {
    hide Migrated;
    hide Sent;
    hide Deliver;
    hide Advanced;
    hide StampedOnly;
    hide Distinct;
    hide ScanStart;
    var m := Migrated(es, st.books);
    var i := ScanStart(es, m, env.catchUp, st.initialized);
    var p := Pending(es, matches, m.sent, i);
    var f := FeedOf(matches, SendsOf(p[..c]));
    PendingIsDistinct(es, matches, m.sent, i);
    FirstAreAccepted(p, c);
    hide Pending;
    NoBacklogPanic(st, es, matches, SendsOf(p[..c]), env);
    next := ScanIsALoop(es, st, f, env);
    LoopHandlesTheFirst(env, matches, SendsOf(p[..c]), es, PlanOf(es, m, env.catchUp, st.initialized).scan,
                        Begun(es, st, env.catchUp), i, c);
  }

  lemma NoBacklogPanic(st: Status, es: seq<Entry>, matches: Entry -> bool, sends: Entry -> SendResult, env: Env)
    ensures !BacklogPanics(st, es, FeedOf(matches, sends), env)
  {
  }

  lemma FirstAreAccepted(p: seq<Entry>, c: nat)
    requires c <= |p| && Distinct(p)
    ensures AcceptsJust(SendsOf(p[..c]), p, c)
  {
    forall k | 0 <= k < c ensures p[k] in p[..c] {
      assert p[..c][k] == p[k];
    }
    if c < |p| {
      forall k | 0 <= k < c ensures p[..c][k] != p[c] {
        assert Identity(p[k]) != Identity(p[c]);
      }
    }
  }

  /** The scan ends in front of q when what it handled is. */
  lemma EndsBefore(es: seq<Entry>, st: Status, f: Feed, i: nat, d: Delivered, next: nat, q: nat, now: int)
    requires i <= q <= |es| && Distinct(es) && Advanced(es, f, st, i, d, next)
    requires AllRecorded(es, d.st.books, d.handled, now)
    requires var p := Pending(es, f.matches, st.books.sent, i);
      && |d.handled| <= |p| && Entries(d.handled) == p[..|d.handled|]
      && |d.handled| == |p| - |Pending(es, f.matches, st.books.sent, q)|
    ensures next <= q
  {
    hide Sent;
    hide Grown;
    hide Distinct;
    hide Keys;
    hide Clamp;
    hide Identity;
    var sent := st.books.sent;
    if next > q {
      PendingDependsOnSent(es, f.matches, d.st.books.sent, sent, next);
      LastIsHandled(es, st, f, i, d, next, now);
      assert Pending(es, f.matches, sent, next - 1) == [es[next - 1]] + Pending(es, f.matches, sent, next);
      PendingSuffix(es, f.matches, sent, q, next - 1);
    }
  }

  lemma LastIsHandled(es: seq<Entry>, st: Status, f: Feed, i: nat, d: Delivered, next: nat, now: int)
    requires i <= |es| && Distinct(es) && Advanced(es, f, st, i, d, next) && next > i
    requires AllRecorded(es, d.st.books, d.handled, now) && Entries(d.handled) <= Pending(es, f.matches, st.books.sent, i)
    ensures f.matches(es[next - 1]) && !Sent(es, st.books.sent, es[next - 1])
  {
    hide Sent;
    hide Grown;
    hide Keys;
    hide Pending;
    assert d.handled != [];
    var last := d.handled[|d.handled| - 1].entry;
    LastEntry(d.handled);
    assert Identity(last) == Identity(es[next - 1]);
    var p := Pending(es, f.matches, st.books.sent, i);
    assert last in p;
    PendingIsPending(es, f.matches, st.books.sent, i, last);
    var k :| 0 <= k < |es| && es[k] == last;
    assert k == next - 1;
  }

  lemma {:induction false} LastEntry(handled: seq<Handled>)
    requires handled != []
    ensures |Entries(handled)| == |handled| && Entries(handled)[|handled| - 1] == handled[|handled| - 1].entry
  {
    if |handled| > 1 {
      LastEntry(handled[1..]);
    } else {
      assert handled[1..] == [];
    }
  }

  /** When q reads as sent in the books left by such a sync, one of its keys lasted. */
  lemma KeptLasts(es: seq<Entry>, matches: Entry -> bool, m: map<Key, int>, i: nat, d: Delivered, next: nat, now: int,
                  left: map<Key, int>, order: Order, q: nat)
    requires i <= |es| && next <= q < |es| && Distinct(es) && Injective(order) && Grown(es, m, d.st.books.sent, next)
    requires StampedOnly(es, m, d.handled, d.st.books.sent, now) && forall k :: k in m ==> m[k] < now
    requires KeyCount(es, Entries(d.handled)) == KeysBefore(es, matches, m, i, q)
    requires left == Pruned(order, d.st.books.sent, MAX_LAST_SENT) && Sent(es, left, es[q])
    ensures LastsAt(es, matches, m, i, q, order)
  {
    hide KeyCount;
    hide Entries;
    hide KeysBefore;
    hide KeysOf;
    hide NotOlder;
    hide Keys;
    var x :| x in Keys(es, es[q]) && x in left;
    PrunedKeepsTheNewest(order, d.st.books.sent, MAX_LAST_SENT);
    AheadWasRecorded(es, m, d.st.books.sent, next, q, x);
    KeptIffFewNotOlder(order, d.st.books.sent, MAX_LAST_SENT, x);
    RankBehindNewer(order, m, KeysOf(es, d.handled), now, x);
    assert Lasts(order, m, x, KeysBefore(es, matches, m, i, q));
  }

  lemma AheadWasRecorded(es: seq<Entry>, m: map<Key, int>, after: map<Key, int>, next: nat, q: nat, x: Key)
    requires next <= q < |es| && Distinct(es) && Grown(es, m, after, next) && x in Keys(es, es[q]) && x in after
    ensures x in m
  {
    hide Keys;
    if j :| 0 <= j < next && x in Keys(es, es[j]) {
      SiblingsShareNoKey(es, j, q, x);
    }
  }

  /** Without room for q, the sync that delivers just what is in front of q leaves q to be delivered
      although it was sent. */
  lemma NoRoomIsNotOnce(st: Status, entries: seq<Entry>, matches: Entry -> bool, catchUp: int, order: Order, q: nat)
    requires entries != [] && Distinct(entries) && Undisturbing(Sorted(entries)) && Injective(order)
    requires var es := Sorted(entries); var m := Migrated(es, st.books);
      var i := ScanStart(es, m, catchUp, st.initialized);
      i <= q < |es| && matches(es[q]) && Sent(es, m.sent, es[q]) && !LastsAt(es, matches, m.sent, i, q, order)
    ensures !DeliversFrom(st, entries, matches, catchUp, order)
  {
    hide *;
    var es := Sorted(entries);
    var m := Migrated(es, st.books);
    var i := ScanStart(es, m, catchUp, st.initialized);
    var p, rest := Pending(es, matches, m.sent, i), Pending(es, matches, m.sent, q);
    PendingSuffix(es, matches, m.sent, i, q);
    var first := p[..|p| - |rest|];
    var now := LaterThanAll(m.sent);
    var s := AcceptOnly(entries, matches, first, catchUp, now, order);
    AcceptOnlyIsUsable(entries, matches, first, catchUp, now, order, st);
    SortedKeepsDistinct(entries);
    UsableSync(st, s);
    var fetched := Recorded(st, FetchDone, s.env);
    var d := Scanned(fetched, es, s.input.feed, s.env);
    var next := HandlesTheFirst(es, fetched, matches, |first|, s.env);
    LeavesAgain(es, fetched, s.input.feed, s.env, d, next, q);
    TodoIsPending(es, st, catchUp, matches);
    NotOnce(st, s, es, matches);
    RefutesFrom(st, s, entries, matches, catchUp, order);
  }

  lemma RefutesFrom(st: Status, s: Sync, entries: seq<Entry>, matches: Entry -> bool, catchUp: int, order: Order)
    requires RunOf(st, [s], entries, matches, catchUp, order)
    requires !DeliveredOnceInOrder(st, [s], Sorted(entries), matches, catchUp)
    ensures !DeliversFrom(st, entries, matches, catchUp, order)
  {
    hide RunOf;
    hide DeliveredOnceInOrder;
  }

  lemma TodoIsPending(es: seq<Entry>, st: Status, catchUp: int, matches: Entry -> bool)
    ensures var m := Migrated(es, st.books);
      Todo(es, st.books, st.initialized, catchUp, matches) ==
      Pending(es, matches, m.sent, ScanStart(es, m, catchUp, st.initialized))
  {
    hide Migrated;
    hide Pending;
    hide ScanStart;
  }

  /** The next to-do list has q in it, which the first had not. */
  lemma LeavesAgain(es: seq<Entry>, st: Status, f: Feed, env: Env, d: Delivered, next: nat, q: nat)
    requires es != [] && Distinct(es) && Undisturbing(es) && Injective(env.order) && d == Scanned(st, es, f, env)
    requires q < |es|
    requires var m := Migrated(es, st.books); var i := ScanStart(es, m, env.catchUp, st.initialized);
      var p, rest := Pending(es, f.matches, m.sent, i), Pending(es, f.matches, m.sent, q);
      && i <= q < |es| && f.matches(es[q]) && Sent(es, m.sent, es[q])
      && !LastsAt(es, f.matches, m.sent, i, q, env.order)
      && |rest| <= |p| && p[|p| - |rest|..] == rest && Entries(d.handled) == p[..|p| - |rest|]
      && Advanced(es, f, Begun(es, st, env.catchUp), i, d, next)
      && StampedOnly(es, m.sent, d.handled, d.st.books.sent, env.SentAt())
      && forall k :: k in m.sent ==> m.sent[k] < env.SentAt()
    ensures Todo(es, st.books, st.initialized, env.catchUp, f.matches) !=
      Entries(d.handled) + Todo(es, LeftBooks(d, env.order, MAX_LAST_SENT), true, env.catchUp, f.matches)
  {
    hide Migrated;
    hide Sent;
    hide Pending;
    hide ScanStart;
    hide Undisturbing;
    hide Distinct;
    hide Grown;
    hide StampedOnly;
    hide LastsAt;
    hide Entries;
    hide KeyCount;
    var m, b := Migrated(es, st.books), LeftBooks(d, env.order, MAX_LAST_SENT);
    var i := ScanStart(es, m, env.catchUp, st.initialized);
    var p, rest := Pending(es, f.matches, m.sent, i), Pending(es, f.matches, m.sent, q);
    assert Begun(es, st, env.catchUp).books.sent == m.sent;
    assert p == p[..|p| - |rest|] + rest;
    KeyCountAppend(es, p[..|p| - |rest|], rest);
    OneEntryEach(d.handled);
    ScanRecords(st, es, f, env, d);
    EndsBefore(es, Begun(es, st, env.catchUp), f, i, d, next, q, env.SentAt());
    StartsBehindTheLast(es, st, d, next, f, env, MAX_LAST_SENT);
    if Sent(es, b.sent, es[q]) {
      KeptLasts(es, f.matches, m.sent, i, d, next, env.SentAt(), b.sent, env.order, q);
    }
    IsPending(es, f.matches, Migrated(es, b).sent, next, q);
    if es[q] in rest {
      PendingIsPending(es, f.matches, m.sent, q, es[q]);
    }
  }

  lemma ScanRecords(st: Status, es: seq<Entry>, f: Feed, env: Env, d: Delivered)
    requires es != [] && d == Scanned(st, es, f, env)
    ensures AllRecorded(es, d.st.books, d.handled, env.SentAt())
  {
    ScannedRecords(st, es, f, env);
    hide Scanned;
  }

  lemma {:induction false} IsPending(es: seq<Entry>, matches: Entry -> bool, sent: map<Key, int>, i: nat, q: nat)
    requires i <= q < |es| && matches(es[q]) && !Sent(es, sent, es[q])
    ensures es[q] in Pending(es, matches, sent, i)
    decreases q - i
  {
    hide *;
    PendingUnfolds(es, matches, sent, i);
    if i < q {
      IsPending(es, matches, sent, i + 1, q);
    }
  }

  /** From a given status, for an undisturbing document under a given filter and limit, every run of
      syncs delivers it once and in order if and only if there is room. */
  lemma DeliversFromIffRoom(st: Status, entries: seq<Entry>, matches: Entry -> bool, catchUp: int, order: Order)
    requires entries != [] && Distinct(entries) && Undisturbing(Sorted(entries)) && Injective(order)
    ensures DeliversFrom(st, entries, matches, catchUp, order) <==>
            Room(Sorted(entries), st.books, st.initialized, catchUp, matches, order)
  {
    hide RunOf;
    hide DeliveredOnceInOrder;
    hide Undisturbing;
    hide Migrated;
    hide ScanStart;
    hide LastsAt;
    hide Sent;
    hide Sorted;
    if Room(Sorted(entries), st.books, st.initialized, catchUp, matches, order) {
      forall syncs: seq<Sync> | RunOf(st, syncs, entries, matches, catchUp, order)
        ensures DeliveredOnceInOrder(st, syncs, Sorted(entries), matches, catchUp)
      {
        RetriesDeliverOnceInOrder(st, syncs, entries, matches, catchUp, order);
      }
    } else {
      var es := Sorted(entries);
      var m := Migrated(es, st.books);
      var i := ScanStart(es, m, catchUp, st.initialized);
      var q :| i <= q < |es| && matches(es[q]) && Sent(es, m.sent, es[q]) && !LastsAt(es, matches, m.sent, i, q, order);
      NoRoomIsNotOnce(st, entries, matches, catchUp, order, q);
    }
  }
}
