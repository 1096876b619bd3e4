/** One scan of the send loop over a document: it handles a prefix of what is pending, in order, and
    records exactly the keys of what it handles. */
module Scans {
  import opened Identities
  import opened Statuses
  import opened Ledgers
  import opened Migrations
  import opened KeyMoves
  import opened Handovers
  import opened Pruning
  import opened Attempts
  import opened Deliveries
  import opened Fetches
  import opened FeedSyncs

  /** The unsent entries of es[i..] that pass the filter, in order. */
  function Pending(es: seq<Entry>, matches: Entry -> bool, sent: map<Key, int>, i: nat): seq<Entry>
    requires i <= |es|
    decreases |es| - i
  {
    if i == |es| then []
    else (if !Sent(es, sent, es[i]) && matches(es[i]) then [es[i]] else []) + Pending(es, matches, sent, i + 1)
  }

  function Entries(handled: seq<Handled>): seq<Entry> {
    if handled == [] then [] else [handled[0].entry] + Entries(handled[1..])
  }

  lemma {:induction false} EntriesAppend(a: seq<Handled>, b: seq<Handled>)
    ensures Entries(a + b) == Entries(a) + Entries(b)
  {
    if a == [] {
      assert a + b == b;
    } else {
      assert (a + b)[1..] == a[1..] + b;
      EntriesAppend(a[1..], b);
    }
  }

  lemma PendingUnfolds(es: seq<Entry>, matches: Entry -> bool, sent: map<Key, int>, i: nat)
    requires i <= |es|
    ensures i == |es| ==> Pending(es, matches, sent, i) == []
    ensures i < |es| ==>
      var one := if !Sent(es, sent, es[i]) && matches(es[i]) then [es[i]] else [];
      Pending(es, matches, sent, i) == one + Pending(es, matches, sent, i + 1)
  {
    hide Sent;
  }

  lemma DeliverUnfolds(env: Env, f: Feed, es: seq<Entry>, window: seq<Entry>, st: Status, i: nat)
    requires i <= |es|
    ensures var d := Deliver(env, f, es, window, st, i);
      if i == |es| then d == Delivered(st, [], Done(NOTHING))
      else if Sent(es, st.books.sent, es[i]) || (!f.filterPanics(es[i]) && !f.matches(es[i])) then
        d == Deliver(env, f, es, window, st, i + 1)
      else match TurnAt(env, f, es, window, st, es[i])
        case Stop(end) => d == end
        case GoOn(next, handled) => d == Prepend(handled, Deliver(env, f, es, window, next, i + 1))
  {
    hide TurnAt;
    hide Sent;
  }

  lemma {:induction false} PendingDependsOnSent(es: seq<Entry>, matches: Entry -> bool,
                                                a: map<Key, int>, b: map<Key, int>, i: nat)
    requires i <= |es|
    requires forall k :: i <= k < |es| ==> Sent(es, a, es[k]) == Sent(es, b, es[k])
    ensures Pending(es, matches, a, i) == Pending(es, matches, b, i)
    decreases |es| - i
  {
    hide *;
    PendingUnfolds(es, matches, a, i);
    PendingUnfolds(es, matches, b, i);
    if i < |es| {
      PendingDependsOnSent(es, matches, a, b, i + 1);
    }
  }

  lemma {:induction false} PendingIsDistinct(es: seq<Entry>, matches: Entry -> bool, sent: map<Key, int>, i: nat)
    requires i <= |es| && Distinct(es)
    ensures Distinct(Pending(es, matches, sent, i)) && ComesFrom(es, i, Pending(es, matches, sent, i))
    decreases |es| - i
  {
    hide Sent;
    hide Distinct;
    hide ComesFrom;
    if i == |es| {
      NoneAreDistinct(es);
    } else {
      PendingIsDistinct(es, matches, sent, i + 1);
      DistinctFrom(es, i, Pending(es, matches, sent, i + 1));
      assert [] + Pending(es, matches, sent, i + 1) == Pending(es, matches, sent, i + 1);
    }
  }

  ghost predicate ComesFrom(es: seq<Entry>, i: nat, some: seq<Entry>) {
    forall e :: e in some ==> exists k :: i <= k < |es| && es[k] == e
  }

  lemma NoneAreDistinct(es: seq<Entry>)
    ensures Distinct([]) && ComesFrom(es, |es|, [])
  {
  }

  /** Distinct later entries, with or without the one before. */
  lemma DistinctFrom(es: seq<Entry>, i: nat, later: seq<Entry>)
    requires i < |es| && Distinct(es) && Distinct(later) && ComesFrom(es, i + 1, later)
    ensures Distinct([es[i]] + later) && ComesFrom(es, i, [es[i]] + later) && ComesFrom(es, i, later)
  {
    hide Identity;
    forall j | 0 <= j < |later| ensures Identity(later[j]) != Identity(es[i]) {
      assert later[j] in later;
    }
    forall e | e in [es[i]] + later ensures exists k :: i <= k < |es| && es[k] == e {
      if e != es[i] {
        assert e in later;
      }
    }
  }

  /** What handling es[i] does to the books, seen from the entries after it. */
  lemma HandleFacts(es: seq<Entry>, b: Books, i: nat, now: int)
    requires i < |es| && Distinct(es)
    ensures var after := MarkHandled(es, b, es[i], now).sent;
      && (forall k :: i < k < |es| ==> Sent(es, after, es[k]) == Sent(es, b.sent, es[k]))
      && Grown(es, b.sent, after, i + 1)
  {
    forall k | i < k < |es| {
      HandlingIsSeparate(es, b, i, k, now);
    }
  }

  lemma {:induction false} KeysGrow(sent: map<Key, int>, keys: seq<Key>, n: nat, now: int)
    requires n <= |keys|
    ensures Size(sent + Stamped(keys[..n], now)) <= Size(sent) + n
  {
    hide Size;
    if n == 0 {
      assert sent + Stamped(keys[..0], now) == sent;
    } else {
      KeysGrow(sent, keys, n - 1, now);
      StampNext(sent, keys, n - 1, now);
      InsertGrows(sent + Stamped(keys[..n - 1], now), keys[n - 1], now);
    }
  }

  lemma InsertGrows(m: map<Key, int>, k: Key, v: int)
    ensures Size(m[k := v]) <= Size(m) + 1
  {
    assert m[k := v].Keys == m.Keys + {k};
  }

  /** d went from es[i] to es[next]: it handled a prefix of what was pending at i, in order, and
      what is pending from next on is what is left of it. */
  ghost predicate Advanced(es: seq<Entry>, f: Feed, st: Status, i: nat, d: Delivered, next: nat) {
    && i <= next <= |es|
    && Pending(es, f.matches, st.books.sent, i) == Entries(d.handled) + Pending(es, f.matches, d.st.books.sent, next)
    && (d.handled == [] ==> next == i && d.st.books == st.books)
    && (d.handled != [] ==> next > i && d.st.books.mark == Clamp(Identity(es[next - 1])))
    && (d.end.Done? && !d.end.verdict.pending ==> Pending(es, f.matches, d.st.books.sent, next) == [])
    && (forall k :: next <= k < |es| ==> Sent(es, d.st.books.sent, es[k]) == Sent(es, st.books.sent, es[k]))
    && Grown(es, st.books.sent, d.st.books.sent, next)
    && d.st.initialized == st.initialized && d.st.validators == st.validators
  }

  /** The books a turn leaves, and how it ends the loop. */
  lemma TurnBooks(env: Env, f: Feed, es: seq<Entry>, window: seq<Entry>, st: Status, e: Entry)
    ensures var t := TurnAt(env, f, es, window, st, e);
      var d := if t.GoOn? then Delivered(t.st, t.handled, Panicked) else t.d;
      && (d.handled == [] ==> d.st.books == st.books && t.Stop?)
      && (d.handled != [] ==>
            && d.handled == [Handled(e, d.handled[0].skipped)] && !f.filterPanics(e)
            && d.st.books == MarkHandled(es, st.books, e, env.SentAt()))
      && d.st.initialized == st.initialized && d.st.validators == st.validators
      && (d.end.Done? ==> d.end.verdict.pending)
  {
    hide MarkHandled;
    hide OtherRenders;
  }

  lemma StayAdvances(es: seq<Entry>, f: Feed, st: Status, i: nat, d: Delivered)
    requires i <= |es| && d.handled == [] && d.st.books == st.books
    requires d.st.initialized == st.initialized && d.st.validators == st.validators
    requires d.end.Done? ==> d.end.verdict.pending || i == |es|
    ensures Advanced(es, f, st, i, d, i)
  {
  }

  lemma {:induction false} HandleAdvances(es: seq<Entry>, f: Feed, st: Status, i: nat, now: int, d: Delivered)
    requires i < |es| && Distinct(es) && !Sent(es, st.books.sent, es[i]) && f.matches(es[i])
    requires d.st.books == MarkHandled(es, st.books, es[i], now) && |d.handled| == 1 && d.handled[0].entry == es[i]
    requires d.st.initialized == st.initialized && d.st.validators == st.validators
    requires d.end.Done? ==> d.end.verdict.pending
    ensures Advanced(es, f, st, i, d, i + 1)
  {
    hide Sent;
    hide Grown;
    hide Pending;
    hide Keys;
    hide Stamped;
    hide Clamp;
    hide Identity;
    hide Entries;
    HandleFacts(es, st.books, i, now);
    OneHandledEntry(d.handled);
    PendingUnfolds(es, f.matches, st.books.sent, i);
    PendingDependsOnSent(es, f.matches, st.books.sent, d.st.books.sent, i + 1);
  }

  lemma OneHandledEntry(handled: seq<Handled>)
    requires |handled| == 1
    ensures Entries(handled) == [handled[0].entry]
  {
    assert handled[1..] == [];
  }

  lemma {:induction false} SkipAdvances(es: seq<Entry>, f: Feed, st: Status, i: nat, d: Delivered, next: nat)
    requires i < |es| && PassedOver(f, es, st.books.sent, es[i])
    requires Advanced(es, f, st, i + 1, d, next)
    ensures Advanced(es, f, st, i, d, if d.handled == [] then i else next)
  {
    hide Sent;
    hide Pending;
    hide Keys;
    hide Clamp;
    hide Identity;
    var later := Pending(es, f.matches, st.books.sent, i + 1);
    PendingUnfolds(es, f.matches, st.books.sent, i);
    assert [] + later == later;
  }

  lemma GrownFurther(es: seq<Entry>, a: map<Key, int>, b: map<Key, int>, c: map<Key, int>, i: nat, next: nat)
    requires i <= next <= |es| && Grown(es, a, b, i) && Grown(es, b, c, next)
    ensures Grown(es, a, c, next)
  {
    hide Keys;
  }

  lemma {:induction false} PrependAdvances(es: seq<Entry>, f: Feed, st: Status, i: nat, first: Delivered, d: Delivered, next: nat)
    requires i < |es| && |first.handled| == 1 && Advanced(es, f, st, i, first, i + 1)
    requires Advanced(es, f, first.st, i + 1, d, next)
    ensures Advanced(es, f, st, i, Prepend(first.handled, d), next)
  {
    hide Sent;
    hide Pending;
    hide Grown;
    hide Entries;
    GrownFurther(es, st.books.sent, first.st.books.sent, d.st.books.sent, i + 1, next);
    EntriesAppend(first.handled, d.handled);
  }

  /** The send loop from es[i] on. */
  lemma {:induction false} LoopAdvances(env: Env, f: Feed, es: seq<Entry>, window: seq<Entry>, st: Status, i: nat)
    returns (next: nat)
    requires i <= |es| && Distinct(es)
    ensures Advanced(es, f, st, i, Deliver(env, f, es, window, st, i), next)
    decreases |es| - i
  {
    hide TurnAt;
    hide Sent;
    hide Advanced;
    hide MarkHandled;
    var d := Deliver(env, f, es, window, st, i);
    if i == |es| {
      StayAdvances(es, f, st, i, d);
      return i;
    }
    if PassedOver(f, es, st.books.sent, es[i]) {
      next := LoopAdvances(env, f, es, window, st, i + 1);
      SkipAdvances(es, f, st, i, d, next);
      next := if d.handled == [] then i else next;
      return;
    }
    TurnBooks(env, f, es, window, st, es[i]);
    var turn := TurnAt(env, f, es, window, st, es[i]);
    match turn {
      case Stop(d) =>
        if d.handled == [] {
          StayAdvances(es, f, st, i, d);
          next := i;
        } else {
          HandleAdvances(es, f, st, i, env.SentAt(), d);
          next := i + 1;
        }
      case GoOn(after, handled) =>
        var first := Delivered(after, handled, Panicked);
        HandleAdvances(es, f, st, i, env.SentAt(), first);
        next := LoopAdvances(env, f, es, window, after, i + 1);
        PrependAdvances(es, f, st, i, first, Deliver(env, f, es, window, after, i + 1), next);
    }
  }

  /** The keys of these entries. */
  function KeysOf(es: seq<Entry>, handled: seq<Handled>): set<Key> {
    if handled == [] then {} else (set k | k in Keys(es, handled[0].entry)) + KeysOf(es, handled[1..])
  }

  /** How many keys these entries are recorded under. */
  function KeyCount(es: seq<Entry>, some: seq<Entry>): nat {
    if some == [] then 0 else |Keys(es, some[0])| + KeyCount(es, some[1..])
  }

  lemma {:induction false} KeyCountAppend(es: seq<Entry>, a: seq<Entry>, b: seq<Entry>)
    ensures KeyCount(es, a + b) == KeyCount(es, a) + KeyCount(es, b)
  {
    hide Keys;
    if a == [] {
      assert a + b == b;
    } else {
      assert (a + b)[1..] == a[1..] + b;
      KeyCountAppend(es, a[1..], b);
    }
  }

  lemma {:induction false} KeysOfAppend(es: seq<Entry>, a: seq<Handled>, b: seq<Handled>)
    ensures KeysOf(es, a + b) == KeysOf(es, a) + KeysOf(es, b)
  {
    hide Keys;
    if a == [] {
      assert a + b == b;
    } else {
      assert (a + b)[1..] == a[1..] + b;
      KeysOfAppend(es, a[1..], b);
    }
  }

  /** after is sent with just the keys of these entries added, at time now: none was recorded before,
      and no two of the entries share one. */
  ghost predicate StampedOnly(es: seq<Entry>, sent: map<Key, int>, handled: seq<Handled>, after: map<Key, int>, now: int) {
    && after == sent + Stamps(KeysOf(es, handled), now)
    && KeysOf(es, handled) !! sent.Keys
    && |KeysOf(es, handled)| == KeyCount(es, Entries(handled))
  }

  lemma NoneStamped(es: seq<Entry>, sent: map<Key, int>, now: int)
    ensures StampedOnly(es, sent, [], sent, now)
  {
    assert sent + Stamps({}, now) == sent;
  }

  lemma OneStamped(es: seq<Entry>, b: Books, h: Handled, now: int)
    requires !Sent(es, b.sent, h.entry)
    ensures StampedOnly(es, b.sent, [h], MarkHandled(es, b, h.entry, now).sent, now)
  {
    hide Keys;
    var keys := Keys(es, h.entry);
    assert [h][1..] == [] && Entries([h]) == [h.entry] && [h.entry][1..] == [];
    assert KeyCount(es, [h.entry]) == |keys|;
    assert KeysOf(es, [h]) == set k | k in keys;
    assert Stamped(keys, now) == Stamps(KeysOf(es, [h]), now);
    KeysAreDistinct(es, h.entry);
  }

  lemma KeysAreDistinct(es: seq<Entry>, e: Entry)
    ensures |set k | k in Keys(es, e)| == |Keys(es, e)|
  {
    var keys := Keys(es, e);
    if |keys| == 1 {
      assert (set k | k in keys) == {keys[0]};
    } else {
      assert (set k | k in keys) == {keys[0], keys[1]};
    }
  }

  lemma StampedFurther(es: seq<Entry>, a: map<Key, int>, first: seq<Handled>, b: map<Key, int>, second: seq<Handled>,
                       c: map<Key, int>, now: int)
    requires StampedOnly(es, a, first, b, now) && StampedOnly(es, b, second, c, now)
    ensures StampedOnly(es, a, first + second, c, now)
  {
    hide KeysOf;
    hide KeyCount;
    hide Entries;
    KeysOfAppend(es, first, second);
    EntriesAppend(first, second);
    KeyCountAppend(es, Entries(first), Entries(second));
    StampsFurther(a, KeysOf(es, first), KeysOf(es, second), now);
  }

  /** The scan records exactly the keys of what it handles. */
  lemma {:induction false} LoopStampsOnly(env: Env, f: Feed, es: seq<Entry>, window: seq<Entry>, st: Status, i: nat)
    requires i <= |es|
    ensures var d := Deliver(env, f, es, window, st, i);
      StampedOnly(es, st.books.sent, d.handled, d.st.books.sent, env.SentAt())
    decreases |es| - i
  {
    hide TurnAt;
    hide Sent;
    hide StampedOnly;
    hide MarkHandled;
    if i == |es| {
      NoneStamped(es, st.books.sent, env.SentAt());
    } else if PassedOver(f, es, st.books.sent, es[i]) {
      LoopStampsOnly(env, f, es, window, st, i + 1);
    } else {
      TurnBooks(env, f, es, window, st, es[i]);
      match TurnAt(env, f, es, window, st, es[i])
      case Stop(d) =>
        if d.handled == [] {
          NoneStamped(es, st.books.sent, env.SentAt());
        } else {
          OneStamped(es, st.books, d.handled[0], env.SentAt());
        }
      case GoOn(after, handled) =>
        OneStamped(es, st.books, handled[0], env.SentAt());
        LoopStampsOnly(env, f, es, window, after, i + 1);
        var d := Deliver(env, f, es, window, after, i + 1);
        StampedFurther(es, st.books.sent, handled, after.books.sent, d.handled, d.st.books.sent, env.SentAt());
    }
  }

  /** What the next usable sync of es is to deliver, in order: the unsent entries of its plan that
      pass the filter. */
  function Todo(es: seq<Entry>, b: Books, wasInitialized: bool, catchUp: int, matches: Entry -> bool): seq<Entry> {
    var m := Migrated(es, b);
    Pending(es, matches, m.sent, ScanStart(es, m, catchUp, wasInitialized))
  }

  /** The watermark of an entry of a fetch with distinct identities is found at that entry. */
  lemma ResumesBehind(es: seq<Entry>, i: nat)
    requires i < |es| && Distinct(es)
    ensures Resume(es, Clamp(Identity(es[i]))) == Found(i)
  {
    var j := FirstMarked(es, Clamp(Identity(es[i])), 0);
    assert j == i;
  }

  /** Fewer recorded keys make no entry read as sent. */
  lemma FewerKeys(es: seq<Entry>, fewer: map<Key, int>, sent: map<Key, int>, e: Entry)
    requires forall k :: k in fewer ==> k in sent
    requires !Sent(es, sent, e)
    ensures !Sent(es, fewer, e)
  {
  }

  /** The books a sync of es leaves to the next one. */
  ghost function LeftBooks(d: Delivered, order: Order, max: nat): Books {
    d.st.books.(sent := Pruned(order, d.st.books.sent, max))
  }

  /** The next plan resumes where this scan stopped. */
  lemma ResumesWhereItStopped(es: seq<Entry>, st: Status, d: Delivered, next: nat, catchUp: int, mark: Mark)
    requires es != [] && Distinct(es)
    requires var m := Migrated(es, st.books); var i := ScanStart(es, m, catchUp, st.initialized);
      && next <= |es|
      && (d.handled == [] ==> next == i && mark == Begun(es, st, catchUp).books.mark)
      && (d.handled != [] ==> next > i && mark == Clamp(Identity(es[next - 1])))
    ensures forall sent :: ScanStart(es, Books(mark, sent), catchUp, true) == next
    ensures mark == Migrated(es, st.books).mark || exists k :: 0 <= k < |es| && mark == Clamp(Identity(es[k]))
  {
    hide Migrated;
    hide FirstMarked;
    hide FirstUnique;
    hide Identity;
    hide Clamp;
    hide Resume;
    var m := Migrated(es, st.books);
    if d.handled != [] {
      ResumesBehind(es, next - 1);
    } else if PlanOf(es, m, catchUp, st.initialized).skipBacklog {
      ResumesBehind(es, |es| - 1);
    }
  }

  /** The next sync migrates the books this one left: it starts where this scan stopped, and the
      entries from there on are as sent as before. */
  lemma StartsBehindTheLast(es: seq<Entry>, st: Status, d: Delivered, next: nat, f: Feed, env: Env, max: nat)
    requires es != [] && Distinct(es) && Undisturbing(es)
    requires var m := Migrated(es, st.books);
      Advanced(es, f, Begun(es, st, env.catchUp), ScanStart(es, m, env.catchUp, st.initialized), d, next)
    ensures var b := LeftBooks(d, env.order, max);
      && ScanStart(es, Migrated(es, b), env.catchUp, true) == next
      && (forall k :: next <= k < |es| ==> Sent(es, Migrated(es, b).sent, es[k]) == Sent(es, b.sent, es[k]))
  {
    hide Migrated;
    hide ScanStart;
    hide Pending;
    hide Sent;
    hide Size;
    hide Keys;
    hide Clamp;
    hide Identity;
    hide Undisturbing;
    hide Distinct;
    hide Grown;
    hide MoveAll;
    var m, b := Migrated(es, st.books), LeftBooks(d, env.order, max);
    PrunedKeepsTheNewest(env.order, d.st.books.sent, max);
    ResumesWhereItStopped(es, st, d, next, env.catchUp, d.st.books.mark);
    MigratedMarkStays(es, st.books, b);
    assert Migrated(es, b) == Books(d.st.books.mark, Migrated(es, b).sent);
    forall k | next <= k < |es| ensures Sent(es, Migrated(es, b).sent, es[k]) == Sent(es, b.sent, es[k]) {
      AheadIsUndisturbed(es, st.books, d.st.books.sent, b, next, k);
    }
  }

  lemma {:induction false} OneEntryEach(handled: seq<Handled>)
    ensures |Entries(handled)| == |handled|
  {
    if handled != [] {
      OneEntryEach(handled[1..]);
    }
  }

  /** A scan that begins is the send loop. */
  lemma ScanIsALoop(es: seq<Entry>, st: Status, f: Feed, env: Env) returns (next: nat)
    requires es != [] && Distinct(es) && !BacklogPanics(st, es, f, env)
    ensures var m := Migrated(es, st.books); var d := Scanned(st, es, f, env);
      && Advanced(es, f, Begun(es, st, env.catchUp), ScanStart(es, m, env.catchUp, st.initialized), d, next)
      && StampedOnly(es, m.sent, d.handled, d.st.books.sent, env.SentAt())
  {
    hide Advanced;
    hide StampedOnly;
    hide Deliver;
    hide Migrated;
    var m := Migrated(es, st.books);
    var window, i := PlanOf(es, m, env.catchUp, st.initialized).scan, ScanStart(es, m, env.catchUp, st.initialized);
    next := LoopAdvances(env, f, es, window, Begun(es, st, env.catchUp), i);
    LoopStampsOnly(env, f, es, window, Begun(es, st, env.catchUp), i);
  }
}
