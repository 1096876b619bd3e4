/** Entries that cannot be rendered do not hold back the ones behind them: over a run of syncs of a
    document, an entry that renders is delivered however many broken ones stand in front of it. */
module BrokenEntries {
  import opened Identities
  import opened Statuses
  import opened Ledgers
  import opened Migrations
  import opened Handovers
  import opened Pruning
  import opened Plans
  import opened Retries
  import opened Attempts
  import opened Deliveries
  import opened Fetches
  import opened FeedSyncs
  import opened Scans
  import opened Rooms
  import opened FeedRuns
  import opened Skips
  import RoomExact
  import RetryHistories

  /** Of these entries the broken ones fail to render and Discord accepts all others; nothing panics. */
  ghost predicate BreaksJust(f: Feed, es: seq<Entry>, broken: Entry -> bool) {
    && (forall e, o :: f.records(e, o) == Completes)
    && forall e :: e in es ==> BreaksAt(f, e, broken)
  }

  predicate BreaksAt(f: Feed, e: Entry, broken: Entry -> bool) {
    && !f.filterPanics(e)
    && (f.matches(e) ==> if broken(e) then f.renders(e) == RenderFails else f.renders(e) == Renders && f.sends(e) == Accepted)
  }

  /** A sync of the document with these entries, of which just the broken ones fail, with at most limit
      retries configured. */
  ghost predicate SyncOfAllBut(s: Sync, entries: seq<Entry>, matches: Entry -> bool, broken: Entry -> bool, catchUp: int,
                               order: Order, limit: nat) {
    && UsableDocument(s.input) && s.input.fetch.entries == entries && BreaksJust(s.input.feed, entries, broken)
    && s.input.feed.matches == matches && s.env.catchUp == catchUp && s.env.order == order && s.env.retries <= limit
  }

  function CountBroken(es: seq<Entry>, broken: Entry -> bool): nat {
    if es == [] then 0 else (if broken(es[0]) then 1 else 0) + CountBroken(es[1..], broken)
  }

  lemma {:induction false} CountBrokenAppend(a: seq<Entry>, b: seq<Entry>, broken: Entry -> bool)
    ensures CountBroken(a + b, broken) == CountBroken(a, broken) + CountBroken(b, broken)
  {
    if a == [] {
      assert a + b == b;
    } else {
      assert (a + b)[1..] == a[1..] + b;
      CountBrokenAppend(a[1..], b, broken);
    }
  }

  lemma {:induction false} NoneBroken(es: seq<Entry>, broken: Entry -> bool)
    requires forall k :: 0 <= k < |es| ==> !broken(es[k])
    ensures CountBroken(es, broken) == 0
  {
    if es != [] {
      NoneBroken(es[1..], broken);
    }
  }

  /** One turn at an entry that passes the filter. */
  lemma TurnWithBroken(env: Env, f: Feed, es: seq<Entry>, window: seq<Entry>, st: Status, e: Entry, broken: Entry -> bool)
    requires f.matches(e) && BreaksAt(f, e, broken) && NonePanics(f, window) && forall d, o :: f.records(d, o) == Completes
    requires broken(e) && st.run.count >= env.MaxRetries() ==> AnotherRenders(f, window, e)
    ensures var t := TurnAt(env, f, es, window, st, e);
      if broken(e) && st.run.count < env.MaxRetries() then
        t.Stop? && t.d.handled == [] && t.d.end.Done? && t.d.end.verdict.pending
        && t.d.st.run == st.run.(count := st.run.count + 1)
      else
        && t.GoOn? && t.handled == [Handled(e, broken(e))] && t.st.run.count == 0 && t.st.run.reachable == st.run.reachable
        && t.st.books == MarkHandled(es, st.books, e, env.SentAt())
  {
    hide MarkHandled;
    hide AnotherRenders;
    hide NonePanics;
    if broken(e) {
      GivenUpIffAnotherRenders(env, f, es, window, st, e);
      hide TurnAt;
    }
  }

  /** How a scan ends that found p pending when the count was count: it went on to the end, or to the
      first broken entry that is not the first of all, or was held by the first with retries left. */
  ghost predicate HeldAtBroken(p: seq<Entry>, count: nat, limit: nat, d: Delivered, broken: Entry -> bool) {
    var n := |d.handled|;
    && n <= |p| && (forall k :: 0 <= k < n ==> d.handled[k] == Handled(p[k], broken(p[k])))
    && (forall k :: 0 < k < n ==> !broken(p[k]))
    && (n > 0 && broken(p[0]) ==> count >= limit)
    && (n < |p| ==>
          && broken(p[n]) && d.end.Done? && d.end.verdict.pending
          && d.st.run.count == (if n == 0 then count + 1 else 1) && (n == 0 ==> count < limit))
  }

  lemma HeldAtOnce(p: seq<Entry>, count: nat, limit: nat, d: Delivered, broken: Entry -> bool)
    requires d.handled == []
    requires p != [] ==> broken(p[0]) && count < limit && d.end.Done? && d.end.verdict.pending && d.st.run.count == count + 1
    ensures HeldAtBroken(p, count, limit, d, broken)
  {
  }

  lemma HeldLater(e: Entry, rest: seq<Entry>, count: nat, limit: nat, d: Delivered, broken: Entry -> bool)
    requires limit >= 1 && HeldAtBroken(rest, 0, limit, d, broken) && (broken(e) ==> count >= limit)
    ensures HeldAtBroken([e] + rest, count, limit, Prepend([Handled(e, broken(e))], d), broken)
  {
    var p, all := [e] + rest, Prepend([Handled(e, broken(e))], d);
    assert forall k :: 0 < k < |p| ==> p[k] == rest[k - 1];
    assert forall k :: 0 < k < |all.handled| ==> all.handled[k] == d.handled[k - 1];
  }

  lemma {:induction false} LoopWithBroken(env: Env, f: Feed, es: seq<Entry>, window: seq<Entry>, st: Status, i: nat,
                                          broken: Entry -> bool)
    requires i <= |es| && Distinct(es) && BreaksJust(f, es, broken) && NonePanics(f, window)
    requires var p := Pending(es, f.matches, st.books.sent, i);
      p != [] && broken(p[0]) && st.run.count >= env.MaxRetries() ==> AnotherRenders(f, window, p[0])
    ensures var d := Deliver(env, f, es, window, st, i);
      && HeldAtBroken(Pending(es, f.matches, st.books.sent, i), st.run.count, env.MaxRetries(), d, broken)
      && d.st.run.reachable == st.run.reachable
    decreases |es| - i
  {
    hide *;
    PendingUnfolds(es, f.matches, st.books.sent, i);
    DeliverUnfolds(env, f, es, window, st, i);
    var p, d := Pending(es, f.matches, st.books.sent, i), Deliver(env, f, es, window, st, i);
    if i == |es| {
      HeldAtOnce(p, st.run.count, env.MaxRetries(), d, broken);
    } else {
      var rest := Pending(es, f.matches, st.books.sent, i + 1);
      BreaksEach(f, es, broken, i);
      if Sent(es, st.books.sent, es[i]) || !f.matches(es[i]) {
        assert [] + rest == rest;
        LoopWithBroken(env, f, es, window, st, i + 1, broken);
      } else {
        TurnWithBroken(env, f, es, window, st, es[i], broken);
        if broken(es[i]) && st.run.count < env.MaxRetries() {
          HeldAtOnce(p, st.run.count, env.MaxRetries(), d, broken);
        } else {
          var next := TurnAt(env, f, es, window, st, es[i]).st;
          HandleFacts(es, st.books, i, env.SentAt());
          PendingDependsOnSent(es, f.matches, st.books.sent, next.books.sent, i + 1);
          LoopWithBroken(env, f, es, window, next, i + 1, broken);
          HeldLater(es[i], rest, st.run.count, env.MaxRetries(), Deliver(env, f, es, window, next, i + 1), broken);
          PrependKeepsTheEnd([Handled(es[i], broken(es[i]))], Deliver(env, f, es, window, next, i + 1));
        }
      }
    }
  }

  lemma BreaksEach(f: Feed, es: seq<Entry>, broken: Entry -> bool, i: nat)
    requires i < |es| && BreaksJust(f, es, broken)
    ensures BreaksAt(f, es[i], broken) && !f.filterPanics(es[i]) && forall d, o :: f.records(d, o) == Completes
  {
  }

  lemma PrependKeepsTheEnd(handled: seq<Handled>, d: Delivered)
    ensures Prepend(handled, d).st == d.st
  {
  }

  /** What is pending where a scan starts is part of the window it looks for evidence in. */
  lemma PendingIsInWindow(es: seq<Entry>, st: Status, env: Env, matches: Entry -> bool, sent: map<Key, int>, e: Entry)
    requires Distinct(es) && e in Pending(es, matches, sent, ScanFrom(st, es, env))
    ensures e in WindowOf(st, es, env)
  {
    hide Pending;
    hide Migrated;
    hide Distinct;
    hide Resume;
    var i := ScanFrom(st, es, env);
    PendingIsDistinct(es, matches, sent, i);
    var k :| i <= k < |es| && es[k] == e;
    var b := Migrated(es, st.books);
    ResumeIsInRange(es, b.mark);
    ScansASuffix(es, Resume(es, b.mark), env.catchUp, st.initialized);
    var p := PlanOf(es, b, env.catchUp, st.initialized);
    assert p.scan[p.resumeAt..][k - i] == e;
  }

  /** What a scan of the document does to the to-do list when entry q of it renders. */
  lemma ScanWithBroken(st: Status, es: seq<Entry>, f: Feed, env: Env, broken: Entry -> bool, q: nat)
    requires es != [] && Distinct(es) && BreaksJust(f, es, broken)
    requires var p := Todo(es, st.books, st.initialized, env.catchUp, f.matches); q < |p| && !broken(p[q])
    ensures var d := Scanned(st, es, f, env);
      && HeldAtBroken(Todo(es, st.books, st.initialized, env.catchUp, f.matches), st.run.count, env.MaxRetries(), d, broken)
      && d.st.run.reachable == st.run.reachable
  {
    hide *;
    var p, window, i := Todo(es, st.books, st.initialized, env.catchUp, f.matches), WindowOf(st, es, env), ScanFrom(st, es, env);
    var m := Migrated(es, st.books);
    TodoFromScan(es, st, env, f.matches);
    BeginsWithRecords(es, st, f, env, broken);
    ScanOf(st, es, f, env);
    PendingIsDistinct(es, f.matches, m.sent, i);
    NothingPanics(f, es, window, broken);
    if broken(p[0]) {
      RoomExact.PendingIsPending(es, f.matches, m.sent, i, p[q]);
      PendingIsInWindow(es, st, env, f.matches, m.sent, p[q]);
      OtherIsEvidence(f, es, window, broken, p, q);
    }
    LoopWithBroken(env, f, es, window, Begun(es, st, env.catchUp), i, broken);
  }

  lemma BeginsWithRecords(es: seq<Entry>, st: Status, f: Feed, env: Env, broken: Entry -> bool)
    requires es != [] && BreaksJust(f, es, broken)
    ensures !BacklogPanics(st, es, f, env)
    ensures var b := Begun(es, st, env.catchUp); b.run == st.run && b.books.sent == Migrated(es, st.books).sent
  {
    hide Migrated;
    hide Clamp;
    hide Identity;
    hide PlanDelivery;
    hide Resume;
  }

  lemma NothingPanics(f: Feed, es: seq<Entry>, window: seq<Entry>, broken: Entry -> bool)
    requires BreaksJust(f, es, broken) && forall e :: e in window ==> e in es
    ensures NonePanics(f, window)
  {
  }

  lemma OtherIsEvidence(f: Feed, es: seq<Entry>, window: seq<Entry>, broken: Entry -> bool, p: seq<Entry>, q: nat)
    requires q < |p| && Distinct(p) && broken(p[0]) && !broken(p[q]) && p[q] in window && BreaksJust(f, es, broken)
    requires p[q] in es && f.matches(p[q])
    ensures AnotherRenders(f, window, p[0])
  {
    hide Identity;
    assert q > 0;
    assert BreaksAt(f, p[q], broken);
  }

  /** What a sync of the document does to the to-do list when entry q of it renders: count is the run's
      count once the fetch is recorded. */
  lemma SyncWithBroken(st: Status, s: Sync, entries: seq<Entry>, matches: Entry -> bool, broken: Entry -> bool, catchUp: int,
                       order: Order, limit: nat, q: nat)
    requires entries != [] && Distinct(entries) && SyncOfAllBut(s, entries, matches, broken, catchUp, order, limit)
    requires var p := Todo(Sorted(entries), st.books, st.initialized, catchUp, matches); q < |p| && !broken(p[q])
    ensures var p := Todo(Sorted(entries), st.books, st.initialized, catchUp, matches);
      var count := FetchSucceeded(st.run).count;
      var handled, after := Apply(st, s.input, s.env).handled, Processed(st, s.input, s.env);
      var n := |handled|;
      && n <= |p| && (forall k :: 0 <= k < n ==> handled[k] == Handled(p[k], broken(p[k])))
      && (forall k :: 0 < k < n ==> !broken(p[k]))
      && (n > 0 && broken(p[0]) ==> count >= s.env.MaxRetries())
      && (n < |p| ==>
            && broken(p[n]) && after.run.reachable == True
            && after.run.count == (if n == 0 then count + 1 else 1) && (n == 0 ==> count < s.env.MaxRetries()))
  {
    hide *;
    var es, fetched := Sorted(entries), Recorded(st, FetchDone, s.env);
    OfAllBut(s, entries, matches, broken, catchUp, order, limit);
    SortedKeepsDistinct(entries);
    FetchIsRecorded(st, s.env);
    UsableSync(st, s);
    ScanWithBroken(fetched, es, s.input.feed, s.env, broken, q);
    var d := Scanned(fetched, es, s.input.feed, s.env);
    RetryHistories.EndOfScan(st, s, d);
    HeldFacts(Todo(es, st.books, st.initialized, catchUp, matches), fetched.run.count, s.env.MaxRetries(), d, broken);
  }

  lemma HeldFacts(p: seq<Entry>, count: nat, limit: nat, d: Delivered, broken: Entry -> bool)
    requires HeldAtBroken(p, count, limit, d, broken)
    ensures var n := |d.handled|;
      && n <= |p| && (forall k :: 0 <= k < n ==> d.handled[k] == Handled(p[k], broken(p[k])))
      && (forall k :: 0 < k < n ==> !broken(p[k]))
      && (n > 0 && broken(p[0]) ==> count >= limit)
      && (n < |p| ==>
            && broken(p[n]) && d.end.Done? && d.end.verdict.pending
            && d.st.run.count == (if n == 0 then count + 1 else 1) && (n == 0 ==> count < limit))
  {
  }

  lemma FetchIsRecorded(st: Status, env: Env)
    ensures var fetched := Recorded(st, FetchDone, env);
      && fetched.run.count == FetchSucceeded(st.run).count && fetched.run.reachable == True
      && fetched.books == st.books && fetched.initialized == st.initialized
  {
  }

  lemma OfAllBut(s: Sync, entries: seq<Entry>, matches: Entry -> bool, broken: Entry -> bool, catchUp: int, order: Order,
                 limit: nat)
    requires SyncOfAllBut(s, entries, matches, broken, catchUp, order, limit)
    ensures UsableDocument(s.input) && s.input.fetch.entries == entries && s.input.feed.matches == matches
    ensures s.env.catchUp == catchUp && s.env.order == order && BreaksJust(s.input.feed, Sorted(entries), broken)
    ensures limit >= 1 ==> s.env.MaxRetries() <= limit
    ensures forall started :: OfDocument(s, entries, matches, catchUp, order, started)
  {
  }

  /** Where a run stands while entry q of the first to-do list, which renders, is not delivered: at a
      broken entry in front of it, with so many tries left as the syncs so far leave. */
  ghost predicate OnTheWay(todo: seq<Entry>, end: History, syncs: nat, broken: Entry -> bool, limit: nat, q: nat)
    requires q < |todo|
  {
    var n, run := |end.handled|, end.st.run;
    && n < q && broken(todo[n]) && run.reachable == True && run.count >= 1
    && TriesLeft(todo[n..q], run.count, broken, limit) + syncs <= CountBroken(todo[..q], broken) * limit
  }

  function TriesLeft(front: seq<Entry>, count: nat, broken: Entry -> bool, limit: nat): int {
    CountBroken(front, broken) * limit - if count < limit then count else limit
  }

  /** What holds after any number of syncs. */
  ghost predicate Progress(todo: seq<Entry>, end: History, syncs: nat, broken: Entry -> bool, limit: nat, q: nat)
    requires q < |todo|
  {
    && (forall k :: 0 <= k <= q && k < |end.handled| ==> end.handled[k] == Handled(todo[k], broken(todo[k])))
    && (syncs > 0 ==> |end.handled| > q || OnTheWay(todo, end, syncs, broken, limit, q))
  }

  /** The part of a to-do list behind its first m entries, seen from the list. */
  lemma RestOf(todo: seq<Entry>, handled: seq<Entry>, rest: seq<Entry>, q: nat)
    requires todo == handled + rest && |handled| <= q < |todo|
    ensures q - |handled| < |rest| && rest[q - |handled|] == todo[q]
    ensures forall n :: 0 <= n < |rest| ==> rest[n] == todo[|handled| + n]
  {
  }

  /** What is counted in front of q behind the first m entries and behind the n after them. */
  lemma CountBehind(todo: seq<Entry>, m: nat, n: nat, q: nat, broken: Entry -> bool)
    requires m + n <= q <= |todo|
    ensures CountBroken(todo[m..q], broken) == CountBroken(todo[m..m + n], broken) + CountBroken(todo[m + n..q], broken)
  {
    assert todo[m..q] == todo[m..m + n] + todo[m + n..q];
    CountBrokenAppend(todo[m..m + n], todo[m + n..q], broken);
  }

  lemma OneBroken(some: seq<Entry>, broken: Entry -> bool)
    requires some != [] && broken(some[0]) && forall k :: 0 < k < |some| ==> !broken(some[k])
    ensures CountBroken(some, broken) == 1
  {
    assert forall k :: 0 <= k < |some[1..]| ==> some[1..][k] == some[k + 1];
    NoneBroken(some[1..], broken);
  }

  /** The first sync. */
  lemma FirstStep(todo: seq<Entry>, n: nat, count: nat, broken: Entry -> bool, limit: nat, q: nat)
    requires n <= q < |todo| && count >= 1 && limit >= 1
    ensures TriesLeft(todo[n..q], count, broken, limit) + 1 <= CountBroken(todo[..q], broken) * limit
  {
    CountBehind(todo, 0, n, q, broken);
    assert todo[0..q] == todo[..q];
    Scaled(CountBroken(todo[n..q], broken), CountBroken(todo[..q], broken), limit);
  }

  lemma Scaled(a: nat, b: nat, limit: nat)
    requires a <= b
    ensures a * limit <= b * limit
  {
  }

  /** A later one uses up a try: either the first broken entry is held again, or it is skipped and the
      next one is tried for the first time. */
  lemma LaterStep(todo: seq<Entry>, m: nat, n: nat, before: nat, count: nat, tries: nat, broken: Entry -> bool, limit: nat, q: nat)
    requires m + n <= q < |todo| && broken(todo[m]) && 1 <= tries <= limit
    requires forall k :: m < k < m + n ==> !broken(todo[k])
    requires if n == 0 then before < tries && count == before + 1 else before >= tries && count == 1
    ensures TriesLeft(todo[m + n..q], count, broken, limit) + 1 <= TriesLeft(todo[m..q], before, broken, limit)
  {
    CountBehind(todo, m, n, q, broken);
    if n > 0 {
      var skipped := todo[m..m + n];
      assert forall k :: 0 <= k < |skipped| ==> skipped[k] == todo[m + k];
      OneBroken(skipped, broken);
      var rest := CountBroken(todo[m + n..q], broken);
      assert (rest + 1) * limit == rest * limit + limit;
    }
  }

  /** The entries one more sync handles are the next of the list. */
  lemma HandledNext(todo: seq<Entry>, so: seq<Handled>, more: seq<Handled>, broken: Entry -> bool)
    requires |so| + |more| <= |todo|
    requires forall k :: 0 <= k < |so| ==> so[k] == Handled(todo[k], broken(todo[k]))
    requires forall k :: 0 <= k < |more| ==> more[k] == Handled(todo[|so| + k], broken(todo[|so| + k]))
    ensures forall k :: 0 <= k < |so + more| ==> (so + more)[k] == Handled(todo[k], broken(todo[k]))
  {
    forall k | |so| <= k < |so + more| ensures (so + more)[k] == Handled(todo[k], broken(todo[k])) {
      assert (so + more)[k] == more[k - |so|];
    }
  }

  /** SyncWithBroken, seen from the list of which the first m entries were handled before. */
  lemma SyncBehind(todo: seq<Entry>, handled: seq<Entry>, st: Status, s: Sync, entries: seq<Entry>, matches: Entry -> bool,
                   broken: Entry -> bool, catchUp: int, order: Order, limit: nat, q: nat)
    requires entries != [] && Distinct(entries) && SyncOfAllBut(s, entries, matches, broken, catchUp, order, limit)
    requires |handled| <= q < |todo| && !broken(todo[q])
    requires todo == handled + Todo(Sorted(entries), st.books, st.initialized, catchUp, matches)
    ensures var m, more, after := |handled|, Apply(st, s.input, s.env).handled, Processed(st, s.input, s.env);
      var n, count := |more|, FetchSucceeded(st.run).count;
      && m + n <= |todo| && (forall k :: 0 <= k < n ==> more[k] == Handled(todo[m + k], broken(todo[m + k])))
      && (forall k :: m < k < m + n ==> !broken(todo[k]))
      && (n > 0 && broken(todo[m]) ==> count >= s.env.MaxRetries())
      && (m + n < |todo| ==>
            && broken(todo[m + n]) && after.run.reachable == True
            && after.run.count == (if n == 0 then count + 1 else 1) && (n == 0 ==> count < s.env.MaxRetries()))
  {
    hide *;
    var rest := Todo(Sorted(entries), st.books, st.initialized, catchUp, matches);
    RestOf(todo, handled, rest, q);
    SyncWithBroken(st, s, entries, matches, broken, catchUp, order, limit, q - |handled|);
    var more := Apply(st, s.input, s.env).handled;
    ShiftedBy(todo, handled, rest, more, broken);
  }

  lemma ShiftedBy(todo: seq<Entry>, handled: seq<Entry>, rest: seq<Entry>, more: seq<Handled>, broken: Entry -> bool)
    requires todo == handled + rest && |more| <= |rest|
    requires forall k :: 0 <= k < |more| ==> more[k] == Handled(rest[k], broken(rest[k]))
    requires forall k :: 0 < k < |more| ==> !broken(rest[k])
    ensures var m := |handled|;
      && (forall k :: 0 <= k < |more| ==> more[k] == Handled(todo[m + k], broken(todo[m + k])))
      && (forall k :: m < k < m + |more| ==> !broken(todo[k]))
      && (rest != [] ==> todo[m] == rest[0]) && (|more| < |rest| ==> todo[m + |more|] == rest[|more|])
  {
    forall k | |handled| < k < |handled| + |more| ensures !broken(todo[k]) {
      assert todo[k] == rest[k - |handled|];
    }
  }

  /** The first sync, and each later one that does not come to q, uses up a try. */
  lemma TryUsed(todo: seq<Entry>, so: History, syncs: nat, n: nat, end: History, before: nat, tries: nat,
                broken: Entry -> bool, limit: nat, q: nat)
    requires q < |todo| && !broken(todo[q]) && |end.handled| == |so.handled| + n <= q && 1 <= tries <= limit
    requires if syncs == 0 then so.handled == [] else OnTheWay(todo, so, syncs, broken, limit, q) && before == so.st.run.count
    requires broken(todo[|end.handled|]) && end.st.run.reachable == True
    requires n > 0 && broken(todo[|so.handled|]) ==> before >= tries
    requires n == 0 ==> before < tries
    requires forall k :: |so.handled| < k < |so.handled| + n ==> !broken(todo[k])
    requires end.st.run.count == if n == 0 then before + 1 else 1
    ensures OnTheWay(todo, end, syncs + 1, broken, limit, q)
  {
    hide TriesLeft;
    hide CountBroken;
    if syncs == 0 {
      FirstStep(todo, n, end.st.run.count, broken, limit, q);
    } else {
      LaterStep(todo, |so.handled|, n, before, end.st.run.count, tries, broken, limit, q);
    }
    var left := TriesLeft(todo[|end.handled|..q], end.st.run.count, broken, limit);
    assert left + syncs + 1 <= CountBroken(todo[..q], broken) * limit;
  }

  /** One more sync. */
  lemma ProgressStep(st: Status, syncs: seq<Sync>, entries: seq<Entry>, matches: Entry -> bool, broken: Entry -> bool,
                     catchUp: int, order: Order, limit: nat, q: nat)
    requires syncs != [] && entries != [] && Distinct(entries) && limit >= 1
    requires var todo := Todo(Sorted(entries), st.books, st.initialized, catchUp, matches);
      && q < |todo| && !broken(todo[q])
      && Progress(todo, RunSyncs(st, syncs[..|syncs| - 1]), |syncs| - 1, broken, limit, q)
    requires SyncOfAllBut(syncs[|syncs| - 1], entries, matches, broken, catchUp, order, limit)
    requires RunAdvanced(st, syncs[..|syncs| - 1], Sorted(entries), matches, catchUp, order)
    ensures var todo := Todo(Sorted(entries), st.books, st.initialized, catchUp, matches);
      Progress(todo, RunSyncs(st, syncs), |syncs|, broken, limit, q)
  {
    hide *;
    var es, todo := Sorted(entries), Todo(Sorted(entries), st.books, st.initialized, catchUp, matches);
    var front, last := syncs[..|syncs| - 1], syncs[|syncs| - 1];
    var so, end := RunSyncs(st, front), RunSyncs(st, syncs);
    var m := |so.handled|;
    RunUnfolds(st, syncs);
    ProgressFacts(todo, so, |front|, broken, limit, q);
    if m <= q {
      NothingHandledYet(st, front);
      TodoIsLeft(st, front, es, matches, catchUp, order);
      OneEntryEach(so.handled);
      OfAllBut(last, entries, matches, broken, catchUp, order, limit);
      StepInFront(todo, so, |front|, last, entries, matches, broken, catchUp, order, limit, q);
    }
    MakesProgress(todo, end, |syncs|, broken, limit, q);
  }

  lemma NothingHandledYet(st: Status, syncs: seq<Sync>)
    ensures syncs == [] ==> RunSyncs(st, syncs).handled == []
  {
    hide Apply;
    hide Processed;
  }

  /** One more sync while q is still to be delivered. */
  lemma StepInFront(todo: seq<Entry>, so: History, syncs: nat, s: Sync, entries: seq<Entry>, matches: Entry -> bool,
                    broken: Entry -> bool, catchUp: int, order: Order, limit: nat, q: nat)
    requires entries != [] && Distinct(entries) && limit >= 1 && q < |todo| && !broken(todo[q]) && |so.handled| <= q
    requires SyncOfAllBut(s, entries, matches, broken, catchUp, order, limit) && s.env.MaxRetries() <= limit
    requires |Entries(so.handled)| == |so.handled|
    requires todo == Entries(so.handled) + Todo(Sorted(entries), so.st.books, so.st.initialized, catchUp, matches)
    requires forall k :: 0 <= k <= q && k < |so.handled| ==> so.handled[k] == Handled(todo[k], broken(todo[k]))
    requires if syncs == 0 then so.handled == [] else OnTheWay(todo, so, syncs, broken, limit, q) && so.st.run.reachable == True
    ensures var end := History(Processed(so.st, s.input, s.env), so.handled + Apply(so.st, s.input, s.env).handled);
      && (forall k :: 0 <= k <= q && k < |end.handled| ==> end.handled[k] == Handled(todo[k], broken(todo[k])))
      && (|end.handled| <= q ==> OnTheWay(todo, end, syncs + 1, broken, limit, q))
  {
    hide *;
    var more := Apply(so.st, s.input, s.env).handled;
    SyncBehind(todo, Entries(so.handled), so.st, s, entries, matches, broken, catchUp, order, limit, q);
    HandledNext(todo, so.handled, more, broken);
    if |so.handled| + |more| <= q {
      var end := History(Processed(so.st, s.input, s.env), so.handled + more);
      if syncs > 0 {
        DeliveryRunGoesOn(so.st.run);
      }
      TryUsed(todo, so, syncs, |more|, end, FetchSucceeded(so.st.run).count, s.env.MaxRetries(), broken, limit, q);
    }
  }

  lemma ProgressFacts(todo: seq<Entry>, end: History, syncs: nat, broken: Entry -> bool, limit: nat, q: nat)
    requires q < |todo| && Progress(todo, end, syncs, broken, limit, q)
    ensures forall k :: 0 <= k <= q && k < |end.handled| ==> end.handled[k] == Handled(todo[k], broken(todo[k]))
    ensures syncs > 0 && |end.handled| <= q ==> OnTheWay(todo, end, syncs, broken, limit, q) && end.st.run.reachable == True
  {
  }

  lemma MakesProgress(todo: seq<Entry>, end: History, syncs: nat, broken: Entry -> bool, limit: nat, q: nat)
    requires q < |todo|
    requires forall k :: 0 <= k <= q && k < |end.handled| ==> end.handled[k] == Handled(todo[k], broken(todo[k]))
    requires syncs > 0 && |end.handled| <= q ==> OnTheWay(todo, end, syncs, broken, limit, q)
    ensures Progress(todo, end, syncs, broken, limit, q)
  {
  }

  lemma DeliveryRunGoesOn(r: Retry)
    requires r.reachable == True
    ensures FetchSucceeded(r) == r
  {
  }

  lemma TodoIsLeft(st: Status, syncs: seq<Sync>, es: seq<Entry>, matches: Entry -> bool, catchUp: int, order: Order)
    requires RunAdvanced(st, syncs, es, matches, catchUp, order)
    ensures var end := RunSyncs(st, syncs);
      Todo(es, st.books, st.initialized, catchUp, matches) ==
      Entries(end.handled) + Todo(es, end.st.books, end.st.initialized, catchUp, matches)
  {
    hide Todo;
    hide RunSyncs;
    hide Entries;
    hide Room;
  }

  lemma {:induction false} RunProgresses(st: Status, syncs: seq<Sync>, entries: seq<Entry>, matches: Entry -> bool,
                                         broken: Entry -> bool, catchUp: int, order: Order, limit: nat, q: nat)
    requires entries != [] && Distinct(entries) && Undisturbing(Sorted(entries)) && Injective(order) && limit >= 1
    requires Room(Sorted(entries), st.books, st.initialized, catchUp, matches, order)
    requires forall s :: s in syncs ==> SyncOfAllBut(s, entries, matches, broken, catchUp, order, limit)
    requires var todo := Todo(Sorted(entries), st.books, st.initialized, catchUp, matches); q < |todo| && !broken(todo[q])
    ensures var todo := Todo(Sorted(entries), st.books, st.initialized, catchUp, matches);
      Progress(todo, RunSyncs(st, syncs), |syncs|, broken, limit, q)
    ensures RunAdvanced(st, syncs, Sorted(entries), matches, catchUp, order)
  {
    hide *;
    var todo := Todo(Sorted(entries), st.books, st.initialized, catchUp, matches);
    IsRunOf(st, syncs, entries, matches, broken, catchUp, order, limit);
    RunAdvances(st, syncs, entries, matches, catchUp, order);
    if syncs == [] {
      RunUnfolds(st, syncs);
      MakesProgress(todo, RunSyncs(st, syncs), 0, broken, limit, q);
    } else {
      RunProgresses(st, syncs[..|syncs| - 1], entries, matches, broken, catchUp, order, limit, q);
      assert syncs[|syncs| - 1] in syncs;
      ProgressStep(st, syncs, entries, matches, broken, catchUp, order, limit, q);
    }
  }

  lemma IsRunOf(st: Status, syncs: seq<Sync>, entries: seq<Entry>, matches: Entry -> bool, broken: Entry -> bool,
                catchUp: int, order: Order, limit: nat)
    requires forall s :: s in syncs ==> SyncOfAllBut(s, entries, matches, broken, catchUp, order, limit)
    ensures RunOf(st, syncs, entries, matches, catchUp, order)
  {
    hide RunSyncs;
    forall k | 0 <= k < |syncs|
      ensures OfDocument(syncs[k], entries, matches, catchUp, order, Started(RunSyncs(st, syncs[..k]).st, catchUp))
    {
      assert syncs[k] in syncs;
    }
  }

  /** An entry that is to be delivered and renders is not held back for good by the broken ones in front
      of it: of syncs in which nothing else fails, as many as the retries allow for each broken entry
      and one more are enough to deliver it. In front of it every broken entry is skipped, and every other
      one is sent. */
  lemma RenderingEntryIsDelivered(st: Status, syncs: seq<Sync>, entries: seq<Entry>, matches: Entry -> bool,
                                  broken: Entry -> bool, catchUp: int, order: Order, limit: nat, q: nat)
    requires entries != [] && Distinct(entries) && Undisturbing(Sorted(entries)) && Injective(order) && limit >= 1
    requires Room(Sorted(entries), st.books, st.initialized, catchUp, matches, order)
    requires forall s :: s in syncs ==> SyncOfAllBut(s, entries, matches, broken, catchUp, order, limit)
    requires var todo := Todo(Sorted(entries), st.books, st.initialized, catchUp, matches);
      q < |todo| && !broken(todo[q]) && |syncs| > CountBroken(todo[..q], broken) * limit
    ensures var todo := Todo(Sorted(entries), st.books, st.initialized, catchUp, matches);
      var handled := RunSyncs(st, syncs).handled;
      |handled| > q && forall k :: 0 <= k <= q ==> handled[k] == Handled(todo[k], broken(todo[k]))
  {
    hide *;
    var todo := Todo(Sorted(entries), st.books, st.initialized, catchUp, matches);
    RunProgresses(st, syncs, entries, matches, broken, catchUp, order, limit, q);
    ProgressFacts(todo, RunSyncs(st, syncs), |syncs|, broken, limit, q);
    if |RunSyncs(st, syncs).handled| <= q {
      TriesRunOut(todo, RunSyncs(st, syncs), |syncs|, broken, limit, q);
    }
  }

  lemma TriesRunOut(todo: seq<Entry>, end: History, syncs: nat, broken: Entry -> bool, limit: nat, q: nat)
    requires q < |todo| && OnTheWay(todo, end, syncs, broken, limit, q)
    ensures syncs <= CountBroken(todo[..q], broken) * limit
  {
    var front := todo[|end.handled|..q];
    assert front[0] == todo[|end.handled|];
    Scaled(1, CountBroken(front, broken), limit);
  }
}
