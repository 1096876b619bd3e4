/** The skip policy of the send loop, within one sync and over whole runs. */
module Skips {
  import opened Basics
  import opened Identities
  import opened Statuses
  import opened Ledgers
  import opened Attempts
  import opened Deliveries
  import opened Fetches
  import opened FeedSyncs
  import opened Scans
  import opened FeedRuns

  /** Some other entry of the window that passes the filter renders. */
  ghost predicate AnotherRenders(f: Feed, window: seq<Entry>, skip: Entry) {
    exists e :: e in window && Identity(e) != Identity(skip) && f.matches(e) && f.renders(e) == Renders
  }

  /** Nothing panics when these entries are filtered and rendered. */
  ghost predicate NonePanics(f: Feed, es: seq<Entry>) {
    forall e :: e in es ==> !f.filterPanics(e) && (f.matches(e) ==> f.renders(e) != RenderPanics)
  }

  /** Evidence is that another entry renders; unless the search panics, that is also enough for it. */
  lemma {:induction false} EvidenceIsReal(f: Feed, window: seq<Entry>, skip: Entry)
    ensures OtherRenders(f, window, skip) == SomeRenders ==> AnotherRenders(f, window, skip)
    ensures NonePanics(f, window) ==>
      OtherRenders(f, window, skip) == if AnotherRenders(f, window, skip) then SomeRenders else NoneRenders
  {
    hide Identity;
    if window != [] {
      EvidenceIsReal(f, window[1..], skip);
      EvidenceUnfolds(f, window, skip);
    }
  }

  lemma EvidenceUnfolds(f: Feed, window: seq<Entry>, skip: Entry)
    requires window != []
    ensures AnotherRenders(f, window, skip) <==>
      || (Identity(window[0]) != Identity(skip) && f.matches(window[0]) && f.renders(window[0]) == Renders)
      || AnotherRenders(f, window[1..], skip)
    ensures NonePanics(f, window) ==> NonePanics(f, window[1..])
  {
    hide Identity;
    assert window == [window[0]] + window[1..];
  }

  /** An entry the filter lets pass that fails to render is given up exactly when the retries were
      exhausted before and another entry renders; if not it holds the scan up. */
  lemma GivenUpIffAnotherRenders(env: Env, f: Feed, es: seq<Entry>, window: seq<Entry>, st: Status, e: Entry)
    requires !f.filterPanics(e) && f.renders(e) == RenderFails && NonePanics(f, window)
    requires f.records(Some(e), RenderFailed) == Completes && f.records(Some(e), EntrySkipped) == Completes
    ensures var t := TurnAt(env, f, es, window, st, e);
      var exhausted := st.run.count >= env.retries && st.run.count >= 1;
      && (t.GoOn? <==> exhausted && AnotherRenders(f, window, e))
      && (t.GoOn? ==>
            && t.handled == [Handled(e, true)] && t.st.run.count == 0 && t.st.run.reachable == st.run.reachable
            && t.st.books == MarkHandled(es, st.books, e, env.SentAt()))
      && (t.Stop? ==>
            && t.d.handled == [] && t.d.end == Done(Verdict(st.run.count + 1 < env.retries, 0, true))
            && t.d.st.books == st.books && t.d.st.run == st.run.(count := st.run.count + 1))
  {
    hide MarkHandled;
    hide AnotherRenders;
    hide NonePanics;
    hide OtherRenders;
    EvidenceIsReal(f, window, e);
  }

  /** What a turn that goes on leaves of the retry run, and when it skipped. */
  lemma TurnSkips(env: Env, f: Feed, es: seq<Entry>, window: seq<Entry>, st: Status, e: Entry)
    ensures var t := TurnAt(env, f, es, window, st, e);
      var handled := if t.GoOn? then t.handled else t.d.handled;
      && |handled| <= 1 && (t.GoOn? ==> t.st.run.count == 0)
      && (handled != [] && handled[0].skipped ==>
            st.run.count >= env.MaxRetries() && AnotherRenders(f, window, handled[0].entry))
  {
    hide MarkHandled;
    hide AnotherRenders;
    hide NonePanics;
    EvidenceIsReal(f, window, e);
  }

  /** At most one entry is skipped: the first handled, with the retries already exhausted before,
      and only while another entry renders. */
  ghost predicate SkipsAtMostOne(env: Env, f: Feed, window: seq<Entry>, run: Retry, handled: seq<Handled>) {
    forall j :: 0 <= j < |handled| && handled[j].skipped ==>
      j == 0 && run.count >= env.MaxRetries() && AnotherRenders(f, window, handled[0].entry)
  }

  lemma {:induction false} ScanSkipsAtMostOne(env: Env, f: Feed, es: seq<Entry>, window: seq<Entry>, st: Status, i: nat)
    requires i <= |es|
    ensures SkipsAtMostOne(env, f, window, st.run, Deliver(env, f, es, window, st, i).handled)
    decreases |es| - i
  {
    hide TurnAt;
    hide AnotherRenders;
    hide PassedOver;
    if i < |es| {
      TurnSkips(env, f, es, window, st, es[i]);
      if PassedOver(f, es, st.books.sent, es[i]) {
        ScanSkipsAtMostOne(env, f, es, window, st, i + 1);
        assert Deliver(env, f, es, window, st, i) == Deliver(env, f, es, window, st, i + 1);
      } else {
        match TurnAt(env, f, es, window, st, es[i])
        case Stop(d) =>
          assert Deliver(env, f, es, window, st, i) == d;
        case GoOn(next, handled) =>
          ScanSkipsAtMostOne(env, f, es, window, next, i + 1);
          assert Deliver(env, f, es, window, st, i) == Prepend(handled, Deliver(env, f, es, window, next, i + 1));
      }
    }
  }

  /** Over a whole sync: at most one entry is skipped, before anything is sent, when the feed came
      in with its delivery retries exhausted. Fetch failures never count: with Reachable False no
      entry is skipped. */
  lemma SyncSkipsAtMostOne(st: Status, input: Input, env: Env)
    ensures var handled := Apply(st, input, env).handled;
      forall j :: 0 <= j < |handled| && handled[j].skipped ==>
        j == 0 && st.run.count >= env.MaxRetries() && st.run.reachable != False
        && input.fetch.Document? && AnotherRenders(input.feed, Sorted(input.fetch.entries), handled[0].entry)
  {
    if UsableDocument(input) {
      var fetched, es := Recorded(st, FetchDone, env), Sorted(input.fetch.entries);
      ScanOf(fetched, es, input.feed, env);
      var window, i := WindowOf(fetched, es, env), ScanFrom(fetched, es, env);
      ScanSkipsAtMostOne(env, input.feed, es, window, Begun(es, fetched, env.catchUp), i);
    }
  }

  function WindowOf(st: Status, es: seq<Entry>, env: Env): seq<Entry> {
    PlanOf(es, Migrations.Migrated(es, st.books), env.catchUp, st.initialized).scan
  }

  function ScanFrom(st: Status, es: seq<Entry>, env: Env): (i: nat)
    ensures i <= |es|
  {
    ScanStart(es, Migrations.Migrated(es, st.books), env.catchUp, st.initialized)
  }

  /** A scan is the send loop over the plan, unless recording the skipped backlog panics; and the
      plan's window is part of the fetch. */
  lemma ScanOf(st: Status, es: seq<Entry>, f: Feed, env: Env)
    requires es != []
    ensures var d := Scanned(st, es, f, env);
      if BacklogPanics(st, es, f, env) then
        && d.handled == [] && d.end.Panicked? && d.st.run == st.run && d.st.validators == st.validators
        && d.st.lastChecked == st.lastChecked
      else d == Deliver(env, f, es, WindowOf(st, es, env), Begun(es, st, env.catchUp), ScanFrom(st, es, env))
    ensures forall e :: e in WindowOf(st, es, env) ==> e in es
    ensures Begun(es, st, env.catchUp).run == st.run
  {
    hide Deliver;
    hide Migrations.Migrated;
  }

  lemma TodoFromScan(es: seq<Entry>, st: Status, env: Env, matches: Entry -> bool)
    ensures Todo(es, st.books, st.initialized, env.catchUp, matches) ==
      Pending(es, matches, Migrations.Migrated(es, st.books).sent, ScanFrom(st, es, env))
  {
    hide Migrations.Migrated;
    hide Pending;
    hide ScanStart;
  }

  /** No entry of these that passes the filter renders: the templates are broken. */
  ghost predicate NothingRenders(f: Feed, es: seq<Entry>) {
    forall e :: e in es && f.matches(e) ==> f.renders(e) != Renders
  }

  lemma {:induction false} ScanHandlesNothing(env: Env, f: Feed, es: seq<Entry>, window: seq<Entry>, st: Status, i: nat)
    requires i <= |es| && NothingRenders(f, es) && forall e :: e in window ==> e in es
    ensures Deliver(env, f, es, window, st, i).handled == []
    decreases |es| - i
  {
    hide PassedOver;
    hide TurnAt;
    if i < |es| {
      if PassedOver(f, es, st.books.sent, es[i]) {
        ScanHandlesNothing(env, f, es, window, st, i + 1);
      } else {
        TurnHandlesNothing(env, f, es, window, st, es[i]);
      }
    }
  }

  lemma TurnHandlesNothing(env: Env, f: Feed, es: seq<Entry>, window: seq<Entry>, st: Status, e: Entry)
    requires NothingRenders(f, es) && (forall d :: d in window ==> d in es)
    requires e in es && !PassedOver(f, es, st.books.sent, e)
    ensures var t := TurnAt(env, f, es, window, st, e);
      t.Stop? && t.d.handled == []
  {
    EvidenceIsReal(f, window, e);
  }

  /** With broken templates a feed is held, not drained: as long as no entry that passes the filter
      renders, no number of reconciles ever marks an entry handled, whatever the documents. */
  lemma {:induction false} BrokenTemplatesHoldTheFeed(st: Status, syncs: seq<Sync>)
    requires forall s :: s in syncs && s.input.fetch.Document? ==> NothingRenders(s.input.feed, s.input.fetch.entries)
    ensures RunSyncs(st, syncs).handled == []
  {
    if syncs != [] {
      var front, last := syncs[..|syncs| - 1], syncs[|syncs| - 1];
      BrokenTemplatesHoldTheFeed(st, front);
      SyncHandlesNothing(RunSyncs(st, front).st, last.input, last.env);
    }
  }

  lemma SyncHandlesNothing(st: Status, input: Input, env: Env)
    requires input.fetch.Document? ==> NothingRenders(input.feed, input.fetch.entries)
    ensures Apply(st, input, env).handled == []
  {
    if UsableDocument(input) {
      var fetched, es := Recorded(st, FetchDone, env), Sorted(input.fetch.entries);
      ScanOf(fetched, es, input.feed, env);
      ScanHandlesNothing(env, input.feed, es, WindowOf(fetched, es, env), Begun(es, fetched, env.catchUp),
                         ScanFrom(fetched, es, env));
    }
  }
}
