/** What the status a sync leaves says of how the sync went: the schedule and the conditions shown
    to users are read from it. */
module Outcomes {
  import opened Basics
  import opened Identities
  import opened Statuses
  import opened Ledgers
  import opened Backoffs
  import opened Retries
  import opened Attempts
  import opened Deliveries
  import opened Fetches
  import opened FeedSyncs
  import opened FeedRuns
  import opened Skips
  import opened Revalidation
  import Schedules

  /** The Delivered condition after handling these entries, when it was c before. */
  function DeliveredBy(handled: seq<Handled>, c: Condition): Condition {
    if handled == [] then c else if handled[|handled| - 1].skipped then False else True
  }

  /** How the send loop, from st, shows in the status it leaves. */
  ghost predicate Shows(st: Status, d: Delivered) {
    && d.st.lastChecked == st.lastChecked
    && (d.end.Done? ==>
          if d.end.verdict.pending then d.st.lastError && d.st.delivered == False
          else d.st.delivered == DeliveredBy(d.handled, st.delivered))
  }

  lemma TurnShows(env: Env, f: Feed, es: seq<Entry>, window: seq<Entry>, st: Status, e: Entry)
    ensures match TurnAt(env, f, es, window, st, e)
      case Stop(d) => Shows(st, d)
      case GoOn(next, handled) =>
        next.lastChecked == st.lastChecked && handled != [] && next.delivered == DeliveredBy(handled, st.delivered)
  {
    hide RecordedUpTo;
    hide VerdictOf;
    hide MarkHandled;
    hide OtherRenders;
    var failed := Fail(env, f, st, e, RenderFailed);
    RecordShows(st, RenderFailed, env, f.records(Some(e), RenderFailed));
    RecordShows(Handle(es, failed.st, e, env), EntrySkipped, env, f.records(Some(e), EntrySkipped));
    RecordShows(Handle(es, st, e, env), EntrySent, env, f.records(Some(e), EntrySent));
    if f.sends(e).SendFails? {
      var o := SendFailed(f.sends(e).err, f.sends(e).at);
      RecordShows(st, o, env, f.records(Some(e), o));
    }
  }

  /** How one recorded outcome of an entry shows. */
  lemma RecordShows(st: Status, o: Outcome, env: Env, reach: Reach)
    requires o.RenderFailed? || o.SendFailed? || o.EntrySent? || o.EntrySkipped?
    ensures var after := RecordedUpTo(st, o, env, reach);
      && after.lastChecked == st.lastChecked
      && (reach == Completes ==> after.delivered == if o.EntrySent? then True else False)
      && (reach == Completes && (o.RenderFailed? || o.SendFailed?) ==> after.lastError)
    ensures o.RenderFailed? || o.SendFailed? ==> VerdictOf(st, o, env).pending
  {
  }

  lemma {:induction false} LoopShows(env: Env, f: Feed, es: seq<Entry>, window: seq<Entry>, st: Status, i: nat)
    requires i <= |es|
    ensures Shows(st, Deliver(env, f, es, window, st, i))
    decreases |es| - i
  {
    hide TurnAt;
    hide PassedOver;
    if i < |es| {
      if PassedOver(f, es, st.books.sent, es[i]) {
        LoopShows(env, f, es, window, st, i + 1);
      } else {
        TurnShows(env, f, es, window, st, es[i]);
        match TurnAt(env, f, es, window, st, es[i])
        case Stop(_) =>
        case GoOn(next, handled) =>
          LoopShows(env, f, es, window, next, i + 1);
      }
    }
  }

  /** Whether the sync skipped the backlog of a first fetch. */
  ghost predicate SkipsBacklog(st: Status, s: Sync) {
    UsableDocument(s.input) &&
    var es := Sorted(s.input.fetch.entries);
    PlanOf(es, Migrations.Migrated(es, st.books), s.env.catchUp, st.initialized).skipBacklog
  }

  lemma ScanShows(st: Status, s: Sync)
    requires UsableDocument(s.input)
    ensures var fetched := Recorded(st, FetchDone, s.env);
      Shows(fetched.(delivered := if SkipsBacklog(st, s) then True else st.delivered),
            Scanned(fetched, Sorted(s.input.fetch.entries), s.input.feed, s.env))
  {
    hide Deliver;
    hide Sorted;
    hide Migrations.Migrated;
    hide Ledgers.Resume;
    hide Clamp;
    var fetched, es := Recorded(st, FetchDone, s.env), Sorted(s.input.fetch.entries);
    ScanOf(fetched, es, s.input.feed, s.env);
    LoopShows(s.env, s.input.feed, es, WindowOf(fetched, es, s.env), Begun(es, fetched, s.env.catchUp),
              ScanFrom(fetched, es, s.env));
  }

  /** The status of a sync that ran to its end is exact about it. The feed reads as failing or
      retrying exactly when its document was not settled;
      LastChecked is this sync's time exactly when the fetch succeeded; Initialized and the state
      version are set by everything but a failed fetch and a configuration error; and Delivered is the last outcome of
      delivery. */
  lemma StatusTellsTheOutcome(st: Status, s: Sync)
    requires Apply(st, s.input, s.env).ending.Finished?
    ensures var a, after := Apply(st, s.input, s.env), Processed(st, s.input, s.env);
      var failed := a.ending.settled == SyncFetchFailed || a.ending.settled == SyncConfigError;
      && (FailedOrRetrying(after) <==> !Settles(st, s))
      && (Settles(st, s) ==> !InProgress(after.run))
      && (a.ending.settled == SyncFetchFailed <==> s.input.fetch.FetchError?)
      && after.lastChecked == (if s.input.fetch.FetchError? then st.lastChecked else Formatted(s.env.now))
      && (after.initialized <==> st.initialized || !failed)
      && after.stateVersion == (if failed then st.stateVersion else CURRENT_STATE_VERSION)
      && after.delivered ==
         (if a.ending.settled == SyncPending || a.ending.settled == SyncConfigError then False
          else DeliveredBy(a.handled, if SkipsBacklog(st, s) then True else st.delivered))
  {
    hide Scanned;
    hide Sorted;
    hide Pruning.Pruned;
    hide SkipsBacklog;
    if UsableDocument(s.input) {
      ScanShows(st, s);
    } else {
      NoBacklog(st, s);
    }
  }

  /** A feed left unsettled is fetched at the next reconcile, whenever that comes, unless its backoff
      is still running. */
  lemma UnsettledFeedIsFetched(st: Status, s: Sync, f: Schedules.Feed, poll: int, now: int, force: bool)
    requires Apply(st, s.input, s.env).ending.Finished? && !Settles(st, s)
    requires f.url != "" && !f.paused && f.status == Some(Processed(st, s.input, s.env))
    ensures Schedules.Fetched(f, poll, now, force) <==> !Active(Processed(st, s.input, s.env).run, now)
  {
    hide Processed;
    hide Apply;
    hide Settles;
    hide Active;
    StatusTellsTheOutcome(st, s);
  }

  /** A feed whose fetch failed for good is left alone, by every reconcile, until the smaller of
      base * 2^n and six hours after the failure, n being the failures of its run, to the whole second
      below; from then on it is fetched at each. */
  lemma FailedFetchIsHeldBack(st: Status, s: Sync, f: Schedules.Feed, poll: int, now: int, force: bool)
    requires s.input.fetch.FetchError? && s.input.fetch.permanent
    requires s.input.feed.records(None, FetchFailed(true, s.input.fetch.at)) == Completes
    requires f.url != "" && !f.paused && f.status == Some(Processed(st, s.input, s.env))
    ensures var run, base := Processed(st, s.input, s.env).run, s.env.base;
      var ideal := base as int * Pow2(run.count);
      var until := s.input.fetch.at + if base > 0 && ideal < 6 * 3600 * SECOND then ideal else 6 * 3600 * SECOND;
      && run.count == (if st.run.reachable == True then 1 else st.run.count + 1)
      && run.until.At? && run.until.time % SECOND == 0 && run.until.time <= until < run.until.time + SECOND
      && (Schedules.Fetched(f, poll, now, force) <==> now >= run.until.time)
  {
    hide Pow2;
    PermanentFailureHoldsBack(st.run, Fetching, s.env.base, s.input.fetch.at);
    hide Backoffs.PermanentBackoff;
    hide Retries.Deadline;
    Schedules.FetchedWhenDue(f, poll, now, force);
  }

  lemma NoBacklog(st: Status, s: Sync)
    requires !UsableDocument(s.input)
    ensures !SkipsBacklog(st, s)
  {
  }
}
