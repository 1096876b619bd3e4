/** feedSync: one fetch applied to one feed's status, from recording the fetch to settling it. */
module FeedSyncs {
  import opened Basics
  import opened Identities
  import opened Statuses
  import opened Ledgers
  import opened Migrations
  import opened Plans
  import opened Pruning
  import opened Attempts
  import opened Deliveries
  import opened Fetches

  const CURRENT_STATE_VERSION := 1
  const MAX_LAST_SENT := 50

  datatype SyncVerdict = SyncFetchFailed | SyncNotModified | SyncEmpty | SyncConfigError | SyncPending | SyncAccountedFor

  function Settlement(v: Verdict): SyncVerdict {
    if v.pending then SyncPending else SyncAccountedFor
  }

  /** The plan of the sorted entries es from the migrated books. */
  function PlanOf(es: seq<Entry>, b: Books, catchUp: int, wasInitialized: bool): (p: Plan)
    ensures p.resumeAt <= |p.scan| <= |es|
  {
    PlanDelivery(es, Resume(es, b.mark), catchUp, wasInitialized)
  }

  /** begin, from the status it starts from: migrate, plan, skip the backlog. */
  function Begun(es: seq<Entry>, st: Status, catchUp: int): Status
    requires es != []
  {
    var b := Migrated(es, st.books);
    if PlanOf(es, b, catchUp, st.initialized).skipBacklog then
      st.(books := b.(mark := Clamp(Identity(es[|es| - 1]))), delivered := True)
    else st.(books := b)
  }

  function Persisted(st: Status, seen: Validators): Status {
    st.(validators := Validators(
      if seen.etag != "" then seen.etag else st.validators.etag,
      if seen.lastModified != "" then seen.lastModified else st.validators.lastModified))
  }

  ghost function PruneSent(st: Status, order: Order, max: nat): Status {
    st.(books := st.books.(sent := Pruned(order, st.books.sent, max)))
  }

  /** How many keys pruning leaves at most. */
  function KeysLeft(prune: PruneReach): (max: nat)
    ensures max >= MAX_LAST_SENT
  {
    if prune.PrunePanics? && prune.left > MAX_LAST_SENT then prune.left else MAX_LAST_SENT
  }

  /** What settling changes, for a sync that has a document or a 304. */
  function DocumentSettled(st: Status, seen: Validators): Status {
    ClearFailure(Persisted(st.(initialized := true), seen))
  }

  /** close, up to where it panics: only pruning calls anything that could. */
  ghost function Closed(st: Status, v: SyncVerdict, seen: Validators, order: Order, prune: PruneReach): Status {
    match v
    case SyncFetchFailed => st
    case SyncConfigError => st
    case SyncNotModified => DocumentSettled(st, seen).(stateVersion := CURRENT_STATE_VERSION)
    case SyncEmpty => DocumentSettled(st, seen).(stateVersion := CURRENT_STATE_VERSION)
    case SyncPending => Stamp(PruneSent(st.(initialized := true), order, KeysLeft(prune)), prune)
    case SyncAccountedFor => Stamp(PruneSent(DocumentSettled(st, seen), order, KeysLeft(prune)), prune)
  }

  function Stamp(st: Status, prune: PruneReach): Status {
    if prune.PrunesAll? then st.(stateVersion := CURRENT_STATE_VERSION) else st
  }

  /** How apply ended: settled, interrupted by a panic before close, or by one inside it. */
  datatype Ending =
    | Finished(verdict: Verdict, settled: SyncVerdict)
    | Interrupted
    | CloseInterrupted(settled: SyncVerdict)

  datatype Applied = Applied(st: Status, handled: seq<Handled>, ending: Ending)

  /** Where in es the send loop starts, over the migrated books b. */
  function ScanStart(es: seq<Entry>, b: Books, catchUp: int, wasInitialized: bool): (i: nat)
    ensures i <= |es|
  {
    ResumeIsInRange(es, b.mark);
    ScansASuffix(es, Resume(es, b.mark), catchUp, wasInitialized);
    Start(es, PlanOf(es, b, catchUp, wasInitialized))
  }

  /** Recording the skipped backlog panics. */
  predicate BacklogPanics(st: Status, es: seq<Entry>, feed: Feed, env: Env) {
    PlanOf(es, Migrated(es, st.books), env.catchUp, st.initialized).skipBacklog
    && feed.records(None, BacklogSkipped) != Completes
  }

  /** The part of apply past the configuration check, up to close. */
  function Scanned(st: Status, es: seq<Entry>, feed: Feed, env: Env): Delivered
    requires es != []
  {
    var m := Migrated(es, st.books);
    if BacklogPanics(st, es, feed, env) then
      Delivered(RecordedUpTo(st.(books := m.(mark := Clamp(Identity(es[|es| - 1])))), BacklogSkipped, env,
                             feed.records(None, BacklogSkipped)), [], Panicked)
    else
      Deliver(env, feed, es, PlanOf(es, m, env.catchUp, st.initialized).scan, Begun(es, st, env.catchUp),
              ScanStart(es, m, env.catchUp, st.initialized))
  }

  lemma ScanUnfolds(st: Status, es: seq<Entry>, feed: Feed, env: Env)
    requires es != []
    ensures var m := Migrated(es, st.books);
      var p, i := PlanOf(es, m, env.catchUp, st.initialized), ScanStart(es, m, env.catchUp, st.initialized);
      var begun := st.(books := if p.skipBacklog then m.(mark := Clamp(Identity(es[|es| - 1]))) else m);
      var reach := feed.records(None, BacklogSkipped);
      && i == |es| - |p.scan| + p.resumeAt
      && Scanned(st, es, feed, env) ==
         if p.skipBacklog && reach != Completes then Delivered(RecordedUpTo(begun, BacklogSkipped, env, reach), [], Panicked)
         else Deliver(env, feed, es, p.scan, if p.skipBacklog then RecordedUpTo(begun, BacklogSkipped, env, reach) else begun, i)
  {
    hide Deliver;
    hide Migrated;
    hide Resume;
    hide Clamp;
  }

  /** The sync records outcome o, of no entry, and then closes with v. */
  ghost function Conclusion(st: Status, o: Outcome, v: SyncVerdict, input: Input, env: Env, verdict: Verdict): Applied {
    var reach := input.feed.records(None, o);
    var after := RecordedUpTo(st, o, env, reach);
    if reach != Completes then Applied(after, [], Interrupted)
    else Applied(Closed(after, v, Validators("", ""), env.order, input.prune), [], Finished(verdict, v))
  }

  /** The books where begin panics, after carrying over so many entries. */
  function HalfMigrated(es: seq<Entry>, b: Books, carried: nat): Books {
    MigratedTo(es, b, if carried < |es| then carried else |es|)
  }

  ghost function ApplyDocument(fetched: Status, input: Input, env: Env): Applied
    requires input.fetch.Document? && input.fetch.entries != []
  {
    var es := Sorted(input.fetch.entries);
    match input.config
    case ConfigPanics => Applied(fetched, [], Interrupted)
    case BeginPanics(carried) => Applied(fetched.(books := HalfMigrated(es, fetched.books, carried)), [], Interrupted)
    case Broken => Conclusion(fetched, ConfigError, SyncConfigError, input, env, NOTHING)
    case Usable =>
      var d := Scanned(fetched, es, input.feed, env);
      match d.end
      case Panicked => Applied(d.st, d.handled, Interrupted)
      case Done(v) =>
        Applied(Closed(d.st, Settlement(v), input.fetch.seen, env.order, input.prune), d.handled,
                if input.prune.PrunesAll? then Finished(v, Settlement(v)) else CloseInterrupted(Settlement(v)))
  }

  ghost function Apply(st: Status, input: Input, env: Env): Applied {
    var reach := input.feed.records(None, FetchDone);
    var fetched := RecordedUpTo(st, FetchDone, env, reach);
    match input.fetch
    case FetchError(permanent, at) =>
      var o := FetchFailed(permanent, at);
      Conclusion(st, o, SyncFetchFailed, input, env, VerdictOf(st, o, env))
    case NotModified(seen) =>
      if reach != Completes then Applied(fetched, [], Interrupted)
      else Applied(Closed(fetched, SyncNotModified, seen, env.order, input.prune), [], Finished(NOTHING, SyncNotModified))
    case Document(entries, seen) =>
      if reach != Completes then Applied(fetched, [], Interrupted)
      else if entries == [] then
        Applied(Closed(fetched, SyncEmpty, seen, env.order, input.prune), [], Finished(NOTHING, SyncEmpty))
      else ApplyDocument(fetched, input, env)
  }

  /** secureAfterPanic. A panic inside close is left as it is; the failure recorded for any other
      is transient, and recording it completes. */
  ghost function Secured(before: Status, st: Status, handled: seq<Handled>, closing: bool, env: Env): Status {
    if closing then st
    else if handled == [] then before
    else Closed(Recorded(st, SendFailed(Refused(false), 0), env), SyncPending, Validators("", ""), env.order, PrunesAll)
  }

  /** processFeed: the status a sync leaves to be written, whether or not it panicked. */
  ghost function Processed(st: Status, input: Input, env: Env): Status {
    var a := Apply(st, input, env);
    if a.ending.Finished? then a.st else Secured(st, a.st, a.handled, a.ending.CloseInterrupted?, env)
  }

  /** One sync of one feed; opened over fs, begun, run and closed once. */
  class FeedSync {
    const fs: FeedStatus
    const env: Env
    const fetch: Fetch
    const wasInitialized: bool
    var ledger: DeliveryLedger?
    var plan: Plan
    var handled: seq<Handled>
    var skippedBacklog: nat
    var closing: bool

    constructor (fs: FeedStatus, fetch: Fetch, env: Env)
      ensures this.fs == fs && this.fetch == fetch && this.env == env
      ensures wasInitialized == fs.Initialized && handled == [] && !closing && skippedBacklog == 0
    {
      this.fs, this.fetch, this.env, this.wasInitialized := fs, fetch, env, fs.Initialized;
      this.ledger, this.plan := null, Plan([], 0, false);
      this.handled, this.skippedBacklog, this.closing := [], 0, false;
    }

    method Begin() returns (es: seq<Entry>)
      requires fetch.Document? && fetch.entries != []
      modifies this`ledger, this`plan, this`skippedBacklog, fs
      ensures es == Sorted(fetch.entries) && ledger != null && ledger.Valid() && ledger.fs == fs && ledger.entries == es
      ensures plan == PlanOf(es, Migrated(es, old(fs.View().books)), env.catchUp, wasInitialized)
      ensures skippedBacklog == if plan.skipBacklog then |es| else old(skippedBacklog)
      ensures var b := Migrated(es, old(fs.View().books));
        fs.View() == old(fs.View()).(books := if plan.skipBacklog then b.(mark := Clamp(Identity(es[|es| - 1]))) else b)
    {
      hide Migrated;
      hide Sorted;
      hide Resume;
      hide Ledgers.Record;
      hide TalliesAll;
      hide IndexedBy;
      hide Clamp;
      hide Identity;
      es := Sorted(fetch.entries);
      var index := new DeliveryLedger(fs, es);
      ledger := index;
      MigratePreviousIdentities(index);
      var watermark := index.ResumeAt();
      ResumeIsInRange(es, fs.LastSeenEntry);
      plan := PlanDelivery(es, watermark, env.catchUp, wasInitialized);
      if plan.skipBacklog {
        index.MarkNewest();
        skippedBacklog := |es|;
      }
    }

    method PersistValidators(seen: Validators)
      modifies fs
      ensures fs.View() == Persisted(old(fs.View()), seen)
    {
      if seen.etag != "" {
        fs.ETag := seen.etag;
      }
      if seen.lastModified != "" {
        fs.LastModified := seen.lastModified;
      }
    }

    /** Prunes, or panics with more keys left than the cap. */
    method Prune(prune: PruneReach)
      requires Injective(env.order)
      modifies fs
      ensures fs.View() == PruneSent(old(fs.View()), env.order, KeysLeft(prune))
    {
      PruneLastSent(fs, env.order, KeysLeft(prune));
    }

    /** Initialized, the validators and the failure state, for a document accounted for. */
    method SettleDocument(seen: Validators)
      modifies fs
      ensures fs.View() == DocumentSettled(old(fs.View()), seen)
    {
      fs.Initialized := true;
      PersistValidators(seen);
      ClearFailureOf(fs);
    }

    method Close(v: SyncVerdict, seen: Validators, prune: PruneReach) returns (panicked: bool)
      requires Injective(env.order)
      modifies this`closing, fs
      ensures closing && fs.View() == Closed(old(fs.View()), v, seen, env.order, prune)
      ensures panicked <==> (v == SyncPending || v == SyncAccountedFor) && !prune.PrunesAll?
    {
      hide Pruned;
      closing := true;
      match v {
        case SyncFetchFailed => return false;
        case SyncConfigError => return false;
        case SyncNotModified => SettleDocument(seen);
        case SyncEmpty => SettleDocument(seen);
        case SyncPending =>
          fs.Initialized := true;
          Prune(prune);
          if !prune.PrunesAll? {
            return true;
          }
        case SyncAccountedFor =>
          SettleDocument(seen);
          Prune(prune);
          if !prune.PrunesAll? {
            return true;
          }
      }
      fs.StateVersion := CURRENT_STATE_VERSION;
      return false;
    }

    /** begin, the backlog-skip outcome and the send loop. */
    method Scan(feed: Feed) returns (end: End)
      requires fetch.Document? && fetch.entries != [] && wasInitialized == fs.View().initialized
      requires handled == [] && skippedBacklog == 0
      modifies this`ledger, this`plan, this`skippedBacklog, this`handled, fs
      ensures Delivered(fs.View(), handled, end) == Scanned(old(fs.View()), Sorted(fetch.entries), feed, env)
    {
      hide *;
      ghost var st := fs.View();
      var es := Begin();
      ScanUnfolds(st, es, feed, env);
      if skippedBacklog > 0 {
        var _, panicked := RecordOutcome(fs, BacklogSkipped, env, feed.records(None, BacklogSkipped));
        if panicked {
          return Panicked;
        }
      }
      handled, end := SendLoop(ledger, env, feed, plan.scan, |es| - |plan.scan| + plan.resumeAt);
    }

    /** begin, panicking once it carried over so many entries. */
    method BeginInterrupted(carried: nat)
      requires fetch.Document? && fetch.entries != []
      modifies this`ledger, fs
      ensures fs.View() == old(fs.View()).(books := HalfMigrated(Sorted(fetch.entries), old(fs.View().books), carried))
    {
      hide MigratedTo;
      hide Sorted;
      var es := Sorted(fetch.entries);
      var index := new DeliveryLedger(fs, es);
      ledger := index;
      CarryOverFirst(index, if carried < |es| then carried else |es|);
    }

    method ApplyDocumentOf(input: Input) returns (ending: Ending)
      requires fetch.Document? && fetch.entries != []
      requires input.fetch == fetch && wasInitialized == fs.View().initialized && Injective(env.order)
      requires handled == [] && skippedBacklog == 0 && !closing
      modifies this, fs
      ensures Applied(fs.View(), handled, ending) == ApplyDocument(old(fs.View()), input, env)
      ensures closing <==> !ending.Interrupted?
    {
      hide Closed;
      hide RecordedUpTo;
      hide Scanned;
      hide Sorted;
      hide HalfMigrated;
      hide FeedStatus.View;
      match input.config {
        case ConfigPanics => return Interrupted;
        case BeginPanics(carried) =>
          BeginInterrupted(carried);
          return Interrupted;
        case Broken =>
          var _, panicked := RecordOutcome(fs, ConfigError, env, input.feed.records(None, ConfigError));
          if panicked {
            return Interrupted;
          }
          var _ := Close(SyncConfigError, Validators("", ""), input.prune);
          return Finished(NOTHING, SyncConfigError);
        case Usable =>
          var end := Scan(input.feed);
          if end.Panicked? {
            return Interrupted;
          }
          var settled := Settlement(end.verdict);
          var panicked := Close(settled, fetch.seen, input.prune);
          return if panicked then CloseInterrupted(settled) else Finished(end.verdict, settled);
      }
    }

    /** apply: every path but a panic before close closes the sync, exactly once and last. */
    method ApplyFetch(input: Input) returns (ending: Ending)
      requires input.fetch == fetch && wasInitialized == fs.View().initialized && Injective(env.order)
      requires handled == [] && skippedBacklog == 0 && !closing
      modifies this, fs
      ensures Applied(fs.View(), handled, ending) == Apply(old(fs.View()), input, env)
      ensures closing <==> !ending.Interrupted?
    {
      hide Closed;
      hide RecordedUpTo;
      hide VerdictOf;
      hide ApplyDocument;
      hide FeedStatus.View;
      RecordingKeeps(fs.View(), FetchDone, env, input.feed.records(None, FetchDone));
      if fetch.FetchError? {
        var o := FetchFailed(fetch.permanent, fetch.at);
        var v, panicked := RecordOutcome(fs, o, env, input.feed.records(None, o));
        if panicked {
          return Interrupted;
        }
        var _ := Close(SyncFetchFailed, Validators("", ""), input.prune);
        return Finished(v, SyncFetchFailed);
      }
      var _, panicked := RecordOutcome(fs, FetchDone, env, input.feed.records(None, FetchDone));
      if panicked {
        return Interrupted;
      }
      if fetch.NotModified? {
        var _ := Close(SyncNotModified, fetch.seen, input.prune);
        return Finished(NOTHING, SyncNotModified);
      }
      if fetch.entries == [] {
        var _ := Close(SyncEmpty, fetch.seen, input.prune);
        return Finished(NOTHING, SyncEmpty);
      }
      ending := ApplyDocumentOf(input);
    }

    method SecureAfterPanic(before: Status)
      requires Injective(env.order)
      modifies this`closing, fs
      ensures fs.View() == Secured(before, old(fs.View()), handled, old(closing), env)
    {
      if closing {
        return;
      }
      if handled == [] {
        fs.Restore(before);
      } else {
        var _, _ := RecordOutcome(fs, SendFailed(Refused(false), 0), env, Completes);
        var _ := Close(SyncPending, Validators("", ""), PrunesAll);
      }
    }
  }

  /** processFeed: a panic is re-raised, as an ending that is not Finished, once the status is
      secured. */
  method ProcessFeed(fs: FeedStatus, input: Input, env: Env) returns (ending: Ending, handled: seq<Handled>)
    requires Injective(env.order)
    modifies fs
    ensures fs.View() == Processed(old(fs.View()), input, env)
    ensures ending == Apply(old(fs.View()), input, env).ending && handled == Apply(old(fs.View()), input, env).handled
  {
    var before := fs.View();
    var syncer := new FeedSync(fs, input.fetch, env);
    ending := syncer.ApplyFetch(input);
    handled := syncer.handled;
    if !ending.Finished? {
      syncer.SecureAfterPanic(before);
    }
  }
}
