/** Every status a feed can reach has a legal retry history, so the phase inferred from its
    Reachable condition is the phase of its run. */
module RetryHistories {
  import opened Basics
  import opened Identities
  import opened Statuses
  import opened Ledgers
  import opened Retries
  import opened Attempts
  import opened Deliveries
  import opened Fetches
  import opened FeedSyncs
  import opened FeedRuns
  import opened Skips

  lemma {:induction false} AfterAppend(r: Retry, a: seq<Event>, b: seq<Event>)
    ensures After(r, a + b) == After(After(r, a), b)
  {
    if b == [] {
      assert a + b == a;
    } else {
      assert (a + b)[..|a + b| - 1] == a + b[..|b| - 1];
      AfterAppend(r, a, b[..|b| - 1]);
    }
  }

  lemma AfterOne(r: Retry, e: Event)
    ensures After(r, [e]) == Next(r, e)
  {
    assert [e][..0] == [];
    assert After(r, [e][..0]) == r;
  }

  /** Events of the send loop: each leaves Reachable as the fetch set it. */
  predicate OfLoop(evs: seq<Event>) {
    forall e :: e in evs ==> e.DeliveryBad? || e.RunCleared?
  }

  lemma {:induction false} LoopStaysLegal(evs: seq<Event>, more: seq<Event>)
    requires Legal(evs) && LastFetch(evs) == True && OfLoop(more)
    ensures Legal(evs + more) && LastFetch(evs + more) == True
  {
    if more == [] {
      assert evs + more == evs;
    } else {
      assert (evs + more)[..|evs + more| - 1] == evs + more[..|more| - 1];
      LoopStaysLegal(evs, more[..|more| - 1]);
      var last := more[|more| - 1];
      assert (evs + more)[|evs + more| - 1] == last && last in more;
    }
  }

  /** The retry events of recording an entry's outcome, up to where that panics: a failure not yet
      backed off is a transient one. */
  function RecordEvents(o: Outcome, env: Env, reach: Reach): seq<Event> {
    if reach == PanicsFirst then []
    else match o
      case RenderFailed => [DeliveryBad(false, 0, env.base)]
      case SendFailed(Refused(permanent), at) =>
        [if reach == PanicsMidway then DeliveryBad(false, 0, env.base) else DeliveryBad(permanent, at, env.base)]
      case EntrySent => [RunCleared]
      case EntrySkipped => [RunCleared]
      case _ => []
  }

  lemma RecordingMatchesEvents(st: Status, o: Outcome, env: Env, reach: Reach)
    requires o.RenderFailed? || o.SendFailed? || o.EntrySent? || o.EntrySkipped?
    ensures OfLoop(RecordEvents(o, env, reach))
    ensures RecordedUpTo(st, o, env, reach).run == After(st.run, RecordEvents(o, env, reach))
  {
    var evs := RecordEvents(o, env, reach);
    if evs != [] {
      AfterOne(st.run, evs[0]);
    }
  }

  /** The retry events of one turn. */
  function TurnEvents(f: Feed, window: seq<Entry>, st: Status, env: Env, e: Entry): seq<Event> {
    if f.filterPanics(e) then []
    else match f.renders(e)
      case RenderPanics => []
      case RenderFails =>
        var failed := Fail(env, f, st, e, RenderFailed);
        RecordEvents(RenderFailed, env, f.records(Some(e), RenderFailed)) +
        if failed.end.Done? && failed.st.run.count > env.MaxRetries() && OtherRenders(f, window, e) == SomeRenders
        then RecordEvents(EntrySkipped, env, f.records(Some(e), EntrySkipped)) else []
      case Renders =>
        match f.sends(e)
        case SendFails(err, at) => RecordEvents(SendFailed(err, at), env, f.records(Some(e), SendFailed(err, at)))
        case Accepted => RecordEvents(EntrySent, env, f.records(Some(e), EntrySent))
        case SendPanics => []
  }

  /** The retry events of the send loop over es[i..]. */
  function LoopEvents(env: Env, f: Feed, es: seq<Entry>, window: seq<Entry>, st: Status, i: nat): seq<Event>
    requires i <= |es|
    decreases |es| - i
  {
    if i == |es| then []
    else if PassedOver(f, es, st.books.sent, es[i]) then LoopEvents(env, f, es, window, st, i + 1)
    else
      var evs := TurnEvents(f, window, st, env, es[i]);
      match TurnAt(env, f, es, window, st, es[i])
      case Stop(_) => evs
      case GoOn(next, _) => evs + LoopEvents(env, f, es, window, next, i + 1)
  }

  lemma TurnMatchesEvents(env: Env, f: Feed, es: seq<Entry>, window: seq<Entry>, st: Status, e: Entry)
    ensures OfLoop(TurnEvents(f, window, st, env, e))
    ensures var t := TurnAt(env, f, es, window, st, e);
      (if t.GoOn? then t.st.run else t.d.st.run) == After(st.run, TurnEvents(f, window, st, env, e))
  {
    hide RecordedUpTo;
    hide RecordEvents;
    hide VerdictOf;
    hide MarkHandled;
    hide After;
    hide OtherRenders;
    NoEvents(st.run);
    RecordingMatchesEvents(st, RenderFailed, env, f.records(Some(e), RenderFailed));
    RecordingMatchesEvents(Handle(es, st, e, env), EntrySent, env, f.records(Some(e), EntrySent));
    if f.sends(e).SendFails? {
      var o := SendFailed(f.sends(e).err, f.sends(e).at);
      RecordingMatchesEvents(st, o, env, f.records(Some(e), o));
    }
    var failed := Fail(env, f, st, e, RenderFailed);
    var bad, skipped := RecordEvents(RenderFailed, env, f.records(Some(e), RenderFailed)),
                        RecordEvents(EntrySkipped, env, f.records(Some(e), EntrySkipped));
    RecordingMatchesEvents(Handle(es, failed.st, e, env), EntrySkipped, env, f.records(Some(e), EntrySkipped));
    AfterAppend(st.run, bad, skipped);
    assert bad + [] == bad;
  }

  lemma NoEvents(r: Retry)
    ensures After(r, []) == r && OfLoop([])
  {
  }

  lemma {:induction false} LoopMatchesEvents(env: Env, f: Feed, es: seq<Entry>, window: seq<Entry>, st: Status, i: nat)
    requires i <= |es|
    ensures var evs := LoopEvents(env, f, es, window, st, i);
      OfLoop(evs) && Deliver(env, f, es, window, st, i).st.run == After(st.run, evs)
    decreases |es| - i
  {
    hide TurnAt;
    hide TurnEvents;
    hide PassedOver;
    if i < |es| {
      if PassedOver(f, es, st.books.sent, es[i]) {
        LoopMatchesEvents(env, f, es, window, st, i + 1);
      } else {
        TurnMatchesEvents(env, f, es, window, st, es[i]);
        var evs := TurnEvents(f, window, st, env, es[i]);
        match TurnAt(env, f, es, window, st, es[i]) {
          case Stop(d) =>
          case GoOn(next, _) =>
            LoopMatchesEvents(env, f, es, window, next, i + 1);
            AfterAppend(st.run, evs, LoopEvents(env, f, es, window, next, i + 1));
        }
      }
    }
  }

  /** The retry events of a sync: the fetch, what the send loop recorded, and the clearing of a
      settled document or the failure recorded for a panic; none when a panic undid it all. */
  function SyncEvents(st: Status, s: Sync): seq<Event> {
    var f := s.input.feed;
    match s.input.fetch
    case FetchError(permanent, at) =>
      if f.records(None, FetchFailed(permanent, at)) != Completes then [] else [FetchBad(permanent, at, s.env.base)]
    case NotModified(_) => if f.records(None, FetchDone) != Completes then [] else [FetchOk, RunCleared]
    case Document(entries, _) =>
      if f.records(None, FetchDone) != Completes then []
      else if entries == [] then [FetchOk, RunCleared]
      else match s.input.config
        case Broken => if f.records(None, ConfigError) != Completes then [] else [FetchOk]
        case Usable =>
          var fetched, es := Recorded(st, FetchDone, s.env), Sorted(entries);
          var d := Scanned(fetched, es, f, s.env);
          if d.end.Panicked? && d.handled == [] then []
          else [FetchOk] + ScanEvents(fetched, es, f, s.env) + EndEvents(d.end, s.env)
        case _ => []
  }

  function ScanEvents(st: Status, es: seq<Entry>, f: Feed, env: Env): seq<Event>
    requires es != []
  {
    if BacklogPanics(st, es, f, env) then []
    else LoopEvents(env, f, es, WindowOf(st, es, env), Begun(es, st, env.catchUp), ScanFrom(st, es, env))
  }

  function EndEvents(end: End, env: Env): seq<Event> {
    if end.Panicked? then [DeliveryBad(false, 0, env.base)] else if end.verdict.pending then [] else [RunCleared]
  }

  lemma ScanMatchesEvents(st: Status, es: seq<Entry>, f: Feed, env: Env)
    requires es != []
    ensures OfLoop(ScanEvents(st, es, f, env))
    ensures Scanned(st, es, f, env).st.run == After(st.run, ScanEvents(st, es, f, env))
  {
    hide Deliver;
    hide LoopEvents;
    ScanOf(st, es, f, env);
    LoopMatchesEvents(env, f, es, WindowOf(st, es, env), Begun(es, st, env.catchUp), ScanFrom(st, es, env));
  }

  /** A status whose retry run, with its Reachable condition, comes from a legal history. */
  ghost predicate HasHistory(st: Status, evs: seq<Event>) {
    Legal(evs) && st.run == After(NO_RUN, evs)
  }

  lemma Extended(evs: seq<Event>, e: Event)
    requires Legal(evs) && (e.DeliveryBad? ==> LastFetch(evs) == True)
    ensures Legal(evs + [e]) && After(NO_RUN, evs + [e]) == Next(After(NO_RUN, evs), e)
    ensures e == FetchOk ==> LastFetch(evs + [e]) == True
  {
    assert (evs + [e])[..|evs|] == evs;
  }

  /** How Processed ends a scan, seen from the retry run. */
  lemma EndOfScan(st: Status, s: Sync, d: Delivered)
    requires UsableDocument(s.input)
    requires d == Scanned(Recorded(st, FetchDone, s.env), Sorted(s.input.fetch.entries), s.input.feed, s.env)
    ensures var run := Processed(st, s.input, s.env).run;
      if d.end.Panicked? && d.handled == [] then run == st.run
      else if d.end.Panicked? then run == AfterFailure(d.st.run, Delivering, false, s.env.base, 0)
      else if d.end.verdict.pending then run == d.st.run
      else run == Cleared(d.st.run)
  {
    hide Scanned;
    hide Sorted;
    hide Pruning.Pruned;
  }

  lemma UsableSyncExtendsHistory(st: Status, s: Sync, evs: seq<Event>)
    requires UsableDocument(s.input) && HasHistory(st, evs)
    ensures HasHistory(Processed(st, s.input, s.env), evs + SyncEvents(st, s))
  {
    hide Scanned;
    hide ScanEvents;
    hide Processed;
    hide Sorted;
    hide Legal;
    hide After;
    hide LastFetch;
    var es := Sorted(s.input.fetch.entries);
    var fetched := Recorded(st, FetchDone, s.env);
    var d := Scanned(fetched, es, s.input.feed, s.env);
    EndOfScan(st, s, d);
    if d.end.Panicked? && d.handled == [] {
      assert evs + [] == evs;
    } else {
      var scan, end := ScanEvents(fetched, es, s.input.feed, s.env), EndEvents(d.end, s.env);
      Extended(evs, FetchOk);
      ScanMatchesEvents(fetched, es, s.input.feed, s.env);
      LoopStaysLegal(evs + [FetchOk], scan);
      AfterAppend(NO_RUN, evs + [FetchOk], scan);
      var scanned := evs + [FetchOk] + scan;
      assert evs + SyncEvents(st, s) == scanned + end;
      if end == [] {
        assert scanned + end == scanned;
      } else {
        Extended(scanned, end[0]);
      }
    }
  }

  lemma SyncExtendsHistory(st: Status, s: Sync, evs: seq<Event>)
    requires HasHistory(st, evs)
    ensures HasHistory(Processed(st, s.input, s.env), evs + SyncEvents(st, s))
  {
    if UsableDocument(s.input) {
      UsableSyncExtendsHistory(st, s, evs);
      return;
    }
    hide Scanned;
    hide Sorted;
    hide Pruning.Pruned;
    hide After;
    hide LastFetch;
    hide Legal;
    if SyncEvents(st, s) == [] {
      assert evs + [] == evs;
    } else {
      var first := SyncEvents(st, s)[0];
      Extended(evs, first);
      if |SyncEvents(st, s)| == 2 {
        Extended(evs + [first], RunCleared);
        assert evs + SyncEvents(st, s) == evs + [first] + [RunCleared];
      }
    }
  }

  /** What a reconcile can do to a feed's status. A spec edit clears every run; a replaced webhook
      Secret clears the send-caused backoffs. */
  datatype Reconcile = Synced(s: Sync) | SpecEdited | SecretReplaced

  ghost function Reconciled(st: Status, r: Reconcile): Status {
    match r
    case Synced(s) => Processed(st, s.input, s.env)
    case SpecEdited => st.(run := Cleared(st.run))
    case SecretReplaced => st.(run := AfterSecretChange(st.run))
  }

  function EventsOf(st: Status, r: Reconcile): seq<Event> {
    match r
    case Synced(s) => SyncEvents(st, s)
    case SpecEdited => [RunCleared]
    case SecretReplaced => [SecretChanged]
  }

  ghost function AfterReconciles(rs: seq<Reconcile>): Status {
    if rs == [] then FRESH else Reconciled(AfterReconciles(rs[..|rs| - 1]), rs[|rs| - 1])
  }

  ghost function HistoryOf(rs: seq<Reconcile>): seq<Event> {
    if rs == [] then []
    else HistoryOf(rs[..|rs| - 1]) + EventsOf(AfterReconciles(rs[..|rs| - 1]), rs[|rs| - 1])
  }

  lemma {:induction false} EveryStatusHasItsHistory(rs: seq<Reconcile>)
    ensures HasHistory(AfterReconciles(rs), HistoryOf(rs))
  {
    hide Processed;
    hide SyncEvents;
    if rs != [] {
      var front, last := rs[..|rs| - 1], rs[|rs| - 1];
      EveryStatusHasItsHistory(front);
      match last {
        case Synced(s) =>
          assert last in rs;
          SyncExtendsHistory(AfterReconciles(front), s, HistoryOf(front));
        case SpecEdited => Extended(HistoryOf(front), RunCleared);
        case SecretReplaced => Extended(HistoryOf(front), SecretChanged);
      }
    }
  }

  /** Over every run of reconciles of a fresh feed, whatever the retry interval at each, the run whose phase the code
      reads from the Reachable condition is the run that stores its phase and counts that phase's
      failures alone: a nonzero count or a set backoff belongs to fetching exactly when Reachable is
      False, and a replaced Secret clears exactly the backoffs of delivery runs. */
  lemma ReachablePhaseIsExact(rs: seq<Reconcile>)
    ensures var run, phased := AfterReconciles(rs).run, RunAfter(HistoryOf(rs));
      && Inferred(run) == phased
      && (InProgress(run) ==> (run.reachable == False <==> phased.phase == Fetching) && run.count == phased.count)
      && (SendCaused(run) <==> phased.Running? && phased.phase == Delivering && phased.until != Empty)
  {
    EveryStatusHasItsHistory(rs);
    InferredPhaseIsExact(HistoryOf(rs));
    SecretClearsDeliveryBackoffs(HistoryOf(rs));
  }

  /** A retry is asked for exactly while the phase's own run is short of the limit and the failure
      may pass: failures of the other phase never use up the retries of this one. */
  lemma RetriesArePerPhase(rs: seq<Reconcile>, o: Outcome, env: Env)
    requires o.FetchFailed? || (LastFetch(HistoryOf(rs)) == True && (o.RenderFailed? || (o.SendFailed? && o.err.Refused?)))
    ensures var run, v := RunAfter(HistoryOf(rs)), VerdictOf(AfterReconciles(rs), o, env);
      var phase := if o.FetchFailed? then Fetching else Delivering;
      var before := if run.Running? && run.phase == phase then run.count else 0;
      && Recorded(AfterReconciles(rs), o, env).run.count == before + 1
      && (v.retry <==> before + 1 < env.MaxRetries() && !Permanent(o))
      && v.retryAfter == 0 && (v.pending <==> phase == Delivering)
  {
    ReachablePhaseIsExact(rs);
    EveryStatusHasItsHistory(rs);
    InferredPhaseIsExact(HistoryOf(rs));
  }

  predicate Permanent(o: Outcome) {
    match o
    case FetchFailed(permanent, _) => permanent
    case SendFailed(Refused(permanent), _) => permanent
    case _ => false
  }
}
