/** retryRun: how often a feed failed in a row, and until when it is left alone after failures that
    will not pass by themselves. The failures counted together are all of fetching or all of
    delivery; which of the two is told from the Reachable condition and stored nowhere, so the
    operations are only right when each runs before the condition it is about to change. */
module Retries {
  import opened Basics
  import opened Statuses
  import opened Backoffs

  datatype Phase = Fetching | Delivering

  predicate InProgress(r: Retry) { r.count > 0 || r.until != Empty }

  function Cleared(r: Retry): Retry { r.(count := 0, until := Empty) }

  /** fetchSucceeded, called before Reachable is set True. */
  function FetchSucceeded(r: Retry): Retry {
    if r.reachable == False && InProgress(r) then Cleared(r) else r
  }

  /** fail, called before the condition of this failure is set. */
  function Failed(r: Retry, phase: Phase): Retry {
    var ended := if phase == Fetching && r.reachable == True && InProgress(r) then Cleared(r) else r;
    ended.(count := ended.count + 1)
  }

  /** The backoff deadline a permanent failure sets. */
  function Deadline(count: nat, base: Duration, now: int): Stamp {
    Formatted(now + PermanentBackoff(count, base) as int)
  }

  predicate SendCaused(r: Retry) { r.until != Empty && r.reachable != False }

  predicate Active(r: Retry, now: int) { r.until.At? && now < r.until.time }

  /** A failure as feedAttempt.failed records it: counted, the phase's condition set, backed off
      when permanent. */
  function AfterFailure(r: Retry, phase: Phase, permanent: bool, base: Duration, now: int): Retry {
    var counted := Failed(r, phase);
    var seen := if phase == Fetching then counted.(reachable := False) else counted;
    if permanent then seen.(until := Deadline(seen.count, base, now)) else seen
  }

  /** After a permanent failure that makes the count n, the stored deadline is now plus the smaller of
      base * 2^n and six hours, to the whole second below, and the feed is left alone at exactly the
      times before it. A run of the other phase's failures is over first. */
  lemma PermanentFailureHoldsBack(r: Retry, phase: Phase, base: Duration, now: int)
    ensures var after := AfterFailure(r, phase, true, base, now);
      var ideal := base as int * Pow2(after.count);
      var until := now + if base > 0 && ideal < 6 * 3600 * SECOND then ideal else 6 * 3600 * SECOND;
      && after.count == (if phase == Fetching && r.reachable == True then 1 else r.count + 1)
      && after.until.At? && after.until.time % SECOND == 0 && after.until.time <= until < after.until.time + SECOND
      && forall t :: Active(after, t) <==> t < after.until.time
  {
    var after := AfterFailure(r, phase, true, base, now);
    BackoffIsCappedExponential(after.count, base);
  }

  method EndFetchRun(fs: FeedStatus)
    modifies fs
    ensures fs.View() == old(fs.View()).(run := FetchSucceeded(old(fs.View().run)))
  {
    if fs.Reachable == False && (fs.RetryCount > 0 || fs.BackoffUntil != Empty) {
      Clear(fs);
    }
  }

  method CountFailure(fs: FeedStatus, phase: Phase)
    modifies fs
    ensures fs.View() == old(fs.View()).(run := Failed(old(fs.View().run), phase))
  {
    if phase == Fetching && fs.Reachable == True && (fs.RetryCount > 0 || fs.BackoffUntil != Empty) {
      Clear(fs);
    }
    fs.RetryCount := fs.RetryCount + 1;
  }

  /** firstCapped tells whether the backoff has just come to the cap. */
  method Extend(fs: FeedStatus, base: Duration, now: int) returns (firstCapped: bool)
    modifies fs
    ensures var r := old(fs.View().run);
      var ideal := base as int * Pow2(if r.count < 1 then 1 else r.count);
      var until := now + if base > 0 && ideal < 6 * 3600 * SECOND then ideal else 6 * 3600 * SECOND;
      fs.View() == old(fs.View()).(run := r.(until := At(WholeSeconds(until))))
    ensures old(fs.View().run).(until := Deadline(old(fs.RetryCount), base, now)) == fs.View().run
    ensures firstCapped == FirstCapped(old(fs.RetryCount), base)
  {
    var count := fs.RetryCount;
    var backoff := PermanentBackoff(count, base);
    BackoffIsCappedExponential(count, base);
    firstCapped := false;
    if backoff >= MAX_PERMANENT_BACKOFF {
      firstCapped := count <= 1 || PermanentBackoff(count - 1, base) < MAX_PERMANENT_BACKOFF;
      backoff := MAX_PERMANENT_BACKOFF;
    }
    fs.BackoffUntil := Formatted(now + backoff as int);
  }

  method Clear(fs: FeedStatus)
    modifies fs
    ensures fs.View() == old(fs.View()).(run := Cleared(old(fs.View().run)))
  {
    fs.BackoffUntil := Empty;
    fs.RetryCount := 0;
  }

  /** The status of a group, as far as its webhook Secret goes. */
  class GroupStatus {
    var WebhookSecretResourceVersion: string
    const feeds: seq<FeedStatus>

    constructor (version: string, feeds: seq<FeedStatus>)
      ensures WebhookSecretResourceVersion == version && this.feeds == feeds
    {
      WebhookSecretResourceVersion, this.feeds := version, feeds;
    }
  }

  /** noteWebhookSecretVersion: a version other than the recorded one clears exactly the backoffs
      that delivery caused, and is recorded, so that noting it again changes nothing. */
  method NoteWebhookSecretVersion(group: GroupStatus, version: string)
    requires forall i, j :: 0 <= i < j < |group.feeds| ==> group.feeds[i] != group.feeds[j]
    modifies group, group.feeds
    ensures group.WebhookSecretResourceVersion == version
    ensures forall i :: 0 <= i < |group.feeds| ==>
      group.feeds[i].View() == old(group.feeds[i].View()).(run :=
        if old(group.WebhookSecretResourceVersion) == version then old(group.feeds[i].View().run)
        else AfterSecretChange(old(group.feeds[i].View().run)))
  {
    var previous := group.WebhookSecretResourceVersion;
    group.WebhookSecretResourceVersion := version;
    if previous != version {
      ClearSendBackoffs(group.feeds);
    }
  }

  method ClearSendBackoffs(feeds: seq<FeedStatus>)
    requires forall i, j :: 0 <= i < j < |feeds| ==> feeds[i] != feeds[j]
    modifies feeds
    ensures forall i :: 0 <= i < |feeds| ==>
      feeds[i].View() == old(feeds[i].View()).(run := AfterSecretChange(old(feeds[i].View().run)))
  {
    var i := 0;
    while i < |feeds|
      invariant 0 <= i <= |feeds|
      invariant forall k :: 0 <= k < i ==>
        feeds[k].View() == old(feeds[k].View()).(run := AfterSecretChange(old(feeds[k].View().run)))
      invariant forall k :: i <= k < |feeds| ==> feeds[k].View() == old(feeds[k].View())
    {
      if feeds[i].BackoffUntil != Empty && feeds[i].Reachable != False {
        Clear(feeds[i]);
      }
      i := i + 1;
    }
  }

  function AfterSecretChange(r: Retry): Retry {
    if SendCaused(r) then Cleared(r) else r
  }

  /** What can happen to a run. A failure comes with the retry interval then in force, which a spec
      change may alter. Sent, skipped and settled outcomes and a spec change all clear it. */
  datatype Event =
    | FetchOk
    | FetchBad(permanent: bool, at: int, base: Duration)
    | DeliveryBad(permanent: bool, at: int, base: Duration)
    | RunCleared
    | SecretChanged

  function Next(r: Retry, e: Event): Retry {
    match e
    case FetchOk => FetchSucceeded(r).(reachable := True)
    case FetchBad(permanent, at, base) => AfterFailure(r, Fetching, permanent, base, at)
    case DeliveryBad(permanent, at, base) => AfterFailure(r, Delivering, permanent, base, at)
    case RunCleared => Cleared(r)
    case SecretChanged => AfterSecretChange(r)
  }

  function After(r: Retry, evs: seq<Event>): Retry {
    if evs == [] then r else Next(After(r, evs[..|evs| - 1]), evs[|evs| - 1])
  }

  /** The same run with its phase stored explicitly, and the count of that phase's failures. */
  datatype Run = Idle | Running(phase: Phase, count: nat, until: Stamp)

  function Fails(run: Run, phase: Phase, permanent: bool, base: Duration, at: int): Run {
    var count := if run.Running? && run.phase == phase then run.count + 1 else 1;
    var until := if run.Running? && run.phase == phase then run.until else Empty;
    Running(phase, count, if permanent then Deadline(count, base, at) else until)
  }

  function RunNext(run: Run, e: Event): Run {
    match e
    case FetchOk => if run.Running? && run.phase == Fetching then Idle else run
    case FetchBad(permanent, at, base) => Fails(run, Fetching, permanent, base, at)
    case DeliveryBad(permanent, at, base) => Fails(run, Delivering, permanent, base, at)
    case RunCleared => Idle
    case SecretChanged => if run.Running? && run.phase == Delivering && run.until != Empty then Idle else run
  }

  function RunAfter(evs: seq<Event>): Run {
    if evs == [] then Idle else RunNext(RunAfter(evs[..|evs| - 1]), evs[|evs| - 1])
  }

  /** The phase the code infers. */
  function Inferred(r: Retry): Run {
    if !InProgress(r) then Idle
    else Running(if r.reachable == False then Fetching else Delivering, r.count, r.until)
  }

  /** How the latest fetch of a history ended. */
  function LastFetch(evs: seq<Event>): Condition {
    if evs == [] then Unset
    else match evs[|evs| - 1]
      case FetchOk => True
      case FetchBad(_, _, _) => False
      case _ => LastFetch(evs[..|evs| - 1])
  }

  /** A render or send is only attempted on the document of a successful fetch. */
  predicate Legal(evs: seq<Event>) {
    evs == [] ||
    (Legal(evs[..|evs| - 1]) && (evs[|evs| - 1].DeliveryBad? ==> LastFetch(evs[..|evs| - 1]) == True))
  }

  const NO_RUN := Retry(0, Empty, Unset)

  /** The phase read from the Reachable condition is exact: over every legal history from a fresh
      status, the inferred run is the one that stores its phase and counts only that phase. */
  lemma {:induction false} InferredPhaseIsExact(evs: seq<Event>)
    requires Legal(evs)
    ensures Inferred(After(NO_RUN, evs)) == RunAfter(evs)
    ensures After(NO_RUN, evs).reachable == LastFetch(evs)
    ensures RunAfter(evs).Running? ==> RunAfter(evs).count > 0 && !RunAfter(evs).until.Garbled?
    ensures RunAfter(evs).Running? ==>
      LastFetch(evs) == if RunAfter(evs).phase == Fetching then False else True
  {
    if evs != [] {
      InferredPhaseIsExact(evs[..|evs| - 1]);
    }
  }

  /** A replaced webhook Secret clears a run exactly when it is a backed-off delivery one. */
  lemma SecretClearsDeliveryBackoffs(evs: seq<Event>)
    requires Legal(evs)
    ensures var r, run := After(NO_RUN, evs), RunAfter(evs);
      SendCaused(r) <==> run.Running? && run.phase == Delivering && run.until != Empty
  {
    InferredPhaseIsExact(evs);
  }

  /** The run after event i - 1 is still the same one after event j - 1. */
  ghost predicate SameRun(evs: seq<Event>, i: nat, j: nat, phase: Phase)
    requires i <= j <= |evs|
  {
    forall k :: i <= k <= j ==> RunAfter(evs[..k]).Running? && RunAfter(evs[..k]).phase == phase
  }

  predicate IsFailure(e: Event) { e.FetchBad? || e.DeliveryBad? }

  /** Within one run the count never falls and every failure raises it. So the exhaustion Event,
      fired at count == limit, and the cap Event, fired at the one firstCapped count, are each
      fired at most once in a run. */
  lemma {:induction false} EventsFireOncePerRun(evs: seq<Event>, i: nat, j: nat, phase: Phase, base: Duration, limit: nat)
    requires i < j <= |evs| && SameRun(evs, i, j, phase)
    ensures RunAfter(evs[..i]).count + (if IsFailure(evs[j - 1]) then 1 else 0) <= RunAfter(evs[..j]).count
    ensures IsFailure(evs[j - 1]) ==>
      var earlier, later := RunAfter(evs[..i]).count, RunAfter(evs[..j]).count;
      && !(earlier == limit && later == limit)
      && (earlier >= 1 ==> !(FirstCapped(earlier, base) && FirstCapped(later, base)))
  {
    assert evs[..j][..j - 1] == evs[..j - 1];
    assert RunAfter(evs[..j - 1]).Running? && RunAfter(evs[..j]).Running?;
    if i < j - 1 {
      EventsFireOncePerRun(evs, i, j - 1, phase, base, limit);
    }
    var at := CapIsReachedOnce(base);
  }
}
