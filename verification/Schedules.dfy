/** The schedule of a group: the feeds due now, and the wait until the next reconcile. */
module Schedules {
  import opened Basics
  import opened Statuses
  import opened Retries
  import opened Attempts

  const MIN_PARSED_INTERVAL: int := 10 * SECOND
  const FALLBACK_INTERVAL: int := 30 * 60 * SECOND
  const FALLBACK_RETRY_INTERVAL: int := 5 * 60 * SECOND

  /** A spec duration: blank, rejected by the parser, or parsed. */
  datatype SpecDuration = Blank | Unparsable | Parsed(d: int)

  /** parseDurationWithDefault. */
  function ParsedOr(value: SpecDuration, fallback: int): int {
    match value
    case Parsed(d) => if d < MIN_PARSED_INTERVAL then MIN_PARSED_INTERVAL else d
    case _ => fallback
  }

  datatype Cadence = Cadence(poll: int, retry: int)

  /** What the spec gives, but at least ten seconds; half an hour and five minutes where it gives
      nothing that parses. */
  function CadenceOf(interval: SpecDuration, retryInterval: SpecDuration): (c: Cadence)
    ensures c.poll >= MIN_PARSED_INTERVAL && c.retry >= MIN_PARSED_INTERVAL
    ensures interval.Parsed? ==> c.poll == if interval.d >= 10 * SECOND then interval.d else 10 * SECOND
    ensures retryInterval.Parsed? ==> c.retry == if retryInterval.d >= 10 * SECOND then retryInterval.d else 10 * SECOND
    ensures !interval.Parsed? ==> c.poll == 30 * 60 * SECOND
    ensures !retryInterval.Parsed? ==> c.retry == 5 * 60 * SECOND
  {
    Cadence(ParsedOr(interval, FALLBACK_INTERVAL), ParsedOr(retryInterval, FALLBACK_RETRY_INTERVAL))
  }

  /** One feed of the spec and its status. */
  datatype Feed = Feed(url: string, paused: bool, status: Option<Status>)

  /** untilDue, when LastChecked is usable. */
  function UntilDue(st: Status, poll: int, now: int): Option<int> {
    if st.lastChecked.At? then Some(st.lastChecked.time + poll - now) else None
  }

  predicate FeedDue(st: Status, poll: int, now: int, force: bool) {
    force || FailedOrRetrying(st) || UntilDue(st, poll, now).None? || UntilDue(st, poll, now).value <= 0
  }

  /** The feed is skipped because it is not due yet, for this long. */
  predicate SkippedFor(f: Feed, poll: int, now: int, force: bool, until: int) {
    && f.url != "" && !f.paused && f.status.Some? && !Active(f.status.value.run, now)
    && !FeedDue(f.status.value, poll, now, force) && UntilDue(f.status.value, poll, now) == Some(until)
  }

  predicate Fetched(f: Feed, poll: int, now: int, force: bool) {
    && f.url != "" && !f.paused
    && (f.status.Some? ==> !Active(f.status.value.run, now) && FeedDue(f.status.value, poll, now, force))
  }

  /** Which feeds a reconcile fetches: those neither paused nor without a URL nor held by a backoff that
      is still running, of which nothing is known yet, or that are failing or being retried, or whose
      last check is missing, unreadable or at least the poll interval old; after a spec change, all. */
  lemma FetchedWhenDue(f: Feed, poll: int, now: int, force: bool)
    ensures Fetched(f, poll, now, force) <==>
      && f.url != "" && !f.paused
      && (f.status.None? ||
            var st := f.status.value;
            && !(st.run.until.At? && now < st.run.until.time)
            && (force || st.lastError || st.run.count > 0 || !st.lastChecked.At? || now >= st.lastChecked.time + poll))
  {
  }

  /** A feed skipped as not due becomes due just when the wait reported for it is over. */
  lemma DueWhenTheWaitIsOver(f: Feed, poll: int, now: int, force: bool, until: int, later: int)
    requires SkippedFor(f, poll, now, force, until) && later >= now
    ensures until > 0 && (Fetched(f, poll, later, false) <==> later >= now + until)
  {
  }

  /** nextDue bounds every skipped feed, is met by one of them, and is zero when there is none. */
  ghost predicate IsNextDue(feeds: seq<Feed>, poll: int, now: int, force: bool, nextDue: int) {
    && nextDue >= 0
    && (forall i, u :: 0 <= i < |feeds| && SkippedFor(feeds[i], poll, now, force, u) ==> 0 < nextDue <= u)
    && (nextDue > 0 ==> exists i :: 0 <= i < |feeds| && SkippedFor(feeds[i], poll, now, force, nextDue))
  }

  function FetchedOf(feeds: seq<Feed>, poll: int, now: int, force: bool): seq<Feed> {
    if feeds == [] then []
    else FetchedOf(feeds[..|feeds| - 1], poll, now, force)
         + if Fetched(feeds[|feeds| - 1], poll, now, force) then [feeds[|feeds| - 1]] else []
  }

  lemma NoneSkipped(poll: int, now: int, force: bool)
    ensures IsNextDue([], poll, now, force, 0)
  {
  }

  /** One more feed, whether or not it is skipped as not due. */
  lemma NextDueWith(feeds: seq<Feed>, f: Feed, poll: int, now: int, force: bool, nextDue: int)
    requires IsNextDue(feeds, poll, now, force, nextDue)
    ensures (forall u :: !SkippedFor(f, poll, now, force, u)) ==> IsNextDue(feeds + [f], poll, now, force, nextDue)
    ensures forall u :: SkippedFor(f, poll, now, force, u) ==>
      u > 0 && IsNextDue(feeds + [f], poll, now, force, if nextDue == 0 || u < nextDue then u else nextDue)
  {
    var all := feeds + [f];
    assert all[|feeds|] == f && forall i :: 0 <= i < |feeds| ==> all[i] == feeds[i];
    forall u | SkippedFor(f, poll, now, force, u) ensures u > 0 && forall v :: SkippedFor(f, poll, now, force, v) ==> v == u {
    }
    if nextDue > 0 {
      var i :| 0 <= i < |feeds| && SkippedFor(feeds[i], poll, now, force, nextDue);
      assert SkippedFor(all[i], poll, now, force, nextDue);
    }
    hide SkippedFor;
    forall u | SkippedFor(f, poll, now, force, u)
      ensures IsNextDue(all, poll, now, force, if nextDue == 0 || u < nextDue then u else nextDue)
    {
      assert SkippedFor(all[|feeds|], poll, now, force, u);
    }
  }

  method PlanFeeds(feeds: seq<Feed>, poll: int, now: int, force: bool) returns (active: seq<Feed>, nextDue: int)
    ensures active == FetchedOf(feeds, poll, now, force)
    ensures IsNextDue(feeds, poll, now, force, nextDue)
  {
    hide IsNextDue;
    hide Active;
    hide FeedDue;
    active, nextDue := [], 0;
    NoneSkipped(poll, now, force);
    var i := 0;
    while i < |feeds|
      invariant 0 <= i <= |feeds|
      invariant active == FetchedOf(feeds[..i], poll, now, force)
      invariant IsNextDue(feeds[..i], poll, now, force, nextDue)
    {
      var f := feeds[i];
      assert feeds[..i + 1] == feeds[..i] + [f];
      NextDueWith(feeds[..i], f, poll, now, force, nextDue);
      i := i + 1;
      if f.url == "" || f.paused {
        continue;
      }
      if f.status.Some? && Active(f.status.value.run, now) {
        continue;
      }
      if f.status.Some? && !FeedDue(f.status.value, poll, now, force) {
        var until := UntilDue(f.status.value, poll, now);
        assert until.Some? ==> SkippedFor(f, poll, now, force, until.value);
        if until.Some? {
          if nextDue == 0 || until.value < nextDue {
            nextDue := until.value;
          }
        }
        continue;
      }
      active := active + [f];
    }
    assert feeds[..i] == feeds;
  }

  datatype Requeue = Requeue(delay: int, jitter: bool, nextDue: int)

  function RequeueOf(cad: Cadence, nextDue: int, v: Verdict): Requeue {
    if v.retryAfter > 0 then Requeue(v.retryAfter, false, 0)
    else Requeue(if v.retry then cad.retry else cad.poll, true, nextDue)
  }

  /** jitterDuration adds at most a tenth. */
  predicate Jittered(d: Requeue, jittered: int) {
    if d.jitter then d.delay <= jittered && 10 * jittered <= 11 * d.delay else jittered == d.delay
  }

  /** bound. */
  function Wait(d: Requeue, jittered: int): int {
    if 0 < d.nextDue < jittered then
      if d.nextDue < MIN_PARSED_INTERVAL then MIN_PARSED_INTERVAL else d.nextDue
    else jittered
  }

  /** The scheduler neither oversleeps nor spins: a Discord Retry-After is waited out exactly;
      otherwise, whatever the jitter, the wait is at least 10 seconds, at most the jittered
      interval, and past no skipped feed's due time by more than those 10 seconds allow. That interval
      is the retry interval exactly when a feed wants a retry, and is cut short only by a skipped feed. */
  lemma WaitIsBounded(feeds: seq<Feed>, interval: SpecDuration, retryInterval: SpecDuration, now: int, force: bool,
                      nextDue: int, v: Verdict, jittered: int)
    requires var cad := CadenceOf(interval, retryInterval);
      IsNextDue(feeds, cad.poll, now, force, nextDue) && Jittered(RequeueOf(cad, nextDue, v), jittered)
    ensures var cad := CadenceOf(interval, retryInterval); var wait := Wait(RequeueOf(cad, nextDue, v), jittered);
      if v.retryAfter > 0 then wait == v.retryAfter
      else
        var interval := if v.retry then cad.retry else cad.poll;
        && 10 * SECOND <= wait <= jittered && 10 * jittered <= 11 * interval
        && (wait >= interval || exists i :: 0 <= i < |feeds| && SkippedFor(feeds[i], cad.poll, now, force, nextDue))
        && (forall i, u :: 0 <= i < |feeds| && SkippedFor(feeds[i], cad.poll, now, force, u) ==>
              wait <= if u < MIN_PARSED_INTERVAL then MIN_PARSED_INTERVAL else u)
        && (nextDue == 0 <==> forall i, u :: 0 <= i < |feeds| ==> !SkippedFor(feeds[i], cad.poll, now, force, u))
  {
  }
}
