/** feedAttempt.record: what one outcome does to a feed's status, and what it asks of the
    reconcile. The error's classification (permanent or not) comes with the outcome. */
module Attempts {
  import opened Basics
  import opened Statuses
  import opened Backoffs
  import opened Retries
  import opened Pruning

  /** A failed send: rate limited, or refused or never received. */
  datatype SendError = RateLimited(retryAfter: nat) | Refused(permanent: bool)

  datatype Outcome =
    | FetchDone
    | FetchFailed(permanent: bool, at: int)
    | RenderFailed
    | SendFailed(err: SendError, at: int)
    | EntrySent
    | EntrySkipped
    | BacklogSkipped
    | ConfigError

  datatype Verdict = Verdict(retry: bool, retryAfter: nat, pending: bool)

  const NOTHING := Verdict(false, 0, false)

  function Max(a: nat, b: nat): nat { if a < b then b else a }

  function Fold(v: Verdict, w: Verdict): Verdict {
    Verdict(v.retry || w.retry, Max(v.retryAfter, w.retryAfter), v.pending || w.pending)
  }

  /** The reconcile's clock reading, the group's catch-up limit and cadence, and the key order. */
  datatype Env = Env(now: int, catchUp: int, retries: int, base: Duration, order: Order) {
    /** The time entries handled in this reconcile are recorded at. */
    function SentAt(): (t: int)
      ensures t % SECOND == 0 && t <= now < t + SECOND
    {
      WholeSeconds(now)
    }

    function MaxRetries(): (r: nat)
      ensures r >= 1 && r >= retries && (r == 1 || r == retries)
    {
      if retries < 1 then 1 else retries
    }
  }

  function ClearFailure(st: Status): Status {
    st.(lastError := false, run := Cleared(st.run))
  }

  function Recorded(st: Status, o: Outcome, env: Env): Status {
    match o
    case FetchDone => st.(run := FetchSucceeded(st.run).(reachable := True), lastChecked := Formatted(env.now))
    case FetchFailed(permanent, at) =>
      st.(lastError := true, run := AfterFailure(st.run, Fetching, permanent, env.base, at))
    case RenderFailed =>
      st.(lastError := true, run := AfterFailure(st.run, Delivering, false, env.base, 0), delivered := False)
    case SendFailed(RateLimited(_), _) => st.(lastError := true, delivered := False)
    case SendFailed(Refused(permanent), at) =>
      st.(lastError := true, run := AfterFailure(st.run, Delivering, permanent, env.base, at), delivered := False)
    case EntrySent => ClearFailure(st).(delivered := True)
    case EntrySkipped => ClearFailure(st).(delivered := False)
    case BacklogSkipped => st.(delivered := True)
    case ConfigError => st.(lastError := true, delivered := False)
  }

  /** How far a recording gets: it can panic in the calls it makes, before anything is written, when
      the condition is to be set, or in the Event once everything is written. */
  datatype Reach = Completes | PanicsFirst | PanicsMidway | PanicsLast

  /** What is written before the condition is set. */
  function HalfRecorded(st: Status, o: Outcome, env: Env): Status {
    match o
    case FetchDone => st.(run := FetchSucceeded(st.run), lastChecked := Formatted(env.now))
    case FetchFailed(_, _) => st.(lastError := true, run := Failed(st.run, Fetching))
    case RenderFailed => st.(lastError := true, run := Failed(st.run, Delivering))
    case SendFailed(RateLimited(_), _) => st.(lastError := true)
    case SendFailed(Refused(_), _) => st.(lastError := true, run := Failed(st.run, Delivering))
    case EntrySent => ClearFailure(st)
    case EntrySkipped => ClearFailure(st)
    case BacklogSkipped => st
    case ConfigError => st.(lastError := true)
  }

  function RecordedUpTo(st: Status, o: Outcome, env: Env, reach: Reach): Status {
    match reach
    case PanicsFirst => st
    case PanicsMidway => HalfRecorded(st, o, env)
    case _ => Recorded(st, o, env)
  }

  /** Recording an outcome, however far it gets, never touches the books, Initialized or the
      validators. */
  lemma RecordingKeeps(st: Status, o: Outcome, env: Env, reach: Reach)
    ensures var after := RecordedUpTo(st, o, env, reach);
      after.books == st.books && after.initialized == st.initialized && after.validators == st.validators
  {
  }

  /** The verdict of a counted failure that left the run at count. */
  function FailureVerdict(count: nat, permanent: bool, pending: bool, env: Env): Verdict {
    Verdict(!permanent && count < env.MaxRetries(), 0, pending)
  }

  function VerdictOf(st: Status, o: Outcome, env: Env): Verdict {
    var count := Recorded(st, o, env).run.count;
    match o
    case FetchFailed(permanent, _) => FailureVerdict(count, permanent, false, env)
    case RenderFailed => FailureVerdict(count, false, true, env)
    case SendFailed(RateLimited(after), _) => Verdict(true, after, true)
    case SendFailed(Refused(permanent), _) => FailureVerdict(count, permanent, true, env)
    case _ => NOTHING
  }

  /** failed: warned tells whether the failure fires its one Warning Event of the run. */
  method RecordFailure(fs: FeedStatus, phase: Phase, permanent: bool, at: int, env: Env, reach: Reach)
    returns (v: Verdict, warned: bool)
    requires reach != PanicsFirst
    modifies fs
    ensures var before, r := old(fs.View()), AfterFailure(old(fs.View().run), phase, permanent, env.base, at);
      if reach == PanicsMidway then
        fs.View() == before.(lastError := true, run := Failed(before.run, phase)) && v == NOTHING && !warned
      else
        && fs.View() == before.(lastError := true, run := r, delivered := if phase == Fetching then before.delivered else False)
        && v == FailureVerdict(r.count, permanent, false, env)
        && warned == if permanent then FirstCapped(r.count, env.base) else r.count == env.MaxRetries()
  {
    fs.LastError := true;
    CountFailure(fs, phase); // the run's phase is still that of the last fetch here
    if reach == PanicsMidway {
      return NOTHING, false;
    }
    if phase == Fetching {
      fs.Reachable := False;
    } else {
      fs.Delivered := False;
    }
    if permanent {
      warned := Extend(fs, env.base, at);
      return NOTHING, warned;
    }
    if fs.RetryCount < env.MaxRetries() {
      return Verdict(true, 0, false), false;
    }
    return NOTHING, fs.RetryCount == env.MaxRetries();
  }

  method ClearFailureOf(fs: FeedStatus)
    modifies fs
    ensures fs.View() == ClearFailure(old(fs.View()))
  {
    fs.LastError := false;
    Clear(fs);
  }

  /** record, up to where it panics, if it does. */
  method RecordOutcome(fs: FeedStatus, o: Outcome, env: Env, reach: Reach) returns (v: Verdict, panicked: bool)
    modifies fs
    ensures fs.View() == RecordedUpTo(old(fs.View()), o, env, reach)
    ensures panicked <==> reach != Completes
    ensures !panicked ==> v == VerdictOf(old(fs.View()), o, env)
  {
    v, panicked := NOTHING, reach != Completes;
    var warned: bool;
    if reach == PanicsFirst {
      return;
    }
    match o {
      case FetchDone =>
        EndFetchRun(fs); // while Reachable still tells the old run's phase
        fs.LastChecked := Formatted(env.now);
        if reach != PanicsMidway {
          fs.Reachable := True;
        }
      case FetchFailed(permanent, at) =>
        v, warned := RecordFailure(fs, Fetching, permanent, at, env, reach);
      case RenderFailed =>
        v, warned := RecordFailure(fs, Delivering, false, 0, env, reach);
        v := v.(pending := true);
      case SendFailed(err, at) =>
        match err {
          case RateLimited(after) =>
            fs.LastError := true;
            SetDelivered(fs, False, reach);
            v := Verdict(true, after, true);
          case Refused(permanent) =>
            v, warned := RecordFailure(fs, Delivering, permanent, at, env, reach);
            v := v.(pending := true);
        }
      case EntrySent =>
        ClearFailureOf(fs);
        SetDelivered(fs, True, reach);
      case EntrySkipped =>
        ClearFailureOf(fs);
        SetDelivered(fs, False, reach);
      case BacklogSkipped =>
        SetDelivered(fs, True, reach);
      case ConfigError =>
        fs.LastError := true;
        SetDelivered(fs, False, reach);
    }
  }

  method SetDelivered(fs: FeedStatus, c: Condition, reach: Reach)
    modifies fs
    ensures fs.View() == if reach == PanicsMidway then old(fs.View()) else old(fs.View()).(delivered := c)
  {
    if reach != PanicsMidway {
      fs.Delivered := c;
    }
  }
}
