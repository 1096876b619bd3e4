/** From Discord's answer to the wait of the group: how a scan's verdict tells why it ended, and that a
    rate limit ends the pass and is waited out exactly. */
module RateLimitWaits {
  import opened Identities
  import opened Statuses
  import opened Ledgers
  import opened Attempts
  import opened Deliveries
  import opened Fetches
  import opened FeedSyncs
  import opened Scans
  import opened FeedRuns
  import opened Skips
  import opened Reconciles
  import Schedules

  /** How the scan can be held at e, which it found pending, and with what verdict. */
  predicate HeldAt(f: Feed, env: Env, e: Entry, count: nat, v: Verdict) {
    match f.renders(e)
    case RenderPanics => false
    case RenderFails => v == Verdict(count < env.MaxRetries(), 0, true)
    case Renders =>
      match f.sends(e)
      case SendFails(RateLimited(after), _) => v == Verdict(true, after, true)
      case SendFails(Refused(permanent), _) => v == Verdict(!permanent && count < env.MaxRetries(), 0, true)
      case _ => false
  }

  predicate HandledAs(f: Feed, h: Handled, e: Entry) {
    h.entry == e && if h.skipped then f.renders(e) == RenderFails else f.renders(e) == Renders && f.sends(e) == Accepted
  }

  /** A scan that found p pending handled a prefix of it, each entry sent or skipped, and unless it
      panicked its verdict tells what held it at the next. */
  ghost predicate Explains(f: Feed, env: Env, p: seq<Entry>, d: Delivered) {
    && (d.end.Done? ==>
          && |d.handled| <= |p| && (forall k :: 0 <= k < |d.handled| ==> HandledAs(f, d.handled[k], p[k]))
          && if |d.handled| == |p| then d.end.verdict == NOTHING
             else HeldAt(f, env, p[|d.handled|], d.st.run.count, d.end.verdict))
  }

  lemma TurnExplains(env: Env, f: Feed, es: seq<Entry>, window: seq<Entry>, st: Status, e: Entry)
    ensures match TurnAt(env, f, es, window, st, e)
      case Stop(d) => d.end.Done? ==> d.handled == [] && HeldAt(f, env, e, d.st.run.count, d.end.verdict)
      case GoOn(next, handled) =>
        && |handled| == 1 && HandledAs(f, handled[0], e)
        && next.books == MarkHandled(es, st.books, e, env.SentAt())
    ensures f.filterPanics(e) ==> TurnAt(env, f, es, window, st, e) == Stop(Delivered(st, [], Panicked))
  {
    hide MarkHandled;
    hide OtherRenders;
  }

  lemma {:induction false} LoopExplains(env: Env, f: Feed, es: seq<Entry>, window: seq<Entry>, st: Status, i: nat)
    requires i <= |es| && Distinct(es)
    ensures Explains(f, env, Pending(es, f.matches, st.books.sent, i), Deliver(env, f, es, window, st, i))
    decreases |es| - i
  {
    hide *;
    PendingUnfolds(es, f.matches, st.books.sent, i);
    DeliverUnfolds(env, f, es, window, st, i);
    var p, d := Pending(es, f.matches, st.books.sent, i), Deliver(env, f, es, window, st, i);
    if i == |es| {
      NothingToExplain(f, env, d);
    } else {
      var rest := Pending(es, f.matches, st.books.sent, i + 1);
      TurnExplains(env, f, es, window, st, es[i]);
      if Sent(es, st.books.sent, es[i]) || (!f.filterPanics(es[i]) && !f.matches(es[i])) {
        assert [] + rest == rest;
        LoopExplains(env, f, es, window, st, i + 1);
      } else if f.filterPanics(es[i]) {
        PanicExplains(f, env, p, d);
      } else {
        match TurnAt(env, f, es, window, st, es[i])
        case Stop(end) =>
          StopExplains(f, env, p, d);
        case GoOn(next, handled) =>
          HandleFacts(es, st.books, i, env.SentAt());
          PendingDependsOnSent(es, f.matches, st.books.sent, next.books.sent, i + 1);
          LoopExplains(env, f, es, window, next, i + 1);
          ExplainsFurther(f, env, es[i], rest, handled, Deliver(env, f, es, window, next, i + 1));
      }
    }
  }

  lemma NothingToExplain(f: Feed, env: Env, d: Delivered)
    requires d.handled == [] && d.end == Done(NOTHING)
    ensures Explains(f, env, [], d)
  {
  }

  lemma PanicExplains(f: Feed, env: Env, p: seq<Entry>, d: Delivered)
    requires d.end.Panicked?
    ensures Explains(f, env, p, d)
  {
  }

  lemma StopExplains(f: Feed, env: Env, p: seq<Entry>, d: Delivered)
    requires d.end.Done? ==> d.handled == [] && p != [] && HeldAt(f, env, p[0], d.st.run.count, d.end.verdict)
    ensures Explains(f, env, p, d)
  {
  }

  lemma ExplainsFurther(f: Feed, env: Env, e: Entry, rest: seq<Entry>, handled: seq<Handled>, d: Delivered)
    requires |handled| == 1 && HandledAs(f, handled[0], e) && Explains(f, env, rest, d)
    ensures Explains(f, env, [e] + rest, Prepend(handled, d))
  {
    hide HandledAs;
    hide HeldAt;
    var p, all := [e] + rest, Prepend(handled, d);
    assert all.handled == handled + d.handled;
    assert forall k :: 0 < k < |p| ==> p[k] == rest[k - 1];
  }

  /** Nothing panics in a sync of these entries. */
  ghost predicate Calm(f: Feed, es: seq<Entry>) {
    && (forall e, o :: f.records(e, o) == Completes)
    && forall e :: e in es ==>
         !f.filterPanics(e) && (f.matches(e) ==> f.renders(e) != RenderPanics && f.sends(e) != SendPanics)
  }

  lemma {:induction false} CalmLoopEnds(env: Env, f: Feed, es: seq<Entry>, window: seq<Entry>, st: Status, i: nat)
    requires i <= |es| && Calm(f, es) && NonePanics(f, window)
    ensures Deliver(env, f, es, window, st, i).end.Done?
    decreases |es| - i
  {
    hide *;
    DeliverUnfolds(env, f, es, window, st, i);
    if i < |es| {
      if Sent(es, st.books.sent, es[i]) || (!f.filterPanics(es[i]) && !f.matches(es[i])) {
        CalmLoopEnds(env, f, es, window, st, i + 1);
      } else {
        CalmTurn(env, f, es, window, st, i);
        match TurnAt(env, f, es, window, st, es[i])
        case Stop(_) =>
        case GoOn(next, handled) =>
          CalmLoopEnds(env, f, es, window, next, i + 1);
          PrependKeepsTheEnd(handled, Deliver(env, f, es, window, next, i + 1));
      }
    }
  }

  lemma PrependKeepsTheEnd(handled: seq<Handled>, d: Delivered)
    ensures Prepend(handled, d).end == d.end
  {
  }

  lemma CalmTurn(env: Env, f: Feed, es: seq<Entry>, window: seq<Entry>, st: Status, i: nat)
    requires i < |es| && Calm(f, es) && NonePanics(f, window) && (f.filterPanics(es[i]) || f.matches(es[i]))
    ensures var t := TurnAt(env, f, es, window, st, es[i]);
      t.Stop? ==> t.d.end.Done?
  {
    hide MarkHandled;
    hide OtherRenders;
    hide AnotherRenders;
    EvidenceIsReal(f, window, es[i]);
  }

  /** A calm scan ends, and its verdict tells why. */
  lemma ScanExplains(st: Status, es: seq<Entry>, f: Feed, env: Env)
    requires es != [] && Distinct(es) && Calm(f, es)
    ensures var d := Scanned(st, es, f, env);
      d.end.Done? && Explains(f, env, Todo(es, st.books, st.initialized, env.catchUp, f.matches), d)
  {
    hide *;
    var window, i := WindowOf(st, es, env), ScanFrom(st, es, env);
    TodoFromScan(es, st, env, f.matches);
    ScanOf(st, es, f, env);
    CalmBegins(es, st, f, env);
    CalmWindow(f, es, window);
    CalmLoopEnds(env, f, es, window, Begun(es, st, env.catchUp), i);
    LoopExplains(env, f, es, window, Begun(es, st, env.catchUp), i);
  }

  lemma CalmWindow(f: Feed, es: seq<Entry>, window: seq<Entry>)
    requires Calm(f, es) && forall e :: e in window ==> e in es
    ensures NonePanics(f, window)
  {
  }

  lemma CalmBegins(es: seq<Entry>, st: Status, f: Feed, env: Env)
    requires es != [] && Calm(f, es)
    ensures !BacklogPanics(st, es, f, env)
    ensures Begun(es, st, env.catchUp).books.sent == Migrations.Migrated(es, st.books).sent
  {
    hide Migrations.Migrated;
    hide Clamp;
    hide Identity;
    hide Plans.PlanDelivery;
    hide Ledgers.Resume;
  }

  /** A sync in which nothing panics, whose first c entries to be delivered are accepted, and whose next
      renders and is refused with a rate limit. */
  ghost predicate LimitedAt(st: Status, input: Input, env: Env, c: nat, after: nat) {
    && UsableDocument(input) && Distinct(input.fetch.entries) && Calm(input.feed, input.fetch.entries)
    && input.prune == PrunesAll
    && var todo := Todo(Sorted(input.fetch.entries), st.books, st.initialized, env.catchUp, input.feed.matches);
       var f := input.feed;
       && c < |todo| && (forall k :: 0 <= k <= c ==> f.renders(todo[k]) == Renders)
       && (forall k :: 0 <= k < c ==> f.sends(todo[k]) == Accepted)
       && f.sends(todo[c]).SendFails? && f.sends(todo[c]).err == RateLimited(after)
  }

  lemma NotHandled(f: Feed, e: Entry)
    requires f.renders(e) == Renders && f.sends(e).SendFails?
    ensures forall h :: !HandledAs(f, h, e)
  {
  }

  lemma HeldAtTheRefused(f: Feed, env: Env, p: seq<Entry>, d: Delivered, c: nat, after: nat)
    requires d.end.Done? && Explains(f, env, p, d) && c < |p|
    requires forall k :: 0 <= k <= c ==> f.renders(p[k]) == Renders
    requires forall k :: 0 <= k < c ==> f.sends(p[k]) == Accepted
    requires f.sends(p[c]).SendFails? && f.sends(p[c]).err == RateLimited(after)
    ensures |d.handled| == c && d.end.verdict == Verdict(true, after, true)
    ensures forall k :: 0 <= k < c ==> d.handled[k] == Handled(p[k], false)
  {
    assert |d.handled| > c ==> HandledAs(f, d.handled[c], p[c]) by {
      hide HandledAs;
    }
    NotHandled(f, p[c]);
    forall k | 0 <= k < c ensures d.handled[k] == Handled(p[k], false) {
      assert HandledAs(f, d.handled[k], p[k]);
    }
  }

  /** Such a sync delivers what is in front of the refused entry, and reports the wait. */
  lemma LimitedSync(st: Status, input: Input, env: Env, c: nat, after: nat)
    requires LimitedAt(st, input, env, c, after)
    ensures var a := Apply(st, input, env);
      var todo := Todo(Sorted(input.fetch.entries), st.books, st.initialized, env.catchUp, input.feed.matches);
      && a.ending == Finished(Verdict(true, after, true), SyncPending)
      && |a.handled| == c < |todo| && forall k :: 0 <= k < c ==> a.handled[k] == Handled(todo[k], false)
  {
    hide *;
    LimitedFacts(st, input, env, c, after);
    var es, fetched, f := Sorted(input.fetch.entries), Recorded(st, FetchDone, env), input.feed;
    SortedKeepsDistinct(input.fetch.entries);
    FetchKeepsTheList(st, env);
    ScanExplains(fetched, es, f, env);
    HeldAtTheRefused(f, env, Todo(es, st.books, st.initialized, env.catchUp, f.matches), Scanned(fetched, es, f, env), c, after);
    ScanEndsTheSync(st, input, env);
  }

  lemma LimitedFacts(st: Status, input: Input, env: Env, c: nat, after: nat)
    requires LimitedAt(st, input, env, c, after)
    ensures UsableDocument(input) && Distinct(input.fetch.entries) && Calm(input.feed, Sorted(input.fetch.entries))
    ensures input.fetch.Document? && input.fetch.entries != [] && input.prune == PrunesAll
    ensures var todo := Todo(Sorted(input.fetch.entries), st.books, st.initialized, env.catchUp, input.feed.matches);
      var f := input.feed;
      && c < |todo| && (forall k :: 0 <= k <= c ==> f.renders(todo[k]) == Renders)
      && (forall k :: 0 <= k < c ==> f.sends(todo[k]) == Accepted)
      && f.sends(todo[c]).SendFails? && f.sends(todo[c]).err == RateLimited(after)
  {
    hide Todo;
  }

  lemma FetchKeepsTheList(st: Status, env: Env)
    ensures var fetched := Recorded(st, FetchDone, env); fetched.books == st.books && fetched.initialized == st.initialized
  {
  }

  /** A sync of a usable document whose scan and prune run to their end has the scan's verdict. */
  lemma ScanEndsTheSync(st: Status, input: Input, env: Env)
    requires UsableDocument(input) && input.prune == PrunesAll
    ensures var d := Scanned(Recorded(st, FetchDone, env), Sorted(input.fetch.entries), input.feed, env);
      d.end.Done? ==>
        && Apply(st, input, env).handled == d.handled
        && Apply(st, input, env).ending == Finished(d.end.verdict, if d.end.verdict.pending then SyncPending else SyncAccountedFor)
  {
    hide Scanned;
    hide Sorted;
    hide Closed;
    hide Recorded;
  }

  /** No answer to an entry of the sync is a rate limit. */
  ghost predicate NoneLimited(input: Input) {
    input.fetch.Document? ==>
      forall e :: e in input.fetch.entries ==> !(input.feed.sends(e).SendFails? && input.feed.sends(e).err.RateLimited?)
  }

  /** Only a rate limit makes a group wait longer than its intervals. */
  lemma UnlimitedSync(st: Status, input: Input, env: Env)
    requires NoneLimited(input) && Apply(st, input, env).ending.Finished?
    ensures Apply(st, input, env).ending.verdict.retryAfter == 0
  {
    hide Scanned;
    hide Closed;
    hide Sorted;
    if UsableDocument(input) {
      var fetched, es := Recorded(st, FetchDone, env), Sorted(input.fetch.entries);
      UnlimitedScan(fetched, es, input.feed, env);
    }
  }

  lemma UnlimitedScan(st: Status, es: seq<Entry>, f: Feed, env: Env)
    requires es != [] && forall e :: e in es ==> !(f.sends(e).SendFails? && f.sends(e).err.RateLimited?)
    ensures var d := Scanned(st, es, f, env);
      d.end.Done? ==> d.end.verdict.retryAfter == 0
  {
    hide *;
    ScanOf(st, es, f, env);
    if !BacklogPanics(st, es, f, env) {
      UnlimitedLoop(env, f, es, WindowOf(st, es, env), Begun(es, st, env.catchUp), ScanFrom(st, es, env));
    }
  }

  lemma {:induction false} UnlimitedLoop(env: Env, f: Feed, es: seq<Entry>, window: seq<Entry>, st: Status, i: nat)
    requires i <= |es| && forall e :: e in es ==> !(f.sends(e).SendFails? && f.sends(e).err.RateLimited?)
    ensures var d := Deliver(env, f, es, window, st, i);
      d.end.Done? ==> d.end.verdict.retryAfter == 0
    decreases |es| - i
  {
    hide *;
    DeliverUnfolds(env, f, es, window, st, i);
    if i < |es| {
      UnlimitedTurn(env, f, es, window, st, es[i]);
      if Sent(es, st.books.sent, es[i]) || (!f.filterPanics(es[i]) && !f.matches(es[i])) {
        UnlimitedLoop(env, f, es, window, st, i + 1);
      } else {
        match TurnAt(env, f, es, window, st, es[i])
        case Stop(_) =>
        case GoOn(next, handled) =>
          UnlimitedLoop(env, f, es, window, next, i + 1);
          PrependKeepsTheEnd(handled, Deliver(env, f, es, window, next, i + 1));
      }
    } else {
      NoVerdict();
    }
  }

  lemma NoVerdict()
    ensures NOTHING.retryAfter == 0
  {
  }

  lemma UnlimitedTurn(env: Env, f: Feed, es: seq<Entry>, window: seq<Entry>, st: Status, e: Entry)
    requires !(f.sends(e).SendFails? && f.sends(e).err.RateLimited?)
    ensures var t := TurnAt(env, f, es, window, st, e);
      t.Stop? && t.d.end.Done? ==> t.d.end.verdict.retryAfter == 0
  {
    hide MarkHandled;
    hide OtherRenders;
  }

  /** When feed k is the first of a pass that gives a wait, the pass ends right after it. */
  lemma PassEndsAt(sts: seq<Status>, ins: seq<Input>, env: Env, k: nat, after: nat)
    requires k < |sts| == |ins| && after > 0
    requires forall j :: 0 <= j <= k ==> Apply(sts[j], ins[j], env).ending.Finished?
    requires forall j :: 0 <= j < k ==> VerdictAt(sts[j], ins[j], env).retryAfter == 0
    requires VerdictAt(sts[k], ins[k], env) == Verdict(true, after, true)
    ensures var pass := PassFrom(sts, ins, env, NOTHING, 0);
      && pass.processed == k + 1 && !pass.panicked && pass.verdict.retry && pass.verdict.retryAfter == after
      && |pass.sts| == |sts| && (forall j :: k < j < |sts| ==> pass.sts[j] == sts[j])
  {
    hide Apply;
    hide Processed;
    hide PassFrom;
    hide VerdictAt;
    var pass := PassFrom(sts, ins, env, NOTHING, 0);
    PassStopsAtRateLimit(sts, ins, env, NOTHING, 0);
    if pass.processed > 0 {
      var last := pass.processed - 1;
      assert Apply(sts[last], ins[last], env).ending.Finished? <==> !pass.panicked;
    }
  }

  /** A rate limit is waited out. When feed k of a pass is the first to meet one, the pass ends right
      after it, the feeds behind it stay as they were, and the group waits exactly as long as Discord
      asked for, whatever its intervals, the jitter and the other feeds. */
  lemma RateLimitIsWaitedOut(sts: seq<Status>, ins: seq<Input>, env: Env, k: nat, c: nat, after: nat,
                             cad: Schedules.Cadence, nextDue: int, jittered: int)
    requires k < |sts| == |ins| && after > 0 && LimitedAt(sts[k], ins[k], env, c, after)
    requires forall j :: 0 <= j < k ==> NoneLimited(ins[j]) && Apply(sts[j], ins[j], env).ending.Finished?
    requires var pass := PassFrom(sts, ins, env, NOTHING, 0);
      Schedules.Jittered(Schedules.RequeueOf(cad, nextDue, pass.verdict), jittered)
    ensures var pass := PassFrom(sts, ins, env, NOTHING, 0);
      && pass.processed == k + 1 && !pass.panicked && pass.verdict.retry && pass.verdict.retryAfter == after
      && |pass.sts| == |sts| && (forall j :: k < j < |sts| ==> pass.sts[j] == sts[j])
      && Schedules.Wait(Schedules.RequeueOf(cad, nextDue, pass.verdict), jittered) == after
  {
    hide Apply;
    hide Processed;
    hide LimitedAt;
    hide NoneLimited;
    hide PassFrom;
    LimitedSync(sts[k], ins[k], env, c, after);
    forall j | 0 <= j < k ensures VerdictAt(sts[j], ins[j], env).retryAfter == 0 {
      UnlimitedSync(sts[j], ins[j], env);
    }
    PassEndsAt(sts, ins, env, k, after);
  }
}
