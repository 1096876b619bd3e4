/** reconcilePass: the fold over a group's fetched feeds, which share one webhook. */
module Reconciles {
  import opened Statuses
  import opened Pruning
  import opened Attempts
  import opened Fetches
  import opened FeedSyncs

  /** What a pass came to: the statuses, the folded verdict, how many feeds were processed, and
      whether the last of them panicked. */
  datatype Pass = Pass(sts: seq<Status>, verdict: Verdict, processed: nat, panicked: bool)

  /** The pass from feed i on, with the verdict folded so far. */
  ghost function PassFrom(sts: seq<Status>, ins: seq<Input>, env: Env, v: Verdict, i: nat): Pass
    requires i <= |sts| == |ins|
    decreases |sts| - i
  {
    if i == |sts| || v.retryAfter > 0 then Pass(sts, v, i, false)
    else
      var ending, after := Apply(sts[i], ins[i], env).ending, sts[i := Processed(sts[i], ins[i], env)];
      if !ending.Finished? then Pass(after, v, i + 1, true)
      else PassFrom(after, ins, env, Fold(v, ending.verdict), i + 1)
  }

  ghost function Views(feeds: seq<FeedStatus>): seq<Status>
    reads feeds
  {
    seq(|feeds|, i requires 0 <= i < |feeds| reads feeds => feeds[i].View())
  }

  method ReconcilePass(feeds: seq<FeedStatus>, ins: seq<Input>, env: Env)
    returns (verdict: Verdict, processed: nat, panicked: bool)
    requires |feeds| == |ins| && Injective(env.order)
    requires forall i, j :: 0 <= i < j < |feeds| ==> feeds[i] != feeds[j]
    modifies feeds
    ensures Pass(Views(feeds), verdict, processed, panicked) == PassFrom(old(Views(feeds)), ins, env, NOTHING, 0)
  {
    hide Apply;
    hide Processed;
    verdict, panicked := NOTHING, false;
    var i := 0;
    while i < |feeds|
      invariant 0 <= i <= |feeds|
      invariant PassFrom(old(Views(feeds)), ins, env, NOTHING, 0) == PassFrom(Views(feeds), ins, env, verdict, i)
    {
      if verdict.retryAfter > 0 {
        return verdict, i, false;
      }
      ghost var before := Views(feeds);
      var ending, _ := ProcessFeed(feeds[i], ins[i], env);
      assert Views(feeds) == before[i := Processed(before[i], ins[i], env)];
      i := i + 1;
      if !ending.Finished? {
        return verdict, i, true;
      }
      verdict := Fold(verdict, ending.verdict);
    }
    return verdict, i, false;
  }

  /** The verdict a feed's sync gave the fold; a panicking one gives none. */
  ghost function VerdictAt(st: Status, input: Input, env: Env): Verdict {
    var ending := Apply(st, input, env).ending;
    if ending.Finished? then ending.verdict else NOTHING
  }

  /** A pass processes a prefix of the feeds and leaves the rest as they were. It stops early only
      at a panic or right after the first feed that met a rate limit, whose wait is the one the
      group takes; and it asks for a retry exactly when a processed feed did. */
  lemma {:induction false} PassStopsAtRateLimit(sts: seq<Status>, ins: seq<Input>, env: Env, v: Verdict, i: nat)
    requires i <= |sts| == |ins|
    ensures var p := PassFrom(sts, ins, env, v, i);
      && i <= p.processed <= |sts| == |p.sts|
      && (forall k :: 0 <= k < |sts| ==>
            p.sts[k] == if i <= k < p.processed then Processed(sts[k], ins[k], env) else sts[k])
      && (forall k :: i <= k < p.processed - 1 ==> VerdictAt(sts[k], ins[k], env).retryAfter == 0)
      && (p.processed < |sts| && !p.panicked ==> p.verdict.retryAfter > 0)
      && (p.panicked ==> p.processed > i)
      && (forall k :: i <= k < p.processed ==>
            (Apply(sts[k], ins[k], env).ending.Finished? <==> !(p.panicked && k == p.processed - 1)))
      && (v.retryAfter == 0 ==>
            p.verdict.retryAfter == if p.processed == i || p.panicked then 0
                                    else VerdictAt(sts[p.processed - 1], ins[p.processed - 1], env).retryAfter)
      && (p.verdict.retry <==> v.retry || exists k :: i <= k < p.processed && VerdictAt(sts[k], ins[k], env).retry)
    decreases |sts| - i
  {
    hide Apply;
    hide Processed;
    if i < |sts| && v.retryAfter == 0 && Apply(sts[i], ins[i], env).ending.Finished? {
      var next := Fold(v, VerdictAt(sts[i], ins[i], env));
      PassStopsAtRateLimit(sts[i := Processed(sts[i], ins[i], env)], ins, env, next, i + 1);
    }
  }
}
