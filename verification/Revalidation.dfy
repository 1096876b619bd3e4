/** Cache validators over whole runs, against a server that answers conditional requests as
    section 13.1.2 of RFC 9110 requires. A document is known by its entity tag. */
module Revalidation {
  import opened Statuses
  import opened Ledgers
  import opened Attempts
  import opened Deliveries
  import opened Fetches
  import opened FeedSyncs
  import opened Scans
  import opened FeedRuns
  import opened Skips

  /** A sync, and the entity tag the server's document had when it was fetched. */
  datatype Exchange = Exchange(sync: Sync, tag: string)

  /** The server answers 304 exactly when If-None-Match names the current tag, and otherwise sends
      the document with its tag; a 304 may leave the tag out. */
  predicate FollowsIfNoneMatch(st: Status, x: Exchange) {
    x.tag != "" &&
    match x.sync.input.fetch
    case FetchError(_, _) => true
    case NotModified(seen) => st.validators.etag == x.tag && (seen.etag == "" || seen.etag == x.tag)
    case Document(_, seen) => st.validators.etag != x.tag && seen.etag == x.tag
  }

  /** Whether the sync settles the document: it was empty, accounted for or confirmed by a 304. */
  ghost predicate Settles(st: Status, s: Sync) {
    var ending := Apply(st, s.input, s.env).ending;
    !ending.Interrupted? &&
    (ending.settled == SyncNotModified || ending.settled == SyncEmpty || ending.settled == SyncAccountedFor)
  }

  /** A run: the status, the tags whose last document was left unsettled, and the tags and dates
      that came with a settled one. */
  datatype Trace = Trace(st: Status, unsettled: set<string>, tags: set<string>, dates: set<string>)

  function SeenBy(f: Fetch): Validators {
    if f.FetchError? then Validators("", "") else f.seen
  }

  ghost function Next(t: Trace, x: Exchange): Trace {
    var s := x.sync;
    var after := Processed(t.st, s.input, s.env);
    if Settles(t.st, s) then
      Trace(after, t.unsettled - {x.tag}, t.tags + {x.tag}, t.dates + {SeenBy(s.input.fetch).lastModified})
    else if s.input.fetch.Document? then Trace(after, t.unsettled + {x.tag}, t.tags, t.dates)
    else t.(st := after)
  }

  ghost function Run(st: Status, xs: seq<Exchange>): Trace {
    if xs == [] then Trace(st, {}, {}, {}) else Next(Run(st, xs[..|xs| - 1]), xs[|xs| - 1])
  }

  /** Every exchange of the run followed the server's rule. */
  ghost predicate Honest(st: Status, xs: seq<Exchange>) {
    forall k :: 0 <= k < |xs| ==> FollowsIfNoneMatch(Run(st, xs[..k]).st, xs[k])
  }

  /** A sync that does not settle its document leaves both validators alone; one that does stores
      those the response had. */
  lemma ValidatorsOf(st: Status, s: Sync)
    ensures var after, seen := Processed(st, s.input, s.env).validators, SeenBy(s.input.fetch);
      if Settles(st, s) then
        && !s.input.fetch.FetchError?
        && after.etag == (if seen.etag != "" then seen.etag else st.validators.etag)
        && after.lastModified == (if seen.lastModified != "" then seen.lastModified else st.validators.lastModified)
      else after == st.validators
  {
    hide *;
    if UsableDocument(s.input) {
      ValidatorsOfDocument(st, s);
    } else {
      ValidatorsOfOther(st, s);
    }
  }

  lemma ValidatorsOfDocument(st: Status, s: Sync)
    requires UsableDocument(s.input)
    ensures var after, seen := Processed(st, s.input, s.env).validators, SeenBy(s.input.fetch);
      && !s.input.fetch.FetchError?
      && if Settles(st, s) then
           && after.etag == (if seen.etag != "" then seen.etag else st.validators.etag)
           && after.lastModified == (if seen.lastModified != "" then seen.lastModified else st.validators.lastModified)
         else after == st.validators
  {
    hide Scanned;
    hide Sorted;
    hide Pruning.Pruned;
    ScannedKeepsValidators(Recorded(st, FetchDone, s.env), Sorted(s.input.fetch.entries), s.input.feed, s.env);
  }

  lemma ValidatorsOfOther(st: Status, s: Sync)
    requires !UsableDocument(s.input)
    ensures var after, seen := Processed(st, s.input, s.env).validators, SeenBy(s.input.fetch);
      if Settles(st, s) then
        && !s.input.fetch.FetchError?
        && after.etag == (if seen.etag != "" then seen.etag else st.validators.etag)
        && after.lastModified == (if seen.lastModified != "" then seen.lastModified else st.validators.lastModified)
      else after == st.validators
  {
    hide Scanned;
    hide Sorted;
    hide Pruning.Pruned;
    hide HalfMigrated;
  }

  lemma ScannedKeepsValidators(st: Status, es: seq<Identities.Entry>, f: Feed, env: Env)
    requires es != []
    ensures Scanned(st, es, f, env).st.validators == st.validators
  {
    hide Deliver;
    ScanOf(st, es, f, env);
    ScanKeepsValidators(env, f, es, WindowOf(st, es, env), Begun(es, st, env.catchUp), ScanFrom(st, es, env));
  }

  lemma {:induction false} ScanKeepsValidators(env: Env, f: Feed, es: seq<Identities.Entry>, window: seq<Identities.Entry>,
                                               st: Status, i: nat)
    requires i <= |es|
    ensures Deliver(env, f, es, window, st, i).st.validators == st.validators
    decreases |es| - i
  {
    hide TurnAt;
    hide PassedOver;
    if i < |es| {
      if PassedOver(f, es, st.books.sent, es[i]) {
        ScanKeepsValidators(env, f, es, window, st, i + 1);
      } else {
        TurnBooks(env, f, es, window, st, es[i]);
        match TurnAt(env, f, es, window, st, es[i])
        case Stop(d) =>
        case GoOn(next, _) => ScanKeepsValidators(env, f, es, window, next, i + 1);
      }
    }
  }

  /** In every reachable state the stored validators come only from settled documents, and the
      stored tag is never that of a document left unsettled. */
  lemma {:induction false} StoredTagIsSettled(st: Status, xs: seq<Exchange>)
    requires st.validators == Validators("", "") && Honest(st, xs)
    ensures var t := Run(st, xs);
      && t.st.validators.etag !in t.unsettled && "" !in t.unsettled
      && (t.st.validators.etag == "" || t.st.validators.etag in t.tags)
      && (t.st.validators.lastModified == "" || t.st.validators.lastModified in t.dates)
  {
    if xs != [] {
      var front, x := xs[..|xs| - 1], xs[|xs| - 1];
      forall k | 0 <= k < |front| ensures FollowsIfNoneMatch(Run(st, front[..k]).st, front[k]) {
        assert front[..k] == xs[..k];
      }
      StoredTagIsSettled(st, front);
      ValidatorsOf(Run(st, front).st, x.sync);
      assert FollowsIfNoneMatch(Run(st, front).st, x);
    }
  }

  /** A document whose last sync left it unsettled is never answered with 304: its unsent entries
      are fetched and retried. */
  lemma UnsettledDocumentIsRefetched(st: Status, xs: seq<Exchange>)
    requires st.validators == Validators("", "") && Honest(st, xs) && xs != []
    requires xs[|xs| - 1].tag in Run(st, xs[..|xs| - 1]).unsettled
    ensures !xs[|xs| - 1].sync.input.fetch.NotModified?
  {
    var front, x := xs[..|xs| - 1], xs[|xs| - 1];
    forall k | 0 <= k < |front| ensures FollowsIfNoneMatch(Run(st, front[..k]).st, front[k]) {
      assert front[..k] == xs[..k];
    }
    StoredTagIsSettled(st, front);
    assert FollowsIfNoneMatch(Run(st, front).st, x);
  }
}
