/** A feed whose documents slide along: each fetch shows a window of a growing list of entries. Over
    any run of syncs nothing behind the watermark is lost or delivered twice. */
module Windows {
  import opened Identities
  import opened Statuses
  import opened Ledgers
  import opened Migrations
  import opened Handovers
  import opened Pruning
  import opened Attempts
  import opened Deliveries
  import opened Fetches
  import opened FeedSyncs
  import opened Scans
  import opened FeedRuns

  /** The keys an entry is recorded under when its stripped identity is its own. */
  function FullKeys(e: Entry): seq<Key> {
    [EntryKey(Identity(e))] + if Stripped(e) != EMPTY then [StrippedKey(Stripped(e))] else []
  }

  function PreviousKeys(e: Entry): seq<Key> {
    if !Moved(e) then []
    else [EntryKey(Previous(e))] + if PreviousStripped(e) != EMPTY then [StrippedKey(PreviousStripped(e))] else []
  }

  /** No two entries of the list can be taken for each other. */
  ghost predicate Separate(all: seq<Entry>) {
    forall i, k :: 0 <= i < |all| && 0 <= k < |all| && i != k ==>
      && Identity(all[i]) != Identity(all[k])
      && (Stripped(all[i]) != EMPTY ==> Stripped(all[i]) != Stripped(all[k]) && Stripped(all[i]) != Identity(all[k]))
  }

  /** What the entries were identified by before stands for none of them and is not recorded. */
  ghost predicate Forgotten(all: seq<Entry>, sent: map<Key, int>) {
    forall i, x :: 0 <= i < |all| && x in PreviousKeys(all[i]) ==>
      x !in sent && forall k :: 0 <= k < |all| ==> x !in FullKeys(all[k])
  }

  /** The watermark is at all[w], and nothing behind it is recorded. */
  ghost predicate At(all: seq<Entry>, b: Books, w: nat) {
    && w < |all| && b.mark == Clamp(Identity(all[w])) && Forgotten(all, b.sent)
    && forall q, x :: w < q < |all| && x in FullKeys(all[q]) ==> x !in b.sent
  }

  /** The entries of all[i..j] that pass the filter. */
  function Passing(all: seq<Entry>, matches: Entry -> bool, i: nat, j: nat): seq<Entry>
    requires i <= j <= |all|
    decreases j - i
  {
    if i == j then [] else (if matches(all[i]) then [all[i]] else []) + Passing(all, matches, i + 1, j)
  }

  lemma {:induction false} PassingSplits(all: seq<Entry>, matches: Entry -> bool, i: nat, k: nat, j: nat)
    requires i <= k <= j <= |all|
    ensures Passing(all, matches, i, j) == Passing(all, matches, i, k) + Passing(all, matches, k, j)
    decreases k - i
  {
    if i < k {
      PassingSplits(all, matches, i + 1, k, j);
      var one := if matches(all[i]) then [all[i]] else [];
      assert one + (Passing(all, matches, i + 1, k) + Passing(all, matches, k, j)) ==
             one + Passing(all, matches, i + 1, k) + Passing(all, matches, k, j);
    } else {
      assert [] + Passing(all, matches, k, j) == Passing(all, matches, k, j);
    }
  }

  lemma FullKeysAreApart(all: seq<Entry>, i: nat, k: nat, x: Key)
    requires i < |all| && k < |all| && i != k && Separate(all) && x in FullKeys(all[i])
    ensures x !in FullKeys(all[k])
  {
    hide Identity;
    hide Stripped;
  }

  /** In a window, every entry is recorded under its full keys. */
  lemma WindowKeys(all: seq<Entry>, a: nat, b: nat, j: nat)
    requires a + j < b <= |all| && Separate(all)
    ensures Keys(all[a..b], all[a + j]) == FullKeys(all[a + j])
  {
    hide Identity;
    hide Stripped;
    var es, s := all[a..b], Stripped(all[a + j]);
    assert es[j] == all[a + j];
    if s != EMPTY {
      forall i | 0 <= i < |es| && i != j ensures !Stands(AsClaim, es[i], s) {
        assert es[i] == all[a + i];
      }
      CountAtMostOne(AsClaim, es, s);
      CountNone(AsClaim, es, s);
      assert Stands(AsClaim, es[j], s);
    }
  }

  lemma NothingToMigrate(all: seq<Entry>, a: nat, b: nat, books: Books, w: nat)
    requires a <= w < b <= |all| && At(all, books, w)
    ensures Migrated(all[a..b], books) == books
  {
    var es := all[a..b];
    hide At;
    hide SettledAt;
    hide MigratedTo;
    forall i | 0 <= i < |es| ensures SettledAt(es, books, i) {
      assert es[i] == all[a + i];
      EntryIsSettled(all, books, w, a + i, es, i);
    }
    SettledIsFixed(es, books, |es|);
  }

  lemma EntryIsSettled(all: seq<Entry>, books: Books, w: nat, k: nat, es: seq<Entry>, i: nat)
    requires k < |all| && At(all, books, w) && i < |es| && es[i] == all[k]
    ensures SettledAt(es, books, i)
  {
    if Moved(es[i]) {
      NotRecordedBefore(all, books, w, k);
    }
    hide At;
    hide Moved;
    hide Count;
    hide Identity;
    hide Previous;
    hide PreviousStripped;
    hide Clamp;
  }

  lemma NotRecordedBefore(all: seq<Entry>, b: Books, w: nat, i: nat)
    requires i < |all| && At(all, b, w) && Moved(all[i])
    ensures EntryKey(Previous(all[i])) !in b.sent && b.mark != Clamp(Previous(all[i]))
    ensures PreviousStripped(all[i]) != EMPTY ==> StrippedKey(PreviousStripped(all[i])) !in b.sent
  {
    hide Identity;
    hide Previous;
    hide PreviousStripped;
    hide Stripped;
    hide Moved;
    var keys := PreviousKeys(all[i]);
    assert keys[0] == EntryKey(Previous(all[i])) && keys[0] in keys;
    assert FullKeys(all[w])[0] == EntryKey(Identity(all[w]));
    assert EntryKey(Identity(all[w])) in FullKeys(all[w]);
    if PreviousStripped(all[i]) != EMPTY {
      assert keys[1] == StrippedKey(PreviousStripped(all[i]));
    }
  }

  lemma SeparateIsDistinct(all: seq<Entry>, a: nat, b: nat)
    requires a <= b <= |all| && Separate(all)
    ensures Distinct(all[a..b])
  {
    hide Identity;
    hide Stripped;
  }

  lemma BehindIsUnsent(all: seq<Entry>, a: nat, b: nat, sent: map<Key, int>, from: nat)
    requires a <= b <= |all| && Separate(all)
    requires forall q, x :: from <= q < |all| && x in FullKeys(all[q]) ==> x !in sent
    ensures forall j :: 0 <= j < b - a && a + j >= from ==> !Sent(all[a..b], sent, all[a..b][j])
  {
    hide FullKeys;
    hide Keys;
    forall j | 0 <= j < b - a && a + j >= from ensures !Sent(all[a..b], sent, all[a..b][j]) {
      WindowKeys(all, a, b, j);
    }
  }

  /** With nothing sent, what is pending in a window is what passes the filter. */
  lemma {:induction false} UnsentIsPassing(all: seq<Entry>, a: nat, b: nat, matches: Entry -> bool, sent: map<Key, int>, i: nat)
    requires a + i <= b <= |all|
    requires forall j :: i <= j < b - a ==> !Sent(all[a..b], sent, all[a..b][j])
    ensures Pending(all[a..b], matches, sent, i) == Passing(all, matches, a + i, b)
    decreases b - a - i
  {
    hide *;
    PendingUnfolds(all[a..b], matches, sent, i);
    PassingUnfolds(all, matches, a + i, b);
    if a + i < b {
      assert all[a..b][i] == all[a + i];
      UnsentIsPassing(all, a, b, matches, sent, i + 1);
    }
  }

  lemma PassingUnfolds(all: seq<Entry>, matches: Entry -> bool, i: nat, j: nat)
    requires i <= j <= |all|
    ensures i == j ==> Passing(all, matches, i, j) == []
    ensures i < j ==>
      Passing(all, matches, i, j) == (if matches(all[i]) then [all[i]] else []) + Passing(all, matches, i + 1, j)
  {
  }

  /** The scan of a window goes on from the watermark. */
  lemma ScansBehindTheMark(all: seq<Entry>, a: nat, b: nat, st: Status, w: nat, f: Feed, env: Env)
    requires a <= w < b <= |all| && Separate(all) && At(all, st.books, w)
    ensures var es := all[a..b];
      && Migrated(es, st.books) == st.books && ScanStart(es, st.books, env.catchUp, st.initialized) == w - a + 1
      && Begun(es, st, env.catchUp) == st && !BacklogPanics(st, es, f, env)
  {
    hide *;
    var es := all[a..b];
    assert es[w - a] == all[w];
    AtIsThere(all, st.books, w);
    NothingToMigrate(all, a, b, st.books, w);
    SeparateIsDistinct(all, a, b);
    ResumesBehind(es, w - a);
    FoundSkipsNothing(es, st, w - a, f, env);
  }

  lemma FoundSkipsNothing(es: seq<Entry>, st: Status, i: nat, f: Feed, env: Env)
    requires i < |es| && Migrated(es, st.books) == st.books && Resume(es, st.books.mark) == Found(i)
    ensures ScanStart(es, st.books, env.catchUp, st.initialized) == i + 1
    ensures Begun(es, st, env.catchUp) == st && !BacklogPanics(st, es, f, env)
  {
    hide Resume;
    hide Migrated;
  }

  /** One scan of a window: what it handles is what passes the filter between the old watermark and
      the new. */
  lemma ScanSlides(all: seq<Entry>, a: nat, b: nat, st: Status, w: nat, f: Feed, env: Env, max: nat) returns (w': nat)
    requires a <= w < b <= |all| && Separate(all) && At(all, st.books, w)
    ensures var d := Scanned(st, all[a..b], f, env);
      && w <= w' < b && At(all, LeftBooks(d, env.order, max), w')
      && Entries(d.handled) == Passing(all, f.matches, w + 1, w' + 1)
      && (d.end.Done? && !d.end.verdict.pending ==> Passing(all, f.matches, w' + 1, b) == [])
  {
    hide *;
    var es, d := all[a..b], Scanned(st, all[a..b], f, env);
    ScansBehindTheMark(all, a, b, st, w, f, env);
    SeparateIsDistinct(all, a, b);
    AtIsThere(all, st.books, w);
    var next := ScanIsALoop(es, st, f, env);
    AdvancedInWindow(all, a, b, st, w, f, d, next);
    w' := a + next - 1;
    HandlesThePassing(all, a, b, st, w, f, d, next);
    StaysAt(all, a, b, st.books, w, d, next, env.order, max);
  }

  /** Where the scan left the watermark. */
  lemma AdvancedInWindow(all: seq<Entry>, a: nat, b: nat, st: Status, w: nat, f: Feed, d: Delivered, next: nat)
    requires a <= w < b <= |all| && st.books.mark == Clamp(Identity(all[w]))
    requires Advanced(all[a..b], f, st, w - a + 1, d, next)
    ensures w < a + next <= b && d.st.books.mark == Clamp(Identity(all[a + next - 1]))
    ensures Grown(all[a..b], st.books.sent, d.st.books.sent, next)
  {
    hide Sent;
    hide Pending;
    hide Grown;
    hide Clamp;
    hide Identity;
    if d.handled != [] {
      assert all[a..b][next - 1] == all[a + next - 1];
    }
  }

  lemma HandlesThePassing(all: seq<Entry>, a: nat, b: nat, st: Status, w: nat, f: Feed, d: Delivered, next: nat)
    requires a <= w < b <= |all| && w < a + next <= b && Separate(all) && At(all, st.books, w)
    requires Advanced(all[a..b], f, st, w - a + 1, d, next)
    ensures Entries(d.handled) == Passing(all, f.matches, w + 1, a + next)
    ensures d.end.Done? && !d.end.verdict.pending ==> Passing(all, f.matches, a + next, b) == []
  {
    hide Sent;
    hide Pending;
    hide Passing;
    hide Grown;
    hide Clamp;
    hide Identity;
    hide Separate;
    hide Forgotten;
    hide FullKeys;
    hide Entries;
    BehindIsUnsent(all, a, b, st.books.sent, w + 1);
    UnsentIsPassing(all, a, b, f.matches, st.books.sent, w - a + 1);
    UnsentIsPassing(all, a, b, f.matches, d.st.books.sent, next);
    PassingSplits(all, f.matches, w + 1, a + next, b);
    SameFront(Entries(d.handled), Passing(all, f.matches, w + 1, a + next), Passing(all, f.matches, a + next, b));
  }

  lemma SameFront(x: seq<Entry>, y: seq<Entry>, rest: seq<Entry>)
    requires x + rest == y + rest
    ensures x == y
  {
    assert |x| == |y|;
    assert x == (x + rest)[..|x|] && y == (y + rest)[..|y|];
  }

  /** The books left have the watermark at the last handled entry and nothing recorded behind it. */
  lemma StaysAt(all: seq<Entry>, a: nat, b: nat, before: Books, w: nat, d: Delivered, next: nat, order: Order, max: nat)
    requires a <= w < a + next <= b <= |all| && Separate(all) && At(all, before, w)
    requires d.st.books.mark == Clamp(Identity(all[a + next - 1]))
    requires Grown(all[a..b], before.sent, d.st.books.sent, next)
    ensures At(all, LeftBooks(d, order, max), a + next - 1)
  {
    hide *;
    PrunedKeepsTheNewest(order, d.st.books.sent, max);
    AtIsThere(all, before, w);
    RecordedInFront(all, a, b, before.sent, d.st.books.sent, next);
    StaysUnrecorded(all, before, w, d.st.books.sent, LeftBooks(d, order, max), a + next - 1) by {
      LeftIsFewer(d, order, max);
      MarkIsLeft(d, order, max);
    }
  }

  lemma LeftIsFewer(d: Delivered, order: Order, max: nat)
    ensures forall k :: k in LeftBooks(d, order, max).sent ==> k in d.st.books.sent
  {
    PrunedKeepsTheNewest(order, d.st.books.sent, max);
  }

  lemma MarkIsLeft(d: Delivered, order: Order, max: nat)
    ensures LeftBooks(d, order, max).mark == d.st.books.mark
  {
  }

  /** What the scan of a window added is recorded under full keys of entries in front of its end. */
  ghost predicate AddedInFront(all: seq<Entry>, before: map<Key, int>, after: map<Key, int>, end: nat)
    requires end <= |all|
  {
    forall x :: x in after && x !in before ==> exists j :: 0 <= j < end && x in FullKeys(all[j])
  }

  lemma RecordedInFront(all: seq<Entry>, a: nat, b: nat, before: map<Key, int>, after: map<Key, int>, next: nat)
    requires a + next <= b <= |all| && Separate(all) && Grown(all[a..b], before, after, next)
    ensures AddedInFront(all, before, after, a + next)
  {
    hide FullKeys;
    hide Keys;
    hide Separate;
    var es := all[a..b];
    forall x | x in after && x !in before ensures exists j :: 0 <= j < a + next && x in FullKeys(all[j]) {
      var j :| 0 <= j < next && x in Keys(es, es[j]);
      WindowKeys(all, a, b, j);
      assert es[j] == all[a + j];
    }
  }

  lemma StaysUnrecorded(all: seq<Entry>, before: Books, w: nat, after: map<Key, int>, left: Books, w': nat)
    requires w <= w' < |all| && Separate(all) && At(all, before, w) && AddedInFront(all, before.sent, after, w' + 1)
    requires left.mark == Clamp(Identity(all[w'])) && forall k :: k in left.sent ==> k in after
    ensures At(all, left, w')
  {
    hide FullKeys;
    hide Clamp;
    hide Identity;
    hide PreviousKeys;
    hide Separate;
    forall q, x | w' < q < |all| && x in FullKeys(all[q]) ensures x !in after {
      if x in after && x !in before.sent {
        var j :| 0 <= j < w' + 1 && x in FullKeys(all[j]);
        FullKeysAreApart(all, q, j, x);
      }
    }
    StaysForgotten(all, before.sent, after, left.sent, w' + 1);
    hide Forgotten;
    hide AddedInFront;
  }

  lemma StaysForgotten(all: seq<Entry>, before: map<Key, int>, after: map<Key, int>, left: map<Key, int>, end: nat)
    requires end <= |all| && Forgotten(all, before) && AddedInFront(all, before, after, end)
    requires forall k :: k in left ==> k in after
    ensures Forgotten(all, left)
  {
    hide FullKeys;
    hide PreviousKeys;
    forall i, x | 0 <= i < |all| && x in PreviousKeys(all[i])
      ensures x !in left && forall k :: 0 <= k < |all| ==> x !in FullKeys(all[k])
    {
      assert x !in before && forall k :: 0 <= k < |all| ==> x !in FullKeys(all[k]);
    }
  }

  /** A run over the sliding feed: each usable document is a window of the list that shows the entry
      the watermark is at then. */
  ghost predicate Slides(all: seq<Entry>, matches: Entry -> bool, st: Status, syncs: seq<Sync>, windows: seq<(nat, nat)>)
    requires |windows| == |syncs|
  {
    forall k :: 0 <= k < |syncs| && UsableDocument(syncs[k].input) ==>
      && syncs[k].input.feed.matches == matches
      && ShowsTheMark(all, RunSyncs(st, syncs[..k]).st.books.mark, syncs[k].input.fetch.entries, windows[k].0, windows[k].1)
  }

  ghost predicate ShowsTheMark(all: seq<Entry>, mark: Mark, entries: seq<Entry>, a: nat, b: nat) {
    && a <= b <= |all| && Sorted(entries) == all[a..b]
    && exists j :: a <= j < b && mark == Clamp(Identity(all[j]))
  }

  lemma MarkIsAt(all: seq<Entry>, w: nat, j: nat)
    requires w < |all| && j < |all| && Separate(all) && Clamp(Identity(all[w])) == Clamp(Identity(all[j]))
    ensures w == j
  {
    hide Identity;
    hide Stripped;
  }

  lemma SyncSlides(all: seq<Entry>, st: Status, s: Sync, w: nat, a: nat, b: nat) returns (w': nat)
    requires UsableDocument(s.input) && Separate(all) && At(all, st.books, w)
    requires ShowsTheMark(all, st.books.mark, s.input.fetch.entries, a, b)
    ensures w <= w' < b && At(all, Processed(st, s.input, s.env).books, w')
    ensures Entries(Apply(st, s.input, s.env).handled) == Passing(all, s.input.feed.matches, w + 1, w' + 1)
    ensures AccountedFor(Apply(st, s.input, s.env).ending) ==> Passing(all, s.input.feed.matches, w' + 1, b) == []
  {
    hide Scanned;
    hide Processed;
    hide Apply;
    hide At;
    hide Clamp;
    hide Identity;
    hide Separate;
    hide Sorted;
    hide LeftBooks;
    var j :| a <= j < b && st.books.mark == Clamp(Identity(all[j]));
    AtIsThere(all, st.books, w);
    MarkIsAt(all, w, j);
    var fetched := Recorded(st, FetchDone, s.env);
    UsableSync(st, s);
    var d := Scanned(fetched, all[a..b], s.input.feed, s.env);
    w' := ScanSlides(all, a, b, fetched, w, s.input.feed, s.env, KeysLeftBy(s.input, d.end));
    if d.end.Panicked? && d.handled == [] {
      w' := w;
      assert Entries([]) == [];
    }
  }

  lemma AtIsThere(all: seq<Entry>, b: Books, w: nat)
    requires At(all, b, w)
    ensures w < |all| && b.mark == Clamp(Identity(all[w]))
  {
  }

  lemma {:induction false} RunSlides(all: seq<Entry>, matches: Entry -> bool, st: Status, syncs: seq<Sync>,
                                     windows: seq<(nat, nat)>, w: nat) returns (w': nat)
    requires |windows| == |syncs| && Separate(all) && At(all, st.books, w) && Slides(all, matches, st, syncs, windows)
    ensures w <= w' < |all| && At(all, RunSyncs(st, syncs).st.books, w')
    ensures Entries(RunSyncs(st, syncs).handled) == Passing(all, matches, w + 1, w' + 1)
    ensures syncs != [] && AccountedForAt(st, syncs, |syncs| - 1) ==>
      w' < windows[|syncs| - 1].1 <= |all| && Passing(all, matches, w' + 1, windows[|syncs| - 1].1) == []
  {
    hide RunSyncs;
    hide Processed;
    hide Apply;
    hide At;
    hide Separate;
    hide Passing;
    hide Entries;
    hide ShowsTheMark;
    RunUnfolds(st, syncs);
    AtIsThere(all, st.books, w);
    if syncs == [] {
      w' := w;
      NoneYet(all, matches, w);
      return;
    }
    var n := |syncs| - 1;
    var front, last, so := syncs[..n], syncs[n], RunSyncs(st, syncs[..n]);
    forall k | 0 <= k < n ensures front[..k] == syncs[..k] && front[k] == syncs[k] {}
    var w1 := RunSlides(all, matches, st, front, windows[..n], w);
    EntriesAppend(so.handled, Apply(so.st, last.input, last.env).handled);
    if UsableDocument(last.input) {
      w' := SyncSlides(all, so.st, last, w1, windows[n].0, windows[n].1);
      WindowIsInside(all, so.st.books.mark, last.input.fetch.entries, windows[n].0, windows[n].1);
      PassingSplits(all, matches, w + 1, w1 + 1, w' + 1);
    } else {
      w' := w1;
      QuietSync(so.st, last);
      NoneYet(all, matches, w);
      assert Entries(so.handled) + [] == Entries(so.handled);
    }
  }

  lemma WindowIsInside(all: seq<Entry>, mark: Mark, entries: seq<Entry>, a: nat, b: nat)
    requires ShowsTheMark(all, mark, entries, a, b)
    ensures b <= |all|
  {
  }

  lemma NoneYet(all: seq<Entry>, matches: Entry -> bool, w: nat)
    requires w < |all|
    ensures Passing(all, matches, w + 1, w + 1) == [] && Entries([]) == []
  {
  }

  lemma {:induction false} PassingIsDistinct(all: seq<Entry>, matches: Entry -> bool, i: nat, j: nat)
    requires i <= j <= |all| && Separate(all)
    ensures Distinct(Passing(all, matches, i, j)) && ComesFrom(all, i, Passing(all, matches, i, j))
    decreases j - i
  {
    hide Distinct;
    hide ComesFrom;
    SeparateIsDistinct(all, 0, |all|);
    assert all[0..|all|] == all;
    if i == j {
      NoneComes(all, i);
    } else {
      PassingIsDistinct(all, matches, i + 1, j);
      DistinctFrom(all, i, Passing(all, matches, i + 1, j));
      assert [] + Passing(all, matches, i + 1, j) == Passing(all, matches, i + 1, j);
    }
  }

  lemma NoneComes(all: seq<Entry>, i: nat)
    ensures Distinct([]) && ComesFrom(all, i, [])
  {
  }

  /** Nothing is lost and nothing sent twice along a sliding feed. Over any run of syncs, with
      arbitrary failures and panics, the handled entries are a prefix of all entries behind the first
      watermark that pass the filter, each once and in order; and when the last sync accounts for its
      document, they are all of them up to the newest entry of that document. */
  lemma SlidingFeedLosesNothing(all: seq<Entry>, matches: Entry -> bool, st: Status, syncs: seq<Sync>,
                                windows: seq<(nat, nat)>, w: nat)
    requires |windows| == |syncs| && Separate(all) && At(all, st.books, w) && Slides(all, matches, st, syncs, windows)
    ensures w < |all| && var handled := Entries(RunSyncs(st, syncs).handled);
      && handled <= Passing(all, matches, w + 1, |all|) && Distinct(handled)
      && (syncs != [] && AccountedForAt(st, syncs, |syncs| - 1) ==>
            var newest := windows[|syncs| - 1].1; w < newest <= |all| && handled == Passing(all, matches, w + 1, newest))
  {
    hide *;
    var w' := RunSlides(all, matches, st, syncs, windows, w);
    PassingSplits(all, matches, w + 1, w' + 1, |all|);
    PassingIsDistinct(all, matches, w + 1, w' + 1);
    if syncs != [] && AccountedForAt(st, syncs, |syncs| - 1) {
      PassingSplits(all, matches, w + 1, w' + 1, windows[|syncs| - 1].1);
    }
  }
}
