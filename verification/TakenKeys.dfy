/** A document on which delivering each entry once fails: entry 0's link is what entry 1 was
    identified by before, so recording entry 0 as sent makes the next sync's migration hand that
    record on to entry 1. In the other order the same two entries do no harm. */
module TakenKeys {
  import opened Identities
  import opened Statuses
  import opened Ledgers
  import opened Migrations
  import opened KeyMoves
  import opened Handovers
  import opened Pruning
  import opened Deliveries
  import opened Fetches
  import opened Scans
  import opened FeedRuns
  import opened OnceOnly
  import opened Witnesses

  const KEPT := Entry(Link("/b", "1"), FromLink, EMPTY, FromGuid, NO_CONTENT, 1)
  const RELINKED := Relinked("/a", "/b", 0)

  /** Oldest first: the taker comes after the entry whose key it takes. */
  const TAKEN: seq<Entry> := [KEPT, RELINKED]

  const KEPT_LATER := KEPT.(seqNo := 0)
  const RELINKED_FIRST := Relinked("/a", "/b", 1)

  /** The taker comes first. */
  const HARMLESS: seq<Entry> := [RELINKED_FIRST, KEPT_LATER]

  lemma LinkedFacts(kept: Entry, relinked: Entry, es: seq<Entry>)
    requires kept == KEPT.(seqNo := kept.seqNo) && relinked == RELINKED.(seqNo := relinked.seqNo)
    requires es == [kept, relinked] || es == [relinked, kept]
    ensures Identity(kept) == Link("/b", "1") && Identity(relinked) == Link("/a", "1")
    ensures Unique(es, kept) == Link("/b", "") && Unique(es, relinked) == Link("/a", "")
    ensures !Moved(kept) && Moved(relinked)
    ensures Previous(relinked) == Link("/b", "0") && PreviousStripped(relinked) == Link("/b", "")
    ensures Count(AsPrevious, es, Link("/b", "0")) <= 1 && Count(AsIdentity, es, Link("/b", "0")) == 0
    ensures Count(AsIdentity, es, Link("/a", "1")) <= 1
  {
    LinkIdentities("/b", "1");
    RelinkedFacts("/a", "/b", relinked.seqNo);
    forall role, s { CountTwo(role, es[0], es[1], s); }
  }

  lemma SortedTwo(d: Entry, e: Entry)
    requires d.content == e.content && d.seqNo > e.seqNo
    ensures Sorted([d, e]) == [d, e]
  {
    assert [d, e][1..] == [e];
    assert [e][1..] == [];
    assert Sorted([e]) == [e];
  }

  /** The one pair of moves that either order makes. */
  lemma LinkedMoves(es: seq<Entry>)
    requires es == TAKEN || es == HARMLESS
    ensures Moves(es) == [Move(EntryKey(Link("/b", "0")), EntryKey(Link("/a", "1"))),
                          Move(StrippedKey(Link("/b", "")), StrippedKey(Link("/a", "")))]
  {
    if es == TAKEN {
      LinkedFacts(KEPT, RELINKED, es);
    } else {
      LinkedFacts(KEPT_LATER, RELINKED_FIRST, es);
    }
    assert MovesTo(es, 0) == [];
    assert MovesTo(es, 1) == MovesTo(es, 0) + MovesAt(es, 0);
    assert MovesTo(es, 2) == MovesTo(es, 1) + MovesAt(es, 1);
    hide Count;
    hide Identity;
    hide Link;
  }

  lemma FollowTwo(m: Move, n: Move, k: Key)
    requires m.to != n.from
    ensures Follow([m, n], k) == if k == m.from then m.to else if k == n.from then n.to else k
  {
    assert [m, n][..1] == [m] && [m][..0] == [];
    assert Follow([m], k) == if k == m.from then m.to else k;
  }

  lemma LinkedRest(es: seq<Entry>)
    requires es == TAKEN || es == HARMLESS
    ensures ComeToRest(Moves(es))
    ensures Follow(Moves(es), StrippedKey(Link("/b", ""))) == StrippedKey(Link("/a", ""))
    ensures Follow(Moves(es), StrippedKey(Link("/a", ""))) == StrippedKey(Link("/a", ""))
  {
    LinkedMoves(es);
    LinksDiffer();
    hide Follow;
    hide Moves;
    hide Link;
    var m, n := Moves(es)[0], Moves(es)[1];
    assert Moves(es) == [m, n];
    FollowTwo(m, n, m.from);
    FollowTwo(m, n, m.to);
    FollowTwo(m, n, n.from);
    FollowTwo(m, n, n.to);
  }

  lemma LinksDiffer()
    ensures Link("/b", "0") != Link("/a", "1") && Link("/a", "") != Link("/b", "") && Link("/b", "1") != Link("/a", "1")
    ensures Link("/b", "0") != Link("/b", "1")
  {
  }

  lemma TakenIsHandedOn()
    ensures Sorted(TAKEN) == TAKEN && Distinct(TAKEN) && HandsOn(TAKEN, 0, 1) && ComeToRest(Moves(TAKEN))
  {
    SortedTwo(KEPT, RELINKED);
    LinkedFacts(KEPT, RELINKED, TAKEN);
    LinkedRest(TAKEN);
    LinksDiffer();
    hide Follow;
    hide Moves;
    hide Count;
    hide Identity;
  }

  /** With Discord accepting entry 0 and rate limiting entry 1 in the first sync from a fresh status,
      entry 1 is to be delivered but no later sync of the document, whatever happens in it, does. */
  lemma SecondEntryIsNeverDelivered(syncs: seq<Sync>, order: Order)
    requires forall s :: s in syncs ==> OfDocument(s, TAKEN, OnlyFirst(TAKEN, 0, 1).matches, 2, s.env.order, true)
    ensures var f := OnlyFirst(TAKEN, 0, 1);
      && Todo(TAKEN, FRESH.books, false, 2, f.matches) == TAKEN
      && RunSyncs(FRESH, [SyncOf(TAKEN, f, 2, order)] + syncs).handled == [Handled(KEPT, false)]
  {
    TakenIsHandedOn();
    assert |TAKEN| == 2 && TAKEN[0] == KEPT && TAKEN[1] == RELINKED;
    hide *;
    HandedOnEntryIsNeverDelivered(TAKEN, 0, 1, syncs, order);
  }

  /** Of the same two entries in the other order, the first takes the second's key, and yet every run
      of syncs delivers both once and in order. */
  lemma TakingIsNotAlwaysHarmful(order: Order)
    requires Injective(order)
    ensures !NothingTaken(HARMLESS) && DeliversOnce(HARMLESS, order)
  {
    hide *;
    HarmlessIsTaken();
    HarmlessIsSorted();
    HarmlessIsUndisturbing();
    DeliversOnceIffUndisturbing(HARMLESS, order);
  }

  lemma HarmlessIsSorted()
    ensures HARMLESS != [] && Sorted(HARMLESS) == HARMLESS && Distinct(HARMLESS)
  {
    SortedTwo(RELINKED_FIRST, KEPT_LATER);
    LinkedFacts(KEPT_LATER, RELINKED_FIRST, HARMLESS);
    LinksDiffer();
    hide Sorted;
    hide Identity;
  }

  lemma HarmlessIsTaken()
    ensures !NothingTaken(HARMLESS)
  {
    LinkedFacts(KEPT_LATER, RELINKED_FIRST, HARMLESS);
    LinksDiffer();
    hide Count;
    hide Identity;
    hide Unique;
    hide Previous;
    hide PreviousStripped;
    hide Moved;
    assert Takes(HARMLESS, 0, 1);
  }

  lemma HarmlessIsUndisturbing()
    ensures Undisturbing(HARMLESS)
  {
    LinkedFacts(KEPT_LATER, RELINKED_FIRST, HARMLESS);
    LinkedRest(HARMLESS);
    LinksDiffer();
    hide Follow;
    hide Moves;
    hide ComeToRest;
    hide Count;
    hide Identity;
    hide Unique;
    hide Link;
  }
}
