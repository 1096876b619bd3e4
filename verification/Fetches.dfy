/** A feed's fetch, and the order its entries are applied in. */
module Fetches {
  import opened Identities
  import opened Statuses
  import opened Deliveries

  datatype Fetch =
    | FetchError(permanent: bool, at: int)
    | NotModified(seen: Validators)
    | Document(entries: seq<Entry>, seen: Validators)

  /** newFeedRenderer: whether the feed's filter and templates compile. After that, begin can panic
      once it carried over some entries. */
  datatype Config = Usable | Broken | ConfigPanics | BeginPanics(carried: nat)

  /** Whether pruning at the end of a sync completes, or panics with this many keys left. */
  datatype PruneReach = PrunesAll | PrunePanics(left: nat)

  datatype Input = Input(fetch: Fetch, config: Config, feed: Feed, prune: PruneReach)

  /** d is applied before e: older first, and among equal times the one later in the document. */
  predicate Precedes(d: Entry, e: Entry) {
    d.content.published < e.content.published
    || (d.content.published == e.content.published && d.seqNo > e.seqNo)
  }

  function Insert(e: Entry, es: seq<Entry>): (r: seq<Entry>)
    ensures |r| == |es| + 1
    ensures forall d :: d in r <==> d == e || d in es
  {
    if es == [] || !Precedes(es[0], e) then [e] + es else [es[0]] + Insert(e, es[1..])
  }

  /** The stable sort of a fetch, oldest to newest. */
  function Sorted(es: seq<Entry>): (r: seq<Entry>)
    ensures |r| == |es|
    ensures forall d :: d in r <==> d in es
  {
    if es == [] then [] else Insert(es[0], Sorted(es[1..]))
  }

  ghost predicate Ordered(es: seq<Entry>) {
    forall i, j :: 0 <= i < j < |es| ==> !Precedes(es[j], es[i])
  }

  lemma {:induction false} InsertKeepsAll(e: Entry, es: seq<Entry>)
    ensures multiset(Insert(e, es)) == multiset(es) + multiset{e}
  {
    if es != [] && Precedes(es[0], e) {
      InsertKeepsAll(e, es[1..]);
      assert es == [es[0]] + es[1..];
    }
  }

  lemma {:induction false} InsertKeepsOrder(e: Entry, es: seq<Entry>)
    requires Ordered(es)
    ensures Ordered(Insert(e, es))
  {
    if es != [] && Precedes(es[0], e) {
      InsertKeepsOrder(e, es[1..]);
      var tail := Insert(e, es[1..]);
      forall j | 0 <= j < |tail| ensures !Precedes(tail[j], es[0]) {
        assert tail[j] == e || tail[j] in es[1..];
      }
    } else {
      forall j | 0 <= j < |es| ensures !Precedes(es[j], e) {
        if j > 0 { assert !Precedes(es[j], es[0]); }
      }
    }
  }

  /** Sorting keeps every entry, and orders them oldest to newest; of entries with equal dates, those
      without one included, the one listed later in the document comes first. */
  lemma {:induction false} SortedIsOrdered(es: seq<Entry>)
    ensures multiset(Sorted(es)) == multiset(es) && Ordered(Sorted(es))
    ensures var sorted := Sorted(es);
      forall i, j :: 0 <= i < j < |sorted| ==>
        && sorted[i].content.published <= sorted[j].content.published
        && (sorted[i].content.published == sorted[j].content.published ==> sorted[i].seqNo >= sorted[j].seqNo)
  {
    if es != [] {
      SortedIsOrdered(es[1..]);
      InsertKeepsOrder(es[0], Sorted(es[1..]));
      InsertKeepsAll(es[0], Sorted(es[1..]));
      assert es == [es[0]] + es[1..];
    }
  }

  /** The entries of es with this date and position in the document, in order. */
  function Ties(es: seq<Entry>, published: int, seqNo: nat): seq<Entry> {
    if es == [] then []
    else (if es[0].content.published == published && es[0].seqNo == seqNo then [es[0]] else [])
         + Ties(es[1..], published, seqNo)
  }

  lemma {:induction false} InsertKeepsTies(e: Entry, es: seq<Entry>, published: int, seqNo: nat)
    ensures Ties(Insert(e, es), published, seqNo) == Ties([e] + es, published, seqNo)
  {
    assert ([e] + es)[1..] == es;
    if es != [] && Precedes(es[0], e) {
      InsertKeepsTies(e, es[1..], published, seqNo);
      assert ([e] + es[1..])[1..] == es[1..];
      assert Insert(e, es)[1..] == Insert(e, es[1..]);
    }
  }

  /** Sorting is stable: entries it cannot tell apart keep their order. */
  lemma {:induction false} SortedIsStable(es: seq<Entry>, published: int, seqNo: nat)
    ensures Ties(Sorted(es), published, seqNo) == Ties(es, published, seqNo)
  {
    if es != [] {
      SortedIsStable(es[1..], published, seqNo);
      InsertKeepsTies(es[0], Sorted(es[1..]), published, seqNo);
      assert ([es[0]] + Sorted(es[1..]))[1..] == Sorted(es[1..]);
    }
  }

  ghost predicate Distinct(es: seq<Entry>) {
    forall i, j :: 0 <= i < j < |es| ==> Identity(es[i]) != Identity(es[j])
  }

  lemma {:induction false} InsertKeepsDistinct(e: Entry, es: seq<Entry>)
    requires Distinct(es) && forall d :: d in es ==> Identity(d) != Identity(e)
    ensures Distinct(Insert(e, es))
  {
    if es != [] && Precedes(es[0], e) {
      InsertKeepsDistinct(e, es[1..]);
      var tail := Insert(e, es[1..]);
      forall j | 0 <= j < |tail| ensures Identity(es[0]) != Identity(tail[j]) {
        assert tail[j] == e || tail[j] in es[1..];
      }
    }
  }

  lemma {:induction false} SortedKeepsDistinct(es: seq<Entry>)
    requires Distinct(es)
    ensures Distinct(Sorted(es))
  {
    if es != [] {
      SortedKeepsDistinct(es[1..]);
      InsertKeepsDistinct(es[0], Sorted(es[1..]));
    }
  }
}
