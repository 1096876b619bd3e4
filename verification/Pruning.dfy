/** pruneLastSent: the dedup map keeps its max newest keys. order stands for the order of the
    keys' hex digests, which breaks ties between equal send times. */
module Pruning {
  import opened Basics
  import opened Identities
  import opened Statuses

  type Order = Key -> int

  ghost predicate Injective(order: Order) {
    forall j, k :: order(j) == order(k) ==> j == k
  }

  predicate Before(order: Order, m: map<Key, int>, j: Key, k: Key)
    requires j in m && k in m
  {
    m[j] < m[k] || (m[j] == m[k] && order(j) < order(k))
  }

  function Size(m: map<Key, int>): nat { |m| }

  ghost predicate IsOldest(order: Order, m: map<Key, int>, k: Key) {
    k in m && forall j :: j in m ==> !Before(order, m, j, k)
  }

  lemma OldestExists(order: Order, m: map<Key, int>)
    requires m != map[]
    ensures exists k :: IsOldest(order, m, k)
    decreases |m|
  {
    var first :| first in m;
    var rest := m - {first};
    assert rest.Keys == m.Keys - {first};
    if rest.Keys == {} {
      assert forall j :: j in m && j != first ==> j in rest.Keys;
      assert IsOldest(order, m, first);
    } else {
      OldestExists(order, rest);
      var other :| IsOldest(order, rest, other);
      var oldest := if Before(order, m, other, first) then other else first;
      forall j | j in m ensures !Before(order, m, j, oldest) {
        assert j == first || !Before(order, rest, j, other);
      }
      assert IsOldest(order, m, oldest);
    }
  }

  ghost function OldestOf(order: Order, m: map<Key, int>): (k: Key)
    requires m != map[]
    ensures IsOldest(order, m, k)
  {
    OldestExists(order, m);
    var k :| IsOldest(order, m, k);
    k
  }

  /** Drops the oldest key while there are more than max. */
  ghost function Pruned(order: Order, m: map<Key, int>, max: nat): map<Key, int>
    decreases |m|
  {
    if |m| <= max then m
    else
      var k := OldestOf(order, m);
      assert (m - {k}).Keys == m.Keys - {k};
      Pruned(order, m - {k}, max)
  }

  /** The cap holds, nothing is invented, and nothing dropped is newer than anything kept. */
  lemma {:induction false} PrunedKeepsTheNewest(order: Order, m: map<Key, int>, max: nat)
    ensures var kept := Pruned(order, m, max);
      && |kept| == (if |m| <= max then |m| else max)
      && (forall k :: k in kept ==> k in m && kept[k] == m[k])
      && (forall k, d :: k in kept && d in m && d !in kept ==> !Before(order, m, k, d))
    decreases |m|
  {
    if |m| > max {
      var oldest := OldestOf(order, m);
      var rest := m - {oldest};
      assert rest.Keys == m.Keys - {oldest};
      PrunedKeepsTheNewest(order, rest, max);
      var kept := Pruned(order, m, max);
      forall k, d | k in kept && d in m && d !in kept ensures !Before(order, m, k, d) {
        assert d == oldest || !Before(order, rest, k, d);
      }
    }
  }

  /** The keys that are not older than k, itself included. */
  function NotOlder(order: Order, m: map<Key, int>, k: Key): set<Key>
    requires k in m
  {
    set j | j in m && !Before(order, m, j, k)
  }

  /** A key is kept exactly when no more keys than the cap are not older. */
  lemma KeptIffFewNotOlder(order: Order, m: map<Key, int>, max: nat, k: Key)
    requires Injective(order) && k in m
    ensures k in Pruned(order, m, max) <==> |NotOlder(order, m, k)| <= max
  {
    var kept, newer := Pruned(order, m, max), NotOlder(order, m, k);
    PrunedKeepsTheNewest(order, m, max);
    if k in kept {
      forall j | j in newer ensures j in kept.Keys {
        assert j == k || Before(order, m, k, j);
      }
      SubsetSize(newer, kept.Keys);
    } else {
      PruneIsFull(order, m, max, k);
      assert kept.Keys + {k} <= newer;
      SubsetSize(kept.Keys + {k}, newer);
      assert |kept.Keys + {k}| == max + 1;
    }
  }

  /** The keys of b that a does not record at that time. */
  function Changed(a: map<Key, int>, b: map<Key, int>): set<Key> {
    set k | k in b && !(k in a && a[k] == b[k])
  }

  lemma ChangedFurther(a: map<Key, int>, b: map<Key, int>, c: map<Key, int>)
    ensures |Changed(a, c)| <= |Changed(a, b)| + |Changed(b, c)|
  {
    SubsetSize(Changed(a, c), Changed(a, b) + Changed(b, c));
  }

  lemma ChangedByFewer(a: map<Key, int>, b: map<Key, int>, c: map<Key, int>)
    requires forall k :: k in c ==> k in b && b[k] == c[k]
    ensures |Changed(a, c)| <= |Changed(a, b)|
  {
    SubsetSize(Changed(a, c), Changed(a, b));
  }

  /** Only changed keys can come to be newer than one that did not change. */
  lemma RankGrows(order: Order, a: map<Key, int>, b: map<Key, int>, k: Key)
    requires k in a && k in b && a[k] == b[k]
    ensures |NotOlder(order, b, k)| <= |NotOlder(order, a, k)| + |Changed(a, b)|
  {
    SubsetSize(NotOlder(order, b, k), NotOlder(order, a, k) + Changed(a, b));
  }

  /** Keys recorded later than all others come before them all. */
  lemma RankBehindNewer(order: Order, m: map<Key, int>, added: set<Key>, now: int, k: Key)
    requires k in m && added !! m.Keys && forall j :: j in m ==> m[j] < now
    ensures |NotOlder(order, m + Stamps(added, now), k)| == |NotOlder(order, m, k)| + |added|
  {
    assert NotOlder(order, m + Stamps(added, now), k) == NotOlder(order, m, k) + added;
  }

  function Stamps(keys: set<Key>, now: int): map<Key, int> {
    map k | k in keys :: now
  }

  lemma StampsFurther(m: map<Key, int>, x: set<Key>, y: set<Key>, now: int)
    requires x !! m.Keys && y !! (m + Stamps(x, now)).Keys
    ensures m + Stamps(x, now) + Stamps(y, now) == m + Stamps(x + y, now)
    ensures (x + y) !! m.Keys && |x + y| == |x| + |y|
  {
    assert forall k :: k in x ==> k in m + Stamps(x, now);
    DisjointSize(x, y);
    StampsJoin(m, x, y, now);
  }

  lemma DisjointSize(x: set<Key>, y: set<Key>)
    requires x !! y
    ensures |x + y| == |x| + |y|
  {
  }

  lemma StampsJoin(m: map<Key, int>, x: set<Key>, y: set<Key>, now: int)
    ensures m + Stamps(x, now) + Stamps(y, now) == m + Stamps(x + y, now)
  {
  }

  /** Pruning drops none of the newest keys when those recorded last are no more than it leaves. */
  lemma NewestAreKept(order: Order, m: map<Key, int>, max: nat, newest: set<Key>, now: int)
    requires forall k :: k in m ==> m[k] < now || (m[k] == now && k in newest)
    requires |newest| <= max
    ensures forall k :: k in m && m[k] == now ==> k in Pruned(order, m, max)
  {
    var kept := Pruned(order, m, max);
    PrunedKeepsTheNewest(order, m, max);
    forall k | k in m && m[k] == now ensures k in kept {
      if k !in kept {
        assert forall x :: x in kept ==> !Before(order, m, x, k);
        PruneIsFull(order, m, max, k);
        assert |kept.Keys + {k}| == max + 1;
        SubsetSize(kept.Keys + {k}, newest);
      }
    }
  }

  lemma PruneIsFull(order: Order, m: map<Key, int>, max: nat, dropped: Key)
    requires dropped in m && dropped !in Pruned(order, m, max)
    ensures |Pruned(order, m, max)| == max
  {
    PrunedKeepsTheNewest(order, m, max);
  }

  method Oldest(order: Order, m: map<Key, int>) returns (oldest: Key)
    requires m != map[]
    ensures IsOldest(order, m, oldest)
  {
    oldest :| oldest in m;
    var left := m.Keys - {oldest};
    while left != {}
      invariant left <= m.Keys && oldest in m && oldest !in left
      invariant forall k :: k in m && k !in left ==> !Before(order, m, k, oldest)
      decreases |left|
    {
      var k :| k in left;
      if Before(order, m, k, oldest) {
        oldest := k;
      }
      left := left - {k};
    }
  }

  lemma OnlyOneOldest(order: Order, m: map<Key, int>, j: Key, k: Key)
    requires Injective(order) && IsOldest(order, m, j) && IsOldest(order, m, k)
    ensures j == k
  {
    assert !Before(order, m, j, k) && !Before(order, m, k, j);
    assert order(j) == order(k);
  }

  /** Deletes the oldest keys, in place. The source sorts the keys once and deletes a prefix of
      the sorted list; each key of that prefix is the oldest one left when it is deleted. */
  method PruneLastSent(fs: FeedStatus, order: Order, max: nat)
    requires Injective(order)
    modifies fs`LastSent
    ensures fs.LastSent == Pruned(order, old(fs.LastSent), max)
  {
    while |fs.LastSent| > max
      invariant Pruned(order, fs.LastSent, max) == Pruned(order, old(fs.LastSent), max)
      decreases |fs.LastSent|
    {
      ghost var before := fs.LastSent;
      var k := Oldest(order, fs.LastSent);
      OnlyOneOldest(order, before, k, OldestOf(order, before));
      fs.LastSent := fs.LastSent - {k};
      assert fs.LastSent.Keys == before.Keys - {k};
    }
  }
}
