/** What a pass of the migration does to the entries of the fetch that are still to be delivered,
    after other entries of the same fetch were handled. */
module Handovers {
  import opened Identities
  import opened Statuses
  import opened Ledgers
  import opened Migrations
  import opened KeyMoves
  import opened Pruning
  import opened Fetches

  /** The moves hand no record of an entry of the fetch on to a later one. */
  predicate HandsNothingOn(es: seq<Entry>) {
    forall k, p :: 0 <= k < p < |es| && Unique(es, es[k]) != EMPTY && Unique(es, es[p]) != EMPTY ==>
      Follow(Moves(es), StrippedKey(Unique(es, es[k]))) != StrippedKey(Unique(es, es[p]))
  }

  /** Handling entries of the fetch, in order, disturbs none of the later ones when the migration
      runs again. */
  predicate Undisturbing(es: seq<Entry>) {
    ComeToRest(Moves(es)) && HandsNothingOn(es)
  }

  lemma {:induction false} MoveIsAnEntrys(es: seq<Entry>, n: nat, j: nat) returns (i: nat)
    requires n <= |es| && j < |MovesTo(es, n)|
    ensures i < n && CarriesOver(es, i) && MovesTo(es, n)[j] in MovesAt(es, i)
  {
    hide MovesAt;
    if j < |MovesTo(es, n - 1)| {
      i := MoveIsAnEntrys(es, n - 1, j);
    } else {
      i := n - 1;
      MovesOfACarriedOver(es, i);
    }
  }

  lemma MovesOfACarriedOver(es: seq<Entry>, i: nat)
    requires i < |es|
    ensures MovesAt(es, i) != [] ==> CarriesOver(es, i)
    ensures forall m :: m in MovesAt(es, i) ==>
      m.from == EntryKey(Previous(es[i])) ||
      (PreviousStripped(es[i]) != EMPTY && m.from == StrippedKey(PreviousStripped(es[i])) && m.to == StrippedTarget(es, i))
  {
  }

  /** The own key of an entry of the fetch is never moved. */
  lemma OwnKeyStays(es: seq<Entry>, q: nat)
    requires q < |es|
    ensures Follow(Moves(es), EntryKey(Identity(es[q]))) == EntryKey(Identity(es[q]))
  {
    var moves := Moves(es);
    forall j | 0 <= j < |moves| ensures moves[j].from != EntryKey(Identity(es[q])) {
      var i := MoveIsAnEntrys(es, |es|, j);
      MovesOfACarriedOver(es, i);
      CarriesOverFacts(es, i, q);
    }
    UnmovedKeysStay(moves, EntryKey(Identity(es[q])));
  }

  lemma {:induction false} FollowAppend(a: seq<Move>, b: seq<Move>, k: Key)
    ensures Follow(a + b, k) == Follow(b, Follow(a, k))
  {
    if b == [] {
      assert a + b == a;
    } else {
      assert (a + b)[..|a + b| - 1] == a + b[..|b| - 1];
      FollowAppend(a, b[..|b| - 1], k);
    }
  }

  /** A unique stripped key of the fetch, or none. */
  ghost predicate UniqueOrNone(es: seq<Entry>, k: Key) {
    k == NoKey || IsUniqueKey(es, k)
  }

  lemma OneEntrysMoves(es: seq<Entry>, i: nat, k: Key)
    requires i < |es| && UniqueOrNone(es, k)
    ensures UniqueOrNone(es, Follow(MovesAt(es, i), k))
  {
    var moves := MovesAt(es, i);
    if moves != [] {
      assert moves[..1] == [moves[0]] && [moves[0]][..0] == [];
      assert Follow([moves[0]], k) == k;
      if |moves| == 2 && k == moves[1].from {
        var r :| 0 <= r < |es| && Unique(es, es[r]) == k.stripped;
        CountNone(AsClaim, es, k.stripped);
        assert Stands(AsClaim, es[r], k.stripped);
        assert StrippedTarget(es, i) == NoKey || IsUniqueKey(es, StrippedTarget(es, i));
      }
    }
  }

  /** The moves lead a unique stripped key of the fetch to another one, or drop it. */
  lemma {:induction false} UniqueLeadsToUnique(es: seq<Entry>, n: nat, k: Key)
    requires n <= |es| && UniqueOrNone(es, k)
    ensures UniqueOrNone(es, Follow(MovesTo(es, n), k))
  {
    hide UniqueOrNone;
    hide MovesAt;
    hide Follow;
    if n == 0 {
      UnmovedKeysStay([], k);
    } else {
      UniqueLeadsToUnique(es, n - 1, k);
      OneEntrysMoves(es, n - 1, Follow(MovesTo(es, n - 1), k));
      FollowAppend(MovesTo(es, n - 1), MovesAt(es, n - 1), k);
    }
  }

  lemma UniqueStaysUnique(es: seq<Entry>, k: Key)
    requires IsUniqueKey(es, k)
    ensures UniqueOrNone(es, Follow(Moves(es), k))
  {
    UniqueLeadsToUnique(es, |es|, k);
  }

  /** The record of a handled entry is led to none of a later entry's keys. */
  lemma HandledLeadsBehind(es: seq<Entry>, h: nat, q: nat, x: Key)
    requires h < q < |es| && Distinct(es) && HandsNothingOn(es) && x in Keys(es, es[h])
    ensures Follow(Moves(es), x) !in Keys(es, es[q])
  {
    hide Moves;
    hide Follow;
    if x.EntryKey? {
      OwnKeyStays(es, h);
      SiblingsShareNoKey(es, h, q, x);
    } else {
      assert x == StrippedKey(Unique(es, es[h]));
      UniqueStaysUnique(es, x);
    }
  }

  /** Every recorded key was recorded before or belongs to one of the first n entries. */
  ghost predicate Grown(es: seq<Entry>, before: map<Key, int>, after: map<Key, int>, n: nat)
    requires n <= |es|
  {
    && (forall k :: k in before ==> k in after)
    && (forall k :: k in after && k !in before ==> exists j :: 0 <= j < n && k in Keys(es, es[j]))
  }

  /** Migrated books, grown by records of the first n entries and pruned: another pass of the
      migration changes nothing for the entries from n on. */
  lemma AheadIsUndisturbed(es: seq<Entry>, b: Books, after: map<Key, int>, left: Books, n: nat, q: nat)
    requires n <= q < |es| && Distinct(es) && Undisturbing(es)
    requires Grown(es, Migrated(es, b).sent, after, n) && forall k :: k in left.sent ==> k in after
    ensures Sent(es, Migrated(es, left).sent, es[q]) == Sent(es, left.sent, es[q])
  {
    hide ComeToRest;
    hide HandsNothingOn;
    hide Moves;
    hide Follow;
    hide Keys;
    hide MoveAll;
    hide Migrated;
    var moves, once := Moves(es), Migrated(es, left).sent;
    MigrationMoves(es, left);
    FollowedKeys(moves, left.sent);
    forall x | x in left.sent && (x in Keys(es, es[q]) || Follow(moves, x) in Keys(es, es[q]))
      ensures Follow(moves, x) == x && x in Keys(es, es[q]) && x in once
    {
      NoKeyIsNoOnes(es, q);
      LeadsNowhereAhead(es, b, after, n, q, x);
    }
    if k :| k in Keys(es, es[q]) && k in once {
      var x :| x in left.sent && Follow(moves, x) == k && left.sent[x] == once[k];
      assert x in Keys(es, es[q]);
    }
  }

  /** A key of an entry ahead keeps its record through the migration. */
  lemma AheadKeepsItsTime(es: seq<Entry>, b: Books, after: map<Key, int>, left: Books, n: nat, q: nat, x: Key)
    requires n <= q < |es| && Distinct(es) && Undisturbing(es)
    requires Grown(es, Migrated(es, b).sent, after, n) && forall k :: k in left.sent ==> k in after
    requires x in Keys(es, es[q]) && x in left.sent
    ensures x in Migrated(es, left).sent && Migrated(es, left).sent[x] == left.sent[x]
  {
    hide ComeToRest;
    hide HandsNothingOn;
    hide Moves;
    hide Follow;
    hide Keys;
    hide MoveAll;
    hide Migrated;
    var moves, once := Moves(es), Migrated(es, left).sent;
    MigrationMoves(es, left);
    FollowedKeys(moves, left.sent);
    LeadsNowhereAhead(es, b, after, n, q, x);
    NoKeyIsNoOnes(es, q);
    var k :| k in left.sent && Follow(moves, k) == x && left.sent[k] == once[x];
    LeadsNowhereAhead(es, b, after, n, q, k);
  }

  /** The migration of books grown from migrated ones changes no more of those than had changed. */
  lemma MigrationChangesNoMore(es: seq<Entry>, b: Books, left: Books)
    requires ComeToRest(Moves(es))
    ensures var m := Migrated(es, b).sent;
      |Changed(m, Migrated(es, left).sent)| <= |Changed(m, left.sent)|
  {
    hide ComeToRest;
    hide Moves;
    hide Follow;
    hide MoveAll;
    hide Migrated;
    var moves, m, once := Moves(es), Migrated(es, b).sent, Migrated(es, left).sent;
    MigrationMoves(es, left);
    FollowedKeys(moves, left.sent);
    forall x | x in Changed(m, once) ensures exists k :: k in Changed(m, left.sent) && Follow(moves, k) == x {
      var k :| k in left.sent && Follow(moves, k) == x && left.sent[k] == once[x];
      if k in m && m[k] == left.sent[k] {
        MigratedKeysRest(es, b, k);
      }
    }
    ImageSize(Changed(m, once), Changed(m, left.sent), k => Follow(moves, k));
  }

  lemma {:induction false} ImageSize(image: set<Key>, keys: set<Key>, f: Key -> Key)
    requires forall x :: x in image ==> exists k :: k in keys && f(k) == x
    ensures |image| <= |keys|
  {
    if image != {} {
      var x :| x in image;
      var k :| k in keys && f(k) == x;
      ImageSize(image - {x}, keys - {k}, f);
    }
  }

  lemma MigrationMoves(es: seq<Entry>, b: Books)
    ensures Migrated(es, b).sent == MoveAll(Moves(es), b.sent) && FromRecords(Moves(es))
  {
    MigratedMoves(es, b, |es|);
  }

  lemma NoKeyIsNoOnes(es: seq<Entry>, q: nat)
    requires q < |es|
    ensures NoKey !in Keys(es, es[q])
  {
  }

  lemma LeadsNowhereAhead(es: seq<Entry>, b: Books, after: map<Key, int>, n: nat, q: nat, x: Key)
    requires n <= q < |es| && Distinct(es) && Undisturbing(es)
    requires Grown(es, Migrated(es, b).sent, after, n) && x in after
    requires x in Keys(es, es[q]) || Follow(Moves(es), x) in Keys(es, es[q])
    ensures Follow(Moves(es), x) == x
  {
    hide ComeToRest;
    hide HandsNothingOn;
    hide Moves;
    hide Follow;
    hide Keys;
    hide Migrated;
    if x in Migrated(es, b).sent {
      MigratedKeysRest(es, b, x);
    } else {
      var h :| 0 <= h < n && x in Keys(es, es[h]);
      HandledLeadsBehind(es, h, q, x);
      SiblingsShareNoKey(es, h, q, x);
    }
  }

  lemma {:induction false} MovesShrink(moves: seq<Move>, sent: map<Key, int>)
    ensures Size(MoveAll(moves, sent)) <= Size(sent)
  {
    hide Size;
    hide MoveKey;
    if moves != [] {
      MovesShrink(moves[..|moves| - 1], sent);
      MoveShrinks(MoveAll(moves[..|moves| - 1], sent), moves[|moves| - 1].from, moves[|moves| - 1].to);
    }
  }

  lemma MoveShrinks(sent: map<Key, int>, from: Key, to: Key)
    ensures Size(MoveKey(sent, from, to)) <= Size(sent)
  {
    if from in sent {
      var rest := sent - {from};
      assert rest.Keys == sent.Keys - {from};
      assert rest[to := sent[from]].Keys == rest.Keys + {to};
    }
  }

  /** When no carried-over entry takes another entry's record, nothing is disturbed. */
  lemma NothingTakenIsUndisturbing(es: seq<Entry>)
    requires NothingTaken(es)
    ensures Undisturbing(es)
  {
    NothingTakenIsStronger(es);
    NoLaterOwnerComesToRest(es);
    forall k | 0 <= k < |es| && Unique(es, es[k]) != EMPTY
      ensures Follow(Moves(es), StrippedKey(Unique(es, es[k]))) == StrippedKey(Unique(es, es[k]))
    {
      UntakenStays(es, |es|, k);
    }
    forall k, p | 0 <= k < p < |es| && Unique(es, es[k]) != EMPTY ensures Unique(es, es[k]) != Unique(es, es[p]) {
      if Unique(es, es[k]) == Unique(es, es[p]) {
        UniqueIsNotShared(es, k, p);
      }
    }
  }

  lemma {:induction false} UntakenStays(es: seq<Entry>, n: nat, k: nat)
    requires n <= |es| && k < |es| && NothingTaken(es) && Unique(es, es[k]) != EMPTY
    ensures Follow(MovesTo(es, n), StrippedKey(Unique(es, es[k]))) == StrippedKey(Unique(es, es[k]))
  {
    hide MovesAt;
    hide Follow;
    hide Takes;
    hide Unique;
    hide NothingTaken;
    var key := StrippedKey(Unique(es, es[k]));
    if n == 0 {
      UnmovedKeysStay([], key);
    } else {
      UntakenStays(es, n - 1, k);
      FollowAppend(MovesTo(es, n - 1), MovesAt(es, n - 1), key);
      UntakenIsNotMoved(es, n - 1, k);
      FollowAt(MovesAt(es, n - 1), key);
    }
  }

  lemma UntakenIsNotMoved(es: seq<Entry>, i: nat, k: nat)
    requires i < |es| && k < |es| && NothingTaken(es) && Unique(es, es[k]) != EMPTY
    ensures var key := StrippedKey(Unique(es, es[k]));
      forall m :: m in MovesAt(es, i) ==> m.from != key || m.to == key
  {
    MovesOfACarriedOver(es, i);
    assert !Takes(es, i, k);
    hide Unique;
    hide MovesAt;
  }

  lemma {:induction false} FollowAt(moves: seq<Move>, k: Key)
    requires forall m :: m in moves ==> m.from != k || m.to == k
    ensures Follow(moves, k) == k
  {
    if moves != [] {
      FollowAt(moves[..|moves| - 1], k);
    }
  }
}
