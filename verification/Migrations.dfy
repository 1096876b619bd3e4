/** migratePreviousIdentities: stored identities are carried over, on every fetch, for the
    entries that older versions of the parser gave another ID. */
module Migrations {
  import opened Identities
  import opened Statuses
  import opened Ledgers

  function Step(es: seq<Entry>, b: Books, i: nat): Books
    requires i < |es|
  {
    if CarriesOver(es, i) then
      Books(if b.mark == Clamp(Previous(es[i])) then Clamp(Identity(es[i])) else b.mark, Rekey(es, b.sent, i))
    else b
  }

  /** The books once the first n entries have been carried over. */
  function MigratedTo(es: seq<Entry>, b: Books, n: nat): Books
    requires n <= |es|
  {
    if n == 0 then b else Step(es, MigratedTo(es, b, n - 1), n - 1)
  }

  function Migrated(es: seq<Entry>, b: Books): Books {
    MigratedTo(es, b, |es|)
  }

  method MigratePreviousIdentities(ledger: DeliveryLedger)
    requires ledger.Valid()
    modifies ledger.fs`LastSent, ledger.fs`LastSeenEntry
    ensures BooksOf(ledger.fs) == Migrated(ledger.entries, old(BooksOf(ledger.fs)))
  {
    CarryOverFirst(ledger, |ledger.entries|);
  }

  /** The migration loop, over the first n entries. */
  method CarryOverFirst(ledger: DeliveryLedger, n: nat)
    requires ledger.Valid() && n <= |ledger.entries|
    modifies ledger.fs`LastSent, ledger.fs`LastSeenEntry
    ensures BooksOf(ledger.fs) == MigratedTo(ledger.entries, old(BooksOf(ledger.fs)), n)
  {
    ghost var before := BooksOf(ledger.fs);
    var i := 0;
    while i < n
      invariant 0 <= i <= n
      invariant BooksOf(ledger.fs) == MigratedTo(ledger.entries, before, i)
    {
      CarryOver(ledger, i);
      i := i + 1;
    }
  }

  /** One turn of the migration loop. */
  method CarryOver(ledger: DeliveryLedger, i: nat)
    requires ledger.Valid() && i < |ledger.entries|
    modifies ledger.fs`LastSent, ledger.fs`LastSeenEntry
    ensures BooksOf(ledger.fs) == Step(ledger.entries, old(BooksOf(ledger.fs)), i)
  {
    if ledger.CarriesOverAt(i) {
      var moved := ledger.MoveWatermark(ledger.ids[i].previous, i);
      ledger.RekeySent(i);
    }
  }

  /** Carrying over entry i moves away the stripped key that records entry k. */
  predicate Takes(es: seq<Entry>, i: nat, k: nat)
    requires i < |es| && k < |es|
  {
    i != k && CarriesOver(es, i) && PreviousStripped(es[i]) != EMPTY && Unique(es, es[k]) == PreviousStripped(es[i])
  }

  /** No carried-over entry's previous stripped identity is another entry's unique one. */
  predicate NothingTaken(es: seq<Entry>) {
    forall i, k :: 0 <= i < |es| && 0 <= k < |es| ==> !Takes(es, i, k)
  }

  function Time(sent: map<Key, int>, k: Key): Stamp {
    if k in sent then At(sent[k]) else Empty
  }

  function Or(a: Stamp, b: Stamp): Stamp {
    if a == Empty then b else a
  }

  /** The send time left for entry i under its previous stripped identity, when no earlier
      carried-over entry took it first. */
  function Inheritance(es: seq<Entry>, sent: map<Key, int>, i: nat): Stamp
    requires i < |es|
  {
    if PreviousStripped(es[i]) == EMPTY
       || exists j :: 0 <= j < i && CarriesOver(es, j) && PreviousStripped(es[j]) == PreviousStripped(es[i])
    then Empty
    else Time(sent, StrippedKey(PreviousStripped(es[i])))
  }

  /** When entry i was sent under its own key, after the first n entries were carried over. */
  function OwnTime(es: seq<Entry>, sent: map<Key, int>, i: nat, n: nat): Stamp
    requires i < |es|
  {
    var own := Time(sent, EntryKey(Identity(es[i])));
    if i < n && CarriesOver(es, i) then
      Or(Or(own, Time(sent, EntryKey(Previous(es[i])))),
         if Unique(es, es[i]) == EMPTY && OwnsPrevious(es, i) then Inheritance(es, sent, i) else Empty)
    else own
  }

  /** When entry i was sent under its unique stripped key, after the first n were carried over. */
  function UniqueTime(es: seq<Entry>, sent: map<Key, int>, i: nat, n: nat): Stamp
    requires i < |es|
  {
    var own := Time(sent, StrippedKey(Unique(es, es[i])));
    if i < n && CarriesOver(es, i) then Or(own, Inheritance(es, sent, i)) else own
  }

  lemma TimeAfterMove(sent: map<Key, int>, from: Key, to: Key, x: Key)
    ensures from !in sent ==> Time(MoveKey(sent, from, to), x) == Time(sent, x)
    ensures x != from && x != to ==> Time(MoveKey(sent, from, to), x) == Time(sent, x)
    ensures x == from && from != to ==> Time(MoveKey(sent, from, to), x) == Empty
    ensures x == from && from == to && to != NoKey ==> Time(MoveKey(sent, from, to), x) == Time(sent, x)
    ensures x == to && to != NoKey && from != to ==> Time(MoveKey(sent, from, to), x) == Or(Time(sent, x), Time(sent, from))
  {
  }

  ghost predicate TakenBefore(es: seq<Entry>, i: nat, n: nat)
    requires i < |es| && n <= |es|
  {
    exists j :: 0 <= j < n && CarriesOver(es, j) && PreviousStripped(es[j]) == PreviousStripped(es[i])
  }

  /** What is known of entry i's keys once the first n entries were carried over from sent into now. */
  ghost predicate KnownAt(es: seq<Entry>, sent: map<Key, int>, now: map<Key, int>, n: nat, i: nat)
    requires i < |es| && n <= |es|
  {
    && Time(now, EntryKey(Identity(es[i]))) == OwnTime(es, sent, i, n)
    && (Unique(es, es[i]) != EMPTY ==> Time(now, StrippedKey(Unique(es, es[i]))) == UniqueTime(es, sent, i, n))
    && (CarriesOver(es, i) && i >= n ==> Time(now, EntryKey(Previous(es[i]))) == Time(sent, EntryKey(Previous(es[i]))))
    && (CarriesOver(es, i) && i >= n && PreviousStripped(es[i]) != EMPTY ==>
          Time(now, StrippedKey(PreviousStripped(es[i]))) ==
          if TakenBefore(es, i, n) then Empty else Time(sent, StrippedKey(PreviousStripped(es[i]))))
  }

  lemma StepKnown(es: seq<Entry>, sent: map<Key, int>, now: map<Key, int>, n: nat, i: nat)
    requires i < |es| && n < |es| && NothingTaken(es) && CarriesOver(es, n)
    requires KnownAt(es, sent, now, n, i) && KnownAt(es, sent, now, n, n)
    ensures KnownAt(es, sent, Rekey(es, now, n), n + 1, i)
  {
    var keyed := MoveKey(now, EntryKey(Previous(es[n])), EntryKey(Identity(es[n])));
    CarriesOverFacts(es, n, i);
    assert !Takes(es, n, i) && !Takes(es, i, n);
    if CarriesOver(es, i) {
      CarriesOverFacts(es, i, n);
    }
    forall x { TimeAfterMove(now, EntryKey(Previous(es[n])), EntryKey(Identity(es[n])), x); }
    if PreviousStripped(es[n]) != EMPTY {
      forall x { TimeAfterMove(keyed, StrippedKey(PreviousStripped(es[n])), StrippedTarget(es, n), x); }
    }
    if i != n && Unique(es, es[i]) != EMPTY {
      UniqueIsNotShared(es, i, n);
    }
    hide Identity;
    hide Previous;
    hide PreviousStripped;
    hide Count;
    hide Unique;
    hide MoveKey;
  }

  lemma {:induction false} KnownAfter(es: seq<Entry>, b: Books, n: nat, i: nat)
    requires i < |es| && n <= |es| && NothingTaken(es)
    ensures KnownAt(es, b.sent, MigratedTo(es, b, n).sent, n, i)
  {
    if n > 0 {
      KnownAfter(es, b, n - 1, i);
      if CarriesOver(es, n - 1) {
        KnownAfter(es, b, n - 1, n - 1);
        StepKnown(es, b.sent, MigratedTo(es, b, n - 1).sent, n - 1, i);
      }
    }
  }

  /** What entry i inherits from how earlier releases identified it. */
  predicate Inherits(es: seq<Entry>, sent: map<Key, int>, i: nat)
    requires i < |es|
  {
    && CarriesOver(es, i)
    && (EntryKey(Previous(es[i])) in sent ||
        ((Unique(es, es[i]) != EMPTY || OwnsPrevious(es, i)) && Inheritance(es, sent, i) != Empty))
  }

  /** The migration loses nothing and invents nothing: an entry reads as sent afterwards exactly
      when it did before or carries over a recorded previous identity, and send times are kept. */
  lemma MigrationIsExact(es: seq<Entry>, b: Books, i: nat)
    requires i < |es| && NothingTaken(es)
    ensures Sent(es, Migrated(es, b).sent, es[i]) <==> Sent(es, b.sent, es[i]) || Inherits(es, b.sent, i)
    ensures Time(Migrated(es, b).sent, EntryKey(Identity(es[i]))) == OwnTime(es, b.sent, i, |es|)
    ensures Unique(es, es[i]) != EMPTY ==>
      Time(Migrated(es, b).sent, StrippedKey(Unique(es, es[i]))) == UniqueTime(es, b.sent, i, |es|)
  {
    KnownAfter(es, b, |es|, i);
    SentByTime(es, b.sent, es[i]);
    SentByTime(es, Migrated(es, b).sent, es[i]);
  }

  lemma SentByTime(es: seq<Entry>, sent: map<Key, int>, e: Entry)
    ensures Sent(es, sent, e) <==>
      Time(sent, EntryKey(Identity(e))) != Empty
      || (Unique(es, e) != EMPTY && Time(sent, StrippedKey(Unique(es, e))) != Empty)
  {
    assert Keys(es, e)[0] == EntryKey(Identity(e));
    assert Unique(es, e) != EMPTY ==> Keys(es, e)[1] == StrippedKey(Unique(es, e));
  }

  ghost predicate LosesNothing(es: seq<Entry>) {
    forall b: Books, i :: 0 <= i < |es| && Sent(es, b.sent, es[i]) ==> Sent(es, Migrated(es, b).sent, es[i])
  }

  /** Whether the migration can make an entry that read as sent stop doing so is decided by the
      fetch alone: it cannot exactly when nothing is taken. */
  lemma LosesNothingIffNothingTaken(es: seq<Entry>)
    ensures LosesNothing(es) <==> NothingTaken(es)
  {
    if NothingTaken(es) {
      forall b: Books, i | 0 <= i < |es| && Sent(es, b.sent, es[i]) ensures Sent(es, Migrated(es, b).sent, es[i]) {
        MigrationIsExact(es, b, i);
      }
    } else {
      var i, k :| 0 <= i < |es| && 0 <= k < |es| && Takes(es, i, k);
      assert IsTaker(es, i);
      var j := LastTaker(es, i, |es|);
      var owner :| 0 <= owner < |es| && Takes(es, j, owner);
      TakenEntryIsLost(es, j, owner);
    }
  }

  /** With only its stripped key recorded, the entry whose key the last taker takes is lost. */
  lemma TakenEntryIsLost(es: seq<Entry>, j: nat, owner: nat)
    requires j < |es| && owner < |es| && Takes(es, j, owner)
    requires forall h :: j < h < |es| ==> !IsTaker(es, h)
    ensures var b := Books(NoMark, map[StrippedKey(Unique(es, es[owner])) := 0]);
      Sent(es, b.sent, es[owner]) && !Sent(es, Migrated(es, b).sent, es[owner])
  {
    var b := Books(NoMark, map[StrippedKey(Unique(es, es[owner])) := 0]);
    assert Unique(es, es[owner]) != EMPTY;
    assert IsUniqueKey(es, StrippedKey(Unique(es, es[owner])));
    hide Takes;
    hide IsTaker;
    hide Unique;
    hide Identity;
    TokenIsTaken(es, b, j, owner, |es|);
    assert EntryKey(Identity(es[owner])) !in Migrated(es, b).sent;
    SentByTime(es, b.sent, es[owner]);
    SentByTime(es, Migrated(es, b).sent, es[owner]);
  }

  ghost predicate IsTaker(es: seq<Entry>, i: nat)
    requires i < |es|
  {
    exists k :: 0 <= k < |es| && Takes(es, i, k)
  }

  lemma LastTaker(es: seq<Entry>, i: nat, n: nat) returns (j: nat)
    requires i < n <= |es| && IsTaker(es, i)
    ensures i <= j < n && IsTaker(es, j)
    ensures forall h :: j < h < n ==> !IsTaker(es, h)
  {
    hide IsTaker;
    if IsTaker(es, n - 1) {
      j := n - 1;
    } else {
      j := LastTaker(es, i, n - 1);
    }
  }

  /** Only unique stripped keys of the fetch are recorded. */
  ghost predicate StrippedOnly(es: seq<Entry>, sent: map<Key, int>) {
    forall x :: x in sent ==> IsUniqueKey(es, x)
  }

  ghost predicate IsUniqueKey(es: seq<Entry>, x: Key) {
    x.StrippedKey? && x.stripped != EMPTY && exists k :: 0 <= k < |es| && Unique(es, es[k]) == x.stripped
  }

  /** Once the last taker moved the key away, nothing brings it back. */
  lemma {:induction false} TokenIsTaken(es: seq<Entry>, b: Books, i: nat, k: nat, n: nat)
    requires i < |es| && k < |es| && n <= |es| && Takes(es, i, k) && StrippedOnly(es, b.sent)
    requires forall h :: i < h < |es| ==> !IsTaker(es, h)
    ensures StrippedOnly(es, MigratedTo(es, b, n).sent)
    ensures i < n ==> StrippedKey(Unique(es, es[k])) !in MigratedTo(es, b, n).sent
  {
    hide StrippedOnly;
    hide Unique;
    hide Takes;
    hide IsTaker;
    hide Step;
    if n > 0 {
      TokenIsTaken(es, b, i, k, n - 1);
      TokenStep(es, MigratedTo(es, b, n - 1), i, k, n - 1);
    }
  }

  lemma TokenStep(es: seq<Entry>, b: Books, i: nat, k: nat, n: nat)
    requires i < |es| && k < |es| && n < |es| && Takes(es, i, k) && StrippedOnly(es, b.sent)
    requires i < n ==> !IsTaker(es, n) && StrippedKey(Unique(es, es[k])) !in b.sent
    ensures StrippedOnly(es, Step(es, b, n).sent)
    ensures i <= n ==> StrippedKey(Unique(es, es[k])) !in Step(es, b, n).sent
  {
    assert CarriesOver(es, i);
    hide StrippedOnly;
    hide Unique;
    hide Takes;
    hide IsTaker;
    hide Rekey;
    hide CarriesOver;
    if CarriesOver(es, n) {
      StepOnStripped(es, b.sent, n);
      if i < n {
        SelfMove(es, b.sent, n);
      } else if i == n {
        TakerMoves(es, b.sent, i, k);
      }
    }
  }

  lemma SelfMove(es: seq<Entry>, now: map<Key, int>, n: nat)
    requires n < |es| && CarriesOver(es, n) && StrippedOnly(es, now) && !IsTaker(es, n)
    ensures Rekey(es, now, n) == now
  {
    StepOnStripped(es, now, n);
    var from := StrippedKey(PreviousStripped(es[n]));
    if PreviousStripped(es[n]) != EMPTY && from in now {
      assert IsUniqueKey(es, from);
      var l :| 0 <= l < |es| && Unique(es, es[l]) == PreviousStripped(es[n]);
      assert !Takes(es, n, l);
    }
  }

  lemma TakerMoves(es: seq<Entry>, now: map<Key, int>, i: nat, k: nat)
    requires i < |es| && k < |es| && Takes(es, i, k) && StrippedOnly(es, now)
    ensures StrippedKey(Unique(es, es[k])) !in Rekey(es, now, i)
  {
    StepOnStripped(es, now, i);
    UniqueIsNotShared(es, k, i);
  }

  lemma StepOnStripped(es: seq<Entry>, now: map<Key, int>, n: nat)
    requires n < |es| && CarriesOver(es, n) && StrippedOnly(es, now)
    ensures var from, to := StrippedKey(PreviousStripped(es[n])), StrippedKey(Unique(es, es[n]));
      Rekey(es, now, n) ==
        (if PreviousStripped(es[n]) == EMPTY then now
         else MoveKey(now, from, if Unique(es, es[n]) == EMPTY then NoKey else to))
    ensures StrippedOnly(es, Rekey(es, now, n))
  {
    hide Identity;
    hide Previous;
    hide PreviousStripped;
    var from := StrippedKey(PreviousStripped(es[n]));
    if from in now {
      assert IsUniqueKey(es, from);
      var k :| 0 <= k < |es| && Unique(es, es[k]) == PreviousStripped(es[n]);
      CountNone(AsClaim, es, PreviousStripped(es[n]));
      assert Stands(AsClaim, es[k], PreviousStripped(es[n]));
    }
    hide Count;
    hide Unique;
  }

  /** The watermark moves at most once, from the previous identity of the one entry it stood for. */
  lemma {:induction false} WatermarkMovesOnce(es: seq<Entry>, b: Books, n: nat)
    requires n <= |es|
    ensures var mark := MigratedTo(es, b, n).mark;
      && (forall i :: 0 <= i < n && CarriesOver(es, i) && b.mark == Clamp(Previous(es[i])) ==> mark == Clamp(Identity(es[i])))
      && ((forall i :: 0 <= i < n && CarriesOver(es, i) ==> b.mark != Clamp(Previous(es[i]))) ==> mark == b.mark)
  {
    if n > 0 {
      WatermarkMovesOnce(es, b, n - 1);
      if CarriesOver(es, n - 1) {
        forall i | 0 <= i < n - 1 ensures Identity(es[i]) != Previous(es[n - 1]) {
          CarriesOverFacts(es, n - 1, i);
        }
        forall i | 0 <= i < n - 1 && CarriesOver(es, i) ensures Previous(es[i]) != Previous(es[n - 1]) {
          CarriesOverFacts(es, n - 1, i);
        }
      }
    }
  }

  /** No carried-over entry's previous stripped identity is the unique one of an entry that is
      carried over after it. */
  predicate NoLaterOwner(es: seq<Entry>) {
    forall i, j :: 0 <= i < j < |es| && CarriesOver(es, i) && CarriesOver(es, j) && PreviousStripped(es[i]) != EMPTY
      ==> Unique(es, es[j]) != PreviousStripped(es[i])
  }

  /** Nothing is left under the previous identity of entry i. */
  predicate SettledAt(es: seq<Entry>, b: Books, i: nat)
    requires i < |es|
  {
    CarriesOver(es, i) ==>
      && b.mark != Clamp(Previous(es[i]))
      && EntryKey(Previous(es[i])) !in b.sent
      && (PreviousStripped(es[i]) != EMPTY && PreviousStripped(es[i]) != Unique(es, es[i]) ==>
            StrippedKey(PreviousStripped(es[i])) !in b.sent)
  }

  ghost predicate Settled(es: seq<Entry>, b: Books) {
    forall i :: 0 <= i < |es| ==> SettledAt(es, b, i)
  }

  lemma StepSettles(es: seq<Entry>, b: Books, n: nat, i: nat)
    requires i <= n < |es| && NoLaterOwner(es)
    requires i < n ==> SettledAt(es, b, i)
    ensures SettledAt(es, Step(es, b, n), i)
  {
    hide Identity;
    hide Previous;
    hide PreviousStripped;
    hide Count;
    if CarriesOver(es, n) && CarriesOver(es, i) {
      CarriesOverFacts(es, i, n);
      CarriesOverFacts(es, n, i);
    }
  }

  lemma {:induction false} MigrationSettles(es: seq<Entry>, b: Books, n: nat)
    requires n <= |es| && NoLaterOwner(es)
    ensures forall i :: 0 <= i < n ==> SettledAt(es, MigratedTo(es, b, n), i)
  {
    hide Step;
    hide SettledAt;
    hide NoLaterOwner;
    if n > 0 {
      MigrationSettles(es, b, n - 1);
      forall i | 0 <= i < n ensures SettledAt(es, MigratedTo(es, b, n), i) {
        StepSettles(es, MigratedTo(es, b, n - 1), n - 1, i);
      }
    }
  }

  lemma {:induction false} SettledIsFixed(es: seq<Entry>, b: Books, n: nat)
    requires n <= |es| && Settled(es, b)
    ensures MigratedTo(es, b, n) == b
  {
    if n > 0 {
      SettledIsFixed(es, b, n - 1);
      assert SettledAt(es, b, n - 1);
    }
  }

  lemma NothingTakenIsStronger(es: seq<Entry>)
    requires NothingTaken(es)
    ensures NoLaterOwner(es)
  {
    forall i, j | 0 <= i < j < |es| && CarriesOver(es, i) && CarriesOver(es, j) && PreviousStripped(es[i]) != EMPTY
      ensures Unique(es, es[j]) != PreviousStripped(es[i])
    {
      assert !Takes(es, i, j);
    }
  }

  /** The migration runs on every fetch; a second pass over the same one changes nothing. */
  lemma MigrationIsIdempotent(es: seq<Entry>, b: Books)
    requires NoLaterOwner(es)
    ensures Settled(es, Migrated(es, b))
    ensures Migrated(es, Migrated(es, b)) == Migrated(es, b)
  {
    MigrationSettles(es, b, |es|);
    SettledIsFixed(es, Migrated(es, b), |es|);
  }
}
