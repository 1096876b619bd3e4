/** deliveryLedger: what was sent, and where to resume, seen from one fetch of a feed.
    The functions give what the ledger means as a function of the fetch alone; the class builds
    its index once, in one pass over the fetch, and answers from it. */
module Ledgers {
  import opened Identities
  import opened Statuses

  /** What a text can stand for in an entry, one per count the ledger keeps. */
  datatype Role = AsClaim | AsIdentity | AsPrevious | AsPreviousStripped

  predicate Moved(e: Entry) { PreviouslyIdentified(e).1 }

  function Previous(e: Entry): Text {
    if Moved(e) then Identity(PreviouslyIdentified(e).0) else EMPTY
  }

  function PreviousStripped(e: Entry): Text {
    if Moved(e) then Stripped(PreviouslyIdentified(e).0) else EMPTY
  }

  /** When an earlier release read this entry as d, the previous identity is the one d had, and the
      previous stripped identity too. */
  lemma PreviousIsWhatItWas(e: Entry, d: Entry)
    requires e.previousId != EMPTY && d.id == e.previousId && d.idSource == e.previousSource && d.content == e.content
    ensures Moved(e) && Previous(e) == Identity(d) && PreviousStripped(e) == Stripped(d)
  {
  }

  predicate Stands(role: Role, e: Entry, s: Text) {
    match role
    case AsClaim => Identity(e) == s || (Stripped(e) != EMPTY && Stripped(e) == s)
    case AsIdentity => Identity(e) == s
    case AsPrevious => Moved(e) && Previous(e) == s
    case AsPreviousStripped => PreviousStripped(e) != EMPTY && PreviousStripped(e) == s
  }

  /** How many entries s stands for in the given role. */
  function Count(role: Role, es: seq<Entry>, s: Text): nat {
    if es == [] then 0
    else Count(role, es[..|es| - 1], s) + if Stands(role, es[|es| - 1], s) then 1 else 0
  }

  lemma {:induction false} CountNone(role: Role, es: seq<Entry>, s: Text)
    ensures Count(role, es, s) == 0 <==> forall i :: 0 <= i < |es| ==> !Stands(role, es[i], s)
  {
    if es != [] {
      var front := es[..|es| - 1];
      CountNone(role, front, s);
      assert forall i :: 0 <= i < |front| ==> es[i] == front[i];
    }
  }

  /** A count of at most one says that no two entries share the text. */
  lemma {:induction false} CountAtMostOne(role: Role, es: seq<Entry>, s: Text)
    ensures Count(role, es, s) <= 1 <==>
            forall i, j :: 0 <= i < j < |es| && Stands(role, es[i], s) ==> !Stands(role, es[j], s)
  {
    if es != [] {
      var front := es[..|es| - 1];
      CountAtMostOne(role, front, s);
      CountNone(role, front, s);
      assert forall i :: 0 <= i < |front| ==> es[i] == front[i];
    }
  }

  /** identityRecord. */
  datatype IdentityRecord = IdentityRecord(
    identity: Text, mark: Mark, key: Key, stripped: Text, unique: Text, keys: seq<Key>,
    moved: bool, previous: Text, previousKey: Key, previousStripped: Text, previousStrippedKey: Key)

  function Describe(e: Entry): IdentityRecord {
    IdentityRecord(
      Identity(e), Clamp(Identity(e)), EntryKey(Identity(e)), Stripped(e), EMPTY, [],
      Moved(e), Previous(e), if Moved(e) then EntryKey(Previous(e)) else NoKey,
      PreviousStripped(e), if PreviousStripped(e) != EMPTY then StrippedKey(PreviousStripped(e)) else NoKey)
  }

  /** The stripped identity if no other entry claims it too, and otherwise EMPTY. */
  function Unique(es: seq<Entry>, e: Entry): Text {
    if Stripped(e) != EMPTY && Count(AsClaim, es, Stripped(e)) == 1 then Stripped(e) else EMPTY
  }

  function Keys(es: seq<Entry>, e: Entry): seq<Key> {
    [EntryKey(Identity(e))] + if Unique(es, e) != EMPTY then [StrippedKey(Unique(es, e))] else []
  }

  function Record(es: seq<Entry>, e: Entry): IdentityRecord {
    Describe(e).(unique := Unique(es, e), keys := Keys(es, e))
  }

  /** No other entry claims a unique stripped identity. */
  lemma UniqueIsNotShared(es: seq<Entry>, i: nat, j: nat)
    requires i < |es| && j < |es| && i != j && Unique(es, es[i]) != EMPTY
    ensures !Stands(AsClaim, es[j], Unique(es, es[i]))
  {
    CountAtMostOne(AsClaim, es, Stripped(es[i]));
  }

  /** entryRef: what determines an entry's record. */
  datatype EntryRef = EntryRef(id: Text, previousId: Text, content: Text, idSource: IdSource, previousSource: IdSource)

  function RefOf(e: Entry): EntryRef {
    EntryRef(e.id, e.previousId, if e.id == EMPTY then ContentDigest(e.content) else EMPTY,
             e.idSource, e.previousSource)
  }

  lemma EntriesSharingARefShareARecord(es: seq<Entry>, d: Entry, e: Entry)
    requires RefOf(d) == RefOf(e)
    ensures Record(es, d) == Record(es, e)
  {
  }

  predicate CarriesOver(es: seq<Entry>, i: nat)
    requires i < |es|
  {
    && Moved(es[i]) && Previous(es[i]) != Identity(es[i])
    && Count(AsPrevious, es, Previous(es[i])) <= 1
    && Count(AsIdentity, es, Previous(es[i])) == 0
    && Count(AsIdentity, es, Identity(es[i])) <= 1
  }

  predicate OwnsPrevious(es: seq<Entry>, i: nat)
    requires i < |es|
  {
    var stripped := PreviousStripped(es[i]);
    stripped != EMPTY && Count(AsPreviousStripped, es, stripped) == 1 && Count(AsClaim, es, stripped) == 0
  }

  /** What carrying over rules out about the other entries of the fetch. */
  lemma CarriesOverFacts(es: seq<Entry>, i: nat, k: nat)
    requires i < |es| && k < |es| && CarriesOver(es, i)
    ensures Identity(es[k]) != Previous(es[i])
    ensures k != i ==> Identity(es[k]) != Identity(es[i])
    ensures k != i && Moved(es[k]) ==> Previous(es[k]) != Previous(es[i])
  {
    CountNone(AsIdentity, es, Previous(es[i]));
    CountAtMostOne(AsIdentity, es, Identity(es[i]));
    CountAtMostOne(AsPrevious, es, Previous(es[i]));
    assert Stands(AsIdentity, es[i], Identity(es[i])) && Stands(AsPrevious, es[i], Previous(es[i]));
    assert !Stands(AsIdentity, es[k], Previous(es[i]));
    if k != i {
      assert !Stands(AsIdentity, es[k], Identity(es[i])) && !Stands(AsPrevious, es[k], Previous(es[i]));
    }
  }

  /** An entry's stored values move to its new identity exactly when the identity did change and no
      other entry can be meant: none has the previous identity now, and no other has the new one or
      had the previous one. */
  lemma CarriesOverIffUnambiguous(es: seq<Entry>, i: nat)
    requires i < |es|
    ensures CarriesOver(es, i) <==>
      && Moved(es[i]) && Previous(es[i]) != Identity(es[i])
      && (forall k :: 0 <= k < |es| ==> Identity(es[k]) != Previous(es[i]))
      && (forall k :: 0 <= k < |es| && k != i ==> Identity(es[k]) != Identity(es[i]))
      && (forall k :: 0 <= k < |es| && k != i && Moved(es[k]) ==> Previous(es[k]) != Previous(es[i]))
  {
    hide Identity;
    hide Count;
    CountNone(AsIdentity, es, Previous(es[i]));
    AtMostOneIsAlone(AsIdentity, es, i, Identity(es[i]));
    if Moved(es[i]) {
      AtMostOneIsAlone(AsPrevious, es, i, Previous(es[i]));
    }
  }

  lemma AtMostOneIsAlone(role: Role, es: seq<Entry>, i: nat, s: Text)
    requires i < |es| && Stands(role, es[i], s)
    ensures Count(role, es, s) >= 1
    ensures Count(role, es, s) <= 1 <==> forall k :: 0 <= k < |es| && k != i ==> !Stands(role, es[k], s)
  {
    CountAtMostOne(role, es, s);
    CountNone(role, es, s);
    hide Stands;
  }

  /** A stripped key recorded under an entry's previous identity can only have been its own exactly
      when no other entry had that stripped identity before and none has it now, in either form. */
  lemma OwnsPreviousIffAlone(es: seq<Entry>, i: nat)
    requires i < |es|
    ensures var s := PreviousStripped(es[i]);
      OwnsPrevious(es, i) <==>
      && s != EMPTY
      && (forall k :: 0 <= k < |es| && k != i ==> PreviousStripped(es[k]) != s)
      && (forall k :: 0 <= k < |es| ==> Identity(es[k]) != s && Stripped(es[k]) != s)
  {
    hide Identity;
    hide Stripped;
    hide PreviousStripped;
    hide Count;
    if PreviousStripped(es[i]) != EMPTY {
      AtMostOneIsAlone(AsPreviousStripped, es, i, PreviousStripped(es[i]));
      CountNone(AsClaim, es, PreviousStripped(es[i]));
    }
  }

  /** A stripped identity is unique exactly when no other entry has it, in either form. */
  lemma UniqueIffAlone(es: seq<Entry>, i: nat)
    requires i < |es|
    ensures var s := Stripped(es[i]);
      && (Unique(es, es[i]) != EMPTY <==>
            s != EMPTY && forall k :: 0 <= k < |es| && k != i ==> Identity(es[k]) != s && Stripped(es[k]) != s)
      && (Unique(es, es[i]) != EMPTY ==> Unique(es, es[i]) == s)
  {
    hide Identity;
    hide Stripped;
    hide Count;
    if Stripped(es[i]) != EMPTY {
      AtMostOneIsAlone(AsClaim, es, i, Stripped(es[i]));
    }
  }

  predicate Sent(es: seq<Entry>, sent: map<Key, int>, e: Entry) {
    exists k :: k in Keys(es, e) && k in sent
  }

  function Stamped(keys: seq<Key>, now: int): map<Key, int> {
    map k | k in keys :: now
  }

  function MarkHandled(es: seq<Entry>, b: Books, e: Entry, now: int): Books {
    Books(Clamp(Identity(e)), b.sent + Stamped(Keys(es, e), now))
  }

  lemma StampNext(sent: map<Key, int>, keys: seq<Key>, i: nat, now: int)
    requires i < |keys|
    ensures sent + Stamped(keys[..i + 1], now) == (sent + Stamped(keys[..i], now))[keys[i] := now]
  {
    assert keys[..i + 1] == keys[..i] + [keys[i]];
  }

  /** moveSentKey: renames a key keeping its time, dropping it when to is empty or already there. */
  function MoveKey(sent: map<Key, int>, from: Key, to: Key): map<Key, int> {
    if from !in sent then sent
    else
      var rest := sent - {from};
      if to == NoKey || to in rest then rest else rest[to := sent[from]]
  }

  /** Where the stripped key of entry i's previous identity moves to. */
  function StrippedTarget(es: seq<Entry>, i: nat): Key
    requires i < |es|
  {
    if Unique(es, es[i]) != EMPTY then StrippedKey(Unique(es, es[i]))
    else if OwnsPrevious(es, i) then EntryKey(Identity(es[i]))
    else NoKey
  }

  function Rekey(es: seq<Entry>, sent: map<Key, int>, i: nat): map<Key, int>
    requires i < |es| && Moved(es[i])
  {
    var keyed := MoveKey(sent, EntryKey(Previous(es[i])), EntryKey(Identity(es[i])));
    if PreviousStripped(es[i]) == EMPTY then keyed
    else MoveKey(keyed, StrippedKey(PreviousStripped(es[i])), StrippedTarget(es, i))
  }

  /** watermarkLookup. */
  datatype Lookup = NotSet | Found(index: nat) | Lost

  /** The first entry whose watermark form is mark, at or after i; |es| when there is none. */
  function FirstMarked(es: seq<Entry>, mark: Mark, i: nat): (r: nat)
    requires i <= |es|
    ensures i <= r <= |es|
    ensures r < |es| ==> Clamp(Identity(es[r])) == mark
    ensures forall k :: i <= k < r ==> Clamp(Identity(es[k])) != mark
    decreases |es| - i
  {
    if i == |es| || Clamp(Identity(es[i])) == mark then i else FirstMarked(es, mark, i + 1)
  }

  /** The first entry with a unique stripped identity of this watermark form; |es| when there is none. */
  function FirstUnique(es: seq<Entry>, mark: Mark, i: nat): (r: nat)
    requires i <= |es|
    ensures i <= r <= |es|
    ensures r < |es| ==> Unique(es, es[r]) != EMPTY && Clamp(Unique(es, es[r])) == mark
    ensures forall k :: i <= k < r && Unique(es, es[k]) != EMPTY ==> Clamp(Unique(es, es[k])) != mark
    decreases |es| - i
  {
    if i == |es| || (Unique(es, es[i]) != EMPTY && Clamp(Unique(es, es[i])) == mark) then i
    else FirstUnique(es, mark, i + 1)
  }

  /** normalizeIdentity of a stored watermark; a digest is opaque text. */
  function StrippedMark(mark: Mark): Mark {
    match mark
    case Whole(t) => if Normalize(t, false) == t then mark else Clamp(Normalize(t, false))
    case _ => mark
  }

  function Resume(es: seq<Entry>, mark: Mark): Lookup {
    if mark == NoMark then NotSet
    else
      var i := FirstMarked(es, mark, 0);
      if i < |es| then Found(i)
      else if StrippedMark(mark) == mark then Lost
      else
        var j := FirstUnique(es, StrippedMark(mark), 0);
        if j < |es| then Found(j) else Lost
  }

  /** A Go map of counts reads 0 where it has no key. */
  function At0(m: map<Text, nat>, s: Text): nat {
    if s in m then m[s] else 0
  }

  ghost predicate Tallies(m: map<Text, nat>, role: Role, es: seq<Entry>) {
    forall s :: At0(m, s) == Count(role, es, s)
  }

  /** Stands, read off an entry's record. */
  predicate StandsIn(role: Role, rec: IdentityRecord, s: Text) {
    match role
    case AsClaim => rec.identity == s || (rec.stripped != EMPTY && rec.stripped == s)
    case AsIdentity => rec.identity == s
    case AsPrevious => rec.moved && rec.previous == s
    case AsPreviousStripped => rec.moved && rec.previousStripped != EMPTY && rec.previousStripped == s
  }

  lemma StandsInItsRecord(role: Role, e: Entry, s: Text)
    ensures StandsIn(role, Describe(e), s) == Stands(role, e, s)
  {
  }

  /** m' counts one entry more than m. */
  ghost predicate CountsOneMore(m: map<Text, nat>, m': map<Text, nat>, role: Role, rec: IdentityRecord) {
    forall s :: At0(m', s) == At0(m, s) + if StandsIn(role, rec, s) then 1 else 0
  }

  lemma TallyNext(m: map<Text, nat>, m': map<Text, nat>, role: Role, es: seq<Entry>, i: nat)
    requires i < |es| && Tallies(m, role, es[..i]) && CountsOneMore(m, m', role, Describe(es[i]))
    ensures Tallies(m', role, es[..i + 1])
  {
    assert es[..i + 1][..i] == es[..i];
    forall s ensures At0(m', s) == Count(role, es[..i + 1], s) {
      StandsInItsRecord(role, es[i], s);
    }
  }

  datatype Tally = Tally(claims: map<Text, nat>, identities: map<Text, nat>,
                         previousIdentities: map<Text, nat>, previousStripped: map<Text, nat>)

  /** One turn of the counting loop. */
  method CountEntry(t: Tally, rec: IdentityRecord) returns (t': Tally)
    requires rec.identity != EMPTY
    ensures CountsOneMore(t.claims, t'.claims, AsClaim, rec)
    ensures CountsOneMore(t.identities, t'.identities, AsIdentity, rec)
    ensures CountsOneMore(t.previousIdentities, t'.previousIdentities, AsPrevious, rec)
    ensures CountsOneMore(t.previousStripped, t'.previousStripped, AsPreviousStripped, rec)
  {
    var claims := CountClaims(t.claims, rec);
    var identities := Bump(t.identities, rec.identity);
    var previousIdentities, previousStripped := CountPrevious(t.previousIdentities, t.previousStripped, rec);
    t' := Tally(claims, identities, previousIdentities, previousStripped);
  }

  method CountClaims(m: map<Text, nat>, rec: IdentityRecord) returns (claims: map<Text, nat>)
    requires rec.identity != EMPTY
    ensures CountsOneMore(m, claims, AsClaim, rec)
  {
    claims := m;
    if rec.stripped != EMPTY {
      claims := Bump(claims, rec.stripped);
    }
    if rec.identity != rec.stripped {
      claims := Bump(claims, rec.identity);
    }
  }

  method CountPrevious(m: map<Text, nat>, s: map<Text, nat>, rec: IdentityRecord)
    returns (identities: map<Text, nat>, stripped: map<Text, nat>)
    ensures CountsOneMore(m, identities, AsPrevious, rec)
    ensures CountsOneMore(s, stripped, AsPreviousStripped, rec)
  {
    identities, stripped := m, s;
    if rec.moved {
      identities := Bump(identities, rec.previous);
      if rec.previousStripped != EMPTY {
        stripped := Bump(stripped, rec.previousStripped);
      }
    }
  }

  ghost predicate TalliesAll(t: Tally, es: seq<Entry>) {
    && Tallies(t.claims, AsClaim, es) && Tallies(t.identities, AsIdentity, es)
    && Tallies(t.previousIdentities, AsPrevious, es)
    && Tallies(t.previousStripped, AsPreviousStripped, es)
  }

  /** Counts the i-th entry on top of the ones before it. */
  method CountNext(es: seq<Entry>, i: nat, t: Tally, rec: IdentityRecord) returns (t': Tally)
    requires i < |es| && rec == Describe(es[i]) && TalliesAll(t, es[..i])
    ensures TalliesAll(t', es[..i + 1])
  {
    IdentityIsNeverEmpty(es[i]);
    t' := CountEntry(t, rec);
    TallyNext(t.claims, t'.claims, AsClaim, es, i);
    TallyNext(t.identities, t'.identities, AsIdentity, es, i);
    TallyNext(t.previousIdentities, t'.previousIdentities, AsPrevious, es, i);
    TallyNext(t.previousStripped, t'.previousStripped, AsPreviousStripped, es, i);
  }

  lemma IndexNext(byRef: map<EntryRef, nat>, es: seq<Entry>, i: nat)
    requires i < |es| && IndexedBy(byRef, es[..i])
    ensures IndexedBy(byRef[RefOf(es[i]) := i], es[..i + 1])
  {
    assert es[..i + 1] == es[..i] + [es[i]];
  }

  /** The single pass over the fetch that describes, indexes and counts its entries. */
  method CountFetch(es: seq<Entry>) returns (described: seq<IdentityRecord>, byRef: map<EntryRef, nat>, t: Tally)
    ensures |described| == |es|
    ensures forall k :: 0 <= k < |es| ==> described[k] == Describe(es[k])
    ensures TalliesAll(t, es) && IndexedBy(byRef, es)
  {
    described, byRef, t := [], map[], Tally(map[], map[], map[], map[]);
    var i := 0;
    while i < |es|
      invariant 0 <= i <= |es| && |described| == i
      invariant forall k :: 0 <= k < i ==> described[k] == Describe(es[k])
      invariant TalliesAll(t, es[..i]) && IndexedBy(byRef, es[..i])
    {
      var rec := Describe(es[i]);
      described := described + [rec];
      IndexNext(byRef, es, i);
      byRef := byRef[RefOf(es[i]) := i];
      t := CountNext(es, i, t, rec);
      i := i + 1;
    }
    assert es[..i] == es;
  }

  function BooksOf(fs: FeedStatus): Books
    reads fs`LastSeenEntry, fs`LastSent
  {
    Books(fs.LastSeenEntry, fs.LastSent)
  }

  class DeliveryLedger {
    const fs: FeedStatus
    const entries: seq<Entry>
    const ids: seq<IdentityRecord>
    const byRef: map<EntryRef, nat>
    const counts: Tally

    ghost predicate Valid() {
      && |ids| == |entries|
      && (forall i :: 0 <= i < |entries| ==> ids[i] == Record(entries, entries[i]))
      && TalliesAll(counts, entries) && IndexedBy(byRef, entries)
    }

    /** Counts every entry in one pass, then settles every record against the counts. */
    constructor (fs: FeedStatus, entries: seq<Entry>)
      ensures Valid() && this.fs == fs && this.entries == entries
    {
      hide TalliesAll;
      hide IndexedBy;
      hide Record;
      hide Settle;
      var described, byRef, t := CountFetch(entries);
      var ids: seq<IdentityRecord> := [];
      var i := 0;
      while i < |described|
        invariant 0 <= i <= |described| && |ids| == i
        invariant forall k :: 0 <= k < i ==> ids[k] == Record(entries, entries[k])
      {
        SettleCompletes(t, entries, entries[i]);
        ids := ids + [Settle(t.claims, described[i])];
        i := i + 1;
      }
      this.fs, this.entries, this.ids, this.byRef, this.counts := fs, entries, ids, byRef, t;
    }

    /** From the index when it has the entry's ref, and computed on the spot when not;
        either way it is the entry described and settled afresh. */
    method RecordOf(e: Entry) returns (rec: IdentityRecord)
      requires Valid()
      ensures rec == Record(entries, e)
    {
      hide Record;
      hide Settle;
      hide RefOf;
      hide TalliesAll;
      if RefOf(e) in byRef {
        rec := ids[byRef[RefOf(e)]];
        EntriesSharingARefShareARecord(entries, entries[byRef[RefOf(e)]], e);
      } else {
        SettleCompletes(counts, entries, e);
        rec := Settle(counts.claims, Describe(e));
      }
    }

    predicate CarriesOverAt(i: nat)
      requires Valid() && i < |entries|
      ensures CarriesOverAt(i) == CarriesOver(entries, i)
    {
      var rec := ids[i];
      && rec.moved && rec.previous != rec.identity
      && At0(counts.previousIdentities, rec.previous) <= 1
      && At0(counts.identities, rec.previous) == 0
      && At0(counts.identities, rec.identity) <= 1
    }

    predicate OwnsPreviousAt(i: nat)
      requires Valid() && i < |entries|
      ensures OwnsPreviousAt(i) == OwnsPrevious(entries, i)
    {
      var stripped := ids[i].previousStripped;
      stripped != EMPTY && At0(counts.previousStripped, stripped) == 1 && At0(counts.claims, stripped) == 0
    }

    method ResumeAt() returns (r: Lookup)
      requires Valid()
      ensures r == Resume(entries, fs.LastSeenEntry)
    {
      hide TalliesAll;
      hide IndexedBy;
      hide Identity;
      hide Stripped;
      hide Clamp;
      hide Count;
      hide Keys;
      hide StrippedMark;
      var mark := fs.LastSeenEntry;
      if mark == NoMark {
        return NotSet;
      }
      var i := 0;
      while i < |ids|
        invariant 0 <= i <= |ids|
        invariant FirstMarked(entries, mark, 0) == FirstMarked(entries, mark, i)
      {
        if ids[i].mark == mark {
          return Found(i);
        }
        i := i + 1;
      }
      var stripped := StrippedMark(mark);
      if stripped == mark {
        return Lost;
      }
      i := 0;
      while i < |ids|
        invariant 0 <= i <= |ids|
        invariant FirstUnique(entries, stripped, 0) == FirstUnique(entries, stripped, i)
      {
        if ids[i].unique != EMPTY && Clamp(ids[i].unique) == stripped {
          return Found(i);
        }
        i := i + 1;
      }
      return Lost;
    }

    method SentAlready(e: Entry) returns (sent: bool)
      requires Valid()
      ensures sent == Sent(entries, fs.View().books.sent, e)
    {
      hide Valid;
      hide Keys;
      hide Describe;
      var rec := RecordOf(e);
      var i := 0;
      while i < |rec.keys|
        invariant 0 <= i <= |rec.keys|
        invariant forall k :: 0 <= k < i ==> rec.keys[k] !in fs.LastSent
      {
        if rec.keys[i] in fs.LastSent {
          return true;
        }
        i := i + 1;
      }
      return false;
    }

    /** Stamps all keys of the entry, which becomes the watermark. */
    method Handle(e: Entry, now: int)
      requires Valid()
      modifies fs`LastSent, fs`LastSeenEntry
      ensures BooksOf(fs) == MarkHandled(entries, old(BooksOf(fs)), e, now)
    {
      var rec := RecordOf(e);
      RecordKeys(rec.keys, now);
      fs.LastSeenEntry := rec.mark;
    }

    method RecordKeys(keys: seq<Key>, now: int)
      modifies fs`LastSent
      ensures fs.LastSent == old(fs.LastSent) + Stamped(keys, now)
    {
      var i := 0;
      while i < |keys|
        invariant 0 <= i <= |keys|
        invariant fs.LastSent == old(fs.LastSent) + Stamped(keys[..i], now)
      {
        StampNext(old(fs.LastSent), keys, i, now);
        fs.LastSent := fs.LastSent[keys[i] := now];
        i := i + 1;
      }
      assert keys[..i] == keys;
    }

    method MoveSent(from: Key, to: Key)
      modifies fs`LastSent
      ensures fs.LastSent == MoveKey(old(fs.LastSent), from, to)
    {
      if from !in fs.LastSent {
        return;
      }
      var sentAt := fs.LastSent[from];
      fs.LastSent := fs.LastSent - {from};
      if to == NoKey {
        return;
      }
      if to !in fs.LastSent {
        fs.LastSent := fs.LastSent[to := sentAt];
      }
    }

    method RekeySent(i: nat)
      requires Valid() && i < |entries| && Moved(entries[i])
      modifies fs`LastSent
      ensures fs.LastSent == Rekey(entries, old(fs.LastSent), i)
    {
      var rec := ids[i];
      MoveSent(rec.previousKey, rec.key);
      if rec.previousStrippedKey != NoKey {
        var target := NoKey;
        if rec.unique != EMPTY {
          target := StrippedKey(rec.unique);
        } else if OwnsPreviousAt(i) {
          target := rec.key;
        }
        MoveSent(rec.previousStrippedKey, target);
      }
    }

    method MoveWatermark(from: Text, to: nat) returns (moved: bool)
      requires Valid() && to < |entries|
      modifies fs`LastSeenEntry
      ensures moved == (old(fs.LastSeenEntry) == Clamp(from))
      ensures fs.LastSeenEntry == if moved then Clamp(Identity(entries[to])) else old(fs.LastSeenEntry)
    {
      if fs.LastSeenEntry != Clamp(from) {
        return false;
      }
      fs.LastSeenEntry := ids[to].mark;
      return true;
    }

    method MarkNewest()
      requires Valid() && entries != []
      modifies fs`LastSeenEntry
      ensures fs.LastSeenEntry == Clamp(Identity(entries[|entries| - 1]))
    {
      fs.LastSeenEntry := ids[|entries| - 1].mark;
    }
  }

  /** Every entry's ref is indexed, by an entry that has that ref. */
  ghost predicate IndexedBy(byRef: map<EntryRef, nat>, es: seq<Entry>) {
    && (forall r :: r in byRef ==> byRef[r] < |es| && RefOf(es[byRef[r]]) == r)
    && (forall i :: 0 <= i < |es| ==> RefOf(es[i]) in byRef)
  }

  function Bump(m: map<Text, nat>, s: Text): map<Text, nat> {
    m[s := At0(m, s) + 1]
  }

  /** Completes a described record from the claim counts. */
  function Settle(claims: map<Text, nat>, rec: IdentityRecord): IdentityRecord {
    var unique := if rec.stripped != EMPTY && At0(claims, rec.stripped) == 1 then rec.stripped else EMPTY;
    rec.(unique := unique, keys := [rec.key] + if unique != EMPTY then [StrippedKey(unique)] else [])
  }

  /** Settling against the counts of the fetch gives the record the fetch determines. */
  lemma SettleCompletes(t: Tally, es: seq<Entry>, e: Entry)
    requires TalliesAll(t, es)
    ensures Settle(t.claims, Describe(e)) == Record(es, e)
  {
    hide Identity;
    hide Stripped;
    assert At0(t.claims, Stripped(e)) == Count(AsClaim, es, Stripped(e));
  }

  /** Two entries of one fetch with different identities share no LastSent key. */
  lemma SiblingsShareNoKey(es: seq<Entry>, i: nat, j: nat, k: Key)
    requires i < |es| && j < |es| && Identity(es[i]) != Identity(es[j])
    requires k in Keys(es, es[i])
    ensures k !in Keys(es, es[j])
  {
    if k.StrippedKey? {
      UniqueIsNotShared(es, i, j);
    }
  }

  /** Handling an entry makes it read as sent and changes that for no sibling. */
  lemma HandlingIsSeparate(es: seq<Entry>, b: Books, i: nat, j: nat, now: int)
    requires i < |es| && j < |es|
    ensures Sent(es, MarkHandled(es, b, es[i], now).sent, es[i])
    ensures Identity(es[i]) != Identity(es[j]) ==>
      Sent(es, MarkHandled(es, b, es[i], now).sent, es[j]) == Sent(es, b.sent, es[j])
  {
    var after := MarkHandled(es, b, es[i], now).sent;
    assert EntryKey(Identity(es[i])) in Keys(es, es[i]);
    assert EntryKey(Identity(es[i])) in after;
    if Identity(es[i]) != Identity(es[j]) {
      forall k | k in Keys(es, es[j]) ensures k in after <==> k in b.sent {
        if k in Keys(es, es[i]) {
          SiblingsShareNoKey(es, i, j, k);
        }
      }
    }
  }

  /** When the watermark kept a fragment or ref, is stored whole and has no exact match, resume
      lands on the entry whose unique stripped identity is the watermark entry's. */
  lemma RotatedLinkResumes(e: Entry, later: seq<Entry>, i: nat)
    requires Clamp(Identity(e)) == Whole(Identity(e))
    requires Stripped(e) != EMPTY && Stripped(e) != Identity(e)
    requires forall k :: 0 <= k < |later| ==> Identity(later[k]) != Identity(e)
    requires i < |later| && Unique(later, later[i]) == Stripped(e)
    ensures Resume(later, Clamp(Identity(e))) == Found(i)
  {
    var mark := Clamp(Identity(e));
    NormalizeTwice(e.id, true, false);
    assert FirstMarked(later, mark, 0) == |later|;
    var j := FirstUnique(later, Clamp(Stripped(e)), 0);
    assert Clamp(Unique(later, later[i])) == Clamp(Stripped(e));
    assert j <= i;
    if j < i {
      UniqueIsNotShared(later, i, j);
    }
  }

  /** The watermark of an entry not identified by its link, or one stored as a digest, is only
      ever found at an entry whose own watermark form equals it. */
  lemma GuidWatermarkIsNotTakenOver(e: Entry, es: seq<Entry>)
    requires e.idSource != FromLink || Clamp(Identity(e)).Digest?
    ensures var r := Resume(es, Clamp(Identity(e)));
      && (r.Found? ==> r.index < |es| && Identity(es[r.index]) == Identity(e))
      && (r.Lost? <==> forall i :: 0 <= i < |es| ==> Identity(es[i]) != Identity(e))
  {
    var mark := Clamp(Identity(e));
    if mark.Whole? {
      NormalizeTwice(e.id, false, false);
      assert Normalize(Identity(e), false) == Identity(e);
    }
    assert StrippedMark(mark) == mark;
    var i := FirstMarked(es, mark, 0);
  }
}
