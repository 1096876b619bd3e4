/** Concrete fetches on which an unconditional reading of the documentation fails. */
module Witnesses {
  import opened Identities
  import opened Statuses
  import opened Ledgers
  import opened Migrations

  /** https://h/<path>#<fragment>. */
  function Link(path: string, fragment: string): Text {
    Web(Url("https", "h", path, Spelled("", []), fragment))
  }

  lemma LinkIdentities(path: string, fragment: string)
    ensures Normalize(Link(path, fragment), true) == Link(path, fragment)
    ensures Normalize(Link(path, fragment), false) == Link(path, "")
  {
    assert Lower("https") == "https";
    assert Lower("h") == "h";
  }

  const NO_CONTENT := Content("", "", "", 0)

  /** Entry number seqNo, identified by the link path#1 and earlier by the link previous#0. */
  function Relinked(path: string, previous: string, seqNo: nat): Entry {
    Entry(Link(path, "1"), FromLink, Link(previous, "0"), FromLink, NO_CONTENT, seqNo)
  }

  lemma RelinkedFacts(path: string, previous: string, seqNo: nat)
    ensures var e := Relinked(path, previous, seqNo);
      && Identity(e) == Link(path, "1") && Stripped(e) == Link(path, "")
      && Moved(e) && Previous(e) == Link(previous, "0") && PreviousStripped(e) == Link(previous, "")
  {
    LinkIdentities(path, "1");
    LinkIdentities(previous, "0");
  }

  /** The first entry moved from b to a, the second from c to b. */
  const CHAIN: seq<Entry> := [Relinked("/a", "/b", 1), Relinked("/b", "/c", 0)]

  lemma ChainFacts()
    ensures CarriesOver(CHAIN, 0) && CarriesOver(CHAIN, 1)
    ensures Unique(CHAIN, CHAIN[0]) == Link("/a", "") && Unique(CHAIN, CHAIN[1]) == Link("/b", "")
  {
    RelinkedFacts("/a", "/b", 1);
    RelinkedFacts("/b", "/c", 0);
    forall role, s { CountTwo(role, CHAIN[0], CHAIN[1], s); }
  }

  lemma CountTwo(role: Role, d: Entry, e: Entry, s: Text)
    ensures Count(role, [d, e], s) == (if Stands(role, d, s) then 1 else 0) + (if Stands(role, e, s) then 1 else 0)
  {
    assert [d, e][..1] == [d];
    assert [d][..0] == [];
    assert Count(role, [d], s) == Count(role, [], s) + if Stands(role, d, s) then 1 else 0;
  }

  lemma MigratedTwo(es: seq<Entry>, b: Books)
    requires |es| == 2
    ensures Migrated(es, b) == Step(es, Step(es, b, 0), 1)
  {
    assert MigratedTo(es, b, 1) == Step(es, MigratedTo(es, b, 0), 0);
  }

  /** What one pass over CHAIN does to a map that records only stripped keys. */
  lemma ChainPass(sent: map<Key, int>)
    requires forall x :: x in sent ==> x.StrippedKey?
    ensures Migrated(CHAIN, Books(NoMark, sent)).sent ==
      MoveKey(MoveKey(sent, StrippedKey(Link("/b", "")), StrippedKey(Link("/a", ""))),
              StrippedKey(Link("/c", "")), StrippedKey(Link("/b", "")))
  {
    ChainFacts();
    RelinkedFacts("/a", "/b", 1);
    RelinkedFacts("/b", "/c", 0);
    MigratedTwo(CHAIN, Books(NoMark, sent));
    hide Count;
    hide Identity;
    hide Stripped;
  }

  /** A record under c moves to b in the first pass and on to a in the second. */
  lemma TwoPasses(a: Key, b: Key, c: Key, at: int)
    requires a != b && b != c && a != c && NoKey !in {a, b}
    ensures MoveKey(MoveKey(map[c := at], b, a), c, b) == map[b := at]
    ensures MoveKey(MoveKey(map[b := at], b, a), c, b) == map[a := at]
  {
  }

  /** Without NoLaterOwner a second pass does change the books: it hands entry 1's record on to
      entry 0, which was never sent. */
  lemma MigrationIsNotAlwaysIdempotent()
    ensures exists b :: Migrated(CHAIN, Migrated(CHAIN, b)) != Migrated(CHAIN, b)
  {
    var a, b, c := StrippedKey(Link("/a", "")), StrippedKey(Link("/b", "")), StrippedKey(Link("/c", ""));
    assert a != b && b != c && a != c;
    hide *;
    TwoPasses(a, b, c, 7);
    ChainPass(map[c := 7]);
    ChainPass(map[b := 7]);
    NoWatermark(map[c := 7]);
    var books := Books(NoMark, map[c := 7]);
    var once := Migrated(CHAIN, books);
    assert once == Books(NoMark, map[b := 7]);
    assert Migrated(CHAIN, once).sent == map[a := 7];
    assert map[a := 7] != map[b := 7] by { assert a in map[a := 7] && a !in map[b := 7]; }
  }

  lemma NoWatermark(sent: map<Key, int>)
    ensures Migrated(CHAIN, Books(NoMark, sent)).mark == NoMark
  {
    WatermarkMovesOnce(CHAIN, Books(NoMark, sent), 2);
  }
}
