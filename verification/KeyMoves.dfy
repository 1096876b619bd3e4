/** The migration as a list of key moves, and exactly when a second pass over a fetch changes
    nothing: a check on the moves alone, whatever the books. */
module KeyMoves {
  import opened Identities
  import opened Statuses
  import opened Ledgers
  import opened Migrations

  datatype Move = Move(from: Key, to: Key)

  /** The moves carrying over entry i makes. */
  function MovesAt(es: seq<Entry>, i: nat): seq<Move>
    requires i < |es|
  {
    if !CarriesOver(es, i) then []
    else
      [Move(EntryKey(Previous(es[i])), EntryKey(Identity(es[i])))]
      + if PreviousStripped(es[i]) == EMPTY then []
        else [Move(StrippedKey(PreviousStripped(es[i])), StrippedTarget(es, i))]
  }

  function MovesTo(es: seq<Entry>, n: nat): seq<Move>
    requires n <= |es|
  {
    if n == 0 then [] else MovesTo(es, n - 1) + MovesAt(es, n - 1)
  }

  function Moves(es: seq<Entry>): seq<Move> { MovesTo(es, |es|) }

  function MoveAll(moves: seq<Move>, sent: map<Key, int>): map<Key, int> {
    if moves == [] then sent
    else MoveKey(MoveAll(moves[..|moves| - 1], sent), moves[|moves| - 1].from, moves[|moves| - 1].to)
  }

  /** Where one recorded key ends up; NoKey when it is dropped. */
  function Follow(moves: seq<Move>, k: Key): Key {
    if moves == [] then k
    else
      var at := Follow(moves[..|moves| - 1], k);
      if at == moves[|moves| - 1].from then moves[|moves| - 1].to else at
  }

  ghost predicate FromRecords(moves: seq<Move>) {
    forall i :: 0 <= i < |moves| ==> moves[i].from != NoKey
  }

  lemma {:induction false} MoveAllAppend(a: seq<Move>, b: seq<Move>, sent: map<Key, int>)
    ensures MoveAll(a + b, sent) == MoveAll(b, MoveAll(a, sent))
  {
    if b == [] {
      assert a + b == a;
    } else {
      assert (a + b)[..|a + b| - 1] == a + b[..|b| - 1];
      MoveAllAppend(a, b[..|b| - 1], sent);
    }
  }

  lemma MovesAtRekey(es: seq<Entry>, b: Books, i: nat)
    requires i < |es|
    ensures Step(es, b, i).sent == MoveAll(MovesAt(es, i), b.sent)
    ensures FromRecords(MovesAt(es, i))
  {
    hide Identity;
    hide Count;
    hide Unique;
    var moves := MovesAt(es, i);
    if |moves| == 2 {
      assert moves[..1] == [moves[0]];
    }
    if moves != [] {
      assert [moves[0]][..0] == [];
      assert MoveAll([moves[0]], b.sent) == MoveKey(b.sent, moves[0].from, moves[0].to);
    }
  }

  /** The migration makes these moves, in this order. */
  lemma {:induction false} MigratedMoves(es: seq<Entry>, b: Books, n: nat)
    requires n <= |es|
    ensures MigratedTo(es, b, n).sent == MoveAll(MovesTo(es, n), b.sent) && FromRecords(MovesTo(es, n))
  {
    hide FromRecords;
    hide MoveAll;
    hide MovesAt;
    hide Step;
    if n > 0 {
      MigratedMoves(es, b, n - 1);
      MovesAtRekey(es, MigratedTo(es, b, n - 1), n - 1);
      MoveAllAppend(MovesTo(es, n - 1), MovesAt(es, n - 1), b.sent);
      AllFromRecords(MovesTo(es, n - 1), MovesAt(es, n - 1));
    } else {
      NoMoves(b.sent);
    }
  }

  lemma AllFromRecords(a: seq<Move>, b: seq<Move>)
    requires FromRecords(a) && FromRecords(b)
    ensures FromRecords(a + b)
  {
  }

  lemma NoMoves(sent: map<Key, int>)
    ensures MoveAll([], sent) == sent && FromRecords([])
  {
  }

  /** after records what sent does, at the keys f leads its keys to. */
  ghost predicate Led(f: Key -> Key, sent: map<Key, int>, after: map<Key, int>) {
    && f(NoKey) == NoKey
    && (forall k :: k in sent && (f(k) != NoKey || k == NoKey) ==> f(k) in after)
    && (forall x :: x in after ==> exists k :: k in sent && f(k) == x && sent[k] == after[x])
  }

  lemma LedOn(f: Key -> Key, g: Key -> Key, sent: map<Key, int>, now: map<Key, int>, m: Move)
    requires Led(f, sent, now) && m.from != NoKey
    requires forall k :: g(k) == if f(k) == m.from then m.to else f(k)
    ensures Led(g, sent, MoveKey(now, m.from, m.to))
  {
    var after := MoveKey(now, m.from, m.to);
    forall x | x in after ensures exists k :: k in sent && g(k) == x && sent[k] == after[x] {
      var y := if x in now && x != m.from then x else m.from;
      var k :| k in sent && f(k) == y && sent[k] == now[y];
      assert g(k) == x;
    }
  }

  /** A recorded key is found, with its time, where following the moves leads some recorded key;
      and every recorded key that is not dropped leads to one. */
  lemma {:induction false} FollowedKeys(moves: seq<Move>, sent: map<Key, int>)
    requires FromRecords(moves)
    ensures Led(k => Follow(moves, k), sent, MoveAll(moves, sent))
  {
    if moves != [] {
      var front := moves[..|moves| - 1];
      FollowedKeys(front, sent);
      hide Led;
      hide MoveKey;
      LedOn(k => Follow(front, k), k => Follow(moves, k), sent, MoveAll(front, sent), moves[|moves| - 1]);
    }
  }

  lemma {:induction false} UnmovedKeysStay(moves: seq<Move>, k: Key)
    requires forall i :: 0 <= i < |moves| ==> moves[i].from != k
    ensures Follow(moves, k) == k
  {
    if moves != [] {
      UnmovedKeysStay(moves[..|moves| - 1], k);
    }
  }

  /** Wherever the moves lead a key, they leave it there when made again. */
  predicate ComeToRest(moves: seq<Move>) {
    forall i :: 0 <= i < |moves| ==>
      Follow(moves, Follow(moves, moves[i].from)) == Follow(moves, moves[i].from)
  }

  lemma RestIsRest(moves: seq<Move>, k: Key)
    requires ComeToRest(moves)
    ensures Follow(moves, Follow(moves, k)) == Follow(moves, k)
  {
    if forall i :: 0 <= i < |moves| ==> moves[i].from != k {
      UnmovedKeysStay(moves, k);
    }
  }

  /** Books the migration left record only keys that the moves leave in place. */
  lemma MigratedKeysRest(es: seq<Entry>, b: Books, k: Key)
    requires ComeToRest(Moves(es)) && k in Migrated(es, b).sent
    ensures Follow(Moves(es), k) == k
  {
    hide ComeToRest;
    var moves, once := Moves(es), Migrated(es, b);
    MigratedMoves(es, b, |es|);
    FollowedKeys(moves, b.sent);
    var j :| j in b.sent && Follow(moves, j) == k && b.sent[j] == once.sent[k];
    RestIsRest(moves, j);
  }

  lemma RestingKeysStay(moves: seq<Move>, sent: map<Key, int>)
    requires FromRecords(moves) && forall k :: k in sent ==> Follow(moves, k) == k
    ensures MoveAll(moves, sent) == sent
  {
    FollowedKeys(moves, sent);
  }

  ghost predicate Idempotent(es: seq<Entry>) {
    forall b: Books :: Migrated(es, Migrated(es, b)) == Migrated(es, b)
  }

  /** A second pass of the migration over a fetch changes no books exactly when its moves come to
      rest, which the fetch alone decides. */
  lemma IdempotentIffMovesComeToRest(es: seq<Entry>)
    ensures Idempotent(es) <==> ComeToRest(Moves(es))
  {
    var moves := Moves(es);
    MigratedMoves(es, Books(NoMark, map[]), |es|);
    if ComeToRest(moves) {
      forall b: Books ensures Migrated(es, Migrated(es, b)) == Migrated(es, b) {
        SecondPassKeepsKeys(es, b);
        SecondPassKeepsMark(es, b);
      }
    } else {
      var i :| 0 <= i < |moves| && Follow(moves, Follow(moves, moves[i].from)) != Follow(moves, moves[i].from);
      var b := Books(NoMark, map[moves[i].from := 0]);
      RestlessKeyMoves(es, moves[i].from);
    }
  }

  lemma SecondPassKeepsKeys(es: seq<Entry>, b: Books)
    requires ComeToRest(Moves(es))
    ensures Migrated(es, Migrated(es, b)).sent == Migrated(es, b).sent
  {
    hide ComeToRest;
    var once := Migrated(es, b);
    MigratedMoves(es, once, |es|);
    forall x | x in once.sent ensures Follow(Moves(es), x) == x {
      MigratedKeysRest(es, b, x);
    }
    RestingKeysStay(Moves(es), once.sent);
  }

  lemma SecondPassKeepsMark(es: seq<Entry>, b: Books)
    ensures Migrated(es, Migrated(es, b)).mark == Migrated(es, b).mark
  {
    MigratedMarkStays(es, b, Migrated(es, b));
  }

  /** A watermark the migration left, or an entry of the fetch, stays where it is in the next pass. */
  lemma MigratedMarkStays(es: seq<Entry>, b: Books, later: Books)
    requires later.mark == Migrated(es, b).mark || exists k :: 0 <= k < |es| && later.mark == Clamp(Identity(es[k]))
    ensures Migrated(es, later).mark == later.mark
  {
    WatermarkMovesOnce(es, b, |es|);
    WatermarkMovesOnce(es, later, |es|);
    forall j | 0 <= j < |es| && CarriesOver(es, j) ensures later.mark != Clamp(Previous(es[j])) {
      if k :| 0 <= k < |es| && later.mark == Clamp(Identity(es[k])) {
        CarriesOverFacts(es, j, k);
      }
    }
  }

  /** A key the moves lead on from where they led it: recorded alone, it moves in both passes. */
  lemma RestlessKeyMoves(es: seq<Entry>, k: Key)
    requires k != NoKey && Follow(Moves(es), Follow(Moves(es), k)) != Follow(Moves(es), k)
    ensures var b := Books(NoMark, map[k := 0]);
      Migrated(es, Migrated(es, b)).sent != Migrated(es, b).sent
  {
    hide Follow;
    hide Led;
    hide MoveAll;
    hide Migrated;
    var moves, b := Moves(es), Books(NoMark, map[k := 0]);
    var once := Migrated(es, b);
    var at := Follow(moves, k);
    MovesOf(es, b);
    MovesOf(es, once);
    NoKeyStays(moves);
    FollowedKeys(moves, b.sent);
    LedOne(x => Follow(moves, x), k, once.sent);
    FollowedKeys(moves, once.sent);
    LedAway(x => Follow(moves, x), at, Migrated(es, once).sent);
  }

  lemma MovesOf(es: seq<Entry>, b: Books)
    ensures Migrated(es, b).sent == MoveAll(Moves(es), b.sent) && FromRecords(Moves(es))
  {
    MigratedMoves(es, b, |es|);
  }

  lemma LedOne(f: Key -> Key, k: Key, after: map<Key, int>)
    requires Led(f, map[k := 0], after) && f(k) != NoKey
    ensures after == map[f(k) := 0]
  {
    assert k in map[k := 0];
  }

  lemma LedAway(f: Key -> Key, k: Key, after: map<Key, int>)
    requires Led(f, map[k := 0], after) && f(k) != k
    ensures k !in after
  {
  }

  lemma NoKeyStays(moves: seq<Move>)
    requires FromRecords(moves)
    ensures Follow(moves, NoKey) == NoKey
  {
    UnmovedKeysStay(moves, NoKey);
  }

  /** NoLaterOwner is enough, and simpler to check. */
  lemma NoLaterOwnerComesToRest(es: seq<Entry>)
    requires NoLaterOwner(es)
    ensures ComeToRest(Moves(es))
  {
    forall b: Books ensures Migrated(es, Migrated(es, b)) == Migrated(es, b) {
      MigrationIsIdempotent(es, b);
    }
    IdempotentIffMovesComeToRest(es);
  }
}
