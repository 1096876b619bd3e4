/** RateLimiter: per-webhook deadlines shared by concurrent senders. A webhook stands for its
    hashed key. Times count nanoseconds from Go's zero time, which a missing map entry reads as. */
module RateLimits {
  import opened Basics

  type Deadlines = map<string, int>

  const MAX_COOLDOWN: int := 3600 * SECOND
  const MAX_PACE_WAIT: int := 5 * SECOND

  function Until(m: Deadlines, key: string): int {
    if key in m then m[key] else 0
  }

  /** pruneExpired: what is left at now. */
  function Live(m: Deadlines, now: int): Deadlines {
    map k | k in m && m[k] > now :: m[k]
  }

  /** A deadline is only ever moved later. */
  function Raised(m: Deadlines, key: string, until: int): Deadlines {
    if until > Until(m, key) then m[key := until] else m
  }

  function Min(a: int, b: int): int { if a < b then a else b }

  const MIN_DURATION: int := -0x8000_0000_0000_0000
  const MAX_DURATION: int := 0x7fff_ffff_ffff_ffff

  /** time.Time.Sub, which saturates. */
  function Sub(a: int, b: int): (d: int)
    ensures d > 0 <==> a > b
    ensures MIN_DURATION <= a - b <= MAX_DURATION ==> d == a - b
  {
    if a - b < MIN_DURATION then MIN_DURATION else if a - b > MAX_DURATION then MAX_DURATION else a - b
  }

  class RateLimiter {
    var cooldowns: Deadlines
    var pacing: Deadlines

    constructor ()
      ensures cooldowns == map[] && pacing == map[]
    {
      cooldowns, pacing := map[], map[];
    }

    /** The part of reserve under the lock; now was read before the lock was taken. */
    method Reserve(key: string, now: int) returns (remaining: int, cooling: bool)
      modifies this`cooldowns
      ensures cooldowns == Live(old(cooldowns), now)
      ensures cooling <==> Until(old(cooldowns), key) > now && key in old(cooldowns)
      ensures remaining == if cooling then Sub(Until(old(cooldowns), key), now) else 0
    {
      cooldowns := Live(cooldowns, now);
      if key in cooldowns {
        remaining := Sub(cooldowns[key], now);
        if remaining > 0 {
          return remaining, true;
        }
      }
      return 0, false;
    }

    /** cooldown, whose clock is read under the lock. */
    method Cooldown(key: string, retryAfter: int, now: int)
      modifies this`cooldowns
      ensures cooldowns == Raised(old(cooldowns), key, now + Min(retryAfter, MAX_COOLDOWN))
      ensures var until := now + if retryAfter <= 3600 * SECOND then retryAfter else 3600 * SECOND;
        var before := Until(old(cooldowns), key);
        Until(cooldowns, key) == if until > before then until else before
    {
      var until := now + Min(retryAfter, MAX_COOLDOWN);
      if until > Until(cooldowns, key) {
        cooldowns := cooldowns[key := until];
      }
    }

    method Pace(key: string, d: int, now: int)
      modifies this`pacing
      ensures pacing == Raised(old(pacing), key, now + Min(d, MAX_PACE_WAIT))
      ensures var until := now + if d <= 5 * SECOND then d else 5 * SECOND;
        var before := Until(old(pacing), key);
        Until(pacing, key) == if until > before then until else before
    {
      var until := now + Min(d, MAX_PACE_WAIT);
      if until > Until(pacing, key) {
        pacing := pacing[key := until];
      }
    }

    /** The part of paceDelay under the lock; now was read before the lock was taken. The caller is
        told to wait exactly when the key's refill is still ahead of now, for all that is left. */
    method PaceDelay(key: string, now: nat) returns (delay: int)
      modifies this`pacing
      ensures forall k :: k in pacing <==> k in old(pacing) && old(pacing)[k] > now
      ensures forall k :: k in pacing ==> pacing[k] == old(pacing)[k]
      ensures delay > 0 ==> key in old(pacing) && delay == Sub(old(pacing)[key], now)
      ensures delay > 0 <==> key in old(pacing) && old(pacing)[key] > now
    {
      pacing := Live(pacing, now);
      delay := Sub(Until(pacing, key), now);
    }
  }

  /** One step of the senders sharing a limiter: time passes, a thread reads the clock before it
      waits for the lock, asks about a key once it holds it, or notes a wait for a key. */
  datatype Event = Tick(d: nat) | ReadClock(thread: nat) | Ask(thread: nat, key: string) | Note(key: string, wait: int)

  datatype Noted = Noted(key: string, until: int)

  /** kept is the limiter's map. noted lists every deadline ever noted and full is the map of a
      limiter that never prunes; both only serve the specification. */
  datatype State = State(kept: Deadlines, clock: nat, readings: map<nat, int>, noted: set<Noted>, full: Deadlines)

  const START := State(map[], 0, map[], {}, map[])

  function Next(s: State, e: Event, cap: nat): State {
    match e
    case Tick(d) => s.(clock := s.clock + d)
    case ReadClock(t) => s.(readings := s.readings[t := s.clock])
    case Ask(t, key) => if t in s.readings then s.(kept := Live(s.kept, s.readings[t])) else s
    case Note(key, wait) =>
      var until := s.clock + Min(wait, cap);
      s.(kept := Raised(s.kept, key, until), noted := s.noted + {Noted(key, until)}, full := Raised(s.full, key, until))
  }

  function Run(evs: seq<Event>, cap: nat): State {
    if evs == [] then START else Next(Run(evs[..|evs| - 1], cap), evs[|evs| - 1], cap)
  }

  /** Pruning is invisible for key k: a deadline still running is that of a limiter that never
      prunes, which is the latest one noted. */
  ghost predicate InvariantAt(s: State, cap: nat, k: string) {
    && (k in s.kept ==> k in s.full && s.kept[k] <= s.full[k] && Noted(k, s.kept[k]) in s.noted)
    && (k in s.full && s.full[k] > s.clock ==> k in s.kept && s.kept[k] == s.full[k])
    && (k in s.full ==> s.full[k] <= s.clock + cap)
    && (forall u :: Noted(k, u) in s.noted ==> u <= Until(s.full, k))
  }

  ghost predicate Invariant(s: State, cap: nat) {
    && (forall k :: InvariantAt(s, cap, k))
    && (forall t :: t in s.readings ==> s.readings[t] <= s.clock)
  }

  lemma NextKeepsInvariant(s: State, e: Event, cap: nat)
    requires Invariant(s, cap)
    ensures Invariant(Next(s, e, cap), cap)
  {
    forall k ensures InvariantAt(Next(s, e, cap), cap, k) {
      assert InvariantAt(s, cap, k);
    }
  }

  lemma {:induction false} AlwaysInvariant(evs: seq<Event>, cap: nat)
    ensures Invariant(Run(evs, cap), cap)
  {
    hide Invariant;
    hide Next;
    if evs != [] {
      AlwaysInvariant(evs[..|evs| - 1], cap);
      NextKeepsInvariant(Run(evs[..|evs| - 1], cap), evs[|evs| - 1], cap);
    } else {
      StartIsInvariant(cap);
    }
  }

  lemma StartIsInvariant(cap: nat)
    ensures Invariant(START, cap)
  {
  }

  /** Under every interleaving, a thread that asks about a key is let through only if no deadline
      ever noted for that key is still running when it holds the lock; and it is held back only by
      a noted deadline later than its clock reading, for what is left of it: never longer than the
      cap plus the time it waited for the lock. */
  lemma AskIsSafe(evs: seq<Event>, cap: nat, thread: nat, key: string)
    requires thread in Run(evs, cap).readings
    ensures var s := Run(evs, cap); var now := s.readings[thread];
      var left := Until(Live(s.kept, now), key);
      && (key !in Live(s.kept, now) ==> forall u :: Noted(key, u) in s.noted ==> u <= s.clock)
      && (key in Live(s.kept, now) ==>
            && Noted(key, left) in s.noted && now < left <= now + cap + (s.clock - now)
            && forall u :: Noted(key, u) in s.noted ==> u <= left || u <= s.clock)
  {
    AlwaysInvariant(evs, cap);
    assert InvariantAt(Run(evs, cap), cap, key);
  }

  lemma {:induction false} NotedStays(evs: seq<Event>, more: seq<Event>, cap: nat)
    ensures Run(evs, cap).noted <= Run(evs + more, cap).noted
  {
    if more == [] {
      assert evs + more == evs;
    } else {
      assert (evs + more)[..|evs + more| - 1] == evs + more[..|more| - 1];
      NotedStays(evs, more[..|more| - 1], cap);
    }
  }

  /** Once a wait for a key is noted, no thread is let through before the wait, or the cap when that is
      shorter, is over, whatever happens in between, and each one asking is told to wait at least until then. */
  lemma NotedWaitIsKept(evs: seq<Event>, key: string, wait: int, more: seq<Event>, cap: nat, thread: nat)
    requires thread in Run(evs + [Note(key, wait)] + more, cap).readings
    ensures var s := Run(evs + [Note(key, wait)] + more, cap);
      var until := Run(evs, cap).clock + if wait <= cap then wait else cap;
      s.clock < until ==> key in Live(s.kept, s.readings[thread]) && s.kept[key] >= until
  {
    var note := evs + [Note(key, wait)];
    assert note[..|note| - 1] == evs;
    NotedStays(note, more, cap);
    AskIsSafe(note + more, cap, thread, key);
    var until := Run(evs, cap).clock + Min(wait, cap);
    assert Noted(key, until) in Run(note, cap).noted;
    assert Noted(key, until) in Run(note + more, cap).noted;
  }

  /** While some deadline noted for the key is running, a thread is told to wait for longer than the
      cap exactly when one was noted later than the thread's clock reading plus the cap. In any case
      such a wait is until a noted deadline, and time has passed between the reading and the lock. */
  lemma WaitBeyondTheCap(evs: seq<Event>, cap: nat, thread: nat, key: string)
    requires thread in Run(evs, cap).readings
    ensures var s := Run(evs, cap); var now := s.readings[thread]; var live := Live(s.kept, now);
      var tooLong, noted := key in live && live[key] - now > cap, exists u :: u > now + cap && Noted(key, u) in s.noted;
      && ((exists u :: u > s.clock && Noted(key, u) in s.noted) ==> (tooLong <==> noted))
      && (tooLong ==> noted && s.clock > now)
  {
    AlwaysInvariant(evs, cap);
    assert InvariantAt(Run(evs, cap), cap, key);
  }

  /** It does happen: a deadline noted at the cap while the thread waits for the lock. */
  lemma LockWaitAddsToTheWait()
    ensures var s := Run([ReadClock(0), Tick(5), Note("k", 10)], 10);
      s.readings == map[0 := 0] && Until(Live(s.kept, s.readings[0]), "k") - s.readings[0] == 15
  {
    var evs := [ReadClock(0), Tick(5), Note("k", 10)];
    assert evs[..2] == [ReadClock(0), Tick(5)];
    assert evs[..2][..1] == [ReadClock(0)];
    assert evs[..2][..1][..0] == [];
    assert Run([ReadClock(0)], 10) == START.(readings := map[0 := 0]);
    assert Run(evs[..2], 10) == START.(readings := map[0 := 0], clock := 5);
  }

  /** A key's deadline never moves earlier, except that an expired one may be pruned. */
  lemma DeadlinesOnlyRise(evs: seq<Event>, e: Event, cap: nat, key: string)
    requires key in Run(evs, cap).kept
    ensures var s, after := Run(evs, cap), Next(Run(evs, cap), e, cap);
      if key in after.kept then after.kept[key] >= s.kept[key] else s.kept[key] <= s.clock
  {
    AlwaysInvariant(evs, cap);
  }

  /** Whenever a deadline is running, pruned and unpruned limiters agree on it, for every key. */
  lemma PruningIsInvisible(evs: seq<Event>, cap: nat)
    ensures var s := Run(evs, cap); Live(s.kept, s.clock) == Live(s.full, s.clock)
  {
    AlwaysInvariant(evs, cap);
    var s := Run(evs, cap);
    forall k ensures k in Live(s.kept, s.clock) <==> k in Live(s.full, s.clock) {
      assert InvariantAt(s, cap, k);
    }
    forall k | k in Live(s.full, s.clock) ensures s.kept[k] == s.full[k] {
      assert InvariantAt(s, cap, k);
    }
  }
}
