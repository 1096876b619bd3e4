/** entryDelivery: the send loop of one sync, with its stop and skip policy. */
module Deliveries {
  import opened Basics
  import opened Identities
  import opened Statuses
  import opened Ledgers
  import opened Attempts

  datatype RenderResult = Renders | RenderFails | RenderPanics

  datatype SendResult = Accepted | SendFails(err: SendError, at: int) | SendPanics

  /** The feed's filter and templates, how Discord answers each entry in this sync, and how far
      recording each outcome gets, of an entry or of the sync as a whole. */
  datatype Feed = Feed(
    matches: Entry -> bool, filterPanics: Entry -> bool, renders: Entry -> RenderResult, sends: Entry -> SendResult,
    records: (Option<Entry>, Outcome) -> Reach)

  datatype Evidence = SomeRenders | NoneRenders | EvidencePanics

  /** otherEntryRenders over the plan's window. */
  function OtherRenders(f: Feed, window: seq<Entry>, skip: Entry): Evidence {
    if window == [] then NoneRenders
    else
      var other := window[0];
      if Identity(other) == Identity(skip) then OtherRenders(f, window[1..], skip)
      else if f.filterPanics(other) then EvidencePanics
      else if !f.matches(other) then OtherRenders(f, window[1..], skip)
      else match f.renders(other)
        case Renders => SomeRenders
        case RenderPanics => EvidencePanics
        case RenderFails => OtherRenders(f, window[1..], skip)
  }

  datatype Handled = Handled(entry: Entry, skipped: bool)

  datatype End = Done(verdict: Verdict) | Panicked

  datatype Delivered = Delivered(st: Status, handled: seq<Handled>, end: End)

  function Prepend(handled: seq<Handled>, d: Delivered): Delivered {
    d.(handled := handled + d.handled)
  }

  function Handle(es: seq<Entry>, st: Status, e: Entry, env: Env): Status {
    st.(books := MarkHandled(es, st.books, e, env.SentAt()))
  }

  /** What one entry of the scan came to: the scan goes on, or ends. */
  datatype Turn = GoOn(st: Status, handled: seq<Handled>) | Stop(d: Delivered)

  /** e is marked handled, then outcome o of it is recorded. */
  function Conclude(env: Env, f: Feed, es: seq<Entry>, st: Status, e: Entry, o: Outcome): Turn {
    var reach := f.records(Some(e), o);
    var after, handled := RecordedUpTo(Handle(es, st, e, env), o, env, reach), [Handled(e, o == EntrySkipped)];
    if reach == Completes then GoOn(after, handled) else Stop(Delivered(after, handled, Panicked))
  }

  /** Outcome o of e is recorded and ends the scan. */
  function Fail(env: Env, f: Feed, st: Status, e: Entry, o: Outcome): Delivered {
    var reach := f.records(Some(e), o);
    Delivered(RecordedUpTo(st, o, env, reach), [], if reach == Completes then Done(VerdictOf(st, o, env)) else Panicked)
  }

  /** One turn of the scan, at an unsent entry that the filter does not turn down. */
  function TurnAt(env: Env, f: Feed, es: seq<Entry>, window: seq<Entry>, st: Status, e: Entry): Turn {
    if f.filterPanics(e) then Stop(Delivered(st, [], Panicked))
    else match f.renders(e)
      case RenderPanics => Stop(Delivered(st, [], Panicked))
      case RenderFails =>
        var failed := Fail(env, f, st, e, RenderFailed);
        if failed.end.Panicked? || failed.st.run.count <= env.MaxRetries() then Stop(failed)
        else (match OtherRenders(f, window, e)
          case EvidencePanics => Stop(Delivered(failed.st, [], Panicked))
          case NoneRenders => Stop(failed)
          case SomeRenders => Conclude(env, f, es, failed.st, e, EntrySkipped))
      case Renders =>
        match f.sends(e)
        case SendPanics => Stop(Delivered(st, [], Panicked))
        case SendFails(err, at) => Stop(Fail(env, f, st, e, SendFailed(err, at)))
        case Accepted => Conclude(env, f, es, st, e, EntrySent)
  }

  /** The scan passes over e: it was sent before, or the filter turns it down. */
  predicate PassedOver(f: Feed, es: seq<Entry>, sent: map<Key, int>, e: Entry) {
    Sent(es, sent, e) || (!f.filterPanics(e) && !f.matches(e))
  }

  /** The scan of es[i..] from st; window is what otherEntryRenders looks at. */
  function Deliver(env: Env, f: Feed, es: seq<Entry>, window: seq<Entry>, st: Status, i: nat): Delivered
    requires i <= |es|
    decreases |es| - i
  {
    if i == |es| then Delivered(st, [], Done(NOTHING))
    else if PassedOver(f, es, st.books.sent, es[i]) then Deliver(env, f, es, window, st, i + 1)
    else match TurnAt(env, f, es, window, st, es[i])
      case Stop(d) => d
      case GoOn(next, handled) => Prepend(handled, Deliver(env, f, es, window, next, i + 1))
  }

  /** The search for evidence ends at this entry: it is another one, and renders or panics, or panics in
      the filter. */
  predicate Decides(f: Feed, other: Entry, skip: Entry) {
    Identity(other) != Identity(skip) && (f.filterPanics(other) || (f.matches(other) && f.renders(other) != RenderFails))
  }

  ghost predicate DecidesFirst(f: Feed, window: seq<Entry>, skip: Entry, j: nat)
    requires j < |window|
  {
    Decides(f, window[j], skip) && forall i :: 0 <= i < j ==> !Decides(f, window[i], skip)
  }

  predicate Visible(f: Feed, e: Entry) { !f.filterPanics(e) && f.matches(e) && f.renders(e) == Renders }

  method OtherEntryRenders(f: Feed, window: seq<Entry>, skip: Entry) returns (r: Evidence)
    ensures r == OtherRenders(f, window, skip)
    ensures r == NoneRenders <==> forall j :: 0 <= j < |window| ==> !Decides(f, window[j], skip)
    ensures r == SomeRenders <==> exists j :: 0 <= j < |window| && DecidesFirst(f, window, skip, j) && Visible(f, window[j])
  {
    var i := 0;
    while i < |window|
      invariant 0 <= i <= |window|
      invariant OtherRenders(f, window, skip) == OtherRenders(f, window[i..], skip)
      invariant forall j :: 0 <= j < i ==> !Decides(f, window[j], skip)
    {
      var other := window[i];
      if Identity(other) != Identity(skip) {
        if f.filterPanics(other) {
          return EvidencePanics;
        }
        if f.matches(other) {
          match f.renders(other) {
            case Renders => return SomeRenders;
            case RenderPanics => return EvidencePanics;
            case RenderFails =>
          }
        }
      }
      i := i + 1;
    }
    return NoneRenders;
  }

  /** renderFailed: e is held, or given up when past the limit with evidence against it. */
  method RenderFailure(ledger: DeliveryLedger, env: Env, f: Feed, window: seq<Entry>, e: Entry) returns (t: Turn)
    requires ledger.Valid() && !f.filterPanics(e) && f.renders(e) == RenderFails
    modifies ledger.fs
    ensures t == TurnAt(env, f, ledger.entries, window, old(ledger.fs.View()), e)
    ensures ledger.fs.View() == if t.GoOn? then t.st else t.d.st
  {
    var verdict, panicked := RecordOutcome(ledger.fs, RenderFailed, env, f.records(Some(e), RenderFailed));
    if panicked {
      return Stop(Delivered(ledger.fs.View(), [], Panicked));
    }
    if ledger.fs.RetryCount > env.MaxRetries() {
      var evidence := OtherEntryRenders(f, window, e);
      if evidence == EvidencePanics {
        return Stop(Delivered(ledger.fs.View(), [], Panicked));
      }
      if evidence == SomeRenders {
        t := ConcludeEntry(ledger, env, f, e, EntrySkipped);
        return;
      }
    }
    return Stop(Delivered(ledger.fs.View(), [], Done(verdict)));
  }

  /** Marks e handled and records its outcome. */
  method ConcludeEntry(ledger: DeliveryLedger, env: Env, f: Feed, e: Entry, o: Outcome) returns (t: Turn)
    requires ledger.Valid()
    modifies ledger.fs
    ensures t == Conclude(env, f, ledger.entries, old(ledger.fs.View()), e, o)
    ensures ledger.fs.View() == if t.GoOn? then t.st else t.d.st
  {
    hide MarkHandled;
    hide Recorded;
    hide HalfRecorded;
    ledger.Handle(e, env.SentAt());
    var _, panicked := RecordOutcome(ledger.fs, o, env, f.records(Some(e), o));
    var handled := [Handled(e, o == EntrySkipped)];
    if panicked {
      return Stop(Delivered(ledger.fs.View(), handled, Panicked));
    }
    return GoOn(ledger.fs.View(), handled);
  }

  /** Filters e, renders it and sends it. */
  method TakeTurn(ledger: DeliveryLedger, env: Env, f: Feed, window: seq<Entry>, e: Entry) returns (t: Turn)
    requires ledger.Valid()
    modifies ledger.fs
    ensures t == TurnAt(env, f, ledger.entries, window, old(ledger.fs.View()), e)
    ensures ledger.fs.View() == if t.GoOn? then t.st else t.d.st
  {
    hide Conclude;
    var fs := ledger.fs;
    if f.filterPanics(e) {
      return Stop(Delivered(fs.View(), [], Panicked));
    }
    match f.renders(e) {
      case RenderPanics => t := Stop(Delivered(fs.View(), [], Panicked));
      case RenderFails => t := RenderFailure(ledger, env, f, window, e);
      case Renders =>
        match f.sends(e) {
          case SendPanics => t := Stop(Delivered(fs.View(), [], Panicked));
          case SendFails(err, at) =>
            var o := SendFailed(err, at);
            var verdict, panicked := RecordOutcome(fs, o, env, f.records(Some(e), o));
            t := Stop(Delivered(fs.View(), [], if panicked then Panicked else Done(verdict)));
          case Accepted =>
            t := ConcludeEntry(ledger, env, f, e, EntrySent);
        }
    }
  }

  /** One unfolding of the scan, behind the entries already handled. */
  lemma LoopTurn(handled: seq<Handled>, env: Env, f: Feed, es: seq<Entry>, window: seq<Entry>, st: Status, i: nat)
    requires i < |es|
    ensures var all := Prepend(handled, Deliver(env, f, es, window, st, i));
      if Sent(es, st.books.sent, es[i]) || (!f.filterPanics(es[i]) && !f.matches(es[i])) then
        all == Prepend(handled, Deliver(env, f, es, window, st, i + 1))
      else match TurnAt(env, f, es, window, st, es[i])
        case Stop(d) => all == Delivered(d.st, handled + d.handled, d.end)
        case GoOn(next, more) => all == Prepend(handled + more, Deliver(env, f, es, window, next, i + 1))
  {
    hide TurnAt;
    hide Sent;
  }

  /** run: the loop over the plan's entries, es[start..]. */
  method SendLoop(ledger: DeliveryLedger, env: Env, f: Feed, window: seq<Entry>, start: nat)
    returns (handled: seq<Handled>, end: End)
    requires ledger.Valid() && start <= |ledger.entries|
    modifies ledger.fs
    ensures Delivered(ledger.fs.View(), handled, end) ==
            Deliver(env, f, ledger.entries, window, old(ledger.fs.View()), start)
  {
    hide *;
    var es, fs := ledger.entries, ledger.fs;
    handled := [];
    ghost var all := Deliver(env, f, es, window, fs.View(), start);
    var i := start;
    PrependNothing(all);
    while i < |es|
      invariant start <= i <= |es|
      invariant all == Prepend(handled, Deliver(env, f, es, window, fs.View(), i))
    {
      var e := es[i];
      LoopTurn(handled, env, f, es, window, fs.View(), i);
      var sent := ledger.SentAlready(e);
      if !sent && (f.filterPanics(e) || f.matches(e)) {
        var turn := TakeTurn(ledger, env, f, window, e);
        match turn {
          case Stop(d) => return handled + d.handled, d.end;
          case GoOn(_, more) => handled := handled + more;
        }
      }
      i := i + 1;
    }
    LoopEnds(handled, env, f, es, window, fs.View());
    return handled, Done(NOTHING);
  }

  lemma PrependNothing(d: Delivered)
    ensures Prepend([], d) == d
  {
  }

  lemma LoopEnds(handled: seq<Handled>, env: Env, f: Feed, es: seq<Entry>, window: seq<Entry>, st: Status)
    ensures Prepend(handled, Deliver(env, f, es, window, st, |es|)) == Delivered(st, handled, Done(NOTHING))
  {
  }
}
